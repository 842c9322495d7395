/** How the reactor attributes the ring's drops to CRITICAL and NORMAL: counters modulo 2^64, baselines, resets. */
module Accounting {
  import opened Mask

  /** The reactor's counters: drops attributed, the ring counter at the last synchronisation, and the frames
      of each priority dispatched in the last cycle. */
  datatype Account = Account(critical: nat, normal: nat, last: nat, criticalCount: nat, normalCount: nat)

  /** What happens to an account: a synchronisation when `drops` frames have been dropped in all, the end of a
      drain that dispatched some frames, a reset when `drops` frames have been dropped in all. */
  datatype Event = Sync(drops: nat) | Drained(critical: nat, normal: nat) | Reset(drops: nat)

  const FRESH := Account(0, 0, 0, 0, 0)

  /** The part of `added` new drops that is attributed to CRITICAL when `critical` of `total` frames were. */
  function CriticalPart(added: nat, critical: nat, total: nat): nat
    requires total > 0
  {
    added * critical % U64 / total
  }

  /** The first lines of handle_events. */
  function Synced(a: Account, current: nat): Account {
    var added := WrappingSub(current, a.last);
    var total := (a.criticalCount + a.normalCount) % U64;
    if added == 0 then a.(last := current)
    else if total > 0 then
      var part := CriticalPart(added, a.criticalCount, total);
      a.(last := current,
         critical := (a.critical + part) % U64,
         normal := (a.normal + WrappingSub(added, part)) % U64)
    else
      a.(last := current, critical := (a.critical + added) % U64)
  }

  /** The synchronisation splits new drops in proportion. */
  predicate Splits(a: Account, current: nat) {
    WrappingSub(current, a.last) > 0 && (a.criticalCount + a.normalCount) % U64 > 0
  }

  function Apply(a: Account, e: Event): Account {
    match e
    case Sync(drops) => Synced(a, drops % U64)
    case Drained(c, n) => a.(criticalCount := c % U64, normalCount := n % U64)
    case Reset(drops) => Account(0, 0, drops % U64, 0, 0)
  }

  /** One cycle: a synchronisation, then the drain. */
  function Cycled(a: Account, current: nat, critical: nat, normal: nat): Account {
    Apply(Synced(a, current), Drained(critical, normal))
  }

  function Replay(es: seq<Event>): Account {
    if es == [] then FRESH else Apply(Replay(es[..|es| - 1]), es[|es| - 1])
  }

  /** The drop total at the last synchronisation or reset. */
  function SyncedAt(es: seq<Event>): nat {
    if es == [] then 0
    else
      match es[|es| - 1]
      case Drained(_, _) => SyncedAt(es[..|es| - 1])
      case Sync(drops) => drops
      case Reset(drops) => drops
  }

  /** The drop total at the last reset. */
  function ResetAt(es: seq<Event>): nat {
    if es == [] then 0
    else
      match es[|es| - 1]
      case Reset(drops) => drops
      case _ => ResetAt(es[..|es| - 1])
  }

  /** The counts of the cycle before: those of the last drain, if no reset came after it. */
  function LastCounts(es: seq<Event>): (nat, nat) {
    if es == [] then (0, 0)
    else
      match es[|es| - 1]
      case Drained(c, n) => (c, n)
      case Reset(_) => (0, 0)
      case Sync(_) => LastCounts(es[..|es| - 1])
  }

  /** A synchronisation splits by the CRITICAL and NORMAL counts of the drain before it, in these roles. */
  lemma {:induction false} CountsAreLast(es: seq<Event>)
    ensures Replay(es).criticalCount == LastCounts(es).0 % U64 && Replay(es).normalCount == LastCounts(es).1 % U64
  {
    if es != [] {
      CountsAreLast(es[..|es| - 1]);
    }
  }

  /** A cycle of the object is a synchronisation and a drain of the history. */
  lemma CycleReplayed(es: seq<Event>, drops: nat, critical: nat, normal: nat)
    ensures Replay(es + [Sync(drops), Drained(critical, normal)]) == Cycled(Replay(es), drops % U64, critical, normal)
  {
    var one, two := es + [Sync(drops)], es + [Sync(drops), Drained(critical, normal)];
    assert two[..|two| - 1] == one && one[..|one| - 1] == es;
  }

  /** The ring's counter never goes back. */
  ghost predicate Growing(es: seq<Event>) {
    es == [] ||
      (Growing(es[..|es| - 1]) &&
       match es[|es| - 1]
       case Drained(_, _) => true
       case Sync(drops) => SyncedAt(es[..|es| - 1]) <= drops
       case Reset(drops) => SyncedAt(es[..|es| - 1]) <= drops)
  }

  lemma {:induction false} Ordered(es: seq<Event>)
    requires Growing(es)
    ensures ResetAt(es) <= SyncedAt(es)
  {
    if es != [] {
      Ordered(es[..|es| - 1]);
    }
  }

  lemma SumMod(c: nat, n: nat, p: nat, d: int)
    ensures ((c + p) % U64 + (n + (d % U64 - p) % U64) % U64) % U64 == (c + n + d) % U64
  {
    var e := (d % U64 - p) % U64;
    ModAdd(c + p, (n + e) % U64);
    ModAdd(n + e, c + p);
    ModAdd(d % U64 - p, n + c + p);
    ModAdd(d, n + c);
  }

  /** One synchronisation attributes exactly the new drops, modulo 2^64, whether or not the product wraps. */
  lemma SyncAdds(a: Account, current: nat)
    ensures (Synced(a, current).critical + Synced(a, current).normal) % U64
         == (a.critical + a.normal + current - a.last) % U64
  {
    var d := current - a.last;
    var added := WrappingSub(current, a.last);
    var total := (a.criticalCount + a.normalCount) % U64;
    ModAdd(d, a.critical + a.normal);
    if added != 0 && total > 0 {
      SumMod(a.critical, a.normal, CriticalPart(added, a.criticalCount, total), d);
    } else {
      ModAdd(a.critical + added, a.normal);
    }
  }

  lemma Chain(a: int, b: int, d: int, s: int)
    requires a % U64 == b % U64
    ensures (a + d % U64 - s % U64) % U64 == (b + d - s) % U64
  {
    var k := a / U64 - b / U64 - d / U64 + s / U64;
    var q, r := (b + d - s) / U64, (b + d - s) % U64;
    assert a + d % U64 - s % U64 == b + d - s + k * U64;
    ModUnique(a + d % U64 - s % U64, U64, q + k, r);
  }

  /** Over any sequence of cycles and between-cycle resets the two counters add up to the ring's drop count at
      the last synchronisation minus its value at the last reset, modulo 2^64; no hypothesis on products,
      counts or wrap-around of the ring's counter is needed. */
  lemma {:induction false} AttributionComplete(es: seq<Event>)
    ensures (Replay(es).critical + Replay(es).normal) % U64 == (SyncedAt(es) - ResetAt(es)) % U64
    ensures Replay(es).last == SyncedAt(es) % U64
  {
    if es != [] {
      var before := es[..|es| - 1];
      AttributionComplete(before);
      var a := Replay(before);
      match es[|es| - 1]
      case Drained(_, _) =>
      case Reset(drops) =>
      case Sync(drops) =>
        SyncAdds(a, drops % U64);
        Chain(a.critical + a.normal, SyncedAt(before) - ResetAt(before), drops, SyncedAt(before));
    }
  }

  lemma SmallWord(x: int)
    requires 0 <= x < U64
    ensures x % U64 == x
  {
  }

  // --- no subtraction underflows, and the split is proportional ---

  lemma DivAtLeast(x: nat, total: nat, q: nat)
    requires total > 0 && q * total <= x
    ensures q <= x / total
  {
    MultipleAtLeast(q - x / total, total);
    assert (q - x / total) * total == q * total - x / total * total;
  }

  lemma DivBelow(x: nat, total: nat, q: nat)
    requires total > 0 && x < q * total
    ensures x / total < q
  {
    MultipleAtLeast(x / total - q + 1, total);
    assert (x / total - q + 1) * total == x / total * total - q * total + total;
  }

  lemma MulMonotone(a: nat, b: nat, c: nat)
    requires a <= b
    ensures a * c <= b * c
  {
    assert (b - a) * c == b * c - a * c;
  }

  /** The part is at most the whole, even when the product wraps: `new_dropped - c_drop` never underflows. */
  lemma PartWithin(added: nat, critical: nat, total: nat)
    requires 0 < total && critical <= total
    ensures CriticalPart(added, critical, total) <= added
  {
    var x := added * critical;
    MulMonotone(critical, total, added);
    assert x % U64 < (added + 1) * total by { assert (added + 1) * total == added * total + total; }
    DivBelow(x % U64, total, added + 1);
  }

  /** At every synchronisation the two dispatch counts of the cycle before add up in 64 bits. */
  ghost predicate CountsFit(es: seq<Event>) {
    es == [] ||
      (CountsFit(es[..|es| - 1]) &&
       (es[|es| - 1].Sync? ==>
          var a := Replay(es[..|es| - 1]);
          a.criticalCount + a.normalCount < U64))
  }

  /** Since the last reset every unsigned subtraction of a synchronisation was one of integers: the new drops are
      the ring's growth, and the CRITICAL part is taken from at least as much. */
  ghost predicate NoUnderflow(es: seq<Event>) {
    es == [] || es[|es| - 1].Reset? ||
      (NoUnderflow(es[..|es| - 1]) &&
       (es[|es| - 1].Sync? ==>
          var a, drops := Replay(es[..|es| - 1]), es[|es| - 1].drops;
          var added, total := WrappingSub(drops % U64, a.last), (a.criticalCount + a.normalCount) % U64;
          && added == drops - SyncedAt(es[..|es| - 1])
          && (total > 0 ==> CriticalPart(added, a.criticalCount, total) <= added)))
  }

  lemma WrappedGrowth(drops: nat, synced: nat)
    requires synced <= drops < synced + U64
    ensures WrappingSub(drops % U64, synced % U64) == drops - synced
  {
    Chain(0, 0, drops, synced);
    SmallWord(drops - synced);
  }

  lemma SplitExact(c: nat, n: nat, added: nat, part: nat)
    requires part <= added && c + n + added < U64
    ensures (c + part) % U64 + (n + WrappingSub(added, part)) % U64 == c + n + added
  {
    SmallWord(c + part);
    SmallWord(added - part);
    SmallWord(n + (added - part));
  }

  /** What a synchronisation adds to the two counters when it splits new drops, and when it does not. */
  lemma SyncSplits(a: Account, current: nat) returns (part: nat)
    requires a.criticalCount + a.normalCount < U64 && Splits(a, current)
    ensures part <= WrappingSub(current, a.last)
    ensures Synced(a, current).critical == (a.critical + part) % U64
    ensures Synced(a, current).normal == (a.normal + WrappingSub(WrappingSub(current, a.last), part)) % U64
  {
    var added, total := WrappingSub(current, a.last), a.criticalCount + a.normalCount;
    SmallWord(total);
    PartWithin(added, a.criticalCount, total);
    part := CriticalPart(added, a.criticalCount, total);
  }

  lemma SyncCredits(a: Account, current: nat)
    requires !Splits(a, current) && a.critical < U64
    ensures Synced(a, current).critical == (a.critical + WrappingSub(current, a.last)) % U64
    ensures Synced(a, current).normal == a.normal
  {
    SmallWord(a.critical);
  }

  lemma SyncWhole(a: Account, current: nat)
    requires a.criticalCount + a.normalCount < U64
    requires a.critical + a.normal + WrappingSub(current, a.last) < U64
    ensures Synced(a, current).critical + Synced(a, current).normal == a.critical + a.normal + WrappingSub(current, a.last)
  {
    var added := WrappingSub(current, a.last);
    if Splits(a, current) {
      var part := SyncSplits(a, current);
      SplitExact(a.critical, a.normal, added, part);
    } else {
      SyncCredits(a, current);
      SmallWord(a.critical + added);
    }
  }

  /** One synchronisation without wrap-around. */
  lemma SyncExact(a: Account, synced: nat, drops: nat)
    requires a.last == synced % U64 && synced <= drops
    requires a.criticalCount + a.normalCount < U64
    requires a.critical + a.normal + drops - synced < U64
    ensures Synced(a, drops % U64).critical + Synced(a, drops % U64).normal == a.critical + a.normal + drops - synced
    ensures WrappingSub(drops % U64, a.last) == drops - synced
  {
    WrappedGrowth(drops, synced);
    SyncWhole(a, drops % U64);
  }

  /** When fewer than 2^64 frames are dropped between resets and the counts of each cycle fit, nothing wraps or
      underflows: as integers the two counters add up to exactly the frames the ring has dropped between the last
      reset and the last synchronisation. */
  lemma {:induction false} AttributionExact(es: seq<Event>)
    requires Growing(es) && CountsFit(es) && SyncedAt(es) - ResetAt(es) < U64
    ensures Replay(es).critical + Replay(es).normal == SyncedAt(es) - ResetAt(es)
    ensures NoUnderflow(es)
  {
    if es != [] && !es[|es| - 1].Reset? {
      var before := es[..|es| - 1];
      Ordered(before);
      AttributionExact(before);
      if es[|es| - 1].Sync? {
        AttributionComplete(before);
        var a, drops := Replay(before), es[|es| - 1].drops;
        SyncExact(a, SyncedAt(before), drops);
        SmallWord(a.criticalCount + a.normalCount);
        if a.criticalCount + a.normalCount > 0 {
          PartWithin(WrappingSub(drops % U64, a.last), a.criticalCount, a.criticalCount + a.normalCount);
        }
      }
    }
  }

  /** Without the second hypothesis only the sum modulo 2^64 is right: a cycle that dispatched 2^64 - 1 CRITICAL and
      2 NORMAL frames makes the total wrap to 1, and the CRITICAL part exceeds the new drops. */
  lemma CountsMustFit()
    ensures var es := [Drained(U64 - 1, 2), Sync(5)];
            && Growing(es) && SyncedAt(es) - ResetAt(es) == 5 && !CountsFit(es)
            && Replay(es).critical == U64 - 5 && Replay(es).normal == 10
  {
    var d := [Drained(U64 - 1, 2)];
    var es := d + [Sync(5)];
    assert es == [Drained(U64 - 1, 2), Sync(5)];
    assert d[..0] == [] && es[..1] == d;
    assert Replay(d) == FRESH.(criticalCount := U64 - 1, normalCount := 2);
    assert SyncedAt(d) == 0 && ResetAt(d) == 0 && Growing(d);
  }

  /** The part is the exact share rounded down if and only if the product fits in 64 bits; otherwise it is less. */
  lemma PartExact(added: nat, critical: nat, total: nat)
    requires 0 < total < U64
    ensures CriticalPart(added, critical, total) <= added * critical / total
    ensures CriticalPart(added, critical, total) == added * critical / total <==> added * critical < U64
  {
    WordShare(added * critical, total);
  }

  /** Reducing a dividend modulo 2^64 makes the quotient smaller, unless it changes nothing. */
  lemma WordShare(x: nat, total: nat)
    requires 0 < total < U64
    ensures x % U64 / total <= x / total
    ensures x % U64 / total == x / total <==> x < U64
  {
    if x < U64 {
      SmallWord(x);
    } else {
      var y := x % U64;
      var q := y / total;
      assert (q + 1) * total == q * total + total;
      assert q * total <= y <= x - U64;
      DivAtLeast(x, total, q + 1);
    }
  }

  /** The exact share of `added` drops. */
  function Share(added: nat, critical: nat, total: nat): real
    requires total > 0
  {
    (added * critical) as real / total as real
  }

  lemma FloorBelow(x: nat, total: nat)
    requires 0 < total
    ensures (x / total) as real <= x as real / total as real < (x / total) as real + 1.0
  {
    var q, r := x / total, x % total;
    assert x == q * total + r;
    var c, share := total as real, x as real / total as real;
    assert share * c == x as real;
    assert q as real * c == (q * total) as real;
    assert (q as real + 1.0) * c == (q * total) as real + c;
    RealBelow(q as real, share, c);
    RealBelow(share, q as real + 1.0, c);
  }

  lemma PartNearShare(added: nat, critical: nat, total: nat)
    requires 0 < total < U64 && added * critical < U64
    ensures CriticalPart(added, critical, total) as real <= Share(added, critical, total)
         < CriticalPart(added, critical, total) as real + 1.0
  {
    PartExact(added, critical, total);
    FloorBelow(added * critical, total);
  }

  lemma RealBelow(a: real, b: real, c: real)
    requires c > 0.0
    ensures a * c <= b * c ==> a <= b
    ensures a * c < b * c ==> a < b
  {
    assert (a - b) * c == a * c - b * c;
    if a >= b {
      assert (a - b) * c >= 0.0;
    }
  }

  // --- the split over many cycles ---

  /** Every synchronisation that follows a cycle with dispatches, in a replay without product overflow. */
  ghost predicate Fits(es: seq<Event>) {
    es == [] ||
      (Fits(es[..|es| - 1]) &&
       var a := Replay(es[..|es| - 1]);
       match es[|es| - 1]
       case Sync(drops) =>
         && a.criticalCount + a.normalCount < U64
         && WrappingSub(drops % U64, a.last) * a.criticalCount < U64
       case _ => true)
  }

  /** Since the last reset: the parts attributed to CRITICAL by proportional synchronisations, the exact
      shares, how many there were, and the drops attributed to CRITICAL for want of a cycle. */
  datatype Tally = Tally(parts: nat, shares: real, count: nat, whole: nat)

  ghost function Tallied(es: seq<Event>): Tally {
    if es == [] then Tally(0, 0.0, 0, 0)
    else
      var t, a := Tallied(es[..|es| - 1]), Replay(es[..|es| - 1]);
      match es[|es| - 1]
      case Drained(_, _) => t
      case Reset(_) => Tally(0, 0.0, 0, 0)
      case Sync(drops) =>
        var added := WrappingSub(drops % U64, a.last);
        var total := (a.criticalCount + a.normalCount) % U64;
        if Splits(a, drops % U64) then
          Tally(t.parts + CriticalPart(added, a.criticalCount, total), t.shares + Share(added, a.criticalCount, total),
                t.count + 1, t.whole)
        else t.(whole := t.whole + added)
  }

  /** The counter is the sum of the parts and the whole drops, and the parts are near the exact shares: at most them,
      and less than one below for each synchronisation. */
  ghost predicate Near(t: Tally, critical: nat) {
    && critical == (t.parts + t.whole) % U64
    && t.parts as real <= t.shares
    && (if t.count == 0 then t.shares == t.parts as real else t.shares < t.parts as real + t.count as real)
  }

  lemma Grown(t: Tally, critical: nat, part: nat, share: real)
    requires Near(t, critical) && part as real <= share < part as real + 1.0
    ensures Near(Tally(t.parts + part, t.shares + share, t.count + 1, t.whole), (critical + part) % U64)
  {
    ModAdd(t.parts + t.whole, part);
  }

  /** After `count` proportional synchronisations the CRITICAL counter is the sum of their parts (plus what fell
      to it for want of a cycle); the parts never exceed the exact shares and fall short by less than one each. */
  lemma {:induction false} AttributionProportional(es: seq<Event>)
    requires Fits(es)
    ensures Near(Tallied(es), Replay(es).critical)
  {
    if es != [] {
      var before := es[..|es| - 1];
      AttributionProportional(before);
      var a, t := Replay(before), Tallied(before);
      match es[|es| - 1]
      case Drained(_, _) =>
      case Reset(_) =>
      case Sync(drops) =>
        var added := WrappingSub(drops % U64, a.last);
        var total := (a.criticalCount + a.normalCount) % U64;
        if Splits(a, drops % U64) {
          PartNearShare(added, a.criticalCount, total);
          Grown(t, a.critical, CriticalPart(added, a.criticalCount, total), Share(added, a.criticalCount, total));
        } else {
          ModAdd(t.parts + t.whole, added);
        }
    }
  }
  /** Without wrap-around the tally is within the drops since the reset, so the CRITICAL counter is its exact sum. */
  lemma {:induction false} TalliedWithin(es: seq<Event>)
    requires Growing(es) && CountsFit(es) && SyncedAt(es) - ResetAt(es) < U64
    ensures Tallied(es).parts + Tallied(es).whole <= SyncedAt(es) - ResetAt(es)
  {
    if es != [] && !es[|es| - 1].Reset? {
      var before := es[..|es| - 1];
      Ordered(before);
      TalliedWithin(before);
      if es[|es| - 1].Sync? {
        var a, drops := Replay(before), es[|es| - 1].drops;
        AttributionComplete(before);
        WrappedGrowth(drops, SyncedAt(before));
        SmallWord(a.criticalCount + a.normalCount);
        if Splits(a, drops % U64) {
          PartWithin(drops - SyncedAt(before), a.criticalCount, a.criticalCount + a.normalCount);
        }
      }
    }
  }
}
