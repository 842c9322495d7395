/** The latest-only slot and the cache of slots as objects on the heap, one call at a time. */
module LatestCache {
  import opened Collections
  import opened Mask
  import Fnv
  import opened LatestOnly

  /** A sample handed to the consumer: the handler hash it was put with, and its payload. */
  datatype Sample<T> = Sample(hash: Fnv.Word, payload: T)

  /** One slot of the cache seen as a value. */
  datatype SlotState<T> = SlotState(hash: Fnv.Word, slot: Slot<Sample<T>>)

  /** What a drain that passes over the slots in `held` takes from one slot, and what it leaves. */
  function Handed<T>(x: SlotState<T>, held: set<Fnv.Word>): seq<Sample<T>> {
    if x.hash !in held && x.slot.content.Some? then [x.slot.content.value] else []
  }

  function Left<T>(x: SlotState<T>, held: set<Fnv.Word>): SlotState<T> {
    if x.hash in held then x else x.(slot := Apply(x.slot, Take))
  }

  /** The samples waiting in the slots whose hash is not in `held`, in order. */
  function Waiting<T>(s: seq<SlotState<T>>, held: set<Fnv.Word>): seq<Sample<T>> {
    if s == [] then [] else Waiting(s[..|s| - 1], held) + Handed(s[|s| - 1], held)
  }

  /** The slots after a drain that passes over those in `held`. */
  function Drained<T>(s: seq<SlotState<T>>, held: set<Fnv.Word>): (r: seq<SlotState<T>>)
    ensures |r| == |s|
  {
    if s == [] then [] else Drained(s[..|s| - 1], held) + [Left(s[|s| - 1], held)]
  }

  /** The sum of the drop counters. */
  function Dropped<T>(s: seq<SlotState<T>>): nat {
    if s == [] then 0 else Dropped(s[..|s| - 1]) + s[|s| - 1].slot.drops
  }

  /** A drain hands out at most one sample per slot; what it hands out and what it leaves behind is exactly what was
      waiting. */
  lemma {:induction false} NothingLost<T>(s: seq<SlotState<T>>, held: set<Fnv.Word>)
    ensures |Waiting(s, held)| <= |s|
    ensures multiset(Waiting(s, {})) == multiset(Waiting(s, held)) + multiset(Waiting(Drained(s, held), {}))
  {
    if s != [] {
      var n := |s| - 1;
      NothingLost(s[..n], held);
      assert Drained(s, held)[..n] == Drained(s[..n], held);
    }
  }

  /** A drain moves no drop counter. */
  lemma {:induction false} DrainDropsNothing<T>(s: seq<SlotState<T>>, held: set<Fnv.Word>)
    ensures Dropped(Drained(s, held)) == Dropped(s)
  {
    if s != [] {
      var n := |s| - 1;
      DrainDropsNothing(s[..n], held);
      assert Drained(s, held)[..n] == Drained(s[..n], held);
    }
  }

  /** Every slot as allocated. */
  predicate Blank<T>(s: seq<SlotState<T>>) {
    forall i :: 0 <= i < |s| ==> s[i].slot == Slot(None, 0)
  }

  lemma Joined<T>(s: seq<SlotState<T>>, added: seq<SlotState<T>>, more: seq<SlotState<T>>)
    ensures (s + added) + more == s + (added + more)
    ensures Blank(added) && Blank(more) ==> Blank(added + more)
  {
  }

  /** What a drain has handed out and left behind after its first `i` slots. */
  ghost predicate Passed<T>(was: seq<SlotState<T>>, held: set<Fnv.Word>, i: nat, out: seq<Sample<T>>, now: seq<SlotState<T>>) {
    i <= |was| && out == Waiting(was[..i], held) && now == Drained(was[..i], held) + was[i..]
  }

  lemma Extend<T>(was: seq<SlotState<T>>, held: set<Fnv.Word>, i: nat)
    requires i < |was|
    ensures Waiting(was[..i + 1], held) == Waiting(was[..i], held) + Handed(was[i], held)
    ensures Drained(was[..i + 1], held) == Drained(was[..i], held) + [Left(was[i], held)]
  {
    assert was[..i + 1][..i] == was[..i] && was[..i + 1][i] == was[i];
  }

  lemma Replace<T>(d: seq<T>, s: seq<T>, i: nat, y: T)
    requires |d| == i < |s|
    ensures (d + s[i..])[i] == s[i] && (d + s[i..])[i := y] == d + [y] + s[i + 1..]
  {
  }

  lemma DrainStep<T>(was: seq<SlotState<T>>, held: set<Fnv.Word>, i: nat, out: seq<Sample<T>>, now: seq<SlotState<T>>)
    requires Passed(was, held, i, out, now) && i < |was|
    ensures |now| == |was|
    ensures Passed(was, held, i + 1, out + Handed(now[i], held), now[i := Left(now[i], held)])
  {
    Extend(was, held, i);
    Replace(Drained(was[..i], held), was, i, Left(was[i], held));
  }

  lemma DrainEnd<T>(was: seq<SlotState<T>>, held: set<Fnv.Word>, i: nat, out: seq<Sample<T>>, now: seq<SlotState<T>>)
    requires Passed(was, held, i, out, now) && i == |was|
    ensures out == Waiting(was, held) && now == Drained(was, held)
  {
    assert was[..i] == was;
  }

  /** A slot whose lock is held keeps its sample, and every other one ends empty. */
  lemma {:induction false} DrainedAll<T>(s: seq<SlotState<T>>, held: set<Fnv.Word>)
    ensures forall i :: 0 <= i < |s| ==>
              Drained(s, held)[i] == if s[i].hash in held then s[i] else s[i].(slot := s[i].slot.(content := None))
  {
    if s != [] {
      DrainedAll(s[..|s| - 1], held);
    }
  }

  /** Samples are handed out slot by slot, in the order of the slots. */
  lemma {:induction false} WaitingInOrder<T>(s: seq<SlotState<T>>, t: seq<SlotState<T>>, held: set<Fnv.Word>)
    ensures Waiting(s + t, held) == Waiting(s, held) + Waiting(t, held)
    ensures |s| == 1 ==> Waiting(s, held) == if s[0].hash !in held && s[0].slot.content.Some? then [s[0].slot.content.value] else []
  {
    if |s| == 1 {
      assert s[..0] == [];
    }
    if t == [] {
      assert s + t == s;
    } else {
      var n := |t| - 1;
      WaitingInOrder(s, t[..n], held);
      assert (s + t)[..|s + t| - 1] == s + t[..n];
    }
  }

  /** The slots after a sample was put: the slot of its hash, if there is one, has the sample. */
  function Offered<T>(s: seq<SlotState<T>>, x: Sample<T>): (r: seq<SlotState<T>>)
    ensures |r| == |s|
  {
    seq(|s|, i requires 0 <= i < |s| => if s[i].hash == x.hash then s[i].(slot := Apply(s[i].slot, Put(x))) else s[i])
  }

  /** Without a slot for its hash a put changes nothing. */
  lemma OfferMisses<T>(s: seq<SlotState<T>>, x: Sample<T>)
    requires forall j :: 0 <= j < |s| ==> s[j].hash != x.hash
    ensures Offered(s, x) == s
  {
  }

  /** Every put is kept or counted: with a slot for its hash, the sample waits, and the samples waiting plus those
      dropped grow by one. */
  lemma {:induction false} OfferCounted<T>(s: seq<SlotState<T>>, x: Sample<T>, i: nat)
    requires i < |s| && s[i].hash == x.hash && forall j, k :: 0 <= j < k < |s| ==> s[j].hash != s[k].hash
    ensures x in Waiting(Offered(s, x), {})
    ensures (|Waiting(Offered(s, x), {})| + Dropped(Offered(s, x))) % U64 == (|Waiting(s, {})| + Dropped(s) + 1) % U64
  {
    var n := |s| - 1;
    var front := s[..n];
    assert Offered(s, x)[..n] == Offered(front, x);
    if i == n {
      OfferMisses(front, x);
      OneMore(|Waiting(front, {})| + Dropped(front), s[n].slot.drops);
    } else {
      OfferCounted(front, x, i);
      CarryOver(|Waiting(Offered(front, x), {})| + Dropped(Offered(front, x)), |Waiting(front, {})| + Dropped(front) + 1,
                |Handed(s[n], {})| + s[n].slot.drops);
    }
  }

  lemma CarryOver(a: nat, b: nat, more: nat)
    requires a % U64 == b % U64
    ensures (a + more) % U64 == (b + more) % U64
  {
    ModAdd(a, more);
    ModAdd(b, more);
  }

  lemma OneMore(rest: nat, drops: nat)
    ensures (rest + 1 + WrappingAdd(drops, 1)) % U64 == (rest + 1 + drops + 1) % U64
  {
    ModAdd(drops + 1, rest + 1);
  }

  class LatestSampleSlot<T> {
    var content: Option<Sample<T>>
    var dropCount: nat

    constructor ()
      ensures content == None && dropCount == 0
    {
      content, dropCount := None, 0;
    }

    ghost function State(): Slot<Sample<T>>
      reads this
    {
      Slot(content, dropCount)
    }

    /** Overwrites what is there, counting it as dropped. */
    method Put(hash: Fnv.Word, payload: T)
      modifies this
      ensures State() == Apply(old(State()), LatestOnly.Put(Sample(hash, payload)))
    {
      if content.Some? {
        dropCount := (dropCount + 1) % U64;
      }
      content := Some(Sample(hash, payload));
    }

    /** Empties the slot and hands out what was there. */
    method Take() returns (r: Option<Sample<T>>)
      modifies this`content
      ensures r == old(State()).content && State() == Apply(old(State()), LatestOnly.Take)
    {
      r := content;
      content := None;
    }
  }

  class LatestSampleCache<T> {
    var slots: map<Fnv.Word, LatestSampleSlot<T>>
    var order: seq<Fnv.Word>        // the keys in iteration order
    ghost var repr: set<LatestSampleSlot<T>>

    ghost predicate Valid()
      reads this`slots, this`order, this`repr
    {
      && (forall i :: 0 <= i < |order| ==> order[i] in slots && slots[order[i]] in repr)
      && (forall i, j :: 0 <= i < j < |order| ==> order[i] != order[j] && slots[order[i]] != slots[order[j]])
    }

    /** The iteration order misses no key. */
    ghost predicate Complete()
      reads this`slots, this`order
    {
      forall h :: h in slots ==> h in order
    }

    /** `s` is the state of the slots, in iteration order. */
    ghost predicate Shows(s: seq<SlotState<T>>)
      reads this`slots, this`order, this`repr, repr
    {
      && |s| == |order|
      && forall i :: 0 <= i < |s| ==>
           && order[i] in slots && slots[order[i]] in repr
           && s[i] == SlotState(order[i], slots[order[i]].State())
    }

    /** Every slot is empty. */
    ghost predicate Emptied()
      reads this`slots, this`order, this`repr, repr
    {
      forall i :: 0 <= i < |order| ==>
        order[i] in slots && slots[order[i]] in repr && slots[order[i]].content == None
    }

    lemma DrainedEmpty(s: seq<SlotState<T>>)
      requires Shows(Drained(s, {}))
      ensures Emptied()
    {
      DrainedAll(s, {});
    }

    constructor ()
      ensures Valid() && Complete() && order == [] && fresh(repr)
    {
      slots, order, repr := map[], [], {};
    }

    /** Enters a blank slot under a new hash. */
    method Enter(hash: Fnv.Word, slot: LatestSampleSlot<T>, ghost s: seq<SlotState<T>>)
      requires Valid() && Complete() && Shows(s) && hash !in slots
      requires slot !in repr && slot.State() == Slot(None, 0)
      modifies this
      ensures Valid() && Complete() && Shows(s + [SlotState(hash, Slot(None, 0))])
      ensures slots == old(slots)[hash := slot] && repr == old(repr) + {slot}
    {
      slots, order, repr := slots[hash := slot], order + [hash], repr + {slot};
    }

    /** A blank slot for a new hash; a hash that has one keeps it. */
    method PreAllocate(hash: Fnv.Word, ghost s: seq<SlotState<T>>) returns (ghost added: seq<SlotState<T>>)
      requires Valid() && Complete() && Shows(s)
      modifies this
      ensures Valid() && Complete() && fresh(repr - old(repr))
      ensures slots.Keys == old(slots).Keys + {hash}
      ensures added == (if hash in old(slots) then [] else [SlotState(hash, Slot(None, 0))]) && Shows(s + added)
      ensures forall h :: h in old(slots) ==> slots[h] == old(slots)[h]
    {
      added := [];
      assert s + added == s;
      if hash !in slots {
        var slot := new LatestSampleSlot();
        Enter(hash, slot, s);
        added := [SlotState(hash, Slot(None, 0))];
      }
    }

    /** The slot of a hash: there is one exactly when the iteration order names the hash, and its state is the one
        shown at that place. */
    method GetSlotFast(hash: Fnv.Word, ghost s: seq<SlotState<T>>) returns (slot: Option<LatestSampleSlot<T>>)
      requires Valid() && Complete() && Shows(s)
      ensures slot.Some? <==> hash in order
      ensures slot.Some? ==> slot.value in repr && SlotState(hash, slot.value.State()) in s
      ensures forall i :: 0 <= i < |order| ==> (slot == Some(slots[order[i]]) <==> order[i] == hash)
    {
      slot := if hash in slots then Some(slots[hash]) else None;
      if hash in slots {
        var i :| 0 <= i < |order| && order[i] == hash;
        assert s[i] == SlotState(hash, slots[hash].State());
      }
    }

    /** The BACKGROUND half of a callback: put the sample into the slot of its hash, if there is one. */
    method Offer(hash: Fnv.Word, payload: T, ghost s: seq<SlotState<T>>)
      requires Valid() && Complete() && Shows(s)
      modifies repr
      ensures Shows(Offered(s, Sample(hash, payload)))
    {
      var slot := GetSlotFast(hash, s);
      if slot.Some? {
        slot.value.Put(hash, payload);
      }
    }

    /** Adds what the slot at a place of the iteration order holds, unless its lock is held, and empties it. */
    method TakeAt(i: nat, held: set<Fnv.Word>, ghost now: seq<SlotState<T>>, out: seq<Sample<T>>) returns (r: seq<Sample<T>>)
      requires Valid() && Shows(now) && i < |order|
      modifies repr
      ensures Shows(now[i := Left(now[i], held)]) && r == out + Handed(now[i], held)
    {
      r := out;
      if order[i] !in held {
        var item := slots[order[i]].Take();
        if item.Some? {
          r := out + [item.value];
        }
      }
    }

    /** One turn of a drain. */
    method DrainOne(i: nat, held: set<Fnv.Word>, out: seq<Sample<T>>, ghost was: seq<SlotState<T>>, ghost now: seq<SlotState<T>>)
      returns (r: seq<Sample<T>>, ghost left: seq<SlotState<T>>)
      requires Valid() && Shows(now) && i < |order| && Passed(was, held, i, out, now)
      modifies repr
      ensures Shows(left) && Passed(was, held, i + 1, r, left)
    {
      DrainStep(was, held, i, out, now);
      r := TakeAt(i, held, now, out);
      left := now[i := Left(now[i], held)];
    }

    /** Empties every slot whose lock is free, in iteration order; slots in `held` are passed over and keep
        their sample. The C++ cache waits for each lock, so nothing is held there. */
    method Drain(held: set<Fnv.Word>, ghost was: seq<SlotState<T>>) returns (out: seq<Sample<T>>)
      requires Valid() && Shows(was)
      modifies repr
      ensures Shows(Drained(was, held))
      ensures out == Waiting(was, held)
    {
      out := [];
      ghost var now := was;
      var i := 0;
      while i < |order|
        invariant 0 <= i <= |order| && Shows(now)
        invariant Passed(was, held, i, out, now)
      {
        out, now := DrainOne(i, held, out, was, now);
        i := i + 1;
      }
      DrainEnd(was, held, i, out, now);
    }

    /** The total of the slots' drop counters, modulo 2^64. */
    method GetTotalDropped(ghost s: seq<SlotState<T>>) returns (total: nat)
      requires Shows(s)
      ensures total == Dropped(s) % U64
    {
      total := 0;
      for i := 0 to |order|
        invariant total == Dropped(s[..i]) % U64
      {
        assert s[..i + 1][..i] == s[..i];
        ModAdd(Dropped(s[..i]), slots[order[i]].dropCount);
        total := WrappingAdd(total, slots[order[i]].dropCount);
      }
      assert s[..|order|] == s;
    }
  }
}
