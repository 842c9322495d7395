/** The reactor's drop attribution over runs of the kernel: what it reads from the ring's counter while callbacks keep
    counting, and that its two counters then tell exactly the frames the ring refused. */
module KernelAccounting {
  import opened Accounting
  import opened Kernel
  import opened Mask
  import opened Routing
  import KernelInv
  import R = RingSteps

  /** The reactor's variables that only its own steps use: the account, the counts of the drain in progress, and the
      history of the account. */
  datatype Books = Books(account: Account, critical: nat, normal: nat, events: seq<Event>)

  function Recorded(b: Books, e: Event): Books {
    b.(account := Apply(b.account, e), events := b.events + [e])
  }

  /** What a step of the kernel does to them. A synchronisation and a reset load the ring's drop counter. */
  ghost function Booked(s: State, st: Step, b: Books): Books
    requires Sized(s) && Enabled(s, st)
  {
    if st == Loops(SyncDrops) then Recorded(b, Event.Sync(s.ring.dropped)).(critical := 0, normal := 0)
    else if st == Loops(LoopStep.Reset) then Recorded(b, Event.Reset(s.ring.dropped))
    else if st == Dispatches(DispatchRing) && s.re.x.hash in s.index then
      var i := s.index[s.re.x.hash];
      if i < |s.hs| && s.hs[i].priority.CRITICAL? then b.(critical := b.critical + 1) else b.(normal := b.normal + 1)
    else if st.Dispatches? && st.d.RingPop? && DispatchNext(s, st.d).ring.cons.SawEmpty? then
      Recorded(b, Drained(b.critical, b.normal))
    else b
  }

  ghost function BooksOf(states: seq<State>, steps: seq<Step>, n: nat): Books
    requires Run(states, steps) && n <= |steps|
  {
    if n == 0 then Books(FRESH, 0, 0, []) else Booked(states[n - 1], steps[n - 1], BooksOf(states, steps, n - 1))
  }

  /** At every synchronisation the counts of the cycle before were at most `most`. */
  ghost predicate AtMost(es: seq<Event>, most: nat) {
    es == [] ||
      (AtMost(es[..|es| - 1], most) &&
       (es[|es| - 1].Sync? ==>
          var a := Replay(es[..|es| - 1]);
          a.criticalCount + a.normalCount <= most))
  }

  lemma {:induction false} AtMostGrows(es: seq<Event>, most: nat, more: nat)
    requires AtMost(es, most) && most <= more
    ensures AtMost(es, more)
  {
    if es != [] {
      AtMostGrows(es[..|es| - 1], most, more);
    }
  }

  lemma {:induction false} AtMostFits(es: seq<Event>, most: nat)
    requires AtMost(es, most) && most < U64
    ensures CountsFit(es)
  {
    if es != [] {
      AtMostFits(es[..|es| - 1], most);
    }
  }

  /** The account is the replay of its events; these are values of a counter that only grows; and no cycle dispatched
      more frames than have been delivered. */
  ghost predicate Kept(b: Books, dropped: nat, delivered: nat) {
    && b.account == Replay(b.events)
    && Growing(b.events) && SyncedAt(b.events) <= dropped
    && b.critical + b.normal <= delivered
    && b.account.criticalCount + b.account.normalCount <= delivered
    && AtMost(b.events, delivered)
  }

  lemma RecordedLast(b: Books, e: Event)
    ensures var es := Recorded(b, e).events; es[|es| - 1] == e && es[..|es| - 1] == b.events
  {
  }

  lemma RecordKept(b: Books, e: Event, dropped: nat, delivered: nat)
    requires Kept(b, dropped, delivered)
    requires e == Event.Sync(dropped) || e == Event.Reset(dropped) || e == Drained(b.critical, b.normal)
    ensures Kept(Recorded(b, e), dropped, delivered)
  {
    RecordedLast(b, e);
    if e.Drained? {
      Reduced(b.critical);
      Reduced(b.normal);
    } else if e.Sync? {
      SyncedCounts(b.account, dropped % U64);
    }
  }

  lemma Reduced(x: nat)
    ensures x % U64 <= x
  {
  }

  lemma SyncedCounts(a: Account, current: nat)
    ensures Synced(a, current).criticalCount == a.criticalCount && Synced(a, current).normalCount == a.normalCount
  {
  }

  lemma LaterKept(b: Books, dropped: nat, dropped': nat, delivered: nat, delivered': nat)
    requires Kept(b, dropped, delivered) && dropped <= dropped' && delivered <= delivered'
    ensures Kept(b, dropped', delivered')
  {
    AtMostGrows(b.events, delivered, delivered');
  }

  lemma RingDropped<T>(s: R.Ring<T>, rs: R.Step<T>)
    requires R.Sized(s) && R.Enabled(s, rs)
    ensures R.Next(s, rs).dropped >= s.dropped
  {
  }

  /** Neither the ring's counter nor the number of callbacks goes back; ring dispatches add one callback. */
  lemma StepGrows(s: State, st: Step)
    requires Sized(s) && Enabled(s, st)
    ensures Next(s, st).ring.dropped >= s.ring.dropped
    ensures |Next(s, st).delivered| >= |s.delivered|
          + (if st == Dispatches(DispatchRing) && s.re.x.hash in s.index then 1 else 0)
  {
    match st
    case Callbacks(c) =>
      KernelInv.CallbackFrame(s, c);
      CallbackDropped(s, c);
    case Dispatches(d) =>
      if d.RingPop? {
        RingDropped(s.ring, d.rs);
      }
    case Loops(l) => KernelInv.LoopFrame(s, l);
    case System(o) => KernelInv.SystemFrame(s, o);
  }

  lemma CallbackDropped(s: State, c: CallbackStep)
    requires Sized(s) && CallbackEnabled(s, c)
    ensures CallbackNext(s, c).ring.dropped >= s.ring.dropped
  {
    match c
    case Offer(p, h) =>
      if !s.hs[h].priority.BACKGROUND? {
        RingDropped(s.ring, R.Call(p, SampleOf(s, Frame(|s.offered|, h))));
      }
    case RingPut(rs) => RingDropped(s.ring, rs);
    case _ =>
  }

  lemma BookedKept(s: State, st: Step, b: Books)
    requires Sized(s) && Enabled(s, st) && Kept(b, s.ring.dropped, |s.delivered|)
    ensures Kept(Booked(s, st, b), Next(s, st).ring.dropped, |Next(s, st).delivered|)
  {
    StepGrows(s, st);
    var b' := Booked(s, st, b);
    var dropped, delivered, delivered' := s.ring.dropped, |s.delivered|, |Next(s, st).delivered|;
    if st == Loops(SyncDrops) {
      RecordKept(b, Event.Sync(dropped), dropped, delivered);
    } else if st == Loops(LoopStep.Reset) {
      RecordKept(b, Event.Reset(dropped), dropped, delivered);
    } else if st == Dispatches(DispatchRing) && s.re.x.hash in s.index {
      LaterKept(b, dropped, dropped, delivered, delivered');
    } else if st.Dispatches? && st.d.RingPop? && DispatchNext(s, st.d).ring.cons.SawEmpty? {
      RecordKept(b, Drained(b.critical, b.normal), dropped, delivered);
    }
    LaterKept(if st == Dispatches(DispatchRing) then b else b', dropped, Next(s, st).ring.dropped, delivered, delivered');
  }

  lemma {:induction false} RunBooked(states: seq<State>, steps: seq<Step>, n: nat)
    requires Run(states, steps) && n <= |steps|
    ensures Kept(BooksOf(states, steps, n), states[n].ring.dropped, |states[n].delivered|)
  {
    if n > 0 {
      RunBooked(states, steps, n - 1);
      BookedKept(states[n - 1], steps[n - 1], BooksOf(states, steps, n - 1));
    }
  }

  lemma Attributed(b: Books, dropped: nat, delivered: nat)
    requires Kept(b, dropped, delivered) && dropped < U64 && delivered < U64
    ensures b.account.critical + b.account.normal == SyncedAt(b.events) - ResetAt(b.events)
    ensures ResetAt(b.events) <= SyncedAt(b.events) <= dropped && NoUnderflow(b.events)
  {
    AtMostFits(b.events, delivered);
    Ordered(b.events);
    AttributionExact(b.events);
  }

  lemma SyncBooked(s: State, b: Books)
    requires Sized(s) && LoopEnabled(s, SyncDrops)
    ensures SyncedAt(Booked(s, Loops(SyncDrops), b).events) == LoopNext(s, SyncDrops).ring.dropped
  {
    RecordedLast(b, Event.Sync(s.ring.dropped));
  }

  lemma AfterSync(states: seq<State>, steps: seq<Step>, n: nat)
    requires Run(states, steps) && 0 < n <= |steps| && steps[n - 1] == Loops(SyncDrops)
    ensures SyncedAt(BooksOf(states, steps, n).events) == states[n].ring.dropped
  {
    var s, b := states[n - 1], BooksOf(states, steps, n - 1);
    assert states[n] == Next(s, steps[n - 1]) == LoopNext(s, SyncDrops);
    assert BooksOf(states, steps, n) == Booked(s, Loops(SyncDrops), b);
    SyncBooked(s, b);
  }

  /** In every run with fewer than 2^64 drops and callbacks, whatever the callbacks do between the reactor's loads: the
      two drop counters add up to the growth of the ring's counter from the last reset to the last synchronisation,
      and no subtraction on the way underflowed. Right after a synchronisation that is every frame refused since the
      reset. */
  lemma DropsAttributed(states: seq<State>, steps: seq<Step>, n: nat)
    requires Run(states, steps) && n <= |steps|
    requires states[n].ring.dropped < U64 && |states[n].delivered| < U64
    ensures var b := BooksOf(states, steps, n);
            && b.account.critical + b.account.normal == SyncedAt(b.events) - ResetAt(b.events)
            && ResetAt(b.events) <= SyncedAt(b.events) <= states[n].ring.dropped
            && NoUnderflow(b.events)
            && (n > 0 && steps[n - 1] == Loops(SyncDrops) ==> SyncedAt(b.events) == states[n].ring.dropped)
  {
    RunBooked(states, steps, n);
    Attributed(BooksOf(states, steps, n), states[n].ring.dropped, |states[n].delivered|);
    if n > 0 && steps[n - 1] == Loops(SyncDrops) {
      AfterSync(states, steps, n);
    }
  }
  // --- the split is proportional ---

  lemma {:induction false} EventsFit(es: seq<Event>, dropped: nat, delivered: nat)
    requires Growing(es) && AtMost(es, delivered) && SyncedAt(es) <= dropped
    requires dropped < U64 && delivered < U64 && dropped * delivered < U64
    ensures Fits(es)
  {
    if es != [] {
      var before := es[..|es| - 1];
      EventsFit(before, dropped, delivered);
      if es[|es| - 1].Sync? {
        var a, drops := Replay(before), es[|es| - 1].drops;
        AttributionComplete(before);
        WrappedGrowth(drops, SyncedAt(before));
        ProductWithin(drops - SyncedAt(before), a.criticalCount, dropped, delivered);
      }
    }
  }

  lemma ProductWithin(a: nat, b: nat, x: nat, y: nat)
    requires a <= x && b <= y
    ensures a * b <= x * y
  {
    MulMonotone(a, x, b);
    MulMonotone(b, y, x);
  }

  /** The CRITICAL counter is the sum of the parts of the synchronisations that split new drops and of the drops credited
      whole; the parts are at most the exact shares, and less than one below them for each. */
  ghost predicate Proportional(b: Books) {
    var t := Tallied(b.events);
    && b.account.critical == t.parts + t.whole
    && t.parts as real <= t.shares
    && (if t.count == 0 then t.shares == t.parts as real else t.shares < t.parts as real + t.count as real)
  }

  lemma BooksProportional(b: Books, dropped: nat, delivered: nat)
    requires Kept(b, dropped, delivered)
    requires dropped < U64 && delivered < U64 && dropped * delivered < U64
    ensures Proportional(b)
  {
    AtMostFits(b.events, delivered);
    Ordered(b.events);
    TalliedWithin(b.events);
    SmallWord(Tallied(b.events).parts + Tallied(b.events).whole);
    EventsFit(b.events, dropped, delivered);
    AttributionProportional(b.events);
  }

  /** In every run of the kernel whose drops times callbacks fit in 64 bits the split of the drops since the last reset is
      proportional, up to less than one drop for each synchronisation that split some. */
  lemma DropsProportional(states: seq<State>, steps: seq<Step>, n: nat)
    requires Run(states, steps) && n <= |steps|
    requires states[n].ring.dropped < U64 && |states[n].delivered| < U64
    requires states[n].ring.dropped * |states[n].delivered| < U64
    ensures Proportional(BooksOf(states, steps, n))
  {
    RunBooked(states, steps, n);
    BooksProportional(BooksOf(states, steps, n), states[n].ring.dropped, |states[n].delivered|);
  }
  // --- the counts are those of the cycle ---

  /** The callbacks since position `from` that reached a handler of a priority. */
  ghost function Reached(hs: seq<Handler>, ds: seq<Dispatch>, from: nat, critical: bool): set<int> {
    set k | from <= k < |ds| && ds[k].reached < |hs| && (hs[ds[k].reached].priority == CRITICAL) == critical
  }

  ghost predicate Told(b: Books, s: State) {
    (s.re.Pop? || s.re.Popping? || s.re.RingHand?) ==>
      && s.cycleStart <= |s.delivered|
      && b.critical == |Reached(s.hs, s.delivered, s.cycleStart, true)|
      && b.normal == |Reached(s.hs, s.delivered, s.cycleStart, false)|
  }

  lemma ReachedAppend(hs: seq<Handler>, ds: seq<Dispatch>, from: nat, d: Dispatch, critical: bool)
    requires from <= |ds| && d.reached < |hs|
    ensures |Reached(hs, ds + [d], from, critical)|
         == |Reached(hs, ds, from, critical)| + (if (hs[d.reached].priority == CRITICAL) == critical then 1 else 0)
  {
    var before, after := Reached(hs, ds, from, critical), Reached(hs, ds + [d], from, critical);
    if (hs[d.reached].priority == CRITICAL) == critical {
      assert after == before + {|ds|};
    } else {
      assert after == before;
    }
  }

  lemma ReachedNone(hs: seq<Handler>, ds: seq<Dispatch>, critical: bool)
    ensures |Reached(hs, ds, |ds|, critical)| == 0
  {
    assert Reached(hs, ds, |ds|, critical) == {};
  }

  ghost predicate Started(s: State) {
    s.re.Syncing? ==> s.cycleStart == |s.delivered|
  }

  lemma RingDispatchTold(s: State, b: Books)
    requires Sized(s) && DispatchEnabled(s, DispatchRing) && Told(b, s)
    requires s.re.x.hash in s.index && s.index[s.re.x.hash] < |s.hs|
    ensures Told(Booked(s, Dispatches(DispatchRing), b), DispatchNext(s, DispatchRing))
  {
    var d := FromRing(s.ring.headPos - 1, s.re.x.frame, s.index[s.re.x.hash]);
    ReachedAppend(s.hs, s.delivered, s.cycleStart, d, true);
    ReachedAppend(s.hs, s.delivered, s.cycleStart, d, false);
  }

  lemma DispatchTold(s: State, d: DispatchStep, b: Books)
    requires Sized(s) && DispatchEnabled(s, d) && Told(b, s) && !d.DispatchRing?
    ensures Told(Booked(s, Dispatches(d), b), DispatchNext(s, d)) && !DispatchNext(s, d).re.Syncing?
  {
  }

  lemma LoopTold(s: State, l: LoopStep, b: Books)
    requires Sized(s) && LoopEnabled(s, l) && Told(b, s) && Started(s)
    ensures Told(Booked(s, Loops(l), b), LoopNext(s, l)) && Started(LoopNext(s, l))
  {
    ReachedNone(s.hs, s.delivered, true);
    ReachedNone(s.hs, s.delivered, false);
  }

  lemma NextTold(s: State, st: Step, b: Books)
    requires KernelInv.Inv(s) && Enabled(s, st) && Told(b, s) && Started(s)
    ensures Told(Booked(s, st, b), Next(s, st)) && Started(Next(s, st))
  {
    match st
    case Callbacks(c) => CallbackTold(s, c);
    case Dispatches(d) =>
      if d.DispatchRing? {
        KernelInv.HandGood(s);
        IndexIsFirst(s.hs);
        assert First(s.hs, s.re.x.hash, s.index[s.re.x.hash]);
        RingDispatchTold(s, b);
      } else {
        DispatchTold(s, d, b);
      }
    case Loops(l) => LoopTold(s, l, b);
    case System(o) => KernelInv.SystemFrame(s, o);
  }

  lemma CallbackTold(s: State, c: CallbackStep)
    requires Sized(s) && CallbackEnabled(s, c)
    ensures var s' := CallbackNext(s, c);
            s'.re == s.re && s'.hs == s.hs && s'.delivered == s.delivered && s'.cycleStart == s.cycleStart
  {
    KernelInv.CallbackFrame(s, c);
  }

  /** In every run, while the ring is being emptied, the two counts that the next split will use are the callbacks of this
      cycle that reached CRITICAL handlers, and the others. */
  lemma {:induction false} CountsOfCycle(states: seq<State>, steps: seq<Step>, n: nat)
    requires Run(states, steps) && n <= |steps|
    ensures Told(BooksOf(states, steps, n), states[n]) && Started(states[n])
  {
    if n > 0 {
      CountsOfCycle(states, steps, n - 1);
      KernelInv.RunInv(states, steps, n - 1);
      NextTold(states[n - 1], steps[n - 1], BooksOf(states, steps, n - 1));
    }
  }
}
