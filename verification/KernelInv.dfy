/** What every step of the kernel keeps: the ring and the slots keep their own invariants, program counters
    agree across the machines, every sample carries the hash of its handler, and every lookup succeeds. */
module KernelInv {
  import opened Routing
  import opened Collections
  import opened Kernel
  import R = RingSteps
  import S = SlotSteps
  import RingSafety

  // --- the embedded machines ---

  /** A producer's step of the ring leaves the consumer alone and publishes at most its own sample. */
  lemma PutFrame<T>(s: R.Ring<T>, rs: R.Step<T>)
    requires R.Sized(s) && R.Enabled(s, rs) && R.IsProducerStep(rs)
    ensures var s' := R.Next(s, rs);
            && s'.cap == s.cap && s'.headPos == s.headPos && s'.cons == s.cons
            && |s'.prods| == |s.prods| && |s'.buf| == |s.buf| && |s'.seen| == |s.seen| && |s'.results| == |s.results|
            && s'.accepted == s.accepted + (if rs.StoreTail? then [s.prods[rs.p].x] else [])
            && s'.calls == s.calls + (if rs.Call? then [rs.x] else [])
            && s'.prods == s.prods[rs.p := s'.prods[rs.p]]
            && !s'.prods[rs.p].Idle?
            && s'.prods[rs.p].x == (if rs.Call? then rs.x else s.prods[rs.p].x)
            && (rs.StoreTail? ==> s'.prods[rs.p] == R.AtUnlock(s.prods[rs.p].x, true))
            && ((s.prods[rs.p].AtUnlock? || s.prods[rs.p].Returned?) && !rs.Call? ==>
                  s'.prods[rs.p] == R.Returned(s.prods[rs.p].x, s.prods[rs.p].ok))
  {
  }

  /** The consumer's step leaves the producers alone. */
  lemma PopFrame<T>(s: R.Ring<T>, rs: R.Step<T>)
    requires R.Sized(s) && R.Enabled(s, rs) && !R.IsProducerStep(rs)
    ensures var s' := R.Next(s, rs);
            && s'.cap == s.cap && s'.prods == s.prods && s'.accepted == s.accepted && s'.calls == s.calls
            && |s'.buf| == |s.buf| && |s'.seen| == |s.seen| && |s'.results| == |s.results|
            && s'.headPos == s.headPos + (if rs.StoreHead? then 1 else 0)
            && (rs.StoreHead? ==> s'.cons == R.Got(s.cons.x))
            && (s'.cons.Got? ==> rs.StoreHead?)
            && (s'.cons.SawEmpty? ==> rs.PopLoadTail?)
            && !s'.cons.Rest?
  {
  }

  /** With a fresh load the consumer finds the ring empty only when nothing is queued. */
  lemma EmptyIsEmpty<T>(s: R.Ring<T>, rs: R.Step<T>)
    requires RingSafety.Inv(s) && R.Enabled(s, rs) && !R.IsProducerStep(rs) && R.Fresh(s, rs)
    requires R.Next(s, rs).cons.SawEmpty?
    ensures s.headPos == |s.accepted|
  {
    PopFrame(s, rs);
    RingSafety.PopLoadInv(s, rs);
  }

  // --- what each group of steps leaves alone ---

  lemma CallbackFrame(s: State, c: CallbackStep)
    requires Sized(s) && CallbackEnabled(s, c)
    ensures var s' := CallbackNext(s, c);
            && s'.hs == s.hs && s'.index == s.index && s'.keys == s.keys
            && s'.re == s.re && s'.delivered == s.delivered && s'.running == s.running
            && |s'.cbs| == |s.cbs| && |s'.slots| == |s.slots|
  {
  }

  /** A callback takes nothing out of the ring or a slot. */
  lemma CallbackKeeps(s: State, c: CallbackStep)
    requires Sized(s) && CallbackEnabled(s, c)
    ensures var s' := CallbackNext(s, c);
            && s'.ring.headPos == s.ring.headPos && s'.ring.cons == s.ring.cons && s'.ring.cap == s.ring.cap
            && s.ring.accepted <= s'.ring.accepted && |s'.slots| == |s.slots|
    ensures forall i :: 0 <= i < |s.slots| ==>
              && CallbackNext(s, c).slots[i].takes == s.slots[i].takes
              && CallbackNext(s, c).slots[i].taker == s.slots[i].taker
  {
    match c
    case Offer(p, h) =>
      if !s.hs[h].priority.BACKGROUND? {
        PutFrame(s.ring, R.Call(p, SampleOf(s, Frame(|s.offered|, h))));
      }
    case RingPut(rs) => PutFrame(s.ring, rs);
    case _ =>
  }

  lemma DispatchFrame(s: State, d: DispatchStep)
    requires Sized(s) && DispatchEnabled(s, d)
    ensures var s' := DispatchNext(s, d);
            && s'.hs == s.hs && s'.index == s.index && s'.keys == s.keys
            && s'.cbs == s.cbs && s'.offered == s.offered && s'.running == s.running && |s'.slots| == |s.slots|
  {
  }

  lemma LoopFrame(s: State, l: LoopStep)
    requires Sized(s) && LoopEnabled(s, l)
    ensures var s' := LoopNext(s, l);
            && s'.hs == s.hs && s'.index == s.index && s'.keys == s.keys
            && s'.ring == s.ring && s'.slots == s.slots && s'.cbs == s.cbs
            && s'.offered == s.offered && s'.delivered == s.delivered && s'.unrouted == s.unrouted
            && s'.running == s.running
            && (s.re.Loop? || s.re.Syncing? || s.re.Scan? || s.re.Wait? || s.re.Read? || s.re.Seen? || s.re.ArmGet? || s.re.ArmSubmit?)
            && !s'.re.Popping? && !s'.re.RingHand? && !s'.re.Taking? && !s'.re.SlotHand? && !s'.re.Drain?
            && (s'.re.Scan? ==> s'.re.i <= |s.slots|)
  {
  }

  lemma SystemFrame(s: State, o: SystemStep)
    requires Sized(s) && SystemEnabled(s, o)
    ensures var s' := SystemNext(s, o);
            && s'.hs == s.hs && s'.index == s.index && s'.keys == s.keys
            && s'.ring == s.ring && s'.slots == s.slots && s'.cbs == s.cbs && s'.re == s.re
            && s'.offered == s.offered && s'.delivered == s.delivered && s'.unrouted == s.unrouted
  {
  }

  ghost predicate Machines(s: State) {
    && Sized(s)
    && RingSafety.Inv(s.ring)
    && forall i :: 0 <= i < |s.slots| ==> S.Inv(s.slots[i])
  }

  lemma InitMachines(s: State)
    requires Init(s)
    ensures Machines(s)
  {
    RingSafety.InitInv(s.ring);
  }


  lemma RingMoved(s: State, s': State, rs: R.Step<Sample>)
    requires Machines(s) && R.Enabled(s.ring, rs)
    requires s'.ring == R.Next(s.ring, rs) && s'.slots == s.slots && s'.keys == s.keys && |s'.cbs| == |s.cbs|
    ensures Machines(s')
  {
    RingSafety.NextInv(s.ring, rs);
    if R.IsProducerStep(rs) {
      PutFrame(s.ring, rs);
    } else {
      PopFrame(s.ring, rs);
    }
  }

  lemma SlotMoved(s: State, s': State, i: nat, ss: S.Step<Sample>)
    requires Machines(s) && i < |s.slots| && S.Enabled(s.slots[i], ss)
    requires s'.ring == s.ring && s'.slots == s.slots[i := S.Next(s.slots[i], ss)] && s'.keys == s.keys
    requires |s'.cbs| == |s.cbs|
    ensures Machines(s')
  {
    S.NextInv(s.slots[i], ss);
    assert forall j :: 0 <= j < |s.slots| ==> S.Inv(s'.slots[j]);
  }

  lemma NextMachines(s: State, st: Step)
    requires Machines(s) && Enabled(s, st)
    ensures Machines(Next(s, st))
  {
    match st
    case Callbacks(c) => CallbackMachines(s, c);
    case Dispatches(d) => DispatchMachines(s, d);
    case Loops(l) => LoopFrame(s, l);
    case System(o) => SystemFrame(s, o);
  }

  lemma CallbackMachines(s: State, c: CallbackStep)
    requires Machines(s) && CallbackEnabled(s, c)
    ensures Machines(CallbackNext(s, c))
  {
    var s' := CallbackNext(s, c);
    match c
    case Offer(p, h) =>
      var x := SampleOf(s, Frame(|s.offered|, h));
      var i := Find(s.keys, s.hs[h].hash);
      if !s.hs[h].priority.BACKGROUND? {
        RingMoved(s, s', R.Call(p, x));
      } else if i < |s.slots| {
        SlotMoved(s, s', i, S.Call(p, x));
      }
    case RingPut(rs) => RingMoved(s, s', rs);
    case SlotPut(i, ss) => SlotMoved(s, s', i, ss);
    case _ =>
  }

  lemma DispatchMachines(s: State, d: DispatchStep)
    requires Machines(s) && DispatchEnabled(s, d)
    ensures Machines(DispatchNext(s, d))
  {
    var s' := DispatchNext(s, d);
    match d
    case RingPop(rs) => RingMoved(s, s', rs);
    case BeginTake => SlotMoved(s, s', s.re.i, S.CallTake);
    case SlotTake(ss) => SlotMoved(s, s', s.re.i, ss);
    case _ =>
  }

  // --- program counters agree ---

  /** A callback inside push has its own frame in the ring's producer. */
  ghost predicate PushLink(cbs: seq<Callback>, prods: seq<R.Producer<Sample>>) {
    && |cbs| == |prods|
    && forall p :: 0 <= p < |cbs| && cbs[p].Pushing? ==> !prods[p].Idle? && prods[p].x.frame == cbs[p].f
  }

  predicate InPop(cons: R.Consumer<Sample>) {
    cons.AtLoadLimit? || cons.AtMoveOut? || cons.AtDestroy? || cons.AtStoreHead?
  }

  ghost predicate PopLink(re: Reactor, cons: R.Consumer<Sample>) {
    && (re.Popping? <==> InPop(cons))
    && (re.RingHand? ==> cons == R.Got(re.x))
  }

  predicate InTake(taker: S.Taker<Sample>) {
    taker.SpinTake? || taker.AtTake? || taker.AtRelease?
  }

  ghost predicate TakeLink(re: Reactor, slots: seq<S.Slot<Sample>>) {
    && (forall i :: 0 <= i < |slots| ==> (InTake(slots[i].taker) <==> re == Taking(i)))
    && (re.Taking? ==> re.i < |slots|)
    && (re.SlotHand? ==> re.i < |slots| && slots[re.i].taker == S.Took(Some(re.x)))
    && (re.Drain? || re.Scan? ==> re.i <= |slots|)
  }

  ghost predicate Links(s: State) {
    && PushLink(s.cbs, s.ring.prods)
    && PopLink(s.re, s.ring.cons)
    && TakeLink(s.re, s.slots)
  }

  lemma InitLinks(s: State)
    requires Init(s)
    ensures Links(s)
  {
  }

  lemma CallbackLinks(s: State, c: CallbackStep)
    requires Sized(s) && Links(s) && CallbackEnabled(s, c)
    ensures Links(CallbackNext(s, c))
  {
    match c
    case Offer(p, h) =>
      if !s.hs[h].priority.BACKGROUND? {
        PutFrame(s.ring, R.Call(p, SampleOf(s, Frame(|s.offered|, h))));
      }
    case RingPut(rs) => PutFrame(s.ring, rs);
    case SlotPut(i, ss) => assert S.Next(s.slots[i], ss).taker == s.slots[i].taker;
    case _ =>
  }

  lemma DispatchLinks(s: State, d: DispatchStep)
    requires Sized(s) && Links(s) && DispatchEnabled(s, d)
    ensures Links(DispatchNext(s, d))
  {
    match d
    case RingPop(rs) => PopFrame(s.ring, rs);
    case _ =>
  }

  lemma NextLinks(s: State, st: Step)
    requires Sized(s) && Links(s) && Enabled(s, st)
    ensures Links(Next(s, st))
  {
    match st
    case Callbacks(c) => CallbackLinks(s, c);
    case Dispatches(d) => DispatchLinks(s, d);
    case Loops(l) => LoopFrame(s, l);
    case System(o) => SystemFrame(s, o);
  }

  // --- every sample carries its handler's hash, and every lookup succeeds ---

  ghost predicate Good(hs: seq<Handler>, x: Sample) {
    x.frame.handler < |hs| && x.hash == hs[x.frame.handler].hash
  }

  ghost predicate GoodRing(hs: seq<Handler>, prods: seq<R.Producer<Sample>>, accepted: seq<Sample>) {
    && (forall p :: 0 <= p < |prods| && !prods[p].Idle? ==> Good(hs, prods[p].x))
    && (forall k :: 0 <= k < |accepted| ==> Good(hs, accepted[k]))
  }

  ghost predicate GoodSlot(hs: seq<Handler>, slot: S.Slot<Sample>) {
    && (forall p :: 0 <= p < |slot.putters| && !slot.putters[p].Idle? ==> Good(hs, slot.putters[p].x))
    && (slot.data.Some? ==> Good(hs, slot.data.value))
    && (forall k :: 0 <= k < |slot.takes| ==> Good(hs, slot.takes[k]))
  }

  ghost predicate GoodSlots(hs: seq<Handler>, slots: seq<S.Slot<Sample>>) {
    forall i :: 0 <= i < |slots| ==> GoodSlot(hs, slots[i])
  }

  ghost predicate Routed(s: State) {
    && Hashed(s.hs) && s.index == Index(s.hs) && Allocated(s.hs, s.keys)
    && GoodRing(s.hs, s.ring.prods, s.ring.accepted)
    && GoodSlots(s.hs, s.slots)
    && s.unrouted == 0
  }

  lemma NextGoodSlot(hs: seq<Handler>, slot: S.Slot<Sample>, ss: S.Step<Sample>)
    requires GoodSlot(hs, slot) && S.Enabled(slot, ss)
    requires ss.Call? ==> Good(hs, ss.x)
    ensures GoodSlot(hs, S.Next(slot, ss))
  {
  }

  /** The sample in the reactor's hand was accepted by the ring or taken from a slot. */
  lemma HandGood(s: State)
    requires Machines(s) && Links(s) && Routed(s)
    ensures s.re.RingHand? || s.re.SlotHand? ==> Good(s.hs, s.re.x) && s.re.x.hash in s.index
  {
    IndexIsFirst(s.hs);
    if s.re.RingHand? {
      assert s.re.x == s.ring.accepted[s.ring.headPos - 1];
    } else if s.re.SlotHand? {
      assert S.TakerOk(s.slots[s.re.i]);
    }
  }

  lemma RingStepGood(hs: seq<Handler>, ring: R.Ring<Sample>, rs: R.Step<Sample>)
    requires R.Sized(ring) && R.Enabled(ring, rs) && GoodRing(hs, ring.prods, ring.accepted)
    requires rs.Call? ==> Good(hs, rs.x)
    ensures GoodRing(hs, R.Next(ring, rs).prods, R.Next(ring, rs).accepted)
  {
    if R.IsProducerStep(rs) {
      PutFrame(ring, rs);
    } else {
      PopFrame(ring, rs);
    }
  }

  lemma CallbackRouted(s: State, c: CallbackStep)
    requires Sized(s) && Routed(s) && CallbackEnabled(s, c)
    ensures Routed(CallbackNext(s, c))
  {
    match c
    case Offer(p, h) =>
      var x := SampleOf(s, Frame(|s.offered|, h));
      var i := Find(s.keys, s.hs[h].hash);
      if !s.hs[h].priority.BACKGROUND? {
        RingStepGood(s.hs, s.ring, R.Call(p, x));
      } else {
        NextGoodSlot(s.hs, s.slots[i], S.Call(p, x));
      }
    case RingPut(rs) => RingStepGood(s.hs, s.ring, rs);
    case SlotPut(i, ss) => NextGoodSlot(s.hs, s.slots[i], ss);
    case _ =>
  }

  lemma DispatchRouted(s: State, d: DispatchStep)
    requires Machines(s) && Links(s) && Routed(s) && DispatchEnabled(s, d)
    ensures Routed(DispatchNext(s, d))
  {
    match d
    case RingPop(rs) => RingStepGood(s.hs, s.ring, rs);
    case BeginTake => NextGoodSlot(s.hs, s.slots[s.re.i], S.CallTake);
    case SlotTake(ss) => NextGoodSlot(s.hs, s.slots[s.re.i], ss);
    case _ => HandGood(s);
  }

  lemma NextRouted(s: State, st: Step)
    requires Machines(s) && Links(s) && Routed(s) && Enabled(s, st)
    ensures Routed(Next(s, st))
  {
    match st
    case Callbacks(c) => CallbackRouted(s, c);
    case Dispatches(d) => DispatchRouted(s, d);
    case Loops(l) => LoopFrame(s, l);
    case System(o) => SystemFrame(s, o);
  }

  /** What every step of the kernel keeps. */
  ghost predicate Inv(s: State) {
    Machines(s) && Links(s) && Routed(s)
  }

  lemma InitInv(s: State)
    requires Init(s)
    ensures Inv(s)
  {
    InitMachines(s);
    InitLinks(s);
  }

  lemma NextInv(s: State, st: Step)
    requires Inv(s) && Enabled(s, st)
    ensures Inv(Next(s, st))
  {
    NextMachines(s, st);
    NextLinks(s, st);
    NextRouted(s, st);
  }

  lemma {:induction false} RunInv(states: seq<State>, steps: seq<Step>, n: nat)
    requires Run(states, steps) && n <= |steps|
    ensures Inv(states[n])
  {
    if n == 0 {
      InitInv(states[0]);
    } else {
      RunInv(states, steps, n - 1);
      NextInv(states[n - 1], steps[n - 1]);
    }
  }

  /** In every run every hash in the ring or in a slot is found in the index, every BACKGROUND callback finds
      its slot, and no lookup ever fails. */
  lemma EveryLookupSucceeds(states: seq<State>, steps: seq<Step>, n: nat)
    requires Run(states, steps) && n <= |steps|
    ensures states[n].unrouted == 0
    ensures forall k :: 0 <= k < |states[n].ring.accepted| ==> states[n].ring.accepted[k].hash in states[n].index
    ensures forall i :: 0 <= i < |states[n].slots| && states[n].slots[i].data.Some? ==>
              states[n].slots[i].data.value.hash in states[n].index
    ensures forall h :: 0 <= h < |states[n].hs| && states[n].hs[h].priority.BACKGROUND? ==>
              Find(states[n].keys, states[n].hs[h].hash) < |states[n].slots|
  {
    RunInv(states, steps, n);
    var s := states[n];
    IndexIsFirst(s.hs);
    assert forall k :: 0 <= k < |s.ring.accepted| ==> Good(s.hs, s.ring.accepted[k]);
    assert forall i :: 0 <= i < |s.slots| ==> GoodSlot(s.hs, s.slots[i]);
  }
}
