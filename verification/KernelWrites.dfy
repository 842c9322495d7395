/** Who makes the eventfd readable, and what a wakeup costs: every accepted CRITICAL frame writes it once and no other frame
    does, reading empties it, and the reactor wakes at most once for each write. */
module KernelWrites {
  import opened Collections
  import opened Routing
  import opened Kernel
  import opened KernelInv
  import KernelCycle
  import KernelWakeup
  import R = RingSteps
  import S = SlotSteps

  // --- reading empties the eventfd ---

  predicate IsWrite(st: Step) {
    (st.Callbacks? && st.c.WriteEventfd?) || st == System(StopWrite)
  }

  predicate IsRead(st: Step) {
    st == Loops(ReadEventfd)
  }

  function Writes(steps: seq<Step>, n: nat): nat
    requires n <= |steps|
  {
    if n == 0 then 0 else Writes(steps, n - 1) + (if IsWrite(steps[n - 1]) then 1 else 0)
  }

  lemma EfdMoves(s: State, st: Step)
    requires Sized(s) && Enabled(s, st)
    ensures IsWrite(st) ==> Next(s, st).efd > 0 && Next(s, st).efd >= s.efd
    ensures IsRead(st) ==> Next(s, st).efd == 0
    ensures !IsWrite(st) && !IsRead(st) ==> Next(s, st).efd == s.efd
  {
  }

  /** Step `i` wrote the eventfd and no step since has read it. */
  ghost predicate Unread(steps: seq<Step>, i: int, n: nat)
    requires n <= |steps|
  {
    0 <= i < n && IsWrite(steps[i]) && forall t :: i < t < n ==> !IsRead(steps[t])
  }

  /** In every run the eventfd is readable exactly when somebody has written it since it was last read. */
  lemma {:induction false} ReadableSinceWrite(states: seq<State>, steps: seq<Step>, n: nat)
    requires Run(states, steps) && n <= |steps|
    ensures states[n].efd > 0 <==> exists i :: Unread(steps, i, n)
  {
    if n > 0 {
      ReadableSinceWrite(states, steps, n - 1);
      EfdMoves(states[n - 1], steps[n - 1]);
      if IsWrite(steps[n - 1]) {
        assert Unread(steps, n - 1, n);
      } else if IsRead(steps[n - 1]) {
        assert forall i :: Unread(steps, i, n) ==> i < n - 1 < n;
      } else {
        var m := n - 1;
        if i :| Unread(steps, i, m) {
          assert Unread(steps, i, n);
        }
        if i :| Unread(steps, i, n) {
          assert Unread(steps, i, m);
        }
      }
    }
  }

  /** A completion not yet read has been paid for, and so has a readable eventfd. */
  ghost predicate Paid(completes: nat, writes: nat, efd: nat, re: Reactor) {
    completes + (if efd > 0 && !re.Read? then 1 else 0) <= writes
  }

  lemma ReadComes(s: State, l: LoopStep)
    requires Sized(s) && LoopEnabled(s, l)
    ensures LoopNext(s, l).re.Read? <==> l.Complete?
    ensures s.re.Read? ==> l.ReadEventfd?
  {
  }

  lemma NextPaid(s: State, st: Step, t: KernelCycle.Tally, writes: nat)
    requires Sized(s) && Enabled(s, st) && Paid(t.completes, writes, s.efd, s.re)
    requires st == Loops(Complete) ==> s.efd > 0
    ensures Paid(KernelCycle.Tallied(t, s, st).completes, writes + (if IsWrite(st) then 1 else 0), Next(s, st).efd, Next(s, st).re)
  {
    EfdMoves(s, st);
    match st
    case Callbacks(c) => CallbackFrame(s, c);
    case Dispatches(d) => assert !Next(s, st).re.Read? && !s.re.Read?;
    case Loops(l) => ReadComes(s, l);
    case System(o) => SystemFrame(s, o);
  }

  /** In every run the reactor has been woken at most as often as the eventfd was written. */
  lemma {:induction false} WakeupsPaid(states: seq<State>, steps: seq<Step>, n: nat)
    requires Run(states, steps) && n <= |steps|
    ensures Paid(KernelCycle.TallyOf(states, steps, n).completes, Writes(steps, n), states[n].efd, states[n].re)
    ensures KernelCycle.TallyOf(states, steps, n).completes <= Writes(steps, n)
  {
    if n > 0 {
      WakeupsPaid(states, steps, n - 1);
      KernelWakeup.PollToken(states, steps, n - 1);
      NextPaid(states[n - 1], steps[n - 1], KernelCycle.TallyOf(states, steps, n - 1), Writes(steps, n - 1));
    }
  }

  // --- one write for each accepted CRITICAL frame ---

  function CallbackWrites(steps: seq<Step>, n: nat): nat
    requires n <= |steps|
  {
    if n == 0 then 0
    else CallbackWrites(steps, n - 1) + (if steps[n - 1].Callbacks? && steps[n - 1].c.WriteEventfd? then 1 else 0)
  }

  /** How many of the samples belong to CRITICAL handlers. */
  function Criticals(hs: seq<Handler>, xs: seq<Sample>): nat {
    if xs == [] then 0
    else
      var f := xs[|xs| - 1].frame;
      Criticals(hs, xs[..|xs| - 1]) + (if f.handler < |hs| && hs[f.handler].priority == CRITICAL then 1 else 0)
  }

  /** The count is the number of positions whose frame belongs to a CRITICAL handler. */
  lemma {:induction false} CriticalsAreCardinality(hs: seq<Handler>, xs: seq<Sample>)
    ensures Criticals(hs, xs)
         == |set k | 0 <= k < |xs| && xs[k].frame.handler < |hs| && hs[xs[k].frame.handler].priority == CRITICAL|
  {
    if xs != [] {
      var n := |xs| - 1;
      var front := xs[..n];
      CriticalsAreCardinality(hs, front);
      assert forall k :: 0 <= k < n ==> front[k] == xs[k];
      var places := set k | 0 <= k < |xs| && xs[k].frame.handler < |hs| && hs[xs[k].frame.handler].priority == CRITICAL;
      var before := set k | 0 <= k < |front| && front[k].frame.handler < |hs| && hs[front[k].frame.handler].priority == CRITICAL;
      if xs[n].frame.handler < |hs| && hs[xs[n].frame.handler].priority == CRITICAL {
        assert places == before + {n};
      } else {
        assert places == before;
      }
    }
  }

  /** 1 when the thread has had a CRITICAL frame accepted and has still to write. */
  function Owes(hs: seq<Handler>, cb: Callback, pc: R.Producer<Sample>): nat {
    if cb.Waking? || (cb.Pushing? && (pc.AtUnlock? || pc.Returned?) && pc.ok
                      && cb.f.handler < |hs| && hs[cb.f.handler].priority == CRITICAL) then 1 else 0
  }

  function OweTerms(hs: seq<Handler>, cbs: seq<Callback>, prods: seq<R.Producer<Sample>>): (t: seq<nat>)
    requires |cbs| == |prods|
    ensures |t| == |cbs| && forall p :: 0 <= p < |t| ==> t[p] == Owes(hs, cbs[p], prods[p])
  {
    seq(|cbs|, p requires 0 <= p < |cbs| => Owes(hs, cbs[p], prods[p]))
  }

  ghost predicate Settled(hs: seq<Handler>, cbs: seq<Callback>, prods: seq<R.Producer<Sample>>, accepted: seq<Sample>, writes: nat) {
    |cbs| == |prods| && writes + Sum(OweTerms(hs, cbs, prods)) == Criticals(hs, accepted)
  }

  /** One thread moves. */
  lemma OneMoves(hs: seq<Handler>, cbs: seq<Callback>, prods: seq<R.Producer<Sample>>, p: nat, cb: Callback, pc: R.Producer<Sample>)
    requires |cbs| == |prods| && p < |cbs|
    ensures Sum(OweTerms(hs, cbs[p := cb], prods[p := pc])) + Owes(hs, cbs[p], prods[p])
         == Sum(OweTerms(hs, cbs, prods)) + Owes(hs, cb, pc)
  {
    var t := OweTerms(hs, cbs, prods);
    SumUpdate(t, p, Owes(hs, cb, pc));
    assert OweTerms(hs, cbs[p := cb], prods[p := pc]) == t[p := Owes(hs, cb, pc)];
  }

  lemma RingPutSettled(s: State, rs: R.Step<Sample>, writes: nat)
    requires Sized(s) && Links(s) && CallbackEnabled(s, RingPut(rs)) && Settled(s.hs, s.cbs, s.ring.prods, s.ring.accepted, writes)
    ensures var s' := CallbackNext(s, RingPut(rs)); Settled(s'.hs, s'.cbs, s'.ring.prods, s'.ring.accepted, writes)
  {
    PutFrame(s.ring, rs);
    var ring' := R.Next(s.ring, rs);
    OneMoves(s.hs, s.cbs, s.ring.prods, rs.p, s.cbs[rs.p], ring'.prods[rs.p]);
    assert s.cbs[rs.p := s.cbs[rs.p]] == s.cbs;
    if rs.StoreTail? {
      assert ring'.accepted[..|s.ring.accepted|] == s.ring.accepted;
      assert s.ring.prods[rs.p].x.frame == s.cbs[rs.p].f;
    } else {
      PutQuiet(s.ring, rs);
      assert ring'.accepted == s.ring.accepted;
    }
  }

  /** A step of push that does not publish changes nothing about a push that has. */
  lemma PutQuiet<T>(s: R.Ring<T>, rs: R.Step<T>)
    requires R.Sized(s) && R.Enabled(s, rs) && R.IsProducerStep(rs) && !rs.Call? && !rs.StoreTail?
    ensures var pc, pc' := s.prods[rs.p], R.Next(s, rs).prods[rs.p];
            ((pc'.AtUnlock? || pc'.Returned?) && pc'.ok) <==> ((pc.AtUnlock? || pc.Returned?) && pc.ok)
  {
  }

  lemma OfferSettled(s: State, p: nat, h: nat, writes: nat)
    requires Sized(s) && CallbackEnabled(s, Offer(p, h)) && Settled(s.hs, s.cbs, s.ring.prods, s.ring.accepted, writes)
    ensures var s' := CallbackNext(s, Offer(p, h)); Settled(s'.hs, s'.cbs, s'.ring.prods, s'.ring.accepted, writes)
  {
    var x := SampleOf(s, Frame(|s.offered|, h));
    if !s.hs[h].priority.BACKGROUND? {
      PutFrame(s.ring, R.Call(p, x));
      OneMoves(s.hs, s.cbs, s.ring.prods, p, Pushing(x.frame), R.Spinning(x));
    } else {
      OneMoves(s.hs, s.cbs, s.ring.prods, p, CallbackNext(s, Offer(p, h)).cbs[p], s.ring.prods[p]);
      assert s.ring.prods[p := s.ring.prods[p]] == s.ring.prods;
    }
  }

  lemma CallbackSettled(s: State, c: CallbackStep, writes: nat)
    requires Sized(s) && Links(s) && CallbackEnabled(s, c) && Settled(s.hs, s.cbs, s.ring.prods, s.ring.accepted, writes)
    ensures var s' := CallbackNext(s, c);
            Settled(s'.hs, s'.cbs, s'.ring.prods, s'.ring.accepted, writes + (if c.WriteEventfd? then 1 else 0))
  {
    match c
    case Offer(p, h) => OfferSettled(s, p, h, writes);
    case RingPut(rs) => RingPutSettled(s, rs, writes);
    case SlotPut(i, ss) =>
    case _ =>
      OneMoves(s.hs, s.cbs, s.ring.prods, c.p, CallbackNext(s, c).cbs[c.p], s.ring.prods[c.p]);
      assert s.ring.prods[c.p := s.ring.prods[c.p]] == s.ring.prods;
  }

  lemma NextSettled(s: State, st: Step, writes: nat)
    requires Sized(s) && Links(s) && Enabled(s, st) && Settled(s.hs, s.cbs, s.ring.prods, s.ring.accepted, writes)
    ensures var s' := Next(s, st);
            Settled(s'.hs, s'.cbs, s'.ring.prods, s'.ring.accepted, writes + (if st.Callbacks? && st.c.WriteEventfd? then 1 else 0))
  {
    match st
    case Callbacks(c) => CallbackSettled(s, c, writes);
    case Dispatches(d) =>
      DispatchFrame(s, d);
      if d.RingPop? {
        PopFrame(s.ring, d.rs);
      }
    case Loops(l) => LoopFrame(s, l);
    case System(o) => SystemFrame(s, o);
  }

  lemma InitSettled(s: State)
    requires Init(s)
    ensures Settled(s.hs, s.cbs, s.ring.prods, s.ring.accepted, 0)
  {
    SumToZero(OweTerms(s.hs, s.cbs, s.ring.prods), |s.cbs|);
  }

  /** In every run the eventfd has been written by callbacks exactly once for each accepted CRITICAL frame, but for the
      threads that have still to do so, and for no other frame. */
  lemma {:induction false} WritesExact(states: seq<State>, steps: seq<Step>, n: nat)
    requires Run(states, steps) && n <= |steps|
    ensures var s := states[n]; Settled(s.hs, s.cbs, s.ring.prods, s.ring.accepted, CallbackWrites(steps, n))
  {
    if n == 0 {
      InitSettled(states[0]);
    } else {
      RunInv(states, steps, n - 1);
      WritesExact(states, steps, n - 1);
      NextSettled(states[n - 1], steps[n - 1], CallbackWrites(steps, n - 1));
    }
  }
  // --- every callback returns ---

  function Busy(cb: Callback): nat {
    if cb.Idle? then 0 else 1
  }

  function BusyTerms(cbs: seq<Callback>): (t: seq<nat>)
    ensures |t| == |cbs| && forall p :: 0 <= p < |t| ==> t[p] == Busy(cbs[p])
  {
    seq(|cbs|, p requires 0 <= p < |cbs| => Busy(cbs[p]))
  }

  lemma BusyMoves(cbs: seq<Callback>, p: nat, cb: Callback)
    requires p < |cbs|
    ensures Sum(BusyTerms(cbs[p := cb])) + Busy(cbs[p]) == Sum(BusyTerms(cbs)) + Busy(cb)
  {
    SumUpdate(BusyTerms(cbs), p, Busy(cb));
    assert BusyTerms(cbs[p := cb]) == BusyTerms(cbs)[p := Busy(cb)];
  }

  /** The last step of a callback: a push that needs no wakeup returns, the eventfd has been written, or a put returns. */
  predicate Returns(s: State, st: Step) {
    && st.Callbacks?
    && match st.c {
         case PushReturn(p) => p < |s.cbs| && p < |s.ring.prods| && s.cbs[p].Pushing? && s.ring.prods[p].Returned?
                               && !(s.ring.prods[p].ok && Critical(s, s.cbs[p].f))
         case WriteEventfd(_) => true
         case PutReturn(_) => true
         case _ => false
       }
  }

  function Returned(states: seq<State>, steps: seq<Step>, n: nat): nat
    requires |states| == |steps| + 1 && n <= |steps|
  {
    if n == 0 then 0 else Returned(states, steps, n - 1) + (if Returns(states[n - 1], steps[n - 1]) then 1 else 0)
  }

  /** Frames whose callback has returned: all that were offered but those whose callback is busy. */
  function Handled(s: State): int {
    |s.offered| - s.unrouted - Sum(BusyTerms(s.cbs))
  }

  lemma CallbackHandled(s: State, c: CallbackStep)
    requires Sized(s) && Links(s) && CallbackEnabled(s, c)
    ensures Handled(CallbackNext(s, c)) == Handled(s) + (if Returns(s, Callbacks(c)) then 1 else 0)
  {
    match c
    case Offer(p, h) => BusyMoves(s.cbs, p, CallbackNext(s, c).cbs[p]);
    case PushReturn(p) => BusyMoves(s.cbs, p, CallbackNext(s, c).cbs[p]);
    case WriteEventfd(p) => BusyMoves(s.cbs, p, Idle);
    case PutReturn(p) => BusyMoves(s.cbs, p, Idle);
    case _ =>
  }

  lemma DispatchHandled(s: State, d: DispatchStep)
    requires Inv(s) && DispatchEnabled(s, d)
    ensures Handled(DispatchNext(s, d)) == Handled(s)
  {
    DispatchFrame(s, d);
    HandGood(s);
  }

  lemma NextHandled(s: State, st: Step)
    requires Inv(s) && Enabled(s, st)
    ensures Handled(Next(s, st)) == Handled(s) + (if Returns(s, st) then 1 else 0)
  {
    match st
    case Callbacks(c) => CallbackHandled(s, c);
    case Dispatches(d) => DispatchHandled(s, d);
    case Loops(l) => LoopFrame(s, l);
    case System(o) => SystemFrame(s, o);
  }

  lemma StepHandled(states: seq<State>, steps: seq<Step>, i: nat)
    requires Run(states, steps) && i < |steps|
    ensures Handled(states[i + 1]) == Handled(states[i]) + (if Returns(states[i], steps[i]) then 1 else 0)
  {
    RunInv(states, steps, i);
    NextHandled(states[i], steps[i]);
  }

  lemma InitHandled(states: seq<State>, steps: seq<Step>)
    requires Run(states, steps)
    ensures Handled(states[0]) == 0
  {
    SumToZero(BusyTerms(states[0].cbs), |states[0].cbs|);
  }

  lemma {:induction false} RunHandled(states: seq<State>, steps: seq<Step>, n: nat)
    requires Run(states, steps) && n <= |steps|
    ensures Handled(states[n]) == Returned(states, steps, n)
  {
    if n == 0 {
      InitHandled(states, steps);
    } else {
      RunHandled(states, steps, n - 1);
      StepHandled(states, steps, n - 1);
    }
  }

  /** In every run each frame offered has had its callback return, once, or the callback is still busy with it. */
  lemma CallbacksReturn(states: seq<State>, steps: seq<Step>, n: nat)
    requires Run(states, steps) && n <= |steps|
    ensures |states[n].offered| == Returned(states, steps, n) + Sum(BusyTerms(states[n].cbs))
  {
    RunHandled(states, steps, n);
    EveryLookupSucceeds(states, steps, n);
  }
}
