/** The wakeup protocol: one poll token, no lost wakeup for CRITICAL frames, bounded work after stop. */
module KernelWakeup {
  import opened Kernel
  import opened KernelInv
  import R = RingSteps

  // --- the poll token ---

  /** The reactor has consumed a completion, or has not armed yet, and is about to arm. */
  predicate Rearming(re: Reactor) {
    re.ArmGet? || re.ArmSubmit?
  }

  /** There is one poll: armed, completed and not yet acknowledged, or about to be armed. */
  ghost predicate Token(s: State) {
    && s.armed >= 0 && s.pending >= 0
    && s.armed + s.pending + (if Rearming(s.re) then 1 else 0) == 1
    && s.sq == (if s.re.ArmSubmit? then 1 else 0)
    && (s.re.Read? || s.re.Seen? ==> s.pending == 1)
    && (s.pending == 1 && !s.re.Seen? ==> s.efd > 0)
  }

  lemma NextToken(s: State, st: Step)
    requires Sized(s) && Token(s) && Enabled(s, st)
    ensures Token(Next(s, st))
  {
    match st
    case Callbacks(c) => CallbackFrame(s, c);
    case Dispatches(d) => DispatchToken(s, d);
    case Loops(l) =>
    case System(o) => SystemFrame(s, o);
  }

  lemma DispatchToken(s: State, d: DispatchStep)
    requires Sized(s) && Token(s) && DispatchEnabled(s, d)
    ensures Token(DispatchNext(s, d))
  {
    var s' := DispatchNext(s, d);
    assert s'.armed == s.armed && s'.pending == s.pending && s'.sq == s.sq && s'.efd == s.efd;
    assert !Rearming(s.re) && !Rearming(s'.re) && !s'.re.Read? && !s'.re.Seen?;
  }

  /** In every run exactly one of these holds: the poll is armed, its completion is pending, or the reactor is
      about to arm it. So the submission queue never fills, a pending completion means a readable eventfd,
      and the reactor never reads an eventfd that has nothing to read. */
  lemma {:induction false} PollToken(states: seq<State>, steps: seq<Step>, n: nat)
    requires Run(states, steps) && n <= |steps|
    ensures Token(states[n])
    ensures states[n].re.ArmGet? ==> states[n].sq < SQ_ENTRIES
    ensures states[n].re.Read? ==> states[n].efd > 0
  {
    if n > 0 {
      PollToken(states, steps, n - 1);
      NextToken(states[n - 1], steps[n - 1]);
    }
  }

  // --- no lost wakeup ---

  /** The reactor has found the ring empty and has not read the eventfd since. */
  predicate PastEmpty(re: Reactor) {
    re.Drain? || re.Taking? || re.SlotHand? || (re.Scan? && !re.reset) || re.Wait? || re.Read?
  }

  /** Callback `p` has had `x` accepted and still has to write the eventfd for it. */
  ghost predicate OwesFor(cb: Callback, pc: R.Producer<Sample>, x: Sample) {
    || (cb.Waking? && cb.f == x.frame)
    || (cb.Pushing? && cb.f == x.frame && (pc.AtUnlock? || pc.Returned?) && pc.ok)
  }

  ghost predicate Owed(s: State, x: Sample)
    requires Sized(s)
  {
    exists p :: 0 <= p < |s.cbs| && OwesFor(s.cbs[p], s.ring.prods[p], x)
  }

  /** The CRITICAL frame at position `k` will wake the reactor: the eventfd is readable, or its write is due. */
  ghost predicate Covered(s: State, k: nat)
    requires Sized(s) && k < |s.ring.accepted|
  {
    Critical(s, s.ring.accepted[k].frame) ==> s.efd > 0 || Owed(s, s.ring.accepted[k])
  }

  ghost predicate Awake(s: State)
    requires Sized(s)
  {
    PastEmpty(s.re) ==>
      && s.ring.headPos == s.emptyAt <= |s.ring.accepted|
      && forall k :: s.emptyAt <= k < |s.ring.accepted| ==> Covered(s, k)
  }

  lemma RingPutAwake(s: State, rs: R.Step<Sample>)
    requires Sized(s) && Links(s) && Awake(s) && CallbackEnabled(s, RingPut(rs))
    ensures Sized(CallbackNext(s, RingPut(rs))) && Awake(CallbackNext(s, RingPut(rs)))
  {
    PutFrame(s.ring, rs);
    var s' := CallbackNext(s, RingPut(rs));
    if PastEmpty(s.re) {
      forall k | s.emptyAt <= k < |s'.ring.accepted| ensures Covered(s', k) {
        if k == |s.ring.accepted| {
          assert OwesFor(s'.cbs[rs.p], s'.ring.prods[rs.p], s'.ring.accepted[k]);
        } else {
          assert Covered(s, k) && s'.ring.accepted[k] == s.ring.accepted[k];
          if s.efd == 0 && Critical(s, s.ring.accepted[k].frame) {
            var p :| 0 <= p < |s.cbs| && OwesFor(s.cbs[p], s.ring.prods[p], s.ring.accepted[k]);
            assert OwesFor(s'.cbs[p], s'.ring.prods[p], s.ring.accepted[k]);
          }
        }
      }
    }
  }

  lemma OfferAwake(s: State, p: nat, h: nat)
    requires Sized(s) && Awake(s) && CallbackEnabled(s, Offer(p, h))
    ensures Sized(CallbackNext(s, Offer(p, h))) && Awake(CallbackNext(s, Offer(p, h)))
  {
    var s' := CallbackNext(s, Offer(p, h));
    if !s.hs[h].priority.BACKGROUND? {
      PutFrame(s.ring, R.Call(p, SampleOf(s, Frame(|s.offered|, h))));
    }
    if PastEmpty(s.re) {
      forall k | s.emptyAt <= k < |s'.ring.accepted| ensures Covered(s', k) {
        assert Covered(s, k);
        if s.efd == 0 && Critical(s, s.ring.accepted[k].frame) {
          var q :| 0 <= q < |s.cbs| && OwesFor(s.cbs[q], s.ring.prods[q], s.ring.accepted[k]);
          assert OwesFor(s'.cbs[q], s'.ring.prods[q], s.ring.accepted[k]);
        }
      }
    }
  }

  lemma CallbackAwake(s: State, c: CallbackStep)
    requires Sized(s) && Links(s) && Awake(s) && CallbackEnabled(s, c)
    ensures Sized(CallbackNext(s, c)) && Awake(CallbackNext(s, c))
  {
    match c
    case RingPut(rs) => RingPutAwake(s, rs);
    case Offer(p, h) => OfferAwake(s, p, h);
    case WriteEventfd(p) => assert CallbackNext(s, c).efd > 0;
    case _ =>
      var s' := CallbackNext(s, c);
      if PastEmpty(s.re) {
        forall k | s.emptyAt <= k < |s'.ring.accepted| ensures Covered(s', k) {
          assert Covered(s, k);
          if s'.efd == 0 && Critical(s, s.ring.accepted[k].frame) {
            var q :| 0 <= q < |s.cbs| && OwesFor(s.cbs[q], s.ring.prods[q], s.ring.accepted[k]);
            assert OwesFor(s'.cbs[q], s'.ring.prods[q], s.ring.accepted[k]);
          }
        }
      }
  }

  lemma RingPopAwake(s: State, rs: R.Step<Sample>)
    requires Machines(s) && Awake(s) && DispatchEnabled(s, RingPop(rs))
    ensures Sized(DispatchNext(s, RingPop(rs))) && Awake(DispatchNext(s, RingPop(rs)))
  {
    PopFrame(s.ring, rs);
    if R.Next(s.ring, rs).cons.SawEmpty? {
      EmptyIsEmpty(s.ring, rs);
    }
  }

  lemma DispatchAwake(s: State, d: DispatchStep)
    requires Machines(s) && Awake(s) && DispatchEnabled(s, d)
    ensures Sized(DispatchNext(s, d)) && Awake(DispatchNext(s, d))
  {
    DispatchMachines(s, d);
    match d
    case RingPop(rs) => RingPopAwake(s, rs);
    case _ =>
      var s' := DispatchNext(s, d);
      assert forall k :: 0 <= k < |s.ring.accepted| && Covered(s, k) ==> Covered(s', k);
  }

  lemma NextAwake(s: State, st: Step)
    requires Inv(s) && Awake(s) && Enabled(s, st)
    ensures Sized(Next(s, st)) && Awake(Next(s, st))
  {
    match st
    case Callbacks(c) => CallbackAwake(s, c);
    case Dispatches(d) => DispatchAwake(s, d);
    case Loops(l) => LoopAwake(s, l);
    case System(o) => SystemAwake(s, o);
  }

  lemma LoopAwake(s: State, l: LoopStep)
    requires Sized(s) && Awake(s) && LoopEnabled(s, l)
    ensures Sized(LoopNext(s, l)) && Awake(LoopNext(s, l))
  {
    LoopFrame(s, l);
    var s' := LoopNext(s, l);
    if PastEmpty(s'.re) {
      assert forall k :: 0 <= k < |s.ring.accepted| && Covered(s, k) ==> Covered(s', k);
    }
  }

  lemma SystemAwake(s: State, o: SystemStep)
    requires Sized(s) && Awake(s) && SystemEnabled(s, o)
    ensures Sized(SystemNext(s, o)) && Awake(SystemNext(s, o))
  {
    SystemFrame(s, o);
    var s' := SystemNext(s, o);
    assert forall k :: 0 <= k < |s.ring.accepted| && Covered(s, k) ==> Covered(s', k);
  }

  lemma {:induction false} RunAwake(states: seq<State>, steps: seq<Step>, n: nat)
    requires Run(states, steps) && n <= |steps|
    ensures Inv(states[n]) && Awake(states[n])
  {
    RunInv(states, steps, n);
    if n > 0 {
      RunAwake(states, steps, n - 1);
      NextAwake(states[n - 1], steps[n - 1]);
    }
  }

  /** In every reachable state where the reactor waits while an accepted CRITICAL frame is queued whose
      producer has done its eventfd write, a completion is pending or the operating system can produce one
      at once: the wait does not depend on its timeout. */
  lemma NoLostWakeup(states: seq<State>, steps: seq<Step>, n: nat, k: nat)
    requires Run(states, steps) && n <= |steps|
    requires states[n].re.Wait? && |states[n].ring.prods| == |states[n].cbs|
    requires states[n].ring.headPos <= k < |states[n].ring.accepted|
    requires Critical(states[n], states[n].ring.accepted[k].frame)
    requires forall p :: 0 <= p < |states[n].cbs| ==>
               !OwesFor(states[n].cbs[p], states[n].ring.prods[p], states[n].ring.accepted[k])
    ensures Sized(states[n])
    ensures states[n].efd > 0
    ensures Enabled(states[n], Loops(Complete)) || Enabled(states[n], System(Fire))
  {
    RunAwake(states, steps, n);
    PollToken(states, steps, n);
    assert Covered(states[n], k);
  }

  // --- stop ---

  /** Inside a handle_events call, and it has not read the eventfd. */
  predicate BeforeRead(re: Reactor) {
    InCycle(re) && !re.Seen? && !re.ArmGet? && !re.ArmSubmit?
  }

  /** A completed stop() leaves the eventfd readable for the call in progress; stop() is never undone. */
  ghost predicate Stopping(s: State) {
    && (s.stopping + s.stopped > 0 ==> !s.running)
    && (s.stopped > 0 && BeforeRead(s.re) ==> s.efd > 0)
  }

  lemma NextStopping(s: State, st: Step)
    requires Sized(s) && Stopping(s) && Enabled(s, st)
    ensures Stopping(Next(s, st))
  {
    match st
    case Callbacks(c) => CallbackFrame(s, c);
    case Dispatches(d) =>
      var s' := DispatchNext(s, d);
      assert s'.efd == s.efd && s'.running == s.running && s'.stopping == s.stopping && s'.stopped == s.stopped;
      assert BeforeRead(s.re);
    case Loops(l) =>
    case System(o) => SystemFrame(s, o);
  }

  lemma {:induction false} RunStopping(states: seq<State>, steps: seq<Step>, n: nat)
    requires Run(states, steps) && n <= |steps|
    ensures Stopping(states[n])
  {
    if n > 0 {
      RunStopping(states, steps, n - 1);
      NextStopping(states[n - 1], steps[n - 1]);
    }
  }

  /** Once running is false no step begins a handle_events call. */
  lemma StepAfterStop(s: State, st: Step)
    requires Sized(s) && Enabled(s, st) && !s.running
    ensures var s' := Next(s, st);
            && !s'.running
            && s'.cycles + (if InCycle(s'.re) then 1 else 0) <= s.cycles + (if InCycle(s.re) then 1 else 0)
            && s'.cycles >= s.cycles
            && (s.re.Exit? ==> s'.re.Exit?)
  {
    match st
    case Callbacks(c) => CallbackFrame(s, c);
    case Dispatches(d) =>
      assert InCycle(s.re) && !s.re.Exit?;
      assert DispatchNext(s, d).running == s.running && DispatchNext(s, d).cycles == s.cycles;
    case Loops(l) =>
    case System(o) => SystemFrame(s, o);
  }

  /** Whatever the other threads do, at most one handle_events call completes after stop() has stored the
      flag, and it is the one that was in progress; after that the loop can only exit. */
  lemma {:induction false} BoundedAfterStop(states: seq<State>, steps: seq<Step>, m: nat, n: nat)
    requires Run(states, steps) && m <= n <= |steps| && !states[m].running
    ensures states[n].cycles <= states[m].cycles + (if InCycle(states[m].re) then 1 else 0)
    ensures states[n].cycles + (if InCycle(states[n].re) then 1 else 0)
         <= states[m].cycles + (if InCycle(states[m].re) then 1 else 0)
    ensures !states[n].running
  {
    if m < n {
      BoundedAfterStop(states, steps, m, n - 1);
      StepAfterStop(states[n - 1], steps[n - 1]);
    }
  }

  /** Once some stop() has returned, a reactor that waits can be woken at once, and a reactor at the loop
      test exits. */
  lemma StopWakes(states: seq<State>, steps: seq<Step>, n: nat)
    requires Run(states, steps) && n <= |steps| && states[n].stopped > 0
    ensures Sized(states[n])
    ensures states[n].re.Wait? ==>
              states[n].efd > 0 && (Enabled(states[n], Loops(Complete)) || Enabled(states[n], System(Fire)))
    ensures states[n].re.Loop? ==> Next(states[n], Loops(TestRunning)).re.Exit?
  {
    RunInv(states, steps, n);
    RunStopping(states, steps, n);
    PollToken(states, steps, n);
  }
}
