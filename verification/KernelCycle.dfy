/** The shape of the reactor's loop over whole runs: every pass does each of its parts once and in order, wakes only for a
    write, gives every slot its turn, and ends only after stop(). */
module KernelCycle {
  import opened Collections
  import opened Routing
  import opened Kernel
  import opened KernelInv
  import KernelWakeup
  import R = RingSteps
  import S = SlotSteps

  // --- each part of the loop follows the one before ---

  /** How often each part of the loop has been done: tests that found the running flag set, loads of the ring's drop counter,
      empty observations, drains of all slots, ends of scans in a cycle, timeouts, completions, reads of the eventfd,
      acknowledgements, and renewals of the poll. */
  datatype Tally = Tally(begun: nat, synced: nat, emptied: nat, drained: nat, scanned: nat, timeouts: nat,
                         completes: nat, consumed: nat, acked: nat, rearmed: nat)

  ghost predicate FindsEmpty(s: State, st: Step)
    requires Sized(s) && Enabled(s, st)
  {
    st.Dispatches? && st.d.RingPop? && DispatchNext(s, st.d).ring.cons.SawEmpty?
  }

  /** What a step counts, taken by a reactor at `re`; `empty` when it is the pop that finds the ring empty. */
  function Counted(t: Tally, re: Reactor, running: bool, empty: bool, st: Step): Tally {
    if st == Loops(TestRunning) then if running then t.(begun := t.begun + 1) else t
    else if st == Loops(SyncDrops) then t.(synced := t.synced + 1)
    else if empty then t.(emptied := t.emptied + 1)
    else if st == Dispatches(EndDrain) then t.(drained := t.drained + 1)
    else if st == Loops(ScanEnd) then if re.Scan? && re.reset then t else t.(scanned := t.scanned + 1)
    else if st == Loops(Timeout) then t.(timeouts := t.timeouts + 1)
    else if st == Loops(Complete) then t.(completes := t.completes + 1)
    else if st == Loops(ReadEventfd) then t.(consumed := t.consumed + 1)
    else if st == Loops(CqeSeen) then t.(acked := t.acked + 1)
    else if st == Loops(Submit) then if re.ArmSubmit? && re.first then t else t.(rearmed := t.rearmed + 1)
    else t
  }

  ghost function Tallied(t: Tally, s: State, st: Step): Tally
    requires Sized(s) && Enabled(s, st)
  {
    Counted(t, s.re, s.running, FindsEmpty(s, st), st)
  }

  ghost function TallyOf(states: seq<State>, steps: seq<Step>, n: nat): Tally
    requires Run(states, steps) && n <= |steps|
  {
    if n == 0 then Tally(0, 0, 0, 0, 0, 0, 0, 0, 0, 0)
    else Tallied(TallyOf(states, steps, n - 1), states[n - 1], steps[n - 1])
  }

  /** A part is ahead of the next one by one exactly while the reactor is between them. */
  ghost predicate InStep(t: Tally, re: Reactor) {
    && t.begun == t.synced + (if re.Syncing? then 1 else 0)
    && t.synced == t.emptied + (if re.Pop? || re.Popping? || re.RingHand? then 1 else 0)
    && t.emptied == t.drained + (if re.Drain? || re.Taking? || re.SlotHand? then 1 else 0)
    && t.drained == t.scanned + (if re.Scan? && !re.reset then 1 else 0)
    && t.scanned == t.timeouts + t.completes + (if re.Wait? then 1 else 0)
    && t.completes == t.consumed + (if re.Read? then 1 else 0)
    && t.consumed == t.acked + (if re.Seen? then 1 else 0)
    && t.acked == t.rearmed + (if (re.ArmGet? || re.ArmSubmit?) && !re.first then 1 else 0)
  }

  lemma DispatchInStep(s: State, d: DispatchStep, t: Tally)
    requires Sized(s) && DispatchEnabled(s, d) && InStep(t, s.re)
    ensures InStep(Tallied(t, s, Dispatches(d)), DispatchNext(s, d).re)
  {
  }

  /** Where the steps of the loop start and lead. */
  predicate Leads(re: Reactor, running: bool, l: LoopStep, re': Reactor) {
    match l
    case TestRunning => re.Loop? && (if running then re'.Syncing? else re'.Exit?)
    case SyncDrops => re.Syncing? && re'.Pop?
    case Reset => re.Loop? && re'.Scan? && re'.reset
    case ScanLoad => re.Scan? && re'.Scan? && re'.reset == re.reset
    case ScanEnd => re.Scan? && (if re.reset then re'.Loop? else re'.Wait?)
    case Timeout => re.Wait? && re'.Loop?
    case Complete => re.Wait? && re'.Read?
    case ReadEventfd => re.Read? && re'.Seen?
    case CqeSeen => re.Seen? && re' == ArmGet(false)
    case GetSqe => re.ArmGet? && re' == ArmSubmit(re.first)
    case Submit => re.ArmSubmit? && re'.Loop?
  }

  lemma LoopMoves(s: State, l: LoopStep)
    requires Sized(s) && LoopEnabled(s, l) && (s.re.ArmGet? ==> s.sq < SQ_ENTRIES)
    ensures Leads(s.re, s.running, l, LoopNext(s, l).re)
    ensures LoopNext(s, l).cycles == s.cycles + (if l.Timeout? || (l.Submit? && !s.re.first) then 1 else 0)
  {
  }

  lemma MoveInStep(t: Tally, re: Reactor, running: bool, l: LoopStep, re': Reactor)
    requires InStep(t, re) && Leads(re, running, l, re')
    ensures var t' := Counted(t, re, running, false, Loops(l));
            && InStep(t', re')
            && t'.timeouts + t'.rearmed == t.timeouts + t.rearmed + (if l.Timeout? || (l.Submit? && !re.first) then 1 else 0)
  {
    match l
    case TestRunning =>
    case SyncDrops =>
    case ScanEnd =>
    case Timeout =>
    case Complete =>
    case ReadEventfd =>
    case CqeSeen =>
    case Submit =>
    case _ =>
  }

  lemma LoopInStep(s: State, l: LoopStep, t: Tally)
    requires Sized(s) && LoopEnabled(s, l) && Kept(t, s.re, s.cycles) && (s.re.ArmGet? ==> s.sq < SQ_ENTRIES)
    ensures Kept(Tallied(t, s, Loops(l)), LoopNext(s, l).re, LoopNext(s, l).cycles)
  {
    LoopMoves(s, l);
    MoveInStep(t, s.re, s.running, l, LoopNext(s, l).re);
  }

  lemma OtherInStep(s: State, st: Step, t: Tally)
    requires Sized(s) && Enabled(s, st) && (st.Callbacks? || st.System?)
    ensures Tallied(t, s, st) == t && Next(s, st).re == s.re && Next(s, st).cycles == s.cycles
  {
    match st
    case Callbacks(c) => CallbackFrame(s, c);
    case System(o) => SystemFrame(s, o);
  }

  lemma DispatchCycles(s: State, d: DispatchStep, t: Tally)
    requires Sized(s) && DispatchEnabled(s, d)
    ensures DispatchNext(s, d).cycles == s.cycles
    ensures Tallied(t, s, Dispatches(d)).timeouts == t.timeouts && Tallied(t, s, Dispatches(d)).rearmed == t.rearmed
  {
  }

  ghost predicate Kept(t: Tally, re: Reactor, cycles: nat) {
    InStep(t, re) && cycles == t.timeouts + t.rearmed
  }

  lemma NextKept(s: State, st: Step, t: Tally)
    requires Sized(s) && Enabled(s, st) && Kept(t, s.re, s.cycles) && (s.re.ArmGet? ==> s.sq < SQ_ENTRIES)
    ensures Kept(Tallied(t, s, st), Next(s, st).re, Next(s, st).cycles)
  {
    match st
    case Dispatches(d) =>
      DispatchInStep(s, d, t);
      DispatchCycles(s, d, t);
    case Loops(l) => LoopInStep(s, l, t);
    case _ => OtherInStep(s, st, t);
  }

  /** In every run the loop test, the load of the drop counter, the empty observation, the drain of the slots, the scan, the
      wait, and after a completion the read, the acknowledgement and the renewal of the poll follow each other: each has
      been done as often as the next, and once more exactly while the reactor is between the two. */
  lemma {:induction false} PartsInOrder(states: seq<State>, steps: seq<Step>, n: nat)
    requires Run(states, steps) && n <= |steps|
    ensures Kept(TallyOf(states, steps, n), states[n].re, states[n].cycles)
  {
    if n > 0 {
      PartsInOrder(states, steps, n - 1);
      KernelWakeup.PollToken(states, steps, n - 1);
      NextKept(states[n - 1], steps[n - 1], TallyOf(states, steps, n - 1));
    }
  }

  /** The calls of handle_events that have completed, and the one in progress, are the loop tests that found the flag set. */
  lemma CyclesBegun(states: seq<State>, steps: seq<Step>, n: nat)
    requires Run(states, steps) && n <= |steps|
    ensures TallyOf(states, steps, n).begun == states[n].cycles + (if InCycle(states[n].re) then 1 else 0)
  {
    PartsInOrder(states, steps, n);
  }

  /** The loop ends only when some stop() has stored the flag. */
  lemma {:induction false} EndsOnlyStopped(states: seq<State>, steps: seq<Step>, n: nat)
    requires Run(states, steps) && n <= |steps|
    ensures states[n].re.Exit? || !states[n].running ==> exists i :: 0 <= i < n && steps[i] == System(StopStore)
  {
    if n > 0 {
      EndsOnlyStopped(states, steps, n - 1);
      var s, st := states[n - 1], steps[n - 1];
      if s.running && !s.re.Exit? && st != System(StopStore) {
        FlagKept(s, st);
      }
    }
  }

  lemma FlagKept(s: State, st: Step)
    requires Sized(s) && Enabled(s, st) && s.running && !s.re.Exit? && st != System(StopStore)
    ensures Next(s, st).running && !Next(s, st).re.Exit?
  {
    match st
    case Callbacks(c) => CallbackFrame(s, c);
    case Dispatches(d) => DispatchFrame(s, d);
    case Loops(l) => LoopFrame(s, l);
    case System(o) => SystemFrame(s, o);
  }
}
