/** Every slot gets its turn: between the empty observation and the end of the drain the reactor visits each slot once, in
    order, and what waited in a slot is taken or overwritten by then. */
module KernelTurns {
  import opened Routing
  import opened Kernel
  import opened KernelInv
  import KernelCycle
  import R = RingSteps
  import S = SlotSteps

  function ReactorOf(states: seq<State>): (res: seq<Reactor>)
    ensures |res| == |states| && forall i :: 0 <= i < |res| ==> res[i] == states[i].re
  {
    seq(|states|, i requires 0 <= i < |states| => states[i].re)
  }

  /** The slots from which a take was begun in the steps from `m` on, in order. */
  function Turns(res: seq<Reactor>, steps: seq<Step>, m: nat, n: nat): seq<int>
    requires |res| == |steps| + 1 && m <= n <= |steps|
  {
    if m == n then []
    else Turns(res, steps, m, n - 1) + (if steps[n - 1] == Dispatches(BeginTake) && res[n - 1].Drain? then [res[n - 1].i] else [])
  }

  function UpTo(i: nat): (t: seq<int>)
    ensures |t| == i && forall k :: 0 <= k < i ==> t[k] == k
  {
    seq(i, k => k)
  }

  /** The drain of the slots after these turns. */
  ghost predicate Visited(re: Reactor, turns: seq<int>) {
    match re
    case Drain(i) => turns == UpTo(i)
    case Taking(i) => turns == UpTo(i + 1)
    case SlotHand(i, _) => turns == UpTo(i + 1)
    case _ => false
  }

  /** Where a step leads a reactor that drains the slots. */
  predicate Leads(re: Reactor, st: Step, re': Reactor) {
    if st == Dispatches(BeginTake) then re.Drain? && re' == Taking(re.i)
    else if st.Dispatches? && st.d.SlotTake? then
      re.Taking? && (re' == re || (re'.SlotHand? && re'.i == re.i) || re' == Drain(re.i + 1))
    else if st == Dispatches(DispatchSlot) then re.SlotHand? && re' == Drain(re.i + 1)
    else re' == re
  }

  predicate Draining(re: Reactor) {
    re.Drain? || re.Taking? || re.SlotHand?
  }

  lemma DrainMoves(s: State, st: Step)
    requires Sized(s) && Enabled(s, st) && Draining(s.re) && st != Dispatches(EndDrain)
    ensures Leads(s.re, st, Next(s, st).re)
  {
    match st
    case Callbacks(c) => CallbackFrame(s, c);
    case Dispatches(d) =>
    case Loops(l) =>
    case System(o) => SystemFrame(s, o);
  }

  lemma EmptyMoves(s: State, st: Step)
    requires Sized(s) && Enabled(s, st) && KernelCycle.FindsEmpty(s, st)
    ensures Next(s, st).re == Drain(0) && Next(s, st).slots == s.slots
  {
  }

  /** From the empty observation in step `m` until the drain ends. */
  ghost predicate InDrain(states: seq<State>, steps: seq<Step>, m: nat, n: nat) {
    && Run(states, steps) && m < n <= |steps|
    && KernelCycle.FindsEmpty(states[m], steps[m])
    && forall t :: m < t < n ==> steps[t] != Dispatches(EndDrain)
  }

  lemma DrainBegins(states: seq<State>, steps: seq<Step>, m: nat)
    requires Run(states, steps) && m < |steps| && KernelCycle.FindsEmpty(states[m], steps[m])
    ensures states[m + 1].re == Drain(0)
  {
    EmptyMoves(states[m], steps[m]);
  }

  lemma DrainLeads(states: seq<State>, steps: seq<Step>, k: nat)
    requires Run(states, steps) && k < |steps| && Draining(states[k].re) && steps[k] != Dispatches(EndDrain)
    ensures Leads(states[k].re, steps[k], states[k + 1].re)
  {
    DrainMoves(states[k], steps[k]);
  }

  /** One step of the drain, and the turn it may begin. */
  lemma TurnMoves(re: Reactor, st: Step, re': Reactor, turns: seq<int>)
    requires Visited(re, turns) && Leads(re, st, re')
    ensures Visited(re', turns + (if st == Dispatches(BeginTake) && re.Drain? then [re.i] else []))
  {
    assert turns + [] == turns;
  }

  lemma {:induction false} DrainVisits(states: seq<State>, steps: seq<Step>, m: nat, n: nat)
    requires InDrain(states, steps, m, n)
    ensures Draining(states[n].re) && Visited(states[n].re, Turns(ReactorOf(states), steps, m + 1, n))
  {
    if n == m + 1 {
      DrainBegins(states, steps, m);
    } else {
      DrainVisits(states, steps, m, n - 1);
      DrainLeads(states, steps, n - 1);
      TurnMoves(states[n - 1].re, steps[n - 1], states[n].re, Turns(ReactorOf(states), steps, m + 1, n - 1));
    }
  }

  /** In every run, between the step that finds the ring empty and the end of the drain that follows, every slot is visited
      exactly once, in order. */
  lemma EverySlotVisited(states: seq<State>, steps: seq<Step>, m: nat, n: nat)
    requires InDrain(states, steps, m, n) && n < |steps| && steps[n] == Dispatches(EndDrain)
    ensures Turns(ReactorOf(states), steps, m + 1, n) == UpTo(|states[n].slots|)
  {
    DrainVisits(states, steps, m, n);
    assert Enabled(states[n], steps[n]);
  }

  // --- nothing that waited is left ---

  /** The first `k` samples ever put into the slot have been taken or overwritten. */
  ghost predicate Gone(slot: S.Slot<Sample>, k: nat) {
    k <= |slot.fates| && forall j :: 0 <= j < k ==> !slot.fates[j].Waiting?
  }

  lemma GoneStays(slot: S.Slot<Sample>, ss: S.Step<Sample>, k: nat)
    requires S.Enabled(slot, ss) && Gone(slot, k)
    ensures Gone(S.Next(slot, ss), k)
  {
  }

  /** After a take nothing put so far waits. */
  lemma TakeEmpties(slot: S.Slot<Sample>)
    requires S.Inv(slot) && S.Enabled(slot, S.Take)
    ensures Gone(S.Next(slot, S.Take), |slot.fates|)
  {
    assert slot.data.Some? ==> S.Waits(slot);
  }

  lemma PutsStay(slot: S.Slot<Sample>, ss: S.Step<Sample>)
    requires S.Inv(slot) && S.Enabled(slot, ss)
    ensures |S.Next(slot, ss).fates| >= |slot.fates|
  {
  }

  /** Slots whose turn is over. */
  predicate Over(s: State, i: nat) {
    match s.re
    case Drain(j) => i < j
    case SlotHand(j, _) => i <= j
    case Taking(j) => i < j || (i == j && i < |s.slots| && s.slots[i].taker.AtRelease?)
    case _ => false
  }

  /** What had been put into a slot when the ring was found empty is gone once the slot had its turn. */
  ghost predicate Served(s: State, i: nat, k: nat)
    requires i < |s.slots|
  {
    k <= |s.slots[i].fates| && (Over(s, i) ==> Gone(s.slots[i], k))
  }

  lemma CallbackServed(s: State, c: CallbackStep, i: nat, k: nat)
    requires Machines(s) && CallbackEnabled(s, c) && i < |s.slots| && Served(s, i, k)
    ensures |CallbackNext(s, c).slots| == |s.slots| && Served(CallbackNext(s, c), i, k)
  {
    CallbackFrame(s, c);
    CallbackKeeps(s, c);
    match c
    case Offer(p, h) =>
      var j := Find(s.keys, s.hs[h].hash);
      if s.hs[h].priority.BACKGROUND? && j == i {
        var ss := S.Call(p, SampleOf(s, Frame(|s.offered|, h)));
        PutsStay(s.slots[i], ss);
        if Gone(s.slots[i], k) {
          GoneStays(s.slots[i], ss, k);
        }
      }
    case SlotPut(j, ss) =>
      if j == i {
        PutsStay(s.slots[i], ss);
        if Gone(s.slots[i], k) {
          GoneStays(s.slots[i], ss, k);
        }
      }
    case _ =>
  }

  lemma TakeServed(s: State, d: DispatchStep, i: nat, k: nat)
    requires Machines(s) && Links(s) && DispatchEnabled(s, d) && i < |s.slots| && Served(s, i, k)
    requires d.BeginTake? || d.SlotTake?
    ensures Served(DispatchNext(s, d), i, k)
  {
    if i == s.re.i {
      var ss := if d.SlotTake? then d.ss else S.CallTake;
      PutsStay(s.slots[i], ss);
      if Gone(s.slots[i], k) {
        GoneStays(s.slots[i], ss, k);
      }
      if ss.Take? {
        TakeEmpties(s.slots[i]);
      }
    }
  }

  lemma NextServed(s: State, st: Step, i: nat, k: nat)
    requires Machines(s) && Links(s) && Enabled(s, st) && i < |s.slots| && Served(s, i, k)
    requires Draining(s.re)
    requires st != Dispatches(EndDrain)
    ensures i < |Next(s, st).slots| && Served(Next(s, st), i, k)
  {
    match st
    case Callbacks(c) => CallbackServed(s, c, i, k);
    case Dispatches(d) =>
      if d.BeginTake? || d.SlotTake? {
        TakeServed(s, d, i, k);
      }
    case Loops(l) =>
    case System(o) => SystemFrame(s, o);
  }

  lemma StartServed(s: State, i: nat)
    requires Machines(s) && s.re == Drain(0) && i < |s.slots|
    ensures Served(s, i, |s.slots[i].puts|)
  {
    assert S.Fates(s.slots[i]);
  }

  lemma {:induction false} DrainServes(states: seq<State>, steps: seq<Step>, m: nat, n: nat, i: nat)
    requires InDrain(states, steps, m, n) && i < |states[m + 1].slots|
    ensures i < |states[n].slots| && Served(states[n], i, |states[m + 1].slots[i].puts|)
  {
    if n == m + 1 {
      DrainStart(states, steps, m);
      StartServed(states[n], i);
    } else {
      DrainServes(states, steps, m, n - 1, i);
      DrainVisits(states, steps, m, n - 1);
      StepServed(states, steps, n - 1, i, |states[m + 1].slots[i].puts|);
    }
  }

  lemma DrainStart(states: seq<State>, steps: seq<Step>, m: nat)
    requires Run(states, steps) && m < |steps| && KernelCycle.FindsEmpty(states[m], steps[m])
    ensures Machines(states[m + 1]) && states[m + 1].re == Drain(0)
  {
    RunInv(states, steps, m + 1);
    DrainBegins(states, steps, m);
  }

  lemma StepServed(states: seq<State>, steps: seq<Step>, t: nat, i: nat, k: nat)
    requires Run(states, steps) && t < |steps| && i < |states[t].slots| && Served(states[t], i, k)
    requires Draining(states[t].re) && steps[t] != Dispatches(EndDrain)
    ensures i < |states[t + 1].slots| && Served(states[t + 1], i, k)
  {
    RunInv(states, steps, t);
    NextServed(states[t], steps[t], i, k);
  }

  /** In every run, whatever the callbacks do meanwhile: every BACKGROUND sample that had been put into its slot when the ring
      was found empty has been taken for delivery, or overwritten and counted, when the drain that follows ends. */
  lemma WaitingServed(states: seq<State>, steps: seq<Step>, m: nat, n: nat, i: nat, j: nat)
    requires InDrain(states, steps, m, n) && n < |steps| && steps[n] == Dispatches(EndDrain)
    requires i < |states[m + 1].slots| && j < |states[m + 1].slots[i].puts|
    ensures i < |states[n].slots| && j < |states[n].slots[i].fates| && !states[n].slots[i].fates[j].Waiting?
  {
    DrainServes(states, steps, m, n, i);
    DrainVisits(states, steps, m, n);
    RunInv(states, steps, n);
    assert Enabled(states[n], steps[n]);
  }
}
