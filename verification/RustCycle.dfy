/** The shape of the Rust event loop over whole runs: its parts follow each other in order, it wakes at most once for each
    notification, only CRITICAL frames notify, and every slot gets its turn in every pass. */
module RustCycle {
  import opened Collections
  import opened Routing
  import opened RustReactor
  import L = LatestOnly

  // --- where the event loop goes ---

  /** What a step needs of the event loop, and where it leads. */
  predicate Leads(m: Main, st: Step, m': Main) {
    match st
    case SeeEmpty => m.Draining? && m'.Publishing?
    case Publish => m.Publishing? && m' == DrainingCache(0)
    case DrainSlot => m.DrainingCache? && m' == DrainingCache(m.i + 1)
    case SkipSlot => m.DrainingCache? && m' == DrainingCache(m.i + 1)
    case EndDrain => m.DrainingCache? && m'.Waiting?
    case Woken => m.Waiting? && m'.Draining?
    case Timeout => m.Waiting? && m'.Draining?
    case _ => m' == m
  }

  function MainsOf(states: seq<State>): (mains: seq<Main>)
    ensures |mains| == |states| && forall i :: 0 <= i < |mains| ==> mains[i] == states[i].main
  {
    seq(|states|, i requires 0 <= i < |states| => states[i].main)
  }

  ghost predicate Path(mains: seq<Main>, steps: seq<Step>) {
    && |mains| == |steps| + 1 && mains[0].Draining?
    && forall i {:trigger steps[i]} :: 0 <= i < |steps| ==> Leads(mains[i], steps[i], mains[i + 1])
  }

  lemma StepLeads(states: seq<State>, steps: seq<Step>, i: nat)
    requires Run(states, steps) && i < |steps|
    ensures Leads(states[i].main, steps[i], states[i + 1].main)
  {
    MainMoves(states[i], steps[i]);
  }

  lemma RunPath(states: seq<State>, steps: seq<Step>)
    requires Run(states, steps)
    ensures Path(MainsOf(states), steps)
  {
    var mains := MainsOf(states);
    forall i | 0 <= i < |steps| ensures Leads(mains[i], steps[i], mains[i + 1]) {
      StepLeads(states, steps, i);
    }
  }

  // --- each part of the loop follows the one before ---

  /** How often each step without a parameter has been taken. */
  function Times(steps: seq<Step>, st: Step, n: nat): nat
    requires n <= |steps|
  {
    if n == 0 then 0 else Times(steps, st, n - 1) + (if steps[n - 1] == st then 1 else 0)
  }

  /** A part is ahead of the next one by one exactly while the loop is between them. */
  predicate InStep(empties: nat, publishes: nat, drains: nat, wakes: nat, main: Main) {
    && empties == publishes + (if main.Publishing? then 1 else 0)
    && publishes == drains + (if main.DrainingCache? then 1 else 0)
    && drains == wakes + (if main.Waiting? then 1 else 0)
  }

  lemma {:induction false} PathInStep(mains: seq<Main>, steps: seq<Step>, n: nat)
    requires Path(mains, steps) && n <= |steps|
    ensures InStep(Times(steps, SeeEmpty, n), Times(steps, Publish, n), Times(steps, EndDrain, n),
                   Times(steps, Woken, n) + Times(steps, Timeout, n), mains[n])
  {
    if n > 0 {
      PathInStep(mains, steps, n - 1);
      assert Leads(mains[n - 1], steps[n - 1], mains[n]);
    }
  }

  /** In every run the empty observation, the publication of the ring's counts, the drain of the slots and the wait follow
      each other: each has been done as often as the next, and once more exactly while the loop is between the two. */
  lemma PartsInOrder(states: seq<State>, steps: seq<Step>, n: nat)
    requires Run(states, steps) && n <= |steps|
    ensures Times(steps, SeeEmpty, n) == Times(steps, Publish, n) + (if states[n].main.Publishing? then 1 else 0)
    ensures Times(steps, Publish, n) == Times(steps, EndDrain, n) + (if states[n].main.DrainingCache? then 1 else 0)
    ensures Times(steps, EndDrain, n) == Times(steps, Woken, n) + Times(steps, Timeout, n) + (if states[n].main.Waiting? then 1 else 0)
  {
    RunPath(states, steps);
    PathInStep(MainsOf(states), steps, n);
  }

  // --- notifications ---

  function Notifies(steps: seq<Step>, n: nat): nat
    requires n <= |steps|
  {
    if n == 0 then 0 else Notifies(steps, n - 1) + (if steps[n - 1].Notify? then 1 else 0)
  }

  lemma PermitMoves(s: State, st: Step)
    requires Enabled(s, st)
    ensures Next(s, st).permit == if st.Notify? then true else if st.Woken? then false else s.permit
  {
  }

  /** In every run the loop has been woken at most as often as workers have notified; a permit left over counts as one. */
  lemma {:induction false} WakeupsPaid(states: seq<State>, steps: seq<Step>, n: nat)
    requires Run(states, steps) && n <= |steps|
    ensures Times(steps, Woken, n) + (if states[n].permit then 1 else 0) <= Notifies(steps, n)
  {
    if n > 0 {
      WakeupsPaid(states, steps, n - 1);
      PermitMoves(states[n - 1], steps[n - 1]);
    }
  }

  function Owes(w: Worker): nat {
    if w.Notifying? then 1 else 0
  }

  function OweTerms(workers: seq<Worker>): (t: seq<nat>)
    ensures |t| == |workers| && forall w :: 0 <= w < |t| ==> t[w] == Owes(workers[w])
  {
    seq(|workers|, w requires 0 <= w < |workers| => Owes(workers[w]))
  }

  lemma OneMoves(workers: seq<Worker>, w: nat, to: Worker)
    requires w < |workers|
    ensures Sum(OweTerms(workers[w := to])) + Owes(workers[w]) == Sum(OweTerms(workers)) + Owes(to)
  {
    SumUpdate(OweTerms(workers), w, Owes(to));
    assert OweTerms(workers[w := to]) == OweTerms(workers)[w := Owes(to)];
  }

  /** The CRITICAL ones among the frames, counted. */
  lemma {:induction false} CriticalsAreCardinality(hs: seq<Handler>, fs: seq<Frame>)
    ensures |Criticals(hs, fs)| == |set k | 0 <= k < |fs| && fs[k].handler < |hs| && hs[fs[k].handler].priority == CRITICAL|
  {
    if fs != [] {
      var n := |fs| - 1;
      var front := fs[..n];
      CriticalsAreCardinality(hs, front);
      var places := set k | 0 <= k < |fs| && fs[k].handler < |hs| && hs[fs[k].handler].priority == CRITICAL;
      var before := set k | 0 <= k < |front| && front[k].handler < |hs| && hs[front[k].handler].priority == CRITICAL;
      if fs[n].handler < |hs| && hs[fs[n].handler].priority == CRITICAL {
        assert places == before + {n};
      } else {
        assert places == before;
      }
    }
  }

  ghost predicate Settled(s: State, notifies: int) {
    notifies + Sum(OweTerms(s.workers)) == |Criticals(s.hs, s.received)|
  }

  lemma NextSettled(s: State, st: Step, notifies: int)
    requires Enabled(s, st) && Settled(s, notifies)
    ensures Settled(Next(s, st), notifies + (if st.Notify? then 1 else 0))
  {
    WorkerMoves(s, st);
    if st.Push? || st.Put? {
      AppendOne(s.hs, s.received, Frame(st.w, |s.received|));
    }
    if st.Push? && s.hs[st.w].priority == CRITICAL {
      OneMoves(s.workers, st.w, Notifying(Frame(st.w, |s.received|)));
    } else if st.Push? || st.Notify? {
      OneMoves(s.workers, st.w, Receiving);
    }
  }

  lemma AppendOne(hs: seq<Handler>, fs: seq<Frame>, f: Frame)
    ensures |Criticals(hs, fs + [f])| == |Criticals(hs, fs)| + (if Has(hs, f, CRITICAL) then 1 else 0)
  {
    assert (fs + [f])[..|fs|] == fs;
  }

  /** CRITICAL frames received for which the worker has notified. */
  function Told(s: State): int {
    |Criticals(s.hs, s.received)| - Sum(OweTerms(s.workers))
  }

  lemma InitTold(states: seq<State>, steps: seq<Step>)
    requires Run(states, steps)
    ensures Told(states[0]) == 0
  {
    SumToZero(OweTerms(states[0].workers), |states[0].workers|);
  }

  lemma StepTold(states: seq<State>, steps: seq<Step>, i: nat)
    requires Run(states, steps) && i < |steps|
    ensures Told(states[i + 1]) == Told(states[i]) + (if steps[i].Notify? then 1 else 0)
  {
    NextSettled(states[i], steps[i], Told(states[i]));
  }

  lemma {:induction false} Accumulated(told: seq<int>, steps: seq<Step>, n: nat)
    requires |told| == |steps| + 1 && n <= |steps| && told[0] == 0
    requires forall i {:trigger steps[i]} :: 0 <= i < |steps| ==> told[i + 1] == told[i] + (if steps[i].Notify? then 1 else 0)
    ensures told[n] == Notifies(steps, n)
  {
    if n > 0 {
      Accumulated(told, steps, n - 1);
    }
  }

  lemma ToldSoFar(states: seq<State>, steps: seq<Step>) returns (told: seq<int>)
    requires Run(states, steps)
    ensures |told| == |states| && told[0] == 0 && forall i :: 0 <= i < |told| ==> told[i] == Told(states[i])
    ensures forall i {:trigger steps[i]} :: 0 <= i < |steps| ==> told[i + 1] == told[i] + (if steps[i].Notify? then 1 else 0)
  {
    told := seq(|states|, i requires 0 <= i < |states| => Told(states[i]));
    InitTold(states, steps);
    forall i | 0 <= i < |steps| ensures told[i + 1] == told[i] + (if steps[i].Notify? then 1 else 0) {
      StepTold(states, steps, i);
    }
  }

  /** In every run workers have notified exactly once for each CRITICAL frame received, accepted or not, but for those that
      have still to do so, and for no other frame. */
  lemma NotifiesExact(states: seq<State>, steps: seq<Step>, n: nat)
    requires Run(states, steps) && n <= |steps|
    ensures Notifies(steps, n) + Sum(OweTerms(states[n].workers)) == |Criticals(states[n].hs, states[n].received)|
  {
    var told := ToldSoFar(states, steps);
    Accumulated(told, steps, n);
  }

  // --- every slot gets its turn ---

  /** The slots drained or passed over in the steps from `m` on, in order. */
  function Turns(mains: seq<Main>, steps: seq<Step>, m: nat, n: nat): seq<int>
    requires |mains| == |steps| + 1 && m <= n <= |steps|
  {
    if m == n then []
    else
      Turns(mains, steps, m, n - 1)
      + (if (steps[n - 1].DrainSlot? || steps[n - 1].SkipSlot?) && mains[n - 1].DrainingCache? then [mains[n - 1].i] else [])
  }

  function UpTo(i: nat): (t: seq<int>)
    ensures |t| == i && forall k :: 0 <= k < i ==> t[k] == k
  {
    seq(i, k => k)
  }

  /** From the publication in step `m` until the drain ends. */
  ghost predicate Drains(steps: seq<Step>, m: nat, n: nat) {
    && m < n <= |steps| && steps[m].Publish?
    && forall t :: m < t < n ==> !steps[t].EndDrain?
  }

  ghost predicate InDrain(states: seq<State>, steps: seq<Step>, m: nat, n: nat) {
    Run(states, steps) && Drains(steps, m, n)
  }

  lemma {:induction false} DrainVisits(mains: seq<Main>, steps: seq<Step>, m: nat, n: nat)
    requires Path(mains, steps) && Drains(steps, m, n)
    ensures mains[n].DrainingCache? && Turns(mains, steps, m + 1, n) == UpTo(mains[n].i)
  {
    assert Leads(mains[n - 1], steps[n - 1], mains[n]);
    if m + 1 < n {
      DrainVisits(mains, steps, m, n - 1);
    }
  }

  lemma InCache(states: seq<State>, steps: seq<Step>, m: nat, n: nat)
    requires InDrain(states, steps, m, n)
    ensures states[n].main.DrainingCache?
  {
    RunPath(states, steps);
    DrainVisits(MainsOf(states), steps, m, n);
  }

  /** In every run, between the publication of the ring's counts and the end of the drain that follows, every slot has its
      turn exactly once, in order. */
  lemma EverySlotVisited(states: seq<State>, steps: seq<Step>, m: nat, n: nat)
    requires InDrain(states, steps, m, n) && n < |steps| && steps[n].EndDrain?
    ensures Turns(MainsOf(states), steps, m + 1, n) == UpTo(|states[n].slots|)
  {
    RunPath(states, steps);
    DrainVisits(MainsOf(states), steps, m, n);
    assert Enabled(states[n], steps[n]);
  }

  /** The turn of a slot that is not passed over launches the frame that waits there, for the handler it is meant for. */
  lemma TurnLaunches(states: seq<State>, steps: seq<Step>, n: nat)
    requires Run(states, steps) && n < |steps| && steps[n].DrainSlot?
    ensures var s, s' := states[n], states[n + 1];
            && s.main.i < |s.slots| && s.slots[s.main.i].content.Some?
            ==> s'.launched == s.launched + [CallOf(s.hs, s.slots[s.main.i].content.value)]
                && CallOf(s.hs, s.slots[s.main.i].content.value) in s'.spawned
  {
    RunRouted(states, steps, n);
    if states[n].slots[states[n].main.i].content.Some? {
      DrainCall(states[n]);
    }
  }

  /** Frame `f` waits in no slot up to `k`. */
  predicate Empty(slots: seq<L.Slot<Frame>>, f: Frame, k: nat) {
    forall i :: 0 <= i < k && i < |slots| ==> slots[i].content != Some(f)
  }

  /** A frame received earlier does not come back into a slot, and a slot that is not passed over is emptied in its turn. */
  lemma StaysGone(s: State, st: Step, f: Frame, k: nat)
    requires Enabled(s, st) && f.id < |s.received| && Empty(s.slots, f, k)
    ensures |Next(s, st).slots| == |s.slots| && Empty(Next(s, st).slots, f, k)
    ensures st.DrainSlot? && s.main.i == k ==> Empty(Next(s, st).slots, f, k + 1)
    ensures f.id < |Next(s, st).received|
  {
    SlotsMove(s, st);
    WorkerMoves(s, st);
  }

  lemma {:induction false} DrainEmpties(states: seq<State>, steps: seq<Step>, m: nat, n: nat, f: Frame)
    requires InDrain(states, steps, m, n) && f.id < |states[m].received|
    requires forall t :: m < t < n ==> !steps[t].SkipSlot?
    ensures states[n].main.DrainingCache? && f.id < |states[n].received| && Empty(states[n].slots, f, states[n].main.i)
  {
    InCache(states, steps, m, n);
    StepLeads(states, steps, n - 1);
    if m + 1 < n {
      DrainEmpties(states, steps, m, n - 1, f);
      StaysGone(states[n - 1], steps[n - 1], f, states[n - 1].main.i);
    } else {
      StaysGone(states[m], steps[m], f, 0);
    }
  }

  /** In every run: when no slot is passed over, every frame that waited in a slot when the drain began has been launched or
      overwritten when it ends. */
  lemma WaitingServed(states: seq<State>, steps: seq<Step>, m: nat, n: nat, id: nat)
    requires InDrain(states, steps, m, n) && n < |steps| && steps[n].EndDrain?
    requires forall t :: m < t < n ==> !steps[t].SkipSlot?
    requires id < |states[m].received| && InSlots(states[m].slots, states[m].received[id]) > 0
    ensures var s, f := states[n], states[m].received[id];
            Count(s.lost, f) + Count(s.launched, CallOf(s.hs, f)) == 1
  {
    var f := states[m].received[id];
    RunRouted(states, steps, m);
    DrainEmpties(states, steps, m, n, f);
    SumToZero(SlotTerms(states[n].slots, f), |states[n].slots|);
    ReceivedStays(states, steps, m, n, id);
    RunLedger(states, steps, n, f);
    RunRouted(states, steps, n);
    ReceivedOnce(states[n].received, id);
    OnlyInSlot(states, steps, m, n, f);
  }

  lemma {:induction false} ReceivedStays(states: seq<State>, steps: seq<Step>, m: nat, n: nat, id: nat)
    requires Run(states, steps) && m <= n <= |steps| && id < |states[m].received|
    ensures id < |states[n].received| && states[n].received[id] == states[m].received[id]
  {
    if m < n {
      ReceivedStays(states, steps, m, n - 1, id);
      WorkerMoves(states[n - 1], steps[n - 1]);
    }
  }

  /** A frame that waits in a slot is neither queued nor refused, then or later. */
  lemma OnlyInSlot(states: seq<State>, steps: seq<Step>, m: nat, n: nat, f: Frame)
    requires Run(states, steps) && m <= n <= |steps| && f.id < |states[m].received| && states[m].received[f.id] == f
    requires InSlots(states[m].slots, f) > 0
    ensures Count(states[n].queue, f) == 0 && Count(states[n].refused, f) == 0
  {
    RunRouted(states, steps, m);
    SomeSlot(states[m].slots, f);
    RunChannels(states, steps, n);
    RunRouted(states, steps, n);
    SameHandlers(states, steps, m);
    SameHandlers(states, steps, n);
    var s := states[n];
    assert Has(s.hs, f, BACKGROUND);
    assert f !in s.refused;
    forall k | 0 <= k < |s.queue| ensures s.queue[k] != f {
      assert s.accepted[|s.popped| + k] == s.queue[k];
    }
  }

  lemma SomeSlot(slots: seq<L.Slot<Frame>>, f: Frame)
    requires InSlots(slots, f) > 0
    ensures exists i :: 0 <= i < |slots| && slots[i].content == Some(f)
  {
    if forall i :: 0 <= i < |slots| ==> slots[i].content != Some(f) {
      SumToZero(SlotTerms(slots, f), |slots|);
    }
  }

  lemma {:induction false} SameHandlers(states: seq<State>, steps: seq<Step>, n: nat)
    requires Run(states, steps) && n <= |steps|
    ensures states[n].hs == states[0].hs
  {
    if n > 0 {
      SameHandlers(states, steps, n - 1);
      WorkerMoves(states[n - 1], steps[n - 1]);
    }
  }

  /** Only frames of the ring are refused. */
  ghost predicate RefusedOk(s: State) {
    forall k :: 0 <= k < |s.refused| ==> !Has(s.hs, s.refused[k], BACKGROUND)
  }

  lemma NextRefused(s: State, st: Step)
    requires Enabled(s, st) && RefusedOk(s)
    ensures RefusedOk(Next(s, st))
  {
  }

  lemma {:induction false} RunChannels(states: seq<State>, steps: seq<Step>, n: nat)
    requires Run(states, steps) && n <= |steps|
    ensures RefusedOk(states[n])
  {
    if n > 0 {
      RunChannels(states, steps, n - 1);
      NextRefused(states[n - 1], steps[n - 1]);
    }
  }
}
