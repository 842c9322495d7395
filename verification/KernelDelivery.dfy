/** What the reactor delivers: which callbacks run, in which order, and how many can run ahead of a frame. */
module KernelDelivery {
  import opened Routing
  import opened Kernel
  import opened KernelInv
  import R = RingSteps
  import RingSafety

  // --- every accepted frame is delivered once, in acceptance order ---

  /** Ring frames whose callback has run. */
  function Done(s: State): int {
    s.ring.headPos - (if s.re.RingHand? then 1 else 0)
  }

  /** The ring positions dispatched, in order. */
  function Positions(ds: seq<Dispatch>): seq<int> {
    if ds == [] then []
    else
      var n := |ds| - 1;
      Positions(ds[..n]) + (if ds[n].FromRing? then [ds[n].pos] else [])
  }

  /** The frames dispatched from slot `i`, in order. */
  function SlotFrames(ds: seq<Dispatch>, i: nat): seq<Frame> {
    if ds == [] then []
    else
      var n := |ds| - 1;
      SlotFrames(ds[..n], i) + (if ds[n].FromSlot? && ds[n].slot == i then [ds[n].f] else [])
  }

  function Frames(xs: seq<Sample>): (fs: seq<Frame>)
    ensures |fs| == |xs|
  {
    seq(|xs|, k requires 0 <= k < |xs| => xs[k].frame)
  }

  /** A frame taken from slot `i` whose callback is still to run. */
  function InHand(s: State, i: nat): seq<Frame>
    requires i < |s.slots|
  {
    var taker := s.slots[i].taker;
    if s.re.SlotHand? && s.re.i == i then [s.re.x.frame]
    else if taker.AtRelease? && taker.r.Some? then [taker.r.value.frame]
    else []
  }

  /** A dispatch ran the callback that the index names for its frame, and the frame is the one queued there. */
  ghost predicate DispatchOk(s: State, d: Dispatch) {
    && d.f.handler < |s.hs|
    && s.hs[d.f.handler].hash in s.index && d.reached == s.index[s.hs[d.f.handler].hash]
    && (d.FromRing? ==> 0 <= d.pos < |s.ring.accepted| && d.f == s.ring.accepted[d.pos].frame)
  }

  ghost predicate RingDelivered(s: State) {
    && |Positions(s.delivered)| == Done(s)
    && (forall k :: 0 <= k < |Positions(s.delivered)| ==> Positions(s.delivered)[k] == k)
    && (forall k :: 0 <= k < |s.delivered| ==> DispatchOk(s, s.delivered[k]))
  }

  ghost predicate SlotDelivered(s: State, i: nat)
    requires i < |s.slots|
  {
    Frames(s.slots[i].takes) == SlotFrames(s.delivered, i) + InHand(s, i)
  }

  ghost predicate Delivered(s: State) {
    RingDelivered(s) && forall i :: 0 <= i < |s.slots| ==> SlotDelivered(s, i)
  }

  lemma CallbackDelivered(s: State, c: CallbackStep)
    requires Sized(s) && Delivered(s) && CallbackEnabled(s, c)
    ensures Delivered(CallbackNext(s, c))
  {
    CallbackFrame(s, c);
    CallbackKeeps(s, c);
    QuietDelivered(s, CallbackNext(s, c));
  }

  lemma RingPopDelivered(s: State, rs: R.Step<Sample>)
    requires Sized(s) && PopLink(s.re, s.ring.cons) && TakeLink(s.re, s.slots) && Delivered(s) && DispatchEnabled(s, RingPop(rs))
    ensures Delivered(DispatchNext(s, RingPop(rs)))
  {
    var s' := DispatchNext(s, RingPop(rs));
    PopFrame(s.ring, rs);
    assert forall k :: 0 <= k < |s.delivered| && DispatchOk(s, s.delivered[k]) ==> DispatchOk(s', s'.delivered[k]);
    assert forall i :: 0 <= i < |s.slots| && SlotDelivered(s, i) ==> SlotDelivered(s', i);
  }

  /** One more dispatch: what it adds to each projection of the delivered sequence. */
  lemma Appended(ds: seq<Dispatch>, d: Dispatch, i: nat)
    ensures Positions(ds + [d]) == Positions(ds) + (if d.FromRing? then [d.pos] else [])
    ensures SlotFrames(ds + [d], i) == SlotFrames(ds, i) + (if d.FromSlot? && d.slot == i then [d.f] else [])
  {
    assert (ds + [d])[..|ds|] == ds;
  }

  lemma DispatchRingDelivered(s: State)
    requires Inv(s) && Delivered(s) && DispatchEnabled(s, DispatchRing)
    ensures Delivered(DispatchNext(s, DispatchRing))
  {
    var s' := DispatchNext(s, DispatchRing);
    HandGood(s);
    assert s.re.x == s.ring.accepted[s.ring.headPos - 1];
    var d := s'.delivered[|s.delivered|];
    forall i | 0 <= i < |s.slots| ensures SlotDelivered(s', i) {
      assert SlotDelivered(s, i);
      Appended(s.delivered, d, i);
    }
    Appended(s.delivered, d, 0);
    assert forall k :: 0 <= k < |s.delivered| && DispatchOk(s, s.delivered[k]) ==> DispatchOk(s', s'.delivered[k]);
  }

  lemma DispatchSlotDelivered(s: State)
    requires Sized(s) && TakeLink(s.re, s.slots) && Delivered(s) && DispatchEnabled(s, DispatchSlot)
    requires Good(s.hs, s.re.x) && s.re.x.hash in s.index
    ensures Delivered(DispatchNext(s, DispatchSlot))
  {
    var s' := DispatchNext(s, DispatchSlot);
    var d := s'.delivered[|s.delivered|];
    forall i | 0 <= i < |s.slots| ensures SlotDelivered(s', i) {
      assert SlotDelivered(s, i);
      Appended(s.delivered, d, i);
    }
    Appended(s.delivered, d, 0);
    assert forall k :: 0 <= k < |s.delivered| && DispatchOk(s, s.delivered[k]) ==> DispatchOk(s', s'.delivered[k]);
  }

  /** The slot the reactor takes from: the frame it takes is the frame in its hand. */
  lemma TakeHere(s: State, d: DispatchStep)
    requires Sized(s) && TakeLink(s.re, s.slots) && DispatchEnabled(s, d) && (d.BeginTake? || d.SlotTake?)
    requires SlotDelivered(s, s.re.i)
    ensures SlotDelivered(DispatchNext(s, d), s.re.i)
  {
    var s', j := DispatchNext(s, d), s.re.i;
    var slot, slot' := s.slots[j], s'.slots[j];
    if d.SlotTake? && d.ss.Take? && slot.data.Some? {
      assert Frames(slot'.takes) == Frames(slot.takes) + [slot.data.value.frame];
    } else {
      assert slot'.takes == slot.takes;
    }
  }

  lemma TakeDelivered(s: State, d: DispatchStep)
    requires Sized(s) && TakeLink(s.re, s.slots) && Delivered(s) && DispatchEnabled(s, d) && (d.BeginTake? || d.SlotTake?)
    ensures Delivered(DispatchNext(s, d))
  {
    var s' := DispatchNext(s, d);
    assert forall k :: 0 <= k < |s.delivered| && DispatchOk(s, s.delivered[k]) ==> DispatchOk(s', s'.delivered[k]);
    forall i | 0 <= i < |s.slots| ensures SlotDelivered(s', i) {
      assert SlotDelivered(s, i);
      if i == s.re.i {
        TakeHere(s, d);
      }
    }
  }

  lemma NextDelivered(s: State, st: Step)
    requires Inv(s) && Delivered(s) && Enabled(s, st)
    ensures Delivered(Next(s, st))
  {
    match st
    case Callbacks(c) => CallbackDelivered(s, c);
    case Dispatches(d) =>
      if d.RingPop? {
        RingPopDelivered(s, d.rs);
      } else if d.DispatchRing? {
        DispatchRingDelivered(s);
      } else if d.DispatchSlot? {
        HandGood(s);
        DispatchSlotDelivered(s);
      } else if d.EndDrain? {
        QuietDelivered(s, DispatchNext(s, d));
      } else {
        TakeDelivered(s, d);
      }
    case Loops(l) =>
      LoopFrame(s, l);
      QuietDelivered(s, LoopNext(s, l));
    case System(o) =>
      SystemFrame(s, o);
      QuietDelivered(s, SystemNext(s, o));
  }

  /** Nothing was taken or dispatched. */
  lemma QuietDelivered(s: State, s': State)
    requires Delivered(s)
    requires s'.hs == s.hs && s'.index == s.index && s'.delivered == s.delivered
    requires s'.ring.headPos == s.ring.headPos && s.ring.accepted <= s'.ring.accepted
    requires |s'.slots| == |s.slots|
    requires forall i :: 0 <= i < |s.slots| ==> s'.slots[i].takes == s.slots[i].takes && s'.slots[i].taker == s.slots[i].taker
    requires s'.re == s.re || (!s.re.RingHand? && !s.re.SlotHand? && !s'.re.RingHand? && !s'.re.SlotHand?)
    ensures Delivered(s')
  {
    assert forall k :: 0 <= k < |s.delivered| && DispatchOk(s, s.delivered[k]) ==> DispatchOk(s', s'.delivered[k]);
    assert forall i :: 0 <= i < |s.slots| && SlotDelivered(s, i) ==> SlotDelivered(s', i);
  }

  lemma InitDelivered(s: State)
    requires Init(s)
    ensures Delivered(s)
  {
  }

  lemma {:induction false} RunDelivered(states: seq<State>, steps: seq<Step>, n: nat)
    requires Run(states, steps) && n <= |steps|
    ensures Delivered(states[n])
  {
    if n == 0 {
      InitDelivered(states[0]);
    } else {
      RunDelivered(states, steps, n - 1);
      RunInv(states, steps, n - 1);
      NextDelivered(states[n - 1], steps[n - 1]);
    }
  }

  /** In every run the ring frames whose callbacks have run are exactly the first accepted ones, each once and
      in acceptance order, the callback being the one the index names; and what was taken from a slot was
      delivered, up to the frame in the reactor's hand. */
  lemma DeliveredInOrder(states: seq<State>, steps: seq<Step>, n: nat)
    requires Run(states, steps) && n <= |steps|
    ensures Inv(states[n]) && Delivered(states[n])
  {
    RunInv(states, steps, n);
    RunDelivered(states, steps, n);
  }

  /** End to end: a dispatch reaches the subscribing handler exactly when no earlier handler has its hash. */
  lemma ReachesExactly(states: seq<State>, steps: seq<Step>, n: nat, k: nat)
    requires Run(states, steps) && n <= |steps| && k < |states[n].delivered|
    ensures var hs, d := states[n].hs, states[n].delivered[k];
            && d.f.handler < |hs| && d.reached < |hs| && hs[d.reached].hash == hs[d.f.handler].hash
            && (d.reached == d.f.handler <==> forall j :: 0 <= j < d.f.handler ==> hs[j].hash != hs[d.f.handler].hash)
  {
    DeliveredInOrder(states, steps, n);
    var s := states[n];
    assert DispatchOk(s, s.delivered[k]);
    IndexIsFirst(s.hs);
    assert First(s.hs, s.hs[s.delivered[k].f.handler].hash, s.delivered[k].reached);
    ReachesSubscriber(s.hs, s.delivered[k].f.handler);
  }

  // --- the order within a cycle ---

  /** Slots below this one have had their turn in the current cycle. */
  function Upto(s: State): nat {
    match s.re
    case Drain(i) => i
    case Taking(i) => i
    case SlotHand(i, _) => i
    case Syncing => 0
    case Pop => 0
    case Popping => 0
    case RingHand(_) => 0
    case _ => |s.slots|
  }

  predicate EmptyingRing(re: Reactor) {
    re.Syncing? || re.Pop? || re.Popping? || re.RingHand?
  }

  /** The first `n` dispatches are of the ring positions from `from` on, in order; the others are of slots
      below `upto`, each slot at most once. */
  ghost predicate CycleShape(ds: seq<Dispatch>, from: nat, n: int, upto: nat) {
    && 0 <= n <= |ds|
    && (upto == 0 ==> |ds| == n)
    && (forall k :: 0 <= k < n ==> ds[k].FromRing? && ds[k].pos == from + k)
    && (forall k :: n <= k < |ds| ==> ds[k].FromSlot? && ds[k].slot < upto)
    && (forall j, k :: n <= j < k < |ds| ==> ds[j].FromSlot? && ds[k].FromSlot? && ds[j].slot < ds[k].slot)
  }

  /** The callbacks of the current cycle so far. */
  function ThisCycle(s: State): seq<Dispatch> {
    if s.cycleStart <= |s.delivered| then s.delivered[s.cycleStart..] else []
  }

  ghost predicate CycleOk(s: State) {
    InCycle(s.re) ==>
      && s.cycleStart <= |s.delivered|
      && CycleShape(ThisCycle(s), s.cycleFrom, Done(s) - s.cycleFrom, Upto(s))
      && (!EmptyingRing(s.re) ==> Done(s) == s.emptyAt)
  }

  lemma AppendRing(ds: seq<Dispatch>, from: nat, n: int, d: Dispatch)
    requires CycleShape(ds, from, n, 0) && d.FromRing? && d.pos == from + n
    ensures CycleShape(ds + [d], from, n + 1, 0)
  {
  }

  lemma AppendSlot(ds: seq<Dispatch>, from: nat, n: int, d: Dispatch)
    requires d.FromSlot? && CycleShape(ds, from, n, d.slot)
    ensures CycleShape(ds + [d], from, n, d.slot + 1)
  {
  }

  lemma DispatchRingCycle(s: State)
    requires Sized(s) && CycleOk(s) && DispatchEnabled(s, DispatchRing) && s.re.x.hash in s.index
    ensures CycleOk(DispatchNext(s, DispatchRing))
  {
    var s' := DispatchNext(s, DispatchRing);
    AppendRing(ThisCycle(s), s.cycleFrom, Done(s) - s.cycleFrom, s'.delivered[|s.delivered|]);
    assert ThisCycle(s') == ThisCycle(s) + [s'.delivered[|s.delivered|]];
  }

  lemma DispatchSlotCycle(s: State)
    requires Sized(s) && CycleOk(s) && DispatchEnabled(s, DispatchSlot) && s.re.x.hash in s.index
    ensures CycleOk(DispatchNext(s, DispatchSlot))
  {
    var s' := DispatchNext(s, DispatchSlot);
    AppendSlot(ThisCycle(s), s.cycleFrom, Done(s) - s.cycleFrom, s'.delivered[|s.delivered|]);
    assert ThisCycle(s') == ThisCycle(s) + [s'.delivered[|s.delivered|]];
  }

  lemma RingPopCycle(s: State, rs: R.Step<Sample>)
    requires Sized(s) && CycleOk(s) && DispatchEnabled(s, RingPop(rs))
    requires R.Next(s.ring, rs).cons.SawEmpty? ==> s.ring.headPos == |s.ring.accepted|
    ensures CycleOk(DispatchNext(s, RingPop(rs)))
  {
    var s' := DispatchNext(s, RingPop(rs));
    PopFrame(s.ring, rs);
    assert ThisCycle(s') == ThisCycle(s) && Done(s') == Done(s);
  }

  lemma TakeCycle(s: State, d: DispatchStep)
    requires Sized(s) && CycleOk(s) && DispatchEnabled(s, d) && (d.BeginTake? || d.SlotTake? || d.EndDrain?)
    ensures CycleOk(DispatchNext(s, d))
  {
    var s' := DispatchNext(s, d);
    assert ThisCycle(s') == ThisCycle(s) && Done(s') == Done(s);
  }

  lemma DispatchCycle(s: State, d: DispatchStep)
    requires Inv(s) && CycleOk(s) && DispatchEnabled(s, d)
    ensures CycleOk(DispatchNext(s, d))
  {
    HandGood(s);
    match d
    case DispatchRing => DispatchRingCycle(s);
    case DispatchSlot => DispatchSlotCycle(s);
    case RingPop(rs) =>
      if R.Next(s.ring, rs).cons.SawEmpty? {
        EmptyIsEmpty(s.ring, rs);
      }
      RingPopCycle(s, rs);
    case _ => TakeCycle(s, d);
  }

  lemma CallbackCycle(s: State, c: CallbackStep)
    requires Sized(s) && CycleOk(s) && CallbackEnabled(s, c)
    ensures CycleOk(CallbackNext(s, c))
  {
    var s' := CallbackNext(s, c);
    CallbackFrame(s, c);
    CallbackKeeps(s, c);
    assert s'.cycleStart == s.cycleStart && s'.cycleFrom == s.cycleFrom && s'.emptyAt == s.emptyAt;
  }

  lemma LoopCycle(s: State, l: LoopStep)
    requires Sized(s) && CycleOk(s) && LoopEnabled(s, l)
    ensures CycleOk(LoopNext(s, l))
  {
    LoopFrame(s, l);
  }

  lemma NextCycle(s: State, st: Step)
    requires Inv(s) && CycleOk(s) && Enabled(s, st)
    ensures CycleOk(Next(s, st))
  {
    match st
    case Callbacks(c) => CallbackCycle(s, c);
    case Dispatches(d) => DispatchCycle(s, d);
    case Loops(l) => LoopCycle(s, l);
    case System(o) => SystemFrame(s, o);
  }

  lemma {:induction false} RunCycle(states: seq<State>, steps: seq<Step>, n: nat)
    requires Run(states, steps) && n <= |steps|
    ensures CycleOk(states[n])
  {
    if n > 0 {
      RunCycle(states, steps, n - 1);
      RunInv(states, steps, n - 1);
      NextCycle(states[n - 1], steps[n - 1]);
    }
  }

  /** In every state of every run the callbacks of the cycle in progress are the ring frames from the cycle's
      first position on, in acceptance order, then at most one frame per slot in slot order. A slot callback
      has run only after every frame that had been accepted when the ring was found empty was dispatched. */
  lemma CycleOrder(states: seq<State>, steps: seq<Step>, n: nat)
    requires Run(states, steps) && n <= |steps| && InCycle(states[n].re)
    ensures var s := states[n];
            && CycleShape(ThisCycle(s), s.cycleFrom, |Positions(s.delivered)| - s.cycleFrom, |s.slots|)
            && ((exists k :: 0 <= k < |ThisCycle(s)| && ThisCycle(s)[k].FromSlot?) ==> |Positions(s.delivered)| == s.emptyAt)
  {
    DeliveredInOrder(states, steps, n);
    RunCycle(states, steps, n);
    UptoBound(states[n]);
  }

  lemma UptoBound(s: State)
    requires Links(s)
    ensures Upto(s) <= |s.slots|
  {
  }

  // --- how many callbacks can run ahead ---

  /** Slot callbacks that may still run before the ring is popped again. */
  function SlotsLeft(s: State): int {
    if s.re.Drain? || s.re.Taking? || s.re.SlotHand? then |s.slots| - Upto(s) else 0
  }

  /** Callbacks that may still run before the one of ring position `pos`. */
  function Ahead(s: State, pos: nat): int {
    pos - Done(s) + SlotsLeft(s)
  }

  /** No step lets another callback in front of a frame that is queued or in the reactor's hand. */
  lemma DispatchAhead(s: State, d: DispatchStep, pos: nat)
    requires Inv(s) && DispatchEnabled(s, d) && Done(s) <= pos < |s.ring.accepted|
    requires Done(DispatchNext(s, d)) <= pos
    ensures var s' := DispatchNext(s, d);
            && |s'.delivered| + Ahead(s', pos) <= |s.delivered| + Ahead(s, pos)
            && |s'.ring.accepted| == |s.ring.accepted| && SlotsLeft(s') >= 0
  {
    HandGood(s);
    if d.RingPop? {
      PopFrame(s.ring, d.rs);
      if DispatchNext(s, d).ring.cons.SawEmpty? {
        EmptyIsEmpty(s.ring, d.rs);
      }
    }
  }

  lemma StepAhead(s: State, st: Step, pos: nat)
    requires Inv(s) && Enabled(s, st) && Done(s) <= pos < |s.ring.accepted|
    requires Done(Next(s, st)) <= pos
    ensures var s' := Next(s, st);
            && |s'.delivered| + Ahead(s', pos) <= |s.delivered| + Ahead(s, pos)
            && |s'.ring.accepted| >= |s.ring.accepted| && |s'.slots| == |s.slots| && s'.ring.cap == s.ring.cap
  {
    match st
    case Callbacks(c) =>
      CallbackFrame(s, c);
      CallbackKeeps(s, c);
    case Dispatches(d) =>
      DispatchFrame(s, d);
      DispatchAhead(s, d, pos);
      if d.RingPop? {
        PopFrame(s.ring, d.rs);
      }
    case Loops(l) => LoopFrame(s, l);
    case System(o) => SystemFrame(s, o);
  }

  /** No step takes back a dispatch. */
  lemma DoneGrows(s: State, st: Step)
    requires Sized(s) && Enabled(s, st)
    ensures Done(Next(s, st)) >= Done(s)
  {
    match st
    case Callbacks(c) =>
      CallbackFrame(s, c);
      CallbackKeeps(s, c);
    case Dispatches(d) =>
      if d.RingPop? {
        PopFrame(s.ring, d.rs);
      }
    case Loops(l) => LoopFrame(s, l);
    case System(o) => SystemFrame(s, o);
  }

  lemma AheadInRun(states: seq<State>, steps: seq<Step>, i: nat, pos: nat)
    requires Run(states, steps) && i < |steps|
    requires pos < |states[i].ring.accepted| && Done(states[i + 1]) <= pos
    ensures Done(states[i]) <= pos < |states[i + 1].ring.accepted|
    ensures |states[i + 1].delivered| + Ahead(states[i + 1], pos) <= |states[i].delivered| + Ahead(states[i], pos)
  {
    RunInv(states, steps, i);
    DoneGrows(states[i], steps[i]);
    StepAhead(states[i], steps[i], pos);
  }

  lemma {:induction false} RunAhead(states: seq<State>, steps: seq<Step>, m: nat, n: nat, pos: nat)
    requires Run(states, steps) && m <= n <= |steps|
    requires pos < |states[m].ring.accepted| && Done(states[n]) <= pos
    ensures Done(states[m]) <= pos < |states[n].ring.accepted|
    ensures |states[n].delivered| + Ahead(states[n], pos) <= |states[m].delivered| + Ahead(states[m], pos)
  {
    if m < n {
      RunAccepted(states, steps, m, n - 1);
      AheadInRun(states, steps, n - 1, pos);
      RunAhead(states, steps, m, n - 1, pos);
    }
  }

  lemma {:induction false} RunAccepted(states: seq<State>, steps: seq<Step>, m: nat, n: nat)
    requires Run(states, steps) && m <= n <= |steps|
    ensures |states[n].ring.accepted| >= |states[m].ring.accepted|
  {
    if m < n {
      RunAccepted(states, steps, m, n - 1);
      AcceptedGrows(states[n - 1], steps[n - 1]);
    }
  }

  lemma AcceptedGrows(s: State, st: Step)
    requires Sized(s) && Enabled(s, st)
    ensures |Next(s, st).ring.accepted| >= |s.ring.accepted|
  {
    match st
    case Callbacks(c) => CallbackKeeps(s, c);
    case Dispatches(d) =>
      if d.RingPop? {
        PopFrame(s.ring, d.rs);
      }
    case Loops(l) => LoopFrame(s, l);
    case System(o) => SystemFrame(s, o);
  }

  lemma {:induction false} PositionDispatched(ds: seq<Dispatch>, pos: int)
    requires pos in Positions(ds)
    ensures exists k :: 0 <= k < |ds| && ds[k].FromRing? && ds[k].pos == pos
  {
    var n := |ds| - 1;
    if pos in Positions(ds[..n]) {
      PositionDispatched(ds[..n], pos);
      var k :| 0 <= k < n && ds[..n][k].FromRing? && ds[..n][k].pos == pos;
      assert ds[k].FromRing? && ds[k].pos == pos;
    } else {
      assert ds[n].FromRing? && ds[n].pos == pos;
    }
  }

  /** Between the acceptance of a frame into the ring and its own callback at most
      (capacity - 2) + max(1, number of slots) other callbacks run, whatever the producers do meanwhile. */
  lemma BoundedBypass(states: seq<State>, steps: seq<Step>, m: nat, n: nat)
    requires Run(states, steps) && m <= n <= |steps|
    requires |states[m].ring.accepted| > 0
    requires forall k :: 0 <= k < |states[n].delivered| && states[n].delivered[k].FromRing? ==>
               states[n].delivered[k].pos != |states[m].ring.accepted| - 1
    ensures |states[n].delivered| - |states[m].delivered|
         <= states[m].ring.cap - 2 + R.Max(1, |states[m].slots|)
  {
    var pos := |states[m].ring.accepted| - 1;
    DeliveredInOrder(states, steps, m);
    DeliveredInOrder(states, steps, n);
    if Done(states[n]) > pos {
      assert Positions(states[n].delivered)[pos] == pos;
      PositionDispatched(states[n].delivered, pos);
    }
    RunAhead(states, steps, m, n, pos);
    AheadBounds(states[m]);
    AheadBounds(states[n]);
  }

  lemma AheadBounds(s: State)
    requires Inv(s)
    ensures 0 <= SlotsLeft(s)
    ensures |s.ring.accepted| > 0 ==> Ahead(s, |s.ring.accepted| - 1) <= s.ring.cap - 2 + R.Max(1, |s.slots|)
  {
    UptoBound(s);
    assert RingSafety.Positions(s.ring);
  }
}
