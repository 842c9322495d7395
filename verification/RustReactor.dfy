/** The Rust reactor: one worker task per handler, the event loop that drains, counts and waits for a permit or a
    timeout, and the blocking pool. CRITICAL callbacks run in the event loop; NORMAL and BACKGROUND callbacks are
    spawned onto the pool and run later, in any order. The queue is the bounded FIFO that the ring refines, each slot
    the latest-only slot that the slot machine refines. */
module RustReactor {
  import opened Collections
  import opened Mask
  import opened Routing
  import Fnv
  import L = LatestOnly

  /** A frame: the position of its worker's handler, and its number among the frames received. */
  datatype Frame = Frame(handler: nat, id: nat)

  /** A callback for a frame: the position of the handler it reaches. */
  datatype Call = Call(f: Frame, reached: nat)

  /** The worker task of a handler. */
  datatype Worker = Receiving | Notifying(f: Frame)

  /** The event loop. */
  datatype Main = Draining | Publishing | DrainingCache(i: nat) | Waiting

  datatype Counters = Counters(critical: nat, normal: nat, background: nat)

  datatype State = State(
    // fixed: handlers, slot hashes in iteration order, queue bound
    hs: seq<Handler>, keys: seq<Fnv.Word>, bound: nat,
    // shared state
    queue: seq<Frame>, slots: seq<L.Slot<Frame>>, permit: bool, workers: seq<Worker>, main: Main,
    // counts of the drain in progress, and the published counters
    drain: Counters, processed: Counters,
    // callbacks on the pool that have not run
    spawned: multiset<Call>,
    // history: frames received, accepted and refused by the queue, overwritten in a slot, popped; callbacks run inline
    // or spawned, in the event loop's order; callbacks that ran, in the order they ran; failed lookups
    received: seq<Frame>, accepted: seq<Frame>, refused: seq<Frame>, lost: seq<Frame>, popped: seq<Frame>,
    launched: seq<Call>, ran: seq<Call>, unrouted: nat)

  datatype Step =
    | Push(w: nat)      // a frame arrives and is pushed; CRITICAL workers notify next, accepted or not
    | Put(w: nat)       // a frame arrives and is put into the slot of its hash
    | Notify(w: nat)    // stores the permit, of which there is at most one
    | Pop
    | SeeEmpty
    | Publish
    | DrainSlot
    | SkipSlot          // the slot's lock is held
    | EndDrain
    | Woken             // consumes the permit
    | Timeout
    | RunSpawned(c: Call)

  const NONE := Counters(0, 0, 0)

  ghost predicate Init(s: State) {
    && Allocated(s.hs, s.keys) && |s.slots| == |s.keys| && (forall i :: 0 <= i < |s.slots| ==> s.slots[i] == L.Slot(None, 0))
    && |s.workers| == |s.hs| && (forall w :: 0 <= w < |s.workers| ==> s.workers[w].Receiving?)
    && s.queue == [] && !s.permit && s.main.Draining? && s.drain == NONE && s.processed == NONE && s.spawned == multiset{}
    && s.received == [] && s.accepted == [] && s.refused == [] && s.lost == [] && s.popped == []
    && s.launched == [] && s.ran == [] && s.unrouted == 0
  }

  predicate Has(hs: seq<Handler>, f: Frame, p: Priority) {
    f.handler < |hs| && hs[f.handler].priority == p
  }

  predicate Enabled(s: State, st: Step) {
    match st
    case Push(w) => w < |s.hs| && w < |s.workers| && s.workers[w].Receiving? && !s.hs[w].priority.BACKGROUND?
    case Put(w) => w < |s.hs| && w < |s.workers| && s.workers[w].Receiving? && s.hs[w].priority.BACKGROUND?
    case Notify(w) => w < |s.workers| && s.workers[w].Notifying?
    case Pop => s.main.Draining? && s.queue != []
    case SeeEmpty => s.main.Draining? && s.queue == []
    case Publish => s.main.Publishing?
    case DrainSlot => s.main.DrainingCache? && s.main.i < |s.slots| && s.main.i < |s.keys|
    case SkipSlot => s.main.DrainingCache? && s.main.i < |s.slots|
    case EndDrain => s.main.DrainingCache? && s.main.i == |s.slots|
    case Woken => s.main.Waiting? && s.permit
    case Timeout => s.main.Waiting?
    case RunSpawned(c) => c in s.spawned
  }

  function Overwritten(slot: L.Slot<Frame>): seq<Frame> {
    if slot.content.Some? then [slot.content.value] else []
  }

  /** The slot drained at place `i` holds `f`: its callback is the one the collected index names for the slot's hash. */
  function SpawnBackground(s: State, f: Frame, key: Fnv.Word): State {
    var index := CollectedIndex(s.hs);
    if key in index then
      var c := Call(f, index[key]);
      s.(spawned := s.spawned + multiset{c}, launched := s.launched + [c],
         drain := s.drain.(background := s.drain.background + 1))
    else
      s.(unrouted := s.unrouted + 1)
  }

  function Next(s: State, st: Step): State
    requires Enabled(s, st)
  {
    match st
    case Push(w) =>
      var f := Frame(w, |s.received|);
      var s' := s.(received := s.received + [f],
                   workers := s.workers[w := if Has(s.hs, f, CRITICAL) then Notifying(f) else Receiving]);
      if |s.queue| < s.bound then s'.(queue := s.queue + [f], accepted := s.accepted + [f])
      else s'.(refused := s.refused + [f])
    case Put(w) =>
      var f := Frame(w, |s.received|);
      var i := Find(s.keys, s.hs[w].hash);
      var s' := s.(received := s.received + [f]);
      if i < |s.slots| then
        s'.(slots := s.slots[i := L.Apply(s.slots[i], L.Put(f))], lost := s.lost + Overwritten(s.slots[i]))
      else
        s'.(unrouted := s.unrouted + 1)
    case Notify(w) => s.(permit := true, workers := s.workers[w := Receiving])
    case Pop =>
      var f := s.queue[0];
      var c := Call(f, f.handler);
      var s' := s.(queue := s.queue[1..], popped := s.popped + [f], launched := s.launched + [c]);
      if Has(s.hs, f, CRITICAL) then
        s'.(ran := s.ran + [c], drain := s.drain.(critical := s.drain.critical + 1))
      else
        s'.(spawned := s.spawned + multiset{c}, drain := s.drain.(normal := s.drain.normal + 1))
    case SeeEmpty => s.(main := Publishing)
    case Publish =>
      s.(processed := Counters(WrappingAdd(s.processed.critical, s.drain.critical),
                               WrappingAdd(s.processed.normal, s.drain.normal), s.processed.background),
         drain := NONE, main := DrainingCache(0))
    case DrainSlot =>
      var i := s.main.i;
      var s' := s.(slots := s.slots[i := L.Apply(s.slots[i], L.Take)], main := DrainingCache(i + 1));
      if s.slots[i].content.Some? then SpawnBackground(s', s.slots[i].content.value, s.keys[i]) else s'
    case SkipSlot => s.(main := DrainingCache(s.main.i + 1))
    case EndDrain =>
      s.(processed := s.processed.(background := WrappingAdd(s.processed.background, s.drain.background)),
         drain := NONE, main := Waiting)
    case Woken => s.(permit := false, main := Draining)
    case Timeout => s.(main := Draining)
    case RunSpawned(c) => s.(spawned := s.spawned - multiset{c}, ran := s.ran + [c])
  }

  ghost predicate Run(states: seq<State>, steps: seq<Step>) {
    && |states| == |steps| + 1
    && Init(states[0])
    && forall i {:trigger steps[i]} :: 0 <= i < |steps| ==> Enabled(states[i], steps[i]) && states[i + 1] == Next(states[i], steps[i])
  }

  // --- what every step keeps ---

  /** The callback every frame is meant to have: the position it carries, or for BACKGROUND the collected index's. */
  function CallOf(hs: seq<Handler>, f: Frame): Call {
    if Has(hs, f, BACKGROUND) && hs[f.handler].hash in CollectedIndex(hs) then
      Call(f, CollectedIndex(hs)[hs[f.handler].hash])
    else
      Call(f, f.handler)
  }

  ghost predicate Shape(s: State) {
    && Allocated(s.hs, s.keys) && |s.slots| == |s.keys| && |s.workers| == |s.hs| && |s.queue| <= s.bound
    && (s.main.DrainingCache? ==> s.main.i <= |s.slots|)
    && (forall w :: 0 <= w < |s.workers| && s.workers[w].Notifying? ==> s.workers[w].f.handler == w)
  }

  ghost predicate InQueue(hs: seq<Handler>, accepted: seq<Frame>) {
    forall k :: 0 <= k < |accepted| ==> accepted[k].handler < |hs| && !Has(hs, accepted[k], BACKGROUND)
  }

  ghost predicate InOwnSlots(hs: seq<Handler>, keys: seq<Fnv.Word>, slots: seq<L.Slot<Frame>>) {
    && |slots| == |keys|
    && forall i :: 0 <= i < |slots| && slots[i].content.Some? ==>
         Has(hs, slots[i].content.value, BACKGROUND) && hs[slots[i].content.value.handler].hash == keys[i]
  }

  ghost predicate Numbered(hs: seq<Handler>, received: seq<Frame>) {
    forall k :: 0 <= k < |received| ==> received[k].id == k && received[k].handler < |hs|
  }

  /** Frames go to the channel of their priority, those of a slot to the slot of their hash, and no lookup fails. */
  ghost predicate Routed(s: State) {
    && s.unrouted == 0
    && s.accepted == s.popped + s.queue
    && InQueue(s.hs, s.accepted) && InOwnSlots(s.hs, s.keys, s.slots) && Numbered(s.hs, s.received)
  }

  lemma InitShape(s: State)
    requires Init(s)
    ensures Shape(s) && Routed(s)
  {
  }

  /** What a step does to the event loop, to the workers, and to the slots. */
  lemma MainMoves(s: State, st: Step)
    requires Enabled(s, st)
    ensures Next(s, st).main ==
              if st.SeeEmpty? then Publishing
              else if st.Publish? then DrainingCache(0)
              else if st.DrainSlot? || st.SkipSlot? then DrainingCache(s.main.i + 1)
              else if st.EndDrain? then Waiting
              else if st.Woken? || st.Timeout? then Draining
              else s.main
  {
  }

  lemma WorkerMoves(s: State, st: Step)
    requires Enabled(s, st)
    ensures Next(s, st).hs == s.hs && Next(s, st).keys == s.keys && Next(s, st).bound == s.bound
    ensures Next(s, st).received == s.received + (if st.Push? || st.Put? then [Frame(st.w, |s.received|)] else [])
    ensures Next(s, st).workers ==
              if st.Push? && s.hs[st.w].priority == CRITICAL then s.workers[st.w := Notifying(Frame(st.w, |s.received|))]
              else if st.Push? || st.Notify? then s.workers[st.w := Receiving]
              else s.workers
  {
  }

  lemma SlotsMove(s: State, st: Step)
    requires Enabled(s, st)
    ensures var slots, i := s.slots, if st.Put? then Find(s.keys, s.hs[st.w].hash) else 0;
            Next(s, st).slots ==
              if st.Put? && i < |slots| then slots[i := L.Apply(slots[i], L.Put(Frame(st.w, |s.received|)))]
              else if st.DrainSlot? then slots[s.main.i := L.Apply(slots[s.main.i], L.Take)]
              else slots
  {
  }

  lemma QueueMoves(s: State, st: Step)
    requires Enabled(s, st)
    ensures |Next(s, st).queue| <= |s.queue| || (|s.queue| < s.bound && |Next(s, st).queue| == |s.queue| + 1)
  {
  }

  lemma NextShape(s: State, st: Step)
    requires Shape(s) && Enabled(s, st)
    ensures Shape(Next(s, st))
  {
    MainMoves(s, st);
    WorkerMoves(s, st);
    SlotsMove(s, st);
    QueueMoves(s, st);
  }

  lemma PushRouted(s: State, w: nat)
    requires Routed(s) && Enabled(s, Push(w))
    ensures Routed(Next(s, Push(w)))
  {
    var f := Frame(w, |s.received|);
    assert s.popped + (s.queue + [f]) == s.accepted + [f];
  }

  lemma PutRouted(s: State, w: nat)
    requires Shape(s) && Routed(s) && Enabled(s, Put(w))
    ensures Routed(Next(s, Put(w)))
  {
    assert InBackground(s.hs, s.hs[w].hash);
  }

  lemma DrainRouted(s: State)
    requires Shape(s) && Routed(s) && Enabled(s, DrainSlot)
    ensures Routed(Next(s, DrainSlot))
  {
    CollectedIsLast(s.hs);
  }

  lemma NextRouted(s: State, st: Step)
    requires Shape(s) && Routed(s) && Enabled(s, st)
    ensures Routed(Next(s, st))
  {
    match st
    case Push(w) => PushRouted(s, w);
    case Put(w) => PutRouted(s, w);
    case Pop => assert s.popped + s.queue == (s.popped + [s.queue[0]]) + s.queue[1..];
    case DrainSlot => DrainRouted(s);
    case _ =>
  }

  lemma {:induction false} RunRouted(states: seq<State>, steps: seq<Step>, n: nat)
    requires Run(states, steps) && n <= |steps|
    ensures Shape(states[n]) && Routed(states[n])
  {
    if n == 0 {
      InitShape(states[0]);
    } else {
      RunRouted(states, steps, n - 1);
      NextShape(states[n - 1], steps[n - 1]);
      NextRouted(states[n - 1], steps[n - 1]);
    }
  }

  /** The frame about to be popped, and its callback. */
  lemma PopCall(s: State)
    requires Routed(s) && Enabled(s, Pop)
    ensures var f := s.queue[0];
            f.handler < |s.hs| && !Has(s.hs, f, BACKGROUND) && CallOf(s.hs, f) == Call(f, f.handler)
  {
    assert s.queue[0] == s.accepted[|s.popped|];
  }

  /** The frame in the slot about to be drained, and its callback. */
  lemma DrainCall(s: State)
    requires Routed(s) && Enabled(s, DrainSlot) && s.slots[s.main.i].content.Some?
    ensures var f, key := s.slots[s.main.i].content.value, s.keys[s.main.i];
            && Has(s.hs, f, BACKGROUND) && key in CollectedIndex(s.hs)
            && CallOf(s.hs, f) == Call(f, CollectedIndex(s.hs)[key])
  {
    CollectedIsLast(s.hs);
  }

  // --- callbacks ---

  /** Callbacks are launched for the right handler, each is on the pool or has run, and CRITICAL ones are never on the
      pool. */
  ghost predicate Launched(hs: seq<Handler>, launched: seq<Call>, spawned: multiset<Call>, ran: seq<Call>) {
    && multiset(launched) == spawned + multiset(ran)
    && (forall k :: 0 <= k < |launched| ==> launched[k] == CallOf(hs, launched[k].f))
    && (forall c :: c in spawned ==> !Has(hs, c.f, CRITICAL))
  }

  /** The frames of the calls whose handler has one of these priorities, in order. */
  function Of(hs: seq<Handler>, calls: seq<Call>, ps: set<Priority>): seq<Frame> {
    if calls == [] then []
    else
      var f := calls[|calls| - 1].f;
      Of(hs, calls[..|calls| - 1], ps) + (if f.handler < |hs| && hs[f.handler].priority in ps then [f] else [])
  }

  /** The CRITICAL ones among the frames, in order. */
  function Criticals(hs: seq<Handler>, fs: seq<Frame>): seq<Frame> {
    if fs == [] then []
    else
      var f := fs[|fs| - 1];
      Criticals(hs, fs[..|fs| - 1]) + (if Has(hs, f, CRITICAL) then [f] else [])
  }

  /** The event loop launches ring frames in acceptance order; CRITICAL callbacks have run in that order. */
  ghost predicate Ordered(hs: seq<Handler>, popped: seq<Frame>, launched: seq<Call>, ran: seq<Call>) {
    && Of(hs, launched, {CRITICAL, NORMAL}) == popped
    && Of(hs, ran, {CRITICAL}) == Criticals(hs, popped)
  }

  lemma OfAppend(hs: seq<Handler>, calls: seq<Call>, c: Call, ps: set<Priority>)
    ensures Of(hs, calls + [c], ps)
         == Of(hs, calls, ps) + (if c.f.handler < |hs| && hs[c.f.handler].priority in ps then [c.f] else [])
  {
    assert (calls + [c])[..|calls|] == calls;
  }

  lemma CriticalsAppend(hs: seq<Handler>, fs: seq<Frame>, f: Frame)
    ensures Criticals(hs, fs + [f]) == Criticals(hs, fs) + (if Has(hs, f, CRITICAL) then [f] else [])
  {
    assert (fs + [f])[..|fs|] == fs;
  }

  lemma LaunchOne(hs: seq<Handler>, launched: seq<Call>, spawned: multiset<Call>, ran: seq<Call>, c: Call)
    requires Launched(hs, launched, spawned, ran) && c == CallOf(hs, c.f)
    ensures Launched(hs, launched + [c], spawned, ran + [c])
    ensures !Has(hs, c.f, CRITICAL) ==> Launched(hs, launched + [c], spawned + multiset{c}, ran)
  {
  }

  lemma OrderPopped(hs: seq<Handler>, popped: seq<Frame>, launched: seq<Call>, ran: seq<Call>, c: Call)
    requires Ordered(hs, popped, launched, ran) && c.f.handler < |hs| && !Has(hs, c.f, BACKGROUND)
    ensures Ordered(hs, popped + [c.f], launched + [c], if Has(hs, c.f, CRITICAL) then ran + [c] else ran)
  {
    OfAppend(hs, launched, c, {CRITICAL, NORMAL});
    OfAppend(hs, ran, c, {CRITICAL});
    CriticalsAppend(hs, popped, c.f);
  }

  lemma RunOne(hs: seq<Handler>, popped: seq<Frame>, launched: seq<Call>, spawned: multiset<Call>, ran: seq<Call>, c: Call)
    requires Launched(hs, launched, spawned, ran) && Ordered(hs, popped, launched, ran) && c in spawned
    ensures Launched(hs, launched, spawned - multiset{c}, ran + [c]) && Ordered(hs, popped, launched, ran + [c])
  {
    OfAppend(hs, ran, c, {CRITICAL});
  }

  /** The steps that launch and run nothing. */
  lemma QuietFrame(s: State, st: Step)
    requires Enabled(s, st) && !st.Pop? && !st.DrainSlot? && !st.RunSpawned?
    ensures var s' := Next(s, st);
            && s'.hs == s.hs && s'.keys == s.keys && s'.popped == s.popped
            && s'.launched == s.launched && s'.spawned == s.spawned && s'.ran == s.ran
            && (!st.Publish? && !st.EndDrain? ==> s'.drain == s.drain && s'.processed == s.processed)
            && (s'.main == s.main || st.SeeEmpty? || st.Publish? || st.SkipSlot? || st.EndDrain? || st.Woken? || st.Timeout?)
  {
  }

  ghost predicate Calls(s: State) {
    Launched(s.hs, s.launched, s.spawned, s.ran) && Ordered(s.hs, s.popped, s.launched, s.ran)
  }

  lemma PopCalls(s: State)
    requires Routed(s) && Calls(s) && Enabled(s, Pop)
    ensures Calls(Next(s, Pop))
  {
    var c := Call(s.queue[0], s.queue[0].handler);
    PopCall(s);
    LaunchOne(s.hs, s.launched, s.spawned, s.ran, c);
    OrderPopped(s.hs, s.popped, s.launched, s.ran, c);
  }

  lemma DrainLaunches(s: State, f: Frame)
    requires Enabled(s, DrainSlot) && s.slots[s.main.i].content == Some(f) && s.keys[s.main.i] in CollectedIndex(s.hs)
    ensures var s', c := Next(s, DrainSlot), Call(f, CollectedIndex(s.hs)[s.keys[s.main.i]]);
            && s'.hs == s.hs && s'.popped == s.popped && s'.ran == s.ran
            && s'.launched == s.launched + [c] && s'.spawned == s.spawned + multiset{c}
  {
  }

  lemma DrainCalls(s: State, f: Frame)
    requires Calls(s) && Enabled(s, DrainSlot) && s.slots[s.main.i].content == Some(f)
    requires Has(s.hs, f, BACKGROUND) && s.keys[s.main.i] in CollectedIndex(s.hs)
    requires CallOf(s.hs, f) == Call(f, CollectedIndex(s.hs)[s.keys[s.main.i]])
    ensures Calls(Next(s, DrainSlot))
  {
    var c := CallOf(s.hs, f);
    DrainLaunches(s, f);
    LaunchOne(s.hs, s.launched, s.spawned, s.ran, c);
    OfAppend(s.hs, s.launched, c, {CRITICAL, NORMAL});
  }

  lemma NextCalls(s: State, st: Step)
    requires Routed(s) && Calls(s) && Enabled(s, st)
    ensures Calls(Next(s, st))
  {
    match st
    case Pop => PopCalls(s);
    case DrainSlot =>
      if s.slots[s.main.i].content.Some? {
        DrainCall(s);
        DrainCalls(s, s.slots[s.main.i].content.value);
      }
    case RunSpawned(c) => RunOne(s.hs, s.popped, s.launched, s.spawned, s.ran, c);
    case _ => QuietFrame(s, st);
  }

  lemma InitCalls(s: State)
    requires Init(s)
    ensures Calls(s)
  {
  }

  lemma {:induction false} RunCalls(states: seq<State>, steps: seq<Step>, n: nat)
    requires Run(states, steps) && n <= |steps|
    ensures Calls(states[n])
  {
    if n == 0 {
      InitCalls(states[0]);
    } else {
      RunRouted(states, steps, n - 1);
      RunCalls(states, steps, n - 1);
      NextCalls(states[n - 1], steps[n - 1]);
    }
  }

  /** What every step keeps, of the workers, the event loop and the pool. */
  ghost predicate Inv(s: State) {
    Shape(s) && Routed(s) && Calls(s) && Awake(s)
  }

  lemma NextInv(s: State, st: Step)
    requires Inv(s) && Enabled(s, st)
    ensures Inv(Next(s, st))
  {
    NextShape(s, st);
    NextRouted(s, st);
    NextCalls(s, st);
    NextAwake(s, st);
  }

  // --- every frame is in one place ---

  function InSlot(slot: L.Slot<Frame>, f: Frame): nat {
    if slot.content == Some(f) then 1 else 0
  }

  function SlotTerms(slots: seq<L.Slot<Frame>>, f: Frame): (t: seq<nat>)
    ensures |t| == |slots| && forall i :: 0 <= i < |t| ==> t[i] == InSlot(slots[i], f)
  {
    seq(|slots|, i requires 0 <= i < |slots| => InSlot(slots[i], f))
  }

  function InSlots(slots: seq<L.Slot<Frame>>, f: Frame): nat {
    Sum(SlotTerms(slots, f))
  }

  lemma InSlotsUpdate(slots: seq<L.Slot<Frame>>, i: nat, slot: L.Slot<Frame>, f: Frame)
    requires i < |slots|
    ensures InSlots(slots[i := slot], f) + InSlot(slots[i], f) == InSlots(slots, f) + InSlot(slot, f)
  {
    SumUpdate(SlotTerms(slots, f), i, InSlot(slot, f));
    assert SlotTerms(slots[i := slot], f) == SlotTerms(slots, f)[i := InSlot(slot, f)];
  }

  lemma NoneInSlots(slots: seq<L.Slot<Frame>>, f: Frame)
    requires forall i :: 0 <= i < |slots| ==> slots[i].content == None
    ensures InSlots(slots, f) == 0
  {
    SumToZero(SlotTerms(slots, f), |slots|);
  }

  /** How often `f` is queued, refused, waiting in a slot, overwritten, or launched. */
  ghost function Places(s: State, f: Frame): nat {
    Count(s.queue, f) + Count(s.refused, f) + InSlots(s.slots, f) + Count(s.lost, f) + Count(s.launched, CallOf(s.hs, f))
  }

  ghost predicate Ledger(s: State, f: Frame) {
    Count(s.received, f) == Places(s, f)
  }

  lemma CountLaunch(hs: seq<Handler>, launched: seq<Call>, g: Frame, f: Frame)
    ensures Count(launched + [CallOf(hs, g)], CallOf(hs, f)) == Count(launched, CallOf(hs, f)) + (if g == f then 1 else 0)
  {
    CountAppend(launched, CallOf(hs, g), CallOf(hs, f));
  }

  lemma CountFirst(fs: seq<Frame>, f: Frame)
    requires fs != []
    ensures Count(fs, f) == (if fs[0] == f then 1 else 0) + Count(fs[1..], f)
  {
    assert fs == [fs[0]] + fs[1..];
    CountPlus([fs[0]], fs[1..], f);
  }

  lemma PushLedger(s: State, w: nat, f: Frame)
    requires Ledger(s, f) && Enabled(s, Push(w))
    ensures Ledger(Next(s, Push(w)), f)
  {
    var g := Frame(w, |s.received|);
    CountAppend(s.received, g, f);
    if |s.queue| < s.bound {
      CountAppend(s.queue, g, f);
    } else {
      CountAppend(s.refused, g, f);
    }
  }

  lemma OverwrittenOnce(slots: seq<L.Slot<Frame>>, lost: seq<Frame>, i: nat, g: Frame, f: Frame)
    requires i < |slots|
    ensures InSlots(slots[i := L.Apply(slots[i], L.Put(g))], f) + Count(lost + Overwritten(slots[i]), f)
         == InSlots(slots, f) + Count(lost, f) + (if g == f then 1 else 0)
  {
    CountPlus(lost, Overwritten(slots[i]), f);
    InSlotsUpdate(slots, i, L.Apply(slots[i], L.Put(g)), f);
  }

  lemma PutLedger(s: State, w: nat, f: Frame)
    requires Shape(s) && Ledger(s, f) && Enabled(s, Put(w))
    ensures Ledger(Next(s, Put(w)), f)
  {
    var g := Frame(w, |s.received|);
    assert InBackground(s.hs, s.hs[w].hash);
    var i := Find(s.keys, s.hs[w].hash);
    CountAppend(s.received, g, f);
    OverwrittenOnce(s.slots, s.lost, i, g, f);
  }

  lemma PopLedger(s: State, f: Frame)
    requires Ledger(s, f) && Enabled(s, Pop) && CallOf(s.hs, s.queue[0]) == Call(s.queue[0], s.queue[0].handler)
    ensures Ledger(Next(s, Pop), f)
  {
    var s', g := Next(s, Pop), s.queue[0];
    assert s'.hs == s.hs && s'.slots == s.slots && s'.refused == s.refused && s'.lost == s.lost && s'.received == s.received;
    assert s'.queue == s.queue[1..] && s'.launched == s.launched + [CallOf(s.hs, g)];
    CountFirst(s.queue, f);
    CountLaunch(s.hs, s.launched, g, f);
  }

  lemma DrainLedger(s: State, f: Frame)
    requires Routed(s) && Ledger(s, f) && Enabled(s, DrainSlot)
    ensures Ledger(Next(s, DrainSlot), f)
  {
    var i := s.main.i;
    InSlotsUpdate(s.slots, i, L.Apply(s.slots[i], L.Take), f);
    if s.slots[i].content.Some? {
      DrainCall(s);
      CountLaunch(s.hs, s.launched, s.slots[i].content.value, f);
    }
  }

  lemma NextLedger(s: State, st: Step, f: Frame)
    requires Shape(s) && Routed(s) && Ledger(s, f) && Enabled(s, st)
    ensures Ledger(Next(s, st), f)
  {
    match st
    case Push(w) => PushLedger(s, w, f);
    case Put(w) => PutLedger(s, w, f);
    case Pop =>
      PopCall(s);
      PopLedger(s, f);
    case DrainSlot => DrainLedger(s, f);
    case _ =>
  }

  lemma {:induction false} RunLedger(states: seq<State>, steps: seq<Step>, n: nat, f: Frame)
    requires Run(states, steps) && n <= |steps|
    ensures Ledger(states[n], f)
  {
    if n == 0 {
      NoneInSlots(states[0].slots, f);
    } else {
      RunRouted(states, steps, n - 1);
      RunLedger(states, steps, n - 1, f);
      NextLedger(states[n - 1], steps[n - 1], f);
    }
  }

  lemma {:induction false} ReceivedOnce(received: seq<Frame>, id: nat)
    requires id < |received| && forall k :: 0 <= k < |received| ==> received[k].id == k
    ensures Count(received, received[id]) == 1
  {
    var n := |received| - 1;
    assert received == received[..n] + [received[n]];
    CountAppend(received[..n], received[n], received[id]);
    if id < n {
      ReceivedOnce(received[..n], id);
    } else {
      assert received[id] !in received[..n];
    }
  }

  /** In every state of every run each received frame is in exactly one place: queued, refused and counted, waiting in a
      slot, overwritten there, on the pool, or run once, by the callback of the handler it is meant for. */
  lemma FramesAccounted(states: seq<State>, steps: seq<Step>, n: nat, id: nat)
    requires Run(states, steps) && n <= |steps| && id < |states[n].received|
    ensures var s := states[n];
            var f := s.received[id];
            var c := CallOf(s.hs, f);
            Count(s.queue, f) + Count(s.refused, f) + InSlots(s.slots, f) + Count(s.lost, f) + s.spawned[c] + Count(s.ran, c) == 1
    ensures var s := states[n];
            forall k :: 0 <= k < |s.ran| ==> s.ran[k] == CallOf(s.hs, s.ran[k].f)
  {
    var s := states[n];
    RunRouted(states, steps, n);
    RunCalls(states, steps, n);
    RunLedger(states, steps, n, s.received[id]);
    ReceivedOnce(s.received, id);
    assert Count(s.launched, CallOf(s.hs, s.received[id])) == (s.spawned + multiset(s.ran))[CallOf(s.hs, s.received[id])];
    forall k | 0 <= k < |s.ran| ensures s.ran[k] == CallOf(s.hs, s.ran[k].f) {
      assert s.ran[k] in multiset(s.launched);
    }
  }

  // --- the wakeup ---

  /** The event loop has seen the queue empty and has not started to drain it again. */
  predicate PastEmpty(s: State) {
    !s.main.Draining?
  }

  /** The worker that pushed `f` has still to notify. */
  predicate Owed(s: State, f: Frame) {
    f.handler < |s.workers| && s.workers[f.handler] == Notifying(f)
  }

  /** Past the empty observation every queued CRITICAL frame has a permit, or its worker still owes the notification. */
  ghost predicate Awake(s: State) {
    PastEmpty(s) ==>
      forall k :: 0 <= k < |s.queue| && Has(s.hs, s.queue[k], CRITICAL) ==> s.permit || Owed(s, s.queue[k])
  }

  lemma NextAwake(s: State, st: Step)
    requires Shape(s) && Awake(s) && Enabled(s, st)
    ensures Awake(Next(s, st))
  {
    var s' := Next(s, st);
    forall k | PastEmpty(s') && 0 <= k < |s'.queue| && Has(s'.hs, s'.queue[k], CRITICAL)
      ensures s'.permit || Owed(s', s'.queue[k])
    {
      if st.Push? && k < |s.queue| {
        assert s.permit || Owed(s, s.queue[k]);
      }
    }
  }

  lemma {:induction false} RunAwake(states: seq<State>, steps: seq<Step>, n: nat)
    requires Run(states, steps) && n <= |steps|
    ensures Awake(states[n])
  {
    if n > 0 {
      RunRouted(states, steps, n - 1);
      RunAwake(states, steps, n - 1);
      NextAwake(states[n - 1], steps[n - 1]);
    }
  }

  /** Whenever the event loop waits while a CRITICAL frame is queued whose worker has notified, the wait can end
      at once: it does not need its timeout. */
  lemma NoLostPermit(states: seq<State>, steps: seq<Step>, n: nat, k: nat)
    requires Run(states, steps) && n <= |steps|
    requires states[n].main.Waiting? && k < |states[n].queue| && Has(states[n].hs, states[n].queue[k], CRITICAL)
    requires !Owed(states[n], states[n].queue[k])
    ensures Enabled(states[n], Woken)
  {
    RunAwake(states, steps, n);
  }

  /** A NORMAL frame has no such guarantee: the event loop can wait with one queued and only the timeout enabled. */
  lemma NormalNeedsTimeout(h: Handler, bound: nat) returns (states: seq<State>, steps: seq<Step>)
    requires h.priority.NORMAL? && bound > 0
    ensures Run(states, steps) && |steps| == 4
    ensures states[4].main.Waiting? && states[4].queue != [] && !Enabled(states[4], Woken)
  {
    steps := [SeeEmpty, Publish, EndDrain, Push(0)];
    var s0 := State([h], [], bound, [], [], false, [Receiving], Draining, NONE, NONE, multiset{}, [], [], [], [], [], [], [], 0);
    var s1 := Next(s0, steps[0]);
    var s2 := Next(s1, steps[1]);
    var s3 := Next(s2, steps[2]);
    states := [s0, s1, s2, s3, Next(s3, steps[3])];
  }
}
