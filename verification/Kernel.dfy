/** The whole kernel as interleaved steps: callback threads, the reactor thread, the operating system's poll
    and threads that call `stop`, over the ring, the slots, the eventfd and the running flag.

    The ring and the slots are the step machines of RingSteps and SlotSteps; a step of the kernel that
    touches them is one of their atomic steps, with fresh loads; the drain waits for
    each slot's lock and passes none over. */
module Kernel {
  import opened Routing
  import Fnv
  import R = RingSteps
  import S = SlotSteps

  /** A verified frame offered to the callback of subscription `handler`; frames are numbered as they arrive. */
  datatype Frame = Frame(id: nat, handler: nat)

  /** An element of the ring. */
  datatype Sample = Sample(hash: Fnv.Word, frame: Frame)

  /** A callback thread. */
  datatype Callback =
    | Idle
    | Pushing(f: Frame)
    | Waking(f: Frame)              // a CRITICAL frame was accepted: the eventfd write is due
    | Putting(f: Frame, slot: nat)

  /** The reactor thread. */
  datatype Reactor =
    | ArmGet(first: bool)           // io_uring_get_sqe
    | ArmSubmit(first: bool)        // prep, tag, submit
    | Loop                          // about to test the running flag
    | Syncing                       // about to load the ring's drop counter
    | Pop                           // about to pop
    | Popping
    | RingHand(x: Sample)           // popped, about to dispatch
    | Drain(i: nat)                 // slot i is next
    | Taking(i: nat)
    | SlotHand(i: nat, x: Sample)    // taken from slot i, about to dispatch
    | Scan(i: nat, acc: nat, reset: bool)
    | Wait                          // io_uring_wait_cqe_timeout
    | Read                          // a completion was returned: read the eventfd
    | Seen                          // io_uring_cqe_seen
    | Exit

  /** A callback that ran: for the ring frame at an acceptance position, or for a slot; with the handler it reached. */
  datatype Dispatch =
    | FromRing(pos: int, f: Frame, reached: nat)
    | FromSlot(slot: nat, f: Frame, reached: nat)

  datatype State = State(
    // fixed before the loop starts: handlers, index, slot hashes in iteration order
    hs: seq<Handler>, index: map<Fnv.Word, nat>, keys: seq<Fnv.Word>,
    // shared state
    ring: R.Ring<Sample>, slots: seq<S.Slot<Sample>>,
    efd: nat, sq: nat, armed: int, pending: int, running: bool,
    // threads: callbacks, reactor, number of stop() calls between store and write, and of completed ones
    cbs: seq<Callback>, re: Reactor, stopping: nat, stopped: nat,
    // BACKGROUND drop accounting of the reactor
    lastBg: nat, bgDropped: int,
    // history
    offered: seq<Frame>,            // frames in arrival order
    delivered: seq<Dispatch>,       // callbacks in the order they ran
    unrouted: nat,                  // frames for which a lookup failed
    cycleStart: nat,                // length of `delivered` when the current cycle began
    cycleFrom: nat,                 // ring position at which the current cycle began
    emptyAt: nat,                   // frames accepted when the current cycle found the ring empty
    cycles: nat,                    // completed handle_events calls
    scanStart: seq<nat>,            // every slot's drop counter when the current scan began
    bgBase: nat)                    // scanned total at the last reset

  /** Steps of the callback threads. */
  datatype CallbackStep =
    | Offer(p: nat, h: nat)
    | RingPut(rs: R.Step<Sample>)
    | PushReturn(p: nat)
    | WriteEventfd(p: nat)
    | SlotPut(i: nat, ss: S.Step<Sample>)
    | PutReturn(p: nat)

  /** Steps of the reactor that move frames. */
  datatype DispatchStep =
    | RingPop(rs: R.Step<Sample>)
    | DispatchRing
    | BeginTake
    | SlotTake(ss: S.Step<Sample>)
    | DispatchSlot
    | EndDrain

  /** The other steps of the reactor: its loop, the drop scan, and the wait. */
  datatype LoopStep =
    | TestRunning
    | SyncDrops
    | Reset
    | ScanLoad
    | ScanEnd
    | Timeout
    | Complete
    | ReadEventfd
    | CqeSeen
    | GetSqe
    | Submit

  /** Steps of the operating system and of threads that stop the reactor. */
  datatype SystemStep =
    | Fire
    | StopStore
    | StopWrite

  datatype Step = Callbacks(c: CallbackStep) | Dispatches(d: DispatchStep) | Loops(l: LoopStep) | System(o: SystemStep)

  const SQ_ENTRIES: nat := 64
  const EFD_MAX: nat := 0xffff_ffff_ffff_fffe

  /** write(2) of 1 to a non-blocking eventfd: fails without effect at the maximum. */
  function WriteFd(c: nat): nat {
    if c < EFD_MAX then c + 1 else c
  }

  predicate Background(s: State, f: Frame) {
    f.handler < |s.hs| && s.hs[f.handler].priority.BACKGROUND?
  }

  predicate Critical(s: State, f: Frame) {
    f.handler < |s.hs| && s.hs[f.handler].priority.CRITICAL?
  }

  function SampleOf(s: State, f: Frame): Sample
    requires f.handler < |s.hs|
  {
    Sample(s.hs[f.handler].hash, f)
  }

  function Drops(slots: seq<S.Slot<Sample>>): seq<nat> {
    seq(|slots|, i requires 0 <= i < |slots| => slots[i].drops)
  }

  /** Inside a handle_events call. */
  predicate InCycle(re: Reactor) {
    match re
    case Loop => false
    case Exit => false
    case ArmGet(first) => !first
    case ArmSubmit(first) => !first
    case Scan(_, _, reset) => !reset
    case _ => true
  }

  /** `run` after the slots are allocated and before the first poll is armed. */
  ghost predicate Init(s: State) {
    && Hashed(s.hs) && s.index == Index(s.hs) && Allocated(s.hs, s.keys)
    && R.Init(s.ring) && |s.ring.prods| == |s.cbs|
    && |s.slots| == |s.keys|
    && (forall i :: 0 <= i < |s.slots| ==> S.Init(s.slots[i]) && |s.slots[i].putters| == |s.cbs|)
    && s.efd == 0 && s.sq == 0 && s.armed == 0 && s.pending == 0 && s.running
    && s.cbs == seq(|s.cbs|, _ => Idle) && s.re == ArmGet(true) && s.stopping == 0 && s.stopped == 0
    && s.lastBg == 0 && s.bgDropped == 0
    && s.offered == [] && s.delivered == [] && s.unrouted == 0
    && s.cycleStart == 0 && s.cycleFrom == 0 && s.emptyAt == 0 && s.cycles == 0
    && s.scanStart == [] && s.bgBase == 0
  }

  /** Lengths agree across the embedded machines. */
  ghost predicate Sized(s: State) {
    && R.Sized(s.ring) && |s.ring.prods| == |s.cbs|
    && |s.slots| == |s.keys|
    && (forall i :: 0 <= i < |s.slots| ==> |s.slots[i].putters| == |s.cbs|)
  }

  ghost predicate CallbackEnabled(s: State, st: CallbackStep)
    requires Sized(s)
  {
    match st
    case Offer(p, h) =>
      && p < |s.cbs| && s.cbs[p].Idle? && h < |s.hs|
      && var f := Frame(|s.offered|, h);
         if s.hs[h].priority.BACKGROUND? then
           var i := Find(s.keys, s.hs[h].hash);
           i < |s.slots| ==> S.Enabled(s.slots[i], S.Call(p, SampleOf(s, f)))
         else R.Enabled(s.ring, R.Call(p, SampleOf(s, f)))
    case RingPut(rs) =>
      R.IsProducerStep(rs) && !rs.Call? && R.Enabled(s.ring, rs) && R.Fresh(s.ring, rs) && s.cbs[rs.p].Pushing?
    case PushReturn(p) => p < |s.cbs| && s.cbs[p].Pushing? && s.ring.prods[p].Returned?
    case WriteEventfd(p) => p < |s.cbs| && s.cbs[p].Waking?
    case SlotPut(i, ss) =>
      && i < |s.slots| && S.IsPut(ss) && !ss.Call? && S.Enabled(s.slots[i], ss)
      && s.cbs[ss.p].Putting? && s.cbs[ss.p].slot == i
    case PutReturn(p) =>
      p < |s.cbs| && s.cbs[p].Putting? && s.cbs[p].slot < |s.slots| && s.slots[s.cbs[p].slot].putters[p].Done?
  }

  ghost predicate DispatchEnabled(s: State, st: DispatchStep)
    requires Sized(s)
  {
    match st
    case RingPop(rs) =>
      && !R.IsProducerStep(rs) && R.Enabled(s.ring, rs) && R.Fresh(s.ring, rs)
      && (if rs.PopLoadHead? then s.re.Pop? else s.re.Popping?)
    case DispatchRing => s.re.RingHand?
    case BeginTake => s.re.Drain? && s.re.i < |s.slots| && S.Enabled(s.slots[s.re.i], S.CallTake)
    case SlotTake(ss) =>
      && s.re.Taking? && s.re.i < |s.slots| && !S.IsPut(ss) && !ss.CallTake? && !ss.Skip? && S.Enabled(s.slots[s.re.i], ss)
    case DispatchSlot => s.re.SlotHand?
    case EndDrain => s.re.Drain? && s.re.i == |s.slots|
  }

  ghost predicate LoopEnabled(s: State, st: LoopStep)
    requires Sized(s)
  {
    match st
    case TestRunning => s.re.Loop?
    case SyncDrops => s.re.Syncing?
    case Reset => s.re.Loop?
    case ScanLoad => s.re.Scan? && s.re.i < |s.slots|
    case ScanEnd => s.re.Scan? && s.re.i == |s.slots|
    case Timeout => s.re.Wait?
    case Complete => s.re.Wait? && s.pending > 0
    case ReadEventfd => s.re.Read?
    case CqeSeen => s.re.Seen?
    case GetSqe => s.re.ArmGet?
    case Submit => s.re.ArmSubmit?
  }

  ghost predicate SystemEnabled(s: State, st: SystemStep)
    requires Sized(s)
  {
    match st
    case Fire => s.armed > 0 && s.efd > 0
    case StopStore => true
    case StopWrite => s.stopping > 0
  }

  /** The step is the next one of its thread. */
  ghost predicate Enabled(s: State, st: Step)
    requires Sized(s)
  {
    match st
    case Callbacks(c) => CallbackEnabled(s, c)
    case Dispatches(d) => DispatchEnabled(s, d)
    case Loops(l) => LoopEnabled(s, l)
    case System(o) => SystemEnabled(s, o)
  }

  /** The reactor after an atomic step of its pop. */
  function AfterPop(ring: R.Ring<Sample>): Reactor {
    match ring.cons
    case Got(x) => RingHand(x)
    case SawEmpty => Drain(0)
    case _ => Popping
  }

  /** The reactor after an atomic step of its take from slot `i`. */
  function AfterTake(slot: S.Slot<Sample>, i: nat): Reactor {
    match slot.taker
    case Took(r) => if r.Some? then SlotHand(i, r.value) else Drain(i + 1)
    case _ => Taking(i)
  }

  function CallbackNext(s: State, st: CallbackStep): State
    requires Sized(s) && CallbackEnabled(s, st)
  {
    match st
    case Offer(p, h) =>
      var f := Frame(|s.offered|, h);
      if s.hs[h].priority.BACKGROUND? then
        var i := Find(s.keys, s.hs[h].hash);
        if i < |s.slots| then
          s.(offered := s.offered + [f],
             slots := s.slots[i := S.Next(s.slots[i], S.Call(p, SampleOf(s, f)))],
             cbs := s.cbs[p := Putting(f, i)])
        else
          s.(offered := s.offered + [f], unrouted := s.unrouted + 1)
      else
        s.(offered := s.offered + [f],
           ring := R.Next(s.ring, R.Call(p, SampleOf(s, f))),
           cbs := s.cbs[p := Pushing(f)])
    case RingPut(rs) => s.(ring := R.Next(s.ring, rs))
    case PushReturn(p) =>
      var f := s.cbs[p].f;
      s.(cbs := s.cbs[p := if s.ring.prods[p].ok && Critical(s, f) then Waking(f) else Idle])
    case WriteEventfd(p) => s.(efd := WriteFd(s.efd), cbs := s.cbs[p := Idle])
    case SlotPut(i, ss) => s.(slots := s.slots[i := S.Next(s.slots[i], ss)])
    case PutReturn(p) => s.(cbs := s.cbs[p := Idle])
  }

  function DispatchNext(s: State, st: DispatchStep): State
    requires Sized(s) && DispatchEnabled(s, st)
  {
    match st
    case RingPop(rs) =>
      var ring' := R.Next(s.ring, rs);
      s.(ring := ring', re := AfterPop(ring'),
         emptyAt := if ring'.cons.SawEmpty? then |ring'.accepted| else s.emptyAt)
    case DispatchRing =>
      var x := s.re.x;
      if x.hash in s.index then
        s.(delivered := s.delivered + [FromRing(s.ring.headPos - 1, x.frame, s.index[x.hash])],
           re := Pop)
      else
        s.(unrouted := s.unrouted + 1, re := Pop)
    case BeginTake =>
      var i := s.re.i;
      s.(slots := s.slots[i := S.Next(s.slots[i], S.CallTake)], re := Taking(i))
    case SlotTake(ss) =>
      var i := s.re.i;
      var slot' := S.Next(s.slots[i], ss);
      s.(slots := s.slots[i := slot'], re := AfterTake(slot', i))
    case DispatchSlot =>
      var i, x := s.re.i, s.re.x;
      if x.hash in s.index then
        s.(delivered := s.delivered + [FromSlot(i, x.frame, s.index[x.hash])], re := Drain(i + 1))
      else
        s.(unrouted := s.unrouted + 1, re := Drain(i + 1))
    case EndDrain => s.(re := Scan(0, 0, false), scanStart := Drops(s.slots))
  }

  function LoopNext(s: State, st: LoopStep): State
    requires Sized(s) && LoopEnabled(s, st)
  {
    match st
    case TestRunning =>
      if s.running then
        s.(re := Syncing, cycleStart := |s.delivered|, cycleFrom := s.ring.headPos)
      else
        s.(re := Exit)
    case SyncDrops => s.(re := Pop)
    case Reset => s.(re := Scan(0, 0, true), bgDropped := 0, scanStart := Drops(s.slots))
    case ScanLoad => s.(re := Scan(s.re.i + 1, s.re.acc + s.slots[s.re.i].drops, s.re.reset))
    case ScanEnd =>
      var total := s.re.acc;
      if s.re.reset then
        s.(re := Loop, lastBg := total, bgBase := total)
      else
        s.(re := Wait, lastBg := total, bgDropped := s.bgDropped + (total - s.lastBg))
    case Timeout => s.(re := Loop, cycles := s.cycles + 1)
    case Complete => s.(re := Read)
    case ReadEventfd => s.(efd := 0, re := Seen)
    case CqeSeen => s.(pending := s.pending - 1, re := ArmGet(false))
    case GetSqe =>
      var first := s.re.first;
      if s.sq == SQ_ENTRIES then
        s.(re := Loop, cycles := if first then s.cycles else s.cycles + 1)
      else
        s.(sq := s.sq + 1, re := ArmSubmit(first))
    case Submit =>
      s.(armed := s.armed + s.sq, sq := 0, re := Loop, cycles := if s.re.first then s.cycles else s.cycles + 1)
  }

  function SystemNext(s: State, st: SystemStep): State
    requires Sized(s) && SystemEnabled(s, st)
  {
    match st
    case Fire => s.(armed := s.armed - 1, pending := s.pending + 1)
    case StopStore => s.(running := false, stopping := s.stopping + 1)
    case StopWrite => s.(efd := WriteFd(s.efd), stopping := s.stopping - 1, stopped := s.stopped + 1)
  }

  /** The state after an enabled step. */
  function Next(s: State, st: Step): State
    requires Sized(s) && Enabled(s, st)
  {
    match st
    case Callbacks(c) => CallbackNext(s, c)
    case Dispatches(d) => DispatchNext(s, d)
    case Loops(l) => LoopNext(s, l)
    case System(o) => SystemNext(s, o)
  }

  /** A run of the kernel from the start of its loop. */
  ghost predicate Run(states: seq<State>, steps: seq<Step>) {
    && |states| == |steps| + 1
    && Init(states[0])
    && forall i {:trigger steps[i]} :: 0 <= i < |steps| ==>
         && Sized(states[i])
         && Enabled(states[i], steps[i])
         && states[i + 1] == Next(states[i], steps[i])
  }
}
