/** The multi-producer single-consumer ring, one atomic load or store per step.

    Any number of producers run `push` and one consumer runs `pop`. Every thread has a program counter
    that carries its local registers. Positions are counted from the beginning of the run; the shared
    words `head` and `tail`, and every register, hold them masked by the capacity.

    A load of `head` or `tail` names the published position it returns. It may be an old one, but never
    older than the newest position the loading thread has seen itself or was handed through the push
    lock. A load is fresh when it returns the current position; sequentially consistent runs are the
    runs whose loads are all fresh. */
module RingSteps {
  import opened BoundedFifo
  import opened Mask

  /** Raw storage, or a constructed object: the `serial`-th one ever constructed in the ring. */
  datatype Cell<T> = Raw | Live(serial: nat, val: T)

  /** The newest published positions of `head` and `tail` that a thread has seen. */
  datatype View = View(head: nat, tail: nat)

  datatype Producer<T> =
    | Idle
    | Spinning(x: T)                // test_and_set
    | AtLoadTail(x: T)
    | AtLoadHead(x: T, t: nat)
    | AtConstruct(x: T, t: nat)
    | AtStoreTail(x: T, t: nat)
    | AtCountDrop(x: T)
    | AtUnlock(x: T, ok: bool)
    | Returned(x: T, ok: bool)

  datatype Consumer<T> =
    | Rest
    | AtLoadLimit(h: nat)           // head loaded, about to load tail
    | AtMoveOut(h: nat)
    | AtDestroy(h: nat, x: T)
    | AtStoreHead(h: nat, x: T)
    | Got(x: T)
    | SawEmpty

  /** The shared words, the program counters, and the history of the run. */
  datatype Ring<T> = Ring(
    // shared memory
    cap: nat, buf: seq<Cell<T>>, head: nat, tail: nat, locked: bool, dropped: nat,
    // threads
    prods: seq<Producer<T>>, cons: Consumer<T>,
    // what each thread, and the last holder of the lock, has seen
    seen: seq<View>, consSeen: View, lockSeen: View,
    // history: items in acceptance order with their producers, positions consumed, calls and refusals,
    // objects constructed, serials destroyed, completed calls per producer
    accepted: seq<T>, owners: seq<nat>, headPos: nat, calls: seq<T>, refused: seq<T>,
    born: nat, died: seq<nat>, results: seq<seq<(T, bool)>>,
    // set when a step touches storage it must not touch
    fault: bool)

  datatype Step<T> =
    | Call(p: nat, x: T)
    | Lock(p: nat)
    | LoadTail(p: nat, v: nat)
    | LoadHead(p: nat, v: nat)
    | Construct(p: nat)
    | StoreTail(p: nat)
    | CountDrop(p: nat)
    | Unlock(p: nat)
    | PopLoadHead(v: nat)
    | PopLoadTail(v: nat)
    | MoveOut
    | Destroy
    | StoreHead

  function Max(a: nat, b: nat): nat { if a < b then b else a }

  function Join(a: View, b: View): View { View(Max(a.head, b.head), Max(a.tail, b.tail)) }

  predicate IsProducerStep<T>(st: Step<T>) {
    st.Call? || st.Lock? || st.LoadTail? || st.LoadHead? || st.Construct? || st.StoreTail? || st.CountDrop? || st.Unlock?
  }

  ghost predicate Init<T>(s: Ring<T>) {
    && s.cap > 0
    && s.buf == seq(s.cap, _ => Raw)
    && s.head == 0 && s.tail == 0 && !s.locked && s.dropped == 0
    && s.prods == seq(|s.prods|, _ => Idle)
    && s.cons == Rest
    && s.seen == seq(|s.prods|, _ => View(0, 0))
    && s.consSeen == View(0, 0) && s.lockSeen == View(0, 0)
    && s.accepted == [] && s.owners == [] && s.headPos == 0 && s.calls == [] && s.refused == []
    && s.born == 0 && s.died == []
    && s.results == seq(|s.prods|, _ => [])
    && !s.fault
  }

  /** The arrays that hold one entry per slot or per producer have the right lengths. */
  ghost predicate Sized<T>(s: Ring<T>) {
    && s.cap > 0 && |s.buf| == s.cap
    && |s.seen| == |s.prods| && |s.results| == |s.prods|
  }

  /** The step is the next one of its thread; a load may return any position its thread may still see. */
  ghost predicate Enabled<T>(s: Ring<T>, st: Step<T>)
    requires Sized(s)
  {
    if IsProducerStep(st) then
      && st.p < |s.prods|
      && match st {
           case Call(p, x) => s.prods[p].Idle? || s.prods[p].Returned?
           case Lock(p) => s.prods[p].Spinning? && !s.locked
           case LoadTail(p, v) => s.prods[p].AtLoadTail? && s.seen[p].tail <= v <= |s.accepted|
           case LoadHead(p, v) => s.prods[p].AtLoadHead? && s.seen[p].head <= v <= s.headPos
           case Construct(p) => s.prods[p].AtConstruct?
           case StoreTail(p) => s.prods[p].AtStoreTail?
           case CountDrop(p) => s.prods[p].AtCountDrop?
           case Unlock(p) => s.prods[p].AtUnlock?
         }
    else
      match st
      case PopLoadHead(v) => (s.cons.Rest? || s.cons.Got? || s.cons.SawEmpty?) && s.consSeen.head <= v <= s.headPos
      case PopLoadTail(v) => s.cons.AtLoadLimit? && s.consSeen.tail <= v <= |s.accepted|
      case MoveOut => s.cons.AtMoveOut?
      case Destroy => s.cons.AtDestroy?
      case StoreHead => s.cons.AtStoreHead?
  }

  /** Loads return the current position. */
  ghost predicate Fresh<T>(s: Ring<T>, st: Step<T>) {
    match st
    case LoadTail(_, v) => v == |s.accepted|
    case LoadHead(_, v) => v == s.headPos
    case PopLoadHead(v) => v == s.headPos
    case PopLoadTail(v) => v == |s.accepted|
    case _ => true
  }

  /** The state after an enabled step. */
  function Next<T>(s: Ring<T>, st: Step<T>): Ring<T>
    requires Sized(s) && Enabled(s, st)
  {
    match st
    case Call(p, x) =>
      s.(prods := s.prods[p := Spinning(x)], calls := s.calls + [x])
    case Lock(p) =>
      s.(locked := true,
         prods := s.prods[p := AtLoadTail(s.prods[p].x)],
         seen := s.seen[p := Join(s.seen[p], s.lockSeen)])
    case LoadTail(p, v) =>
      s.(prods := s.prods[p := AtLoadHead(s.prods[p].x, Slot(v, s.cap))],
         seen := s.seen[p := s.seen[p].(tail := v)])
    case LoadHead(p, v) =>
      var x, t := s.prods[p].x, s.prods[p].t;
      var full := Slot(t + 1, s.cap) == Slot(v, s.cap);
      s.(prods := s.prods[p := if full then AtCountDrop(x) else AtConstruct(x, t)],
         seen := s.seen[p := s.seen[p].(head := v)])
    case Construct(p) =>
      var x, t := s.prods[p].x, s.prods[p].t;
      if t < s.cap && s.buf[t].Raw? then
        s.(buf := s.buf[t := Live(s.born, x)], born := s.born + 1, prods := s.prods[p := AtStoreTail(x, t)])
      else
        s.(fault := true)
    case StoreTail(p) =>
      var x, t := s.prods[p].x, s.prods[p].t;
      s.(tail := Slot(t + 1, s.cap),
         prods := s.prods[p := AtUnlock(x, true)],
         accepted := s.accepted + [x], owners := s.owners + [p],
         seen := s.seen[p := s.seen[p].(tail := |s.accepted| + 1)])
    case CountDrop(p) =>
      var x := s.prods[p].x;
      s.(dropped := s.dropped + 1, refused := s.refused + [x], prods := s.prods[p := AtUnlock(x, false)])
    case Unlock(p) =>
      var x, ok := s.prods[p].x, s.prods[p].ok;
      s.(locked := false,
         prods := s.prods[p := Returned(x, ok)],
         results := s.results[p := s.results[p] + [(x, ok)]],
         lockSeen := Join(s.lockSeen, s.seen[p]))
    case PopLoadHead(v) =>
      s.(cons := AtLoadLimit(Slot(v, s.cap)), consSeen := s.consSeen.(head := v))
    case PopLoadTail(v) =>
      s.(cons := if s.cons.h == Slot(v, s.cap) then SawEmpty else AtMoveOut(s.cons.h), consSeen := s.consSeen.(tail := v))
    case MoveOut =>
      var h := s.cons.h;
      if h < s.cap && s.buf[h].Live? then s.(cons := AtDestroy(h, s.buf[h].val)) else s.(fault := true)
    case Destroy =>
      var h := s.cons.h;
      if h < s.cap && s.buf[h].Live? then
        s.(buf := s.buf[h := Raw], died := s.died + [s.buf[h].serial], cons := AtStoreHead(h, s.cons.x))
      else
        s.(fault := true)
    case StoreHead =>
      s.(head := Slot(s.cons.h + 1, s.cap), headPos := s.headPos + 1,
         cons := Got(s.cons.x), consSeen := s.consSeen.(head := s.headPos + 1))
  }

  /** The queue a ring state stands for. */
  function Abs<T>(s: Ring<T>): seq<T> {
    if s.headPos <= |s.accepted| then s.accepted[s.headPos..] else []
  }

  /** The queue operation that takes effect in a step: a push when it publishes the tail or finds the
      ring full, a pop when it publishes the head or finds the ring empty. */
  function Effect<T>(s: Ring<T>, st: Step<T>): Event<T>
    requires Sized(s) && Enabled(s, st)
  {
    match st
    case StoreTail(p) => Accept(s.prods[p].x)
    case LoadHead(p, v) => if Slot(s.prods[p].t + 1, s.cap) == Slot(v, s.cap) then Refuse else Stutter
    case PopLoadTail(v) => if s.cons.h == Slot(v, s.cap) then SeeEmpty else Stutter
    case StoreHead => Take(s.cons.x)
    case _ => Stutter
  }

  /** A run of the ring from its initial state. */
  ghost predicate Run<T>(states: seq<Ring<T>>, steps: seq<Step<T>>) {
    && |states| == |steps| + 1
    && Init(states[0])
    && forall i :: 0 <= i < |steps| ==>
         && Sized(states[i])
         && Enabled(states[i], steps[i])
         && states[i + 1] == Next(states[i], steps[i])
  }
}
