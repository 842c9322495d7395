/** The ring refines a bounded queue of `cap - 1` items, keeps each producer's order, loses no item, and
    destroys every object it constructs exactly once. */
module RingRefinement {
  import opened BoundedFifo
  import opened Collections
  import opened RingSteps
  import opened RingSafety
  import opened Mask

  /** There is room for the item a producer is about to publish. */
  lemma RoomToPublish<T>(s: Ring<T>, p: nat)
    requires Inv(s) && p < |s.prods| && s.prods[p].AtStoreTail?
    ensures |Abs(s)| < s.cap - 1
  {
    assert ProducerOk(s, p) && Covers(s, s.seen[p]);
  }

  lemma PushRefines<T>(s: Ring<T>, st: RingSteps.Step<T>)
    requires Inv(s) && Enabled(s, st) && IsProducerStep(st)
    ensures WeakStep(s.cap - 1, Abs(s), Effect(s, st), Abs(Next(s, st)))
    ensures Fresh(s, st) ==> BoundedFifo.Step(s.cap - 1, Abs(s), Effect(s, st), Abs(Next(s, st)))
    ensures Fresh(s, st) && st.LoadHead? ==> (Effect(s, st).Refuse? <==> |Abs(s)| == s.cap - 1)
  {
    if st.StoreTail? {
      RoomToPublish(s, st.p);
      assert Next(s, st).accepted == s.accepted + [s.prods[st.p].x];
    } else {
      assert Next(s, st).accepted == s.accepted;
      if st.LoadHead? {
        LoadHeadInv(s, st.p, st.v);
      }
    }
  }

  lemma LoadLimitRefines<T>(s: Ring<T>, v: nat)
    requires Inv(s) && Enabled(s, PopLoadTail(v))
    ensures WeakStep(s.cap - 1, Abs(s), Effect(s, PopLoadTail(v)), Abs(Next(s, PopLoadTail(v))))
    ensures v == |s.accepted| ==> (Effect(s, PopLoadTail(v)).SeeEmpty? <==> Abs(s) == [])
  {
    SameSlot(s.headPos, v, s.cap);
  }

  lemma PopRefines<T>(s: Ring<T>, st: RingSteps.Step<T>)
    requires Inv(s) && Enabled(s, st) && !IsProducerStep(st)
    ensures WeakStep(s.cap - 1, Abs(s), Effect(s, st), Abs(Next(s, st)))
    ensures Fresh(s, st) ==> BoundedFifo.Step(s.cap - 1, Abs(s), Effect(s, st), Abs(Next(s, st)))
    ensures Fresh(s, st) && st.PopLoadTail? ==> (Effect(s, st).SeeEmpty? <==> Abs(s) == [])
  {
    if st.PopLoadTail? {
      LoadLimitRefines(s, st.v);
    } else if st.StoreHead? {
      assert Abs(s) == [s.cons.x] + s.accepted[s.headPos + 1..];
    } else {
      assert Abs(Next(s, st)) == Abs(s);
    }
  }

  /** Each step is one queue operation, or none. With fresh loads the negative answers are exact: a push
      gives up precisely when the queue is full and a pop precisely when it is empty. */
  lemma StepRefines<T>(s: Ring<T>, st: RingSteps.Step<T>)
    requires Inv(s) && Enabled(s, st)
    ensures WeakStep(s.cap - 1, Abs(s), Effect(s, st), Abs(Next(s, st)))
    ensures Fresh(s, st) ==> BoundedFifo.Step(s.cap - 1, Abs(s), Effect(s, st), Abs(Next(s, st)))
    ensures Fresh(s, st) && st.LoadHead? ==> (Effect(s, st).Refuse? <==> |Abs(s)| == s.cap - 1)
    ensures Fresh(s, st) && st.PopLoadTail? ==> (Effect(s, st).SeeEmpty? <==> Abs(s) == [])
  {
    if IsProducerStep(st) {
      PushRefines(s, st);
    } else {
      PopRefines(s, st);
    }
  }

  /** The queue operations of a run, in order. */
  ghost function Effects<T>(states: seq<Ring<T>>, steps: seq<RingSteps.Step<T>>): (es: seq<Event<T>>)
    requires Run(states, steps)
    ensures |es| == |steps|
    ensures forall i :: 0 <= i < |es| ==> es[i] == Effect(states[i], steps[i])
  {
    if steps == [] then []
    else
      var n := |steps| - 1;
      Effects(states[..n + 1], steps[..n]) + [Effect(states[n], steps[n])]
  }

  ghost predicate AllFresh<T>(states: seq<Ring<T>>, steps: seq<RingSteps.Step<T>>)
    requires |states| == |steps| + 1
  {
    forall i :: 0 <= i < |steps| ==> Fresh(states[i], steps[i])
  }

  /** A sequentially consistent run of any length is a run of the bounded queue. */
  lemma RunIsFifo<T>(states: seq<Ring<T>>, steps: seq<RingSteps.Step<T>>)
    requires Run(states, steps) && AllFresh(states, steps)
    ensures forall i :: 0 <= i <= |steps| ==> Inv(states[i])
    ensures forall i :: 0 <= i < |steps| ==>
              BoundedFifo.Step(states[i].cap - 1, Abs(states[i]), Effects(states, steps)[i], Abs(states[i + 1]))
  {
    forall i | 0 <= i <= |steps| ensures Inv(states[i]) {
      RunSafe(states, steps, i);
    }
    forall i | 0 <= i < |steps|
      ensures BoundedFifo.Step(states[i].cap - 1, Abs(states[i]), Effects(states, steps)[i], Abs(states[i + 1]))
    {
      StepRefines(states[i], steps[i]);
    }
  }

  /** The operations so far account for the accepted items and the queue. */
  ghost predicate Balanced<T>(es: seq<Event<T>>, s: Ring<T>) {
    Accepts(es) == s.accepted == Takes(es) + Abs(s)
  }

  lemma NextBalanced<T>(es: seq<Event<T>>, s: Ring<T>, st: RingSteps.Step<T>)
    requires Inv(s) && Enabled(s, st) && Balanced(es, s)
    ensures Inv(Next(s, st)) && Balanced(es + [Effect(s, st)], Next(s, st))
  {
    NextInv(s, st);
    AcceptedStep(s, st);
    StepRefines(s, st);
    var e := Effect(s, st);
    assert (es + [e])[..|es|] == es;
    StepBalances(s.cap - 1, s.accepted, Takes(es), Abs(s), e, Abs(Next(s, st)));
  }

  /** Over any run, stale loads included, the items accepted are the items handed out, in the same order,
      followed by the items still queued. */
  lemma {:induction false} RunConserves<T>(states: seq<Ring<T>>, steps: seq<RingSteps.Step<T>>)
    requires Run(states, steps)
    ensures Inv(states[|steps|])
    ensures Accepts(Effects(states, steps)) == states[|steps|].accepted
    ensures Accepts(Effects(states, steps)) == Takes(Effects(states, steps)) + Abs(states[|steps|])
  {
    var n := |steps| - 1;
    if n < 0 {
      InitInv(states[0]);
    } else {
      var front, back := states[..n + 1], steps[..n];
      RunConserves(front, back);
      NextBalanced(Effects(front, back), states[n], steps[n]);
    }
  }

  lemma AcceptedStep<T>(s: Ring<T>, st: RingSteps.Step<T>)
    requires Sized(s) && Enabled(s, st)
    ensures Next(s, st).accepted == s.accepted + Accepted(Effect(s, st))
  {
    assert s.accepted + [] == s.accepted;
  }

  // --- each producer's order ---

  /** The accepted items that producer `p` pushed, in acceptance order. */
  function Of<T>(items: seq<T>, owners: seq<nat>, p: nat): seq<T>
    requires |items| == |owners|
  {
    if items == [] then []
    else
      var n := |items| - 1;
      Of(items[..n], owners[..n], p) + (if owners[n] == p then [items[n]] else [])
  }

  /** The items of the calls that returned true, in call order. */
  function Succeeded<T>(calls: seq<(T, bool)>): seq<T> {
    if calls == [] then []
    else
      var n := |calls| - 1;
      Succeeded(calls[..n]) + (if calls[n].1 then [calls[n].0] else [])
  }

  /** Published by `p`, which has yet to give the lock back. */
  function Returning<T>(pc: Producer<T>): seq<T> {
    if pc.AtUnlock? && pc.ok then [pc.x] else []
  }

  ghost predicate OrderOk<T>(s: Ring<T>) {
    && Sized(s) && |s.owners| == |s.accepted|
    && forall p :: 0 <= p < |s.prods| ==> OrderKept(s, p)
  }

  ghost predicate OrderKept<T>(s: Ring<T>, p: nat)
    requires Sized(s) && |s.owners| == |s.accepted| && p < |s.prods|
  {
    Of(s.accepted, s.owners, p) == Succeeded(s.results[p]) + Returning(s.prods[p])
  }

  lemma NextOrder<T>(s: Ring<T>, st: RingSteps.Step<T>)
    requires OrderOk(s) && Enabled(s, st)
    ensures OrderOk(Next(s, st))
  {
    var s' := Next(s, st);
    forall p | 0 <= p < |s.prods| ensures OrderKept(s', p) {
      assert OrderKept(s, p);
      if st.StoreTail? {
        assert s'.accepted[..|s.accepted|] == s.accepted && s'.owners[..|s.accepted|] == s.owners;
      } else if st.Unlock? && st.p == p {
        assert s'.results[p][..|s.results[p]|] == s.results[p];
      }
    }
  }

  /** In every state of every run each producer's accepted items are the items of its successful calls, in
      the order it made them. */
  lemma {:induction false} ProducerOrder<T>(states: seq<Ring<T>>, steps: seq<RingSteps.Step<T>>, n: nat)
    requires Run(states, steps) && n <= |steps|
    ensures OrderOk(states[n])
  {
    if n > 0 {
      ProducerOrder(states, steps, n - 1);
      NextOrder(states[n - 1], steps[n - 1]);
    }
  }

  // --- no item is lost ---

  /** 1 when the producer still holds `y`: it called push with it and has neither published nor counted it. */
  ghost function Holds<T>(pc: Producer<T>, y: T): nat {
    if pc.Idle? || pc.AtUnlock? || pc.Returned? || pc.x != y then 0 else 1
  }

  ghost function HoldTerms<T>(prods: seq<Producer<T>>, y: T): (t: seq<nat>)
    ensures |t| == |prods| && forall p :: 0 <= p < |t| ==> t[p] == Holds(prods[p], y)
  {
    seq(|prods|, p requires 0 <= p < |prods| => Holds(prods[p], y))
  }

  /** How many producers hold `y`. */
  ghost function Holders<T>(prods: seq<Producer<T>>, y: T): nat {
    Sum(HoldTerms(prods, y))
  }

  lemma HoldersUpdate<T>(prods: seq<Producer<T>>, p: nat, pc: Producer<T>, y: T)
    requires p < |prods|
    ensures Holders(prods[p := pc], y) + Holds(prods[p], y) == Holders(prods, y) + Holds(pc, y)
  {
    SumUpdate(HoldTerms(prods, y), p, Holds(pc, y));
    assert HoldTerms(prods[p := pc], y) == HoldTerms(prods, y)[p := Holds(pc, y)];
  }

  lemma NoHolders<T>(prods: seq<Producer<T>>, y: T)
    requires forall p :: 0 <= p < |prods| ==> Holds(prods[p], y) == 0
    ensures Holders(prods, y) == 0
  {
    SumToZero(HoldTerms(prods, y), |prods|);
  }

  /** Every push call made with `y` is still in a producer's hands, has been accepted, or was refused. */
  ghost predicate Conserved<T>(s: Ring<T>, y: T) {
    Count(s.calls, y) == Holders(s.prods, y) + Count(s.accepted, y) + Count(s.refused, y)
  }

  lemma CallConserved<T>(s: Ring<T>, p: nat, x: T, y: T)
    requires Sized(s) && Conserved(s, y) && Enabled(s, Call(p, x))
    ensures Conserved(Next(s, Call(p, x)), y)
  {
    HoldersUpdate(s.prods, p, Spinning(x), y);
    CountAppend(s.calls, x, y);
  }

  lemma StoreTailConserved<T>(s: Ring<T>, p: nat, y: T)
    requires Sized(s) && Conserved(s, y) && Enabled(s, StoreTail(p))
    ensures Conserved(Next(s, StoreTail(p)), y)
  {
    HoldersUpdate(s.prods, p, AtUnlock(s.prods[p].x, true), y);
    CountAppend(s.accepted, s.prods[p].x, y);
  }

  lemma CountDropConserved<T>(s: Ring<T>, p: nat, y: T)
    requires Sized(s) && Conserved(s, y) && Enabled(s, CountDrop(p))
    ensures Conserved(Next(s, CountDrop(p)), y)
  {
    HoldersUpdate(s.prods, p, AtUnlock(s.prods[p].x, false), y);
    CountAppend(s.refused, s.prods[p].x, y);
  }

  lemma MoveConserved<T>(s: Ring<T>, st: RingSteps.Step<T>, y: T)
    requires Sized(s) && Conserved(s, y) && Enabled(s, st) && IsProducerStep(st)
    requires !st.Call? && !st.StoreTail? && !st.CountDrop?
    ensures Conserved(Next(s, st), y)
  {
    var pc' := Next(s, st).prods[st.p];
    HoldersUpdate(s.prods, st.p, pc', y);
    assert Next(s, st).prods == s.prods[st.p := pc'];
    assert Holds(pc', y) == Holds(s.prods[st.p], y);
  }

  lemma NextConserved<T>(s: Ring<T>, st: RingSteps.Step<T>, y: T)
    requires Sized(s) && Conserved(s, y) && Enabled(s, st)
    ensures Conserved(Next(s, st), y)
  {
    if IsProducerStep(st) {
      match st
      case Call(p, x) => CallConserved(s, p, x, y);
      case StoreTail(p) => StoreTailConserved(s, p, y);
      case CountDrop(p) => CountDropConserved(s, p, y);
      case _ => MoveConserved(s, st, y);
    } else {
      assert Next(s, st).prods == s.prods;
    }
  }

  /** In every state of every run no pushed item has vanished or been duplicated, and the drop counter is
      the number of refused calls. */
  lemma {:induction false} NoItemLost<T>(states: seq<Ring<T>>, steps: seq<RingSteps.Step<T>>, n: nat, y: T)
    requires Run(states, steps) && n <= |steps|
    ensures Conserved(states[n], y)
    ensures states[n].dropped == |states[n].refused|
  {
    if n == 0 {
      NoHolders(states[0].prods, y);
    } else {
      NoItemLost(states, steps, n - 1, y);
      NextConserved(states[n - 1], steps[n - 1], y);
    }
  }

  // --- every object is destroyed once ---

  /** No push or pop is in progress. */
  ghost predicate Quiescent<T>(s: Ring<T>) {
    && (forall p :: 0 <= p < |s.prods| ==> s.prods[p].Idle? || s.prods[p].Returned?)
    && (s.cons.Rest? || s.cons.Got? || s.cons.SawEmpty?)
  }

  /** The destructor's walk over the slots from `h` up to `t`: the storage it leaves behind and the serials
      it destroys. */
  function Walk<T>(buf: seq<Cell<T>>, h: nat, t: nat): (r: (seq<Cell<T>>, seq<nat>))
    requires h < |buf| && t < |buf|
    ensures |r.0| == |buf|
    decreases Distance(|buf|, h, t)
  {
    if h == t then (buf, [])
    else
      var c := buf[h];
      assert Slot(h + 1, |buf|) == if h + 1 == |buf| then 0 else h + 1;
      var (buf', serials) := Walk(buf[h := Raw], Slot(h + 1, |buf|), t);
      (buf', (if c.Live? then [c.serial] else []) + serials)
  }

  /** Slots from position `i` on hold the objects `i`, `i + 1`, ... up to `born`; the rest of the lap is raw. */
  ghost predicate LiveFrom<T>(buf: seq<Cell<T>>, i: nat, born: nat) {
    && 0 < |buf|
    && forall j :: i <= j < i + |buf| ==>
         var c := buf[Slot(j, |buf|)];
         if j < born then c.Live? && c.serial == j else c == Raw
  }

  lemma DestroyFirst<T>(buf: seq<Cell<T>>, i: nat, born: nat)
    requires LiveFrom(buf, i, born) && i < born < i + |buf|
    ensures LiveFrom(buf[Slot(i, |buf|) := Raw], i + 1, born)
    ensures Slot(i, |buf|) != Slot(born, |buf|)
  {
    var cap := |buf|;
    SlotsDiffer(i, born, cap);
    var buf' := buf[Slot(i, cap) := Raw];
    forall j | i + 1 <= j < i + 1 + cap
      ensures var c := buf'[Slot(j, cap)]; if j < born then c.Live? && c.serial == j else c == Raw
    {
      if j < i + cap {
        SlotsDiffer(j, i, cap);
      } else {
        SameSlotNextLap(i, cap);
      }
    }
  }

  lemma {:induction false} WalkDestroys<T>(buf: seq<Cell<T>>, i: nat, born: nat)
    requires LiveFrom(buf, i, born) && i <= born < i + |buf|
    ensures |Walk(buf, Slot(i, |buf|), Slot(born, |buf|)).1| == born - i
    ensures forall k :: 0 <= k < born - i ==> Walk(buf, Slot(i, |buf|), Slot(born, |buf|)).1[k] == i + k
    ensures LiveFrom(Walk(buf, Slot(i, |buf|), Slot(born, |buf|)).0, born, born)
    decreases born - i
  {
    if i < born {
      var cap := |buf|;
      var h, t := Slot(i, cap), Slot(born, cap);
      DestroyFirst(buf, i, born);
      var buf' := buf[h := Raw];
      WalkDestroys(buf', i + 1, born);
      assert Slot(i + 1, cap) == Slot(h + 1, cap) by { NextIndex(i, cap); }
      assert buf[h].serial == i;
      assert Walk(buf, h, t).1 == [i] + Walk(buf', Slot(i + 1, cap), t).1;
    }
  }

  /** A slot belongs to some position of any lap. */
  lemma {:induction false} PositionOf(k: nat, i: nat, cap: nat) returns (j: nat)
    requires k < cap
    ensures i <= j < i + cap && Slot(j, cap) == k
  {
    if i < cap {
      j := if i <= k then k else k + cap;
    } else {
      j := PositionOf(k, i - cap, cap);
      SameSlotNextLap(j, cap);
      j := j + cap;
    }
  }

  /** Over any run that ends in destruction, each object constructed in the ring is destroyed exactly once,
      in the order of construction, by a pop or by the destructor, and no storage stays live. */
  lemma DestroyedOnce<T>(states: seq<Ring<T>>, steps: seq<RingSteps.Step<T>>)
    requires Run(states, steps) && Quiescent(states[|steps|])
    ensures var s := states[|steps|];
            && s.head < |s.buf| && s.tail < |s.buf|
            && s.died + Walk(s.buf, s.head, s.tail).1 == seq(s.born, k => k)
            && forall j :: 0 <= j < |s.buf| ==> Walk(s.buf, s.head, s.tail).0[j] == Raw
  {
    RunSafe(states, steps, |steps|);
    var s := states[|steps|];
    QuiescentDestroys(s);
  }

  lemma QuiescentDestroys<T>(s: Ring<T>)
    requires Inv(s) && Quiescent(s)
    ensures && s.head < |s.buf| && s.tail < |s.buf|
            && s.died + Walk(s.buf, s.head, s.tail).1 == seq(s.born, k => k)
            && forall j :: 0 <= j < |s.buf| ==> Walk(s.buf, s.head, s.tail).0[j] == Raw
  {
    var i := s.headPos;
    assert s.born == |s.accepted| && |s.died| == i;
    forall j | i <= j < i + s.cap
      ensures var c := s.buf[Slot(j, s.cap)]; if j < s.born then c.Live? && c.serial == j else c == Raw
    {
      assert CellOk(s, j);
    }
    WalkDestroys(s.buf, i, s.born);
    assert s.head == Slot(i, s.cap) && s.tail == Slot(s.born, s.cap);
    var (buf', serials) := Walk(s.buf, s.head, s.tail);
    assert s.died + serials == seq(s.born, k => k);
    forall k | 0 <= k < |s.buf| ensures buf'[k] == Raw {
      var j := PositionOf(k, s.born, s.cap);
      assert buf'[Slot(j, s.cap)] == Raw;
    }
  }
}
