/** Safety of the ring under stale index loads: no producer constructs over an unconsumed object and the
    consumer never reads or destroys raw storage, for every capacity and any number of producers. */
module RingSafety {
  import opened RingSteps
  import opened Mask

  /** Between the test_and_set that takes the lock and the clear that gives it back. */
  predicate HoldsLock<T>(pc: Producer<T>) {
    pc.AtLoadTail? || pc.AtLoadHead? || pc.AtConstruct? || pc.AtStoreTail? || pc.AtCountDrop? || pc.AtUnlock?
  }

  /** The shared indices are the masked positions, and at most `cap - 1` items are queued. */
  ghost predicate Positions<T>(s: Ring<T>) {
    && Sized(s)
    && !s.fault
    && |s.owners| == |s.accepted| && s.dropped == |s.refused|
    && s.headPos <= |s.accepted| < s.headPos + s.cap
    && s.head == Slot(s.headPos, s.cap)
    && s.tail == Slot(|s.accepted|, s.cap)
  }

  /** The positions `v` sees leave room for the queue the ring may hold: an old `head` still proves that
      the tail has not lapped it, because whoever holds the lock has seen every tail. */
  ghost predicate Covers<T>(s: Ring<T>, v: View) {
    v.tail == |s.accepted| < v.head + s.cap
  }

  /** No view runs ahead of what was published; the lock hands a covering view to its next holder. */
  ghost predicate Views<T>(s: Ring<T>)
    requires Positions(s)
  {
    && (forall p :: 0 <= p < |s.seen| ==> s.seen[p].head <= s.headPos && s.seen[p].tail <= |s.accepted|)
    && s.lockSeen.head <= s.headPos && s.lockSeen.tail <= |s.accepted|
    && s.consSeen.head == s.headPos <= s.consSeen.tail <= |s.accepted|
    && (!s.locked ==> Covers(s, s.lockSeen))
    && (forall p :: 0 <= p < |s.prods| && HoldsLock(s.prods[p]) ==> Covers(s, s.seen[p]))
  }

  /** The spin lock admits one producer at a time. */
  ghost predicate Exclusive<T>(s: Ring<T>) {
    && (forall p :: 0 <= p < |s.prods| && HoldsLock(s.prods[p]) ==> s.locked)
    && (forall p, q :: 0 <= p < |s.prods| && 0 <= q < |s.prods| && HoldsLock(s.prods[p]) && HoldsLock(s.prods[q]) ==> p == q)
  }

  /** The objects alive in the ring are the ones constructed and not yet destroyed, each in its slot. */
  ghost predicate Cells<T>(s: Ring<T>)
    requires Positions(s)
  {
    && |s.died| <= s.born <= |s.died| + s.cap
    && (forall i :: 0 <= i < |s.died| ==> s.died[i] == i)
    && (forall i :: |s.died| <= i < |s.died| + s.cap ==> CellOk(s, i))
  }

  ghost predicate CellOk<T>(s: Ring<T>, i: nat)
    requires Positions(s)
  {
    var c := s.buf[Slot(i, s.cap)];
    if i >= s.born then c == Raw
    else c.Live? && c.serial == i && (i < |s.accepted| ==> c.val == s.accepted[i])
  }

  ghost predicate ProducerOk<T>(s: Ring<T>, p: nat)
    requires Positions(s) && p < |s.prods|
  {
    var pos := |s.accepted|;
    match s.prods[p]
    case AtLoadHead(x, t) => t == Slot(pos, s.cap) && s.born == pos
    case AtConstruct(x, t) => t == Slot(pos, s.cap) && s.born == pos && pos + 1 < s.seen[p].head + s.cap
    case AtStoreTail(x, t) => t == Slot(pos, s.cap) && s.born == pos + 1 && pos + 1 < s.seen[p].head + s.cap
                              && s.buf[Slot(pos, s.cap)] == Live(pos, x)
    case pc => HoldsLock(pc) ==> s.born == pos
  }

  ghost predicate ProducersOk<T>(s: Ring<T>)
    requires Positions(s)
  {
    && (forall p :: 0 <= p < |s.prods| ==> ProducerOk(s, p))
    && (s.born == |s.accepted|
        || (s.born == |s.accepted| + 1 && exists p :: 0 <= p < |s.prods| && s.prods[p].AtStoreTail?))
  }

  ghost predicate ConsumerOk<T>(s: Ring<T>)
    requires Positions(s)
  {
    && |s.died| == s.headPos + (if s.cons.AtStoreHead? then 1 else 0)
    && match s.cons {
         case AtLoadLimit(h) => h == Slot(s.headPos, s.cap)
         case AtMoveOut(h) => h == Slot(s.headPos, s.cap) && s.headPos < s.consSeen.tail <= |s.accepted|
         case AtDestroy(h, x) => h == Slot(s.headPos, s.cap) && s.headPos < s.consSeen.tail <= |s.accepted| && x == s.accepted[s.headPos]
         case AtStoreHead(h, x) => h == Slot(s.headPos, s.cap) && s.headPos < s.consSeen.tail <= |s.accepted| && x == s.accepted[s.headPos]
         case Got(x) => 0 < s.headPos && x == s.accepted[s.headPos - 1]
         case _ => true
       }
  }

  /** What every step keeps, however old the positions its loads return. */
  ghost predicate Inv<T>(s: Ring<T>) {
    && Positions(s)
    && Views(s)
    && Exclusive(s)
    && Cells(s)
    && ProducersOk(s)
    && ConsumerOk(s)
  }

  lemma InitInv<T>(s: Ring<T>)
    requires Init(s)
    ensures Inv(s)
  {
    assert s.head == Slot(0, s.cap);
  }

  /** Two positions of one lap have different slots. */
  lemma SlotsDiffer(i: nat, j: nat, cap: nat)
    requires cap > 0
    requires i - cap < j < i + cap && i != j
    ensures Slot(i, cap) != Slot(j, cap)
  {
    if i < j {
      SameSlot(i, j, cap);
    } else {
      SameSlot(j, i, cap);
    }
  }

  /** Nothing but one producer's counter and view moved: what holds of cells and other producers stays. */
  lemma CellsKept<T>(s: Ring<T>, s': Ring<T>)
    requires Positions(s) && Cells(s) && Positions(s')
    requires s'.cap == s.cap && s'.buf == s.buf && s'.accepted == s.accepted && s'.born == s.born && s'.died == s.died
    ensures Cells(s')
  {
    forall i | |s.died| <= i < |s.died| + s.cap ensures CellOk(s', i) {
      assert CellOk(s, i);
    }
  }

  lemma CallInv<T>(s: Ring<T>, p: nat, x: T)
    requires Inv(s) && Enabled(s, Call(p, x))
    ensures Inv(Next(s, Call(p, x)))
  {
    var s' := Next(s, Call(p, x));
    CellsKept(s, s');
    forall q | 0 <= q < |s.prods| ensures ProducerOk(s', q) {
      assert ProducerOk(s, q);
    }
  }

  lemma LockInv<T>(s: Ring<T>, p: nat)
    requires Inv(s) && Enabled(s, Lock(p))
    ensures Inv(Next(s, Lock(p)))
  {
    var s' := Next(s, Lock(p));
    CellsKept(s, s');
    forall q | 0 <= q < |s.prods| ensures ProducerOk(s', q) {
      assert ProducerOk(s, q);
    }
  }

  lemma LoadTailInv<T>(s: Ring<T>, p: nat, v: nat)
    requires Inv(s) && Enabled(s, LoadTail(p, v))
    ensures Inv(Next(s, LoadTail(p, v)))
  {
    var s' := Next(s, LoadTail(p, v));
    CellsKept(s, s');
    forall q | 0 <= q < |s.prods| ensures ProducerOk(s', q) {
      assert ProducerOk(s, q);
    }
  }

  lemma LoadHeadInv<T>(s: Ring<T>, p: nat, v: nat)
    requires Inv(s) && Enabled(s, LoadHead(p, v))
    ensures Inv(Next(s, LoadHead(p, v)))
    ensures Next(s, LoadHead(p, v)).prods[p].AtCountDrop? <==> |s.accepted| - v == s.cap - 1
  {
    var st := LoadHead(p, v);
    var s' := Next(s, st);
    var pos := |s.accepted|;
    assert ProducerOk(s, p) && Covers(s, s.seen[p]);
    FullSlot(pos, v, s.cap);
    assert Positions(s');
    assert Views(s');
    assert Exclusive(s');
    CellsKept(s, s');
    assert forall q :: 0 <= q < |s.prods| && q != p ==> ProducerOk(s, q) ==> ProducerOk(s', q);
  }

  lemma ConstructInv<T>(s: Ring<T>, p: nat)
    requires Inv(s) && Enabled(s, Construct(p))
    ensures Inv(Next(s, Construct(p)))
  {
    var s' := Next(s, Construct(p));
    var pos := |s.accepted|;
    assert ProducerOk(s, p) && Covers(s, s.seen[p]);
    assert CellOk(s, pos);
    assert Positions(s');
    assert Cells(s') by {
      forall i | |s.died| <= i < |s.died| + s.cap ensures CellOk(s', i) {
        assert CellOk(s, i);
        if i != pos {
          SlotsDiffer(i, pos, s.cap);
        }
      }
    }
    forall q | 0 <= q < |s.prods| ensures ProducerOk(s', q) {
      assert ProducerOk(s, q);
    }
  }

  lemma StoreTailInv<T>(s: Ring<T>, p: nat)
    requires Inv(s) && Enabled(s, StoreTail(p))
    ensures Inv(Next(s, StoreTail(p)))
  {
    var s' := Next(s, StoreTail(p));
    var pos := |s.accepted|;
    assert ProducerOk(s, p) && Covers(s, s.seen[p]);
    NextIndex(pos, s.cap);
    assert Positions(s');
    assert Cells(s') by {
      forall i | |s.died| <= i < |s.died| + s.cap ensures CellOk(s', i) {
        assert CellOk(s, i);
      }
    }
    forall q | 0 <= q < |s.prods| ensures ProducerOk(s', q) {
      assert ProducerOk(s, q);
    }
  }

  lemma CountUnlockInv<T>(s: Ring<T>, st: Step<T>)
    requires Inv(s) && Enabled(s, st)
    requires st.CountDrop? || st.Unlock?
    ensures Inv(Next(s, st))
  {
    var s' := Next(s, st);
    assert ProducerOk(s, st.p) && Covers(s, s.seen[st.p]);
    assert Positions(s');
    CellsKept(s, s');
    assert forall q :: 0 <= q < |s.prods| ==> ProducerOk(s, q) ==> ProducerOk(s', q);
  }

  lemma PopLoadInv<T>(s: Ring<T>, st: Step<T>)
    requires Inv(s) && Enabled(s, st)
    requires st.PopLoadHead? || st.PopLoadTail?
    ensures Inv(Next(s, st))
    ensures st.PopLoadTail? ==> (Next(s, st).cons.SawEmpty? <==> st.v == s.headPos)
  {
    var s' := Next(s, st);
    if st.PopLoadTail? {
      SameSlot(s.headPos, st.v, s.cap);
    }
    assert Positions(s');
    CellsKept(s, s');
    assert forall q :: 0 <= q < |s.prods| ==> ProducerOk(s, q) ==> ProducerOk(s', q);
  }

  lemma MoveOutInv<T>(s: Ring<T>)
    requires Inv(s) && Enabled(s, MoveOut)
    ensures Inv(Next(s, MoveOut))
  {
    var s' := Next(s, MoveOut);
    assert CellOk(s, s.headPos);
    assert Positions(s');
    CellsKept(s, s');
    assert forall q :: 0 <= q < |s.prods| ==> ProducerOk(s, q) ==> ProducerOk(s', q);
  }

  lemma DestroyInv<T>(s: Ring<T>)
    requires Inv(s) && Enabled(s, Destroy)
    ensures Inv(Next(s, Destroy))
  {
    var s' := Next(s, Destroy);
    var pos := s.headPos;
    assert CellOk(s, pos);
    assert Positions(s');
    assert Cells(s') by {
      forall i | |s'.died| <= i < |s'.died| + s.cap ensures CellOk(s', i) {
        if i < pos + s.cap {
          assert CellOk(s, i);
          SlotsDiffer(i, pos, s.cap);
        } else {
          SameSlotNextLap(pos, s.cap);
        }
      }
    }
    forall q | 0 <= q < |s.prods| ensures ProducerOk(s', q) {
      assert ProducerOk(s, q);
      if s.prods[q].AtStoreTail? {
        SlotsDiffer(|s.accepted|, pos, s.cap);
      }
    }
  }

  lemma StoreHeadInv<T>(s: Ring<T>)
    requires Inv(s) && Enabled(s, StoreHead)
    ensures Inv(Next(s, StoreHead))
  {
    var s' := Next(s, StoreHead);
    assert s'.head == Slot(s'.headPos, s.cap) by { NextIndex(s.headPos, s.cap); }
    assert Positions(s');
    assert Views(s');
    assert Cells(s') by {
      forall i | |s.died| <= i < |s.died| + s.cap ensures CellOk(s', i) {
        assert CellOk(s, i);
      }
    }
    forall q | 0 <= q < |s.prods| ensures ProducerOk(s', q) {
      assert ProducerOk(s, q);
    }
  }

  /** Every step keeps the invariant, whatever old positions its loads return. */
  lemma NextInv<T>(s: Ring<T>, st: Step<T>)
    requires Inv(s) && Enabled(s, st)
    ensures Inv(Next(s, st))
  {
    match st
    case LoadHead(p, v) => LoadHeadInv(s, p, v);
    case Construct(p) => ConstructInv(s, p);
    case StoreTail(p) => StoreTailInv(s, p);
    case CountDrop(_) => CountUnlockInv(s, st);
    case Unlock(_) => CountUnlockInv(s, st);
    case PopLoadHead(_) => PopLoadInv(s, st);
    case PopLoadTail(_) => PopLoadInv(s, st);
    case MoveOut => MoveOutInv(s);
    case Destroy => DestroyInv(s);
    case StoreHead => StoreHeadInv(s);
    case Call(p, x) => CallInv(s, p, x);
    case Lock(p) => LockInv(s, p);
    case LoadTail(p, v) => LoadTailInv(s, p, v);
  }

  /** No run, with any number of producers and however stale its loads, ever touches storage wrongly, and
      the ring never holds more than `cap - 1` items. */
  lemma {:induction false} RunSafe<T>(states: seq<Ring<T>>, steps: seq<Step<T>>, n: nat)
    requires Run(states, steps) && n <= |steps|
    ensures Inv(states[n]) && !states[n].fault && |Abs(states[n])| <= states[n].cap - 1
  {
    if n == 0 {
      InitInv(states[0]);
    } else {
      RunSafe(states, steps, n - 1);
      NextInv(states[n - 1], steps[n - 1]);
    }
  }

  /** Why the lock must hand on what its holder saw: in a full ring, a push that tests a `head` older by
      less than a lap passes the test, and would publish a tail equal to the head. Only a view that covers
      the queue is refused. */
  lemma OldHeadPassesTest(cap: nat, headPos: nat, v: nat)
    requires cap > 0
    requires v <= headPos < v + cap
    ensures var pos := headPos + cap - 1;
            && ((Slot(Slot(pos, cap) + 1, cap) == Slot(v, cap)) <==> v == headPos)
            && (pos < v + cap <==> v == headPos)
  {
    var pos := headPos + cap - 1;
    NextIndex(pos, cap);
    SameSlotNextLap(headPos, cap);
    SameSlot(v, headPos, cap);
  }
}
