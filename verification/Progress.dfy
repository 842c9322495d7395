/** Nobody is stuck: a thread that cannot take its next step waits for a lock, and the thread that holds the lock can. */
module Progress {
  import opened Kernel
  import KernelInv
  import R = RingSteps
  import RingSafety
  import S = SlotSteps

  // --- the ring ---

  ghost predicate RingHeld<T>(s: R.Ring<T>) {
    s.locked ==> exists p :: 0 <= p < |s.prods| && RingSafety.HoldsLock(s.prods[p])
  }

  lemma NextRingHeld<T>(s: R.Ring<T>, rs: R.Step<T>)
    requires R.Sized(s) && R.Enabled(s, rs) && RingHeld(s)
    requires RingSafety.Exclusive(s) && !s.fault && !R.Next(s, rs).fault
    ensures RingHeld(R.Next(s, rs))
  {
    var s' := R.Next(s, rs);
    if s'.locked {
      if rs.Lock? {
        assert RingSafety.HoldsLock(s'.prods[rs.p]);
      } else {
        var p :| 0 <= p < |s.prods| && RingSafety.HoldsLock(s.prods[p]);
        assert RingSafety.HoldsLock(s'.prods[p]);
      }
    }
  }

  /** In every run, with stale loads, the push lock is held only by a producer that is between taking and clearing it. */
  lemma {:induction false} LockHeld<T>(states: seq<R.Ring<T>>, steps: seq<R.Step<T>>, n: nat)
    requires R.Run(states, steps) && n <= |steps|
    ensures RingHeld(states[n])
  {
    if n > 0 {
      LockHeld(states, steps, n - 1);
      RingSafety.RunSafe(states, steps, n - 1);
      RingSafety.RunSafe(states, steps, n);
      NextRingHeld(states[n - 1], steps[n - 1]);
    }
  }

  /** A producer inside push has a next step, with fresh loads, unless it spins on a lock that is held; and so does the
      consumer, always. */
  lemma PushCanStep<T>(s: R.Ring<T>, p: nat)
    requires RingSafety.Inv(s) && p < |s.prods| && !s.prods[p].Idle? && !s.prods[p].Returned?
    requires !(s.prods[p].Spinning? && s.locked)
    ensures exists rs :: R.IsProducerStep(rs) && rs.p == p && !rs.Call? && R.Enabled(s, rs) && R.Fresh(s, rs)
  {
    var rs := match s.prods[p]
              case Spinning(_) => R.Lock(p)
              case AtLoadTail(_) => R.LoadTail(p, |s.accepted|)
              case AtLoadHead(_, _) => R.LoadHead(p, s.headPos)
              case AtConstruct(_, _) => R.Construct(p)
              case AtStoreTail(_, _) => R.StoreTail(p)
              case AtCountDrop(_) => R.CountDrop(p)
              case _ => R.Unlock(p);
    assert R.Enabled(s, rs) && R.Fresh(s, rs);
  }

  lemma PopCanStep<T>(s: R.Ring<T>)
    requires RingSafety.Inv(s)
    ensures exists rs :: !R.IsProducerStep(rs) && R.Enabled(s, rs) && R.Fresh(s, rs)
                         && (rs.PopLoadHead? <==> !InPop(s.cons))
  {
    var rs := match s.cons
              case AtLoadLimit(_) => R.PopLoadTail(|s.accepted|)
              case AtMoveOut(_) => R.MoveOut
              case AtDestroy(_, _) => R.Destroy
              case AtStoreHead(_, _) => R.StoreHead
              case _ => R.PopLoadHead(s.headPos);
    assert R.Enabled(s, rs) && R.Fresh(s, rs);
  }

  predicate InPop<T>(cons: R.Consumer<T>) {
    cons.AtLoadLimit? || cons.AtMoveOut? || cons.AtDestroy? || cons.AtStoreHead?
  }

  // --- the slot ---

  ghost predicate SlotHeld<T>(s: S.Slot<T>) {
    s.locked ==> S.TakerLocked(s.taker) || exists p :: 0 <= p < |s.putters| && S.PutterLocked(s.putters[p])
  }

  lemma NextSlotHeld<T>(s: S.Slot<T>, ss: S.Step<T>)
    requires S.Enabled(s, ss) && S.Exclusive(s) && SlotHeld(s)
    ensures SlotHeld(S.Next(s, ss))
  {
    var s' := S.Next(s, ss);
    if s'.locked && !S.TakerLocked(s'.taker) {
      if ss.Lock? {
        assert S.PutterLocked(s'.putters[ss.p]);
      } else if !S.TakerLocked(s.taker) {
        var p :| 0 <= p < |s.putters| && S.PutterLocked(s.putters[p]);
        assert S.PutterLocked(s'.putters[p]);
      }
    }
  }

  /** In every run the slot's lock is held only by a putter or taker that is between taking and clearing it. */
  lemma {:induction false} SlotLockHeld<T>(states: seq<S.Slot<T>>, steps: seq<S.Step<T>>, n: nat)
    requires S.Run(states, steps) && n <= |steps|
    ensures SlotHeld(states[n])
  {
    if n > 0 {
      SlotLockHeld(states, steps, n - 1);
      S.EveryPutAccounted(states, steps, n - 1);
      NextSlotHeld(states[n - 1], steps[n - 1]);
    }
  }

  /** A putter or taker inside the slot has a next step unless it spins on a lock that is held. */
  lemma SlotCanStep<T>(s: S.Slot<T>)
    ensures forall p :: 0 <= p < |s.putters| && !s.putters[p].Idle? && !s.putters[p].Done? && !(s.putters[p].Spinning? && s.locked) ==>
              exists ss :: S.IsPut(ss) && ss.p == p && !ss.Call? && S.Enabled(s, ss)
    ensures !s.taker.Rest? && !s.taker.Took? && !(s.taker.SpinTake? && s.locked) ==>
              exists ss :: !S.IsPut(ss) && !ss.CallTake? && !ss.Skip? && S.Enabled(s, ss)
  {
    forall p | 0 <= p < |s.putters| && !s.putters[p].Idle? && !s.putters[p].Done? && !(s.putters[p].Spinning? && s.locked)
      ensures exists ss :: S.IsPut(ss) && ss.p == p && !ss.Call? && S.Enabled(s, ss)
    {
      var ss := match s.putters[p]
                case Spinning(_) => S.Lock(p)
                case AtTest(_) => S.Test(p)
                case AtCount(_) => S.CountDrop(p)
                case AtAssign(_) => S.Assign(p)
                case AtUnlock(_) => S.Unlock(p)
                case _ => S.CallTake;
      assert S.Enabled(s, ss);
    }
    if !s.taker.Rest? && !s.taker.Took? && !(s.taker.SpinTake? && s.locked) {
      var ss := match s.taker
                case SpinTake => S.LockTake
                case AtTake => S.Take
                case _ => S.Release;
      assert S.Enabled(s, ss);
    }
  }

  // --- the reactor ---

  /** In every run the reactor has a next step until it exits, unless it waits for the lock of the slot it takes from. */
  lemma ReactorCanStep(states: seq<State>, steps: seq<Step>, n: nat)
    requires Run(states, steps) && n <= |steps| && !states[n].re.Exit?
    ensures Sized(states[n])
    ensures || (exists d :: DispatchEnabled(states[n], d))
            || (exists l :: LoopEnabled(states[n], l))
            || (states[n].re.Taking? && states[n].re.i < |states[n].slots| && states[n].slots[states[n].re.i].locked)
  {
    KernelInv.RunInv(states, steps, n);
    var s := states[n];
    if s.re.Pop? || s.re.Popping? {
      PopCanStep(s.ring);
      var rs :| !R.IsProducerStep(rs) && R.Enabled(s.ring, rs) && R.Fresh(s.ring, rs)
                && (rs.PopLoadHead? <==> !InPop(s.ring.cons));
      assert DispatchEnabled(s, RingPop(rs));
    } else if s.re.Taking? {
      SlotCanStep(s.slots[s.re.i]);
      if !s.slots[s.re.i].locked || !s.slots[s.re.i].taker.SpinTake? {
        var ss :| !S.IsPut(ss) && !ss.CallTake? && !ss.Skip? && S.Enabled(s.slots[s.re.i], ss);
        assert DispatchEnabled(s, SlotTake(ss));
      }
    } else {
      OtherCanStep(s);
    }
  }

  lemma OtherCanStep(s: State)
    requires Sized(s) && KernelInv.Links(s) && !s.re.Exit? && !s.re.Pop? && !s.re.Popping? && !s.re.Taking?
    requires forall i :: 0 <= i < |s.slots| ==> S.Inv(s.slots[i])
    ensures (exists d :: DispatchEnabled(s, d)) || (exists l :: LoopEnabled(s, l))
  {
    match s.re
    case RingHand(_) => assert DispatchEnabled(s, DispatchRing);
    case SlotHand(_, _) => assert DispatchEnabled(s, DispatchSlot);
    case Drain(i) =>
      if i == |s.slots| {
        assert DispatchEnabled(s, EndDrain);
      } else {
        assert DispatchEnabled(s, BeginTake);
      }
    case Scan(i, _, _) => assert LoopEnabled(s, if i == |s.slots| then ScanEnd else ScanLoad);
    case Loop => assert LoopEnabled(s, TestRunning);
    case Syncing => assert LoopEnabled(s, SyncDrops);
    case Wait => assert LoopEnabled(s, Timeout);
    case Read => assert LoopEnabled(s, ReadEventfd);
    case Seen => assert LoopEnabled(s, CqeSeen);
    case ArmGet(_) => assert LoopEnabled(s, GetSqe);
    case ArmSubmit(_) => assert LoopEnabled(s, Submit);
    case _ =>
  }
}
