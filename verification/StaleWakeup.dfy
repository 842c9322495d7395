/** The wakeup of CRITICAL frames when the loads of the ring's indices may be stale. The ring is the step machine with every
    stale load it allows. The eventfd is an object of the operating system: a write hands over what the writer has seen,
    and a read takes over what the consumed writes handed over. */
module StaleWakeup {
  import opened Collections
  import opened Mask
  import Kernel
  import R = RingSteps
  import RingSafety

  /** A frame in the ring. */
  datatype Item<T> = Item(critical: bool, payload: T)

  /** The reactor: in its pop loop; between the empty observation and the end of its wait; about to read the eventfd. */
  datatype Loop = Draining | Quiet | Reading

  datatype State<T> = State(
    ring: R.Ring<Item<T>>, efd: nat, loop: Loop,
    efdSeen: R.View,                // what the writers of the eventfd had seen
    due: seq<Option<nat>>)          // per producer: acceptance position of a CRITICAL frame it has still to write for

  datatype Step<T> =
    | Ring(rs: R.Step<Item<T>>)
    | Write(p: nat)
    | OtherWrite                    // stop()
    | Complete                      // the wait returns: its poll, always armed or completed, finds the eventfd readable
    | Timeout
    | Read

  ghost predicate Init<T>(s: State<T>) {
    && R.Init(s.ring) && s.efd == 0 && s.efdSeen == R.View(0, 0) && s.loop.Draining?
    && |s.due| == |s.ring.prods| && forall p :: 0 <= p < |s.due| ==> s.due[p] == None
  }

  ghost predicate Sized<T>(s: State<T>) {
    R.Sized(s.ring) && |s.due| == |s.ring.prods|
  }

  ghost predicate Enabled<T>(s: State<T>, st: Step<T>)
    requires Sized(s)
  {
    match st
    case Ring(rs) =>
      && R.Enabled(s.ring, rs)
      && (rs.Call? ==> s.due[rs.p] == None)
      && (!R.IsProducerStep(rs) ==> s.loop.Draining?)
    case Write(p) => p < |s.due| && s.due[p].Some? && s.ring.prods[p].Returned?
    case OtherWrite => true
    case Complete => s.loop.Quiet? && s.efd > 0
    case Timeout => s.loop.Quiet?
    case Read => s.loop.Reading?
  }

  function Next<T>(s: State<T>, st: Step<T>): State<T>
    requires Sized(s) && Enabled(s, st)
  {
    match st
    case Ring(rs) =>
      var ring' := R.Next(s.ring, rs);
      s.(ring := ring',
         due := if rs.StoreTail? && s.ring.prods[rs.p].x.critical then s.due[rs.p := Some(|s.ring.accepted|)] else s.due,
         loop := if rs.PopLoadTail? && ring'.cons.SawEmpty? then Quiet else s.loop)
    case Write(p) =>
      var s' := s.(due := s.due[p := None]);
      if s.efd < Kernel.EFD_MAX then s'.(efd := s.efd + 1, efdSeen := R.Join(s.efdSeen, s.ring.seen[p])) else s'
    case OtherWrite => s.(efd := Kernel.WriteFd(s.efd))
    case Complete => s.(loop := Reading)
    case Timeout => s.(loop := Draining)
    case Read => s.(efd := 0, loop := Draining, ring := s.ring.(consSeen := R.Join(s.ring.consSeen, s.efdSeen)))
  }

  /** A run in which no write of a callback fails because the eventfd is at its maximum of 2^64 - 2. */
  ghost predicate Run<T>(states: seq<State<T>>, steps: seq<Step<T>>) {
    && |states| == |steps| + 1
    && Init(states[0])
    && forall i {:trigger steps[i]} :: 0 <= i < |steps| ==>
         && Sized(states[i])
         && Enabled(states[i], steps[i])
         && (steps[i].Write? ==> states[i].efd < Kernel.EFD_MAX)
         && states[i + 1] == Next(states[i], steps[i])
  }

  // --- what every step keeps ---

  /** Some producer has still to write for the frame at position `k`. */
  ghost predicate Owed<T>(s: State<T>, k: nat) {
    exists p :: 0 <= p < |s.due| && s.due[p] == Some(k)
  }

  /** The frame at position `k` has been seen by the reactor, or the eventfd will show it. */
  ghost predicate Shown<T>(s: State<T>, k: nat) {
    k < s.ring.consSeen.tail || (s.efd > 0 && k < s.efdSeen.tail)
  }

  ghost predicate Views<T>(s: State<T>)
    requires Sized(s)
  {
    && s.efdSeen.head <= s.ring.headPos && s.efdSeen.tail <= |s.ring.accepted|
    && (forall p :: 0 <= p < |s.due| && s.due[p].Some? ==>
          && s.due[p].value < s.ring.seen[p].tail
          && (s.ring.prods[p].AtUnlock? || s.ring.prods[p].Returned?))
    && (!s.loop.Draining? ==> s.ring.cons.SawEmpty? && s.ring.consSeen.tail == s.ring.headPos)
    && (s.loop.Reading? ==> s.efd > 0)
  }

  ghost predicate Awake<T>(s: State<T>) {
    forall k :: 0 <= k < |s.ring.accepted| && s.ring.accepted[k].critical ==> Owed(s, k) || Shown(s, k)
  }

  ghost predicate Inv<T>(s: State<T>) {
    Sized(s) && RingSafety.Inv(s.ring) && Views(s) && Awake(s)
  }

  /** Seeing more, but nothing that was not published, keeps the ring safe. */
  lemma JoinSafe<T>(s: R.Ring<T>, v: R.View)
    requires RingSafety.Inv(s) && v.head <= s.headPos && v.tail <= |s.accepted|
    ensures RingSafety.Inv(s.(consSeen := R.Join(s.consSeen, v)))
  {
    var s' := s.(consSeen := R.Join(s.consSeen, v));
    assert RingSafety.Views(s');
    assert RingSafety.Cells(s') by {
      forall i | |s.died| <= i < |s.died| + s.cap ensures RingSafety.CellOk(s', i) {
        assert RingSafety.CellOk(s, i);
      }
    }
    forall p | 0 <= p < |s.prods| ensures RingSafety.ProducerOk(s', p) {
      assert RingSafety.ProducerOk(s, p);
    }
  }

  /** A pop that finds the ring empty has popped everything its thread had seen. */
  lemma EmptySeen<T>(s: R.Ring<T>, v: nat)
    requires RingSafety.Inv(s) && R.Enabled(s, R.PopLoadTail(v)) && R.Next(s, R.PopLoadTail(v)).cons.SawEmpty?
    ensures v == s.headPos
  {
    SameSlot(s.headPos, v, s.cap);
  }

  /** What a step of the ring does to views and to what has been accepted. */
  lemma RingFrame<T>(s: R.Ring<T>, rs: R.Step<T>)
    requires R.Sized(s) && R.Enabled(s, rs) && forall p :: 0 <= p < |s.seen| ==> s.seen[p].tail <= |s.accepted|
    ensures var s' := R.Next(s, rs);
            && |s'.prods| == |s.prods| && s'.headPos >= s.headPos
            && s'.accepted == s.accepted + (if rs.StoreTail? then [s.prods[rs.p].x] else [])
            && (R.IsProducerStep(rs) ==> s'.cons == s.cons && s'.consSeen == s.consSeen && s'.headPos == s.headPos)
            && s'.consSeen.tail == (if rs.PopLoadTail? then rs.v else s.consSeen.tail)
    ensures var s' := R.Next(s, rs);
            forall p :: 0 <= p < |s.prods| ==>
              && s'.seen[p].tail >= s.seen[p].tail
              && (!R.IsProducerStep(rs) || p != rs.p ==> s'.prods[p] == s.prods[p])
    ensures var s' := R.Next(s, rs);
            && (rs.StoreTail? ==> s'.prods[rs.p].AtUnlock? && s'.seen[rs.p].tail == |s'.accepted|)
            && (R.IsProducerStep(rs) && (s.prods[rs.p].AtUnlock? || s.prods[rs.p].Returned?) && !rs.Call? ==>
                  s'.prods[rs.p].Returned?)
  {
  }

  lemma RingViews<T>(s: State<T>, rs: R.Step<Item<T>>)
    requires Inv(s) && Enabled(s, Ring(rs))
    ensures Sized(Next(s, Ring(rs))) && Views(Next(s, Ring(rs)))
  {
    RingFrame(s.ring, rs);
    RingSafety.NextInv(s.ring, rs);
    if rs.PopLoadTail? && R.Next(s.ring, rs).cons.SawEmpty? {
      EmptySeen(s.ring, rs.v);
    }
  }

  lemma RingAwake<T>(s: State<T>, rs: R.Step<Item<T>>)
    requires Inv(s) && Enabled(s, Ring(rs))
    ensures Awake(Next(s, Ring(rs)))
  {
    RingFrame(s.ring, rs);
    var s' := Next(s, Ring(rs));
    forall k | 0 <= k < |s'.ring.accepted| && s'.ring.accepted[k].critical ensures Owed(s', k) || Shown(s', k) {
      if k == |s.ring.accepted| {
        assert s'.due[rs.p] == Some(k);
      } else {
        assert s.ring.accepted[k].critical;
        if Owed(s, k) {
          var p :| 0 <= p < |s.due| && s.due[p] == Some(k);
          assert s'.due[p] == Some(k);
        }
      }
    }
  }

  lemma WriteAwake<T>(s: State<T>, p: nat)
    requires Inv(s) && Enabled(s, Write(p)) && s.efd < Kernel.EFD_MAX
    ensures Awake(Next(s, Write(p)))
  {
    var s' := Next(s, Write(p));
    forall k | 0 <= k < |s'.ring.accepted| && s'.ring.accepted[k].critical ensures Owed(s', k) || Shown(s', k) {
      if Owed(s, k) {
        var q :| 0 <= q < |s.due| && s.due[q] == Some(k);
        if q != p {
          assert s'.due[q] == Some(k);
        }
      }
    }
  }

  /** The steps that keep every debt. */
  lemma OtherAwake<T>(s: State<T>, st: Step<T>)
    requires Inv(s) && Enabled(s, st) && !st.Ring? && !st.Write?
    ensures Awake(Next(s, st))
  {
    var s' := Next(s, st);
    forall k | 0 <= k < |s'.ring.accepted| && s'.ring.accepted[k].critical ensures Owed(s', k) || Shown(s', k) {
      assert s.ring.accepted[k].critical;
      if Owed(s, k) {
        var p :| 0 <= p < |s.due| && s.due[p] == Some(k);
        assert s'.due[p] == Some(k);
      }
    }
  }

  lemma NextInv<T>(s: State<T>, st: Step<T>)
    requires Inv(s) && Enabled(s, st) && (st.Write? ==> s.efd < Kernel.EFD_MAX)
    ensures Inv(Next(s, st))
  {
    match st
    case Ring(rs) =>
      RingSafety.NextInv(s.ring, rs);
      RingViews(s, rs);
      RingAwake(s, rs);
    case Write(p) => WriteAwake(s, p);
    case Read =>
      JoinSafe(s.ring, s.efdSeen);
      OtherAwake(s, st);
    case _ => OtherAwake(s, st);
  }

  lemma InitInv<T>(s: State<T>)
    requires Init(s)
    ensures Inv(s)
  {
    RingSafety.InitInv(s.ring);
  }

  lemma {:induction false} RunInv<T>(states: seq<State<T>>, steps: seq<Step<T>>, n: nat)
    requires Run(states, steps) && n <= |steps|
    ensures Inv(states[n])
  {
    if n == 0 {
      InitInv(states[0]);
    } else {
      RunInv(states, steps, n - 1);
      NextInv(states[n - 1], steps[n - 1]);
    }
  }

  /** However stale the loads: once the write for an accepted CRITICAL frame is done, the eventfd is readable or the reactor
      has seen the frame, so that no pop of its reports empty before the frame is popped; and whenever the reactor is
      past the empty observation while the frame is queued, its wait can end without the timeout. */
  lemma NoLostWakeup<T>(states: seq<State<T>>, steps: seq<Step<T>>, n: nat, k: nat)
    requires Run(states, steps) && n <= |steps|
    requires k < |states[n].ring.accepted| && states[n].ring.accepted[k].critical && !Owed(states[n], k)
    ensures Sized(states[n])
    ensures states[n].efd == 0 ==> k < states[n].ring.consSeen.tail
    ensures k < states[n].ring.consSeen.tail && k >= states[n].ring.headPos ==>
              forall v :: R.Enabled(states[n].ring, R.PopLoadTail(v)) ==> !R.Next(states[n].ring, R.PopLoadTail(v)).cons.SawEmpty?
    ensures states[n].loop.Quiet? && k >= states[n].ring.headPos ==> Enabled(states[n], Complete)
  {
    RunInv(states, steps, n);
    var ring := states[n].ring;
    assert Shown(states[n], k);
    if k < ring.consSeen.tail && k >= ring.headPos {
      forall v | R.Enabled(ring, R.PopLoadTail(v)) ensures !R.Next(ring, R.PopLoadTail(v)).cons.SawEmpty? {
        if R.Next(ring, R.PopLoadTail(v)).cons.SawEmpty? {
          EmptySeen(ring, v);
        }
      }
    }
  }
  // --- a wakeup costs a write ---

  function Writes<T>(steps: seq<Step<T>>, n: nat): nat
    requires n <= |steps|
  {
    if n == 0 then 0 else Writes(steps, n - 1) + (if steps[n - 1].Write? || steps[n - 1].OtherWrite? then 1 else 0)
  }

  function Completes<T>(steps: seq<Step<T>>, n: nat): nat
    requires n <= |steps|
  {
    if n == 0 then 0 else Completes(steps, n - 1) + (if steps[n - 1].Complete? then 1 else 0)
  }

  lemma EfdMoves<T>(s: State<T>, st: Step<T>)
    requires Sized(s) && Enabled(s, st)
    ensures var s' := Next(s, st);
            && (st.Read? ==> s'.efd == 0)
            && (!st.Read? && !st.Write? && !st.OtherWrite? ==> s'.efd == s.efd)
            && (s'.loop.Reading? <==> st.Complete? || (s.loop.Reading? && !st.Read?))
  {
  }

  /** Reading empties the eventfd: in every run the reactor has been woken at most as often as somebody has written. */
  lemma {:induction false} WakeupsPaid<T>(states: seq<State<T>>, steps: seq<Step<T>>, n: nat)
    requires Run(states, steps) && n <= |steps|
    ensures Completes(steps, n) + (if states[n].efd > 0 && !states[n].loop.Reading? then 1 else 0) <= Writes(steps, n)
  {
    if n > 0 {
      WakeupsPaid(states, steps, n - 1);
      EfdMoves(states[n - 1], steps[n - 1]);
    }
  }
}
