/** Every frame offered to a callback is in exactly one place, in every reachable state. */
module KernelConservation {
  import opened Collections
  import opened Routing
  import opened Kernel
  import opened KernelInv
  import opened KernelDelivery
  import Fnv
  import R = RingSteps
  import RR = RingRefinement
  import S = SlotSteps
  import RingSafety

  // --- which frames enter which channel ---

  /** What one frame adds to the ring's calls, and to those of the slot of `key`. */
  function RingCall(hs: seq<Handler>, f: Frame): seq<Sample> {
    if f.handler < |hs| && !hs[f.handler].priority.BACKGROUND? then [Sample(hs[f.handler].hash, f)] else []
  }

  function SlotCall(hs: seq<Handler>, key: Fnv.Word, f: Frame): seq<Sample> {
    if f.handler < |hs| && hs[f.handler].priority.BACKGROUND? && hs[f.handler].hash == key then [Sample(key, f)] else []
  }

  /** The offered frames that go to the ring, in arrival order. */
  function RingCalls(hs: seq<Handler>, offered: seq<Frame>): seq<Sample> {
    if offered == [] then []
    else RingCalls(hs, offered[..|offered| - 1]) + RingCall(hs, offered[|offered| - 1])
  }

  /** The offered frames that go to the slot of `key`, in arrival order. */
  function SlotCalls(hs: seq<Handler>, key: Fnv.Word, offered: seq<Frame>): seq<Sample> {
    if offered == [] then []
    else SlotCalls(hs, key, offered[..|offered| - 1]) + SlotCall(hs, key, offered[|offered| - 1])
  }

  /** Frames are numbered as they arrive, and each entered the channel of its priority. */
  ghost predicate Entered(s: State) {
    && |s.slots| == |s.keys|
    && (forall k :: 0 <= k < |s.offered| ==> s.offered[k].id == k && s.offered[k].handler < |s.hs|)
    && s.ring.calls == RingCalls(s.hs, s.offered)
    && (forall i :: 0 <= i < |s.slots| ==> s.slots[i].calls == SlotCalls(s.hs, s.keys[i], s.offered))
  }

  lemma OfferEntered(s: State, p: nat, h: nat)
    requires Sized(s) && Entered(s) && CallbackEnabled(s, Offer(p, h))
    requires Allocated(s.hs, s.keys)
    ensures Entered(CallbackNext(s, Offer(p, h)))
  {
    var s' := CallbackNext(s, Offer(p, h));
    assert s'.offered[..|s.offered|] == s.offered;
    var f := Frame(|s.offered|, h);
    if s.hs[h].priority.BACKGROUND? {
      var i := Find(s.keys, s.hs[h].hash);
      assert i < |s.keys| && s.keys[i] == s.hs[h].hash;
      forall j | 0 <= j < |s.slots| ensures s'.slots[j].calls == SlotCalls(s.hs, s.keys[j], s'.offered) {
        assert j != i ==> s.keys[j] != s.keys[i];
      }
    } else {
      PutFrame(s.ring, R.Call(p, SampleOf(s, f)));
    }
  }

  lemma CallbackEntered(s: State, c: CallbackStep)
    requires Sized(s) && Entered(s) && CallbackEnabled(s, c) && Allocated(s.hs, s.keys)
    ensures Entered(CallbackNext(s, c))
  {
    match c
    case Offer(p, h) => OfferEntered(s, p, h);
    case RingPut(rs) => PutFrame(s.ring, rs);
    case SlotPut(i, ss) => assert S.Next(s.slots[i], ss).calls == s.slots[i].calls;
    case _ =>
  }

  lemma DispatchEntered(s: State, d: DispatchStep)
    requires Sized(s) && Entered(s) && DispatchEnabled(s, d)
    ensures Entered(DispatchNext(s, d))
  {
    match d
    case RingPop(rs) => PopFrame(s.ring, rs);
    case _ =>
  }

  // --- each channel loses nothing ---

  ghost predicate Balanced(s: State, x: Sample) {
    && RR.Conserved(s.ring, x)
    && forall i :: 0 <= i < |s.slots| ==> S.Conserved(s.slots[i], x)
  }

  lemma OfferBalanced(s: State, p: nat, h: nat, x: Sample)
    requires Machines(s) && Balanced(s, x) && CallbackEnabled(s, Offer(p, h))
    ensures Balanced(CallbackNext(s, Offer(p, h)), x)
  {
    var y := SampleOf(s, Frame(|s.offered|, h));
    var i := Find(s.keys, s.hs[h].hash);
    if !s.hs[h].priority.BACKGROUND? {
      RR.NextConserved(s.ring, R.Call(p, y), x);
    } else if i < |s.slots| {
      S.NextConserved(s.slots[i], S.Call(p, y), x);
    }
  }

  lemma CallbackBalanced(s: State, c: CallbackStep, x: Sample)
    requires Machines(s) && Balanced(s, x) && CallbackEnabled(s, c)
    ensures Balanced(CallbackNext(s, c), x)
  {
    match c
    case Offer(p, h) => OfferBalanced(s, p, h, x);
    case RingPut(rs) => RR.NextConserved(s.ring, rs, x);
    case SlotPut(i, ss) => S.NextConserved(s.slots[i], ss, x);
    case _ =>
  }

  lemma DispatchBalanced(s: State, d: DispatchStep, x: Sample)
    requires Machines(s) && Balanced(s, x) && DispatchEnabled(s, d)
    ensures Balanced(DispatchNext(s, d), x)
  {
    match d
    case RingPop(rs) => RR.NextConserved(s.ring, rs, x);
    case BeginTake => S.NextConserved(s.slots[s.re.i], S.CallTake, x);
    case SlotTake(ss) => S.NextConserved(s.slots[s.re.i], ss, x);
    case _ =>
  }

  lemma NextKept(s: State, st: Step, x: Sample)
    requires Inv(s) && Entered(s) && Balanced(s, x) && Enabled(s, st)
    ensures Entered(Next(s, st)) && Balanced(Next(s, st), x)
  {
    match st
    case Callbacks(c) =>
      CallbackEntered(s, c);
      CallbackBalanced(s, c, x);
    case Dispatches(d) =>
      DispatchEntered(s, d);
      DispatchBalanced(s, d, x);
    case Loops(l) => LoopFrame(s, l);
    case System(o) => SystemFrame(s, o);
  }

  lemma {:induction false} RunKept(states: seq<State>, steps: seq<Step>, n: nat, x: Sample)
    requires Run(states, steps) && n <= |steps|
    ensures Entered(states[n]) && Balanced(states[n], x)
  {
    if n == 0 {
      InitKept(states[0], x);
    } else {
      RunKept(states, steps, n - 1, x);
      RunInv(states, steps, n - 1);
      NextKept(states[n - 1], steps[n - 1], x);
    }
  }

  lemma InitKept(s: State, x: Sample)
    requires Init(s)
    ensures Entered(s) && Balanced(s, x)
  {
    RR.NoHolders(s.ring.prods, x);
    forall i | 0 <= i < |s.slots| ensures S.Conserved(s.slots[i], x) {
      S.NoHolders(s.slots[i].putters, x);
    }
  }

  // --- the places of a frame ---

  /** The frames of the ring callbacks that have run, in order. */
  function RingFrames(ds: seq<Dispatch>): seq<Frame> {
    if ds == [] then []
    else
      var n := |ds| - 1;
      RingFrames(ds[..n]) + (if ds[n].FromRing? then [ds[n].f] else [])
  }

  /** How often frame `x` is in the ring's keeping: with a producer, queued, refused and counted, in the
      reactor's hand, or delivered. */
  ghost function RingPlaces(s: State, x: Sample): nat {
    RR.Holders(s.ring.prods, x) + Count(R.Abs(s.ring), x) + Count(s.ring.refused, x)
    + (if s.re.RingHand? && s.re.x == x then 1 else 0) + Count(RingFrames(s.delivered), x.frame)
  }

  /** How often frame `x` is in the keeping of slot `i`: with a putter, waiting, overwritten and counted, in
      the reactor's hand, or delivered. */
  ghost function SlotPlaces(s: State, i: nat, x: Sample): nat
    requires i < |s.slots|
  {
    var slot := s.slots[i];
    S.Holders(slot.putters, x) + (if S.Waits(slot) && slot.data == Some(x) then 1 else 0) + Count(slot.lost, x)
    + Count(InHand(s, i), x.frame) + Count(SlotFrames(s.delivered, i), x.frame)
  }

  ghost function SlotTerms(s: State, x: Sample): (t: seq<nat>)
    ensures |t| == |s.slots| && forall i :: 0 <= i < |t| ==> t[i] == SlotPlaces(s, i, x)
  {
    seq(|s.slots|, i requires 0 <= i < |s.slots| => SlotPlaces(s, i, x))
  }

  /** How often frame `x` is in the keeping of any slot. */
  ghost function SlotsPlaces(s: State, x: Sample): nat {
    Sum(SlotTerms(s, x))
  }

  lemma {:induction false} TimesFrames(hs: seq<Handler>, xs: seq<Sample>, x: Sample)
    requires Good(hs, x) && forall k :: 0 <= k < |xs| ==> Good(hs, xs[k])
    ensures Count(Frames(xs), x.frame) == Count(xs, x)
  {
    if xs != [] {
      var n := |xs| - 1;
      TimesFrames(hs, xs[..n], x);
      assert xs == xs[..n] + [xs[n]] && Frames(xs) == Frames(xs[..n]) + [xs[n].frame];
    }
  }

  lemma {:induction false} FramesAtPositions(ds: seq<Dispatch>, accepted: seq<Sample>)
    requires forall k :: 0 <= k < |ds| && ds[k].FromRing? ==>
               0 <= ds[k].pos < |accepted| && ds[k].f == accepted[ds[k].pos].frame
    ensures |RingFrames(ds)| == |Positions(ds)|
    ensures forall j :: 0 <= j < |Positions(ds)| ==>
              0 <= Positions(ds)[j] < |accepted| && RingFrames(ds)[j] == accepted[Positions(ds)[j]].frame
  {
    if ds != [] {
      FramesAtPositions(ds[..|ds| - 1], accepted);
    }
  }

  /** The frames delivered from the ring are the first ones accepted. */
  lemma DeliveredFrames(s: State)
    requires RingDelivered(s) && 0 <= Done(s) <= |s.ring.accepted|
    ensures RingFrames(s.delivered) == Frames(s.ring.accepted[..Done(s)])
  {
    forall k | 0 <= k < |s.delivered| && s.delivered[k].FromRing?
      ensures 0 <= s.delivered[k].pos < |s.ring.accepted|
           && s.delivered[k].f == s.ring.accepted[s.delivered[k].pos].frame
    {
      assert DispatchOk(s, s.delivered[k]);
    }
    FramesAtPositions(s.delivered, s.ring.accepted);
  }

  /** What was accepted is delivered, in the reactor's hand, or queued. */
  lemma AcceptedSplit(accepted: seq<Sample>, h: nat, hand: seq<Sample>, x: Sample)
    requires |hand| <= h <= |accepted| && accepted[..h] == accepted[..h - |hand|] + hand
    ensures Count(accepted, x) == Count(accepted[..h - |hand|], x) + Count(hand, x) + Count(accepted[h..], x)
  {
    assert accepted == accepted[..h - |hand|] + hand + accepted[h..];
  }

  function RingHandOf(s: State): seq<Sample> {
    if s.re.RingHand? then [s.re.x] else []
  }

  lemma HandLast(s: State)
    requires Machines(s) && Links(s)
    ensures var h := s.ring.headPos;
            && |RingHandOf(s)| <= h <= |s.ring.accepted| && Done(s) == h - |RingHandOf(s)|
            && s.ring.accepted[..h] == s.ring.accepted[..Done(s)] + RingHandOf(s)
  {
    if s.re.RingHand? {
      assert s.re.x == s.ring.accepted[s.ring.headPos - 1];
    }
  }

  lemma AcceptedGood(s: State, n: nat)
    requires Routed(s) && n <= |s.ring.accepted|
    ensures forall k :: 0 <= k < n ==> Good(s.hs, s.ring.accepted[..n][k])
  {
  }

  /** What the ring accepted: delivered, in the reactor's hand, or queued. */
  lemma AcceptedPlaces(s: State, x: Sample)
    requires Machines(s) && Links(s) && Routed(s) && RingDelivered(s) && Good(s.hs, x)
    ensures Count(s.ring.accepted, x)
         == Count(RingFrames(s.delivered), x.frame) + Count(RingHandOf(s), x) + Count(R.Abs(s.ring), x)
  {
    HandLast(s);
    DeliveredFrames(s);
    AcceptedSplit(s.ring.accepted, s.ring.headPos, RingHandOf(s), x);
    AcceptedGood(s, Done(s));
    TimesFrames(s.hs, s.ring.accepted[..Done(s)], x);
  }

  /** In the ring, places and calls agree. */
  lemma RingBalance(s: State, x: Sample)
    requires Machines(s) && Links(s) && Routed(s) && RingDelivered(s) && RR.Conserved(s.ring, x) && Good(s.hs, x)
    ensures RingPlaces(s, x) == Count(s.ring.calls, x)
  {
    AcceptedPlaces(s, x);
    assert Count(RingHandOf(s), x) == if s.re.RingHand? && s.re.x == x then 1 else 0;
  }

  /** In a slot, places and calls agree. */
  lemma SlotBalance(s: State, i: nat, x: Sample)
    requires Inv(s) && Delivered(s) && i < |s.slots| && S.Conserved(s.slots[i], x) && Good(s.hs, x)
    ensures SlotPlaces(s, i, x) == Count(s.slots[i].calls, x)
  {
    assert SlotDelivered(s, i) && GoodSlot(s.hs, s.slots[i]);
    TimesFrames(s.hs, s.slots[i].takes, x);
  }

  /** One frame adds its own sample once, to the channel it belongs to. */
  lemma CallTimes(hs: seq<Handler>, key: Fnv.Word, g: Frame, f: Frame)
    requires g.handler < |hs| && f.handler < |hs|
    ensures var x := Sample(hs[f.handler].hash, f);
            && Count(RingCall(hs, g), x) == (if g == f && !hs[f.handler].priority.BACKGROUND? then 1 else 0)
            && Count(SlotCall(hs, key, g), x)
               == (if g == f && hs[f.handler].priority.BACKGROUND? && hs[f.handler].hash == key then 1 else 0)
  {
  }

  lemma {:induction false} RingCallOnce(hs: seq<Handler>, offered: seq<Frame>, f: Frame)
    requires forall k :: 0 <= k < |offered| ==> offered[k].id == k && offered[k].handler < |hs|
    requires f.handler < |hs|
    ensures Count(RingCalls(hs, offered), Sample(hs[f.handler].hash, f))
         == if f.id < |offered| && offered[f.id] == f && !hs[f.handler].priority.BACKGROUND? then 1 else 0
  {
    if offered != [] {
      var n := |offered| - 1;
      var front, g := offered[..n], offered[n];
      RingCallOnce(hs, front, f);
      assert g.id == n;
      CallTimes(hs, 0, g, f);
      CountPlus(RingCalls(hs, front), RingCall(hs, g), Sample(hs[f.handler].hash, f));
      assert f.id < n ==> front[f.id] == offered[f.id];
    }
  }

  lemma {:induction false} SlotCallOnce(hs: seq<Handler>, key: Fnv.Word, offered: seq<Frame>, f: Frame)
    requires forall k :: 0 <= k < |offered| ==> offered[k].id == k && offered[k].handler < |hs|
    requires f.handler < |hs|
    ensures Count(SlotCalls(hs, key, offered), Sample(hs[f.handler].hash, f))
         == if f.id < |offered| && offered[f.id] == f && hs[f.handler].priority.BACKGROUND? && hs[f.handler].hash == key
            then 1 else 0
  {
    if offered != [] {
      var n := |offered| - 1;
      var front, g := offered[..n], offered[n];
      SlotCallOnce(hs, key, front, f);
      assert g.id == n;
      CallTimes(hs, key, g, f);
      CountPlus(SlotCalls(hs, key, front), SlotCall(hs, key, g), Sample(hs[f.handler].hash, f));
      assert f.id < n ==> front[f.id] == offered[f.id];
    }
  }

  /** A sum with at most one term of 1 and no others. */
  lemma {:induction false} OneTerm(t: seq<nat>, n: nat, j: nat)
    requires n <= |t| && forall i :: 0 <= i < n ==> t[i] == if i == j then 1 else 0
    ensures SumTo(t, n) == if j < n then 1 else 0
  {
    if n > 0 {
      OneTerm(t, n - 1, j);
    }
  }

  /** In every state of every run each offered frame is in exactly one place of the whole system: with a
      callback, in the ring, in a slot, in the reactor's hand, delivered to one callback, or counted once by
      the ring's or a slot's drop counter. */
  lemma ExactlyOnePlace(states: seq<State>, steps: seq<Step>, n: nat, id: nat)
    requires Run(states, steps) && n <= |steps| && id < |states[n].offered|
    ensures states[n].offered[id].handler < |states[n].hs|
    ensures var s := states[n];
            var x := SampleOf(s, s.offered[id]);
            RingPlaces(s, x) + SlotsPlaces(s, x) == 1
  {
    DeliveredInOrder(states, steps, n);
    var s := states[n];
    RunKept(states, steps, n, Sample(0, s.offered[id]));
    var f := s.offered[id];
    var x := SampleOf(s, f);
    RunKept(states, steps, n, x);
    OnePlace(s, id);
  }

  /** The slot a BACKGROUND frame belongs to; no slot for the others. */
  function SlotOf(s: State, f: Frame): nat
    requires f.handler < |s.hs|
  {
    if s.hs[f.handler].priority.BACKGROUND? then Find(s.keys, s.hs[f.handler].hash) else |s.keys|
  }

  lemma OneInSlot(s: State, id: nat, i: nat)
    requires Inv(s) && Delivered(s) && Entered(s) && id < |s.offered| && i < |s.slots|
    requires Balanced(s, SampleOf(s, s.offered[id]))
    ensures SlotPlaces(s, i, SampleOf(s, s.offered[id])) == if i == SlotOf(s, s.offered[id]) then 1 else 0
  {
    var f := s.offered[id];
    SlotBalance(s, i, SampleOf(s, f));
    SlotCallOnce(s.hs, s.keys[i], s.offered, f);
    DistinctKeys(s.hs, s.keys, s.hs[f.handler].hash, i);
  }

  lemma DistinctKeys(hs: seq<Handler>, keys: seq<Fnv.Word>, key: Fnv.Word, i: nat)
    requires Allocated(hs, keys) && i < |keys|
    ensures keys[i] == key <==> i == Find(keys, key)
  {
  }

  lemma OneInRing(s: State, id: nat)
    requires Inv(s) && Delivered(s) && Entered(s) && id < |s.offered|
    requires Balanced(s, SampleOf(s, s.offered[id]))
    ensures RingPlaces(s, SampleOf(s, s.offered[id])) == if Background(s, s.offered[id]) then 0 else 1
  {
    RingBalance(s, SampleOf(s, s.offered[id]));
    RingCallOnce(s.hs, s.offered, s.offered[id]);
  }

  lemma OnePlace(s: State, id: nat)
    requires Inv(s) && Delivered(s) && Entered(s) && id < |s.offered|
    requires Balanced(s, SampleOf(s, s.offered[id]))
    ensures var x := SampleOf(s, s.offered[id]);
            RingPlaces(s, x) + SlotsPlaces(s, x) == 1
  {
    var f := s.offered[id];
    OneInRing(s, id);
    forall i | 0 <= i < |s.slots| ensures SlotPlaces(s, i, SampleOf(s, f)) == if i == SlotOf(s, f) then 1 else 0 {
      OneInSlot(s, id, i);
    }
    OneTerm(SlotTerms(s, SampleOf(s, f)), |s.slots|, SlotOf(s, f));
    assert Background(s, f) ==> SlotOf(s, f) < |s.keys|;
  }

  /** The drop counters are exact: the ring's is the number of refused frames, and each slot's the number of
      frames overwritten in it. */
  lemma CountersExact(states: seq<State>, steps: seq<Step>, n: nat)
    requires Run(states, steps) && n <= |steps|
    ensures states[n].ring.dropped == |states[n].ring.refused|
    ensures forall i :: 0 <= i < |states[n].slots| ==> states[n].slots[i].drops == |states[n].slots[i].lost|
  {
    RunInv(states, steps, n);
    var s := states[n];
    assert RingSafety.Positions(s.ring);
    assert forall i :: 0 <= i < |s.slots| ==> S.Fates(s.slots[i]);
  }
}
