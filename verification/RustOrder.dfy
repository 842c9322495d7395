/** In which order the callbacks of the Rust reactor run: those that the event loop runs itself keep the acceptance order
    against everything accepted later, those on the pool keep none. */
module RustOrder {
  import opened Routing
  import opened RustReactor

  /** In every run the event loop launches ring callbacks in acceptance order, and CRITICAL callbacks run in that order:
      they are exactly the CRITICAL frames among those popped. */
  lemma CriticalInOrder(states: seq<State>, steps: seq<Step>, n: nat)
    requires Run(states, steps) && n <= |steps|
    ensures var s := states[n];
            && s.accepted == s.popped + s.queue
            && Of(s.hs, s.launched, {CRITICAL, NORMAL}) == s.popped
            && Of(s.hs, s.ran, {CRITICAL}) == Criticals(s.hs, s.popped)
  {
    RunRouted(states, steps, n);
    RunCalls(states, steps, n);
  }

  lemma More(states: seq<State>, steps: seq<Step>, st: Step) returns (states': seq<State>, steps': seq<Step>)
    requires Run(states, steps) && Enabled(states[|steps|], st)
    ensures Run(states', steps') && |steps'| == |steps| + 1
    ensures states <= states' && states'[|steps'|] == Next(states[|steps|], st)
  {
    states', steps' := states + [Next(states[|steps|], st)], steps + [st];
    forall i | 0 <= i < |steps'| ensures Enabled(states'[i], steps'[i]) && states'[i + 1] == Next(states'[i], steps'[i]) {
      if i < |steps| {
        assert steps'[i] == steps[i];
      }
    }
  }

  /** What is left of a drain: the frames queued, and the callbacks run and spawned by it. */
  ghost predicate At(s: State, queue: seq<Frame>, spawned: multiset<Call>, ran: seq<Call>) {
    s.main.Draining? && s.queue == queue && s.spawned == spawned && s.ran == ran
  }

  /** Popping the whole queue: each NORMAL frame is spawned, each CRITICAL frame runs at once. */
  lemma PopAt(s: State, f: Frame, rest: seq<Frame>, spawned: multiset<Call>, ran: seq<Call>)
    requires At(s, [f] + rest, spawned, ran)
    ensures Enabled(s, Pop)
    ensures var s' := Next(s, Pop);
            && s'.hs == s.hs && s'.bound == s.bound && s'.workers == s.workers
            && s'.accepted == s.accepted && s'.received == s.received && s'.launched == s.launched + [Call(f, f.handler)]
            && if Has(s.hs, f, CRITICAL) then At(s', rest, spawned, ran + [Call(f, f.handler)])
               else At(s', rest, spawned + multiset{Call(f, f.handler)}, ran)
  {
  }

  /** Two NORMAL frames and then a CRITICAL one have been accepted. */
  lemma ThreeQueued(normal: Handler, critical: Handler, bound: nat) returns (states: seq<State>, steps: seq<Step>)
    requires normal.priority.NORMAL? && critical.priority.CRITICAL? && bound >= 3
    ensures Run(states, steps) && |steps| == 3
    ensures var s := states[3];
            var q := [Frame(0, 0), Frame(0, 1), Frame(1, 2)];
            s.hs == [normal, critical] && s.accepted == q && At(s, q, multiset{}, [])
  {
    var x, y, z := Frame(0, 0), Frame(0, 1), Frame(1, 2);
    steps := [Push(0), Push(0), Push(1)];
    var s0 := State([normal, critical], [], bound, [], [], false, [Receiving, Receiving], Draining, NONE, NONE, multiset{},
                    [], [], [], [], [], [], [], 0);
    var s1 := s0.(queue := [x], received := [x], accepted := [x]);
    var s2 := s0.(queue := [x, y], received := [x, y], accepted := [x, y]);
    var s3 := s0.(queue := [x, y, z], received := [x, y, z], accepted := [x, y, z], workers := [Receiving, Notifying(z)]);
    assert s1 == Next(s0, Push(0)) && s2 == Next(s1, Push(0));
    states := [s0, s1, s2, s3];
  }

  /** No such order holds for NORMAL callbacks: two NORMAL frames and then a CRITICAL one are accepted, and their
      callbacks run in the opposite order. */
  lemma PoolReorders(normal: Handler, critical: Handler, bound: nat) returns (states: seq<State>, steps: seq<Step>)
    requires normal.priority.NORMAL? && critical.priority.CRITICAL? && bound >= 3
    ensures Run(states, steps) && |steps| == 8
    ensures states[8].accepted == [Frame(0, 0), Frame(0, 1), Frame(1, 2)]
    ensures states[8].ran == [Call(Frame(1, 2), 1), Call(Frame(0, 1), 0), Call(Frame(0, 0), 0)]
  {
    states, steps := ThreePopped(normal, critical, bound);
    states, steps := More(states, steps, RunSpawned(Call(Frame(0, 1), 0)));
    states, steps := More(states, steps, RunSpawned(Call(Frame(0, 0), 0)));
  }

  lemma ThreePopped(normal: Handler, critical: Handler, bound: nat) returns (states: seq<State>, steps: seq<Step>)
    requires normal.priority.NORMAL? && critical.priority.CRITICAL? && bound >= 3
    ensures Run(states, steps) && |steps| == 6
    ensures states[6].accepted == [Frame(0, 0), Frame(0, 1), Frame(1, 2)]
    ensures At(states[6], [], multiset{Call(Frame(0, 0), 0), Call(Frame(0, 1), 0)}, [Call(Frame(1, 2), 1)])
  {
    states, steps := ThreeQueued(normal, critical, bound);
    var x, y, z := Frame(0, 0), Frame(0, 1), Frame(1, 2);
    assert [x, y, z] == [x] + [y, z] && [y, z] == [y] + [z] && [z] == [z] + [];
    PopAt(states[3], x, [y, z], multiset{}, []);
    states, steps := More(states, steps, Pop);
    PopAt(states[4], y, [z], multiset{Call(x, 0)}, []);
    states, steps := More(states, steps, Pop);
    PopAt(states[5], z, [], multiset{Call(x, 0), Call(y, 0)}, []);
    states, steps := More(states, steps, Pop);
  }

  // --- a CRITICAL callback runs before those of all ring frames accepted later ---

  /** Some callback for `f` is among the first `n` that ran. */
  ghost predicate HasRun(ran: seq<Call>, n: int, f: Frame) {
    exists a :: 0 <= a < n && a < |ran| && ran[a].f == f
  }

  /** Every callback for `g` that has run was preceded by one for `f`. */
  ghost predicate Precedes(ran: seq<Call>, f: Frame, g: Frame) {
    forall b :: 0 <= b < |ran| && ran[b].f == g ==> HasRun(ran, b, f)
  }

  ghost predicate Increasing(fs: seq<Frame>, below: nat) {
    && (forall i :: 0 <= i < |fs| ==> fs[i].id < below)
    && (forall i, j :: 0 <= i < j < |fs| ==> fs[i].id < fs[j].id)
  }

  /** Ring frames on the pool or run were popped, and popped CRITICAL ones have run. */
  ghost predicate Known(hs: seq<Handler>, popped: seq<Frame>, spawned: multiset<Call>, ran: seq<Call>) {
    && (forall c :: c in spawned ==> c.f in popped || Has(hs, c.f, BACKGROUND))
    && (forall b :: 0 <= b < |ran| ==> ran[b].f in popped || Has(hs, ran[b].f, BACKGROUND))
    && (forall i :: 0 <= i < |popped| && Has(hs, popped[i], CRITICAL) ==> HasRun(ran, |ran|, popped[i]))
  }

  ghost predicate KeptOrder(hs: seq<Handler>, popped: seq<Frame>, ran: seq<Call>) {
    forall i, j :: 0 <= i < j < |popped| && Has(hs, popped[i], CRITICAL) ==> Precedes(ran, popped[i], popped[j])
  }

  ghost predicate Early(s: State) {
    Increasing(s.accepted, |s.received|) && Known(s.hs, s.popped, s.spawned, s.ran) && KeptOrder(s.hs, s.popped, s.ran)
  }

  lemma HasRunLater(ran: seq<Call>, n: int, f: Frame, c: Call)
    requires HasRun(ran, n, f)
    ensures HasRun(ran + [c], n, f)
  {
    var a :| 0 <= a < n && a < |ran| && ran[a].f == f;
    assert (ran + [c])[a].f == f;
  }

  /** One more callback runs: what has preceded still has, and the new one must have been preceded itself. */
  lemma PrecedesLater(ran: seq<Call>, f: Frame, g: Frame, c: Call)
    requires Precedes(ran, f, g) && (c.f == g ==> HasRun(ran, |ran|, f))
    ensures Precedes(ran + [c], f, g)
  {
    var more := ran + [c];
    forall b | 0 <= b < |more| && more[b].f == g ensures HasRun(more, b, f) {
      HasRunLater(ran, b, f, c);
    }
  }

  lemma SpawnKnown(hs: seq<Handler>, popped: seq<Frame>, spawned: multiset<Call>, ran: seq<Call>, c: Call)
    requires Known(hs, popped, spawned, ran) && !Has(hs, c.f, CRITICAL)
    ensures Known(hs, popped + [c.f], spawned + multiset{c}, ran)
    ensures Has(hs, c.f, BACKGROUND) ==> Known(hs, popped, spawned + multiset{c}, ran)
  {
  }

  lemma InlineKnown(hs: seq<Handler>, popped: seq<Frame>, spawned: multiset<Call>, ran: seq<Call>, c: Call)
    requires Known(hs, popped, spawned, ran)
    ensures Known(hs, popped + [c.f], spawned, ran + [c])
  {
    var fs, more := popped + [c.f], ran + [c];
    forall i | 0 <= i < |fs| && Has(hs, fs[i], CRITICAL) ensures HasRun(more, |more|, fs[i]) {
      if i < |popped| {
        var a :| 0 <= a < |ran| && ran[a].f == popped[i];
        assert more[a].f == fs[i];
      } else {
        assert more[|ran|].f == fs[i];
      }
    }
  }

  lemma RunKnown(hs: seq<Handler>, popped: seq<Frame>, spawned: multiset<Call>, ran: seq<Call>, c: Call)
    requires Known(hs, popped, spawned, ran) && c in spawned
    ensures Known(hs, popped, spawned - multiset{c}, ran + [c])
  {
    var more := ran + [c];
    forall i | 0 <= i < |popped| && Has(hs, popped[i], CRITICAL) ensures HasRun(more, |more|, popped[i]) {
      var a :| 0 <= a < |ran| && ran[a].f == popped[i];
      assert more[a].f == popped[i];
    }
  }

  /** A callback of the pool runs after every CRITICAL one popped. */
  lemma RunKeptOrder(hs: seq<Handler>, popped: seq<Frame>, spawned: multiset<Call>, ran: seq<Call>, c: Call)
    requires Known(hs, popped, spawned, ran) && KeptOrder(hs, popped, ran)
    ensures KeptOrder(hs, popped, ran + [c])
  {
    forall i, j | 0 <= i < j < |popped| && Has(hs, popped[i], CRITICAL) ensures Precedes(ran + [c], popped[i], popped[j]) {
      PrecedesLater(ran, popped[i], popped[j], c);
    }
  }

  /** No callback of a frame has run before the frame is popped. */
  lemma PopKeptOrder(hs: seq<Handler>, popped: seq<Frame>, spawned: multiset<Call>, ran: seq<Call>, f: Frame)
    requires Known(hs, popped, spawned, ran) && KeptOrder(hs, popped, ran)
    requires f !in popped && !Has(hs, f, BACKGROUND)
    ensures KeptOrder(hs, popped + [f], ran)
  {
    var fs := popped + [f];
    forall i, j | 0 <= i < j < |fs| && Has(hs, fs[i], CRITICAL) ensures Precedes(ran, fs[i], fs[j]) {
      if j < |popped| {
        assert Precedes(ran, popped[i], popped[j]);
      }
    }
  }

  lemma PopEarly(s: State)
    requires Routed(s) && Early(s) && Enabled(s, Pop)
    ensures Early(Next(s, Pop))
  {
    var f := s.queue[0];
    var c := Call(f, f.handler);
    PopCall(s);
    assert f == s.accepted[|s.popped|];
    assert forall i :: 0 <= i < |s.popped| ==> s.popped[i] == s.accepted[i];
    PopKeptOrder(s.hs, s.popped, s.spawned, s.ran, f);
    if Has(s.hs, f, CRITICAL) {
      CriticalLast(s.hs, s.popped, s.spawned, s.ran, c);
      InlineKnown(s.hs, s.popped, s.spawned, s.ran, c);
    } else {
      SpawnKnown(s.hs, s.popped, s.spawned, s.ran, c);
    }
  }

  /** The callback of the frame popped last runs after every CRITICAL one popped before. */
  lemma CriticalLast(hs: seq<Handler>, popped: seq<Frame>, spawned: multiset<Call>, ran: seq<Call>, c: Call)
    requires Known(hs, popped, spawned, ran) && KeptOrder(hs, popped + [c.f], ran)
    ensures KeptOrder(hs, popped + [c.f], ran + [c])
  {
    var fs := popped + [c.f];
    forall i, j | 0 <= i < j < |fs| && Has(hs, fs[i], CRITICAL) ensures Precedes(ran + [c], fs[i], fs[j]) {
      assert fs[i] == popped[i];
      PrecedesLater(ran, fs[i], fs[j], c);
    }
  }

  lemma NextEarly(s: State, st: Step)
    requires Routed(s) && Early(s) && Enabled(s, st)
    ensures Early(Next(s, st))
  {
    match st
    case Pop => PopEarly(s);
    case DrainSlot =>
      if s.slots[s.main.i].content.Some? {
        DrainCall(s);
        SpawnKnown(s.hs, s.popped, s.spawned, s.ran, CallOf(s.hs, s.slots[s.main.i].content.value));
      }
    case RunSpawned(c) =>
      RunKnown(s.hs, s.popped, s.spawned, s.ran, c);
      RunKeptOrder(s.hs, s.popped, s.spawned, s.ran, c);
    case _ => QuietFrame(s, st);
  }

  lemma InitEarly(s: State)
    requires Init(s)
    ensures Early(s)
  {
  }

  lemma {:induction false} RunEarly(states: seq<State>, steps: seq<Step>, n: nat)
    requires Run(states, steps) && n <= |steps|
    ensures Early(states[n])
  {
    if n == 0 {
      InitEarly(states[0]);
    } else {
      RunRouted(states, steps, n - 1);
      RunEarly(states, steps, n - 1);
      NextEarly(states[n - 1], steps[n - 1]);
    }
  }

  /** In every run the callback of a CRITICAL frame runs before that of every ring frame accepted after it. */
  lemma CriticalRunsFirst(states: seq<State>, steps: seq<Step>, n: nat, i: nat, j: nat)
    requires Run(states, steps) && n <= |steps| && i < j < |states[n].accepted|
    requires Has(states[n].hs, states[n].accepted[i], CRITICAL)
    ensures Precedes(states[n].ran, states[n].accepted[i], states[n].accepted[j])
  {
    var s := states[n];
    RunRouted(states, steps, n);
    RunEarly(states, steps, n);
    assert forall k :: 0 <= k < |s.popped| ==> s.popped[k] == s.accepted[k];
    if j >= |s.popped| {
      assert s.accepted[j] !in s.popped;
    }
  }

  // --- and only a CRITICAL one does ---

  /** The callbacks of handler `h` run before those of the ring frames accepted after its frames. */
  ghost predicate HandlerFirst(s: State, h: nat) {
    forall i, j :: 0 <= i < j < |s.accepted| && s.accepted[i].handler == h ==> Precedes(s.ran, s.accepted[i], s.accepted[j])
  }

  ghost predicate AlwaysFirst(s0: State, h: nat) {
    forall states: seq<State>, steps: seq<Step> :: Run(states, steps) && states[0] == s0 ==> HandlerFirst(states[|steps|], h)
  }

  lemma StepHandlers(s: State, st: Step)
    requires Enabled(s, st)
    ensures Next(s, st).hs == s.hs && Next(s, st).keys == s.keys
  {
  }

  lemma {:induction false} SameHandlers(states: seq<State>, steps: seq<Step>, n: nat)
    requires Run(states, steps) && n <= |steps|
    ensures states[n].hs == states[0].hs && states[n].keys == states[0].keys
  {
    if n > 0 {
      SameHandlers(states, steps, n - 1);
      StepHandlers(states[n - 1], steps[n - 1]);
    }
  }

  /** An empty queue, and the worker of the NORMAL handler `h` ready for its frame number `id`. */
  ghost predicate Ready(s: State, h: nat, id: nat, spawned: multiset<Call>) {
    && At(s, [], spawned, []) && s.bound > 0 && |s.received| == id
    && h < |s.hs| && h < |s.workers| && s.workers[h].Receiving? && s.hs[h].priority.NORMAL?
  }

  lemma PushReady(s: State, h: nat, id: nat, spawned: multiset<Call>)
    requires Ready(s, h, id, spawned)
    ensures Enabled(s, Push(h))
    ensures var s', f := Next(s, Push(h)), Frame(h, id);
            && At(s', [f] + [], spawned, []) && s'.hs == s.hs && s'.bound == s.bound && s'.workers == s.workers
            && s'.accepted == s.accepted + [f] && |s'.received| == id + 1 && s'.launched == s.launched
  {
  }

  /** A frame of a NORMAL handler is accepted, popped and spawned. */
  lemma Round(states: seq<State>, steps: seq<Step>, h: nat, id: nat, spawned: multiset<Call>)
    returns (states': seq<State>, steps': seq<Step>)
    requires Run(states, steps) && Ready(states[|steps|], h, id, spawned)
    ensures Run(states', steps') && states <= states' && |steps'| == |steps| + 2
    ensures var s, s', f := states[|steps|], states'[|steps'|], Frame(h, id);
            && Ready(s', h, id + 1, spawned + multiset{Call(f, h)})
            && s'.accepted == s.accepted + [f] && s'.launched == s.launched + [Call(f, h)]
  {
    var s := states[|steps|];
    PushReady(s, h, id, spawned);
    states', steps' := More(states, steps, Push(h));
    PopAt(Next(s, Push(h)), Frame(h, id), [], spawned, []);
    states', steps' := More(states', steps', Pop);
  }

  /** Two frames of a NORMAL handler, the second callback run before the first. */
  lemma NormalSwaps(s0: State, h: nat) returns (states: seq<State>, steps: seq<Step>)
    requires Init(s0) && s0.bound > 0 && h < |s0.hs| && s0.hs[h].priority.NORMAL?
    ensures Run(states, steps) && states[0] == s0 && |steps| == 5
    ensures states[5].accepted == [Frame(h, 0), Frame(h, 1)] && states[5].ran == [Call(Frame(h, 1), h)]
  {
    var a, b := Call(Frame(h, 0), h), Call(Frame(h, 1), h);
    states, steps := Round([s0], [], h, 0, multiset{});
    states, steps := Round(states, steps, h, 1, multiset{a});
    assert b in states[4].spawned;
    states, steps := More(states, steps, RunSpawned(b));
  }

  lemma CriticalHandlerFirst(states: seq<State>, steps: seq<Step>, h: nat)
    requires Run(states, steps) && h < |states[0].hs| && states[0].hs[h].priority.CRITICAL?
    ensures HandlerFirst(states[|steps|], h)
  {
    var n := |steps|;
    var s := states[n];
    SameHandlers(states, steps, n);
    forall i, j | 0 <= i < j < |s.accepted| && s.accepted[i].handler == h
      ensures Precedes(s.ran, s.accepted[i], s.accepted[j])
    {
      CriticalRunsFirst(states, steps, n, i, j);
    }
  }

  /** In every run from a start the callbacks of a handler of the ring run before those of all ring frames accepted after
      its frames, if and only if the handler is CRITICAL. */
  lemma FirstExactly(s0: State, h: nat)
    requires Init(s0) && s0.bound > 0 && h < |s0.hs| && !s0.hs[h].priority.BACKGROUND?
    ensures AlwaysFirst(s0, h) <==> s0.hs[h].priority.CRITICAL?
  {
    if s0.hs[h].priority.CRITICAL? {
      forall states: seq<State>, steps: seq<Step> | Run(states, steps) && states[0] == s0
        ensures HandlerFirst(states[|steps|], h)
      {
        CriticalHandlerFirst(states, steps, h);
      }
    } else {
      var states, steps := NormalSwaps(s0, h);
      var s := states[5];
      assert s.ran[0].f == s.accepted[1];
      assert !Precedes(s.ran, s.accepted[0], s.accepted[1]);
    }
  }
}
