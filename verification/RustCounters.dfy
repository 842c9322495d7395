/** What the Rust reactor's processed counters count. */
module RustCounters {
  import opened Mask
  import opened Routing
  import opened RustReactor
  import RustOrder

  lemma Increment(p: nat, c: nat, n: nat)
    requires (p + c) % U64 == n % U64
    ensures (p + (c + 1)) % U64 == (n + 1) % U64
  {
    ModAdd(p + c, 1);
    ModAdd(n, 1);
  }

  /** Published and pending counts of one priority tell the launches of that priority. */
  ghost predicate Told(hs: seq<Handler>, launched: seq<Call>, p: Priority, processed: nat, drain: nat) {
    (processed + drain) % U64 == |Of(hs, launched, {p})| % U64
  }

  lemma ToldLaunch(hs: seq<Handler>, launched: seq<Call>, p: Priority, processed: nat, drain: nat, c: Call)
    requires Told(hs, launched, p, processed, drain)
    ensures Told(hs, launched + [c], p, processed, if Has(hs, c.f, p) then drain + 1 else drain)
  {
    OfAppend(hs, launched, c, {p});
    Increment(processed, drain, |Of(hs, launched, {p})|);
  }

  lemma ToldPublish(hs: seq<Handler>, launched: seq<Call>, p: Priority, processed: nat, drain: nat)
    requires Told(hs, launched, p, processed, drain)
    ensures Told(hs, launched, p, WrappingAdd(processed, drain), 0)
  {
    ModAdd(processed + drain, 0);
  }

  ghost predicate Counted(s: State) {
    && Told(s.hs, s.launched, CRITICAL, s.processed.critical, s.drain.critical)
    && Told(s.hs, s.launched, NORMAL, s.processed.normal, s.drain.normal)
    && Told(s.hs, s.launched, BACKGROUND, s.processed.background, s.drain.background)
    && (s.main.DrainingCache? || s.main.Waiting? ==> s.drain.critical == 0 && s.drain.normal == 0)
    && (!s.main.DrainingCache? ==> s.drain.background == 0)
  }

  lemma LaunchCounted(s: State, c: Call)
    requires Counted(s)
    ensures var l := s.launched + [c];
            && Told(s.hs, l, CRITICAL, s.processed.critical, if Has(s.hs, c.f, CRITICAL) then s.drain.critical + 1 else s.drain.critical)
            && Told(s.hs, l, NORMAL, s.processed.normal, if Has(s.hs, c.f, NORMAL) then s.drain.normal + 1 else s.drain.normal)
            && Told(s.hs, l, BACKGROUND, s.processed.background,
                    if Has(s.hs, c.f, BACKGROUND) then s.drain.background + 1 else s.drain.background)
  {
    ToldLaunch(s.hs, s.launched, CRITICAL, s.processed.critical, s.drain.critical, c);
    ToldLaunch(s.hs, s.launched, NORMAL, s.processed.normal, s.drain.normal, c);
    ToldLaunch(s.hs, s.launched, BACKGROUND, s.processed.background, s.drain.background, c);
  }

  lemma PopCounted(s: State)
    requires Routed(s) && Counted(s) && Enabled(s, Pop)
    ensures Counted(Next(s, Pop))
  {
    PopCall(s);
    LaunchCounted(s, Call(s.queue[0], s.queue[0].handler));
  }

  lemma DrainCounted(s: State)
    requires Routed(s) && Counted(s) && Enabled(s, DrainSlot)
    ensures Counted(Next(s, DrainSlot))
  {
    if s.slots[s.main.i].content.Some? {
      DrainCall(s);
      LaunchCounted(s, CallOf(s.hs, s.slots[s.main.i].content.value));
    }
  }

  lemma InitCounted(s: State)
    requires Init(s)
    ensures Counted(s)
  {
  }

  lemma NextCounted(s: State, st: Step)
    requires Routed(s) && Counted(s) && Enabled(s, st)
    ensures Counted(Next(s, st))
  {
    match st
    case Pop => PopCounted(s);
    case DrainSlot => DrainCounted(s);
    case Publish =>
      ToldPublish(s.hs, s.launched, CRITICAL, s.processed.critical, s.drain.critical);
      ToldPublish(s.hs, s.launched, NORMAL, s.processed.normal, s.drain.normal);
    case EndDrain => ToldPublish(s.hs, s.launched, BACKGROUND, s.processed.background, s.drain.background);
    case RunSpawned(_) =>
    case _ => QuietFrame(s, st);
  }

  lemma {:induction false} RunCounted(states: seq<State>, steps: seq<Step>, n: nat)
    requires Run(states, steps) && n <= |steps|
    ensures Counted(states[n])
  {
    if n == 0 {
      InitCounted(states[0]);
    } else {
      RunRouted(states, steps, n - 1);
      RunCounted(states, steps, n - 1);
      NextCounted(states[n - 1], steps[n - 1]);
    }
  }

  /** Whenever the event loop waits its processed counters are, modulo 2^64, the callbacks launched for each priority. */
  lemma CountersExact(states: seq<State>, steps: seq<Step>, n: nat)
    requires Run(states, steps) && n <= |steps| && states[n].main.Waiting?
    ensures var s := states[n];
            && s.processed.critical % U64 == |Of(s.hs, s.launched, {CRITICAL})| % U64
            && s.processed.normal % U64 == |Of(s.hs, s.launched, {NORMAL})| % U64
            && s.processed.background % U64 == |Of(s.hs, s.launched, {BACKGROUND})| % U64
  {
    RunCounted(states, steps, n);
  }

  // --- launched and run ---

  function Processed(s: State, p: Priority): nat {
    match p
    case CRITICAL => s.processed.critical
    case NORMAL => s.processed.normal
    case BACKGROUND => s.processed.background
  }

  lemma {:induction false} OfNone(hs: seq<Handler>, calls: seq<Call>, p: Priority)
    ensures |Of(hs, calls, {p})| == 0 <==> forall k :: 0 <= k < |calls| ==> !Has(hs, calls[k].f, p)
  {
    if calls != [] {
      var n := |calls| - 1;
      OfNone(hs, calls[..n], p);
      assert forall k :: 0 <= k < n ==> calls[..n][k] == calls[k];
    }
  }

  lemma {:induction false} OfRemove(hs: seq<Handler>, calls: seq<Call>, k: nat, p: Priority)
    requires k < |calls|
    ensures |Of(hs, calls, {p})| == |Of(hs, calls[..k] + calls[k + 1..], {p})| + (if Has(hs, calls[k].f, p) then 1 else 0)
  {
    var n := |calls| - 1;
    if k < n {
      OfRemove(hs, calls[..n], k, p);
      var rest := calls[..k] + calls[k + 1..];
      assert rest[..|rest| - 1] == calls[..n][..k] + calls[..n][k + 1..];
    } else {
      assert calls[..k] + calls[k + 1..] == calls[..n];
    }
  }

  lemma WithoutCall(calls: seq<Call>, k: nat)
    requires k < |calls|
    ensures multiset(calls[..k] + calls[k + 1..]) == multiset(calls) - multiset{calls[k]}
  {
    assert calls == calls[..k] + [calls[k]] + calls[k + 1..];
  }

  /** The launches without the last one that ran. */
  lemma TakeOut(hs: seq<Handler>, launched: seq<Call>, spawned: multiset<Call>, ran: seq<Call>, p: Priority) returns (rest: seq<Call>)
    requires multiset(launched) == spawned + multiset(ran) && ran != []
    ensures multiset(rest) == spawned + multiset(ran[..|ran| - 1])
    ensures |Of(hs, launched, {p})| == |Of(hs, rest, {p})| + (if Has(hs, ran[|ran| - 1].f, p) then 1 else 0)
  {
    var n := |ran| - 1;
    WithoutCall(ran, n);
    assert ran[..n] + ran[n + 1..] == ran[..n];
    assert ran[n] in multiset(launched);
    var k :| 0 <= k < |launched| && launched[k] == ran[n];
    WithoutCall(launched, k);
    OfRemove(hs, launched, k, p);
    rest := launched[..k] + launched[k + 1..];
  }

  /** As many callbacks of a priority have run as were launched exactly when none of them is on the pool. */
  lemma {:induction false} RunOfLaunched(hs: seq<Handler>, launched: seq<Call>, spawned: multiset<Call>, ran: seq<Call>, p: Priority)
    requires multiset(launched) == spawned + multiset(ran)
    ensures |Of(hs, ran, {p})| <= |Of(hs, launched, {p})|
    ensures |Of(hs, ran, {p})| == |Of(hs, launched, {p})| <==> forall c :: c in spawned ==> !Has(hs, c.f, p)
    decreases |ran|
  {
    if ran == [] {
      NothingRan(hs, launched, spawned, p);
    } else {
      var rest := TakeOut(hs, launched, spawned, ran, p);
      RunOfLaunched(hs, rest, spawned, ran[..|ran| - 1], p);
    }
  }

  lemma NothingRan(hs: seq<Handler>, launched: seq<Call>, spawned: multiset<Call>, p: Priority)
    requires multiset(launched) == spawned
    ensures |Of(hs, launched, {p})| == 0 <==> forall c :: c in spawned ==> !Has(hs, c.f, p)
  {
    OfNone(hs, launched, p);
    assert forall k :: 0 <= k < |launched| ==> launched[k] in spawned;
    forall c | c in spawned ensures exists k :: 0 <= k < |launched| && launched[k] == c {
      assert c in multiset(launched);
    }
  }

  lemma {:induction false} OfAtMost(hs: seq<Handler>, calls: seq<Call>, p: Priority)
    ensures |Of(hs, calls, {p})| <= |calls|
  {
    if calls != [] {
      OfAtMost(hs, calls[..|calls| - 1], p);
    }
  }

  /** Whenever the event loop waits, in every run with fewer than 2^64 callbacks, a processed counter is the number of
      callbacks of its priority that have run if and only if none of them is on the pool; for CRITICAL it always is. */
  lemma CountersTellRun(states: seq<State>, steps: seq<Step>, n: nat, p: Priority)
    requires Run(states, steps) && n <= |steps| && states[n].main.Waiting? && |states[n].launched| < U64
    ensures var s := states[n];
            && (Processed(s, p) % U64 == |Of(s.hs, s.ran, {p})| <==> forall c :: c in s.spawned ==> !Has(s.hs, c.f, p))
            && (p.CRITICAL? ==> Processed(s, p) % U64 == |Of(s.hs, s.ran, {p})|)
  {
    var s := states[n];
    RunCalls(states, steps, n);
    CountersExact(states, steps, n);
    RunOfLaunched(s.hs, s.launched, s.spawned, s.ran, p);
    OfAtMost(s.hs, s.launched, p);
    SmallMod(|Of(s.hs, s.launched, {p})|);
  }

  lemma SmallMod(x: nat)
    requires x < U64
    ensures x % U64 == x
  {
  }

  /** A NORMAL callback is counted as processed before it has run. */
  lemma CountedBeforeRun(s0: State, h: nat) returns (states: seq<State>, steps: seq<Step>)
    requires Init(s0) && s0.bound > 0 && s0.keys == [] && h < |s0.hs| && s0.hs[h].priority.NORMAL?
    ensures Run(states, steps) && states[0] == s0 && |steps| == 5
    ensures states[5].main.Waiting? && states[5].processed.normal % U64 == 1 && states[5].ran == []
  {
    var c := Call(Frame(h, 0), h);
    states, steps := RustOrder.Round([s0], [], h, 0, multiset{});
    assert RustOrder.At(states[2], [], multiset{c}, []);
    states, steps := RustOrder.More(states, steps, SeeEmpty);
    states, steps := RustOrder.More(states, steps, Publish);
    RunRouted(states, steps, 4);
    RustOrder.SameHandlers(states, steps, 4);
    states, steps := RustOrder.More(states, steps, EndDrain);
    CountersExact(states, steps, 5);
    assert states[5].launched == [c];
    RustOrder.SameHandlers(states, steps, 5);
    OfAppend(s0.hs, [], c, {NORMAL});
  }
}
