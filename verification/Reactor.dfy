/** The reactor as an object on the heap: registration, statistics, and one `handle_events` call up to its wait,
    with no other thread in between. */
module Reactor {
  import opened Collections
  import opened Mask
  import opened Routing
  import Accounting
  import Fnv
  import Latency
  import Q = MpscQueue
  import L = LatestCache

  /** A user callback that ran: the position of its handler, and the payload it was given. */
  datatype Ran<T> = Ran(handler: nat, payload: T)

  // --- what a drain of either channel runs ---

  /** The callback a sample runs: none when its hash is not in the index. */
  function RunOf<T>(index: map<Fnv.Word, nat>, x: L.Sample<T>): seq<Ran<T>> {
    if x.hash in index then [Ran(index[x.hash], x.payload)] else []
  }

  /** The callbacks that samples run, in order. */
  function Runs<T>(index: map<Fnv.Word, nat>, xs: seq<L.Sample<T>>): seq<Ran<T>> {
    if xs == [] then [] else Runs(index, xs[..|xs| - 1]) + RunOf(index, xs[|xs| - 1])
  }

  /** How many of the callbacks belong to handlers of a priority. */
  function CountRuns<T>(hs: seq<Handler>, runs: seq<Ran<T>>, p: Priority): (n: nat)
    ensures n <= |runs|
  {
    if runs == [] then 0
    else
      var r := runs[|runs| - 1];
      CountRuns(hs, runs[..|runs| - 1], p) + (if r.handler < |hs| && hs[r.handler].priority == p then 1 else 0)
  }

  /** The count is the number of positions whose callback belongs to a handler of the priority. */
  lemma {:induction false} CountIsCardinality<T>(hs: seq<Handler>, runs: seq<Ran<T>>, p: Priority)
    ensures CountRuns(hs, runs, p) == |set k | 0 <= k < |runs| && runs[k].handler < |hs| && hs[runs[k].handler].priority == p|
  {
    var places := set k | 0 <= k < |runs| && runs[k].handler < |hs| && hs[runs[k].handler].priority == p;
    if runs != [] {
      var n := |runs| - 1;
      var front := runs[..n];
      CountIsCardinality(hs, front, p);
      var before := set k | 0 <= k < |front| && front[k].handler < |hs| && hs[front[k].handler].priority == p;
      if runs[n].handler < |hs| && hs[runs[n].handler].priority == p {
        assert places == before + {n};
      } else {
        assert places == before;
      }
    }
  }

  /** The size of a latency window of `n` samples after `k` more. */
  function Grown(n: nat, k: nat): nat {
    if n + k <= Latency.WINDOW then n + k else Latency.WINDOW
  }

  datatype WindowSizes = WindowSizes(critical: nat, normal: nat, background: nat)

  /** The sizes after the latencies of these callbacks, and of `k` slot callbacks, were recorded. */
  ghost function GrownBy<T>(z: WindowSizes, hs: seq<Handler>, runs: seq<Ran<T>>): WindowSizes {
    WindowSizes(Grown(z.critical, CountRuns(hs, runs, CRITICAL)), Grown(z.normal, CountRuns(hs, runs, NORMAL)),
                Grown(z.background, CountRuns(hs, runs, BACKGROUND)))
  }

  ghost function GrownBySlots(z: WindowSizes, k: nat): WindowSizes {
    z.(background := Grown(z.background, k))
  }

  /** The hashes of the BACKGROUND handlers. */
  function BackgroundHashes(hs: seq<Handler>): set<Fnv.Word> {
    if hs == [] then {}
    else
      var h := hs[|hs| - 1];
      BackgroundHashes(hs[..|hs| - 1]) + (if h.priority.BACKGROUND? then {h.hash} else {})
  }

  lemma {:induction false} HashesOfBackground(hs: seq<Handler>)
    ensures forall g :: g in BackgroundHashes(hs) <==> InBackground(hs, g)
  {
    if hs != [] {
      var n := |hs| - 1;
      HashesOfBackground(hs[..n]);
      forall g | InBackground(hs, g)
        ensures g in BackgroundHashes(hs)
      {
        var k :| 0 <= k < |hs| && hs[k].priority.BACKGROUND? && hs[k].hash == g;
        assert k < n ==> hs[..n][k] == hs[k];
      }
      forall g | g in BackgroundHashes(hs)
        ensures InBackground(hs, g)
      {
        if g in BackgroundHashes(hs[..n]) {
          var k :| 0 <= k < n && hs[..n][k].priority.BACKGROUND? && hs[..n][k].hash == g;
          assert hs[k].priority.BACKGROUND? && hs[k].hash == g;
        } else {
          assert hs[n].priority.BACKGROUND? && hs[n].hash == g;
        }
      }
    }
  }

  lemma HashesStep(hs: seq<Handler>, i: nat)
    requires i < |hs|
    ensures BackgroundHashes(hs[..i + 1])
         == BackgroundHashes(hs[..i]) + (if hs[i].priority.BACKGROUND? then {hs[i].hash} else {})
  {
    assert hs[..i + 1][..i] == hs[..i];
  }

  /** Distinct slots for the hashes known before and those of the BACKGROUND handlers: when the former are among the
      latter these are the slots the loop needs. */
  lemma KeysAllocated(hs: seq<Handler>, known: set<Fnv.Word>, keys: set<Fnv.Word>, order: seq<Fnv.Word>)
    requires keys == known + BackgroundHashes(hs[..|hs|])
    requires forall i :: 0 <= i < |order| ==> order[i] in keys
    requires forall h :: h in keys ==> h in order
    requires forall i, j :: 0 <= i < j < |order| ==> order[i] != order[j]
    ensures keys == known + BackgroundHashes(hs)
    ensures known <= BackgroundHashes(hs) ==> Allocated(hs, order)
  {
    assert hs[..|hs|] == hs;
    HashesOfBackground(hs);
  }

  lemma RunsAppend<T>(index: map<Fnv.Word, nat>, xs: seq<L.Sample<T>>, x: L.Sample<T>)
    ensures Runs(index, xs + [x]) == Runs(index, xs) + RunOf(index, x)
  {
    assert (xs + [x])[..|xs|] == xs;
  }

  /** What one more dispatch adds. */
  lemma CountRunsAppend<T>(hs: seq<Handler>, runs: seq<Ran<T>>, run: seq<Ran<T>>, p: Priority)
    requires |run| <= 1
    ensures CountRuns(hs, runs + run, p) == CountRuns(hs, runs, p) + CountRuns(hs, run, p)
  {
    if run == [] {
      assert runs + run == runs;
    } else {
      assert (runs + run)[..|runs|] == runs;
      assert run[..0] == [];
    }
  }

  /** Growing by one more dispatch. */
  lemma SizesStep<T>(z: WindowSizes, hs: seq<Handler>, runs: seq<Ran<T>>, run: seq<Ran<T>>)
    requires |run| <= 1
    ensures GrownBy(GrownBy(z, hs, runs), hs, run) == GrownBy(z, hs, runs + run)
  {
    CountRunsAppend(hs, runs, run, CRITICAL);
    CountRunsAppend(hs, runs, run, NORMAL);
    CountRunsAppend(hs, runs, run, BACKGROUND);
  }

  lemma OneRun<T>(hs: seq<Handler>, run: seq<Ran<T>>)
    requires |run| <= 1
    ensures forall p :: CountRuns(hs, run, p) == if |run| == 1 && run[0].handler < |hs| && hs[run[0].handler].priority == p then 1 else 0
  {
    if run != [] {
      assert run[..0] == [];
    }
  }

  /** What a drain has run, and counted, for the frames it has taken so far. */
  ghost predicate Tallied<T>(index: map<Fnv.Word, nat>, hs: seq<Handler>, done: seq<L.Sample<T>>, runs: seq<Ran<T>>, c: nat, n: nat) {
    runs == Runs(index, done) && c == CountRuns(hs, runs, CRITICAL) && c + n == |runs|
  }

  lemma TallyStep<T>(index: map<Fnv.Word, nat>, hs: seq<Handler>, done: seq<L.Sample<T>>, runs: seq<Ran<T>>, c: nat, n: nat,
                     x: L.Sample<T>, c': nat, n': nat, rest: seq<L.Sample<T>>)
    requires Tallied(index, hs, done, runs, c, n)
    requires c' == CountRuns(hs, RunOf(index, x), CRITICAL) && c' + n' == |RunOf(index, x)|
    ensures Tallied(index, hs, done + [x], runs + RunOf(index, x), c + c', n + n')
    ensures done + ([x] + rest) == (done + [x]) + rest
  {
    RunsAppend(index, done, x);
    CountRunsAppend(hs, runs, RunOf(index, x), CRITICAL);
  }

  /** When every hash is registered each sample runs its handler's callback once, in order. */
  lemma {:induction false} RunsComplete<T>(index: map<Fnv.Word, nat>, xs: seq<L.Sample<T>>)
    requires forall k :: 0 <= k < |xs| ==> xs[k].hash in index
    ensures |Runs(index, xs)| == |xs|
    ensures forall k :: 0 <= k < |xs| ==> Runs(index, xs)[k] == Ran(index[xs[k].hash], xs[k].payload)
  {
    if xs != [] {
      RunsComplete(index, xs[..|xs| - 1]);
    }
  }

  class DataFlowReactor<T> {
    var handlers: seq<Handler>
    var handlerIndex: map<Fnv.Word, nat>
    const queue: Q.MPSCQueue<L.Sample<T>>
    const cache: L.LatestSampleCache<T>

    var criticalProcessed: nat
    var normalProcessed: nat
    var backgroundProcessed: nat
    var criticalDropped: nat
    var normalDropped: nat
    var backgroundDropped: nat
    var criticalCountLast: nat
    var normalCountLast: nat
    var lastQueueDropped: nat
    var lastBgDropped: nat
    var criticalLatencies: seq<real>
    var normalLatencies: seq<real>
    var backgroundLatencies: seq<real>

    var ran: seq<Ran<T>>            // the user callbacks that have run

    /** The index is that of the registered handlers. */
    ghost predicate Registered()
      reads this`handlers, this`handlerIndex
    {
      Hashed(handlers) && handlerIndex == Index(handlers)
    }

    ghost predicate Windowed()
      reads this`criticalLatencies, this`normalLatencies, this`backgroundLatencies
    {
      && |criticalLatencies| <= Latency.WINDOW
      && |normalLatencies| <= Latency.WINDOW
      && |backgroundLatencies| <= Latency.WINDOW
    }

    /** The numbers of samples in the three windows. */
    ghost function Sizes(): WindowSizes
      reads this`criticalLatencies, this`normalLatencies, this`backgroundLatencies
    {
      WindowSizes(|criticalLatencies|, |normalLatencies|, |backgroundLatencies|)
    }

    /** The state of the ring's drop attribution. */
    ghost function Account(): Accounting.Account
      reads this`criticalDropped, this`normalDropped, this`lastQueueDropped
      reads this`criticalCountLast, this`normalCountLast
    {
      Accounting.Account(criticalDropped, normalDropped, lastQueueDropped, criticalCountLast, normalCountLast)
    }

    /** What only the ring's half of a cycle changes. */
    ghost function RingBooks(): (Accounting.Account, nat, nat)
      reads this`criticalDropped, this`normalDropped, this`lastQueueDropped
      reads this`criticalCountLast, this`normalCountLast, this`criticalProcessed, this`normalProcessed
    {
      (Account(), criticalProcessed, normalProcessed)
    }

    constructor (queue: Q.MPSCQueue<L.Sample<T>>, cache: L.LatestSampleCache<T>)
      ensures Registered() && Windowed() && this.queue == queue && this.cache == cache
      ensures handlers == [] && Account() == Accounting.FRESH && ran == []
    {
      this.queue, this.cache := queue, cache;
      handlers, handlerIndex, ran := [], map[], [];
      criticalProcessed, normalProcessed, backgroundProcessed := 0, 0, 0;
      criticalDropped, normalDropped, backgroundDropped := 0, 0, 0;
      criticalCountLast, normalCountLast, lastQueueDropped, lastBgDropped := 0, 0, 0, 0;
      criticalLatencies, normalLatencies, backgroundLatencies := [], [], [];
    }

    /** Appends a handler; the index keeps the first handler of a hash. */
    method RegisterHandler(path: Fnv.Path, priority: Priority)
      requires Registered()
      modifies this`handlers, this`handlerIndex
      ensures Registered()
      ensures handlers == old(handlers) + [Handler(path, Fnv.Hash(path), priority)]
    {
      var hash := Fnv.Fnv1aHash(path);
      var idx := |handlers|;
      handlers := handlers + [Handler(path, hash, priority)];
      assert handlers[..idx] == old(handlers);
      if hash !in handlerIndex {
        handlerIndex := handlerIndex[hash := idx];
      }
    }

    /** The start of `run`: a blank slot for every BACKGROUND handler that has none. */
    method AllocateSlots(ghost s: seq<L.SlotState<T>>) returns (ghost added: seq<L.SlotState<T>>)
      requires cache.Valid() && cache.Complete() && cache.Shows(s)
      modifies cache
      ensures cache.Valid() && cache.Complete() && cache.Shows(s + added) && L.Blank(added)
      ensures cache.slots.Keys == old(cache.slots.Keys) + BackgroundHashes(handlers)
      ensures old(cache.slots.Keys) <= BackgroundHashes(handlers) ==> Allocated(handlers, cache.order)
    {
      added := [];
      assert s + added == s;
      var hs := handlers;
      ghost var known := cache.slots.Keys;
      for i := 0 to |hs|
        invariant cache.Valid() && cache.Complete() && cache.Shows(s + added) && L.Blank(added)
        invariant cache.slots.Keys == known + BackgroundHashes(hs[..i])
      {
        HashesStep(hs, i);
        if hs[i].priority.BACKGROUND? {
          ghost var more := cache.PreAllocate(hs[i].hash, s + added);
          L.Joined(s, added, more);
          added := added + more;
        }
      }
      KeysAllocated(hs, known, cache.slots.Keys, cache.order);
    }

    /** A callback with a verified frame for handler `k`: into the ring, or into the slot of its hash. The eventfd is
        written for an accepted CRITICAL frame and for no other. */
    method HandleFrame(k: nat, payload: T, ghost slots: seq<L.SlotState<T>>) returns (wake: bool, ghost now: seq<L.SlotState<T>>)
      requires k < |handlers| && queue.Valid() && cache.Valid() && cache.Complete() && cache.Shows(slots)
      modifies queue`tail, queue`dropped, queue.buffer, cache.repr
      ensures queue.Valid() && cache.Shows(now)
      ensures var h := handlers[k];
              var x := L.Sample(h.hash, payload);
              if h.priority.BACKGROUND? then
                && now == L.Offered(slots, x) && !wake
                && queue.Contents() == old(queue.Contents()) && queue.dropped == old(queue.dropped)
              else
                var room := |old(queue.Contents())| < queue.capacity - 1;
                && now == slots && (wake <==> room && h.priority.CRITICAL?)
                && queue.Contents() == old(queue.Contents()) + (if room then [x] else [])
                && queue.dropped == (if room then old(queue.dropped) else WrappingAdd(old(queue.dropped), 1))
    {
      var h := handlers[k];
      now, wake := slots, false;
      if h.priority.BACKGROUND? {
        cache.Offer(h.hash, payload, slots);
        now := L.Offered(slots, L.Sample(h.hash, payload));
      } else {
        var pushed := queue.Push(L.Sample(h.hash, payload));
        wake := pushed && h.priority.CRITICAL?;
      }
    }

    /** Attributes the drops counted by the ring since the last call. */
    method SyncDropped()
      requires queue.dropped < U64
      modifies this`lastQueueDropped, this`criticalDropped, this`normalDropped
      ensures Account() == Accounting.Synced(old(Account()), queue.dropped)
      ensures Sizes() == old(Sizes())
    {
      var current := queue.dropped;
      var added := WrappingSub(current, lastQueueDropped);
      lastQueueDropped := current;
      if added > 0 {
        var total := WrappingAdd(criticalCountLast, normalCountLast);
        if total > 0 {
          var part := Accounting.CriticalPart(added, criticalCountLast, total);
          criticalDropped := WrappingAdd(criticalDropped, part);
          normalDropped := WrappingAdd(normalDropped, WrappingSub(added, part));
        } else {
          criticalDropped := WrappingAdd(criticalDropped, added);
        }
      }
    }

    /** Adds a sample to the window of its priority and to no other. */
    method RecordLatency(priority: Priority, latency: real)
      requires Windowed()
      modifies this`criticalLatencies, this`normalLatencies, this`backgroundLatencies
      ensures Windowed()
      ensures criticalLatencies ==
              if priority.CRITICAL? then Latency.Record(old(criticalLatencies), latency) else old(criticalLatencies)
      ensures normalLatencies ==
              if priority.NORMAL? then Latency.Record(old(normalLatencies), latency) else old(normalLatencies)
      ensures backgroundLatencies ==
              if priority.BACKGROUND? then Latency.Record(old(backgroundLatencies), latency) else old(backgroundLatencies)
    {
      match priority
      case CRITICAL =>
        criticalLatencies := criticalLatencies + [latency];
        if |criticalLatencies| > Latency.WINDOW {
          criticalLatencies := criticalLatencies[1..];
        }
      case NORMAL =>
        normalLatencies := normalLatencies + [latency];
        if |normalLatencies| > Latency.WINDOW {
          normalLatencies := normalLatencies[1..];
        }
      case BACKGROUND =>
        backgroundLatencies := backgroundLatencies + [latency];
        if |backgroundLatencies| > Latency.WINDOW {
          backgroundLatencies := backgroundLatencies[1..];
        }
    }

    method ClearWindows()
      modifies this`criticalLatencies, this`normalLatencies, this`backgroundLatencies
      ensures Windowed() && criticalLatencies == [] && normalLatencies == [] && backgroundLatencies == []
    {
      criticalLatencies, normalLatencies, backgroundLatencies := [], [], [];
    }

    /** Zeroes the statistics and moves the baselines to the counters' current values. */
    method ResetStats(ghost slots: seq<L.SlotState<T>>)
      requires cache.Shows(slots) && queue.dropped < U64
      modifies this`criticalProcessed, this`normalProcessed, this`backgroundProcessed
      modifies this`criticalDropped, this`normalDropped, this`backgroundDropped
      modifies this`lastQueueDropped, this`lastBgDropped, this`criticalCountLast, this`normalCountLast
      modifies this`criticalLatencies, this`normalLatencies, this`backgroundLatencies
      ensures Windowed()
      ensures Account() == Accounting.Account(0, 0, queue.dropped, 0, 0)
      ensures criticalProcessed == 0 && normalProcessed == 0 && backgroundProcessed == 0
      ensures backgroundDropped == 0 && lastBgDropped == L.Dropped(slots) % U64
      ensures criticalLatencies == [] && normalLatencies == [] && backgroundLatencies == []
    {
      var total := cache.GetTotalDropped(slots);
      criticalProcessed, criticalDropped, normalProcessed, normalDropped, backgroundProcessed, backgroundDropped :=
        0, 0, 0, 0, 0, 0;
      lastQueueDropped, lastBgDropped, criticalCountLast, normalCountLast := queue.dropped, total, 0, 0;
      ClearWindows();
    }

    /** Looks a ring sample up, records its latency, and runs its handler's callback. */
    method DispatchRing(x: L.Sample<T>, latency: real) returns (critical: nat, normal: nat)
      requires Registered() && Windowed()
      modifies this`criticalLatencies, this`normalLatencies, this`backgroundLatencies, this`ran
      ensures Windowed() && ran == old(ran) + RunOf(handlerIndex, x)
      ensures x.hash in handlerIndex ==>
                var i := handlerIndex[x.hash];
                && i < |handlers|
                && critical == (if handlers[i].priority == CRITICAL then 1 else 0) && critical + normal == 1
                && criticalLatencies == (if handlers[i].priority == CRITICAL then Latency.Record(old(criticalLatencies), latency) else old(criticalLatencies))
                && normalLatencies == (if handlers[i].priority == NORMAL then Latency.Record(old(normalLatencies), latency) else old(normalLatencies))
                && backgroundLatencies == (if handlers[i].priority == BACKGROUND then Latency.Record(old(backgroundLatencies), latency) else old(backgroundLatencies))
      ensures x.hash !in handlerIndex ==>
                && critical == normal == 0 && criticalLatencies == old(criticalLatencies)
                && normalLatencies == old(normalLatencies) && backgroundLatencies == old(backgroundLatencies)
    {
      critical, normal := 0, 0;
      if x.hash in handlerIndex {
        var i := handlerIndex[x.hash];
        IndexIsFirst(handlers);
        assert First(handlers, x.hash, i);
        RecordLatency(handlers[i].priority, latency);
        ran := ran + [Ran(i, x.payload)];
        if handlers[i].priority.CRITICAL? {
          critical := 1;
        } else {
          normal := 1;
        }
      }
    }

    /** Pops and dispatches one frame, if there is one. */
    method ServeOne() returns (served: bool, critical: nat, normal: nat, ghost x: Option<L.Sample<T>>)
      requires Registered() && Windowed() && queue.Valid()
      modifies this`criticalLatencies, this`normalLatencies, this`backgroundLatencies, this`ran
      modifies queue`head, queue.buffer
      ensures Windowed() && queue.Valid()
      ensures served == x.Some?
      ensures old(queue.Contents()) == (if served then [x.value] else []) + queue.Contents()
      ensures !served ==> queue.Contents() == [] && ran == old(ran) && Sizes() == old(Sizes())
      ensures served ==> var run := RunOf(handlerIndex, x.value);
                         && ran == old(ran) + run
                         && critical == CountRuns(handlers, run, CRITICAL) && critical + normal == |run|
                         && Sizes() == GrownBy(old(Sizes()), handlers, run)
    {
      critical, normal := 0, 0;
      var item := queue.Pop();
      served, x := item.Some?, item;
      if item.Some? {
        var latency: real := *;
        critical, normal := DispatchRing(item.value, latency);
        OneRun(handlers, RunOf(handlerIndex, item.value));
      }
    }

    /** Serves frames until the ring is empty. */
    method DrainQueue() returns (critical: nat, normal: nat, ghost runs: seq<Ran<T>>)
      requires Registered() && Windowed() && queue.Valid()
      modifies this`criticalLatencies, this`normalLatencies, this`backgroundLatencies, this`ran
      modifies queue`head, queue.buffer
      ensures Windowed() && queue.Valid() && queue.Contents() == []
      ensures runs == Runs(handlerIndex, old(queue.Contents())) && ran == old(ran) + runs
      ensures critical == CountRuns(handlers, runs, CRITICAL) && critical + normal == |runs|
      ensures Sizes() == GrownBy(old(Sizes()), handlers, runs)
    {
      critical, normal, runs := 0, 0, [];
      ghost var done: seq<L.Sample<T>> := [];
      var more := true;
      while more
        invariant Windowed() && queue.Valid()
        invariant old(queue.Contents()) == done + queue.Contents()
        invariant Tallied(handlerIndex, handlers, done, runs, critical, normal) && ran == old(ran) + runs
        invariant Sizes() == GrownBy(old(Sizes()), handlers, runs)
        invariant !more ==> queue.Contents() == []
        decreases more, |queue.Contents()|
      {
        var c, n;
        ghost var x;
        more, c, n, x := ServeOne();
        if more {
          TallyStep(handlerIndex, handlers, done, runs, critical, normal, x.value, c, n, queue.Contents());
          SizesStep(old(Sizes()), handlers, runs, RunOf(handlerIndex, x.value));
          runs := runs + RunOf(handlerIndex, x.value);
          critical, normal := critical + c, normal + n;
          done := done + [x.value];
        }
      }
      assert done == old(queue.Contents());
    }

    /** Looks a slot's sample up and runs its handler's callback. */
    method DispatchSlot(x: L.Sample<T>, latency: real) returns (count: nat)
      requires Windowed()
      modifies this`criticalLatencies, this`normalLatencies, this`backgroundLatencies, this`ran
      ensures Windowed()
      ensures ran == old(ran) + RunOf(handlerIndex, x) && count == |RunOf(handlerIndex, x)|
      ensures backgroundLatencies == (if x.hash in handlerIndex then Latency.Record(old(backgroundLatencies), latency) else old(backgroundLatencies))
      ensures criticalLatencies == old(criticalLatencies) && normalLatencies == old(normalLatencies)
    {
      count := 0;
      if x.hash in handlerIndex {
        RecordLatency(BACKGROUND, latency);
        ran := ran + [Ran(handlerIndex[x.hash], x.payload)];
        count := 1;
      }
    }

    /** Takes and dispatches the sample of every slot. */
    method DrainCache(ghost slots: seq<L.SlotState<T>>) returns (count: nat, ghost runs: seq<Ran<T>>)
      requires Windowed() && cache.Valid() && cache.Shows(slots)
      modifies this`criticalLatencies, this`normalLatencies, this`backgroundLatencies, this`ran, cache.repr
      ensures Windowed() && cache.Shows(L.Drained(slots, {})) && cache.Emptied()
      ensures runs == Runs(handlerIndex, L.Waiting(slots, {})) && ran == old(ran) + runs && count == |runs|
      ensures Sizes() == GrownBySlots(old(Sizes()), |runs|)
      ensures RingBooks() == old(RingBooks())
    {
      var samples := cache.Drain({}, slots);
      count, runs := DispatchSlots(samples);
      cache.DrainedEmpty(slots);
    }

    method DispatchSlots(samples: seq<L.Sample<T>>) returns (count: nat, ghost runs: seq<Ran<T>>)
      requires Windowed()
      modifies this`criticalLatencies, this`normalLatencies, this`backgroundLatencies, this`ran
      ensures Windowed()
      ensures runs == Runs(handlerIndex, samples) && ran == old(ran) + runs && count == |runs|
      ensures Sizes() == GrownBySlots(old(Sizes()), |runs|)
    {
      count, runs := 0, [];
      for k := 0 to |samples|
        invariant Windowed()
        invariant runs == Runs(handlerIndex, samples[..k]) && ran == old(ran) + runs && count == |runs|
        invariant Sizes() == GrownBySlots(old(Sizes()), |runs|)
      {
        RunsAppend(handlerIndex, samples[..k], samples[k]);
        assert samples[..k + 1] == samples[..k] + [samples[k]];
        var latency: real := *;
        var c := DispatchSlot(samples[k], latency);
        runs := runs + RunOf(handlerIndex, samples[k]);
        count := count + c;
      }
      assert samples[..|samples|] == samples;
    }

    /** Counts the callbacks of a ring drain. */
    method CountRing(critical: nat, normal: nat)
      modifies this`criticalProcessed, this`normalProcessed, this`criticalCountLast, this`normalCountLast
      ensures Account() == Accounting.Apply(old(Account()), Accounting.Drained(critical, normal))
      ensures criticalProcessed == WrappingAdd(old(criticalProcessed), critical)
      ensures normalProcessed == WrappingAdd(old(normalProcessed), normal)
      ensures Sizes() == old(Sizes())
    {
      criticalProcessed := WrappingAdd(criticalProcessed, critical);
      normalProcessed := WrappingAdd(normalProcessed, normal);
      criticalCountLast := critical % U64;
      normalCountLast := normal % U64;
    }

    /** Counts the callbacks of a slot drain and the samples the slots have dropped since the last scan. */
    method CountSlots(count: nat, total: nat)
      modifies this`backgroundProcessed, this`backgroundDropped, this`lastBgDropped
      ensures backgroundProcessed == WrappingAdd(old(backgroundProcessed), count) && lastBgDropped == total
      ensures backgroundDropped == WrappingAdd(old(backgroundDropped), WrappingSub(total, old(lastBgDropped)))
      ensures RingBooks() == old(RingBooks())
    {
      backgroundProcessed := WrappingAdd(backgroundProcessed, count);
      var added := WrappingSub(total, lastBgDropped);
      lastBgDropped := total;
      backgroundDropped := WrappingAdd(backgroundDropped, added);
    }

    /** The first half of a cycle: attribute drops, then empty the ring. */
    method ServeRing() returns (ghost runs: seq<Ran<T>>, ghost critical: nat, ghost account: Accounting.Account)
      requires Registered() && Windowed() && queue.Valid()
      modifies this`lastQueueDropped, this`criticalDropped, this`normalDropped, this`criticalCountLast, this`normalCountLast
      modifies this`criticalProcessed, this`normalProcessed, this`ran
      modifies this`criticalLatencies, this`normalLatencies, this`backgroundLatencies
      modifies queue`head, queue.buffer
      ensures Windowed() && queue.Valid() && queue.Contents() == []
      ensures runs == Runs(handlerIndex, old(queue.Contents())) && ran == old(ran) + runs
      ensures critical == CountRuns(handlers, runs, CRITICAL)
      ensures account == Accounting.Cycled(old(Account()), queue.dropped, critical, |runs| - critical)
      ensures Account() == account
      ensures criticalProcessed == WrappingAdd(old(criticalProcessed), critical)
      ensures normalProcessed == WrappingAdd(old(normalProcessed), |runs| - critical)
      ensures backgroundProcessed == old(backgroundProcessed) && backgroundDropped == old(backgroundDropped)
      ensures lastBgDropped == old(lastBgDropped)
      ensures Sizes() == GrownBy(old(Sizes()), handlers, runs)
    {
      SyncDropped();
      var c, n;
      c, n, runs := DrainQueue();
      critical := c;
      CountRing(c, n);
      account := Account();
    }

    /** The second half: empty the slots, then read their drop counters. */
    method ServeSlots(ghost slots: seq<L.SlotState<T>>) returns (ghost runs: seq<Ran<T>>)
      requires Windowed() && cache.Valid() && cache.Shows(slots)
      modifies this`backgroundProcessed, this`backgroundDropped, this`lastBgDropped, this`ran
      modifies this`criticalLatencies, this`normalLatencies, this`backgroundLatencies
      modifies cache.repr
      ensures Windowed() && cache.Shows(L.Drained(slots, {})) && cache.Emptied()
      ensures runs == Runs(handlerIndex, L.Waiting(slots, {})) && ran == old(ran) + runs
      ensures backgroundProcessed == WrappingAdd(old(backgroundProcessed), |runs|)
      ensures lastBgDropped == L.Dropped(slots) % U64
      ensures backgroundDropped == WrappingAdd(old(backgroundDropped), WrappingSub(lastBgDropped, old(lastBgDropped)))
      ensures Sizes() == GrownBySlots(old(Sizes()), |runs|)
      ensures RingBooks() == old(RingBooks())
    {
      L.DrainDropsNothing(slots, {});
      var count;
      count, runs := DrainCache(slots);
      var total := cache.GetTotalDropped(L.Drained(slots, {}));
      CountSlots(count, total);
      cache.DrainedEmpty(slots);
    }

    /** One cycle up to its wait. The callbacks run are those of the ring's frames, in order, then those of the
        slots; both channels are left empty; and every drop and every callback is accounted for. */
    method HandleEvents(ghost slots: seq<L.SlotState<T>>)
      returns (ghost ringRuns: seq<Ran<T>>, ghost slotRuns: seq<Ran<T>>, ghost critical: nat, ghost account: Accounting.Account)
      requires Registered() && Windowed() && queue.Valid() && cache.Valid() && cache.Shows(slots)
      modifies this`lastQueueDropped, this`criticalDropped, this`normalDropped, this`criticalCountLast, this`normalCountLast
      modifies this`criticalProcessed, this`normalProcessed, this`backgroundProcessed, this`ran
      modifies this`backgroundDropped, this`lastBgDropped
      modifies this`criticalLatencies, this`normalLatencies, this`backgroundLatencies
      modifies queue`head, queue.buffer, cache.repr
      ensures Windowed() && queue.Valid() && queue.Contents() == [] && cache.Shows(L.Drained(slots, {})) && cache.Emptied()
      ensures ringRuns == Runs(handlerIndex, old(queue.Contents())) && slotRuns == Runs(handlerIndex, L.Waiting(slots, {}))
      ensures ran == old(ran) + ringRuns + slotRuns && critical == CountRuns(handlers, ringRuns, CRITICAL)
      ensures critical == |set k | 0 <= k < |ringRuns| && ringRuns[k].handler < |handlers| && handlers[ringRuns[k].handler].priority == CRITICAL|
      ensures account == Accounting.Cycled(old(Account()), queue.dropped, critical, |ringRuns| - critical)
      ensures Account() == account
      ensures criticalProcessed == WrappingAdd(old(criticalProcessed), critical)
      ensures normalProcessed == WrappingAdd(old(normalProcessed), |ringRuns| - critical)
      ensures backgroundProcessed == WrappingAdd(old(backgroundProcessed), |slotRuns|)
      ensures lastBgDropped == L.Dropped(slots) % U64
      ensures backgroundDropped == WrappingAdd(old(backgroundDropped), WrappingSub(lastBgDropped, old(lastBgDropped)))
      ensures Sizes() == GrownBySlots(GrownBy(old(Sizes()), handlers, ringRuns), |slotRuns|)
    {
      ringRuns, critical, account := ServeRing();
      CountIsCardinality(handlers, ringRuns, CRITICAL);
      slotRuns := ServeSlots(slots);
    }
  }
}
