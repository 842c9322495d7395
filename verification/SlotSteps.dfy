/** The latest-only slot, one atomic action per step: any number of putters and one taker behind a spin lock.

    The taker of the C++ cache spins for the lock; the Rust cache tries it and passes the slot over when it
    is held (`Skip`). */
module SlotSteps {

  import opened Collections
  import opened Mask
  import LatestOnly

  datatype Putter<T> =
    | Idle
    | Spinning(x: T)
    | AtTest(x: T)
    | AtCount(x: T)                 // the slot is occupied: the old sample is about to be counted
    | AtAssign(x: T)
    | AtUnlock(x: T)
    | Done(x: T)

  datatype Taker<T> =
    | Rest
    | SpinTake
    | AtTake
    | AtRelease(r: Option<T>)
    | Took(r: Option<T>)

  /** What became of a sample put into the slot. */
  datatype Fate = Waiting | Taken | Overwritten

  datatype Slot<T> = Slot(
    // shared memory
    locked: bool, data: Option<T>, drops: nat,
    // threads
    putters: seq<Putter<T>>, taker: Taker<T>,
    // history: put calls, samples put in lock order with their fates, samples taken and lost
    calls: seq<T>, puts: seq<T>, fates: seq<Fate>, takes: seq<T>, lost: seq<T>)

  datatype Step<T> =
    | Call(p: nat, x: T)
    | Lock(p: nat)
    | Test(p: nat)
    | CountDrop(p: nat)
    | Assign(p: nat)
    | Unlock(p: nat)
    | CallTake
    | Skip
    | LockTake
    | Take
    | Release

  predicate IsPut<T>(st: Step<T>) {
    st.Call? || st.Lock? || st.Test? || st.CountDrop? || st.Assign? || st.Unlock?
  }

  ghost predicate Init<T>(s: Slot<T>) {
    && !s.locked && s.data.None? && s.drops == 0
    && s.putters == seq(|s.putters|, _ => Idle) && s.taker == Rest
    && s.calls == [] && s.puts == [] && s.fates == [] && s.takes == [] && s.lost == []
  }

  ghost predicate Enabled<T>(s: Slot<T>, st: Step<T>) {
    if IsPut(st) then
      && st.p < |s.putters|
      && match st {
           case Call(p, x) => s.putters[p].Idle? || s.putters[p].Done?
           case Lock(p) => s.putters[p].Spinning? && !s.locked
           case Test(p) => s.putters[p].AtTest?
           case CountDrop(p) => s.putters[p].AtCount?
           case Assign(p) => s.putters[p].AtAssign?
           case Unlock(p) => s.putters[p].AtUnlock?
         }
    else
      match st
      case CallTake => s.taker.Rest? || s.taker.Took?
      case Skip => s.taker.SpinTake? && s.locked
      case LockTake => s.taker.SpinTake? && !s.locked
      case Take => s.taker.AtTake?
      case Release => s.taker.AtRelease?
  }

  /** The history with the newest sample's fate decided. */
  function Decide(fates: seq<Fate>, f: Fate): seq<Fate> {
    if fates == [] then [] else fates[|fates| - 1 := f]
  }

  function Next<T>(s: Slot<T>, st: Step<T>): Slot<T>
    requires Enabled(s, st)
  {
    match st
    case Call(p, x) => s.(putters := s.putters[p := Spinning(x)], calls := s.calls + [x])
    case Lock(p) => s.(locked := true, putters := s.putters[p := AtTest(s.putters[p].x)])
    case Test(p) =>
      var x := s.putters[p].x;
      s.(putters := s.putters[p := if s.data.Some? then AtCount(x) else AtAssign(x)])
    case CountDrop(p) =>
      s.(drops := s.drops + 1,
         lost := if s.data.Some? then s.lost + [s.data.value] else s.lost,
         fates := Decide(s.fates, Overwritten),
         putters := s.putters[p := AtAssign(s.putters[p].x)])
    case Assign(p) =>
      var x := s.putters[p].x;
      s.(data := Some(x), puts := s.puts + [x], fates := s.fates + [Waiting], putters := s.putters[p := AtUnlock(x)])
    case Unlock(p) => s.(locked := false, putters := s.putters[p := Done(s.putters[p].x)])
    case CallTake => s.(taker := SpinTake)
    case Skip => s.(taker := Took(None))
    case LockTake => s.(locked := true, taker := AtTake)
    case Take =>
      if s.data.Some? then
        s.(data := None, takes := s.takes + [s.data.value], fates := Decide(s.fates, Taken),
           taker := AtRelease(s.data))
      else
        s.(taker := AtRelease(None))
    case Release => s.(locked := false, taker := Took(s.taker.r))
  }

  ghost predicate Run<T>(states: seq<Slot<T>>, steps: seq<Step<T>>) {
    && |states| == |steps| + 1
    && Init(states[0])
    && forall i {:trigger steps[i]} :: 0 <= i < |steps| ==> Enabled(states[i], steps[i]) && states[i + 1] == Next(states[i], steps[i])
  }

  // --- the invariant ---

  predicate PutterLocked<T>(pc: Putter<T>) {
    pc.AtTest? || pc.AtCount? || pc.AtAssign? || pc.AtUnlock?
  }

  predicate TakerLocked<T>(pc: Taker<T>) {
    pc.AtTake? || pc.AtRelease?
  }

  ghost predicate Exclusive<T>(s: Slot<T>) {
    && (forall p :: 0 <= p < |s.putters| && PutterLocked(s.putters[p]) ==> s.locked && !TakerLocked(s.taker))
    && (TakerLocked(s.taker) ==> s.locked)
    && (forall p, q :: 0 <= p < |s.putters| && 0 <= q < |s.putters| && PutterLocked(s.putters[p]) && PutterLocked(s.putters[q])
          ==> p == q)
  }

  /** The samples put so far whose fate is `f`, in order. */
  function With<T>(puts: seq<T>, fates: seq<Fate>, f: Fate): seq<T>
    requires |puts| == |fates|
  {
    if puts == [] then []
    else
      var n := |puts| - 1;
      With(puts[..n], fates[..n], f) + (if fates[n] == f then [puts[n]] else [])
  }

  /** A sample sits in the slot and has not been given up by a putter about to overwrite it. */
  ghost predicate Waits<T>(s: Slot<T>) {
    s.fates != [] && s.fates[|s.fates| - 1].Waiting?
  }

  /** Every sample put has exactly one fate; only the newest can still be waiting, and then it is the one in
      the slot. Taken and lost samples are the puts with that fate, in put order. */
  ghost predicate Fates<T>(s: Slot<T>) {
    && |s.fates| == |s.puts|
    && (forall i :: 0 <= i < |s.fates| - 1 ==> !s.fates[i].Waiting?)
    && (Waits(s) ==> s.data == Some(s.puts[|s.puts| - 1]))
    && s.takes == With(s.puts, s.fates, Taken)
    && s.lost == With(s.puts, s.fates, Overwritten)
    && s.drops == |s.lost|
    && (s.data.Some? && !Waits(s) ==> exists p :: 0 <= p < |s.putters| && s.putters[p].AtAssign?)
    && (forall p :: 0 <= p < |s.putters| && s.putters[p].AtCount? ==> s.data.Some?)
    && (forall p :: 0 <= p < |s.putters| && s.putters[p].AtAssign? ==> !Waits(s))
  }

  /** What the taker is handing out is the newest sample taken. */
  ghost predicate TakerOk<T>(s: Slot<T>) {
    (s.taker.AtRelease? || s.taker.Took?) && s.taker.r.Some? ==>
      s.takes != [] && s.takes[|s.takes| - 1] == s.taker.r.value
  }

  ghost predicate Inv<T>(s: Slot<T>) {
    Exclusive(s) && Fates(s) && TakerOk(s)
  }

  lemma {:induction false} DecideWith<T>(puts: seq<T>, fates: seq<Fate>, f: Fate, g: Fate)
    requires |puts| == |fates| > 0 && fates[|fates| - 1].Waiting? && !f.Waiting? && !g.Waiting?
    ensures With(puts, Decide(fates, f), g) == With(puts, fates, g) + (if f == g then [puts[|puts| - 1]] else [])
  {
    assert Decide(fates, f)[..|fates| - 1] == fates[..|fates| - 1];
  }

  lemma {:induction false} AppendWith<T>(puts: seq<T>, fates: seq<Fate>, x: T, g: Fate)
    requires |puts| == |fates| && !g.Waiting?
    ensures With(puts + [x], fates + [Waiting], g) == With(puts, fates, g)
  {
    assert (puts + [x])[..|puts|] == puts && (fates + [Waiting])[..|fates|] == fates;
  }

  lemma CountDropInv<T>(s: Slot<T>, p: nat)
    requires Inv(s) && Enabled(s, CountDrop(p))
    ensures Inv(Next(s, CountDrop(p)))
  {
    var s' := Next(s, CountDrop(p));
    assert Waits(s);
    DecideWith(s.puts, s.fates, Overwritten, Taken);
    DecideWith(s.puts, s.fates, Overwritten, Overwritten);
    assert s'.putters[p].AtAssign?;
  }

  lemma AssignInv<T>(s: Slot<T>, p: nat)
    requires Inv(s) && Enabled(s, Assign(p))
    ensures Inv(Next(s, Assign(p)))
  {
    AppendWith(s.puts, s.fates, s.putters[p].x, Taken);
    AppendWith(s.puts, s.fates, s.putters[p].x, Overwritten);
  }

  lemma TakeInv<T>(s: Slot<T>)
    requires Inv(s) && Enabled(s, Take)
    ensures Inv(Next(s, Take))
  {
    if s.data.Some? {
      assert Waits(s);
      DecideWith(s.puts, s.fates, Taken, Taken);
      DecideWith(s.puts, s.fates, Taken, Overwritten);
    }
  }

  lemma LockInv<T>(s: Slot<T>, st: Step<T>)
    requires Exclusive(s) && Enabled(s, st)
    ensures Exclusive(Next(s, st))
  {
  }

  /** The steps that touch neither the sample nor the counter. */
  lemma QuietInv<T>(s: Slot<T>, st: Step<T>)
    requires Inv(s) && Enabled(s, st)
    requires !st.CountDrop? && !st.Assign? && !st.Take?
    ensures Fates(Next(s, st)) && TakerOk(Next(s, st))
  {
    var s' := Next(s, st);
    forall q | 0 <= q < |s.putters|
      ensures s'.putters[q].AtAssign? ==> !Waits(s)
      ensures s.putters[q].AtAssign? ==> s'.putters[q].AtAssign?
    {
    }
  }

  lemma NextInv<T>(s: Slot<T>, st: Step<T>)
    requires Inv(s) && Enabled(s, st)
    ensures Inv(Next(s, st))
  {
    match st
    case CountDrop(p) => CountDropInv(s, p);
    case Take => TakeInv(s);
    case Assign(p) => AssignInv(s, p);
    case _ =>
      LockInv(s, st);
      QuietInv(s, st);
  }

  lemma {:induction false} FatesSplit<T>(puts: seq<T>, fates: seq<Fate>)
    requires |puts| == |fates|
    requires forall i :: 0 <= i < |fates| - 1 ==> !fates[i].Waiting?
    ensures |puts| == |With(puts, fates, Taken)| + |With(puts, fates, Overwritten)|
                      + (if fates != [] && fates[|fates| - 1].Waiting? then 1 else 0)
  {
    if puts != [] {
      FatesSplit(puts[..|puts| - 1], fates[..|puts| - 1]);
    }
  }

  /** In every state of every interleaving: each put was taken, counted as lost, or waits in the slot; the
      takes are a subsequence of the puts; and an occupied slot holds the newest put. */
  lemma {:induction false} EveryPutAccounted<T>(states: seq<Slot<T>>, steps: seq<Step<T>>, n: nat)
    requires Run(states, steps) && n <= |steps|
    ensures Inv(states[n])
    ensures |states[n].puts| == |states[n].takes| + states[n].drops + (if Waits(states[n]) then 1 else 0)
    ensures states[n].takes == With(states[n].puts, states[n].fates, Taken)
    ensures !states[n].locked ==> (states[n].data.Some? <==> Waits(states[n]))
  {
    if n > 0 {
      EveryPutAccounted(states, steps, n - 1);
      NextInv(states[n - 1], steps[n - 1]);
    }
    FatesSplit(states[n].puts, states[n].fates);
  }

  /** In every run a take through the lock hands out the newest put, and hands it out once: a sample taken
      before is not handed out again. Passing the slot over changes nothing that was put. */
  lemma TakeIsLatest<T>(states: seq<Slot<T>>, steps: seq<Step<T>>, n: nat)
    requires Run(states, steps) && n < |steps| && (steps[n].Take? || steps[n].Skip?)
    ensures var s, s' := states[n], states[n + 1];
            if steps[n].Take? && Waits(s) then
              && s.puts != [] && |s.fates| == |s.puts|
              && s'.taker == AtRelease(Some(s.puts[|s.puts| - 1]))
              && s'.takes == s.takes + [s.puts[|s.puts| - 1]]
              && s'.fates == s.fates[|s.fates| - 1 := Taken]
            else
              && (s'.taker == AtRelease(None) || s'.taker == Took(None))
              && s'.data == s.data && s'.puts == s.puts && s'.fates == s.fates && s'.takes == s.takes
  {
    EveryPutAccounted(states, steps, n);
  }

  // --- the slot is latest-only ---

  /** The slot the machine stands for. A putter that has counted the sample it is about to overwrite takes effect
      when it assigns. */
  ghost function Abs<T>(s: Slot<T>): LatestOnly.Slot<T> {
    LatestOnly.Slot(s.data, (s.drops - (if s.data.Some? && !Waits(s) then 1 else 0)) % U64)
  }

  ghost function Effect<T>(s: Slot<T>, st: Step<T>): LatestOnly.Event<T>
    requires Enabled(s, st)
  {
    match st
    case Assign(p) => LatestOnly.Put(s.putters[p].x)
    case Take => LatestOnly.Take
    case _ => LatestOnly.Stutter
  }

  /** Each atomic step is one operation of the latest-only slot, or none; a take hands out the content. */
  lemma StepRefines<T>(s: Slot<T>, st: Step<T>)
    requires Inv(s) && Enabled(s, st)
    ensures Abs(Next(s, st)) == LatestOnly.Apply(Abs(s), Effect(s, st))
    ensures st.Take? ==> Next(s, st).taker == AtRelease(Abs(s).content)
  {
    match st
    case Assign(p) =>
      assert !Waits(s) && Waits(Next(s, st));
      ModAdd(s.drops - 1, 1);
    case CountDrop(p) => assert Waits(s) && !Waits(Next(s, st));
    case Take => assert s.data.Some? ==> Waits(s);
    case _ =>
  }

  /** A run of any length, with any number of putters, is a run of the latest-only slot. */
  lemma RunIsLatestOnly<T>(states: seq<Slot<T>>, steps: seq<Step<T>>, n: nat)
    requires Run(states, steps) && n <= |steps|
    ensures n == 0 ==> Abs(states[n]) == LatestOnly.Slot(None, 0)
    ensures n < |steps| ==> Abs(states[n + 1]) == LatestOnly.Apply(Abs(states[n]), Effect(states[n], steps[n]))
    ensures n < |steps| && steps[n].Take? ==> states[n + 1].taker == AtRelease(Abs(states[n]).content)
  {
    EveryPutAccounted(states, steps, n);
    if n < |steps| {
      StepRefines(states[n], steps[n]);
    }
  }

  // --- no sample is lost ---

  ghost function Holds<T>(pc: Putter<T>, y: T): nat {
    if pc.Idle? || pc.AtUnlock? || pc.Done? || pc.x != y then 0 else 1
  }

  ghost function HoldTerms<T>(putters: seq<Putter<T>>, y: T): (t: seq<nat>)
    ensures |t| == |putters| && forall p :: 0 <= p < |t| ==> t[p] == Holds(putters[p], y)
  {
    seq(|putters|, p requires 0 <= p < |putters| => Holds(putters[p], y))
  }

  /** How many putters hold `y`. */
  ghost function Holders<T>(putters: seq<Putter<T>>, y: T): nat {
    Sum(HoldTerms(putters, y))
  }

  lemma HoldersUpdate<T>(putters: seq<Putter<T>>, p: nat, pc: Putter<T>, y: T)
    requires p < |putters|
    ensures Holders(putters[p := pc], y) + Holds(putters[p], y) == Holders(putters, y) + Holds(pc, y)
  {
    SumUpdate(HoldTerms(putters, y), p, Holds(pc, y));
    assert HoldTerms(putters[p := pc], y) == HoldTerms(putters, y)[p := Holds(pc, y)];
  }

  lemma NoHolders<T>(putters: seq<Putter<T>>, y: T)
    requires forall p :: 0 <= p < |putters| ==> Holds(putters[p], y) == 0
    ensures Holders(putters, y) == 0
  {
    SumToZero(HoldTerms(putters, y), |putters|);
  }

  /** Every put call made with `y` is in a putter's hands, taken, counted as lost, or waiting. */
  ghost predicate Conserved<T>(s: Slot<T>, y: T) {
    Count(s.calls, y) == Holders(s.putters, y) + Count(s.takes, y) + Count(s.lost, y)
                         + (if Waits(s) && s.data == Some(y) then 1 else 0)
  }

  lemma CallConserved<T>(s: Slot<T>, p: nat, x: T, y: T)
    requires Inv(s) && Conserved(s, y) && Enabled(s, Call(p, x))
    ensures Conserved(Next(s, Call(p, x)), y)
  {
    HoldersUpdate(s.putters, p, Spinning(x), y);
    CountAppend(s.calls, x, y);
  }

  lemma CountDropConserved<T>(s: Slot<T>, p: nat, y: T)
    requires Inv(s) && Conserved(s, y) && Enabled(s, CountDrop(p))
    ensures Conserved(Next(s, CountDrop(p)), y)
  {
    HoldersUpdate(s.putters, p, AtAssign(s.putters[p].x), y);
    CountAppend(s.lost, s.data.value, y);
  }

  lemma AssignConserved<T>(s: Slot<T>, p: nat, y: T)
    requires Inv(s) && Conserved(s, y) && Enabled(s, Assign(p))
    ensures Conserved(Next(s, Assign(p)), y)
  {
    HoldersUpdate(s.putters, p, AtUnlock(s.putters[p].x), y);
    assert !Waits(s);
  }

  lemma TakeConserved<T>(s: Slot<T>, y: T)
    requires Inv(s) && Conserved(s, y) && Enabled(s, Take)
    ensures Conserved(Next(s, Take), y)
  {
    if s.data.Some? {
      CountAppend(s.takes, s.data.value, y);
    }
  }

  lemma MoveConserved<T>(s: Slot<T>, st: Step<T>, y: T)
    requires Conserved(s, y) && Enabled(s, st)
    requires !st.Call? && !st.CountDrop? && !st.Assign? && !st.Take?
    ensures Conserved(Next(s, st), y)
  {
    if IsPut(st) {
      var pc' := Next(s, st).putters[st.p];
      HoldersUpdate(s.putters, st.p, pc', y);
      assert Next(s, st).putters == s.putters[st.p := pc'];
      assert Holds(pc', y) == Holds(s.putters[st.p], y);
    }
  }

  lemma NextConserved<T>(s: Slot<T>, st: Step<T>, y: T)
    requires Inv(s) && Conserved(s, y) && Enabled(s, st)
    ensures Conserved(Next(s, st), y)
  {
    match st
    case Call(p, x) => CallConserved(s, p, x, y);
    case CountDrop(p) => CountDropConserved(s, p, y);
    case Assign(p) => AssignConserved(s, p, y);
    case Take => TakeConserved(s, y);
    case _ => MoveConserved(s, st, y);
  }

  /** In every state of every run no sample put into the slot has vanished or been duplicated. */
  lemma {:induction false} NoSampleLost<T>(states: seq<Slot<T>>, steps: seq<Step<T>>, n: nat, y: T)
    requires Run(states, steps) && n <= |steps|
    ensures Conserved(states[n], y)
  {
    if n == 0 {
      NoHolders(states[0].putters, y);
    } else {
      NoSampleLost(states, steps, n - 1, y);
      EveryPutAccounted(states, steps, n - 1);
      NextConserved(states[n - 1], steps[n - 1], y);
    }
  }
}
