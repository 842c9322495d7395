/** The BACKGROUND drop total is read slot by slot while callbacks keep counting. */
module KernelScan {
  import opened Collections
  import opened Kernel
  import opened KernelInv

  ghost predicate AtMost(ds: seq<nat>, ds': seq<nat>) {
    |ds| == |ds'| && forall i :: 0 <= i < |ds| ==> ds[i] <= ds'[i]
  }

  lemma {:induction false} SumMonotone(ds: seq<nat>, ds': seq<nat>, n: nat)
    requires AtMost(ds, ds') && n <= |ds|
    ensures SumTo(ds, n) <= SumTo(ds', n)
  {
    if n > 0 {
      SumMonotone(ds, ds', n - 1);
    }
  }

  /** The last scanned total never exceeds the true one; a scan in progress has read each counter it passed at
      some moment since it began; the reported drops are the scanned total since the last reset. */
  ghost predicate ScanOk(re: Reactor, drops: seq<nat>, start: seq<nat>, lastBg: nat, bgDropped: int, bgBase: nat) {
    && lastBg <= Sum(drops)
    && (re.Scan? ==>
          && AtMost(start, drops) && re.i <= |drops|
          && lastBg <= Sum(start)
          && SumTo(start, re.i) <= re.acc <= SumTo(drops, re.i))
    && (if re.Scan? && re.reset then bgDropped == 0 else bgDropped == lastBg - bgBase)
    && (!re.Scan? ==> Sum(start) <= lastBg)
  }

  ghost predicate ScanInv(s: State) {
    ScanOk(s.re, Drops(s.slots), s.scanStart, s.lastBg, s.bgDropped, s.bgBase)
  }

  /** Counters only grow, and only the scan touches the scan's own state. */
  lemma GrowScan(s: State, s': State)
    requires ScanInv(s) && AtMost(Drops(s.slots), Drops(s'.slots))
    requires s'.scanStart == s.scanStart && s'.lastBg == s.lastBg && s'.bgDropped == s.bgDropped && s'.bgBase == s.bgBase
    requires s'.re == s.re || (!s.re.Scan? && !s'.re.Scan?)
    ensures ScanInv(s')
  {
    var drops, drops' := Drops(s.slots), Drops(s'.slots);
    SumMonotone(drops, drops', |drops|);
    if s.re.Scan? {
      SumMonotone(drops, drops', s.re.i);
      assert AtMost(s.scanStart, drops');
    }
  }

  lemma CallbackDrops(s: State, c: CallbackStep)
    requires Sized(s) && CallbackEnabled(s, c)
    ensures AtMost(Drops(s.slots), Drops(CallbackNext(s, c).slots))
    ensures var s' := CallbackNext(s, c);
            && s'.scanStart == s.scanStart && s'.lastBg == s.lastBg && s'.bgDropped == s.bgDropped && s'.bgBase == s.bgBase
            && s'.re == s.re
  {
    CallbackFrame(s, c);
  }

  lemma DispatchScan(s: State, d: DispatchStep)
    requires Sized(s) && ScanInv(s) && DispatchEnabled(s, d)
    ensures ScanInv(DispatchNext(s, d))
  {
    var s' := DispatchNext(s, d);
    assert Drops(s'.slots) == Drops(s.slots);
    if !d.EndDrain? {
      GrowScan(s, s');
    }
  }

  lemma LoopScan(s: State, l: LoopStep)
    requires Sized(s) && ScanInv(s) && LoopEnabled(s, l)
    ensures ScanInv(LoopNext(s, l))
  {
    var s' := LoopNext(s, l);
    var drops := Drops(s.slots);
    assert Drops(s'.slots) == drops;
    match l
    case ScanLoad =>
      assert s.scanStart[s.re.i] <= drops[s.re.i];
    case ScanEnd =>
    case Reset =>
    case _ => GrowScan(s, s');
  }

  lemma NextScan(s: State, st: Step)
    requires Sized(s) && ScanInv(s) && Enabled(s, st)
    ensures ScanInv(Next(s, st))
  {
    match st
    case Callbacks(c) =>
      CallbackDrops(s, c);
      GrowScan(s, CallbackNext(s, c));
    case Dispatches(d) => DispatchScan(s, d);
    case Loops(l) => LoopScan(s, l);
    case System(o) =>
      SystemFrame(s, o);
      GrowScan(s, SystemNext(s, o));
  }

  lemma {:induction false} RunScan(states: seq<State>, steps: seq<Step>, n: nat)
    requires Run(states, steps) && n <= |steps|
    ensures ScanInv(states[n])
  {
    if n == 0 {
      SumToZero(Drops(states[0].slots), |states[0].slots|);
    } else {
      RunScan(states, steps, n - 1);
      NextScan(states[n - 1], steps[n - 1]);
    }
  }

  /** Whenever a scan ends, however the callbacks interleaved with it, the total it computed lies between the
      true totals at its start and at its end and is at least the total of the scan before; so the unsigned
      difference the reactor adds does not wrap, and outside a scan the reported drops are exactly the scanned
      total minus the one at the last reset. */
  lemma ScanBracketed(states: seq<State>, steps: seq<Step>, n: nat)
    requires Run(states, steps) && n <= |steps|
    ensures var s := states[n];
            && (s.re.Scan? && s.re.i == |s.slots| ==>
                  Sum(s.scanStart) <= s.re.acc <= Sum(Drops(s.slots)) && s.lastBg <= s.re.acc)
            && (!s.re.Scan? ==> s.bgDropped == s.lastBg - s.bgBase && s.lastBg <= Sum(Drops(s.slots)))
  {
    RunScan(states, steps, n);
  }

  /** Between the start of a scan and its end its start is remembered. */
  lemma {:induction false} StartKept(states: seq<State>, steps: seq<Step>, m: nat, n: nat)
    requires Run(states, steps) && m < n <= |steps|
    requires steps[m] == Dispatches(EndDrain) || steps[m] == Loops(Reset)
    requires forall t :: m < t < n ==> steps[t] != Loops(ScanEnd)
    ensures states[n].re.Scan? && states[n].re.reset == (steps[m] == Loops(Reset))
    ensures states[n].scanStart == Drops(states[m].slots)
    ensures steps[m] == Dispatches(EndDrain) ==> states[n].lastBg == states[m].lastBg && states[n].bgDropped == states[m].bgDropped
  {
    if m + 1 < n {
      StartKept(states, steps, m, n - 1);
      assert steps[n - 1] != Loops(ScanEnd);
      ScanStays(states[n - 1], steps[n - 1]);
    } else {
      assert states[n] == Next(states[m], steps[m]);
    }
  }

  lemma ScanStays(s: State, st: Step)
    requires Sized(s) && Enabled(s, st) && s.re.Scan? && st != Loops(ScanEnd)
    ensures var s' := Next(s, st);
            && s'.re.Scan? && s'.re.reset == s.re.reset
            && s'.scanStart == s.scanStart && s'.lastBg == s.lastBg && s'.bgDropped == s.bgDropped
  {
    match st
    case Callbacks(c) => CallbackDrops(s, c);
    case Dispatches(d) =>
    case Loops(l) =>
    case System(o) => SystemFrame(s, o);
  }

  /** What a scan leaves: the last total lies between the true totals when the scan began and when it ended, and what
      was added to the reported drops is its growth since the scan before; a reset starts them again at zero. */
  lemma ScanAdds(states: seq<State>, steps: seq<Step>, m: nat, n: nat)
    requires Run(states, steps) && m < n < |steps| && steps[n] == Loops(ScanEnd)
    requires steps[m] == Dispatches(EndDrain) || steps[m] == Loops(Reset)
    requires forall t :: m < t < n ==> steps[t] != Loops(ScanEnd)
    ensures Sum(Drops(states[m].slots)) <= states[n + 1].lastBg <= Sum(Drops(states[n].slots))
    ensures steps[m] == Dispatches(EndDrain) ==>
              states[n + 1].bgDropped - states[m].bgDropped == states[n + 1].lastBg - states[m].lastBg
    ensures steps[m] == Loops(Reset) ==> states[n + 1].bgDropped == 0
  {
    StartKept(states, steps, m, n);
    RunScan(states, steps, n);
    RunScan(states, steps, n + 1);
    var s, s' := states[n], states[n + 1];
    assert s' == Next(s, steps[n]) == LoopNext(s, ScanEnd);
  }
}
