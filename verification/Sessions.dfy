/** Session tracking: which robots are seen, and how old each sighting is when reported. */
module Sessions {

  import opened Collections

  /** The first '/' at or after `from`. */
  function SlashFrom(key: string, from: nat): (i: Option<nat>)
    ensures i.Some? ==> from <= i.value < |key| && key[i.value] == '/' && '/' !in key[from..i.value]
    ensures i.None? && from <= |key| ==> '/' !in key[from..]
    decreases |key| - from
  {
    if from >= |key| then None
    else if key[from] == '/' then Some(from)
    else
      var i := SlashFrom(key, from + 1);
      assert key[from..] == [key[from]] + key[from + 1..];
      assert i.Some? ==> key[from..i.value] == [key[from]] + key[from + 1..i.value];
      i
  }

  /** The robot a key belongs to: everything before the second slash, taken to be the first one from index 6. */
  function RobotOf(key: string): Option<string> {
    var i := SlashFrom(key, 6);
    if i.Some? then Some(key[..i.value]) else None
  }

  /** A key names a robot exactly when it has a slash from index 6 on; for the documented key format
      "robot/<id>/..." that is "robot/<id>". */
  lemma RobotOfFormat(key: string, id: string, rest: string)
    requires '/' !in id
    ensures RobotOf(key).Some? <==> |key| >= 6 && '/' in key[6..]
    ensures key == "robot/" + id + "/" + rest ==> RobotOf(key) == Some("robot/" + id)
  {
    var i := SlashFrom(key, 6);
    if i.Some? {
      assert key[6..][i.value - 6] == '/';
    }
    if key == "robot/" + id + "/" + rest {
      var at := 6 + |id|;
      assert key[at] == '/' && key[6..at] == id;
      assert key[6..][|id|] == '/';
      assert key[..at] == "robot/" + id;
    }
  }

  // --- interleaved updates and reports ---

  /** A callback that has read the clock waits for the lock with its stamp. */
  datatype Writer = Idle | Stamped(key: string, time: nat)

  /** A `get_sessions` call. It reads the clock under the lock; one that read it first would pass through `Early`. */
  datatype Reader =
    | Away
    | Early(now: nat)
    | Locked
    | Reporting(now: nat, report: map<string, int>)   // ages of the robots visited so far

  datatype State = State(clockFirst: bool,            // false for the code
                         clock: nat, lastSeen: map<string, nat>, writers: seq<Writer>, reader: Reader,
                         seen: set<string>)           // history: keys whose update has been stored

  datatype Step =
    | Tick(d: nat)                        // the steady clock advances
    | Stamp(w: nat, key: string)          // extract the robot and read the clock
    | Store(w: nat)                       // under the lock
    | Acquire                             // the reader takes the lock
    | ReadClock
    | Visit(robot: string)                // the next entry of the map
    | Release

  predicate ReaderLocked(s: State) {
    s.reader.Locked? || s.reader.Reporting?
  }

  ghost predicate Enabled(s: State, st: Step) {
    match st
    case Tick(d) => true
    case Stamp(w, key) => w < |s.writers| && s.writers[w].Idle? && RobotOf(key).Some?
    case Store(w) => w < |s.writers| && s.writers[w].Stamped? && RobotOf(s.writers[w].key).Some? && !ReaderLocked(s)
    case Acquire => if s.clockFirst then s.reader.Early? else s.reader.Away?
    case ReadClock => if s.clockFirst then s.reader.Away? else s.reader.Locked?
    case Visit(r) => s.reader.Reporting? && r in s.lastSeen && r !in s.reader.report
    case Release => s.reader.Reporting? && s.reader.report.Keys == s.lastSeen.Keys
  }

  function Next(s: State, st: Step): State
    requires Enabled(s, st)
  {
    match st
    case Tick(d) => s.(clock := s.clock + d)
    case Stamp(w, key) => s.(writers := s.writers[w := Stamped(key, s.clock)])
    case Store(w) =>
      s.(lastSeen := s.lastSeen[RobotOf(s.writers[w].key).value := s.writers[w].time], writers := s.writers[w := Idle],
         seen := s.seen + {s.writers[w].key})
    case Acquire => s.(reader := if s.clockFirst then Reporting(s.reader.now, map[]) else Locked)
    case ReadClock => s.(reader := if s.clockFirst then Early(s.clock) else Reporting(s.clock, map[]))
    case Visit(r) => s.(reader := s.reader.(report := s.reader.report[r := s.reader.now - s.lastSeen[r]]))
    case Release => s.(reader := Away)
  }

  ghost predicate Init(s: State) {
    && s.lastSeen == map[] && s.seen == {} && s.reader.Away?
    && forall w :: 0 <= w < |s.writers| ==> s.writers[w].Idle?
  }

  /** Consecutive states of a run from any state. */
  ghost predicate Chain(states: seq<State>, steps: seq<Step>) {
    && |states| == |steps| + 1
    && forall i {:trigger steps[i]} :: 0 <= i < |steps| ==> Enabled(states[i], steps[i]) && states[i + 1] == Next(states[i], steps[i])
  }

  ghost predicate Run(states: seq<State>, steps: seq<Step>) {
    Chain(states, steps) && Init(states[0])
  }

  // --- ages ---

  ghost predicate Inv(s: State) {
    && (forall r :: r in s.lastSeen ==> s.lastSeen[r] <= s.clock)
    && (forall w :: 0 <= w < |s.writers| && s.writers[w].Stamped? ==> s.writers[w].time <= s.clock)
    && (forall key :: key in s.seen ==> RobotOf(key).Some? && RobotOf(key).value in s.lastSeen)
    && (forall r :: r in s.lastSeen ==> exists key :: key in s.seen && RobotOf(key) == Some(r))
  }

  /** The report so far measures against one reading of the clock, which no stored sighting can pass. */
  ghost predicate ReportOk(s: State) {
    && (s.reader.Reporting? ==>
          && (forall r :: r in s.reader.report ==> r in s.lastSeen && s.reader.report[r] == s.reader.now - s.lastSeen[r])
          && (!s.clockFirst ==> forall r :: r in s.lastSeen ==> s.lastSeen[r] <= s.reader.now))
    && (s.reader.Early? ==> s.clockFirst)
  }

  lemma NextInv(s: State, st: Step)
    requires Inv(s) && Enabled(s, st)
    ensures Inv(Next(s, st))
  {
    var s' := Next(s, st);
    if st.Store? {
      forall r | r in s'.lastSeen ensures exists key :: key in s'.seen && RobotOf(key) == Some(r) {
        if RobotOf(s.writers[st.w].key) == Some(r) {
          assert s.writers[st.w].key in s'.seen;
        } else {
          var key :| key in s.seen && RobotOf(key) == Some(r);
          assert key in s'.seen;
        }
      }
    }
  }

  lemma NextReport(s: State, st: Step)
    requires Inv(s) && ReportOk(s) && Enabled(s, st)
    ensures ReportOk(Next(s, st))
  {
  }

  lemma {:induction false} RunInv(states: seq<State>, steps: seq<Step>, n: nat)
    requires Run(states, steps) && n <= |steps|
    ensures Inv(states[n]) && ReportOk(states[n]) && states[n].clockFirst == states[0].clockFirst
  {
    if n > 0 {
      RunInv(states, steps, n - 1);
      NextInv(states[n - 1], steps[n - 1]);
      NextReport(states[n - 1], steps[n - 1]);
    }
  }

  /** In every interleaving with the callbacks every age in a report is non-negative, so the unsigned age never
      wraps; and a finished report names exactly the robots of the keys stored. */
  lemma AgesSound(states: seq<State>, steps: seq<Step>, n: nat)
    requires Run(states, steps) && !states[0].clockFirst && n <= |steps| && states[n].reader.Reporting?
    ensures forall r :: r in states[n].reader.report ==> states[n].reader.report[r] >= 0
    ensures Enabled(states[n], Release) ==>
              forall r :: r in states[n].reader.report <==> exists key :: key in states[n].seen && RobotOf(key) == Some(r)
  {
    RunInv(states, steps, n);
    var s := states[n];
    if Enabled(s, Release) {
      forall r ensures r in s.reader.report <==> exists key :: key in s.seen && RobotOf(key) == Some(r) {
        assert r in s.reader.report.Keys <==> r in s.lastSeen.Keys;
      }
    }
  }

  // --- an age is the time since a sighting ---

  /** The robot that the stamp of writer `w` is for. */
  function Stamps(s: State, w: nat): Option<string>
    requires w < |s.writers|
  {
    if s.writers[w].Stamped? then RobotOf(s.writers[w].key) else None
  }

  predicate OfWriter(st: Step, w: nat) {
    (st.Stamp? || st.Store?) && st.w == w
  }

  /** Before step `n`, writer `w` last read the clock in step `i`, for `robot`, and has not stored the stamp. */
  ghost predicate HeldFrom(states: seq<State>, steps: seq<Step>, n: nat, w: nat, robot: string, i: nat)
    requires |states| == |steps| + 1 && n <= |steps|
  {
    && i < n && steps[i].Stamp? && steps[i].w == w && RobotOf(steps[i].key) == Some(robot)
    && w < |states[n].writers| && states[n].writers[w] == Stamped(steps[i].key, states[i].clock)
    && forall t :: i < t < n ==> !OfWriter(steps[t], w)
  }

  /** Before step `n`, the last update of `robot` was step `j`, which stored the clock read in step `i`. */
  ghost predicate SightedFrom(states: seq<State>, steps: seq<Step>, n: nat, robot: string, i: nat, j: nat)
    requires |states| == |steps| + 1 && n <= |steps|
  {
    && j < n && steps[j].Store? && HeldFrom(states, steps, j, steps[j].w, robot, i)
    && (forall t :: j < t < n && steps[t].Store? && steps[t].w < |states[t].writers| ==> Stamps(states[t], steps[t].w) != Some(robot))
    && robot in states[n].lastSeen && states[n].lastSeen[robot] == states[i].clock
  }

  /** Before step `n`, the reader last read the clock in step `m`. */
  ghost predicate ReadFrom(states: seq<State>, steps: seq<Step>, n: nat, m: nat)
    requires |states| == |steps| + 1 && n <= |steps|
  {
    && m < n && steps[m].ReadClock? && (forall t :: m < t < n ==> !steps[t].ReadClock?)
    && states[n].reader.Reporting? && states[n].reader.now == states[m].clock
  }

  lemma {:induction false} StampFound(states: seq<State>, steps: seq<Step>, n: nat, w: nat, robot: string) returns (i: nat)
    requires Run(states, steps) && n <= |steps| && w < |states[n].writers| && Stamps(states[n], w) == Some(robot)
    ensures HeldFrom(states, steps, n, w, robot, i)
  {
    var st := steps[n - 1];
    if st.Stamp? && st.w == w {
      i := n - 1;
    } else {
      i := StampFound(states, steps, n - 1, w, robot);
    }
  }

  /** Only a store of a stamp for the robot changes its sighting. */
  lemma SightingStays(s: State, st: Step, robot: string)
    requires Enabled(s, st) && robot in Next(s, st).lastSeen && !(st.Store? && Stamps(s, st.w) == Some(robot))
    ensures robot in s.lastSeen && Next(s, st).lastSeen[robot] == s.lastSeen[robot]
  {
  }

  lemma StoreSights(s: State, st: Step, robot: string)
    requires Enabled(s, st) && st.Store? && Stamps(s, st.w) == Some(robot)
    ensures robot in Next(s, st).lastSeen && Next(s, st).lastSeen[robot] == s.writers[st.w].time
  {
  }

  lemma {:induction false} SightingFound(states: seq<State>, steps: seq<Step>, n: nat, robot: string) returns (i: nat, j: nat)
    requires Run(states, steps) && n <= |steps| && robot in states[n].lastSeen
    ensures SightedFrom(states, steps, n, robot, i, j)
  {
    var s, st := states[n - 1], steps[n - 1];
    if st.Store? && Stamps(s, st.w) == Some(robot) {
      j := n - 1;
      StoreSights(s, st, robot);
      i := StampFound(states, steps, n - 1, st.w, robot);
    } else {
      SightingStays(s, st, robot);
      i, j := SightingFound(states, steps, n - 1, robot);
    }
  }

  lemma {:induction false} ReadFound(states: seq<State>, steps: seq<Step>, n: nat) returns (m: nat)
    requires Run(states, steps) && !states[0].clockFirst && n <= |steps| && states[n].reader.Reporting?
    ensures ReadFrom(states, steps, n, m)
  {
    RunInv(states, steps, n - 1);
    if steps[n - 1].ReadClock? {
      m := n - 1;
    } else {
      m := ReadFound(states, steps, n - 1);
    }
  }

  /** In every interleaving each reported age is the time from the clock reading of the callback that last updated the
      robot to the reader's clock reading. */
  lemma AgeIsTimeSince(states: seq<State>, steps: seq<Step>, n: nat, robot: string) returns (i: nat, j: nat, m: nat)
    requires Run(states, steps) && !states[0].clockFirst && n <= |steps|
    requires states[n].reader.Reporting? && robot in states[n].reader.report
    ensures SightedFrom(states, steps, n, robot, i, j) && ReadFrom(states, steps, n, m)
    ensures states[n].reader.report[robot] == states[m].clock - states[i].clock
  {
    RunInv(states, steps, n);
    i, j := SightingFound(states, steps, n, robot);
    m := ReadFound(states, steps, n);
  }

  /** How often a step without a parameter has been taken. */
  function Times(steps: seq<Step>, st: Step, n: nat): nat
    requires n <= |steps|
  {
    if n == 0 then 0 else Times(steps, st, n - 1) + (if steps[n - 1] == st then 1 else 0)
  }

  /** The reader gives the lock back: it has been taken as often as given back, and once more exactly while it is held. */
  lemma {:induction false} LockGivenBack(states: seq<State>, steps: seq<Step>, n: nat)
    requires Run(states, steps) && n <= |steps|
    ensures Times(steps, Acquire, n) == Times(steps, Release, n) + (if ReaderLocked(states[n]) then 1 else 0)
  {
    if n > 0 {
      LockGivenBack(states, steps, n - 1);
      LockMoves(states[n - 1], steps[n - 1]);
    }
  }

  lemma LockMoves(s: State, st: Step)
    requires Enabled(s, st)
    ensures ReaderLocked(Next(s, st)) == (if st.Acquire? then true else if st.Release? then false else ReaderLocked(s))
    ensures st.Acquire? ==> !ReaderLocked(s)
    ensures st.Release? ==> ReaderLocked(s)
  {
  }

  lemma PoseKey()
    ensures RobotOf("robot/1/pose") == Some("robot/1")
  {
    assert "robot/1/pose" == "robot/" + "1" + "/" + "pose";
    RobotOfFormat("robot/1/pose", "1", "pose");
    assert "robot/" + "1" == "robot/1";
  }

  /** The place of the clock reading matters: a reader that read the clock before it took the lock would report
      a negative age. */
  lemma ClockFirstGoesNegative() returns (states: seq<State>, steps: seq<Step>)
    ensures Run(states, steps) && states[0].clockFirst && |states| == 7
    ensures states[6].reader.Reporting? && "robot/1" in states[6].reader.report && states[6].reader.report["robot/1"] < 0
  {
    var key := "robot/1/pose";
    PoseKey();
    steps := [ReadClock, Tick(1), Stamp(0, key), Store(0), Acquire, Visit("robot/1")];
    var s0 := State(true, 0, map[], [Idle], Away, {});
    var s1 := Next(s0, steps[0]);
    var s2 := Next(s1, steps[1]);
    var s3 := Next(s2, steps[2]);
    var s4 := Next(s3, steps[3]);
    var s5 := Next(s4, steps[4]);
    states := [s0, s1, s2, s3, s4, s5, Next(s5, steps[5])];
  }

  // --- when a sighting goes back in time ---

  /** Writer `w` holds a stamp for `robot`. */
  predicate Holds(s: State, w: int, robot: string) {
    0 <= w < |s.writers| && s.writers[w].Stamped? && RobotOf(s.writers[w].key) == Some(robot)
  }

  /** The sighting of `robot` is older after the step than before. */
  predicate Back(s: State, s': State, robot: string) {
    robot in s.lastSeen && robot in s'.lastSeen && s'.lastSeen[robot] < s.lastSeen[robot]
  }

  /** A sighting can go back in time: two callbacks for one robot read the clock before they take the lock, and
      the one that read it first stores last. */
  lemma SightingGoesBack() returns (states: seq<State>, steps: seq<Step>)
    ensures Run(states, steps) && !states[0].clockFirst && |states| == 6
    ensures "robot/1" in states[4].lastSeen && "robot/1" in states[5].lastSeen
    ensures states[5].lastSeen["robot/1"] < states[4].lastSeen["robot/1"]
  {
    var key := "robot/1/pose";
    PoseKey();
    steps := [Stamp(0, key), Tick(1), Stamp(1, key), Store(1), Store(0)];
    var s0 := State(false, 0, map[], [Idle, Idle], Away, {});
    var s1 := Next(s0, steps[0]);
    var s2 := Next(s1, steps[1]);
    var s3 := Next(s2, steps[2]);
    var s4 := Next(s3, steps[3]);
    var s5 := Next(s4, steps[4]);
    states := [s0, s1, s2, s3, s4, s5];
  }

  /** At most one callback at a time holds a stamp for `robot`. */
  ghost predicate OneAtATime(s: State, robot: string) {
    forall v, w :: Holds(s, v, robot) && Holds(s, w, robot) ==> v == w
  }

  /** No held stamp for `robot` is older than its sighting. */
  ghost predicate Current(s: State, robot: string) {
    forall w :: Holds(s, w, robot) && robot in s.lastSeen ==> s.lastSeen[robot] <= s.writers[w].time
  }

  lemma OneStep(s: State, st: Step, robot: string)
    requires Inv(s) && OneAtATime(s, robot) && Current(s, robot) && Enabled(s, st)
    ensures Current(Next(s, st), robot) && !Back(s, Next(s, st), robot)
  {
    var s' := Next(s, st);
    forall w | Holds(s', w, robot) && robot in s'.lastSeen ensures s'.lastSeen[robot] <= s'.writers[w].time {
      if !st.Stamp? || w != st.w {
        assert Holds(s, w, robot);
      }
      if st.Store? && RobotOf(s.writers[st.w].key) == Some(robot) {
        assert Holds(s, st.w, robot);
      }
    }
    if st.Store? && RobotOf(s.writers[st.w].key) == Some(robot) {
      assert Holds(s, st.w, robot);
    }
  }

  lemma {:induction false} RunCurrent(states: seq<State>, steps: seq<Step>, n: nat, robot: string)
    requires Run(states, steps) && n <= |steps|
    requires forall i :: 0 <= i < n ==> OneAtATime(states[i], robot)
    ensures Current(states[n], robot)
  {
    if n > 0 {
      RunInv(states, steps, n - 1);
      RunCurrent(states, steps, n - 1, robot);
      OneStep(states[n - 1], steps[n - 1], robot);
    }
  }

  /** When at most one callback at a time handles a robot, its sighting never goes back. */
  lemma {:induction false} OneWriterMonotone(states: seq<State>, steps: seq<Step>, m: nat, n: nat, robot: string)
    requires Run(states, steps) && m <= n <= |steps|
    requires forall i :: 0 <= i < n ==> OneAtATime(states[i], robot)
    requires robot in states[m].lastSeen
    ensures robot in states[n].lastSeen && states[m].lastSeen[robot] <= states[n].lastSeen[robot]
  {
    if m < n {
      OneWriterMonotone(states, steps, m, n - 1, robot);
      RunInv(states, steps, n - 1);
      RunCurrent(states, steps, n - 1, robot);
      OneStep(states[n - 1], steps[n - 1], robot);
    }
  }

  /** The stamps held for `robot` agree, and are not older than its sighting. */
  ghost predicate Settled(s: State, robot: string) {
    && Current(s, robot)
    && forall v, w :: Holds(s, v, robot) && Holds(s, w, robot) ==> s.writers[v].time == s.writers[w].time
  }

  /** The callbacks that hold stamps store them, in some order, and the sighting of `robot` goes back on the way. */
  ghost predicate StoresBack(s: State, states: seq<State>, steps: seq<Step>, robot: string) {
    && Chain(states, steps) && states[0] == s
    && (forall i :: 0 <= i < |steps| ==> steps[i].Store?)
    && exists i :: 0 <= i < |steps| && Back(states[i], states[i + 1], robot)
  }

  lemma {:induction false} StoresKeep(states: seq<State>, steps: seq<Step>, n: nat, robot: string)
    requires Chain(states, steps) && Settled(states[0], robot) && n <= |steps|
    requires forall i :: 0 <= i < |steps| ==> steps[i].Store?
    ensures Settled(states[n], robot)
    ensures n < |steps| ==> !Back(states[n], states[n + 1], robot)
  {
    if n > 0 {
      StoresKeep(states, steps, n - 1, robot);
      StoreKeeps(states[n - 1], steps[n - 1], robot);
    }
    if n < |steps| {
      StoreKeeps(states[n], steps[n], robot);
    }
  }

  lemma StoreKeeps(s: State, st: Step, robot: string)
    requires Settled(s, robot) && st.Store? && Enabled(s, st)
    ensures Settled(Next(s, st), robot) && !Back(s, Next(s, st), robot)
  {
    var s' := Next(s, st);
    assert forall w :: Holds(s', w, robot) ==> Holds(s, w, robot) && s'.writers[w] == s.writers[w];
    if RobotOf(s.writers[st.w].key) == Some(robot) {
      assert Holds(s, st.w, robot);
    }
  }

  lemma OneStoreBack(s: State, w: nat, robot: string)
    requires !ReaderLocked(s) && Holds(s, w, robot) && robot in s.lastSeen && s.writers[w].time < s.lastSeen[robot]
    ensures exists states, steps :: StoresBack(s, states, steps, robot)
  {
    var states, steps := [s, Next(s, Store(w))], [Store(w)];
    assert Back(states[0], states[0 + 1], robot);
    assert StoresBack(s, states, steps, robot);
  }

  lemma TwoStoresBack(s: State, v: nat, w: nat, robot: string)
    requires !ReaderLocked(s) && Holds(s, v, robot) && Holds(s, w, robot) && s.writers[v].time < s.writers[w].time
    ensures exists states, steps :: StoresBack(s, states, steps, robot)
  {
    var s1 := Next(s, Store(w));
    var states, steps := [s, s1, Next(s1, Store(v))], [Store(w), Store(v)];
    assert Back(states[1], states[1 + 1], robot);
    assert StoresBack(s, states, steps, robot);
  }

  /** Exactly when the stamps now held can move a robot's sighting back: when two of them differ, or one is older
      than the sighting. */
  lemma GoesBackExactly(s: State, robot: string)
    requires !ReaderLocked(s)
    ensures (exists states, steps :: StoresBack(s, states, steps, robot)) <==> !Settled(s, robot)
  {
    if Settled(s, robot) {
      forall states, steps ensures !StoresBack(s, states, steps, robot) {
        if StoresBack(s, states, steps, robot) {
          var i :| 0 <= i < |steps| && Back(states[i], states[i + 1], robot);
          StoresKeep(states, steps, i, robot);
          assert false;
        }
      }
    } else if !Current(s, robot) {
      var w :| Holds(s, w, robot) && robot in s.lastSeen && s.writers[w].time < s.lastSeen[robot];
      OneStoreBack(s, w, robot);
    } else {
      var v, w :| Holds(s, v, robot) && Holds(s, w, robot) && s.writers[v].time < s.writers[w].time;
      TwoStoresBack(s, v, w, robot);
    }
  }
  // --- how many callback threads it takes ---

  /** A run of the code with `n` callback threads in which the sighting of `robot` goes back. */
  ghost predicate RunsBack(states: seq<State>, steps: seq<Step>, n: nat, robot: string) {
    && Run(states, steps) && !states[0].clockFirst && |states[0].writers| == n
    && exists i :: 0 <= i < |steps| && Back(states[i], states[i + 1], robot)
  }

  lemma StepWriters(s: State, st: Step)
    requires Enabled(s, st)
    ensures |Next(s, st).writers| == |s.writers|
  {
  }

  lemma {:induction false} SameWriters(states: seq<State>, steps: seq<Step>, n: nat)
    requires Run(states, steps) && n <= |steps|
    ensures |states[n].writers| == |states[0].writers|
  {
    if n > 0 {
      SameWriters(states, steps, n - 1);
      StepWriters(states[n - 1], steps[n - 1]);
    }
  }

  lemma OneThreadMonotone(states: seq<State>, steps: seq<Step>, n: nat, robot: string)
    requires RunsBack(states, steps, n, robot)
    ensures n >= 2
  {
    if n < 2 {
      forall i | 0 <= i <= |steps| ensures OneAtATime(states[i], robot) {
        SameWriters(states, steps, i);
      }
      var i :| 0 <= i < |steps| && Back(states[i], states[i + 1], robot);
      OneWriterMonotone(states, steps, i, i + 1, robot);
      assert false;
    }
  }

  lemma TwoThreadsBack(n: nat, key: string, robot: string) returns (states: seq<State>, steps: seq<Step>)
    requires n >= 2 && RobotOf(key) == Some(robot)
    ensures RunsBack(states, steps, n, robot)
  {
    var idle := seq(n, _ => Idle);
    var w1 := idle[0 := Stamped(key, 0)];
    var w2 := w1[1 := Stamped(key, 1)];
    var w3 := w2[1 := Idle];
    steps := [Stamp(0, key), Tick(1), Stamp(1, key), Store(1), Store(0)];
    var s0 := State(false, 0, map[], idle, Away, {});
    var s1 := s0.(writers := w1);
    var s2 := s1.(clock := 1);
    var s3 := s2.(writers := w2);
    var s4 := s3.(writers := w3, lastSeen := map[robot := 1], seen := {key});
    states := [s0, s1, s2, s3, s4, Next(s4, Store(0))];
    assert Back(states[4], states[4 + 1], robot);
  }

  /** For every robot that some key names: its sighting can go back in some run if and only if there are at least two
      callback threads. */
  lemma GoesBackNeedsTwo(n: nat, key: string, robot: string)
    requires RobotOf(key) == Some(robot)
    ensures (exists states, steps :: RunsBack(states, steps, n, robot)) <==> n >= 2
  {
    if states, steps :| RunsBack(states, steps, n, robot) {
      OneThreadMonotone(states, steps, n, robot);
    }
    if n >= 2 {
      var states, steps := TwoThreadsBack(n, key, robot);
    }
  }
}
