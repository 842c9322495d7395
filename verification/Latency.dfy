/** The sliding latency windows and the statistics read off their sorted copies. */
module Latency {

  const WINDOW: nat := 1000

  datatype ChannelStats = ChannelStats(avg: real, p95: real, p99: real)

  /** One sample recorded: appended, and the oldest dropped beyond the window size. */
  function Record(w: seq<real>, x: real): seq<real> {
    var w' := w + [x];
    if |w'| > WINDOW then w'[1..] else w'
  }

  /** The window after a history of records since the last reset. */
  function Recorded(xs: seq<real>): seq<real> {
    if xs == [] then [] else Record(Recorded(xs[..|xs| - 1]), xs[|xs| - 1])
  }

  /** The window is exactly the last min(n, 1000) samples, oldest first. */
  lemma {:induction false} WindowIsSuffix(xs: seq<real>)
    ensures Recorded(xs) == if |xs| <= 1000 then xs else xs[|xs| - 1000..]
  {
    if xs != [] {
      var n := |xs| - 1;
      WindowIsSuffix(xs[..n]);
      assert xs == xs[..n] + [xs[n]];
    }
  }

  predicate Sorted(s: seq<real>) {
    forall i, j :: 0 <= i < j < |s| ==> s[i] <= s[j]
  }

  function Sum(s: seq<real>): real {
    if s == [] then 0.0 else Sum(s[..|s| - 1]) + s[|s| - 1]
  }

  function Index(n: nat, percent: nat): nat
    requires n > 0
  {
    var i := n * percent / 100;
    if i < n - 1 then i else n - 1
  }

  /** The statistics of a non-empty window, from a sorted copy of it; an empty window reports zeros. */
  function Stats(sorted: seq<real>): ChannelStats {
    if sorted == [] then ChannelStats(0.0, 0.0, 0.0)
    else ChannelStats(Sum(sorted) / |sorted| as real, sorted[Index(|sorted|, 95)], sorted[Index(|sorted|, 99)])
  }

  lemma {:induction false} SumBetween(s: seq<real>, lo: real, hi: real)
    requires forall i :: 0 <= i < |s| ==> lo <= s[i] <= hi
    ensures lo * |s| as real <= Sum(s) <= hi * |s| as real
  {
    if s != [] {
      SumBetween(s[..|s| - 1], lo, hi);
      assert |s| as real == (|s| - 1) as real + 1.0;
      assert lo * |s| as real == lo * (|s| - 1) as real + lo;
      assert hi * |s| as real == hi * (|s| - 1) as real + hi;
    }
  }

  lemma Divided(lo: real, sum: real, hi: real, n: real)
    requires n > 0.0 && lo * n <= sum <= hi * n
    ensures lo <= sum / n <= hi
  {
    var q := sum / n;
    assert q * n == sum;
    assert (q - lo) * n == sum - lo * n;
    assert (hi - q) * n == hi * n - sum;
  }

  /** `x` lies strictly above `v`, or strictly below it. */
  predicate Past(x: real, v: real, up: bool) {
    if up then x > v else x < v
  }

  /** How many entries of `s` lie strictly above, or strictly below, `v`. */
  function Beyond(s: seq<real>, v: real, up: bool): nat {
    if s == [] then 0 else Beyond(s[..|s| - 1], v, up) + (if Past(s[|s| - 1], v, up) then 1 else 0)
  }

  /** In a sorted sequence at most the entries after position `i` lie above its value, and at most those before below. */
  lemma {:induction false} BeyondBound(s: seq<real>, i: nat)
    requires Sorted(s) && i < |s|
    ensures Beyond(s, s[i], true) <= |s| - 1 - i && Beyond(s, s[i], false) <= i
  {
    var n := |s| - 1;
    if i < n {
      BeyondBound(s[..n], i);
    } else {
      NoneAbove(s[..n], s[n]);
      BeyondAtMost(s[..n], s[n], false);
    }
  }

  lemma {:induction false} NoneAbove(s: seq<real>, v: real)
    requires forall k :: 0 <= k < |s| ==> s[k] <= v
    ensures Beyond(s, v, true) == 0
  {
    if s != [] {
      NoneAbove(s[..|s| - 1], v);
    }
  }

  lemma {:induction false} BeyondAtMost(s: seq<real>, v: real, up: bool)
    ensures Beyond(s, v, up) <= |s|
  {
    if s != [] {
      BeyondAtMost(s[..|s| - 1], v, up);
    }
  }

  lemma {:induction false} RemoveOne(s: seq<real>, j: nat, v: real, up: bool)
    requires j < |s|
    ensures Beyond(s, v, up) == Beyond(s[..j] + s[j + 1..], v, up) + (if Past(s[j], v, up) then 1 else 0)
    ensures Sum(s) == Sum(s[..j] + s[j + 1..]) + s[j]
  {
    var n := |s| - 1;
    if j < n {
      RemoveOne(s[..n], j, v, up);
      var t := s[..j] + s[j + 1..];
      assert t[..|t| - 1] == s[..n][..j] + s[..n][j + 1..];
    } else {
      assert s[..j] + s[j + 1..] == s[..n];
    }
  }

  lemma WithoutOne(t: seq<real>, j: nat)
    requires j < |t|
    ensures multiset(t[..j] + t[j + 1..]) == multiset(t) - multiset{t[j]}
  {
    assert t == t[..j] + [t[j]] + t[j + 1..];
  }

  /** Copying and sorting moves no sample across a threshold and changes no sum. */
  lemma {:induction false} Permuted(s: seq<real>, t: seq<real>, v: real, up: bool)
    requires multiset(s) == multiset(t)
    ensures Beyond(s, v, up) == Beyond(t, v, up) && Sum(s) == Sum(t)
    decreases |s|
  {
    if s == [] {
      SameLength(s, t);
    } else {
      var n := |s| - 1;
      var x := s[n];
      assert x in multiset(s);
      var j :| 0 <= j < |t| && t[j] == x;
      var t' := t[..j] + t[j + 1..];
      WithoutOne(t, j);
      WithoutOne(s, n);
      assert s[..n] + s[n + 1..] == s[..n];
      Permuted(s[..n], t', v, up);
      RemoveOne(t, j, v, up);
    }
  }

  /** For every non-empty window of at most 1000 samples and any sorted copy of it: the average times the number of
      samples is the sum of the window, and lies between the extremes; each percentile is a sample, with strictly fewer
      than 5% (1%) of the window above it, and at least 5% (1%) of the window at or above it; and the clamp of the index
      to the last entry never takes effect. */
  lemma StatsMeaning(w: seq<real>, sorted: seq<real>)
    requires 0 < |w| <= 1000 && Sorted(sorted) && multiset(w) == multiset(sorted)
    ensures |sorted| == |w|
    ensures Stats(sorted).avg * |w| as real == Sum(w)
    ensures sorted[0] <= Stats(sorted).avg <= sorted[|sorted| - 1]
    ensures Stats(sorted).p95 <= Stats(sorted).p99
    ensures Stats(sorted).p95 in w && Stats(sorted).p99 in w
    ensures 100 * Beyond(w, Stats(sorted).p95, true) < 5 * |w| <= 100 * (|w| - Beyond(w, Stats(sorted).p95, false))
    ensures 100 * Beyond(w, Stats(sorted).p99, true) < |w| <= 100 * (|w| - Beyond(w, Stats(sorted).p99, false))
    ensures |sorted| * 95 / 100 < |sorted| && |sorted| * 99 / 100 < |sorted|
  {
    SameLength(w, sorted);
    var n := |sorted|;
    AverageBetween(sorted);
    AverageTimes(w, sorted);
    IndexRange(n, 95);
    IndexRange(n, 99);
    FewBeyond(w, sorted, Index(n, 95));
    FewBeyond(w, sorted, Index(n, 99));
  }

  lemma AverageTimes(w: seq<real>, sorted: seq<real>)
    requires w != [] && |sorted| == |w| && multiset(w) == multiset(sorted)
    ensures Stats(sorted).avg * |w| as real == Sum(w)
  {
    Permuted(w, sorted, 0.0, true);
    Quotient(Sum(sorted), |w| as real);
  }

  lemma Quotient(sum: real, n: real)
    requires n > 0.0
    ensures sum / n * n == sum
  {
  }

  lemma SameLength(w: seq<real>, sorted: seq<real>)
    requires multiset(w) == multiset(sorted)
    ensures |w| == |sorted|
  {
    assert |multiset(w)| == |w| && |multiset(sorted)| == |sorted|;
  }

  lemma AverageBetween(sorted: seq<real>)
    requires sorted != [] && Sorted(sorted)
    ensures sorted[0] <= Sum(sorted) / |sorted| as real <= sorted[|sorted| - 1]
  {
    SumAverage(sorted, sorted[0], sorted[|sorted| - 1]);
  }

  lemma SumAverage(s: seq<real>, lo: real, hi: real)
    requires s != [] && forall i :: 0 <= i < |s| ==> lo <= s[i] <= hi
    ensures lo <= Sum(s) / |s| as real <= hi
  {
    SumBetween(s, lo, hi);
    Divided(lo, Sum(s), hi, |s| as real);
  }

  lemma IndexRange(n: nat, percent: nat)
    requires n > 0 && percent < 100
    ensures Index(n, percent) == n * percent / 100 < n
    ensures 100 * (n - 1 - Index(n, percent)) < (100 - percent) * n <= 100 * (n - Index(n, percent))
  {
    assert n * percent < n * 100;
  }

  lemma FewBeyond(w: seq<real>, sorted: seq<real>, i: nat)
    requires multiset(w) == multiset(sorted) && Sorted(sorted) && i < |sorted|
    ensures sorted[i] in w
    ensures Beyond(w, sorted[i], true) <= |sorted| - 1 - i && Beyond(w, sorted[i], false) <= i
  {
    assert sorted[i] in multiset(sorted);
    Permuted(w, sorted, sorted[i], true);
    Permuted(w, sorted, sorted[i], false);
    BeyondBound(sorted, i);
  }
}
