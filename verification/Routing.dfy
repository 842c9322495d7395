/** From a path hash to a handler: the C++ index, the Rust index, and when either reaches the subscriber. */
module Routing {
  import Fnv

  datatype Priority = CRITICAL | NORMAL | BACKGROUND

  datatype Handler = Handler(path: Fnv.Path, hash: Fnv.Word, priority: Priority)

  /** Handlers carry the hash of their own path. */
  ghost predicate Hashed(hs: seq<Handler>) {
    forall k :: 0 <= k < |hs| ==> hs[k].hash == Fnv.Hash(hs[k].path)
  }

  /** The C++ index: `emplace` at each registration keeps the first handler of a hash. */
  function Index(hs: seq<Handler>): map<Fnv.Word, nat> {
    if hs == [] then map[]
    else
      var n := |hs| - 1;
      var m := Index(hs[..n]);
      if hs[n].hash in m then m else m[hs[n].hash := n]
  }

  /** The Rust index: collecting pairs into a map keeps the last handler of a hash. */
  function CollectedIndex(hs: seq<Handler>): map<Fnv.Word, nat> {
    if hs == [] then map[]
    else
      var n := |hs| - 1;
      CollectedIndex(hs[..n])[hs[n].hash := n]
  }

  ghost predicate First(hs: seq<Handler>, h: Fnv.Word, i: nat) {
    && i < |hs| && hs[i].hash == h
    && forall j :: 0 <= j < i ==> hs[j].hash != h
  }

  ghost predicate Last(hs: seq<Handler>, h: Fnv.Word, i: nat) {
    && i < |hs| && hs[i].hash == h
    && forall j :: i < j < |hs| ==> hs[j].hash != h
  }

  ghost predicate Distinct(hs: seq<Handler>) {
    forall i, j :: 0 <= i < j < |hs| ==> hs[i].hash != hs[j].hash
  }

  /** After any registrations the C++ index finds every registered hash, and finds the smallest position. */
  lemma {:induction false} IndexIsFirst(hs: seq<Handler>)
    ensures forall k :: 0 <= k < |hs| ==> hs[k].hash in Index(hs)
    ensures forall h :: h in Index(hs) ==> First(hs, h, Index(hs)[h])
  {
    if hs != [] {
      var n := |hs| - 1;
      IndexIsFirst(hs[..n]);
      forall h | h in Index(hs) ensures First(hs, h, Index(hs)[h]) {
        if h in Index(hs[..n]) {
          assert First(hs[..n], h, Index(hs[..n])[h]);
        }
      }
    }
  }

  lemma {:induction false} CollectedIsLast(hs: seq<Handler>)
    ensures forall k :: 0 <= k < |hs| ==> hs[k].hash in CollectedIndex(hs)
    ensures forall h :: h in CollectedIndex(hs) ==> Last(hs, h, CollectedIndex(hs)[h])
  {
    if hs != [] {
      var n := |hs| - 1;
      CollectedIsLast(hs[..n]);
      forall h | h in CollectedIndex(hs) ensures Last(hs, h, CollectedIndex(hs)[h]) {
        if h != hs[n].hash {
          assert Last(hs[..n], h, CollectedIndex(hs[..n])[h]);
        }
      }
    }
  }

  /** A frame of handler `k` is dispatched by hash to handler `k` itself exactly when no earlier handler has
      the same hash (C++), respectively no later one (Rust). */
  lemma ReachesSubscriber(hs: seq<Handler>, k: nat)
    requires k < |hs|
    ensures hs[k].hash in Index(hs) && hs[k].hash in CollectedIndex(hs)
    ensures Index(hs)[hs[k].hash] == k <==> forall j :: 0 <= j < k ==> hs[j].hash != hs[k].hash
    ensures CollectedIndex(hs)[hs[k].hash] == k <==> forall j :: k < j < |hs| ==> hs[j].hash != hs[k].hash
  {
    IndexIsFirst(hs);
    CollectedIsLast(hs);
    assert First(hs, hs[k].hash, Index(hs)[hs[k].hash]);
    assert Last(hs, hs[k].hash, CollectedIndex(hs)[hs[k].hash]);
  }

  /** The two indices are the same map, and agree with the position the Rust ring carries along, exactly
      when no two handlers share a hash. */
  lemma IndicesAgree(hs: seq<Handler>)
    ensures Index(hs) == CollectedIndex(hs) <==> Distinct(hs)
    ensures Distinct(hs) <==> forall k :: 0 <= k < |hs| ==> hs[k].hash in Index(hs) && Index(hs)[hs[k].hash] == k
  {
    IndexIsFirst(hs);
    CollectedIsLast(hs);
    forall k | 0 <= k < |hs|
      ensures hs[k].hash in Index(hs) && hs[k].hash in CollectedIndex(hs)
      ensures First(hs, hs[k].hash, Index(hs)[hs[k].hash]) && Last(hs, hs[k].hash, CollectedIndex(hs)[hs[k].hash])
    {
    }
    if Distinct(hs) {
      forall h | h in Index(hs) ensures h in CollectedIndex(hs) && CollectedIndex(hs)[h] == Index(hs)[h] {
        assert First(hs, h, Index(hs)[h]);
      }
      forall h | h in CollectedIndex(hs) ensures h in Index(hs) {
        assert Last(hs, h, CollectedIndex(hs)[h]);
      }
      assert Index(hs) == CollectedIndex(hs);
    } else {
      var i, j :| 0 <= i < j < |hs| && hs[i].hash == hs[j].hash;
      assert First(hs, hs[i].hash, Index(hs)[hs[i].hash]);
      assert Last(hs, hs[i].hash, CollectedIndex(hs)[hs[i].hash]);
      assert Index(hs)[hs[j].hash] <= i;
    }
  }

  /** Paths that differ in one byte of one position are never confused, whatever else is registered between
      them: a fleet of robots numbered by a digit is routed correctly. */
  lemma NumberedPathsRouted(hs: seq<Handler>, i: nat, j: nat, at: nat)
    requires Hashed(hs) && i < |hs| && j < |hs|
    requires |hs[i].path| == |hs[j].path| && at < |hs[i].path| && hs[i].path[at] != hs[j].path[at]
    requires forall k :: 0 <= k < |hs[i].path| && k != at ==> hs[i].path[k] == hs[j].path[k]
    ensures hs[i].hash in Index(hs) && hs[j].hash in Index(hs)
    ensures Index(hs)[hs[i].hash] != Index(hs)[hs[j].hash]
  {
    Fnv.OneByteApart(hs[i].path, hs[j].path, at);
    IndexIsFirst(hs);
    assert First(hs, hs[i].hash, Index(hs)[hs[i].hash]);
    assert First(hs, hs[j].hash, Index(hs)[hs[j].hash]);
  }

  /** The position of `key`, or the length when it does not occur. */
  function Find(keys: seq<Fnv.Word>, key: Fnv.Word): (i: nat)
    ensures i <= |keys|
    ensures i < |keys| ==> keys[i] == key
    ensures i == |keys| <==> key !in keys
  {
    if keys == [] then 0 else if keys[0] == key then 0 else 1 + Find(keys[1..], key)
  }

  /** Some BACKGROUND handler has this hash. */
  ghost predicate InBackground(hs: seq<Handler>, g: Fnv.Word) {
    exists k :: 0 <= k < |hs| && hs[k].priority.BACKGROUND? && hs[k].hash == g
  }

  /** The slots allocated before the loop starts: one per hash of a BACKGROUND handler. */
  ghost predicate Allocated(hs: seq<Handler>, slots: seq<Fnv.Word>) {
    && (forall i, j :: 0 <= i < j < |slots| ==> slots[i] != slots[j])
    && (forall g :: g in slots <==> InBackground(hs, g))
  }
}
