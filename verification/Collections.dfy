/** An optional value, sums, and how often a value occurs in a sequence. */
module Collections {
  datatype Option<T> = None | Some(value: T)

  /** The sum of the first `n` numbers. */
  function SumTo(ds: seq<nat>, n: nat): nat
    requires n <= |ds|
  {
    if n == 0 then 0 else SumTo(ds, n - 1) + ds[n - 1]
  }

  function Sum(ds: seq<nat>): nat {
    SumTo(ds, |ds|)
  }

  lemma {:induction false} SumToUpdate(ds: seq<nat>, i: nat, v: nat, n: nat)
    requires i < |ds| && n <= |ds|
    ensures SumTo(ds[i := v], n) + (if i < n then ds[i] else 0) == SumTo(ds, n) + (if i < n then v else 0)
  {
    if n > 0 {
      SumToUpdate(ds, i, v, n - 1);
    }
  }

  /** One term of a sum replaced. */
  lemma SumUpdate(ds: seq<nat>, i: nat, v: nat)
    requires i < |ds|
    ensures Sum(ds[i := v]) + ds[i] == Sum(ds) + v
  {
    SumToUpdate(ds, i, v, |ds|);
  }

  lemma {:induction false} SumToZero(ds: seq<nat>, n: nat)
    requires n <= |ds| && forall i :: 0 <= i < n ==> ds[i] == 0
    ensures SumTo(ds, n) == 0
  {
    if n > 0 {
      SumToZero(ds, n - 1);
    }
  }

  ghost function Count<T>(items: seq<T>, y: T): nat {
    multiset(items)[y]
  }

  lemma CountPlus<T>(xs: seq<T>, ys: seq<T>, y: T)
    ensures Count(xs + ys, y) == Count(xs, y) + Count(ys, y)
  {
  }

  lemma CountAppend<T>(items: seq<T>, x: T, y: T)
    ensures Count(items + [x], y) == Count(items, y) + (if x == y then 1 else 0)
  {
  }
}
