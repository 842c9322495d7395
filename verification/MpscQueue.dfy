/** The ring as an object on the heap: `push`, `pop`, the destructor and the size queries, one call at a
    time, over a fixed array of slots. */
module MpscQueue {
  import BoundedFifo
  import opened Collections
  import opened Mask
  import RingSafety

  /** Storage for one element. */
  datatype Storage<T> = Raw | Live(val: T)

  // --- the queue that a lap of slots stands for ---

  /** Exactly the `n` slots from `h` on hold an element. */
  ghost predicate Holds<T>(buf: seq<Storage<T>>, h: nat, n: nat) {
    && h < |buf| && n < |buf|
    && forall k :: h <= k < h + |buf| ==> (buf[Slot(k, |buf|)].Live? <==> k < h + n)
  }

  ghost function Items<T>(buf: seq<Storage<T>>, h: nat, n: nat): (q: seq<T>)
    requires Holds(buf, h, n)
    ensures |q| == n
  {
    seq(n, i requires 0 <= i < n => buf[Slot(h + i, |buf|)].val)
  }

  lemma PushItems<T>(buf: seq<Storage<T>>, h: nat, n: nat, x: T)
    requires Holds(buf, h, n) && n + 1 < |buf|
    ensures var buf' := buf[Slot(h + n, |buf|) := Live(x)];
            Holds(buf', h, n + 1) && Items(buf', h, n + 1) == Items(buf, h, n) + [x]
  {
    var cap := |buf|;
    var buf' := buf[Slot(h + n, cap) := Live(x)];
    forall k | h <= k < h + cap
      ensures k != h + n ==> buf'[Slot(k, cap)] == buf[Slot(k, cap)]
    {
      if k != h + n {
        RingSafety.SlotsDiffer(k, h + n, cap);
      }
    }
  }

  /** The index after `h`. */
  function After(h: nat, cap: nat): (h': nat)
    requires h < cap
    ensures h' == Slot(h + 1, cap)
  {
    if h + 1 == cap then 0 else h + 1
  }

  /** The masked increment of the code. */
  function Successor(i: nat, cap: nat): (r: nat)
    requires PowerOfTwo(cap) && i < cap
    ensures r == After(i, cap)
  {
    MaskIsSlot(i + 1, cap);
    BitAnd(i + 1, cap - 1)
  }

  /** Position `k` counted from the advanced head is position `k - h' + h + 1` counted from the old one. */
  lemma Renumber<T>(buf: seq<Storage<T>>, h: nat, k: nat)
    requires h < |buf| && After(h, |buf|) <= k < After(h, |buf|) + |buf|
    ensures var j := k - After(h, |buf|) + h + 1;
            && Slot(k, |buf|) == Slot(j, |buf|)
            && buf[h := Raw][Slot(k, |buf|)] == if j < h + |buf| then buf[Slot(j, |buf|)] else Raw
  {
    var cap := |buf|;
    var j := k - After(h, cap) + h + 1;
    if h + 1 == cap {
      SameSlotNextLap(k, cap);
    }
    if j < h + cap {
      RingSafety.SlotsDiffer(j, h, cap);
    } else {
      SameSlotNextLap(h, cap);
    }
  }

  lemma PopHolds<T>(buf: seq<Storage<T>>, h: nat, n: nat)
    requires Holds(buf, h, n) && n > 0
    ensures Holds(buf[h := Raw], After(h, |buf|), n - 1)
  {
    var cap, h' := |buf|, After(h, |buf|);
    forall k | h' <= k < h' + cap
      ensures buf[h := Raw][Slot(k, cap)].Live? <==> k < h' + n - 1
    {
      Renumber(buf, h, k);
    }
  }

  lemma PopItems<T>(buf: seq<Storage<T>>, h: nat, n: nat)
    requires Holds(buf, h, n) && n > 0
    ensures buf[h].Live? && Holds(buf[h := Raw], After(h, |buf|), n - 1)
    ensures Items(buf, h, n) == [buf[h].val] + Items(buf[h := Raw], After(h, |buf|), n - 1)
  {
    var cap, h' := |buf|, After(h, |buf|);
    assert buf[Slot(h + 0, cap)] == buf[h];
    PopHolds(buf, h, n);
    var q, q' := Items(buf, h, n), Items(buf[h := Raw], h', n - 1);
    forall i | 0 <= i < n - 1 ensures q'[i] == q[i + 1] {
      Renumber(buf, h, h' + i);
    }
  }

  lemma AllRaw<T>(buf: seq<Storage<T>>, h: nat)
    requires Holds(buf, h, 0)
    ensures forall k :: 0 <= k < |buf| ==> buf[k] == Raw
  {
    forall k | 0 <= k < |buf| ensures buf[k] == Raw {
      var j := if h <= k then k else k + |buf|;
      SameSlotNextLap(k, |buf|);
      assert Slot(j, |buf|) == k;
      assert !buf[Slot(j, |buf|)].Live?;
    }
  }

  /** The destructor's walk from `h` to `t`: what was queued is what it has destroyed and what is still there. */
  ghost predicate Walked<T>(q: seq<T>, destroyed: seq<T>, buf: seq<Storage<T>>, h: nat, t: nat) {
    && h < |buf| && t < |buf|
    && Holds(buf, h, Distance(|buf|, h, t))
    && q == destroyed + Items(buf, h, Distance(|buf|, h, t))
  }

  lemma WalkStep<T>(q: seq<T>, destroyed: seq<T>, buf: seq<Storage<T>>, h: nat, t: nat)
    requires Walked(q, destroyed, buf, h, t) && h != t
    ensures buf[h].Live? && Walked(q, destroyed + [buf[h].val], buf[h := Raw], After(h, |buf|), t)
    ensures Distance(|buf|, After(h, |buf|), t) < Distance(|buf|, h, t)
  {
    var n := Distance(|buf|, h, t);
    PopItems(buf, h, n);
    var rest := Items(buf[h := Raw], After(h, |buf|), n - 1);
    assert destroyed + ([buf[h].val] + rest) == (destroyed + [buf[h].val]) + rest;
  }

  class MPSCQueue<T> {
    const capacity: nat
    const buffer: array<Storage<T>>
    var head: nat
    var tail: nat
    var dropped: nat

    ghost predicate Valid()
      reads this, buffer
    {
      && PowerOfTwo(capacity) && 0 < capacity < U64
      && buffer.Length == capacity
      && head < capacity && tail < capacity && dropped < U64
      && Holds(buffer[..], head, Distance(capacity, head, tail))
    }

    /** The queued items, oldest first. */
    ghost function Contents(): seq<T>
      requires Valid()
      reads this, buffer
    {
      Items(buffer[..], head, Distance(capacity, head, tail))
    }

    constructor (capacity: nat)
      requires PowerOfTwo(capacity) && 0 < capacity < U64
      ensures Valid() && fresh(buffer) && this.capacity == capacity
      ensures Contents() == [] && dropped == 0
    {
      this.capacity := capacity;
      buffer := new Storage<T>[capacity](_ => Raw);
      head, tail, dropped := 0, 0, 0;
    }

    /** The slot after the last item, and the test for a full ring. */
    lemma TailSlot()
      requires Valid()
      ensures var n := Distance(capacity, head, tail);
              && tail == Slot(head + n, capacity)
              && (Slot(tail + 1, capacity) == head <==> n == capacity - 1)
              && (n < capacity - 1 ==> Distance(capacity, head, Slot(tail + 1, capacity)) == n + 1)
    {
      var n := Distance(capacity, head, tail);
      FullSlot(head + n, head, capacity);
    }

    /** Appends the item, or counts it as dropped when `capacity - 1` items are queued. */
    method Push(item: T) returns (ok: bool)
      requires Valid()
      modifies this`tail, this`dropped, buffer
      ensures Valid()
      ensures ok <==> |old(Contents())| < capacity - 1
      ensures BoundedFifo.Step(capacity - 1, old(Contents()),
                               if ok then BoundedFifo.Accept(item) else BoundedFifo.Refuse, Contents())
      ensures dropped == if ok then old(dropped) else (old(dropped) + 1) % U64
    {
      TailSlot();
      var t := tail;
      var next := Successor(t, capacity);
      if next == head {
        dropped := (dropped + 1) % U64;
        return false;
      }
      PushItems(buffer[..], head, Distance(capacity, head, tail), item);
      buffer[t] := Live(item);
      tail := next;
      return true;
    }

    /** Hands out the oldest item, or nothing when none is queued. */
    method Pop() returns (item: Option<T>)
      requires Valid()
      modifies this`head, buffer
      ensures Valid()
      ensures item.None? <==> old(Contents()) == []
      ensures BoundedFifo.Step(capacity - 1, old(Contents()),
                               if item.Some? then BoundedFifo.Take(item.value) else BoundedFifo.SeeEmpty, Contents())
    {
      var h := head;
      if h == tail {
        return None;
      }
      PopItems(buffer[..], h, Distance(capacity, h, tail));
      item := Some(buffer[h].val);
      buffer[h] := Raw;
      head := Successor(h, capacity);
    }

    /** Destroys what is left: each remaining item once, oldest first, leaving every slot raw. */
    method Destroy() returns (destroyed: seq<T>)
      requires Valid()
      modifies buffer
      ensures destroyed == old(Contents())
      ensures forall k :: 0 <= k < buffer.Length ==> buffer[k] == Raw
    {
      var h: nat, t: nat := head, tail;
      destroyed := [];
      ghost var q := Contents();
      assert destroyed + q == q;
      while h != t
        invariant Walked(q, destroyed, buffer[..], h, t)
        decreases Distance(capacity, h, t)
      {
        ghost var buf := buffer[..];
        WalkStep(q, destroyed, buf, h, t);
        destroyed := destroyed + [buffer[h].val];
        buffer[h] := Raw;
        h := Successor(h, capacity);
      }
      AllRaw(buffer[..], h);
    }

    /** The number of queued items, from the wrapped difference of the indices. */
    method Len() returns (n: nat)
      requires Valid()
      ensures n == |Contents()|
    {
      n := BitAnd(WrappingSub(tail, head), capacity - 1);
      Indices();
    }

    /** True exactly when a push would be refused. */
    method IsFull() returns (full: bool)
      requires Valid()
      ensures full <==> |Contents()| == capacity - 1
    {
      TailSlot();
      full := Successor(tail, capacity) == head;
    }

    lemma Indices()
      requires Valid()
      ensures BitAnd(WrappingSub(tail, head), capacity - 1) == Distance(capacity, head, tail)
    {
      TailSlot();
      LenExact(head + Distance(capacity, head, tail), head, capacity);
    }
  }
}
