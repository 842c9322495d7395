/** Index arithmetic of the ring: `x & (Capacity - 1)` against the remainder it stands for. */
module Mask {

  /** The bitwise conjunction of two unsigned integers of any width. */
  function BitAnd(x: nat, y: nat): nat {
    if x == 0 || y == 0 then 0 else 2 * BitAnd(x / 2, y / 2) + (if x % 2 == 1 && y % 2 == 1 then 1 else 0)
  }

  /** The bitwise exclusive or of two unsigned integers of any width. */
  function Xor(x: nat, y: nat): nat {
    if x == 0 then y else if y == 0 then x else 2 * Xor(x / 2, y / 2) + (x % 2 + y % 2) % 2
  }

  function Pow2(k: nat): nat {
    if k == 0 then 1 else 2 * Pow2(k - 1)
  }

  /** `c` is a capacity the queue documents: a power of two. */
  ghost predicate PowerOfTwo(c: nat) {
    exists k: nat :: Pow2(k) == c
  }

  const U64: nat := 0x1_0000_0000_0000_0000

  /** Addition of two 64-bit unsigned integers. */
  function WrappingAdd(a: nat, b: nat): nat {
    (a + b) % U64
  }

  /** 64-bit unsigned subtraction. */
  function WrappingSub(a: nat, b: nat): nat {
    (a - b) % U64
  }

  lemma {:induction false} Pow2Positive(k: nat)
    ensures Pow2(k) > 0
  {
    if k > 0 {
      Pow2Positive(k - 1);
    }
  }

  lemma Pow2Odd(k: nat)
    ensures Pow2(k) % 2 == 1 <==> k == 0
  {
  }

  /** (2q + b) mod 2m, the carry step of every proof below. */
  lemma DoubleMod(x: nat, m: nat)
    requires m > 0
    ensures x % (2 * m) == 2 * (x / 2 % m) + x % 2
  {
    var q := x / 2 / m;
    var r := x / 2 % m;
    assert x / 2 == q * m + r;
    assert x == 2 * (q * m + r) + x % 2;
    assert x == q * (2 * m) + (2 * r + x % 2);
    ModUnique(x, 2 * m, q, 2 * r + x % 2);
  }

  lemma MultipleAtLeast(d: int, m: int)
    ensures d >= 1 && m >= 0 ==> d * m >= m
  {
    assert d * m == (d - 1) * m + m;
  }

  /** A multiple of `m` that lies strictly between -m and m is zero. */
  lemma SmallMultiple(d: int, m: int)
    requires -m < d * m < m
    ensures d == 0
  {
    MultipleAtLeast(d, m);
    MultipleAtLeast(-d, m);
  }

  /** A quotient and a remainder in range are the ones of Euclidean division. */
  lemma ModUnique(x: int, m: nat, q: int, r: nat)
    requires r < m
    requires x == q * m + r
    ensures x % m == r
  {
    var q', r' := x / m, x % m;
    assert x == q' * m + r';
    assert (q - q') * m == r' - r by {
      assert (q - q') * m == q * m - q' * m;
    }
    SmallMultiple(q - q', m);
    assert r' - r == 0 * m;
  }

  lemma ModAdd(a: int, b: int)
    ensures (a % U64 + b) % U64 == (a + b) % U64
  {
    ModUnique(a % U64 + b, U64, (a + b) / U64 - a / U64, (a + b) % U64);
  }

  /** Masking with 2^k - 1 is the remainder modulo 2^k, for every width and every value. */
  lemma {:induction false} MaskIsMod(x: nat, k: nat)
    ensures Pow2(k) > 0
    ensures BitAnd(x, Pow2(k) - 1) == x % Pow2(k)
  {
    Pow2Positive(k);
    if k > 0 {
      var m := Pow2(k - 1);
      MaskIsMod(x / 2, k - 1);
      DoubleMod(x, m);
      AndDigit(x / 2, x % 2, m - 1, 1);
    }
  }

  /** What the compile-time check `(Capacity & (Capacity - 1)) == 0` accepts: the powers of two, and
      also 0, whose predecessor wraps to all ones. */
  lemma {:induction false} StaticAssertAccepts(c: nat)
    requires c < U64
    ensures BitAnd(c, WrappingSub(c, 1)) == 0 <==> c == 0 || PowerOfTwo(c)
  {
    if c > 0 {
      assert WrappingSub(c, 1) == c - 1;
      AndPredecessor(c);
    }
  }

  /** The conjunction of two numbers, one binary digit at a time. */
  lemma AndDigit(a: nat, i: nat, b: nat, j: nat)
    requires i < 2 && j < 2
    ensures BitAnd(2 * a + i, 2 * b + j) == 2 * BitAnd(a, b) + (if i == 1 && j == 1 then 1 else 0)
  {
    Digit(a, i);
    Digit(b, j);
  }

  /** Doubling keeps and reflects the powers of two; an odd number is one only when it is 1. */
  lemma PowerOfTwoDigit(a: nat)
    ensures PowerOfTwo(2 * a) <==> PowerOfTwo(a)
    ensures PowerOfTwo(2 * a + 1) <==> a == 0
  {
    assert Pow2(0) == 1;
    if PowerOfTwo(a) {
      var k: nat :| Pow2(k) == a;
      assert Pow2(k + 1) == 2 * a;
    }
    if PowerOfTwo(2 * a) {
      var k: nat :| Pow2(k) == 2 * a;
      assert k > 0 && Pow2(k - 1) == a;
    }
    if PowerOfTwo(2 * a + 1) {
      var k: nat :| Pow2(k) == 2 * a + 1;
      Pow2Odd(k);
      Digit(a, 1);
    }
  }

  lemma {:induction false} AndPredecessor(c: nat)
    requires c > 0
    ensures BitAnd(c, c - 1) == 0 <==> PowerOfTwo(c)
  {
    var a := c / 2;
    PowerOfTwoDigit(a);
    if c % 2 == 0 {
      AndPredecessor(a);
      AndDigit(a, 0, a - 1, 1);
    } else {
      AndSame(a);
      AndDigit(a, 1, a, 0);
    }
  }

  lemma {:induction false} AndSame(x: nat)
    ensures BitAnd(x, x) == x
  {
    if x > 0 {
      AndSame(x / 2);
    }
  }

  /** The masked distance from index `h` up to index `t`. */
  function Distance(cap: nat, h: nat, t: nat): nat
    requires h < cap && t < cap
  {
    if h <= t then t - h else t + cap - h
  }

  /** The exclusive or of two numbers, one binary digit at a time. */
  lemma XorDigit(a: nat, i: nat, b: nat, j: nat)
    requires i < 2 && j < 2
    ensures Xor(2 * a + i, 2 * b + j) == 2 * Xor(a, b) + (if i == j then 0 else 1)
  {
    Digit(a, i);
    Digit(b, j);
    if a == 0 || b == 0 {
      assert Xor(a, b) == a + b;
    }
  }

  lemma Digit(a: nat, i: nat)
    requires i < 2
    ensures (2 * a + i) / 2 == a && (2 * a + i) % 2 == i
  {
  }

  lemma {:induction false} XorUndone(x: nat, y: nat)
    ensures Xor(Xor(x, y), y) == x
  {
    if x == 0 {
      XorSame(y);
    } else {
      var a, i, b, j := x / 2, x % 2, y / 2, y % 2;
      XorUndone(a, b);
      XorDigit(a, i, b, j);
      XorDigit(Xor(a, b), if i == j then 0 else 1, b, j);
    }
  }

  lemma {:induction false} XorSame(y: nat)
    ensures Xor(y, y) == 0
  {
    if y != 0 {
      XorSame(y / 2);
    }
  }

  lemma {:induction false} XorBound(x: nat, y: nat, k: nat)
    requires x < Pow2(k) && y < Pow2(k)
    ensures Xor(x, y) < Pow2(k)
  {
    if x != 0 && y != 0 {
      XorBound(x / 2, y / 2, k - 1);
    }
  }

  // --- positions and slots ---

  /** The slot of position `i` in a ring of `c` slots: laps are taken off until the position fits. */
  function Slot(i: nat, c: nat): (r: nat)
    requires c > 0
    ensures r < c
  {
    if i < c then i else Slot(i - c, c)
  }

  lemma {:induction false} SlotIsMod(i: nat, c: nat)
    requires c > 0
    ensures Slot(i, c) == i % c
  {
    if i < c {
      ModUnique(i, c, 0, i);
    } else {
      SlotIsMod(i - c, c);
      ModUnique(i, c, (i - c) / c + 1, (i - c) % c) by {
        assert ((i - c) / c + 1) * c == (i - c) / c * c + c;
      }
    }
  }

  /** Masking an index by a power of two minus one finds its slot. */
  lemma MaskIsSlot(i: nat, c: nat)
    requires PowerOfTwo(c)
    ensures c > 0 && BitAnd(i, c - 1) == Slot(i, c)
  {
    var k: nat :| Pow2(k) == c;
    MaskIsMod(i, k);
    SlotIsMod(i, c);
  }

  /** Two positions less than one lap apart share a slot only when they are the same position. */
  lemma {:induction false} SameSlot(a: nat, b: nat, c: nat)
    requires c > 0
    requires a <= b < a + c
    ensures Slot(a, c) == Slot(b, c) <==> a == b
  {
    if a >= c {
      SameSlot(a - c, b - c, c);
    } else if b >= c {
      assert Slot(b, c) == Slot(b - c, c) == b - c;
    }
  }

  lemma SameSlotNextLap(i: nat, c: nat)
    requires c > 0
    ensures Slot(i + c, c) == Slot(i, c)
  {
  }

  /** Advancing a masked index is masking the advanced position. */
  lemma {:induction false} NextIndex(t: nat, c: nat)
    requires c > 0
    ensures Slot(Slot(t, c) + 1, c) == Slot(t + 1, c)
    ensures Slot(Slot(t, c), c) == Slot(t, c)
  {
    if t >= c {
      NextIndex(t - c, c);
    }
  }

  /** The distance of two masked indices, taken modulo the capacity, is the distance of the positions. */
  lemma WrappedDistance(t: nat, h: nat, c: nat)
    requires c > 0 && U64 % c == 0
    requires t - c < h
    ensures WrappingSub(t % c, h % c) % c == (t - h) % c
  {
    var a, b := t % c, h % c;
    var q := U64 / c;
    assert q * c == U64;
    var d := a - b;
    var e := d / U64;
    assert WrappingSub(a, b) == d - e * U64;
    assert e * U64 == (e * q) * c by { assert e * (q * c) == (e * q) * c; }
    var f := t / c - h / c;
    assert t - h == f * c + d by { assert t == t / c * c + a && h == h / c * c + b; }
    var r := (t - h) % c;
    var g := (t - h) / c;
    assert WrappingSub(a, b) == (g - f - e * q) * c + r by {
      assert (g - f - e * q) * c == g * c - f * c - (e * q) * c;
    }
    ModUnique(WrappingSub(a, b), c, g - f - e * q, r);
  }

  lemma {:induction false} Pow2Divides(k: nat, n: nat)
    requires k <= n
    ensures Pow2(k) > 0 && Pow2(n) % Pow2(k) == 0
    ensures exists q: nat :: Pow2(n) == q * Pow2(k)
  {
    Pow2Positive(k);
    if k == n {
      assert Pow2(n) == 1 * Pow2(k);
    } else {
      Pow2Divides(k, n - 1);
      var q: nat :| Pow2(n - 1) == q * Pow2(k);
      assert Pow2(n) == (2 * q) * Pow2(k);
      ModUnique(Pow2(n), Pow2(k), 2 * q, 0);
    }
  }

  lemma CapacityDividesWord(k: nat)
    requires k <= 64
    ensures Pow2(k) > 0 && U64 % Pow2(k) == 0
  {
    WordIsPow2();
    Pow2Divides(k, 64);
  }

  lemma BeyondWord(k: nat)
    requires k >= 64
    ensures Pow2(k) >= U64
  {
    WordIsPow2();
    Pow2Sum(k - 64, 64);
    Pow2Positive(k - 64);
    MultipleAtLeast(Pow2(k - 64), U64);
  }

  lemma WordIsPow2()
    ensures Pow2(64) == U64
  {
    assert Pow2(4) == 16;
    Pow2Sum(4, 4);
    Pow2Sum(8, 8);
    Pow2Sum(16, 16);
    Pow2Sum(32, 32);
  }

  lemma {:induction false} Pow2Sum(a: nat, b: nat)
    ensures Pow2(a + b) == Pow2(a) * Pow2(b)
  {
    if a > 0 {
      Pow2Sum(a - 1, b);
      assert Pow2(a) * Pow2(b) == 2 * (Pow2(a - 1) * Pow2(b));
    }
  }

  /** `len()` computed from a published tail position `t` and a head position `h` loaded after it. The
      head may have overtaken that tail by then; the value is the number of queued items exactly when
      it has not, and otherwise it is a full lap too large. */
  lemma LenExact(t: nat, h: nat, c: nat)
    requires PowerOfTwo(c) && c < U64
    requires t < h + c && h < t + c
    ensures c > 0
    ensures BitAnd(WrappingSub(Slot(t, c), Slot(h, c)), c - 1) == if h <= t then t - h else t - h + c
    ensures BitAnd(WrappingSub(Slot(t, c), Slot(h, c)), c - 1) == t - h <==> h <= t
  {
    var k: nat :| Pow2(k) == c;
    if k >= 64 {
      BeyondWord(k);
    }
    CapacityDividesWord(k);
    SlotIsMod(t, c);
    SlotIsMod(h, c);
    MaskIsMod(WrappingSub(t % c, h % c), k);
    WrappedDistance(t, h, c);
    if h <= t {
      ModUnique(t - h, c, 0, t - h);
    } else {
      ModUnique(t - h, c, -1, t - h + c);
    }
  }

  /** The slot after a position is that of `h` again exactly one lap later. */
  lemma FullSlot(t: nat, h: nat, c: nat)
    requires c > 0
    requires h <= t < h + c
    ensures Slot(Slot(t, c) + 1, c) == Slot(h, c) <==> t - h == c - 1
  {
    NextIndex(t, c);
    if t + 1 < h + c {
      SameSlot(h, t + 1, c);
    } else {
      SameSlotNextLap(h, c);
    }
  }

  /** `is_full()` on a quiescent ring: true exactly at Capacity - 1 queued items. */
  lemma FullExact(t: nat, h: nat, c: nat)
    requires PowerOfTwo(c) && h <= t < h + c
    ensures c > 0 && (BitAnd(Slot(t, c) + 1, c - 1) == Slot(h, c) <==> t - h == c - 1)
  {
    MaskIsSlot(Slot(t, c) + 1, c);
    FullSlot(t, h, c);
  }
}
