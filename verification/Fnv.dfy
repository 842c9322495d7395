/** The FNV-1a hash of key expressions, and how far it separates them. */
module Fnv {
  import opened Mask

  type Word = h: nat | h < U64
  type Byte = b: nat | b < 256
  type Path = seq<Byte>

  const OFFSET: Word := 0xcbf29ce484222325
  const PRIME: Word := 0x100000001b3
  const INVERSE: Word := 0xce965057aff6957b

  /** One round: mix a byte in, then multiply modulo 2^64. */
  function Round(h: Word, b: Byte): Word {
    Xor(h, b) * PRIME % U64
  }

  /** The rounds over `s` from state `h`. */
  function Rounds(h: Word, s: Path): Word
    decreases |s|
  {
    if s == [] then h else Rounds(Round(h, s[0]), s[1..])
  }

  function Hash(s: Path): Word {
    Rounds(OFFSET, s)
  }

  /** The loop over the bytes of a path. */
  method Fnv1aHash(s: Path) returns (hash: Word)
    ensures hash == Hash(s)
  {
    hash := OFFSET;
    for i := 0 to |s|
      invariant Hash(s) == Rounds(hash, s[i..])
    {
      XorWord(hash, s[i]);
      hash := Xor(hash, s[i]);
      hash := hash * PRIME % U64;
    }
  }

  /** The state before the byte `b` was mixed in. */
  function Unround(h: Word, b: Byte): nat {
    Xor(h * INVERSE % U64, b)
  }

  lemma XorWord(h: Word, b: Byte)
    ensures Xor(h, b) < U64
  {
    WordIsPow2();
    XorBound(h, b, 64);
  }

  /** Multiplying by the prime modulo 2^64 is undone by multiplying by its inverse. */
  lemma MulUndone(x: Word)
    ensures (x * PRIME % U64) * INVERSE % U64 == x
  {
    var q := x * PRIME / U64;
    var r := x * PRIME % U64;
    assert PRIME * INVERSE == 887285111055 * U64 + 1;
    ModUnique(r * INVERSE, U64, x * 887285111055 - q * INVERSE, x);
  }

  /** A round is a bijection of the 64-bit state, for every byte. */
  lemma RoundUndone(h: Word, b: Byte)
    ensures Unround(Round(h, b), b) == h
  {
    XorWord(h, b);
    MulUndone(Xor(h, b));
    XorUndone(h, b);
  }

  lemma RoundOnto(h: Word, b: Byte)
    ensures Unround(h, b) < U64 && Round(Unround(h, b), b) == h
  {
    XorWord(h * INVERSE % U64, b);
    XorUndone(h * INVERSE % U64, b);
    var q, r := h * INVERSE / U64, h * INVERSE % U64;
    ModUnique(r * PRIME, U64, h * 887285111055 - q * PRIME, h);
  }

  /** Different bytes take one state to different states. */
  lemma RoundSeparates(h: Word, a: Byte, b: Byte)
    ensures Round(h, a) == Round(h, b) <==> a == b
  {
    if Round(h, a) == Round(h, b) {
      XorWord(h, a);
      XorWord(h, b);
      MulUndone(Xor(h, a));
      MulUndone(Xor(h, b));
      XorCancel(h, a, b);
    }
  }

  lemma {:induction false} XorCommutes(x: nat, y: nat)
    ensures Xor(x, y) == Xor(y, x)
  {
    if x != 0 && y != 0 {
      XorCommutes(x / 2, y / 2);
    }
  }

  lemma XorCancel(h: nat, a: nat, b: nat)
    requires Xor(h, a) == Xor(h, b)
    ensures a == b
  {
    XorCommutes(h, a);
    XorCommutes(h, b);
    XorUndone(a, h);
    XorUndone(b, h);
  }

  lemma {:induction false} RoundsAppend(h: Word, s: Path, t: Path)
    ensures Rounds(h, s + t) == Rounds(Rounds(h, s), t)
    decreases |s|
  {
    if s == [] {
      assert s + t == t;
    } else {
      assert (s + t)[1..] == s[1..] + t;
      RoundsAppend(Round(h, s[0]), s[1..], t);
    }
  }

  /** However long the suffix, it never merges two states: no collision can arise after the last byte in
      which two paths differ. */
  lemma {:induction false} RoundsInjective(h: Word, g: Word, t: Path)
    ensures Rounds(h, t) == Rounds(g, t) <==> h == g
    decreases |t|
  {
    if t != [] {
      RoundsInjective(Round(h, t[0]), Round(g, t[0]), t[1..]);
      RoundUndone(h, t[0]);
      RoundUndone(g, t[0]);
    }
  }

  /** Appending a common suffix neither creates nor removes a collision. */
  lemma CommonSuffix(s: Path, s': Path, t: Path)
    ensures Hash(s + t) == Hash(s' + t) <==> Hash(s) == Hash(s')
  {
    RoundsAppend(OFFSET, s, t);
    RoundsAppend(OFFSET, s', t);
    RoundsInjective(Hash(s), Hash(s'), t);
  }

  /** Two paths of equal length that differ in exactly one byte never collide. */
  lemma OneByteApart(s: Path, s': Path, i: nat)
    requires |s| == |s'| && i < |s| && s[i] != s'[i]
    requires forall k :: 0 <= k < |s| && k != i ==> s[k] == s'[k]
    ensures Hash(s) != Hash(s')
  {
    var before, after := s[..i], s[i + 1..];
    assert s == before + ([s[i]] + after) && s' == before + ([s'[i]] + after);
    var h := Hash(before);
    RoundsAppend(OFFSET, before, [s[i]] + after);
    RoundsAppend(OFFSET, before, [s'[i]] + after);
    assert ([s[i]] + after)[1..] == after && ([s'[i]] + after)[1..] == after;
    RoundsInjective(Round(h, s[i]), Round(h, s'[i]), after);
    RoundSeparates(h, s[i], s'[i]);
  }

  /** The states that hash `t` to `h`: exactly one. Hashing a suffix can be run backwards. */
  function Unrounds(h: Word, t: Path): Word
    decreases |t|
  {
    if t == [] then h
    else
      RoundOnto(Unrounds(h, t[1..]), t[0]);
      Unround(Unrounds(h, t[1..]), t[0])
  }

  lemma {:induction false} RoundsUndone(h: Word, t: Path)
    ensures Rounds(Unrounds(h, t), t) == h
    ensures Unrounds(Rounds(h, t), t) == h
    decreases |t|
  {
    if t != [] {
      var g := Unrounds(h, t[1..]);
      RoundOnto(g, t[0]);
      RoundsUndone(h, t[1..]);
      RoundsUndone(Round(h, t[0]), t[1..]);
      RoundUndone(h, t[0]);
    }
  }
  /** The published state after mixing the byte of "a" into the offset, digit by digit. */
  lemma FirstByte(b: Byte)
    requires b == 0x61
    ensures Xor(OFFSET, b) == 0xcbf29ce484222344
  {
    XorDigit(0x197e539c9084446, 0, 0x0, 1);
    XorDigit(0x32fca739210888c, 1, 0x1, 1);
    XorDigit(0x65f94e724211119, 0, 0x3, 0);
    XorDigit(0xcbf29ce48422232, 0, 0x6, 0);
    XorDigit(0x197e539c90844464, 1, 0xc, 0);
    XorDigit(0x32fca739210888c9, 0, 0x18, 0);
    XorDigit(0x65f94e7242111192, 1, 0x30, 1);
  }

  /** The hash of "a", as published with the algorithm. */
  lemma PublishedHash(s: Path)
    requires s == [0x61]
    ensures Hash(s) == 0xaf63dc4c8601ec8c
  {
    FirstByte(s[0]);
    OneRound(OFFSET, s);
    Reduced(0xcbf29ce484222344 * PRIME, 0xaf63dc4c8601ec8c);
  }

  lemma OneRound(h: Word, s: Path)
    requires |s| == 1
    ensures Rounds(h, s) == Round(h, s[0])
  {
  }

  lemma Reduced(x: nat, r: nat)
    requires r < U64 && x == x / U64 * U64 + r
    ensures x % U64 == r
  {
  }
}
