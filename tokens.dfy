/**
 * Attribute type tokens and masks.  The attribute registry hands out each
 * type as a Java `long` with exactly one bit set.  The model names a token by
 * the index of that bit, and a mask (any `long`) by the set of indices of its
 * set bits, so that Java's bitwise operators become set operations:
 * `m | t` is `m + {t}`, `m & ~t` is `m - {t}`, `(m & t) == t` is `t <= m`,
 * and `m & t != 0` is `m * t != {}`.
 */
module Tokens {

  /** A registered attribute type: the index of its single set bit. */
  type Token = k: nat | k < 64

  /** A Java `long` used as a bit mask: the indices of its set bits. */
  type Mask = set<Token>

  // The four tokens registered by the texture and float attributes.  Their
  // actual bits depend on class-initialisation order; only distinctness matters.
  const DiffuseBase: Token := 0
  const DiffuseHeight: Token := 1
  const DiffuseSlope: Token := 2
  const MinSlope: Token := 3

  /** `2^k`, the unsigned value of bit `k`. */
  function Pow2(k: nat): (r: nat)
    ensures r >= 1
  {
    if k == 0 then 1 else 2 * Pow2(k - 1)
  }

  /** Rank of a token in Java's signed order of `long`s: bit 63 alone is
      the negative value `Long.MIN_VALUE`, every other bit is positive. */
  function Key(t: Token): (r: int)
    ensures -1 <= r < 63
    ensures r == -1 <==> t == 63
  {
    if t == 63 then -1 else t
  }

  /** Order of two attribute types by their signed `long` values, as a
      comparator result; this is what `(int)(a.type - b.type)` means to do. */
  function TypeCompare(t: Token, u: Token): (r: int)
    ensures r < 0 <==> Key(t) < Key(u)
    ensures r == 0 <==> t == u
    ensures r > 0 <==> Key(u) < Key(t)
  {
    if Key(t) < Key(u) then -1 else if t == u then 0 else 1
  }

  lemma TypeCompareAntisymmetric(t: Token, u: Token)
    ensures TypeCompare(t, u) == -TypeCompare(u, t)
  {
  }

  /** The sign of `(int)(a.type - b.type)` exactly as Java evaluates it for
      two tokens: the `long` difference wraps modulo 2^64 and the cast keeps
      its low 32 bits, of which bit 31 is the sign of the `int`. */
  function TruncatedTypeDifference(t: Token, u: Token): int {
    var low := (Pow2(t) - Pow2(u)) % 0x1_0000_0000;
    if low == 0 then 0 else if low >= 0x8000_0000 then -1 else 1
  }

  lemma {:induction false} Pow2Add(a: nat, b: nat)
    ensures Pow2(a + b) == Pow2(a) * Pow2(b)
  {
    if b > 0 {
      Pow2Add(a, b - 1);
    }
  }

  lemma Pow2Values()
    ensures Pow2(0) == 1 && Pow2(30) == 0x4000_0000 && Pow2(31) == 0x8000_0000
    ensures Pow2(32) == 0x1_0000_0000 && Pow2(33) == 0x2_0000_0000
  {
    assert Pow2(2) == 4;
    assert Pow2(4) == 16 by { Pow2Add(2, 2); }
    assert Pow2(6) == 64 by { Pow2Add(4, 2); }
    assert Pow2(8) == 256 by { Pow2Add(4, 4); }
    assert Pow2(14) == 0x4000 by { Pow2Add(8, 6); }
    assert Pow2(16) == 0x1_0000 by { Pow2Add(8, 8); }
    assert Pow2(30) == 0x4000_0000 by { Pow2Add(16, 14); }
    assert Pow2(31) == 0x8000_0000;
    assert Pow2(32) == 0x1_0000_0000 by { Pow2Add(16, 16); }
    assert Pow2(33) == 0x2_0000_0000 by { Pow2Add(32, 1); }
  }

  /** The truncated difference misorders tokens 2^31 or more apart: bit 32 is
      reported smaller than bit 0, and bits 33 and 32 compare as equal. */
  lemma TruncatedDifferenceMisorders()
    ensures TypeCompare(32, 0) > 0 && TruncatedTypeDifference(32, 0) < 0
    ensures TypeCompare(33, 32) > 0 && TruncatedTypeDifference(33, 32) == 0
  {
    Pow2Values();
  }

  /** Among bits 0 to 31 the truncated difference has the sign of the true order. */
  lemma TruncatedDifferenceAgreesUpToBit31(t: Token, u: Token)
    requires t <= 31 && u <= 31
    ensures TruncatedTypeDifference(t, u) < 0 <==> TypeCompare(t, u) < 0
    ensures TruncatedTypeDifference(t, u) == 0 <==> TypeCompare(t, u) == 0
  {
    assert Pow2(t) <= 0x8000_0000 && Pow2(u) <= 0x8000_0000 by {
      Pow2Values();
      if t < 31 { Pow2Monotone(t, 31); }
      if u < 31 { Pow2Monotone(u, 31); }
    }
    assert (Pow2(t) < Pow2(u) <==> t < u) && (Pow2(u) < Pow2(t) <==> u < t) by {
      if t < u { Pow2Monotone(t, u); }
      if u < t { Pow2Monotone(u, t); }
    }
    SmallDifferenceSign(Pow2(t), Pow2(u));
  }

  /** The low 32 bits of the difference of two values in `[1, 2^31]`, read as
      an `int`, have the sign of the difference. */
  lemma SmallDifferenceSign(p: int, q: int)
    requires 1 <= p <= 0x8000_0000 && 1 <= q <= 0x8000_0000
    ensures (p - q) % 0x1_0000_0000 == 0 <==> p == q
    ensures (p - q) % 0x1_0000_0000 >= 0x8000_0000 <==> p < q
  {
    if p >= q {
      assert (p - q) % 0x1_0000_0000 == p - q;
    } else {
      assert (p - q) % 0x1_0000_0000 == p - q + 0x1_0000_0000;
    }
  }

  lemma {:induction false} Pow2Monotone(t: nat, u: nat)
    requires t < u
    ensures Pow2(t) < Pow2(u)
  {
    if t < u - 1 {
      Pow2Monotone(t, u - 1);
    }
  }

  // ---------------------------------------------------------------------
  // Java's signed `<` on two masks, decided bit by bit from the top.

  /** Unsigned comparison of the bits of `a` and `b` below index `n`: the
      highest differing bit decides. */
  predicate LessBelow(a: Mask, b: Mask, n: nat)
    requires n <= 64
  {
    if n == 0 then false
    else if (n - 1 in a) != (n - 1 in b) then n - 1 in b
    else LessBelow(a, b, n - 1)
  }

  /** `a < b` on two Java `long`s: a set bit 63 makes a value negative. */
  predicate LongLess(a: Mask, b: Mask) {
    if (63 in a) != (63 in b) then 63 in a else LessBelow(a, b, 63)
  }

  lemma {:induction false} LessBelowAsymmetric(a: Mask, b: Mask, n: nat)
    requires n <= 64
    ensures LessBelow(a, b, n) ==> !LessBelow(b, a, n)
  {
    if n > 0 && (n - 1 in a) == (n - 1 in b) {
      LessBelowAsymmetric(a, b, n - 1);
    }
  }

  /** When neither side is below the other, the bits below `n` agree. */
  lemma {:induction false} LessBelowTotal(a: Mask, b: Mask, n: nat)
    requires n <= 64
    requires !LessBelow(a, b, n) && !LessBelow(b, a, n)
    ensures forall k: Token :: k < n ==> (k in a <==> k in b)
  {
    if n > 0 {
      LessBelowTotal(a, b, n - 1);
    }
  }

  /** Java's `<` on longs is a strict total order. */
  lemma LongLessTotal(a: Mask, b: Mask)
    ensures !LongLess(a, a)
    ensures LongLess(a, b) ==> !LongLess(b, a)
    ensures a != b ==> LongLess(a, b) || LongLess(b, a)
  {
    LessBelowAsymmetric(a, a, 63);
    LessBelowAsymmetric(a, b, 63);
    if !LongLess(a, b) && !LongLess(b, a) {
      LessBelowTotal(a, b, 63);
      assert forall k: Token :: k in a <==> k in b;
    }
  }

  /** Bit 63 set means a negative long: it is below every mask without it. */
  lemma SignBitIsLeast(a: Mask, b: Mask)
    requires 63 in a && 63 !in b
    ensures LongLess(a, b)
  {
  }

  /** For a single-bit type `t`, `(m & t) != 0` and `(m & t) == t` both
      say that bit `t` is set in `m`. */
  lemma SingleBitTests(t: Token, m: Mask)
    ensures ({t} * m != {}) == (t in m)
    ensures ({t} <= m) == (t in m)
  {
    if t in m {
      assert t in {t} * m;
    } else {
      assert {t} * m == {};
    }
  }
}
