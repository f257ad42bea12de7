/**
 * Arithmetic on naturals read as bit strings: powers of two, the right
 * shift, bitwise OR and bit length. A `usize` below 2^33 is represented
 * by its value, so the OR-and-shift steps of the power-of-two rounding
 * can be stated and proved without a fixed width.
 */
module Bits {

  /** 2^k. */
  function Pow2(k: nat): (p: nat)
    ensures p >= 1
  {
    if k == 0 then 1 else 2 * Pow2(k - 1)
  }

  /** `n >> s`: the value shifted right by `s` places. */
  function Shr(n: nat, s: nat): (r: nat)
    ensures r <= n
  {
    if s == 0 then n else Shr(n / 2, s - 1)
  }

  /** `a | b`: bitwise OR, one bit at a time from the least significant. */
  function BitOr(a: nat, b: nat): nat
    decreases a + b
  {
    if a == 0 && b == 0 then 0
    else 2 * BitOr(a / 2, b / 2) + (if a % 2 == 1 || b % 2 == 1 then 1 else 0)
  }

  /** Bit `j` of `n` is set. */
  predicate Bit(n: nat, j: nat)
  {
    if j == 0 then n % 2 == 1 else Bit(n / 2, j - 1)
  }

  /** Number of significant bits of `x` (0 for 0). */
  function BitLen(x: nat): nat
  {
    if x == 0 then 0 else 1 + BitLen(x / 2)
  }

  lemma {:induction false} Pow2Add(a: nat, b: nat)
    ensures Pow2(a + b) == Pow2(a) * Pow2(b)
  {
    if a > 0 {
      Pow2Add(a - 1, b);
    }
  }

  /** The powers of two of one byte. */
  lemma Pow2Byte()
    ensures Pow2(7) == 128 && Pow2(8) == 256
  {
  }

  /** The powers of two that bound a 32-bit value. */
  lemma Pow2Word()
    ensures Pow2(31) == 0x8000_0000 && Pow2(32) == 0x1_0000_0000
  {
    Pow2Byte();
    Pow2Add(8, 8);
    assert Pow2(16) == 0x1_0000;
    Pow2Add(16, 16);
    assert Pow2(32) == 0x1_0000_0000;
  }

  lemma {:induction false} Pow2Monotone(a: nat, b: nat)
    requires a <= b
    ensures Pow2(a) <= Pow2(b)
  {
    if a < b {
      Pow2Monotone(a, b - 1);
    }
  }

  /** Powers of two are ordered like their exponents, in both directions. */
  lemma Pow2Less(a: nat, b: nat)
    ensures Pow2(a) < Pow2(b) <==> a < b
  {
    if a < b {
      Pow2Monotone(a + 1, b);
    } else {
      Pow2Monotone(b, a);
    }
  }

  /** A bit of an OR is set exactly when it is set in one of the operands. */
  lemma {:induction false} BitOrBit(a: nat, b: nat, j: nat)
    ensures Bit(BitOr(a, b), j) <==> Bit(a, j) || Bit(b, j)
  {
    if a == 0 && b == 0 {
    } else if j > 0 {
      BitOrBit(a / 2, b / 2, j - 1);
    }
  }

  /** Bit `j` of `n >> s` is bit `j + s` of `n`. */
  lemma {:induction false} ShrBit(n: nat, s: nat, j: nat)
    ensures Bit(Shr(n, s), j) <==> Bit(n, j + s)
  {
    if s > 0 {
      ShrBit(n / 2, s - 1, j);
    }
  }

  /** OR never sets a bit at or above `k` when neither operand has one. */
  lemma {:induction false} BitOrBelow(a: nat, b: nat, k: nat)
    requires a < Pow2(k) && b < Pow2(k)
    ensures BitOr(a, b) < Pow2(k)
  {
    if k > 0 && !(a == 0 && b == 0) {
      BitOrBelow(a / 2, b / 2, k - 1);
    }
  }

  /** A value below 2^k whose bits 0..k-1 are all set is 2^k - 1. */
  lemma {:induction false} AllOnes(n: nat, k: nat)
    requires n < Pow2(k)
    requires forall j :: 0 <= j < k ==> Bit(n, j)
    ensures n + 1 == Pow2(k)
  {
    if k > 0 {
      assert Bit(n, 0);
      forall j | 0 <= j < k - 1
        ensures Bit(n / 2, j)
      {
        assert Bit(n, j + 1);
      }
      AllOnes(n / 2, k - 1);
    }
  }

  /** `BitLen(x)` is the exponent of the smallest power of two above `x`, and its top bit is set. */
  lemma {:induction false} BitLenBounds(x: nat)
    ensures x < Pow2(BitLen(x))
    ensures x > 0 ==> Pow2(BitLen(x) - 1) <= x && Bit(x, BitLen(x) - 1)
  {
    if x > 0 {
      BitLenBounds(x / 2);
    }
  }

  /** The bit length is the least `k` with `x < 2^k`. */
  lemma BitLenLeast(x: nat, k: nat)
    requires x < Pow2(k)
    ensures BitLen(x) <= k
  {
    BitLenBounds(x);
    if x > 0 && BitLen(x) > k {
      Pow2Monotone(k, BitLen(x) - 1);
    }
  }
}
