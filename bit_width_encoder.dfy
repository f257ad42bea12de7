/**
 * The variable-width big-endian integer encoder (`next_pow2` and
 * `short_be_bytes`, src/lib.rs:1-11 and 21-58).
 *
 * The byte count is derived from the next power of two, `2^k` with
 * `k >= 1`, as `(k + 8) / 8`. That is one byte up to 128 and one more byte
 * each time the value passes 128 * 256^(w-1); it is NOT the minimal count
 * (129..255 take two bytes, the first of them 0).
 */
module BitWidthEncoder {
  import opened Types
  import opened Bits

  /** Largest value `next_pow2` and `short_be_bytes` are modelled for. */
  const MaxValue: nat := 0x1_0000_0000

  /**
   * `next_pow2`: round `n` up to a power of two by smearing the top bit of
   * `n - 1` into every lower bit (OR with itself shifted by 1, 2, 4, 8, 16)
   * and adding one.
   */
  method NextPow2(n: nat) returns (r: nat)
    requires 1 <= n <= MaxValue
    ensures r == Pow2(BitLen(n - 1))
    ensures n <= r
    ensures forall k :: n <= Pow2(k) ==> r <= Pow2(k)
  {
    ghost var len := BitLen(n - 1);
    BitLenBounds(n - 1);
    var m: nat := n - 1;
    var i: nat := 0;
    while i <= 4
      invariant 0 <= i <= 5
      invariant m < Pow2(len)
      invariant forall j :: len - Min(Pow2(i), len) <= j < len ==> Bit(m, j)
    {
      SmearStep(m, Pow2(i), len);
      m := BitOr(m, Shr(m, Pow2(i)));
      i := i + 1;
    }
    Pow2Word();
    BitLenLeast(n - 1, 32);
    assert i == 5 && Pow2(5) == 32;
    assert Min(Pow2(i), len) == len;
    AllOnes(m, len);
    r := m + 1;
    forall k | n <= Pow2(k)
      ensures r <= Pow2(k)
    {
      BitLenLeast(n - 1, k);
      Pow2Monotone(len, k);
    }
  }

  /**
   * One step of the smear, `m |= m >> s`: when the top `s` bits of a
   * `len`-bit value are set, afterwards its top `2s` bits are.
   */
  lemma SmearStep(m: nat, s: nat, len: nat)
    requires m < Pow2(len)
    requires forall j :: len - Min(s, len) <= j < len ==> Bit(m, j)
    ensures BitOr(m, Shr(m, s)) < Pow2(len)
    ensures forall j :: len - Min(2 * s, len) <= j < len ==> Bit(BitOr(m, Shr(m, s)), j)
  {
    forall j | len - Min(2 * s, len) <= j < len
      ensures Bit(BitOr(m, Shr(m, s)), j)
    {
      BitOrBit(m, Shr(m, s), j);
      if j < len - Min(s, len) {
        ShrBit(m, s, j);
      }
    }
    BitOrBelow(m, Shr(m, s), len);
  }

  function Min(a: int, b: int): int
  {
    if a <= b then a else b
  }

  /**
   * Number of bytes `short_be_bytes` produces for `d`: one for 0..128,
   * otherwise one more than for ceil(d / 256).
   */
  function ByteCount(d: nat): (w: nat)
    ensures w >= 1
  {
    if d <= 128 then 1 else 1 + ByteCount((d + 255) / 256)
  }

  /** `w` bytes, least significant first, of `d` modulo 256^w. */
  function LeBytes(d: nat, w: nat): (s: seq<byte>)
    ensures |s| == w
  {
    if w == 0 then [] else [(d % 256) as byte] + LeBytes(d / 256, w - 1)
  }

  /** `d.to_le_bytes()` for a 64-bit `usize`. */
  function ToLeBytes(d: nat): (s: seq<byte>)
    ensures |s| == 8
  {
    LeBytes(d, 8)
  }

  /** `w` bytes, most significant first, of `d` modulo 256^w. */
  function BeDigits(d: nat, w: nat): (s: seq<byte>)
    ensures |s| == w
  {
    if w == 0 then [] else BeDigits(d / 256, w - 1) + [(d % 256) as byte]
  }

  /** The number a byte sequence denotes when read most significant byte first. */
  function BeValue(s: seq<byte>): nat
  {
    if s == [] then 0 else 256 * BeValue(s[..|s| - 1]) + s[|s| - 1] as nat
  }

  /** `Vec::reverse`. */
  function Reverse(s: seq<byte>): (r: seq<byte>)
    ensures |r| == |s|
  {
    if s == [] then [] else Reverse(s[1..]) + [s[0]]
  }

  /** What `short_be_bytes(d)` returns. */
  function ShortBe(d: nat): seq<byte>
  {
    BeDigits(d, ByteCount(d))
  }

  /**
   * `short_be_bytes`: compute the byte count from the next power of two,
   * copy that many little-endian bytes of `d` and reverse them.
   */
  method ShortBeBytes(d: nat) returns (res: seq<byte>)
    requires 1 <= d <= MaxValue
    ensures |res| == ByteCount(d)
    ensures BeValue(res) == d
    ensures res == ShortBe(d)
  {
    var np2 := NextPow2(d);
    var exp: nat := 1;
    if np2 < 2 {
      np2 := 2;
    }
    ghost var k := if BitLen(d - 1) == 0 then 1 else BitLen(d - 1);
    assert np2 == Pow2(k) by {
      if BitLen(d - 1) > 0 {
        Pow2Monotone(1, BitLen(d - 1));
      }
    }
    while np2 != 2
      invariant 1 <= exp <= k
      invariant np2 == Pow2(k - exp + 1)
      decreases np2
    {
      np2 := np2 / 2;
      exp := exp + 1;
    }
    Pow2Less(k - exp + 1, 1);
    Pow2Less(1, k - exp + 1);
    exp := (exp + 1 + 8 - 1) / 8;
    Pow2Word();
    BitLenLeast(d - 1, 32);
    ByteCountFormula(d);
    assert exp == ByteCount(d) <= 5;

    var le := ToLeBytes(d);
    res := seq(exp, _ => 0 as byte);
    for i := 0 to 8
      invariant i <= exp && |res| == exp
      invariant forall j :: 0 <= j < i ==> res[j] == le[j]
    {
      if i > exp - 1 {
        break;
      }
      res := res[i := le[i]];
    }
    assert res == le[..exp];
    LeBytesPrefix(d, 8, exp);
    ReverseLeBytes(d, exp);
    res := Reverse(res);
    ShortBeValue(d);
  }

  /**
   * `ByteCount(d)` is the least `w >= 1` with `d <= 2^(8w - 1)`, that is
   * `d <= 128 * 256^(w-1)`.
   */
  lemma {:induction false} ByteCountBounds(d: nat)
    ensures d <= Pow2(8 * ByteCount(d) - 1)
    ensures ByteCount(d) > 1 ==> Pow2(8 * ByteCount(d) - 9) < d
  {
    var w := ByteCount(d);
    Pow2Byte();
    if d > 128 {
      var e := (d + 255) / 256;
      ByteCountBounds(e);
      Pow2Add(8, 8 * (w - 1) - 1);
      if w > 2 {
        Pow2Add(8, 8 * (w - 1) - 9);
      }
    }
  }

  /** The byte count as the source computes it, from the bit length of `d - 1`. */
  lemma ByteCountFormula(d: nat)
    requires d >= 1
    ensures ByteCount(d) == BitLen(d - 1) / 8 + 1
  {
    var w, len := ByteCount(d), BitLen(d - 1);
    ByteCountBounds(d);
    BitLenLeast(d - 1, 8 * w - 1);
    if w > 1 {
      BitLenBounds(d - 1);
      Pow2Less(8 * w - 9, len);
    }
    assert 8 * (w - 1) <= len < 8 * w;
  }

  /** The bytes of `short_be_bytes(d)` read back as `d`, and there is at least one. */
  lemma ShortBeValue(d: nat)
    ensures |ShortBe(d)| == ByteCount(d) >= 1
    ensures BeValue(ShortBe(d)) == d
  {
    ByteCountBounds(d);
    Pow2Monotone(8 * ByteCount(d) - 1, 8 * ByteCount(d));
    BeDigitsValue(d, ByteCount(d));
  }

  lemma {:induction false} BeDigitsValue(d: nat, w: nat)
    requires d < Pow2(8 * w)
    ensures BeValue(BeDigits(d, w)) == d
  {
    if w > 0 {
      Pow2Add(8, 8 * (w - 1));
      BeDigitsValue(d / 256, w - 1);
      var s := BeDigits(d, w);
      assert s[..|s| - 1] == BeDigits(d / 256, w - 1);
    }
  }

  lemma {:induction false} LeBytesPrefix(d: nat, w: nat, k: nat)
    requires k <= w
    ensures LeBytes(d, w)[..k] == LeBytes(d, k)
  {
    if k > 0 {
      LeBytesPrefix(d / 256, w - 1, k - 1);
    }
  }

  /** Reversing the little-endian bytes gives the big-endian ones. */
  lemma {:induction false} ReverseLeBytes(d: nat, w: nat)
    ensures Reverse(LeBytes(d, w)) == BeDigits(d, w)
  {
    if w > 0 {
      ReverseLeBytes(d / 256, w - 1);
      assert LeBytes(d, w)[1..] == LeBytes(d / 256, w - 1);
    }
  }

  /** One byte for 1..128; two bytes with a leading 0 for 129..255; `[1, 0]` for 256. */
  lemma ShortBeVectors()
    ensures forall d :: 1 <= d <= 128 ==> ShortBe(d) == [d as byte]
    ensures forall d :: 129 <= d <= 255 ==> ShortBe(d) == [0, d as byte]
    ensures ShortBe(256) == [1, 0]
    ensures ShortBe(20) == [20]
  {
    forall d | 129 <= d <= 255
      ensures ShortBe(d) == [0, d as byte]
    {
      assert ByteCount(d) == 1 + ByteCount(1) == 2;
    }
    assert ByteCount(256) == 1 + ByteCount(1) == 2;
  }

  /** `next_pow2` on the values 1, 20, 256 and 257. */
  lemma NextPow2Vectors()
    ensures Pow2(BitLen(1 - 1)) == 1
    ensures Pow2(BitLen(20 - 1)) == 32
    ensures Pow2(BitLen(256 - 1)) == 256
    ensures Pow2(BitLen(257 - 1)) == 512
  {
    assert BitLen(19) == 5;
    assert BitLen(255) == 8;
    assert BitLen(256) == 9;
    Pow2Byte();
  }
}
