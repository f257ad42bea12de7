/**
 * The length/distance token (`to_code`, src/lib.rs:13-19): the bytes of the
 * length, the separator `:` (0x3A), the bytes of the distance. Nothing is
 * escaped, so a literal 0x3A elsewhere in the output is indistinguishable
 * from a separator.
 */
module TokenEncoder {
  import opened Types
  import opened Bits
  import opened BitWidthEncoder

  /** The ASCII colon written between the two numbers. */
  const Separator: byte := 0x3A

  /** The token for a match of `length` bytes at `distance`. */
  function Token(length: nat, distance: nat): seq<byte>
  {
    ShortBe(length) + [Separator] + ShortBe(distance)
  }

  /**
   * A token splits back into its parts: the first `ByteCount(length)` bytes
   * read as `length`, then the separator, then bytes that read as `distance`.
   */
  lemma TokenLayout(length: nat, distance: nat)
    ensures |Token(length, distance)| == ByteCount(length) + 1 + ByteCount(distance)
    ensures BeValue(Token(length, distance)[..ByteCount(length)]) == length
    ensures Token(length, distance)[ByteCount(length)] == Separator
    ensures BeValue(Token(length, distance)[ByteCount(length) + 1..]) == distance
  {
    ShortBeValue(length);
    ShortBeValue(distance);
    Split(ShortBe(length), Separator, ShortBe(distance));
  }

  lemma Split(a: seq<byte>, x: byte, b: seq<byte>)
    ensures (a + [x] + b)[..|a|] == a
    ensures (a + [x] + b)[|a|] == x
    ensures (a + [x] + b)[|a| + 1..] == b
  {
  }

  /** `to_code`: the length's bytes, then `:`, then the distance's bytes. */
  method ToCode(length: nat, distance: nat) returns (code: seq<byte>)
    requires 1 <= length <= MaxValue && 1 <= distance <= MaxValue
    ensures code == Token(length, distance)
  {
    var ld := ShortBeBytes(length);
    ld := ld + [Separator];
    var dist := ShortBeBytes(distance);
    ld := ld + dist;
    code := ld;
  }

  /** The vectors of the source's `to_code` test: `256:20` and `1:1`. */
  lemma TokenVectors()
    ensures Token(256, 20) == [1, 0, 58, 20]
    ensures Token(1, 1) == [1, 58, 1]
  {
    ShortBeVectors();
    assert ShortBe(1) == [1];
    assert Token(256, 20) == [1, 0] + [Separator] + [20];
    assert Token(1, 1) == [1] + [Separator] + [1];
  }
}
