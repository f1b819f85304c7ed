/** Big-endian integers, the byte order of every integer on the wire. */
module Bytes {
  import opened Arithmetic

  type byte = b: int | 0 <= b < 256

  const U8_SPAN := 0x100
  const U32_SPAN := 0x1_0000_0000
  const U64_SPAN := 0x1_0000_0000_0000_0000

  /** How many values fit into `width` bytes. */
  function Span(width: nat): (span: nat)
    ensures span >= 1
  {
    if width == 0 then 1 else 256 * Span(width - 1)
  }

  /** The `width` low bytes of `n`, most significant first. */
  function BigEndian(n: nat, width: nat): (bs: seq<byte>)
    ensures |bs| == width
  {
    if width == 0 then [] else BigEndian(n / 256, width - 1) + [n % 256]
  }

  function FromBigEndian(bs: seq<byte>): (n: nat)
    ensures n < Span(|bs|)
  {
    if bs == [] then 0 else FromBigEndian(bs[..|bs| - 1]) * 256 + bs[|bs| - 1]
  }

  lemma {:induction false} DecodeOfBigEndian(n: nat, width: nat)
    requires n < Span(width)
    ensures FromBigEndian(BigEndian(n, width)) == n
  {
    if width > 0 {
      DecodeOfBigEndian(n / 256, width - 1);
      var bs := BigEndian(n, width);
      assert bs[..width - 1] == BigEndian(n / 256, width - 1);
    }
  }

  lemma {:induction false} BigEndianOfDecode(bs: seq<byte>)
    ensures BigEndian(FromBigEndian(bs), |bs|) == bs
  {
    if bs != [] {
      BigEndianOfDecode(bs[..|bs| - 1]);
      assert FromBigEndian(bs) / 256 == FromBigEndian(bs[..|bs| - 1]);
      assert bs == bs[..|bs| - 1] + [bs[|bs| - 1]];
    }
  }

  /** Byte `k` of an integer is its k-th base-256 digit, counted from the most significant of `width`. */
  lemma {:induction false} BigEndianAt(n: nat, width: nat, k: nat)
    requires k < width
    ensures BigEndian(n, width)[k] == n / Span(width - 1 - k) % 256
  {
    if k < width - 1 {
      BigEndianAt(n / 256, width - 1, k);
      DivideTwice(n, 256, Span(width - 2 - k));
    }
  }

  lemma SpanValues()
    ensures Span(1) == U8_SPAN && Span(2) == 0x1_0000 && Span(4) == U32_SPAN && Span(8) == U64_SPAN
  {
    assert Span(3) == 256 * Span(2);
    assert Span(5) == 256 * Span(4);
    assert Span(6) == 256 * Span(5);
    assert Span(7) == 256 * Span(6);
  }
}
