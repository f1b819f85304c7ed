/** What well-formed UTF-8 is: the encodings of Unicode scalar values, one after the other. */
module Utf8 {
  import opened Bytes
  import opened Codec

  /** The bytes of one scalar value, six bits to each byte after the first (table 3-6 of the Unicode Standard). */
  function BytesOf(c: nat): seq<byte>
    requires IsScalar(c)
  {
    if c < 0x80 then [c]
    else if c < 0x800 then [0xC0 + c / 64, 0x80 + c % 64]
    else if c < 0x1_0000 then [0xE0 + c / 64 / 64, 0x80 + c / 64 % 64, 0x80 + c % 64]
    else [0xF0 + c / 64 / 64 / 64, 0x80 + c / 64 / 64 % 64, 0x80 + c / 64 % 64, 0x80 + c % 64]
  }

  ghost predicate AllScalar(cs: seq<nat>) {
    forall i :: 0 <= i < |cs| ==> IsScalar(cs[i])
  }

  function Text(cs: seq<nat>): seq<byte>
    requires AllScalar(cs)
  {
    if cs == [] then [] else BytesOf(cs[0]) + Text(cs[1..])
  }

  ghost predicate Spells(cs: seq<nat>, bs: seq<byte>) {
    AllScalar(cs) && Text(cs) == bs
  }

  /** What the first two, three or four bytes stand for. */
  function Two(a: int, b: int): int {
    (a - 0xC0) * 64 + (b - 0x80)
  }

  function Three(a: int, b: int, c: int): int {
    ((a - 0xE0) * 64 + (b - 0x80)) * 64 + (c - 0x80)
  }

  function Four(a: int, b: int, c: int, d: int): int {
    (((a - 0xF0) * 64 + (b - 0x80)) * 64 + (c - 0x80)) * 64 + (d - 0x80)
  }

  lemma SixBits(n: nat, b: byte)
    requires Continuation(b)
    ensures (n * 64 + (b - 0x80)) / 64 == n && (n * 64 + (b - 0x80)) % 64 == b - 0x80
  {
  }

  lemma TwoBytes(a: byte, b: byte)
    requires 0xC2 <= a < 0xE0 && Continuation(b)
    ensures var n := Two(a, b); n >= 0 && IsScalar(n) && BytesOf(n) == [a, b]
  {
    SixBits(a as int - 0xC0, b);
  }

  lemma ThreeBytes(a: byte, b: byte, c: byte)
    requires 0xE0 <= a < 0xF0 && Continuation(b) && Continuation(c)
    requires (a == 0xE0 ==> b >= 0xA0) && (a == 0xED ==> b < 0xA0)
    ensures var n := Three(a, b, c); n >= 0 && IsScalar(n) && BytesOf(n) == [a, b, c]
  {
    var m: nat := (a as int - 0xE0) * 64 + (b as int - 0x80);
    SixBits(a as int - 0xE0, b);
    SixBits(m, c);
  }

  lemma FourBytes(a: byte, b: byte, c: byte, d: byte)
    requires 0xF0 <= a < 0xF5 && Continuation(b) && Continuation(c) && Continuation(d)
    requires (a == 0xF0 ==> b >= 0x90) && (a == 0xF4 ==> b < 0x90)
    ensures var n := Four(a, b, c, d); n >= 0 && IsScalar(n) && BytesOf(n) == [a, b, c, d]
  {
    var l: nat := (a as int - 0xF0) * 64 + (b as int - 0x80);
    var m: nat := l * 64 + (c as int - 0x80);
    SixBits(a as int - 0xF0, b);
    SixBits(l, c);
    SixBits(m, d);
  }

  /** The first character of well-formed bytes. */
  lemma FirstScalar(bs: seq<byte>) returns (c: nat)
    requires bs != [] && IsUtf8(bs)
    ensures IsScalar(c) && |BytesOf(c)| <= |bs| && bs[..|BytesOf(c)|] == BytesOf(c) && IsUtf8(bs[|BytesOf(c)|..])
  {
    if bs[0] < 0x80 {
      c := bs[0];
    } else if bs[0] < 0xE0 {
      TwoBytes(bs[0], bs[1]);
      c := Two(bs[0], bs[1]);
    } else if bs[0] < 0xF0 {
      ThreeBytes(bs[0], bs[1], bs[2]);
      c := Three(bs[0], bs[1], bs[2]);
    } else {
      FourBytes(bs[0], bs[1], bs[2], bs[3]);
      c := Four(bs[0], bs[1], bs[2], bs[3]);
    }
  }

  /** The bytes of a scalar value meet the conditions on first and following bytes. */
  ghost predicate WellFormed(bs: seq<byte>) {
    match |bs|
    case 1 => bs[0] < 0x80
    case 2 => 0xC2 <= bs[0] < 0xE0 && Continuation(bs[1])
    case 3 =>
      && 0xE0 <= bs[0] < 0xF0 && Continuation(bs[1]) && Continuation(bs[2])
      && (bs[0] == 0xE0 ==> bs[1] >= 0xA0) && (bs[0] == 0xED ==> bs[1] < 0xA0)
    case 4 =>
      && 0xF0 <= bs[0] < 0xF5 && Continuation(bs[1]) && Continuation(bs[2]) && Continuation(bs[3])
      && (bs[0] == 0xF0 ==> bs[1] >= 0x90) && (bs[0] == 0xF4 ==> bs[1] < 0x90)
    case _ => false
  }

  lemma ScalarIsWellFormed(c: nat)
    requires IsScalar(c)
    ensures WellFormed(BytesOf(c))
  {
  }

  lemma WellFormedInFront(bs: seq<byte>, rest: seq<byte>)
    requires WellFormed(bs)
    ensures IsUtf8(bs + rest) == IsUtf8(rest)
  {
    assert (bs + rest)[|bs|..] == rest;
  }

  lemma ScalarInFront(c: nat, rest: seq<byte>)
    requires IsScalar(c)
    ensures IsUtf8(BytesOf(c) + rest) == IsUtf8(rest)
  {
    hide WellFormed, IsUtf8, IsScalar, BytesOf;
    ScalarIsWellFormed(c);
    WellFormedInFront(BytesOf(c), rest);
  }

  lemma {:induction false} WellFormedIsSpelled(bs: seq<byte>) returns (cs: seq<nat>)
    requires IsUtf8(bs)
    ensures Spells(cs, bs)
    decreases |bs|
  {
    hide IsUtf8, IsScalar;
    if bs == [] {
      cs := [];
    } else {
      var c := FirstScalar(bs);
      SomeBytes(c);
      hide BytesOf;
      var rest := WellFormedIsSpelled(bs[|BytesOf(c)|..]);
      cs := [c] + rest;
      assert cs[1..] == rest;
      assert bs == BytesOf(c) + bs[|BytesOf(c)|..];
    }
  }

  lemma SomeBytes(c: nat)
    requires IsScalar(c)
    ensures BytesOf(c) != []
  {
  }

  lemma {:induction false} SpelledIsWellFormed(cs: seq<nat>)
    requires AllScalar(cs)
    ensures IsUtf8(Text(cs))
  {
    hide BytesOf, IsScalar;
    if cs != [] {
      SpelledIsWellFormed(cs[1..]);
      ScalarInFront(cs[0], Text(cs[1..]));
    }
  }

  /** Bytes are accepted as text exactly when they spell a sequence of scalar values. */
  lemma WellFormedIffSpelled(bs: seq<byte>)
    ensures IsUtf8(bs) <==> exists cs :: Spells(cs, bs)
  {
    if IsUtf8(bs) {
      var cs := WellFormedIsSpelled(bs);
    }
    if cs :| Spells(cs, bs) {
      SpelledIsWellFormed(cs);
    }
  }
}
