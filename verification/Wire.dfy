/** The wire format byte by byte, and what the decoder's answers mean. */
module Wire {
  import opened Arithmetic
  import opened Bytes
  import opened Codec
  import opened CodecProofs

  // ---------------------------------------------------------------- the layout

  /** The bytes of a signed number stand for it modulo the span of its width. */
  lemma SignedIsTwosComplement(w: Width, n: int)
    requires -w.Half() <= n < w.Half()
    ensures FromBigEndian(Encode(Signed(w), Num(n))) == n % Span(w.Size())
  {
    w.HalfSpan();
    hide Span, BigEndian, FromBigEndian;
    RemainderOfNear(n, Span(w.Size()));
    DecodeOfBigEndian(TwosComplement(n, w), w.Size());
  }

  lemma SmallNumber(n: nat, width: nat)
    requires 0 < width && n < 256
    ensures BigEndian(n, width) == Zeros(width - 1) + [n]
  {
    ZeroBytes(width - 1);
  }

  function Zeros(n: nat): seq<byte> {
    seq(n, i => 0)
  }

  lemma {:induction false} ZeroBytes(width: nat)
    ensures BigEndian(0, width) == Zeros(width)
  {
    if width > 0 {
      ZeroBytes(width - 1);
    }
  }

  /** Known bytes: numbers, and what takes a number in front of it. */
  lemma NumberSamples()
    ensures Encode(Bits(W2), Num(258)) == [1, 2] && Encode(Signed(W2), Num(-2)) == [255, 254]
    ensures Encode(Char, Num(65)) == [0, 0, 0, 65] && Encode(Enum([Unit]), Variant(0, UnitValue)) == [0, 0, 0, 0]
  {
    assert BigEndian(1, 1) == [1] && BigEndian(255, 1) == [255];
    SmallNumber(65, 4);
    SmallNumber(0, 4);
    assert Zeros(3) == [0, 0, 0];
    hide BigEndian;
    assert Encode(Unit, UnitValue) == [];
  }

  /** Known bytes: a single byte tells which of two values it is. */
  lemma FlagSamples()
    ensures Encode(Bool, Flag(true)) == [1] && Encode(Bool, Flag(false)) == [0]
    ensures Encode(Opt(Bool), Nothing) == [0] && Encode(Opt(Bool), Just(Flag(false))) == [1, 0]
  {
  }

  /** Known bytes: a count of eight bytes in front of text. */
  lemma CountSamples()
    ensures Encode(Str, Raw([104, 105])) == Zeros(7) + [2, 104, 105]
    ensures Encode(Blob, Raw([200, 201])) == Zeros(7) + [2, 200, 201]
  {
    SmallNumber(2, 8);
    hide BigEndian;
    assert IsUtf8([104, 105][1..]);
  }

  /** Known bytes: a count in front of a sequence too, and nothing in front of a tuple. */
  lemma ListSamples()
    ensures Encode(Seq(Bool), List([Flag(true), Flag(false)])) == Zeros(7) + [2, 1, 0]
    ensures Encode(Tuple([Bool, Bool]), List([Flag(true), Flag(false)])) == [1, 0]
  {
    SmallNumber(2, 8);
    hide BigEndian;
    FlagSamples();
    var vs := [Flag(true), Flag(false)];
    assert vs[1..] == [Flag(false)] && vs[1..][1..] == [] && [Bool, Bool][1..] == [Bool];
    assert EncodeAll(Bool, vs[1..]) == [0] + EncodeAll(Bool, []);
  }

  // ---------------------------------------------------------------- what decoding means

  /** Some value of the type is encoded at the front of the bytes, and no count in it is refused. */
  ghost predicate Begins(s: Schema, b: seq<byte>, v: Value, rest: seq<byte>) {
    Typed(s, v) && b == Encode(s, v) + rest && CountsFit(s, v, |rest|)
  }

  /** Bytes decode exactly when they begin with an encoding whose counts fit; then with what it encodes and what follows. */
  lemma DecodesIffEncoded(s: Schema, b: seq<byte>)
    ensures Decode(s, b).Ok? <==> exists v, rest :: Begins(s, b, v, rest)
    ensures forall v, rest :: Begins(s, b, v, rest) ==> Decode(s, b) == Ok(v, rest)
  {
    hide Decode, Encode, Typed, CountsFit;
    if Decode(s, b).Ok? {
      var v, rest := Decode(s, b).value, Decode(s, b).rest;
      Canonical(s, b);
      RoundTrip(s, v, rest);
      assert Begins(s, b, v, rest);
    }
    forall v, rest | Begins(s, b, v, rest) ensures Decode(s, b) == Ok(v, rest) {
      RoundTrip(s, v, rest);
    }
  }

  // ---------------------------------------------------------------- what errors say

  /** Four bytes in a row are this number. */
  ghost predicate HoldsNumber(b: seq<byte>, n: nat, k: nat) {
    k + 4 <= |b| && FromBigEndian(b[k..k + 4]) == n
  }

  ghost predicate HoldsNoText(b: seq<byte>, k: nat, end: nat) {
    k <= end <= |b| && !IsUtf8(b[k..end])
  }

  /** The bytes give reason for the error: what it complains of is there, and is wrong. */
  ghost predicate Justified(error: DecodeError, b: seq<byte>) {
    match error
    case UnexpectedEnd => true
    case InvalidBool(x) => x > 1 && x in b
    case InvalidChar(c) => !IsScalar(c) && exists k: nat :: HoldsNumber(b, c, k)
    case InvalidUtf8 => exists k: nat, end: nat :: HoldsNoText(b, k, end)
    case InvalidVariant(i) => exists k: nat :: HoldsNumber(b, i, k)
  }

  lemma JustifiedInTail(error: DecodeError, b: seq<byte>, n: nat)
    requires n <= |b| && Justified(error, b[n..])
    ensures Justified(error, b)
  {
    var tail := b[n..];
    match error
    case InvalidChar(c) => NumberInTail(b, n, c);
    case InvalidVariant(i) => NumberInTail(b, n, i);
    case InvalidUtf8 =>
      var k: nat, end: nat :| HoldsNoText(tail, k, end);
      assert b[n + k..n + end] == tail[k..end];
      assert HoldsNoText(b, n + k, n + end);
    case _ =>
  }

  lemma NumberInTail(b: seq<byte>, n: nat, x: nat)
    requires n <= |b| && exists k: nat :: HoldsNumber(b[n..], x, k)
    ensures exists k: nat :: HoldsNumber(b, x, k)
  {
    var k: nat :| HoldsNumber(b[n..], x, k);
    assert b[n + k..n + k + 4] == b[n..][k..k + 4];
    assert HoldsNumber(b, x, n + k);
  }

  /** The type has a part of which the decoder can complain so. */
  ghost predicate CanComplain(s: Schema, error: DecodeError)
    decreases s
  {
    error == UnexpectedEnd ||
    match s
    case Bool => error.InvalidBool?
    case Char => error.InvalidChar?
    case Str => error.InvalidUtf8?
    case Opt(t) => error.InvalidBool? || CanComplain(t, error)
    case Seq(e) => CanComplain(e, error)
    case Tuple(fs) => exists i :: 0 <= i < |fs| && CanComplain(fs[i], error)
    case Enum(ts) =>
      || (error.InvalidVariant? && error.index >= |ts|)
      || exists i :: 0 <= i < |ts| && CanComplain(ts[i], error)
    case _ => false
  }

  ghost predicate Proper(s: Schema, b: seq<byte>, error: DecodeError) {
    Justified(error, b) && CanComplain(s, error)
  }

  /** What is left after a value is the end of what there was. */
  lemma RestIsTail(s: Schema, b: seq<byte>)
    requires Decode(s, b).Ok?
    ensures |Decode(s, b).rest| <= |b| && Decode(s, b).rest == b[|b| - |Decode(s, b).rest|..]
  {
    hide Decode, Encode;
    Canonical(s, b);
    var front, rest := Encode(s, Decode(s, b).value), Decode(s, b).rest;
    assert (front + rest)[|front|..] == rest;
  }

  lemma LeafErrorIsJustified(s: Schema, b: seq<byte>)
    requires !s.Opt? && !s.Seq? && !s.Tuple? && !s.Enum?
    requires Decode(s, b).Err?
    ensures Proper(s, b, Decode(s, b).error)
  {
    hide FromBigEndian, IsUtf8, DecodeMany, DecodeFields;
    if s == Char && |b| >= 4 {
      assert HoldsNumber(b, FromBigEndian(b[0..4]), 0);
    } else if s == Str && TakeRaw(b).Ok? {
      var n := TakeLength(b).value;
      assert b[8..8 + n] == TakeRaw(b).value;
      assert HoldsNoText(b, 8, 8 + n);
    }
  }

  lemma JustifiedInPart(s: Schema, b: seq<byte>, n: nat, part: Schema, error: DecodeError)
    requires n <= |b| && Proper(part, b[n..], error)
    requires s == Opt(part) || s == Seq(part) || (s.Enum? && part in s.variants)
    ensures Proper(s, b, error)
  {
    JustifiedInTail(error, b, n);
    hide Justified;
    if s.Enum? {
      var i :| 0 <= i < |s.variants| && s.variants[i] == part;
      assert CanComplain(s.variants[i], error);
    }
  }

  /**
   Errors tell the truth, at any depth of any type: an invalid flag, character, variant or text that the
   decoder complains of is among the bytes, it is invalid, and the type has a part that it is invalid for.
   */
  lemma {:induction false} ErrorsAreJustified(s: Schema, b: seq<byte>)
    requires Decode(s, b).Err?
    ensures Proper(s, b, Decode(s, b).error)
    decreases s, 0
  {
    hide FromBigEndian, IsUtf8, DecodeMany, DecodeFields, Proper;
    match s
    case Opt(t) =>
      if b != [] && b[0] == 1 {
        ErrorsAreJustified(t, b[1..]);
        JustifiedInPart(s, b, 1, t, Decode(s, b).error);
      } else {
        FlagErrorIsJustified(t, b);
      }
    case Seq(e) =>
      var len := TakeLength(b);
      if len.Ok? {
        ManyErrorsAreJustified(e, len.value, len.rest);
        JustifiedInPart(s, b, 8, e, Decode(s, b).error);
      } else {
        EndIsJustified(s, b);
      }
    case Tuple(fs) =>
      FieldErrorsAreJustified(fs, b);
    case Enum(ts) =>
      var i := TakeUint(b, 4);
      if i.Ok? && i.value < |ts| {
        ErrorsAreJustified(ts[i.value], i.rest);
        JustifiedInPart(s, b, 4, ts[i.value], Decode(s, b).error);
      } else {
        VariantErrorIsJustified(ts, b);
      }
    case _ => LeafErrorIsJustified(s, b);
  }

  lemma EndIsJustified(s: Schema, b: seq<byte>)
    ensures Proper(s, b, UnexpectedEnd)
  {
  }

  lemma FlagErrorIsJustified(t: Schema, b: seq<byte>)
    requires TakeFlag(b).Err?
    ensures Proper(Opt(t), b, TakeFlag(b).error)
  {
  }

  lemma VariantErrorIsJustified(ts: seq<Schema>, b: seq<byte>)
    requires TakeUint(b, 4).Ok? ==> TakeUint(b, 4).value >= |ts|
    ensures Decode(Enum(ts), b).Err? && Proper(Enum(ts), b, Decode(Enum(ts), b).error)
  {
    hide FromBigEndian;
    if |b| >= 4 {
      assert b[0..4] == b[..4];
      assert HoldsNumber(b, FromBigEndian(b[0..4]), 0);
    }
  }

  lemma {:induction false} ManyErrorsAreJustified(e: Schema, n: nat, b: seq<byte>)
    ensures DecodeMany(e, n, b).Err? ==> Proper(e, b, DecodeMany(e, n, b).error)
    decreases e, 1 + n
  {
    hide Decode, Justified;
    if n > 0 {
      var head := Decode(e, b);
      if head.Err? {
        ErrorsAreJustified(e, b);
      } else {
        RestIsTail(e, b);
        ManyErrorsAreJustified(e, n - 1, head.rest);
        if DecodeMany(e, n - 1, head.rest).Err? {
          JustifiedInTail(DecodeMany(e, n - 1, head.rest).error, b, |b| - |head.rest|);
        }
      }
    }
  }

  lemma {:induction false} FieldErrorsAreJustified(fs: seq<Schema>, b: seq<byte>)
    ensures DecodeFields(fs, b).Err? ==> Proper(Tuple(fs), b, DecodeFields(fs, b).error)
    decreases fs, 0
  {
    hide Decode, Justified;
    if fs != [] {
      var head := Decode(fs[0], b);
      if head.Err? {
        ErrorsAreJustified(fs[0], b);
      } else {
        RestIsTail(fs[0], b);
        FieldErrorsAreJustified(fs[1..], head.rest);
        if DecodeFields(fs[1..], head.rest).Err? {
          var error := DecodeFields(fs[1..], head.rest).error;
          JustifiedInTail(error, b, |b| - |head.rest|);
          FieldsComplain(fs, error);
        }
      }
    }
  }

  lemma FieldsComplain(fs: seq<Schema>, error: DecodeError)
    requires fs != [] && CanComplain(Tuple(fs[1..]), error)
    ensures CanComplain(Tuple(fs), error)
  {
    if error != UnexpectedEnd {
      var i :| 0 <= i < |fs[1..]| && CanComplain(fs[1..][i], error);
      assert fs[i + 1] == fs[1..][i];
    }
  }
}
