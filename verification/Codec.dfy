/**
 The wire codec (src/net/ser.rs, src/net/de.rs).

 A `Schema` stands for the Rust type that drives serde, a `Value` for a value of it.
 Field names never reach the wire, so structs, tuples and tuple structs are all `Tuple`.
 A map is written as its length followed by its entries, exactly as a sequence of pairs.
 Floats are their bit patterns. The machine is a 64-bit one, so `usize` holds every `u64`.
 */
module Codec {
  import opened Bytes

  datatype Width = W1 | W2 | W4 | W8 {
    function Size(): nat {
      match this case W1 => 1 case W2 => 2 case W4 => 4 case W8 => 8
    }
    function Half(): int {
      match this case W1 => 0x80 case W2 => 0x8000 case W4 => 0x8000_0000 case W8 => 0x8000_0000_0000_0000
    }
    lemma HalfSpan()
      ensures Span(Size()) == 2 * Half()
    {
      SpanValues();
    }
  }

  datatype Schema =
    | Bits(width: Width)
    | Signed(width: Width)
    | Bool
    | Char
    | Str
    | Blob
    | Unit
    | Opt(some: Schema)
    | Seq(elem: Schema)
    | Tuple(fields: seq<Schema>)
    | Enum(variants: seq<Schema>)

  datatype Value =
    | Num(n: int)
    | Flag(b: bool)
    | Raw(bytes: seq<byte>)
    | UnitValue
    | Nothing
    | Just(v: Value)
    | List(vs: seq<Value>)
    | Variant(index: nat, payload: Value)

  function MapOf(key: Schema, value: Schema): Schema {
    Seq(Tuple([key, value]))
  }

  datatype DecodeError =
    | UnexpectedEnd
    | InvalidBool(byte: byte)
    | InvalidChar(codepoint: nat)
    | InvalidUtf8
    | InvalidVariant(index: nat)

  datatype Decoded<+T> = Ok(value: T, rest: seq<byte>) | Err(error: DecodeError)

  /** A Unicode scalar value: `char::from_u32` accepts exactly these. */
  predicate IsScalar(c: nat) {
    c < 0xD800 || 0xE000 <= c < 0x11_0000
  }

  predicate Continuation(b: byte) {
    0x80 <= b < 0xC0
  }

  /** Well-formed UTF-8, table 3-7 of the Unicode Standard: what `str::from_utf8` accepts. */
  predicate IsUtf8(bs: seq<byte>) {
    if bs == [] then true
    else if bs[0] < 0x80 then IsUtf8(bs[1..])
    else if |bs| >= 2 && 0xC2 <= bs[0] < 0xE0 then Continuation(bs[1]) && IsUtf8(bs[2..])
    else if |bs| >= 3 && 0xE0 <= bs[0] < 0xF0 then
      && Continuation(bs[1]) && Continuation(bs[2])
      && (bs[0] == 0xE0 ==> bs[1] >= 0xA0) && (bs[0] == 0xED ==> bs[1] < 0xA0)
      && IsUtf8(bs[3..])
    else if |bs| >= 4 && 0xF0 <= bs[0] < 0xF5 then
      && Continuation(bs[1]) && Continuation(bs[2]) && Continuation(bs[3])
      && (bs[0] == 0xF0 ==> bs[1] >= 0x90) && (bs[0] == 0xF4 ==> bs[1] < 0x90)
      && IsUtf8(bs[4..])
    else false
  }

  /** `v` is a value of the Rust type that `s` stands for. */
  predicate Typed(s: Schema, v: Value)
    decreases s
  {
    match s
    case Bits(w) => v.Num? && 0 <= v.n < 2 * w.Half()
    case Signed(w) => v.Num? && -w.Half() <= v.n < w.Half()
    case Bool => v.Flag?
    case Char => v.Num? && 0 <= v.n && IsScalar(v.n)
    case Str => v.Raw? && |v.bytes| < U64_SPAN && IsUtf8(v.bytes)
    case Blob => v.Raw? && |v.bytes| < U64_SPAN
    case Unit => v.UnitValue?
    case Opt(t) => v.Nothing? || (v.Just? && Typed(t, v.v))
    case Seq(e) => v.List? && |v.vs| < U64_SPAN && forall i :: 0 <= i < |v.vs| ==> Typed(e, v.vs[i])
    case Tuple(fs) => v.List? && |v.vs| == |fs| && forall i :: 0 <= i < |fs| ==> Typed(fs[i], v.vs[i])
    case Enum(ts) => v.Variant? && v.index < |ts| && v.index < U32_SPAN && Typed(ts[v.index], v.payload)
  }

  // ---------------------------------------------------------------- what the bytes are

  function TwosComplement(n: int, w: Width): nat
    requires -w.Half() <= n < w.Half()
  {
    if n >= 0 then n else n + 2 * w.Half()
  }

  function Encode(s: Schema, v: Value): seq<byte>
    requires Typed(s, v)
    decreases s, 0
  {
    match s
    case Bits(w) => BigEndian(v.n, w.Size())
    case Signed(w) => BigEndian(TwosComplement(v.n, w), w.Size())
    case Bool => [if v.b then 1 else 0]
    case Char => BigEndian(v.n, 4)
    case Str => BigEndian(|v.bytes|, 8) + v.bytes
    case Blob => BigEndian(|v.bytes|, 8) + v.bytes
    case Unit => []
    case Opt(t) => if v.Nothing? then [0] else [1] + Encode(t, v.v)
    case Seq(e) => BigEndian(|v.vs|, 8) + EncodeAll(e, v.vs)
    case Tuple(fs) => EncodeFields(fs, v.vs)
    case Enum(ts) => BigEndian(v.index, 4) + Encode(ts[v.index], v.payload)
  }

  function EncodeAll(e: Schema, vs: seq<Value>): seq<byte>
    requires forall i :: 0 <= i < |vs| ==> Typed(e, vs[i])
    decreases e, 1 + |vs|
  {
    if vs == [] then [] else Encode(e, vs[0]) + EncodeAll(e, vs[1..])
  }

  function EncodeFields(fs: seq<Schema>, vs: seq<Value>): seq<byte>
    requires |vs| == |fs| && forall i :: 0 <= i < |fs| ==> Typed(fs[i], vs[i])
    decreases fs, 0
  {
    if fs == [] then [] else Encode(fs[0], vs[0]) + EncodeFields(fs[1..], vs[1..])
  }

  // ---------------------------------------------------------------- what the decoder does

  function TakeUint(b: seq<byte>, width: nat): Decoded<nat> {
    if |b| < width then Err(UnexpectedEnd) else Ok(FromBigEndian(b[..width]), b[width..])
  }

  function TakeFlag(b: seq<byte>): Decoded<bool> {
    if b == [] then Err(UnexpectedEnd)
    else if b[0] == 0 then Ok(false, b[1..])
    else if b[0] == 1 then Ok(true, b[1..])
    else Err(InvalidBool(b[0]))
  }

  /** A length prefix. It is compared with the number of bytes left, whatever it counts. */
  function TakeLength(b: seq<byte>): Decoded<nat> {
    var len := TakeUint(b, 8);
    if len.Ok? && |len.rest| < len.value then Err(UnexpectedEnd) else len
  }

  function TakeRaw(b: seq<byte>): Decoded<seq<byte>> {
    match TakeLength(b)
    case Err(e) => Err(e)
    case Ok(n, rest) => Ok(rest[..n], rest[n..])
  }

  function Decode(s: Schema, b: seq<byte>): Decoded<Value>
    decreases s, 0
  {
    match s
    case Bits(w) =>
      (match TakeUint(b, w.Size()) case Err(e) => Err(e) case Ok(n, rest) => Ok(Num(n), rest))
    case Signed(w) =>
      (match TakeUint(b, w.Size())
       case Err(e) => Err(e)
       case Ok(n, rest) => Ok(Num(if n < w.Half() then n else n - 2 * w.Half()), rest))
    case Bool =>
      (match TakeFlag(b) case Err(e) => Err(e) case Ok(f, rest) => Ok(Flag(f), rest))
    case Char =>
      (match TakeUint(b, 4)
       case Err(e) => Err(e)
       case Ok(n, rest) => if IsScalar(n) then Ok(Num(n), rest) else Err(InvalidChar(n)))
    case Str =>
      (match TakeRaw(b)
       case Err(e) => Err(e)
       case Ok(raw, rest) => if IsUtf8(raw) then Ok(Raw(raw), rest) else Err(InvalidUtf8))
    case Blob =>
      (match TakeRaw(b) case Err(e) => Err(e) case Ok(raw, rest) => Ok(Raw(raw), rest))
    case Unit => Ok(UnitValue, b)
    case Opt(t) =>
      (match TakeFlag(b)
       case Err(e) => Err(e)
       case Ok(false, rest) => Ok(Nothing, rest)
       case Ok(true, rest) =>
         match Decode(t, rest) case Err(e) => Err(e) case Ok(v, rest') => Ok(Just(v), rest'))
    case Seq(e) =>
      (match TakeLength(b)
       case Err(err) => Err(err)
       case Ok(n, rest) =>
         match DecodeMany(e, n, rest) case Err(err) => Err(err) case Ok(vs, rest') => Ok(List(vs), rest'))
    case Tuple(fs) =>
      (match DecodeFields(fs, b) case Err(e) => Err(e) case Ok(vs, rest) => Ok(List(vs), rest))
    case Enum(ts) =>
      (match TakeUint(b, 4)
       case Err(e) => Err(e)
       case Ok(i, rest) =>
         if i >= |ts| then Err(InvalidVariant(i))
         else match Decode(ts[i], rest) case Err(e) => Err(e) case Ok(v, rest') => Ok(Variant(i, v), rest'))
  }

  function DecodeMany(e: Schema, n: nat, b: seq<byte>): Decoded<seq<Value>>
    decreases e, 1 + n
  {
    if n == 0 then Ok([], b)
    else match Decode(e, b)
      case Err(err) => Err(err)
      case Ok(v, rest) =>
        match DecodeMany(e, n - 1, rest) case Err(err) => Err(err) case Ok(vs, rest') => Ok([v] + vs, rest')
  }

  function DecodeFields(fs: seq<Schema>, b: seq<byte>): Decoded<seq<Value>>
    decreases fs, 0
  {
    if fs == [] then Ok([], b)
    else match Decode(fs[0], b)
      case Err(err) => Err(err)
      case Ok(v, rest) =>
        match DecodeFields(fs[1..], rest) case Err(err) => Err(err) case Ok(vs, rest') => Ok([v] + vs, rest')
  }

  // ---------------------------------------------------------------- the element-count check

  /**
   Every sequence in `v` has at most as many elements as there are bytes after its length,
   when `after` bytes follow the encoding of `v`. This is the comparison that
   `deserialize_and_ensure_length` makes, computed from the value alone.
   */
  predicate CountsFit(s: Schema, v: Value, after: nat)
    requires Typed(s, v)
    decreases s, 0
  {
    match s
    case Opt(t) => v.Just? ==> CountsFit(t, v.v, after)
    case Seq(e) => |v.vs| <= |EncodeAll(e, v.vs)| + after && AllCountsFit(e, v.vs, after)
    case Tuple(fs) => FieldCountsFit(fs, v.vs, after)
    case Enum(ts) => CountsFit(ts[v.index], v.payload, after)
    case _ => true
  }

  predicate AllCountsFit(e: Schema, vs: seq<Value>, after: nat)
    requires forall i :: 0 <= i < |vs| ==> Typed(e, vs[i])
    decreases e, 1 + |vs|
  {
    vs == [] || (CountsFit(e, vs[0], |EncodeAll(e, vs[1..])| + after) && AllCountsFit(e, vs[1..], after))
  }

  predicate FieldCountsFit(fs: seq<Schema>, vs: seq<Value>, after: nat)
    requires |vs| == |fs| && forall i :: 0 <= i < |fs| ==> Typed(fs[i], vs[i])
    decreases fs, 0
  {
    fs == [] || (CountsFit(fs[0], vs[0], |EncodeFields(fs[1..], vs[1..])| + after) && FieldCountsFit(fs[1..], vs[1..], after))
  }

  /** Every value of this type takes at least one byte. */
  predicate AlwaysBytes(s: Schema) {
    match s
    case Unit => false
    case Tuple(fs) => exists i :: 0 <= i < |fs| && AlwaysBytes(fs[i])
    case _ => true
  }

  /** No sequence or map in the type has elements that may take no bytes. */
  predicate Safe(s: Schema) {
    match s
    case Opt(t) => Safe(t)
    case Seq(e) => Safe(e) && AlwaysBytes(e)
    case Tuple(fs) => forall i :: 0 <= i < |fs| ==> Safe(fs[i])
    case Enum(ts) => forall i :: 0 <= i < |ts| ==> Safe(ts[i])
    case _ => true
  }
}
