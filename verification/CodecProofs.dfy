/** The codec's laws: exact round trip, safety of the length check, canonical form. */
module CodecProofs {
  import opened Bytes
  import opened Codec

  /** Reading back an integer that was just written, whatever follows it. */
  lemma TakeUintAfterBigEndian(n: nat, width: nat, r: seq<byte>)
    requires n < Span(width)
    ensures TakeUint(BigEndian(n, width) + r, width) == Ok(n, r)
  {
    hide BigEndian, FromBigEndian, Span;
    DecodeOfBigEndian(n, width);
    assert (BigEndian(n, width) + r)[..width] == BigEndian(n, width);
    assert (BigEndian(n, width) + r)[width..] == r;
  }

  lemma BigEndianAfterTakeUint(b: seq<byte>, width: nat)
    requires TakeUint(b, width).Ok?
    ensures BigEndian(TakeUint(b, width).value, width) + TakeUint(b, width).rest == b
    ensures TakeUint(b, width).value < Span(width)
  {
    hide BigEndian, FromBigEndian, Span;
    var front := b[..width];
    BigEndianOfDecode(front);
    assert |front| == width && b == front + b[width..];
  }

  /**
   The exact round trip. Decoding what was encoded, with any bytes `r` behind it, gives the
   value and leaves `r` if and only if no element count exceeds the bytes that follow it;
   otherwise decoding fails with `UnexpectedEnd`.
   */
  lemma {:induction false} RoundTrip(s: Schema, v: Value, r: seq<byte>)
    requires Typed(s, v)
    ensures Decode(s, Encode(s, v) + r) == (if CountsFit(s, v, |r|) then Ok(v, r) else Err(UnexpectedEnd))
    decreases s, 0
  {
    hide BigEndian, FromBigEndian, Span, IsUtf8, EncodeAll, EncodeFields, DecodeMany, DecodeFields, AllCountsFit, FieldCountsFit;
    SpanValues();
    match s
    case Bits(w) =>
      w.HalfSpan();
      TakeUintAfterBigEndian(v.n, w.Size(), r);
    case Signed(w) =>
      w.HalfSpan();
      TakeUintAfterBigEndian(TwosComplement(v.n, w), w.Size(), r);
    case Bool =>
    case Char => TakeUintAfterBigEndian(v.n, 4, r);
    case Str => RawRoundTrip(v.bytes, r);
    case Blob => RawRoundTrip(v.bytes, r);
    case Unit =>
    case Opt(t) =>
      if v.Just? {
        RoundTrip(t, v.v, r);
        assert ([1] + Encode(t, v.v) + r)[1..] == Encode(t, v.v) + r;
      }
    case Seq(e) =>
      var body := EncodeAll(e, v.vs);
      TakeUintAfterBigEndian(|v.vs|, 8, body + r);
      assert Encode(s, v) + r == BigEndian(|v.vs|, 8) + (body + r);
      if |v.vs| <= |body| + |r| {
        ManyRoundTrip(e, v.vs, r);
      }
    case Tuple(fs) => FieldsRoundTrip(fs, v.vs, r);
    case Enum(ts) => EnumRoundTrip(ts, v, r);
  }

  lemma {:induction false} EnumRoundTrip(ts: seq<Schema>, v: Value, r: seq<byte>)
    requires Typed(Enum(ts), v)
    ensures Decode(Enum(ts), Encode(Enum(ts), v) + r)
         == (if CountsFit(Enum(ts), v, |r|) then Ok(v, r) else Err(UnexpectedEnd))
    decreases ts, 0
  {
    hide BigEndian, FromBigEndian, Span, IsUtf8;
    SpanValues();
    var body := Encode(ts[v.index], v.payload);
    TakeUintAfterBigEndian(v.index, 4, body + r);
    assert Encode(Enum(ts), v) + r == BigEndian(v.index, 4) + (body + r);
    RoundTrip(ts[v.index], v.payload, r);
  }

  lemma RawRoundTrip(bytes: seq<byte>, r: seq<byte>)
    requires |bytes| < U64_SPAN
    ensures TakeRaw(BigEndian(|bytes|, 8) + bytes + r) == Ok(bytes, r)
  {
    SpanValues();
    TakeUintAfterBigEndian(|bytes|, 8, bytes + r);
    assert BigEndian(|bytes|, 8) + bytes + r == BigEndian(|bytes|, 8) + (bytes + r);
  }

  lemma {:induction false} ManyRoundTrip(e: Schema, vs: seq<Value>, r: seq<byte>)
    requires forall i :: 0 <= i < |vs| ==> Typed(e, vs[i])
    ensures DecodeMany(e, |vs|, EncodeAll(e, vs) + r)
         == (if AllCountsFit(e, vs, |r|) then Ok(vs, r) else Err(UnexpectedEnd))
    decreases e, 1 + |vs|
  {
    hide Decode, Encode, CountsFit, Typed;
    if vs == [] {
      assert EncodeAll(e, vs) + r == r;
    } else {
      var tail := EncodeAll(e, vs[1..]);
      assert EncodeAll(e, vs) + r == Encode(e, vs[0]) + (tail + r);
      RoundTrip(e, vs[0], tail + r);
      ManyRoundTrip(e, vs[1..], r);
      assert vs == [vs[0]] + vs[1..];
    }
  }

  lemma {:induction false} FieldsRoundTrip(fs: seq<Schema>, vs: seq<Value>, r: seq<byte>)
    requires |vs| == |fs| && forall i :: 0 <= i < |fs| ==> Typed(fs[i], vs[i])
    ensures DecodeFields(fs, EncodeFields(fs, vs) + r)
         == (if FieldCountsFit(fs, vs, |r|) then Ok(vs, r) else Err(UnexpectedEnd))
    decreases fs, 0
  {
    hide Decode, Encode, CountsFit, Typed;
    if fs == [] {
      assert EncodeFields(fs, vs) + r == r;
    } else {
      var tail := EncodeFields(fs[1..], vs[1..]);
      assert EncodeFields(fs, vs) + r == Encode(fs[0], vs[0]) + (tail + r);
      RoundTrip(fs[0], vs[0], tail + r);
      FieldsRoundTrip(fs[1..], vs[1..], r);
      assert vs == [vs[0]] + vs[1..];
    }
  }

  // ---------------------------------------------------------------- safe types

  lemma {:induction false} AlwaysBytesMeansBytes(s: Schema, v: Value)
    requires Typed(s, v) && AlwaysBytes(s)
    ensures |Encode(s, v)| >= 1
    decreases s, 0
  {
    match s
    case Tuple(fs) =>
      var i :| 0 <= i < |fs| && AlwaysBytes(fs[i]);
      FieldTakesBytes(fs, v.vs, i);
    case _ =>
  }

  lemma {:induction false} FieldTakesBytes(fs: seq<Schema>, vs: seq<Value>, i: nat)
    requires |vs| == |fs| && forall k :: 0 <= k < |fs| ==> Typed(fs[k], vs[k])
    requires i < |fs| && AlwaysBytes(fs[i])
    ensures |EncodeFields(fs, vs)| >= 1
    decreases fs, 0
  {
    if i == 0 {
      AlwaysBytesMeansBytes(fs[0], vs[0]);
    } else {
      FieldTakesBytes(fs[1..], vs[1..], i - 1);
    }
  }

  lemma {:induction false} CountAtMostBytes(e: Schema, vs: seq<Value>)
    requires forall i :: 0 <= i < |vs| ==> Typed(e, vs[i])
    requires AlwaysBytes(e)
    ensures |vs| <= |EncodeAll(e, vs)|
  {
    if vs != [] {
      AlwaysBytesMeansBytes(e, vs[0]);
      CountAtMostBytes(e, vs[1..]);
    }
  }

  /** For a safe type the element-count check never rejects, whatever follows the value. */
  lemma {:induction false} SafeCountsFit(s: Schema, v: Value, after: nat)
    requires Safe(s) && Typed(s, v)
    ensures CountsFit(s, v, after)
    decreases s, 0
  {
    match s
    case Opt(t) => if v.Just? { SafeCountsFit(t, v.v, after); }
    case Seq(e) =>
      CountAtMostBytes(e, v.vs);
      SafeAllCountsFit(e, v.vs, after);
    case Tuple(fs) => SafeFieldCountsFit(fs, v.vs, after);
    case Enum(ts) => SafeCountsFit(ts[v.index], v.payload, after);
    case _ =>
  }

  lemma {:induction false} SafeAllCountsFit(e: Schema, vs: seq<Value>, after: nat)
    requires Safe(e) && forall i :: 0 <= i < |vs| ==> Typed(e, vs[i])
    ensures AllCountsFit(e, vs, after)
    decreases e, 1 + |vs|
  {
    if vs != [] {
      SafeCountsFit(e, vs[0], |EncodeAll(e, vs[1..])| + after);
      SafeAllCountsFit(e, vs[1..], after);
    }
  }

  lemma {:induction false} SafeFieldCountsFit(fs: seq<Schema>, vs: seq<Value>, after: nat)
    requires |vs| == |fs| && forall i :: 0 <= i < |fs| ==> Typed(fs[i], vs[i]) && Safe(fs[i])
    ensures FieldCountsFit(fs, vs, after)
    decreases fs, 0
  {
    if fs != [] {
      SafeCountsFit(fs[0], vs[0], |EncodeFields(fs[1..], vs[1..])| + after);
      SafeFieldCountsFit(fs[1..], vs[1..], after);
    }
  }

  /** The round trip without conditions on the value: every value of a safe type, every suffix. */
  lemma SafeRoundTrip(s: Schema, v: Value, r: seq<byte>)
    requires Safe(s) && Typed(s, v)
    ensures Decode(s, Encode(s, v) + r) == Ok(v, r)
  {
    SafeCountsFit(s, v, |r|);
    RoundTrip(s, v, r);
  }

  // ---------------------------------------------------------------- where the round trip fails

  /** The value of an unsafe element type that takes no bytes. */
  function EmptyValue(s: Schema): (v: Value)
    requires !AlwaysBytes(s)
    ensures Typed(s, v) && Encode(s, v) == []
    decreases s, 0
  {
    match s
    case Unit => UnitValue
    case Tuple(fs) => List(EmptyFields(fs))
  }

  function EmptyFields(fs: seq<Schema>): (vs: seq<Value>)
    requires forall i :: 0 <= i < |fs| ==> !AlwaysBytes(fs[i])
    ensures |vs| == |fs| && forall i :: 0 <= i < |fs| ==> Typed(fs[i], vs[i])
    ensures EncodeFields(fs, vs) == []
    decreases fs, 0
  {
    if fs == [] then [] else [EmptyValue(fs[0])] + EmptyFields(fs[1..])
  }

  /**
   Both halves for sequences: a sequence type with safe elements round-trips with every value
   and every suffix if and only if its elements always take a byte.
   */
  lemma SeqRoundTripsIffElementsTakeBytes(e: Schema)
    requires Safe(e)
    ensures AlwaysBytes(e) <==>
            forall v: Value, r: seq<byte> :: Typed(Seq(e), v) ==> Decode(Seq(e), Encode(Seq(e), v) + r) == Ok(v, r)
  {
    if AlwaysBytes(e) {
      forall v: Value, r: seq<byte> | Typed(Seq(e), v)
        ensures Decode(Seq(e), Encode(Seq(e), v) + r) == Ok(v, r)
      {
        SafeRoundTrip(Seq(e), v, r);
      }
    } else {
      var u := EmptyValue(e);
      var v, r := List([u]), [];
      assert EncodeAll(e, [u]) == Encode(e, u) + EncodeAll(e, [u][1..]);
      assert Typed(Seq(e), v) && !CountsFit(Seq(e), v, 0);
      RoundTrip(Seq(e), v, r);
    }
  }

  /** The type and all its parts have values, and variants that an index can name. */
  predicate Inhabited(s: Schema) {
    match s
    case Opt(t) => Inhabited(t)
    case Seq(e) => Inhabited(e)
    case Tuple(fs) => forall i :: 0 <= i < |fs| ==> Inhabited(fs[i])
    case Enum(ts) => 0 < |ts| <= U32_SPAN && forall i :: 0 <= i < |ts| ==> Inhabited(ts[i])
    case _ => true
  }

  /** More bytes than a smallest value of the type or of one of its parts takes. */
  function Footprint(s: Schema): nat
    decreases s, 0
  {
    match s
    case Opt(t) => 1 + Footprint(t)
    case Seq(e) => 8 + Footprint(e)
    case Tuple(fs) => Footprints(fs)
    case Enum(ts) => 4 + Footprints(ts)
    case _ => 8
  }

  function Footprints(fs: seq<Schema>): nat
    decreases fs, 0
  {
    if fs == [] then 0 else Footprint(fs[0]) + Footprints(fs[1..])
  }

  lemma {:induction false} PartFootprint(fs: seq<Schema>, i: nat)
    requires i < |fs|
    ensures Footprint(fs[i]) <= Footprints(fs)
  {
    if i > 0 {
      PartFootprint(fs[1..], i - 1);
    }
  }

  function Default(s: Schema): (v: Value)
    requires Inhabited(s)
    ensures Typed(s, v) && |Encode(s, v)| <= Footprint(s)
    decreases s, 0
  {
    match s
    case Bits(_) => Num(0)
    case Signed(_) => Num(0)
    case Bool => Flag(false)
    case Char => Num(0)
    case Str => Raw([])
    case Blob => Raw([])
    case Unit => UnitValue
    case Opt(_) => Nothing
    case Seq(_) => List([])
    case Tuple(fs) => List(Defaults(fs))
    case Enum(ts) => Variant(0, Default(ts[0]))
  }

  function Defaults(fs: seq<Schema>): (vs: seq<Value>)
    requires forall i :: 0 <= i < |fs| ==> Inhabited(fs[i])
    ensures |vs| == |fs| && (forall i :: 0 <= i < |fs| ==> Typed(fs[i], vs[i])) && |EncodeFields(fs, vs)| <= Footprints(fs)
    decreases fs, 0
  {
    if fs == [] then [] else [Default(fs[0])] + Defaults(fs[1..])
  }

  /** An unsafe type has a value whose element counts outgrow any number of bytes that may follow. */
  lemma {:induction false} UnsafeOutgrows(s: Schema, after: nat) returns (v: Value)
    requires Inhabited(s) && !Safe(s) && after + Footprint(s) < U64_SPAN - 1
    ensures Typed(s, v) && !CountsFit(s, v, after)
    decreases s, 0
  {
    match s
    case Opt(t) =>
      var u := UnsafeOutgrows(t, after);
      v := Just(u);
    case Seq(e) =>
      if Safe(e) {
        v := List(seq(after + 1, i => EmptyValue(e)));
        EmptyElements(e, v.vs);
      } else {
        var u := UnsafeOutgrows(e, after);
        v := List([u]);
        assert [u][1..] == [];
      }
    case Tuple(fs) =>
      var i :| 0 <= i < |fs| && !Safe(fs[i]);
      var vs := FieldsOutgrow(fs, i, after);
      v := List(vs);
    case Enum(ts) =>
      var i :| 0 <= i < |ts| && !Safe(ts[i]);
      PartFootprint(ts, i);
      var u := UnsafeOutgrows(ts[i], after);
      v := Variant(i, u);
  }

  lemma {:induction false} EmptyElements(e: Schema, vs: seq<Value>)
    requires !AlwaysBytes(e) && forall i :: 0 <= i < |vs| ==> Typed(e, vs[i]) && vs[i] == EmptyValue(e)
    ensures EncodeAll(e, vs) == []
  {
    if vs != [] {
      EmptyElements(e, vs[1..]);
    }
  }

  lemma {:induction false} FieldsOutgrow(fs: seq<Schema>, i: nat, after: nat) returns (vs: seq<Value>)
    requires (forall k :: 0 <= k < |fs| ==> Inhabited(fs[k])) && i < |fs| && !Safe(fs[i])
    requires after + Footprints(fs) < U64_SPAN - 1
    ensures |vs| == |fs| && (forall k :: 0 <= k < |fs| ==> Typed(fs[k], vs[k])) && !FieldCountsFit(fs, vs, after)
    decreases fs, 0
  {
    if i == 0 {
      var rest := Defaults(fs[1..]);
      var first := UnsafeOutgrows(fs[0], |EncodeFields(fs[1..], rest)| + after);
      vs := [first] + rest;
      assert vs[1..] == rest;
    } else {
      var rest := FieldsOutgrow(fs[1..], i - 1, after);
      vs := [Default(fs[0])] + rest;
      assert vs[1..] == rest;
    }
  }

  /**
   Both halves for whole types: a type round-trips with every value and every suffix exactly when no
   sequence or map in it has elements that may take no bytes.
   */
  lemma RoundTripsIffSafe(s: Schema)
    requires Inhabited(s) && Footprint(s) < U64_SPAN - 1
    ensures Safe(s) <==> forall v: Value, r: seq<byte> :: Typed(s, v) ==> Decode(s, Encode(s, v) + r) == Ok(v, r)
  {
    if Safe(s) {
      forall v: Value, r: seq<byte> | Typed(s, v) ensures Decode(s, Encode(s, v) + r) == Ok(v, r) {
        SafeRoundTrip(s, v, r);
      }
    } else {
      var v := UnsafeOutgrows(s, 0);
      hide Safe, Encode, Decode, CountsFit, Typed;
      RoundTrip(s, v, []);
    }
  }

  // ---------------------------------------------------------------- canonical form

  /**
   Whatever bytes decode successfully are the encoding of the decoded value followed by the
   rest: no two byte strings decode to the same value and rest.
   */
  lemma {:induction false} Canonical(s: Schema, b: seq<byte>)
    requires Decode(s, b).Ok?
    ensures Typed(s, Decode(s, b).value)
    ensures Encode(s, Decode(s, b).value) + Decode(s, b).rest == b
    decreases s, 0
  {
    hide BigEndian, FromBigEndian, Span, IsUtf8, EncodeAll, EncodeFields, DecodeMany, DecodeFields;
    match s
    case Opt(t) =>
      if b[0] == 1 {
        Canonical(t, b[1..]);
        assert [1] + b[1..] == b;
      }
    case Seq(e) =>
      var len := TakeLength(b);
      ManyCanonical(e, len.value, len.rest);
      SeqCanonical(e, b);
    case Tuple(fs) => FieldsCanonical(fs, b);
    case Enum(ts) => EnumCanonical(ts, b);
    case _ => LeafCanonical(s, b);
  }

  lemma LeafCanonical(s: Schema, b: seq<byte>)
    requires !s.Opt? && !s.Seq? && !s.Tuple? && !s.Enum?
    requires Decode(s, b).Ok?
    ensures Typed(s, Decode(s, b).value)
    ensures Encode(s, Decode(s, b).value) + Decode(s, b).rest == b
  {
    hide BigEndian, FromBigEndian, Span, IsUtf8, EncodeAll, EncodeFields, DecodeMany, DecodeFields;
    SpanValues();
    match s
    case Bits(w) =>
      w.HalfSpan();
      BigEndianAfterTakeUint(b, w.Size());
    case Signed(w) =>
      w.HalfSpan();
      BigEndianAfterTakeUint(b, w.Size());
    case Char => BigEndianAfterTakeUint(b, 4);
    case Str => RawCanonical(b);
    case Blob => RawCanonical(b);
    case _ =>
  }

  lemma {:induction false} EnumCanonical(ts: seq<Schema>, b: seq<byte>)
    requires Decode(Enum(ts), b).Ok?
    ensures Typed(Enum(ts), Decode(Enum(ts), b).value)
    ensures Encode(Enum(ts), Decode(Enum(ts), b).value) + Decode(Enum(ts), b).rest == b
    decreases ts, 0
  {
    hide BigEndian, FromBigEndian, Span, IsUtf8;
    SpanValues();
    BigEndianAfterTakeUint(b, 4);
    var i := TakeUint(b, 4);
    Canonical(ts[i.value], i.rest);
    var payload := Decode(ts[i.value], i.rest);
    assert BigEndian(i.value, 4) + Encode(ts[i.value], payload.value) + payload.rest
        == BigEndian(i.value, 4) + (Encode(ts[i.value], payload.value) + payload.rest);
  }

  lemma SeqCanonical(e: Schema, b: seq<byte>)
    requires Decode(Seq(e), b).Ok?
    requires var len := TakeLength(b);
             var many := DecodeMany(e, len.value, len.rest);
             && |many.value| == len.value && (forall i :: 0 <= i < len.value ==> Typed(e, many.value[i]))
             && EncodeAll(e, many.value) + many.rest == len.rest
    ensures Typed(Seq(e), Decode(Seq(e), b).value)
    ensures Encode(Seq(e), Decode(Seq(e), b).value) + Decode(Seq(e), b).rest == b
  {
    hide BigEndian, FromBigEndian, Span, EncodeAll, DecodeMany;
    SpanValues();
    BigEndianAfterTakeUint(b, 8);
    var many := DecodeMany(e, TakeLength(b).value, TakeLength(b).rest);
    assert BigEndian(|many.value|, 8) + EncodeAll(e, many.value) + many.rest
        == BigEndian(|many.value|, 8) + (EncodeAll(e, many.value) + many.rest);
  }

  lemma RawCanonical(b: seq<byte>)
    requires TakeRaw(b).Ok?
    ensures var raw := TakeRaw(b);
            |raw.value| < U64_SPAN && BigEndian(|raw.value|, 8) + raw.value + raw.rest == b
  {
    SpanValues();
    BigEndianAfterTakeUint(b, 8);
  }

  lemma {:induction false} ManyCanonical(e: Schema, n: nat, b: seq<byte>)
    requires DecodeMany(e, n, b).Ok?
    ensures var many := DecodeMany(e, n, b);
            && |many.value| == n && (forall i :: 0 <= i < n ==> Typed(e, many.value[i]))
            && EncodeAll(e, many.value) + many.rest == b
    decreases e, 1 + n
  {
    hide Decode, Encode, CountsFit, Typed;
    if n > 0 {
      var head := Decode(e, b);
      Canonical(e, b);
      ManyCanonical(e, n - 1, head.rest);
      var tail := DecodeMany(e, n - 1, head.rest);
      var all := [head.value] + tail.value;
      assert all[1..] == tail.value;
      assert EncodeAll(e, all) == Encode(e, head.value) + EncodeAll(e, tail.value);
    }
  }

  lemma {:induction false} FieldsCanonical(fs: seq<Schema>, b: seq<byte>)
    requires DecodeFields(fs, b).Ok?
    ensures var all := DecodeFields(fs, b);
            && |all.value| == |fs| && (forall i :: 0 <= i < |fs| ==> Typed(fs[i], all.value[i]))
            && EncodeFields(fs, all.value) + all.rest == b
    decreases fs, 0
  {
    hide Decode, Encode, CountsFit, Typed;
    if fs != [] {
      var head := Decode(fs[0], b);
      Canonical(fs[0], b);
      FieldsCanonical(fs[1..], head.rest);
      var tail := DecodeFields(fs[1..], head.rest);
      var all := [head.value] + tail.value;
      assert all[1..] == tail.value;
      assert EncodeFields(fs, all) == Encode(fs[0], head.value) + EncodeFields(fs[1..], tail.value);
    }
  }

  // ---------------------------------------------------------------- maps

  /** What the map visitor builds from the entries, in their order on the wire. */
  function Collected(entries: seq<Value>): map<Value, Value>
    requires forall i :: 0 <= i < |entries| ==> entries[i].List? && |entries[i].vs| == 2
  {
    if entries == [] then map[]
    else Collected(entries[..|entries| - 1])[Last(entries).vs[0] := Last(entries).vs[1]]
  }

  function Last(entries: seq<Value>): Value
    requires entries != []
  {
    entries[|entries| - 1]
  }

  /** `entries` lists `m`, each key once, in whatever order they are on the wire. */
  ghost predicate Lists(entries: seq<Value>, m: map<Value, Value>) {
    && (forall i :: 0 <= i < |entries| ==>
          entries[i].List? && |entries[i].vs| == 2 && entries[i].vs[0] in m && m[entries[i].vs[0]] == entries[i].vs[1])
    && (forall i, j :: 0 <= i < j < |entries| ==> entries[i].vs[0] != entries[j].vs[0])
    && (forall k :: k in m ==> exists i :: 0 <= i < |entries| && entries[i].vs[0] == k)
  }

  lemma {:induction false} CollectedIsTheMap(entries: seq<Value>, m: map<Value, Value>)
    requires Lists(entries, m)
    ensures Collected(entries) == m
  {
    if entries == [] {
      assert m.Keys == {};
    } else {
      var key := Last(entries).vs[0];
      ListsWithoutLast(entries, m);
      CollectedIsTheMap(entries[..|entries| - 1], m - {key});
      assert (m - {key})[key := m[key]] == m;
    }
  }

  lemma ListsWithoutLast(entries: seq<Value>, m: map<Value, Value>)
    requires Lists(entries, m) && entries != []
    ensures Lists(entries[..|entries| - 1], m - {Last(entries).vs[0]})
  {
    var init, key := entries[..|entries| - 1], Last(entries).vs[0];
    forall k | k in m - {key} ensures exists i :: 0 <= i < |init| && init[i].vs[0] == k {
      var i :| 0 <= i < |entries| && entries[i].vs[0] == k;
      assert init[i].vs[0] == k;
    }
  }

  /** A map comes back as the same map, in whichever order its entries were iterated. */
  lemma MapRoundTrip(key: Schema, value: Schema, entries: seq<Value>, m: map<Value, Value>, r: seq<byte>)
    requires Safe(MapOf(key, value)) && Typed(MapOf(key, value), List(entries)) && Lists(entries, m)
    ensures var d := Decode(MapOf(key, value), Encode(MapOf(key, value), List(entries)) + r);
            d.Ok? && d.rest == r && d.value == List(entries) && Collected(d.value.vs) == m
  {
    SafeRoundTrip(MapOf(key, value), List(entries), r);
    CollectedIsTheMap(entries, m);
  }

  /** Two different listings of one map are two encodings of it, and both come back as the map. */
  lemma ListingsAreDistinctEncodings(key: Schema, value: Schema, xs: seq<Value>, ys: seq<Value>, m: map<Value, Value>)
    requires var s := MapOf(key, value); Safe(s) && Typed(s, List(xs)) && Typed(s, List(ys))
    requires Lists(xs, m) && Lists(ys, m) && xs != ys
    ensures var s := MapOf(key, value);
            && Encode(s, List(xs)) != Encode(s, List(ys))
            && Decode(s, Encode(s, List(xs))) == Ok(List(xs), []) && Decode(s, Encode(s, List(ys))) == Ok(List(ys), [])
            && Collected(xs) == Collected(ys) == m
  {
    hide Encode, Decode, Safe, Typed, Lists;
    var s := MapOf(key, value);
    SafeRoundTrip(s, List(xs), []);
    SafeRoundTrip(s, List(ys), []);
    assert Encode(s, List(xs)) + [] == Encode(s, List(xs)) && Encode(s, List(ys)) + [] == Encode(s, List(ys));
    CollectedIsTheMap(xs, m);
    CollectedIsTheMap(ys, m);
  }

  lemma TwoListings(k: Value, v: Value, l: Value, w: Value)
    requires k != l
    ensures var m := map[k := v, l := w];
            Lists([List([k, v]), List([l, w])], m) && Lists([List([l, w]), List([k, v])], m)
  {
    var xs, ys := [List([k, v]), List([l, w])], [List([l, w]), List([k, v])];
    assert xs[0].vs[0] == k && xs[1].vs[0] == l && ys[0].vs[0] == l && ys[1].vs[0] == k;
  }

  lemma PairIsTyped(key: Schema, value: Schema, k: Value, v: Value)
    requires Typed(key, k) && Typed(value, v)
    ensures Typed(Tuple([key, value]), List([k, v]))
  {
  }

  /** Maps are what `Canonical` does not extend to: with two entries, of any types, there are two encodings. */
  lemma MapsAreNotCanonical(key: Schema, value: Schema, k: Value, v: Value, l: Value, w: Value)
    requires Safe(MapOf(key, value)) && k != l
    requires Typed(key, k) && Typed(value, v) && Typed(key, l) && Typed(value, w)
    ensures var s := MapOf(key, value);
            var xs, ys := [List([k, v]), List([l, w])], [List([l, w]), List([k, v])];
            && Typed(s, List(xs)) && Typed(s, List(ys)) && Encode(s, List(xs)) != Encode(s, List(ys))
            && Decode(s, Encode(s, List(xs))) == Ok(List(xs), []) && Decode(s, Encode(s, List(ys))) == Ok(List(ys), [])
            && Collected(xs) == Collected(ys) == map[k := v, l := w]
  {
    hide Encode, Decode, Safe, Lists, Collected;
    PairIsTyped(key, value, k, v);
    PairIsTyped(key, value, l, w);
    TwoListings(k, v, l, w);
    var xs, ys := [List([k, v]), List([l, w])], [List([l, w]), List([k, v])];
    assert Typed(MapOf(key, value), List(xs)) && Typed(MapOf(key, value), List(ys));
    assert xs[0].vs[0] == k && ys[0].vs[0] == l;
    ListingsAreDistinctEncodings(key, value, xs, ys, map[k := v, l := w]);
  }
}
