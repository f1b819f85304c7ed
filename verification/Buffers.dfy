/** The serializer and deserializer as they run: methods over one shared, growing buffer. */
module Buffers {
  import opened Wrappers
  import opened Bytes
  import opened Codec
  import opened CodecProofs

  /** A byte buffer: writers append at its end, readers take from its front. */
  class BytesMut {
    var data: seq<byte>

    constructor (bytes: seq<byte>)
      ensures data == bytes
    {
      data := bytes;
    }

    method PutUint(n: nat, width: nat)
      modifies this
      ensures data == old(data) + BigEndian(n, width)
    {
      data := data + BigEndian(n, width);
    }

    method PutSlice(bytes: seq<byte>)
      modifies this
      ensures data == old(data) + bytes
    {
      data := data + bytes;
    }

    /** Overwrites bytes already in the buffer. */
    method CopyFromSlice(at: nat, bytes: seq<byte>)
      requires at + |bytes| <= |data|
      modifies this
      ensures data == old(data)[..at] + bytes + old(data)[at + |bytes|..]
    {
      data := data[..at] + bytes + data[at + |bytes|..];
    }

    method TryGetUint(width: nat) returns (r: Result<nat, DecodeError>)
      modifies this
      ensures match TakeUint(old(data), width)
              case Ok(n, rest) => r == Success(n) && data == rest
              case Err(e) => r == Failure(e) && data == old(data)
    {
      if |data| < width {
        return Failure(UnexpectedEnd);
      }
      r := Success(FromBigEndian(data[..width]));
      data := data[width..];
    }

    method Advance(n: nat)
      requires n <= |data|
      modifies this
      ensures data == old(data)[n..]
    {
      data := data[n..];
    }

    method SplitTo(n: nat) returns (front: BytesMut)
      requires n <= |data|
      modifies this
      ensures fresh(front) && front.data == old(data)[..n] && data == old(data)[n..]
    {
      front := new BytesMut(data[..n]);
      data := data[n..];
    }
  }

  class BytesSerializer {
    const buf: BytesMut

    constructor (buf: BytesMut)
      ensures this.buf == buf
    {
      this.buf := buf;
    }

    /** Appends the encoding of one value; nothing already in the buffer changes. */
    method Serialize(s: Schema, v: Value)
      requires Typed(s, v)
      modifies buf
      ensures buf.data == old(buf.data) + Encode(s, v)
      decreases s, 0
    {
      hide BigEndian, IsUtf8, EncodeAll, EncodeFields;
      match s {
        case Bits(w) => buf.PutUint(v.n, w.Size());
        case Signed(w) => buf.PutUint(TwosComplement(v.n, w), w.Size());
        case Bool => buf.PutSlice([if v.b then 1 else 0]);
        case Char => buf.PutUint(v.n, 4);
        case Str =>
          buf.PutUint(|v.bytes|, 8);
          buf.PutSlice(v.bytes);
        case Blob =>
          buf.PutUint(|v.bytes|, 8);
          buf.PutSlice(v.bytes);
        case Unit =>
        case Opt(t) =>
          if v.Nothing? {
            buf.PutSlice([0]);
          } else {
            buf.PutSlice([1]);
            Serialize(t, v.v);
          }
        case Seq(e) =>
          buf.PutUint(|v.vs|, 8);
          SerializeElements(e, v.vs);
        case Tuple(fs) => SerializeFields(fs, v.vs);
        case Enum(ts) =>
          buf.PutUint(v.index, 4);
          Serialize(ts[v.index], v.payload);
      }
    }

    method SerializeElements(e: Schema, vs: seq<Value>)
      requires forall i :: 0 <= i < |vs| ==> Typed(e, vs[i])
      modifies buf
      ensures buf.data == old(buf.data) + EncodeAll(e, vs)
      decreases e, 1
    {
      hide Encode, Typed;
      for i := 0 to |vs|
        invariant buf.data + EncodeAll(e, vs[i..]) == old(buf.data) + EncodeAll(e, vs)
      {
        assert vs[i..][1..] == vs[i + 1..];
        assert EncodeAll(e, vs[i..]) == Encode(e, vs[i]) + EncodeAll(e, vs[i + 1..]);
        Serialize(e, vs[i]);
      }
    }

    method SerializeFields(fs: seq<Schema>, vs: seq<Value>)
      requires |vs| == |fs| && forall i :: 0 <= i < |fs| ==> Typed(fs[i], vs[i])
      modifies buf
      ensures buf.data == old(buf.data) + EncodeFields(fs, vs)
      decreases fs, 0
    {
      hide Encode, Typed;
      for i := 0 to |fs|
        invariant buf.data + EncodeFields(fs[i..], vs[i..]) == old(buf.data) + EncodeFields(fs, vs)
      {
        assert fs[i..][1..] == fs[i + 1..] && vs[i..][1..] == vs[i + 1..];
        assert EncodeFields(fs[i..], vs[i..]) == Encode(fs[i], vs[i]) + EncodeFields(fs[i + 1..], vs[i + 1..]);
        Serialize(fs[i], vs[i]);
      }
    }
  }

  /** What decoding gives once `done` has been read and `d` is the outcome for the remainder. */
  ghost function Continue(done: seq<Value>, d: Decoded<seq<Value>>): Decoded<seq<Value>> {
    match d case Ok(vs, rest) => Ok(done + vs, rest) case Err(e) => Err(e)
  }

  lemma ContinueMany(e: Schema, n: nat, done: seq<Value>, b: seq<byte>)
    requires n > 0
    ensures Continue(done, DecodeMany(e, n, b))
         == match Decode(e, b)
            case Err(err) => Err(err)
            case Ok(v, rest) => Continue(done + [v], DecodeMany(e, n - 1, rest))
  {
    hide Decode;
    if Decode(e, b).Ok? {
      var v, tail := Decode(e, b).value, DecodeMany(e, n - 1, Decode(e, b).rest);
      assert tail.Ok? ==> done + ([v] + tail.value) == done + [v] + tail.value;
    }
  }

  lemma ContinueFields(fs: seq<Schema>, i: nat, done: seq<Value>, b: seq<byte>)
    requires i < |fs|
    ensures Continue(done, DecodeFields(fs[i..], b))
         == match Decode(fs[i], b)
            case Err(err) => Err(err)
            case Ok(v, rest) => Continue(done + [v], DecodeFields(fs[i + 1..], rest))
  {
    hide Decode;
    assert fs[i..][1..] == fs[i + 1..];
    if Decode(fs[i], b).Ok? {
      var v, tail := Decode(fs[i], b).value, DecodeFields(fs[i + 1..], Decode(fs[i], b).rest);
      assert tail.Ok? ==> done + ([v] + tail.value) == done + [v] + tail.value;
    }
  }

  class BytesDeserializer {
    const buf: BytesMut

    constructor (buf: BytesMut)
      ensures this.buf == buf
    {
      this.buf := buf;
    }

    ghost predicate Agrees<T>(r: Result<T, DecodeError>, d: Decoded<T>)
      reads buf
    {
      match d case Ok(v, rest) => r == Success(v) && buf.data == rest case Err(e) => r == Failure(e)
    }

    method BoolFromByte() returns (r: Result<bool, DecodeError>)
      modifies buf
      ensures Agrees(r, TakeFlag(old(buf.data)))
    {
      if |buf.data| < 1 {
        return Failure(UnexpectedEnd);
      }
      var byte := buf.data[0];
      buf.Advance(1);
      if byte == 0 {
        r := Success(false);
      } else if byte == 1 {
        r := Success(true);
      } else {
        r := Failure(InvalidBool(byte));
      }
    }

    method DeserializeAndEnsureLength() returns (r: Result<nat, DecodeError>)
      modifies buf
      ensures Agrees(r, TakeLength(old(buf.data)))
    {
      r := buf.TryGetUint(8);
      if r.Success? && |buf.data| < r.value {
        r := Failure(UnexpectedEnd);
      }
    }

    method CopyToBytes() returns (r: Result<seq<byte>, DecodeError>)
      modifies buf
      ensures Agrees(r, TakeRaw(old(buf.data)))
    {
      var len := DeserializeAndEnsureLength();
      if len.Failure? {
        return Failure(len.error);
      }
      r := Success(buf.data[..len.value]);
      buf.Advance(len.value);
    }

    /** Takes one value off the front of the buffer, exactly as `Decode` says. */
    method Deserialize(s: Schema) returns (r: Result<Value, DecodeError>)
      modifies buf
      ensures Agrees(r, Decode(s, old(buf.data)))
      decreases s, 0
    {
      hide FromBigEndian, IsUtf8, DecodeMany, DecodeFields;
      match s {
        case Bits(w) =>
          var n := buf.TryGetUint(w.Size());
          r := if n.Success? then Success(Num(n.value)) else Failure(n.error);
        case Signed(w) =>
          var n := buf.TryGetUint(w.Size());
          r := if n.Failure? then Failure(n.error)
          else Success(Num(if n.value < w.Half() then n.value else n.value - 2 * w.Half()));
        case Bool =>
          var f := BoolFromByte();
          r := if f.Success? then Success(Flag(f.value)) else Failure(f.error);
        case Char =>
          var n := buf.TryGetUint(4);
          r := if n.Failure? then Failure(n.error)
          else if IsScalar(n.value) then Success(Num(n.value)) else Failure(InvalidChar(n.value));
        case Str =>
          var raw := CopyToBytes();
          r := if raw.Failure? then Failure(raw.error)
          else if IsUtf8(raw.value) then Success(Raw(raw.value)) else Failure(InvalidUtf8);
        case Blob =>
          var raw := CopyToBytes();
          r := if raw.Success? then Success(Raw(raw.value)) else Failure(raw.error);
        case Unit => r := Success(UnitValue);
        case Opt(t) =>
          var some := BoolFromByte();
          if some.Failure? {
            return Failure(some.error);
          }
          if !some.value {
            return Success(Nothing);
          }
          var v := Deserialize(t);
          r := if v.Success? then Success(Just(v.value)) else Failure(v.error);
        case Seq(e) =>
          var len := DeserializeAndEnsureLength();
          if len.Failure? {
            return Failure(len.error);
          }
          var vs := VisitSeq(e, len.value);
          r := if vs.Success? then Success(List(vs.value)) else Failure(vs.error);
        case Tuple(fs) =>
          var vs := VisitFields(fs);
          r := if vs.Success? then Success(List(vs.value)) else Failure(vs.error);
        case Enum(ts) =>
          var index := buf.TryGetUint(4);
          if index.Failure? {
            return Failure(index.error);
          }
          if index.value >= |ts| {
            return Failure(InvalidVariant(index.value));
          }
          var v := Deserialize(ts[index.value]);
          r := if v.Success? then Success(Variant(index.value, v.value)) else Failure(v.error);
      }
    }

    /** Pulls elements while `remaining` is positive, as `SeqOrMapAccess` hands them out. */
    method VisitSeq(e: Schema, len: nat) returns (r: Result<seq<Value>, DecodeError>)
      modifies buf
      ensures Agrees(r, DecodeMany(e, len, old(buf.data)))
      decreases e, 1
    {
      hide Decode;
      var vs := [];
      var remaining: nat := len;
      ghost var whole := DecodeMany(e, len, buf.data);
      assert whole.Ok? ==> [] + whole.value == whole.value;
      while remaining > 0
        invariant DecodeMany(e, len, old(buf.data)) == Continue(vs, DecodeMany(e, remaining, buf.data))
      {
        ContinueMany(e, remaining, vs, buf.data);
        remaining := remaining - 1;
        var v := Deserialize(e);
        if v.Failure? {
          return Failure(v.error);
        }
        vs := vs + [v.value];
      }
      assert vs + [] == vs;
      r := Success(vs);
    }

    method VisitFields(fs: seq<Schema>) returns (r: Result<seq<Value>, DecodeError>)
      modifies buf
      ensures Agrees(r, DecodeFields(fs, old(buf.data)))
      decreases fs, 0
    {
      hide Decode;
      var vs := [];
      var remaining: nat := |fs|;
      ghost var whole := DecodeFields(fs, buf.data);
      assert whole.Ok? ==> [] + whole.value == whole.value;
      assert fs[0..] == fs;
      while remaining > 0
        invariant remaining <= |fs|
        invariant DecodeFields(fs, old(buf.data)) == Continue(vs, DecodeFields(fs[|fs| - remaining..], buf.data))
      {
        var i := |fs| - remaining;
        ContinueFields(fs, i, vs, buf.data);
        var v := Deserialize(fs[i]);
        if v.Failure? {
          return Failure(v.error);
        }
        remaining := remaining - 1;
        vs := vs + [v.value];
      }
      assert vs + [] == vs;
      r := Success(vs);
    }
  }
}
