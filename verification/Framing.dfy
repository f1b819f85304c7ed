/**
 Frames on a byte stream (src/net/framer.rs, src/net/protocol.rs): a 12-byte header whose
 size field is patched in after the payload has been written, and a decoder that is fed
 whatever chunks the network delivers.
 */
module Framing {
  import opened Wrappers
  import opened Bytes
  import opened Codec
  import opened CodecProofs
  import opened Buffers

  const MAGIC_NUMBER := 0xABCD
  const VERSION: byte := 1
  const PAYLOAD_SIZE_OFFSET := 4
  const HEADER_SIZE := 12

  datatype FrameError =
    | MagicNumberMismatch(magic: nat)
    | VersionMismatch(version: byte)
    | SizeOverflow
    | Payload(error: DecodeError)

  datatype EncodeError = MaximumPayloadSize(size: nat)

  function Header(size: nat): (h: seq<byte>)
    ensures |h| == HEADER_SIZE
  {
    BigEndian(MAGIC_NUMBER, 2) + [VERSION] + [0] + BigEndian(size, 8)
  }

  function Frame(s: Schema, v: Value): seq<byte>
    requires Typed(s, v)
  {
    Header(|Encode(s, v)|) + Encode(s, v)
  }

  /** What one `decode` call makes of the bytes buffered so far. */
  datatype FrameResult =
    | NeedMore
    | Item(value: Value, rest: seq<byte>)
    | Bad(error: FrameError, rest: seq<byte>)

  function DecodeFrame(s: Schema, b: seq<byte>): FrameResult {
    if |b| < HEADER_SIZE then NeedMore
    else
      var magic := FromBigEndian(b[..2]);
      var size := FromBigEndian(b[PAYLOAD_SIZE_OFFSET..HEADER_SIZE]);
      if magic != MAGIC_NUMBER then Bad(MagicNumberMismatch(magic), b)
      else if b[2] != VERSION then Bad(VersionMismatch(b[2]), b)
      else if HEADER_SIZE + size >= U64_SPAN then Bad(SizeOverflow, b)
      else if |b| < HEADER_SIZE + size then NeedMore
      else
        var rest := b[HEADER_SIZE + size..];
        match Decode(s, b[HEADER_SIZE..HEADER_SIZE + size])
        case Ok(v, _) => Item(v, rest)
        case Err(e) => Bad(Payload(e), rest)
  }

  lemma HeaderBytes(size: nat)
    ensures Header(size)[..4] == [0xAB, 0xCD, 1, 0] && Header(size)[4..] == BigEndian(size, 8)
  {
    assert BigEndian(0xAB, 1) == [0xAB];
    assert BigEndian(MAGIC_NUMBER, 2) == [0xAB, 0xCD];
    hide BigEndian;
  }

  /** A frame byte by byte: two magic bytes, the version, no flags, eight bytes of size, and the payload. */
  lemma FrameBytes(s: Schema, v: Value)
    requires Typed(s, v)
    ensures |Frame(s, v)| == 12 + |Encode(s, v)|
    ensures Frame(s, v)[..4] == [0xAB, 0xCD, 1, 0] && Frame(s, v)[12..] == Encode(s, v)
    ensures forall k :: 4 <= k < 12 ==> Frame(s, v)[k] == |Encode(s, v)| / Span(11 - k) % 256
  {
    hide Encode, Typed, BigEndian, Span, Header;
    var size, header := |Encode(s, v)|, Header(|Encode(s, v)|);
    HeaderBytes(size);
    assert Frame(s, v)[..4] == header[..4];
    forall k | 4 <= k < 12 ensures Frame(s, v)[k] == size / Span(11 - k) % 256 {
      BigEndianAt(size, 8, k - 4);
      assert Frame(s, v)[k] == header[4..][k - 4];
    }
  }

  /**
   A header that is not one is refused as soon as it is whole, whatever follows: first for its magic bytes, then
   for its version. One with both right is refused only if its size is beyond 64 bits, or for its payload; its
   flags do not matter, and the decoder waits for as many bytes as it announces.
   */
  lemma HeaderDecides(s: Schema, b: seq<byte>, flags: byte)
    requires |b| >= HEADER_SIZE
    ensures var r, magic := DecodeFrame(s, b), b[0] == 0xAB && b[1] == 0xCD;
            && (!magic ==> r == Bad(MagicNumberMismatch(b[0] as nat * 256 + b[1]), b))
            && (magic && b[2] != 1 ==> r == Bad(VersionMismatch(b[2]), b))
            && (magic && b[2] == 1 ==>
                  var end := 12 + FromBigEndian(b[4..12]);
                  && (r == Bad(SizeOverflow, b) <==> end >= 0x1_0000_0000_0000_0000)
                  && (r == NeedMore <==> |b| < end < 0x1_0000_0000_0000_0000)
                  && (r.Bad? && r.error != SizeOverflow ==> r.error.Payload?)
                  && (end < 0x1_0000_0000_0000_0000 ==> DecodeFrame(s, b[3 := flags]) == r))
  {
    assert FromBigEndian(b[..2]) == b[0] as nat * 256 + b[1] by {
      assert b[..2][..1] == [b[0]] && FromBigEndian([b[0]]) == b[0];
    }
    hide Decode, FromBigEndian;
    var c := b[3 := flags];
    assert c[..2] == b[..2] && c[2] == b[2] && c[4..] == b[4..];
    var size := FromBigEndian(b[PAYLOAD_SIZE_OFFSET..HEADER_SIZE]);
    assert c[PAYLOAD_SIZE_OFFSET..HEADER_SIZE] == b[PAYLOAD_SIZE_OFFSET..HEADER_SIZE];
    if |b| >= HEADER_SIZE + size {
      assert c[HEADER_SIZE + size..] == b[HEADER_SIZE + size..];
      assert c[HEADER_SIZE..HEADER_SIZE + size] == b[HEADER_SIZE..HEADER_SIZE + size];
    }
  }

  // ---------------------------------------------------------------- the code, on its buffer

  /** `Message::serialize`: the header goes in with size zero and is patched at the end. */
  method SerializeMessage(buf: BytesMut, s: Schema, v: Value) returns (r: Option<EncodeError>)
    requires Typed(s, v)
    modifies buf
    ensures |Encode(s, v)| < U64_SPAN ==> r == None && buf.data == old(buf.data) + Frame(s, v)
    ensures |Encode(s, v)| >= U64_SPAN ==>
              && r == Some(MaximumPayloadSize(|Encode(s, v)|))
              && buf.data == old(buf.data) + Header(0) + Encode(s, v)
  {
    hide BigEndian, Encode, Typed;
    ghost var before := buf.data;
    var headerPos := |buf.data|;
    buf.PutUint(MAGIC_NUMBER, 2);
    buf.PutSlice([VERSION]);
    buf.PutSlice([0]);
    buf.PutUint(0, 8);
    assert buf.data == before + Header(0);
    var payloadPos := |buf.data|;
    var serializer := new BytesSerializer(buf);
    serializer.Serialize(s, v);
    var payloadSize := |buf.data| - payloadPos;
    if payloadSize >= U64_SPAN {
      return Some(MaximumPayloadSize(payloadSize));
    }
    ghost var written := buf.data;
    buf.CopyFromSlice(headerPos + PAYLOAD_SIZE_OFFSET, BigEndian(payloadSize, 8));
    assert written[..headerPos + 4] == before + (BigEndian(MAGIC_NUMBER, 2) + [VERSION] + [0]);
    assert written[headerPos + 12..] == Encode(s, v);
    return None;
  }

  /** `MessageFramer::decode`: takes at most one message off the front of `src`. */
  method DecodeMessage(src: BytesMut, s: Schema) returns (r: Result<Option<Value>, FrameError>)
    modifies src
    ensures match DecodeFrame(s, old(src.data))
            case NeedMore => r == Success(None) && src.data == old(src.data)
            case Item(v, rest) => r == Success(Some(v)) && src.data == rest
            case Bad(e, rest) => r == Failure(e) && src.data == rest
  {
    hide FromBigEndian, Decode;
    if |src.data| < HEADER_SIZE {
      return Success(None);
    }
    var magic := FromBigEndian(src.data[..2]);
    if magic != MAGIC_NUMBER {
      return Failure(MagicNumberMismatch(magic));
    }
    if src.data[2] != VERSION {
      return Failure(VersionMismatch(src.data[2]));
    }
    var payloadSize := FromBigEndian(src.data[PAYLOAD_SIZE_OFFSET..HEADER_SIZE]);
    if HEADER_SIZE + payloadSize >= U64_SPAN {
      return Failure(SizeOverflow);
    }
    if |src.data| < HEADER_SIZE + payloadSize {
      return Success(None);
    }
    ghost var b := src.data;
    src.Advance(HEADER_SIZE);
    var payload := src.SplitTo(payloadSize);
    assert payload.data == b[HEADER_SIZE..HEADER_SIZE + payloadSize];
    assert src.data == b[HEADER_SIZE + payloadSize..];
    var deserializer := new BytesDeserializer(payload);
    var v := deserializer.Deserialize(s);
    r := if v.Success? then Success(Some(v.value)) else Failure(Payload(v.error));
  }

  // ---------------------------------------------------------------- the stream

  /** A receiver: everything decoded so far, and the bytes still buffered. An error is final. */
  datatype Receiver =
    | Open(items: seq<Value>, buffer: seq<byte>)
    | Broken(items: seq<Value>, error: FrameError)

  lemma ItemsShrinkTheBuffer(s: Schema, b: seq<byte>)
    requires DecodeFrame(s, b).Item?
    ensures |DecodeFrame(s, b).rest| < |b|
  {
  }

  /** Calls `decode` until it asks for more bytes. */
  function Drain(s: Schema, items: seq<Value>, b: seq<byte>): Receiver
    decreases |b|
  {
    match DecodeFrame(s, b)
    case NeedMore => Open(items, b)
    case Item(v, rest) => ItemsShrinkTheBuffer(s, b); Drain(s, items + [v], rest)
    case Bad(e, _) => Broken(items, e)
  }

  function Feed(s: Schema, receiver: Receiver, chunk: seq<byte>): Receiver {
    match receiver
    case Open(items, buffer) => Drain(s, items, buffer + chunk)
    case Broken(_, _) => receiver
  }

  function FeedAll(s: Schema, receiver: Receiver, chunks: seq<seq<byte>>): Receiver
    decreases |chunks|
  {
    if chunks == [] then receiver else FeedAll(s, Feed(s, receiver, chunks[0]), chunks[1..])
  }

  function Flatten(chunks: seq<seq<byte>>): seq<byte> {
    if chunks == [] then [] else chunks[0] + Flatten(chunks[1..])
  }

  /** More bytes never change what a complete frame, or a broken one, decoded to. */
  lemma MoreBytes(s: Schema, b: seq<byte>, c: seq<byte>)
    ensures match DecodeFrame(s, b)
            case NeedMore => true
            case Item(v, rest) => DecodeFrame(s, b + c) == Item(v, rest + c)
            case Bad(e, rest) => DecodeFrame(s, b + c) == Bad(e, rest + c)
  {
    hide FromBigEndian, Decode;
    if |b| >= HEADER_SIZE {
      assert (b + c)[..2] == b[..2];
      assert (b + c)[PAYLOAD_SIZE_OFFSET..HEADER_SIZE] == b[PAYLOAD_SIZE_OFFSET..HEADER_SIZE];
      var end := HEADER_SIZE + FromBigEndian(b[PAYLOAD_SIZE_OFFSET..HEADER_SIZE]);
      if |b| >= end {
        assert (b + c)[HEADER_SIZE..end] == b[HEADER_SIZE..end];
        assert (b + c)[end..] == b[end..] + c;
      }
    }
  }

  lemma {:induction false} DrainResumes(s: Schema, items: seq<Value>, b: seq<byte>, c: seq<byte>)
    ensures Drain(s, items, b + c) == Feed(s, Drain(s, items, b), c)
    decreases |b|
  {
    hide DecodeFrame;
    MoreBytes(s, b, c);
    var d := DecodeFrame(s, b);
    if d.Item? {
      ItemsShrinkTheBuffer(s, b);
      ItemsShrinkTheBuffer(s, b + c);
      DrainResumes(s, items + [d.value], d.rest, c);
    }
  }

  /**
   Chunking is invisible. For all bytes whatsoever, well-formed or not, however they are cut,
   feeding the chunks gives the items, buffer or error that feeding them at once gives.
   */
  lemma {:induction false} ChunkingIsInvisible(s: Schema, items: seq<Value>, b: seq<byte>, chunks: seq<seq<byte>>)
    ensures FeedAll(s, Drain(s, items, b), chunks) == Drain(s, items, b + Flatten(chunks))
    decreases |chunks|
  {
    if chunks == [] {
      assert b + Flatten(chunks) == b;
    } else {
      DrainResumes(s, items, b, chunks[0]);
      ChunkingIsInvisible(s, items, b + chunks[0], chunks[1..]);
      assert b + Flatten(chunks) == b + chunks[0] + Flatten(chunks[1..]);
    }
    BrokenStaysBroken(s, Drain(s, items, b), chunks);
    if chunks != [] && Drain(s, items, b).Broken? {
      BrokenStaysBroken(s, Drain(s, items, b), chunks[1..]);
    }
  }

  lemma {:induction false} BrokenStaysBroken(s: Schema, receiver: Receiver, chunks: seq<seq<byte>>)
    ensures receiver.Broken? ==> FeedAll(s, receiver, chunks) == receiver
  {
    if receiver.Broken? && chunks != [] {
      BrokenStaysBroken(s, receiver, chunks[1..]);
    }
  }

  // ---------------------------------------------------------------- messages in, messages out

  /** A message the codec brings back when nothing follows it, small enough to be framed. */
  ghost predicate Sendable(s: Schema, v: Value) {
    Typed(s, v) && HEADER_SIZE + |Encode(s, v)| < U64_SPAN && CountsFit(s, v, 0)
  }

  function Frames(s: Schema, msgs: seq<Value>): seq<byte>
    requires forall i :: 0 <= i < |msgs| ==> Typed(s, msgs[i])
  {
    if msgs == [] then [] else Frame(s, msgs[0]) + Frames(s, msgs[1..])
  }

  /** What the decoder reads out of bytes that begin with a header. */
  lemma HeaderFields(b: seq<byte>, size: nat)
    requires size < U64_SPAN && |b| >= HEADER_SIZE && b[..HEADER_SIZE] == Header(size)
    ensures FromBigEndian(b[..2]) == MAGIC_NUMBER && b[2] == VERSION
    ensures FromBigEndian(b[PAYLOAD_SIZE_OFFSET..HEADER_SIZE]) == size
  {
    hide BigEndian, FromBigEndian;
    SpanValues();
    var h, magic, tail := Header(size), BigEndian(MAGIC_NUMBER, 2), BigEndian(size, 8);
    assert h == magic + [VERSION] + [0] + tail;
    assert h[..2] == magic && h[2] == VERSION && h[PAYLOAD_SIZE_OFFSET..] == tail;
    assert b[..2] == h[..2] && b[2] == h[2] && b[PAYLOAD_SIZE_OFFSET..HEADER_SIZE] == h[PAYLOAD_SIZE_OFFSET..];
    DecodeOfBigEndian(MAGIC_NUMBER, 2);
    DecodeOfBigEndian(size, 8);
  }

  /**
   A frame decodes to its message exactly when the codec's counts fit, and to a payload error
   otherwise; either way the bytes behind the frame are left alone.
   */
  lemma FrameRoundTrip(s: Schema, v: Value, r: seq<byte>)
    requires Typed(s, v) && HEADER_SIZE + |Encode(s, v)| < U64_SPAN
    ensures DecodeFrame(s, Frame(s, v) + r)
         == (if CountsFit(s, v, 0) then Item(v, r) else Bad(Payload(UnexpectedEnd), r))
  {
    hide Encode, Decode, Typed, CountsFit, Header, FromBigEndian;
    var payload := Encode(s, v);
    var b := Frame(s, v) + r;
    assert b[..HEADER_SIZE] == Header(|payload|);
    HeaderFields(b, |payload|);
    assert b[HEADER_SIZE..HEADER_SIZE + |payload|] == payload;
    assert b[HEADER_SIZE + |payload|..] == r;
    RoundTrip(s, v, []);
    assert payload + [] == payload;
  }

  /** Part of a frame asks for more bytes. */
  lemma PartialFrame(s: Schema, v: Value, n: nat)
    requires Typed(s, v) && HEADER_SIZE + |Encode(s, v)| < U64_SPAN && n < |Frame(s, v)|
    ensures DecodeFrame(s, Frame(s, v)[..n]) == NeedMore
  {
    hide Encode, Decode, Typed, Header, FromBigEndian;
    var b := Frame(s, v)[..n];
    if n >= HEADER_SIZE {
      assert b[..HEADER_SIZE] == Header(|Encode(s, v)|);
      HeaderFields(b, |Encode(s, v)|);
    }
  }

  /** How many whole frames the first `n` bytes hold. */
  function WholeFrames(s: Schema, msgs: seq<Value>, n: nat): (k: nat)
    requires forall i :: 0 <= i < |msgs| ==> Typed(s, msgs[i])
    ensures k <= |msgs|
  {
    if msgs == [] || n < |Frame(s, msgs[0])| then 0
    else 1 + WholeFrames(s, msgs[1..], n - |Frame(s, msgs[0])|)
  }

  lemma {:induction false} DrainFrames(s: Schema, items: seq<Value>, msgs: seq<Value>, tail: seq<byte>)
    requires forall i :: 0 <= i < |msgs| ==> Typed(s, msgs[i]) && Sendable(s, msgs[i])
    ensures Drain(s, items, Frames(s, msgs) + tail) == Drain(s, items + msgs, tail)
    decreases |msgs|
  {
    hide DecodeFrame, Frame, Encode, Decode, CountsFit, Typed;
    if msgs == [] {
      assert Frames(s, msgs) + tail == tail && items + msgs == items;
    } else {
      var behind := Frames(s, msgs[1..]) + tail;
      assert Frames(s, msgs) + tail == Frame(s, msgs[0]) + behind;
      FrameRoundTrip(s, msgs[0], behind);
      DrainFrames(s, items + [msgs[0]], msgs[1..], tail);
      assert items + [msgs[0]] + msgs[1..] == items + msgs;
    }
  }

  /** The first `n` bytes of a stream of frames are whole frames and a part of the next. */
  lemma {:induction false} PrefixOfFrames(s: Schema, msgs: seq<Value>, n: nat) returns (part: seq<byte>)
    requires forall i :: 0 <= i < |msgs| ==> Typed(s, msgs[i])
    requires n <= |Frames(s, msgs)|
    ensures var k := WholeFrames(s, msgs, n);
            && Frames(s, msgs)[..n] == Frames(s, msgs[..k]) + part
            && (if k == |msgs| then part == []
                else |part| < |Frame(s, msgs[k])| && part == Frame(s, msgs[k])[..|part|])
    decreases |msgs|
  {
    hide Frame, Typed;
    if msgs == [] {
      part := [];
    } else if n < |Frame(s, msgs[0])| {
      part := Frames(s, msgs)[..n];
      assert msgs[..0] == [];
    } else {
      var frame, k := Frame(s, msgs[0]), WholeFrames(s, msgs, n);
      part := PrefixOfFrames(s, msgs[1..], n - |frame|);
      assert msgs[..k][1..] == msgs[1..][..k - 1] && k > 0;
      assert Frames(s, msgs) == frame + Frames(s, msgs[1..]);
      assert Frames(s, msgs[..k]) == frame + Frames(s, msgs[1..][..k - 1]);
      hide Frames, WholeFrames;
      PrefixAfter(frame, Frames(s, msgs[1..]), Frames(s, msgs[1..][..k - 1]), part, n);
    }
  }

  lemma PrefixAfter<T>(first: seq<T>, rest: seq<T>, whole: seq<T>, part: seq<T>, n: nat)
    requires |first| <= n <= |first| + |rest| && rest[..n - |first|] == whole + part
    ensures (first + rest)[..n] == first + whole + part
  {
    assert (first + rest)[..n] == first + rest[..n - |first|];
  }

  /**
   After any number of bytes of a stream of frames, the messages decoded are exactly the whole
   frames received, and the buffer holds exactly the bytes behind them.
   */
  lemma DrainOfPrefix(s: Schema, msgs: seq<Value>, n: nat)
    requires forall i :: 0 <= i < |msgs| ==> Typed(s, msgs[i]) && Sendable(s, msgs[i])
    requires n <= |Frames(s, msgs)|
    ensures var k := WholeFrames(s, msgs, n);
            && |Frames(s, msgs[..k])| <= n
            && Drain(s, [], Frames(s, msgs)[..n]) == Open(msgs[..k], Frames(s, msgs)[|Frames(s, msgs[..k])|..n])
            && (k < |msgs| ==> n < |Frames(s, msgs[..k])| + |Frame(s, msgs[k])|)
  {
    hide DecodeFrame, Frame, Encode, Decode, CountsFit, Typed;
    var k := WholeFrames(s, msgs, n);
    var part := PrefixOfFrames(s, msgs, n);
    DrainFrames(s, [], msgs[..k], part);
    assert [] + msgs[..k] == msgs[..k];
    if k < |msgs| {
      PartialFrame(s, msgs[k], |part|);
    } else {
      NothingToDecode(s);
    }
    hide Frames, WholeFrames;
    assert part == Frames(s, msgs)[..n][|Frames(s, msgs[..k])|..];
  }

  lemma NothingToDecode(s: Schema)
    ensures DecodeFrame(s, []) == NeedMore
  {
  }

  /**
   Delivery: cut a stream of frames into any chunks; after each chunk the receiver has exactly
   the whole frames so far and keeps exactly the bytes behind them, and after the last chunk it
   has all messages in order and an empty buffer.
   */
  lemma Delivery(s: Schema, msgs: seq<Value>, chunks: seq<seq<byte>>, j: nat)
    requires forall i :: 0 <= i < |msgs| ==> Typed(s, msgs[i]) && Sendable(s, msgs[i])
    requires Flatten(chunks) == Frames(s, msgs) && j <= |chunks|
    ensures var n := |Flatten(chunks[..j])|;
            var k := WholeFrames(s, msgs, n);
            && n <= |Frames(s, msgs)| && |Frames(s, msgs[..k])| <= n
            && FeedAll(s, Open([], []), chunks[..j]) == Open(msgs[..k], Frames(s, msgs)[|Frames(s, msgs[..k])|..n])
            && (k < |msgs| ==> n < |Frames(s, msgs[..k])| + |Frame(s, msgs[k])|)
    ensures FeedAll(s, Open([], []), chunks) == Open(msgs, [])
  {
    hide DecodeFrame, Frame, Encode, Decode, CountsFit, Typed;
    NothingToDecode(s);
    assert Drain(s, [], []) == Open([], []);
    FlattenPrefix(chunks, j);
    ChunkingIsInvisible(s, [], [], chunks[..j]);
    var n := |Flatten(chunks[..j])|;
    assert [] + Flatten(chunks[..j]) == Frames(s, msgs)[..n];
    DrainOfPrefix(s, msgs, n);
    ChunkingIsInvisible(s, [], [], chunks);
    var all := Frames(s, msgs);
    assert [] + Flatten(chunks) == all[..|all|];
    DrainOfPrefix(s, msgs, |all|);
    AllFramesAreWhole(s, msgs);
    assert msgs[..|msgs|] == msgs;
  }

  lemma {:induction false} AllFramesAreWhole(s: Schema, msgs: seq<Value>)
    requires forall i :: 0 <= i < |msgs| ==> Typed(s, msgs[i])
    ensures WholeFrames(s, msgs, |Frames(s, msgs)|) == |msgs|
  {
    hide Frame, Typed;
    if msgs != [] {
      AllFramesAreWhole(s, msgs[1..]);
    }
  }

  lemma {:induction false} FlattenPrefix(chunks: seq<seq<byte>>, j: nat)
    requires j <= |chunks|
    ensures Flatten(chunks[..j]) <= Flatten(chunks)
  {
    if j > 0 {
      FlattenPrefix(chunks[1..], j - 1);
      assert chunks[..j][1..] == chunks[1..][..j - 1];
      assert Flatten(chunks[..j]) == chunks[0] + Flatten(chunks[1..][..j - 1]);
    }
  }
}
