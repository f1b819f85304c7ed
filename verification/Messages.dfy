/** The types that actually travel between orchestrator and load generators. */
module Messages {
  import opened Bytes
  import opened Codec
  import opened CodecProofs
  import opened Framing

  const Seconds := Bits(W8)  // an f64

  const Command := Enum([Unit, Unit])

  const Step := Tuple([Seconds, Bits(W4)])
  const Profile := Tuple([Seq(Step)])
  const Registry := MapOf(Str, Str)
  const WarmupSchema := Tuple([Bits(W4), Bits(W4), Bits(W4)])
  const GeneratorConfig :=
    Tuple([Profile, Str, Registry, WarmupSchema, Bits(W4), Bits(W8), Bits(W8), Bits(W1)])
  const ConfigMessage := Enum([GeneratorConfig, Unit])

  const GeneratorInfo := Tuple([Str, Str, Str, Bits(W4), Bits(W4)])
  const ConfigResponse := Enum([GeneratorInfo, Tuple([Str]), Unit])

  const ResultMetadata := Tuple([Bits(W8), Bits(W4), Bits(W1), Seconds, Seconds, Seconds])
  const DroppedMetadata := Tuple([Opt(Bits(W4)), Bits(W1), Seconds, Seconds])
  const FailedCode := Enum([Str, Str, Bits(W2)])
  const TimeoutCode := Enum([Str])
  const DroppedCode := Enum([Unit, Unit, Str])
  const TransactionResult := Enum([
    Tuple([ResultMetadata, Bits(W8), Bits(W8)]),
    Tuple([ResultMetadata, Bits(W8), Bits(W8), FailedCode]),
    Tuple([ResultMetadata, Bits(W8), Bits(W8), TimeoutCode]),
    Tuple([DroppedMetadata, Bits(W8), DroppedCode])])
  const IntervalStatistics :=
    Tuple([Bits(W8), Bits(W8), Bits(W8), Bits(W8), Bits(W8), Bits(W8), Seq(TransactionResult)])
  const IntervalReport := Tuple([Seconds, Bits(W4), IntervalStatistics, Opt(Seconds)])
  const GeneratorUpdate := Enum([IntervalReport, Unit])

  ghost predicate MessageType(s: Schema) {
    s == Command || s == ConfigMessage || s == ConfigResponse || s == GeneratorUpdate
  }

  lemma StartsWithBytes(first: Schema, fields: seq<Schema>)
    requires AlwaysBytes(first) && fields != [] && fields[0] == first
    ensures AlwaysBytes(Tuple(fields))
  {
    assert AlwaysBytes(fields[0]);
  }

  lemma ConfigIsSafe()
    ensures Safe(GeneratorConfig)
  {
    StartsWithBytes(Seconds, Step.fields);
    StartsWithBytes(Str, [Str, Str]);
    var entry := Tuple([Str, Str]);
    assert Registry == Seq(entry);
    assert Safe(entry) && AlwaysBytes(entry);
    assert Safe(Seq(entry));
    assert Safe(Step) && Safe(Registry) && Safe(WarmupSchema);
    assert Safe(Profile);
  }

  lemma ResultIsSafe()
    ensures Safe(TransactionResult)
  {
    assert Safe(ResultMetadata) && Safe(DroppedMetadata);
    assert Safe(FailedCode) && Safe(TimeoutCode) && Safe(DroppedCode);
    forall i | 0 <= i < |TransactionResult.variants| ensures Safe(TransactionResult.variants[i]) {
      assert i == 0 || i == 1 || i == 2 || i == 3;
    }
  }

  lemma ReportIsSafe()
    ensures Safe(IntervalReport)
  {
    ResultIsSafe();
    assert Safe(IntervalStatistics);
  }

  /** Every message type of the protocol is safe, so the length check never rejects one. */
  lemma MessageTypesAreSafe(s: Schema)
    requires MessageType(s)
    ensures Safe(s)
  {
    ConfigIsSafe();
    ReportIsSafe();
    assert Safe(GeneratorInfo) && Safe(Tuple([Str])) && Safe(Unit);
  }

  /**
   For the real messages the conditions of `Delivery` shrink to what memory allows anyway:
   whatever messages are sent and however the stream is cut, exactly they arrive.
   */
  lemma MessagesArrive(s: Schema, msgs: seq<Value>, chunks: seq<seq<byte>>)
    requires MessageType(s)
    requires forall i :: 0 <= i < |msgs| ==> Typed(s, msgs[i]) && HEADER_SIZE + |Encode(s, msgs[i])| < U64_SPAN
    requires Flatten(chunks) == Frames(s, msgs)
    ensures FeedAll(s, Open([], []), chunks) == Open(msgs, [])
  {
    hide Encode, Frame, DecodeFrame;
    MessageTypesAreSafe(s);
    forall i | 0 <= i < |msgs| ensures Sendable(s, msgs[i]) {
      SafeCountsFit(s, msgs[i], 0);
    }
    Delivery(s, msgs, chunks, 0);
  }
}
