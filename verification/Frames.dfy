/** BEEP frames, the limits on their header fields, and the errors of the protocol core. */
module Frames {
  import opened Octets

  const MAX_CHANNEL_NO: U32 := 2_147_483_647
  const MAX_MSG_NO: U32 := 2_147_483_647
  const MAX_ANS_NO: U32 := 2_147_483_647
  const MAX_FRAME_SIZE: U32 := 2_147_483_647
  const MAX_SEQ_NO: U32 := 4_294_967_295

  datatype Field = Channel | MsgNo | More | SeqNo | Size | AnsNo | AckNo | WindowSize

  datatype Error =
    | UnknownFrameType
    | HeaderTooLong
    | BareNewlineInHeader
    | TruncatedFrameType
    | NoSpaceAfterFrameType
    | TrailingOctets
    | WideContinuation
    | InvalidContinuation(indicator: Octet)
    | InvalidDigit(field: Field)
    | MissingField(field: Field)
    | ValueOutOfRange(field: Field)
    | FrameTooLarge
    | MissingTrailer
    | OutsideWindow(seqno: U32, len: U32, limit: U32)
    | UnexpectedSeqNo(found: U32, expected: U32)
    | MsgNoInUse(msgno: U32)
    | MsgNoExhausted
    | InterleavedFragment
    | ChannelStalled
    | NoSuchChannel(channel: U32)
    | NotReady
    | PeerMayNotAllocate
    | AlreadyOpen
    | UnknownMsgNo(msgno: U32)
    | UnexpectedElement
    | NotAGreeting
    | NotBeepXml

  datatype FrameKind = Msg | Rpy | Err | Ans | Nul {
    predicate HasAnsNo() { Ans? }

    /** Whether the kind answers a message rather than starting an exchange. */
    predicate IsReply() { !Msg? }

    /** Whether the kind ends the exchange it belongs to; an `ANS` does not. */
    predicate CompletesReply() { Rpy? || Err? || Nul? }
  }

  datatype DataFrame = DataFrame(
    kind: FrameKind, channel: U32, msgno: U32, more: bool, seqno: U32, ansno: Option<U32>, payload: Bytes)
  {
    /** What the constructors `new`, `new_ans` and `with_more` can build. */
    ghost predicate Valid()
    {
      && channel <= MAX_CHANNEL_NO
      && msgno <= MAX_MSG_NO
      && |payload| <= MAX_FRAME_SIZE
      && (kind.HasAnsNo() <==> ansno.Some?)
      && (ansno.Some? ==> ansno.value <= MAX_ANS_NO)
    }
  }

  datatype SeqFrame = SeqFrame(channel: U32, ackno: U32, window: U32) {
    ghost predicate Valid() { channel <= MAX_CHANNEL_NO && window <= MAX_FRAME_SIZE }
  }

  datatype Frame = Data(data: DataFrame) | Seq(seqf: SeqFrame) {
    ghost predicate Valid() { if Data? then data.Valid() else seqf.Valid() }
  }

  /** Data frames as frames. */
  function AsFrames(fs: seq<DataFrame>): seq<Frame>
  {
    if fs == [] then [] else AsFrames(fs[..|fs| - 1]) + [Data(fs[|fs| - 1])]
  }

  lemma {:induction false} AsFramesAppend(a: seq<DataFrame>, b: seq<DataFrame>)
    ensures AsFrames(a + b) == AsFrames(a) + AsFrames(b)
    decreases |b|
  {
    if b == [] {
      assert a + b == a;
    } else {
      var n := |b| - 1;
      assert (a + b)[..|a + b| - 1] == a + b[..n] && (a + b)[|a + b| - 1] == b[n];
      AsFramesAppend(a, b[..n]);
    }
  }

  /** `DataFrame::build`: range checks in the source's order, then the frame itself. */
  function BuildFrame(kind: FrameKind, channel: U32, msgno: U32, seqno: U32, ansno: Option<U32>, payload: Bytes)
    : (r: Result<DataFrame, Error>)
    ensures r.Ok? && (kind.HasAnsNo() <==> ansno.Some?) ==> r.value.Valid()
  {
    if channel > MAX_CHANNEL_NO then Failed(ValueOutOfRange(Field.Channel))
    else if msgno > MAX_MSG_NO then Failed(ValueOutOfRange(MsgNo))
    else if ansno.Some? && ansno.value > MAX_ANS_NO then Failed(ValueOutOfRange(AnsNo))
    else if |payload| > MAX_FRAME_SIZE then Failed(FrameTooLarge)
    else Ok(DataFrame(kind, channel, msgno, false, seqno, ansno, payload))
  }

  /** `DataFrame::new` and `DataFrame::new_ans`, chosen the way `decode` and `build` choose. */
  function NewFrame(kind: FrameKind, channel: U32, msgno: U32, seqno: U32, ansno: Option<U32>, payload: Bytes)
    : (r: Result<DataFrame, Error>)
    ensures r.Ok? ==> r.value.Valid()
  {
    if ansno.Some? then BuildFrame(Ans, channel, msgno, seqno, ansno, payload)
    else if kind.HasAnsNo() then Failed(MissingField(AnsNo))
    else BuildFrame(kind, channel, msgno, seqno, None, payload)
  }
}
