/**
 * The frame codec: the printer of `frame.rs` and the incremental parser of `codec.rs`, as
 * functions on octet strings. `Decoders` holds the stateful forms, proved equal to these.
 */
module Codec {
  import opened Octets
  import opened Frames

  const LF: Octet := 10
  const CR: Octet := 13
  const SP: Octet := 32
  const STAR: Octet := 42
  const DOT: Octet := 46
  const ZERO: Octet := 48

  const CRLF: Bytes := [CR, LF]
  const TRAILER: Bytes := [69, 78, 68, 13, 10]      // END CR LF
  const SEQ_TOKEN: Bytes := [83, 69, 81]            // SEQ
  const MAX_HEADER_LEN: nat := 98

  // ---- printing ----------------------------------------------------------------------

  /** `put_u32`: decimal digits, most significant first. */
  function Digits(v: nat): (ds: Bytes)
    ensures ds != []
  {
    if v < 10 then [ZERO + v] else Digits(v / 10) + [ZERO + v % 10]
  }

  function Token(kind: FrameKind): (t: Bytes)
    ensures |t| == 3
  {
    match kind
    case Msg => [77, 83, 71]
    case Rpy => [82, 80, 89]
    case Err => [69, 82, 82]
    case Ans => [65, 78, 83]
    case Nul => [78, 85, 76]
  }

  /** Header fields with a single space between them. */
  function Spaced(fields: seq<Bytes>): Bytes
  {
    if fields == [] then []
    else if |fields| == 1 then fields[0]
    else fields[0] + [SP] + Spaced(fields[1..])
  }

  function DataFields(f: DataFrame): seq<Bytes>
    requires |f.payload| < MODULUS
  {
    [Digits(f.channel), Digits(f.msgno), [if f.more then STAR else DOT], Digits(f.seqno), Digits(|f.payload|)]
    + if f.ansno.Some? then [Digits(f.ansno.value)] else []
  }

  function SeqFields(s: SeqFrame): seq<Bytes>
  {
    [Digits(s.channel), Digits(s.ackno), Digits(s.window)]
  }

  function Line(token: Bytes, fields: seq<Bytes>): Bytes
  {
    token + [SP] + Spaced(fields)
  }

  /** `Frame::encode`. */
  function Encode(f: Frame): Bytes
    requires f.Valid()
  {
    match f
    case Data(d) => Line(Token(d.kind), DataFields(d)) + CRLF + d.payload + TRAILER
    case Seq(s) => Line(SEQ_TOKEN, SeqFields(s)) + CRLF
  }

  ghost predicate AllValid(fs: seq<Frame>)
  {
    forall i :: 0 <= i < |fs| ==> fs[i].Valid()
  }

  function EncodeAll(fs: seq<Frame>): Bytes
    requires AllValid(fs)
  {
    if fs == [] then [] else Encode(fs[0]) + EncodeAll(fs[1..])
  }

  // ---- parsing -----------------------------------------------------------------------

  /** Position of the first occurrence of `needle`. */
  function Find(hay: Bytes, needle: Octet): (at: Option<nat>)
    ensures at.Some? ==> at.value < |hay| && hay[at.value] == needle
  {
    if hay == [] then None
    else if hay[0] == needle then Some(0)
    else
      var rest := Find(hay[1..], needle);
      if rest.None? then None else Some(rest.value + 1)
  }

  predicate IsDigit(b: Octet) { ZERO <= b <= ZERO + 9 }

  /** `parse_u32`, with `value` accumulated so far. */
  function ParseFrom(value: nat, field: Bytes, name: Field, max: U32): (r: Result<U32, Error>)
    requires value <= max
    ensures r.Ok? ==> r.value <= max
    decreases |field|
  {
    if field == [] then Ok(value)
    else if !IsDigit(field[0]) then Failed(InvalidDigit(name))
    else
      var next := value * 10 + (field[0] - ZERO);
      if next > max then Failed(ValueOutOfRange(name))
      else ParseFrom(next, field[1..], name, max)
  }

  function ParseU32(field: Bytes, name: Field, max: U32): (r: Result<U32, Error>)
  {
    ParseFrom(0, field, name, max)
  }

  function ParseContinuation(field: Bytes): Result<bool, Error>
  {
    if field == [DOT] then Ok(false)
    else if field == [STAR] then Ok(true)
    else if |field| == 1 then Failed(InvalidContinuation(field[0]))
    else Failed(WideContinuation)
  }

  datatype Cut = Cut(field: Bytes, rest: Option<Bytes>)

  /** `Fields::next`: the octets up to the next space, rejecting an empty field. */
  function NextField(rest: Option<Bytes>, name: Field): Result<Cut, Error>
  {
    if rest.None? then Failed(MissingField(name))
    else
      var at := Find(rest.value, SP);
      var cut := if at.Some? then Cut(rest.value[..at.value], Some(rest.value[at.value + 1..])) else Cut(rest.value, None);
      if cut.field == [] then Failed(MissingField(name)) else Ok(cut)
  }

  function FieldMax(name: Field): U32
  {
    match name
    case More => 1
    case SeqNo => MAX_SEQ_NO
    case AckNo => MAX_SEQ_NO
    case _ => 2_147_483_647
  }

  /** A field's value: a number within the field's range, or 1 for a frame that is to be continued. */
  function ParseField(field: Bytes, name: Field): (r: Result<U32, Error>)
    ensures r.Ok? ==> r.value <= FieldMax(name)
  {
    if name.More? then
      var more := ParseContinuation(field);
      if more.Failed? then Failed(more.error) else Ok(if more.value then 1 else 0)
    else ParseU32(field, name, FieldMax(name))
  }

  /** The fields of a header line one after the other, and nothing behind the last. */
  function ParseFields(rest: Option<Bytes>, names: seq<Field>): (r: Result<seq<U32>, Error>)
    ensures r.Ok? ==> |r.value| == |names| && forall i :: 0 <= i < |names| ==> r.value[i] <= FieldMax(names[i])
    decreases |names|
  {
    if names == [] then
      if rest.Some? then Failed(TrailingOctets) else Ok([])
    else
      var cut := NextField(rest, names[0]);
      if cut.Failed? then Failed(cut.error) else
      var v := ParseField(cut.value.field, names[0]);
      if v.Failed? then Failed(v.error) else
      var vs := ParseFields(cut.value.rest, names[1..]);
      if vs.Failed? then Failed(vs.error) else Ok([v.value] + vs.value)
  }

  function FromToken(token: Bytes): Option<FrameKind>
  {
    if token == Token(Msg) then Some(Msg)
    else if token == Token(Rpy) then Some(Rpy)
    else if token == Token(Err) then Some(Err)
    else if token == Token(Ans) then Some(Ans)
    else if token == Token(Nul) then Some(Nul)
    else None
  }

  datatype DataHeader = DataHeader(
    kind: FrameKind, channel: U32, msgno: U32, more: bool, seqno: U32, size: U32, ansno: Option<U32>)

  datatype Parsed = DataLine(header: DataHeader) | SeqLine(seqf: SeqFrame)

  function SeqNames(): seq<Field> { [Field.Channel, AckNo, WindowSize] }

  function DataNames(kind: FrameKind): seq<Field>
  {
    [Field.Channel, MsgNo, More, SeqNo, Size] + if kind.HasAnsNo() then [AnsNo] else []
  }

  /** The header whose fields, in order, are `vs`. */
  function HeaderOf(kind: FrameKind, vs: seq<U32>): DataHeader
    requires |vs| == |DataNames(kind)|
  {
    DataHeader(kind, vs[0], vs[1], vs[2] == 1, vs[3], vs[4], if kind.HasAnsNo() then Some(vs[5]) else None)
  }

  /** `parse_header`: one header line without its CRLF. */
  function ParseHeader(line: Bytes, maxFrameSize: U32): Result<Parsed, Error>
  {
    if |line| < 3 then Failed(TruncatedFrameType)
    else if |line| == 3 || line[3] != SP then Failed(NoSpaceAfterFrameType)
    else if line[..3] == SEQ_TOKEN then
      var vs := ParseFields(Some(line[4..]), SeqNames());
      if vs.Failed? then Failed(vs.error) else Ok(SeqLine(SeqFrame(vs.value[0], vs.value[1], vs.value[2])))
    else
      var kind := FromToken(line[..3]);
      if kind.None? then Failed(UnknownFrameType) else
      var vs := ParseFields(Some(line[4..]), DataNames(kind.value));
      if vs.Failed? then Failed(vs.error) else
      var h := HeaderOf(kind.value, vs.value);
      if h.size > maxFrameSize then Failed(FrameTooLarge) else Ok(DataLine(h))
  }

  /** A header line parsed, and how many octets it took. */
  datatype Head = Head(parsed: Parsed, taken: nat)

  /** `decode_header`: nothing while the line may still be incomplete. */
  function DecodeHeader(src: Bytes, maxFrameSize: U32): (r: Result<Option<Head>, Error>)
    ensures r.Ok? && r.value.Some? ==> 0 < r.value.value.taken <= |src|
  {
    var lf := Find(src[..Min(|src|, MAX_HEADER_LEN)], LF);
    if lf.None? then
      if |src| >= MAX_HEADER_LEN then Failed(HeaderTooLong) else Ok(None)
    else if lf.value == 0 || src[lf.value - 1] != CR then Failed(BareNewlineInHeader)
    else
      var p := ParseHeader(src[..lf.value - 1], maxFrameSize);
      if p.Failed? then Failed(p.error) else Ok(Some(Head(p.value, lf.value + 1)))
  }

  /** What one call of `decode` does: a frame, an error, or a wait with what is kept for next time. */
  datatype Step =
    | Yield(frame: Frame, rest: Bytes)
    | Wait(pending: Option<DataHeader>, kept: Bytes)
    | Fail(error: Error)

  /** The second half of `decode`: payload and trailer of a frame whose header is known. */
  function DecodeBody(h: DataHeader, src: Bytes): Step
  {
    if |src| < h.size + |TRAILER| then Wait(Some(h), src)
    else if src[h.size..h.size + |TRAILER|] != TRAILER then Fail(MissingTrailer)
    else
      var built := NewFrame(h.kind, h.channel, h.msgno, h.seqno, h.ansno, src[..h.size]);
      if built.Failed? then Fail(built.error)
      else Yield(Data(built.value.(more := h.more)), src[h.size + |TRAILER|..])
  }

  /** `Decoder::decode`. */
  function Decode(pending: Option<DataHeader>, maxFrameSize: U32, src: Bytes): (s: Step)
    ensures s.Yield? ==> |s.rest| < |src|
  {
    if pending.Some? then DecodeBody(pending.value, src)
    else
      var head := DecodeHeader(src, maxFrameSize);
      if head.Failed? then Fail(head.error)
      else if head.value.None? then Wait(None, src)
      else
        var rest := src[head.value.value.taken..];
        match head.value.value.parsed
        case SeqLine(s) => Yield(Seq(s), rest)
        case DataLine(h) => DecodeBody(h, rest)
  }

  /** Everything a buffer yields: its frames, and the error or the wait they end in. */
  datatype Decoded = Decoded(frames: seq<Frame>, end: Step)

  /** The loop of `handle_input` over the decoder. */
  function DecodeAll(pending: Option<DataHeader>, maxFrameSize: U32, src: Bytes): (d: Decoded)
    ensures !d.end.Yield?
    decreases |src|
  {
    var s := Decode(pending, maxFrameSize, src);
    if !s.Yield? then Decoded([], s)
    else
      var d := DecodeAll(None, maxFrameSize, s.rest);
      Decoded([s.frame] + d.frames, d.end)
  }

  /** `frame_boundary`: the length of the frame at the front, if a whole one is there. */
  function FrameBoundary(src: Bytes): (n: Option<nat>)
    ensures n.Some? ==> 0 < n.value <= |src|
  {
    var lf := Find(src[..Min(|src|, MAX_HEADER_LEN)], LF);
    if lf.None? || lf.value == 0 || src[lf.value - 1] != CR then None
    else
      var p := ParseHeader(src[..lf.value - 1], MAX_FRAME_SIZE);
      if p.Failed? then None
      else if p.value.SeqLine? then Some(lf.value + 1)
      else
        var total := lf.value + 1 + p.value.header.size + |TRAILER|;
        if |src| >= total then Some(total) else None
  }
}
