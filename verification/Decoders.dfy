/**
 * The codec as it runs: digit loops over a scratch buffer, a field cursor that moves along the
 * header line, and a decoder that remembers a header between calls. Each is proved equal to
 * its counterpart in `Codec`.
 */
module Decoders {
  import opened Octets
  import opened Frames
  import opened Codec
  import opened CodecLaws

  // ---- printing ----------------------------------------------------------------------

  /** `digits`: how many decimal digits `value` prints as. */
  method DigitCount(value: U32) returns (n: nat)
    ensures n == |Digits(value)|
  {
    n := 1;
    var v: nat := value;
    while v >= 10
      invariant n + |Digits(v)| == |Digits(value)| + 1
    {
      v := v / 10;
      n := n + 1;
    }
  }

  /** `put_u32`: digits are laid down from the end of a ten-octet buffer. */
  method PutU32(dst: Bytes, value: U32) returns (out: Bytes)
    ensures out == dst + Digits(value)
  {
    SmallDigits(value);
    var buf := new Octet[10](_ => 0);
    var i := 10;
    var v: nat := value;
    while true
      invariant 0 <= i <= 10 && i >= |Digits(v)|
      invariant Digits(v) + buf[i..] == Digits(value)
      decreases v, i
    {
      i := i - 1;
      buf[i] := ZERO + v % 10;
      assert buf[i..] == [ZERO + v % 10] + buf[i + 1..];
      if v < 10 {
        break;
      }
      assert Digits(v) + buf[i + 1..] == Digits(v / 10) + buf[i..];
      v := v / 10;
    }
    out := dst + buf[i..];
  }

  lemma {:induction false} SpacedSnoc(fields: seq<Bytes>, f: Bytes)
    requires fields != []
    ensures Spaced(fields + [f]) == Spaced(fields) + ([SP] + f)
  {
    assert (fields + [f])[0] == fields[0] && (fields + [f])[1..] == fields[1..] + [f];
    if |fields| == 1 {
      Associate(fields[0], [SP], f);
    } else {
      SpacedSnoc(fields[1..], f);
      Associate(fields[0] + [SP], Spaced(fields[1..]), [SP] + f);
    }
  }

  lemma {:induction false} LineSnoc(dst: Bytes, token: Bytes, fields: seq<Bytes>, f: Bytes)
    requires fields != []
    ensures dst + Line(token, fields + [f]) == (dst + Line(token, fields)) + [SP] + f
  {
    SpacedSnoc(fields, f);
    Associate(token + [SP], Spaced(fields), [SP] + f);
    Associate(dst, Line(token, fields), [SP] + f);
    Associate(dst + Line(token, fields), [SP], f);
  }

  lemma {:induction false} LineFirst(dst: Bytes, token: Bytes, f: Bytes)
    ensures dst + Line(token, [f]) == (dst + token) + [SP] + f
  {
    Associate(dst, token + [SP], f);
    Associate(dst, token, [SP]);
  }

  /** `DataFrame::encode`: field by field onto the end of `dst`. */
  method PutData(dst: Bytes, d: DataFrame) returns (out: Bytes)
    requires d.Valid()
    ensures out == dst + Encode(Data(d))
  {
    hide Line, Digits;
    var token := Token(d.kind);
    LineFirst(dst, token, Digits(d.channel));
    out := PutU32(dst + token + [SP], d.channel);
    ghost var done := [Digits(d.channel)];

    LineSnoc(dst, token, done, Digits(d.msgno));
    out := PutU32(out + [SP], d.msgno);
    done := done + [Digits(d.msgno)];

    var more := [if d.more then STAR else DOT];
    LineSnoc(dst, token, done, more);
    out := out + [SP] + more;
    done := done + [more];

    LineSnoc(dst, token, done, Digits(d.seqno));
    out := PutU32(out + [SP], d.seqno);
    done := done + [Digits(d.seqno)];

    LineSnoc(dst, token, done, Digits(|d.payload|));
    out := PutU32(out + [SP], |d.payload|);
    done := done + [Digits(|d.payload|)];

    if d.ansno.Some? {
      LineSnoc(dst, token, done, Digits(d.ansno.value));
      out := PutU32(out + [SP], d.ansno.value);
      done := done + [Digits(d.ansno.value)];
    }
    assert done == DataFields(d);
    PutTail(dst, Line(token, done), d.payload);
    out := out + CRLF + d.payload + TRAILER;
  }

  lemma {:induction false} PutTail(dst: Bytes, line: Bytes, payload: Bytes)
    ensures dst + line + CRLF + payload + TRAILER == dst + (line + CRLF + payload + TRAILER)
  {
  }

  /** `SeqFrame::encode`. */
  method PutSeq(dst: Bytes, s: SeqFrame) returns (out: Bytes)
    requires s.Valid()
    ensures out == dst + Encode(Seq(s))
  {
    hide Line, Digits;
    LineFirst(dst, SEQ_TOKEN, Digits(s.channel));
    out := PutU32(dst + SEQ_TOKEN + [SP], s.channel);
    LineSnoc(dst, SEQ_TOKEN, [Digits(s.channel)], Digits(s.ackno));
    out := PutU32(out + [SP], s.ackno);
    LineSnoc(dst, SEQ_TOKEN, [Digits(s.channel)] + [Digits(s.ackno)], Digits(s.window));
    out := PutU32(out + [SP], s.window);
    assert [Digits(s.channel)] + [Digits(s.ackno)] + [Digits(s.window)] == SeqFields(s);
    Associate(dst, Line(SEQ_TOKEN, SeqFields(s)), CRLF);
    out := out + CRLF;
  }

  lemma {:induction false} SpacedLength(fields: seq<Bytes>, f: Bytes)
    requires fields != []
    ensures |Spaced(fields + [f])| == |Spaced(fields)| + 1 + |f|
  {
    SpacedSnoc(fields, f);
  }

  /** `DataFrame::encoded_len`: exactly the octets `encode` appends, without printing them. */
  method EncodedLen(d: DataFrame) returns (len: nat)
    requires d.Valid()
    ensures len == |Encode(Data(d))|
  {
    hide Digits, Spaced;
    var channel := DigitCount(d.channel);
    var msgno := DigitCount(d.msgno);
    var seqno := DigitCount(d.seqno);
    var size := DigitCount(|d.payload|);
    len := 3 + 1 + channel + 1 + msgno + 1 + 1 + 1 + seqno + 1 + size;
    ghost var done := [Digits(d.channel)];
    SpacedOne(Digits(d.channel));
    SpacedLength(done, Digits(d.msgno));
    done := done + [Digits(d.msgno)];
    SpacedLength(done, [if d.more then STAR else DOT]);
    done := done + [[if d.more then STAR else DOT]];
    SpacedLength(done, Digits(d.seqno));
    done := done + [Digits(d.seqno)];
    SpacedLength(done, Digits(|d.payload|));
    done := done + [Digits(|d.payload|)];
    if d.ansno.Some? {
      var ansno := DigitCount(d.ansno.value);
      SpacedLength(done, Digits(d.ansno.value));
      done := done + [Digits(d.ansno.value)];
      len := len + 1 + ansno;
    }
    assert done == DataFields(d);
    len := len + 2 + |d.payload| + |TRAILER|;
  }

  lemma {:induction false} SpacedOne(f: Bytes)
    ensures Spaced([f]) == f
  {
  }

  // ---- parsing -----------------------------------------------------------------------

  /** `parse_u32`: octet by octet, stopping at the first that is no digit or goes out of range. */
  method ReadU32(field: Bytes, name: Field, max: U32) returns (r: Result<U32, Error>)
    ensures r == ParseU32(field, name, max)
  {
    var value: nat := 0;
    var i := 0;
    assert field[0..] == field;
    while i < |field|
      invariant 0 <= i <= |field| && value <= max
      invariant ParseU32(field, name, max) == ParseFrom(value, field[i..], name, max)
    {
      assert field[i..][1..] == field[i + 1..];
      if !IsDigit(field[i]) {
        return Failed(InvalidDigit(name));
      }
      value := value * 10 + (field[i] - ZERO);
      if value > max {
        return Failed(ValueOutOfRange(name));
      }
      i := i + 1;
    }
    return Ok(value);
  }

  function Prepended(vs: seq<U32>, r: Result<seq<U32>, Error>): Result<seq<U32>, Error>
  {
    if r.Failed? then r else Ok(vs + r.value)
  }

  lemma {:induction false} PrependedTwice(a: seq<U32>, b: seq<U32>, r: Result<seq<U32>, Error>)
    ensures Prepended(a, Prepended(b, r)) == Prepended(a + b, r)
  {
    if r.Ok? {
      assert a + (b + r.value) == (a + b) + r.value;
    }
  }

  lemma {:induction false} PrependedFails(a: seq<U32>)
    ensures forall e: Error :: Prepended(a, Failed(e)) == Failed(e)
  {
  }

  /** The list of fields one field at a time. */
  lemma {:induction false} ParseFieldsStep(rest: Option<Bytes>, names: seq<Field>, k: nat)
    requires k < |names|
    ensures
      ParseFields(rest, names[k..]) ==
        var cut := NextField(rest, names[k]);
        if cut.Failed? then Failed(cut.error) else
        var v := ParseField(cut.value.field, names[k]);
        if v.Failed? then Failed(v.error) else Prepended([v.value], ParseFields(cut.value.rest, names[k + 1..]))
  {
    hide NextField, ParseField;
    assert names[k..][1..] == names[k + 1..];
  }

  /** `parse_u32` or `parse_continuation`, as the field requires. */
  method ReadField(field: Bytes, name: Field) returns (r: Result<U32, Error>)
    ensures r == ParseField(field, name)
  {
    if name.More? {
      var more := ParseContinuation(field);
      return if more.Failed? then Failed(more.error) else Ok(if more.value then 1 else 0);
    }
    r := ReadU32(field, name, FieldMax(name));
  }

  /** The cursor over a header line's fields, with the list it stands for and what it has read of it. */
  class Fields {
    var rest: Option<Bytes>
    ghost const line: Bytes
    ghost const names: seq<Field>
    ghost var got: seq<U32>

    ghost predicate Valid()
      reads this
    {
      && |got| <= |names|
      && ParseFields(Some(line), names) == Prepended(got, ParseFields(rest, names[|got|..]))
    }

    constructor (line: Bytes, ghost names: seq<Field>)
      ensures Valid() && got == [] && this.names == names && this.line == line
    {
      rest := Some(line);
      this.line := line;
      this.names := names;
      got := [];
      new;
      var r := ParseFields(Some(line), names);
      assert names[0..] == names;
      assert r.Ok? ==> [] + r.value == r.value;
    }

    /** `Fields::next`. */
    method Next(name: Field) returns (r: Result<Bytes, Error>)
      modifies this`rest
      ensures
        var cut := NextField(old(rest), name);
        r == (if cut.Failed? then Failed(cut.error) else Ok(cut.value.field)) && (r.Ok? ==> rest == cut.value.rest)
    {
      if rest.None? {
        return Failed(MissingField(name));
      }
      var octets := rest.value;
      var value := octets;
      var at := Find(octets, SP);
      if at.Some? {
        rest := Some(octets[at.value + 1..]);
        value := octets[..at.value];
      } else {
        rest := None;
      }
      if value == [] {
        return Failed(MissingField(name));
      }
      return Ok(value);
    }

    /** A field read and parsed: the list read so far grows by it, or the whole line fails the way it fails here. */
    method Value(name: Field) returns (r: Result<U32, Error>)
      requires Valid() && |got| < |names| && names[|got|] == name
      modifies this
      ensures r.Ok? ==> Valid() && got == old(got) + [r.value] && r.value <= FieldMax(name)
      ensures r.Failed? ==> ParseFields(Some(line), names) == Failed(r.error)
    {
      hide NextField, ParseField, ParseFields, Prepended;
      ParseFieldsStep(rest, names, |got|);
      PrependedFails(got);
      var field := Next(name);
      if field.Failed? {
        return Failed(field.error);
      }
      r := ReadField(field.value, name);
      if r.Ok? {
        PrependedTwice(got, [r.value], ParseFields(rest, names[|got| + 1..]));
        got := got + [r.value];
      }
    }

    /** `Fields::finish`: nothing may be left behind the last field. */
    method Finish() returns (r: Result<(), Error>)
      requires Valid() && |got| == |names|
      ensures ParseFields(Some(line), names) == if r.Ok? then Ok(got) else Failed(r.error)
    {
      assert names[|got|..] == [] && got + [] == got;
      if rest.Some? {
        return Failed(TrailingOctets);
      }
      return Ok(());
    }
  }

  /** The `SEQ` half of `parse_header`. */
  method ReadSeqLine(rest: Bytes) returns (r: Result<SeqFrame, Error>)
    ensures
      var vs := ParseFields(Some(rest), SeqNames());
      r == if vs.Failed? then Failed(vs.error) else Ok(SeqFrame(vs.value[0], vs.value[1], vs.value[2]))
  {
    hide ParseFields, Fields.Valid;
    var fields := new Fields(rest, SeqNames());
    var channel := fields.Value(Field.Channel);
    if channel.Failed? { return Failed(channel.error); }
    var ackno := fields.Value(AckNo);
    if ackno.Failed? { return Failed(ackno.error); }
    var window := fields.Value(WindowSize);
    if window.Failed? { return Failed(window.error); }
    var end := fields.Finish();
    if end.Failed? { return Failed(end.error); }
    return Ok(SeqFrame(channel.value, ackno.value, window.value));
  }

  /** The data half of `parse_header`, before the size is checked against the limit. */
  method ReadDataLine(kind: FrameKind, rest: Bytes) returns (r: Result<DataHeader, Error>)
    ensures
      var vs := ParseFields(Some(rest), DataNames(kind));
      r == if vs.Failed? then Failed(vs.error) else Ok(HeaderOf(kind, vs.value))
  {
    hide ParseFields, Fields.Valid;
    var fields := new Fields(rest, DataNames(kind));
    var channel := fields.Value(Field.Channel);
    if channel.Failed? { return Failed(channel.error); }
    var msgno := fields.Value(MsgNo);
    if msgno.Failed? { return Failed(msgno.error); }
    var more := fields.Value(More);
    if more.Failed? { return Failed(more.error); }
    var seqno := fields.Value(SeqNo);
    if seqno.Failed? { return Failed(seqno.error); }
    var size := fields.Value(Size);
    if size.Failed? { return Failed(size.error); }
    var ansno: Option<U32> := None;
    if kind.HasAnsNo() {
      var a := fields.Value(AnsNo);
      if a.Failed? { return Failed(a.error); }
      ansno := Some(a.value);
    }
    var end := fields.Finish();
    if end.Failed? { return Failed(end.error); }
    return Ok(DataHeader(kind, channel.value, msgno.value, more.value == 1, seqno.value, size.value, ansno));
  }

  /** `parse_header`. */
  method ReadHeader(line: Bytes, maxFrameSize: U32) returns (r: Result<Parsed, Error>)
    ensures r == ParseHeader(line, maxFrameSize)
  {
    hide ParseFields, HeaderOf;
    if |line| < 3 {
      return Failed(TruncatedFrameType);
    }
    if |line| == 3 || line[3] != SP {
      return Failed(NoSpaceAfterFrameType);
    }
    var token, rest := line[..3], line[4..];
    if token == SEQ_TOKEN {
      var s := ReadSeqLine(rest);
      return if s.Failed? then Failed(s.error) else Ok(SeqLine(s.value));
    }
    var kind := FromToken(token);
    if kind.None? {
      return Failed(UnknownFrameType);
    }
    var header := ReadDataLine(kind.value, rest);
    if header.Failed? {
      return Failed(header.error);
    }
    if header.value.size > maxFrameSize {
      return Failed(FrameTooLarge);
    }
    return Ok(DataLine(header.value));
  }

  // ---- the decoder -------------------------------------------------------------------

  class Decoder {
    const maxFrameSize: U32
    var pending: Option<DataHeader>

    constructor (maxFrameSize: U32)
      ensures this.maxFrameSize == maxFrameSize && pending == None
    {
      this.maxFrameSize := maxFrameSize;
      pending := None;
    }

    /** `decode_header`: a header line taken off the front of the buffer, if a whole one is there. */
    method TakeHeader(src: Bytes) returns (r: Result<Option<Parsed>, Error>, rest: Bytes)
      ensures
        var head := DecodeHeader(src, maxFrameSize);
        if head.Failed? then r == Failed(head.error)
        else if head.value.None? then r == Ok(None) && rest == src
        else r == Ok(Some(head.value.value.parsed)) && rest == src[head.value.value.taken..]
    {
      hide ParseHeader;
      rest := src;
      var lf := Find(src[..Min(|src|, MAX_HEADER_LEN)], LF);
      if lf.None? {
        r := if |src| >= MAX_HEADER_LEN then Failed(HeaderTooLong) else Ok(None);
        return;
      }
      if lf.value == 0 || src[lf.value - 1] != CR {
        r := Failed(BareNewlineInHeader);
        return;
      }
      var parsed := ReadHeader(src[..lf.value - 1], maxFrameSize);
      if parsed.Failed? {
        r := Failed(parsed.error);
        return;
      }
      rest := src[lf.value + 1..];
      r := Ok(Some(parsed.value));
    }

    /** `decode`: one frame taken off the front of the buffer, or what is needed to go on later. */
    method Take(src: Bytes) returns (r: Result<Option<Frame>, Error>, rest: Bytes)
      modifies this`pending
      ensures
        match Codec.Decode(old(pending), maxFrameSize, src)
        case Yield(f, left) => r == Ok(Some(f)) && rest == left && pending == None
        case Wait(p, kept) => r == Ok(None) && rest == kept && pending == p
        case Fail(e) => r == Failed(e)
    {
      hide DecodeHeader;
      rest := src;
      if pending.None? {
        var head;
        head, rest := TakeHeader(src);
        if head.Failed? {
          r := Failed(head.error);
          return;
        }
        if head.value.None? {
          r := Ok(None);
          return;
        }
        if head.value.value.SeqLine? {
          r := Ok(Some(Seq(head.value.value.seqf)));
          return;
        }
        pending := Some(head.value.value.header);
      }
      var h := pending.value;
      if |rest| < h.size + |TRAILER| {
        r := Ok(None);
        return;
      }
      var payload := rest[..h.size];
      if rest[h.size..h.size + |TRAILER|] != TRAILER {
        r := Failed(MissingTrailer);
        return;
      }
      rest := rest[h.size + |TRAILER|..];
      pending := None;
      var built := NewFrame(h.kind, h.channel, h.msgno, h.seqno, h.ansno, payload);
      r := if built.Failed? then Failed(built.error) else Ok(Some(Data(built.value.(more := h.more))));
    }
  }
}
