/** What the codec promises: fragmentation is invisible, printing and parsing are inverse, measuring agrees with decoding. */
module CodecLaws {
  import opened Octets
  import opened Frames
  import opened Codec

  // ---- more octets never change what was already decided -----------------------------

  lemma {:induction false} FindPrefix(hay: Bytes, more: Bytes, needle: Octet)
    requires Find(hay, needle).Some?
    ensures Find(hay + more, needle) == Find(hay, needle)
  {
    if hay[0] != needle {
      assert (hay + more)[1..] == hay[1..] + more;
      FindPrefix(hay[1..], more, needle);
    }
  }

  lemma {:induction false} FindBehind(hay: Bytes, more: Bytes, needle: Octet)
    requires Find(hay, needle).None?
    ensures
      var at := Find(more, needle);
      Find(hay + more, needle) == if at.None? then None else Some(|hay| + at.value)
  {
    if hay == [] {
      assert hay + more == more;
    } else {
      assert (hay + more)[0] == hay[0] && (hay + more)[1..] == hay[1..] + more;
      FindBehind(hay[1..], more, needle);
    }
  }

  /** The end of the header line, once seen in the part a header may occupy, stays where it is. */
  lemma {:induction false} LineEndStays(src: Bytes, more: Bytes)
    ensures
      var before := Find(src[..Min(|src|, MAX_HEADER_LEN)], LF);
      var after := Find((src + more)[..Min(|src + more|, MAX_HEADER_LEN)], LF);
      before.Some? || |src| >= MAX_HEADER_LEN ==> after == before
  {
    var a := src[..Min(|src|, MAX_HEADER_LEN)];
    var b := (src + more)[..Min(|src + more|, MAX_HEADER_LEN)];
    if |src| >= MAX_HEADER_LEN {
      assert b == a;
    } else if Find(a, LF).Some? {
      assert b == a + b[|a|..];
      FindPrefix(a, b[|a|..], LF);
    }
  }

  lemma {:induction false} HeaderStays(src: Bytes, more: Bytes, maxFrameSize: U32)
    requires DecodeHeader(src, maxFrameSize) != Ok(None)
    ensures DecodeHeader(src + more, maxFrameSize) == DecodeHeader(src, maxFrameSize)
  {
    LineEndStays(src, more);
    var lf := Find(src[..Min(|src|, MAX_HEADER_LEN)], LF);
    if lf.Some? && lf.value > 0 {
      assert (src + more)[..lf.value - 1] == src[..lf.value - 1];
    }
  }

  lemma {:induction false} BodyStays(h: DataHeader, src: Bytes, more: Bytes)
    ensures
      var s := DecodeBody(h, src);
      DecodeBody(h, src + more) == if s.Yield? then s.(rest := s.rest + more)
                                   else if s.Fail? then s
                                   else DecodeBody(h, src + more)
    ensures DecodeBody(h, src).Wait? ==> DecodeBody(h, src) == Wait(Some(h), src)
  {
    if |src| >= h.size + |TRAILER| {
      assert (src + more)[..h.size] == src[..h.size];
      assert (src + more)[h.size..h.size + |TRAILER|] == src[h.size..h.size + |TRAILER|];
      assert (src + more)[h.size + |TRAILER|..] == src[h.size + |TRAILER|..] + more;
    }
  }

  /** One call of the decoder on a longer buffer: the same frame or error, or the wait taken up where it was left. */
  lemma {:induction false} DecodeStays(pending: Option<DataHeader>, maxFrameSize: U32, src: Bytes, more: Bytes)
    ensures
      var s := Decode(pending, maxFrameSize, src);
      Decode(pending, maxFrameSize, src + more) ==
        match s
        case Yield(f, rest) => Yield(f, rest + more)
        case Fail(e) => Fail(e)
        case Wait(p, kept) => Decode(p, maxFrameSize, kept + more)
  {
    if pending.Some? {
      BodyStays(pending.value, src, more);
    } else if DecodeHeader(src, maxFrameSize) != Ok(None) {
      HeaderStays(src, more, maxFrameSize);
      var head := DecodeHeader(src, maxFrameSize);
      if head.Ok? {
        var taken := head.value.value.taken;
        assert (src + more)[taken..] == src[taken..] + more;
        if head.value.value.parsed.DataLine? {
          BodyStays(head.value.value.parsed.header, src[taken..], more);
        }
      }
    }
  }

  /** Decoding a buffer and then more octets is decoding them together. */
  lemma {:induction false} DecodeAllJoins(pending: Option<DataHeader>, maxFrameSize: U32, src: Bytes, more: Bytes)
    ensures
      var d := DecodeAll(pending, maxFrameSize, src);
      DecodeAll(pending, maxFrameSize, src + more) ==
        if d.end.Wait? then
          var d' := DecodeAll(d.end.pending, maxFrameSize, d.end.kept + more);
          Decoded(d.frames + d'.frames, d'.end)
        else d
    decreases |src|
  {
    hide Decode, DecodeAll;
    DecodeStays(pending, maxFrameSize, src, more);
    DecodeAllStep(pending, maxFrameSize, src);
    DecodeAllStep(pending, maxFrameSize, src + more);
    var s := Decode(pending, maxFrameSize, src);
    match s
    case Yield(f, rest) =>
      DecodeAllJoins(None, maxFrameSize, rest, more);
      var d := DecodeAll(None, maxFrameSize, rest);
      if d.end.Wait? {
        Associate([f], d.frames, DecodeAll(d.end.pending, maxFrameSize, d.end.kept + more).frames);
      }
    case Wait(p, kept) =>
      DecodeAllStep(p, maxFrameSize, kept + more);
      var d := DecodeAll(p, maxFrameSize, kept + more);
      assert [] + d.frames == d.frames;
    case Fail(_) =>
  }

  /** A receiver fed chunk by chunk; after an error nothing more is decoded. */
  function Feed(d: Decoded, maxFrameSize: U32, chunk: Bytes): Decoded
  {
    if !d.end.Wait? then d
    else
      var d' := DecodeAll(d.end.pending, maxFrameSize, d.end.kept + chunk);
      Decoded(d.frames + d'.frames, d'.end)
  }

  function FeedAll(d: Decoded, maxFrameSize: U32, chunks: seq<Bytes>): Decoded
    decreases |chunks|
  {
    if chunks == [] then d else FeedAll(Feed(d, maxFrameSize, chunks[0]), maxFrameSize, chunks[1..])
  }

  lemma {:induction false} FeedTwice(d: Decoded, maxFrameSize: U32, a: Bytes, b: Bytes)
    ensures Feed(Feed(d, maxFrameSize, a), maxFrameSize, b) == Feed(d, maxFrameSize, a + b)
  {
    if d.end.Wait? {
      var first := d.end.kept + a;
      assert d.end.kept + (a + b) == first + b;
      DecodeAllJoins(d.end.pending, maxFrameSize, first, b);
      var d1 := DecodeAll(d.end.pending, maxFrameSize, first);
      if d1.end.Wait? {
        FramesJoin(d.frames, d1, maxFrameSize, b);
      }
    }
  }

  lemma {:induction false} FramesJoin(fs: seq<Frame>, d: Decoded, maxFrameSize: U32, more: Bytes)
    requires d.end.Wait?
    ensures
      var d' := DecodeAll(d.end.pending, maxFrameSize, d.end.kept + more);
      (fs + d.frames) + d'.frames == fs + (d.frames + d'.frames)
  {
  }

  lemma {:induction false} FeedChunks(d: Decoded, maxFrameSize: U32, first: Bytes, chunks: seq<Bytes>)
    ensures FeedAll(Feed(d, maxFrameSize, first), maxFrameSize, chunks) == Feed(d, maxFrameSize, first + Flatten(chunks))
    decreases |chunks|
  {
    if chunks == [] {
      assert first + Flatten(chunks) == first;
    } else {
      FeedTwice(d, maxFrameSize, first, chunks[0]);
      FeedChunks(d, maxFrameSize, first + chunks[0], chunks[1..]);
      assert (first + chunks[0]) + Flatten(chunks[1..]) == first + Flatten(chunks);
    }
  }

  /**
   * Fragmentation is invisible: octets cut into chunks in any way give the same frames, the same
   * first error, and, when there is none, the same pending header and leftover as in one piece.
   */
  lemma {:induction false} FragmentationInvisible(maxFrameSize: U32, chunks: seq<Bytes>)
    ensures FeedAll(Decoded([], Wait(None, [])), maxFrameSize, chunks) == DecodeAll(None, maxFrameSize, Flatten(chunks))
  {
    var start := Decoded([], Wait(None, []));
    assert DecodeAll(None, maxFrameSize, []) == start;
    assert Feed(start, maxFrameSize, []) == start;
    FeedChunks(start, maxFrameSize, [], chunks);
    assert [] + ([] + Flatten(chunks)) == Flatten(chunks);
    var d := DecodeAll(None, maxFrameSize, Flatten(chunks));
    assert [] + d.frames == d.frames;
  }

  // ---- measuring agrees with decoding ------------------------------------------------

  /** `frame_boundary` in terms of the decoder's own header step. */
  lemma {:induction false} BoundaryByHeader(src: Bytes)
    ensures
      var head := DecodeHeader(src, MAX_FRAME_SIZE);
      FrameBoundary(src) ==
        if head.Failed? || head.value.None? then None
        else
          var taken := head.value.value.taken;
          match head.value.value.parsed
          case SeqLine(_) => Some(taken)
          case DataLine(h) =>
            if |src| < taken + h.size + |TRAILER| then None else Some(taken + h.size + |TRAILER|)
  {
  }

  /** If a fresh decoder yields a frame, `frame_boundary` is exactly what it consumed. */
  lemma {:induction false} BoundaryOfDecoded(src: Bytes)
    requires Decode(None, MAX_FRAME_SIZE, src).Yield?
    ensures FrameBoundary(src) == Some(|src| - |Decode(None, MAX_FRAME_SIZE, src).rest|)
  {
    BoundaryByHeader(src);
  }

  /** A header that parses names a frame the constructors accept. */
  lemma {:induction false} HeaderInRange(line: Bytes)
    requires ParseHeader(line, MAX_FRAME_SIZE).Ok? && ParseHeader(line, MAX_FRAME_SIZE).value.DataLine?
    ensures InRange(ParseHeader(line, MAX_FRAME_SIZE).value.header)
  {
  }

  ghost predicate InRange(h: DataHeader)
  {
    && h.channel <= MAX_CHANNEL_NO && h.msgno <= MAX_MSG_NO && h.size <= MAX_FRAME_SIZE
    && (h.kind.HasAnsNo() <==> h.ansno.Some?) && (h.ansno.Some? ==> h.ansno.value <= MAX_ANS_NO)
  }

  lemma {:induction false} BodyInRange(h: DataHeader, src: Bytes)
    requires InRange(h) && |src| >= h.size + |TRAILER|
    ensures
      var s := DecodeBody(h, src);
      s == Fail(MissingTrailer) || (s.Yield? && s.rest == src[h.size + |TRAILER|..])
  {
  }

  /** If `frame_boundary` gives a length, the decoder consumes exactly that or misses the trailer. */
  lemma {:induction false} DecodedAtBoundary(src: Bytes)
    requires FrameBoundary(src).Some?
    ensures
      var s := Decode(None, MAX_FRAME_SIZE, src);
      s == Fail(MissingTrailer) || (s.Yield? && s.rest == src[FrameBoundary(src).value..])
  {
    BoundaryByHeader(src);
    var h := DecodeHeader(src, MAX_FRAME_SIZE).value.value;
    if h.parsed.DataLine? {
      assert InRange(h.parsed.header) by {
        HeaderInRange(src[..h.taken - 2]);
      }
      BodyInRange(h.parsed.header, src[h.taken..]);
      assert src[h.taken..][h.parsed.header.size + |TRAILER|..] == src[FrameBoundary(src).value..];
    }
  }

  /** Appending octets never changes an answer `frame_boundary` has given. */
  lemma {:induction false} BoundaryStays(src: Bytes, more: Bytes)
    requires FrameBoundary(src).Some?
    ensures FrameBoundary(src + more) == FrameBoundary(src)
  {
    BoundaryByHeader(src);
    BoundaryByHeader(src + more);
    HeaderStays(src, more, MAX_FRAME_SIZE);
  }

  /** The answer is absent for every shorter prefix: nothing less than the whole frame is a frame. */
  lemma {:induction false} BoundaryIsFirst(src: Bytes, n: nat)
    requires FrameBoundary(src).Some? && n < FrameBoundary(src).value
    ensures FrameBoundary(src[..n]).None?
  {
    assert src[..n] + src[n..] == src;
    if FrameBoundary(src[..n]).Some? {
      BoundaryStays(src[..n], src[n..]);
    }
  }

  lemma {:induction false} SeqLineValid(line: Bytes, maxFrameSize: U32)
    requires ParseHeader(line, maxFrameSize).Ok? && ParseHeader(line, maxFrameSize).value.SeqLine?
    ensures ParseHeader(line, maxFrameSize).value.seqf.Valid()
  {
    hide ParseFields;
    var vs := ParseFields(Some(line[4..]), SeqNames()).value;
    assert vs[0] <= FieldMax(SeqNames()[0]) && vs[2] <= FieldMax(SeqNames()[2]);
  }

  /** Every frame the decoder yields is one the constructors could have built. */
  lemma {:induction false} DecodedValid(pending: Option<DataHeader>, maxFrameSize: U32, src: Bytes)
    requires Decode(pending, maxFrameSize, src).Yield?
    ensures Decode(pending, maxFrameSize, src).frame.Valid()
  {
    hide ParseHeader, NewFrame;
    if pending.None? {
      var head := DecodeHeader(src, maxFrameSize).value.value;
      if head.parsed.SeqLine? {
        SeqLineValid(src[..head.taken - 2], maxFrameSize);
      }
    }
  }

  lemma {:induction false} DecodeAllStep(pending: Option<DataHeader>, maxFrameSize: U32, src: Bytes)
    ensures
      var s := Decode(pending, maxFrameSize, src);
      DecodeAll(pending, maxFrameSize, src) ==
        if !s.Yield? then Decoded([], s)
        else
          var d := DecodeAll(None, maxFrameSize, s.rest);
          Decoded([s.frame] + d.frames, d.end)
  {
    hide Decode;
  }

  // ---- printing and parsing are inverse ----------------------------------------------

  /** What a decimal string denotes, least significant digit last. */
  function Denotes(ds: Bytes): int
  {
    if ds == [] then 0 else Denotes(ds[..|ds| - 1]) * 10 + (ds[|ds| - 1] - ZERO)
  }

  ghost predicate AllDigits(ds: Bytes)
  {
    forall i :: 0 <= i < |ds| ==> IsDigit(ds[i])
  }

  lemma {:induction false} ParseOneMore(value: nat, ds: Bytes, d: Octet, name: Field, max: U32)
    requires value <= max
    ensures
      var r := ParseFrom(value, ds, name, max);
      ParseFrom(value, ds + [d], name, max) == if r.Failed? then r else ParseFrom(r.value, [d], name, max)
    decreases |ds|
  {
    if ds == [] {
      assert ds + [d] == [d];
    } else if IsDigit(ds[0]) && value * 10 + (ds[0] - ZERO) <= max {
      assert (ds + [d])[0] == ds[0] && (ds + [d])[1..] == ds[1..] + [d];
      ParseOneMore(value * 10 + (ds[0] - ZERO), ds[1..], d, name, max);
    } else {
      assert (ds + [d])[0] == ds[0];
    }
  }

  lemma {:induction false} DenotesNat(ds: Bytes)
    requires AllDigits(ds)
    ensures Denotes(ds) >= 0
  {
    if ds != [] {
      DenotesNat(ds[..|ds| - 1]);
    }
  }

  /** `parse_u32` succeeds exactly on digits that denote a number in range, and returns that number. */
  lemma {:induction false} ParseMeaning(ds: Bytes, name: Field, max: U32)
    ensures ParseU32(ds, name, max).Ok? <==> AllDigits(ds) && Denotes(ds) <= max
    ensures ParseU32(ds, name, max).Ok? ==> ParseU32(ds, name, max).value == Denotes(ds)
  {
    if ds != [] {
      var n := |ds| - 1;
      var init, d := ds[..n], ds[n];
      assert init + [d] == ds;
      ParseMeaning(init, name, max);
      ParseOneMore(0, init, d, name, max);
      if AllDigits(ds) {
        DenotesNat(init);
      }
      var r := ParseU32(init, name, max);
      if r.Ok? && IsDigit(d) {
        assert [d][1..] == [];
      }
    }
  }

  lemma {:induction false} DigitsDenote(v: nat)
    ensures AllDigits(Digits(v)) && Denotes(Digits(v)) == v
  {
    if v >= 10 {
      DigitsDenote(v / 10);
      assert Digits(v)[..|Digits(v)| - 1] == Digits(v / 10);
    } else {
      assert Digits(v)[..0] == [];
    }
  }

  /** Printing a number and parsing it back gives the number. */
  lemma {:induction false} NumberRoundTrip(v: U32, name: Field, max: U32)
    requires v <= max
    ensures ParseU32(Digits(v), name, max) == Ok(v)
  {
    DigitsDenote(v);
    ParseMeaning(Digits(v), name, max);
  }

  /** A field a header line can carry: not empty, no space, no line feed. */
  ghost predicate Clean(field: Bytes)
  {
    field != [] && forall i :: 0 <= i < |field| ==> field[i] != SP && field[i] != LF
  }

  lemma {:induction false} DigitsClean(v: nat)
    ensures Clean(Digits(v))
  {
    DigitsDenote(v);
  }

  lemma {:induction false} FindNone(hay: Bytes, needle: Octet)
    requires forall i :: 0 <= i < |hay| ==> hay[i] != needle
    ensures Find(hay, needle).None?
  {
    if hay != [] {
      FindNone(hay[1..], needle);
    }
  }

  lemma {:induction false} NextFieldOfSpaced(fields: seq<Bytes>, name: Field)
    requires fields != [] && Clean(fields[0])
    ensures NextField(Some(Spaced(fields)), name)
         == Ok(Cut(fields[0], if |fields| == 1 then None else Some(Spaced(fields[1..]))))
  {
    FindNone(fields[0], SP);
    if |fields| > 1 {
      var tail := [SP] + Spaced(fields[1..]);
      assert Spaced(fields) == fields[0] + tail;
      FindBehind(fields[0], tail, SP);
      assert Find(tail, SP) == Some(0);
      assert Spaced(fields)[..|fields[0]|] == fields[0];
      assert Spaced(fields)[|fields[0]| + 1..] == Spaced(fields[1..]);
    }
  }

  /** Fields printed with spaces between them are parsed one by one into the values they print. */
  lemma {:induction false} FieldsRoundTrip(fields: seq<Bytes>, names: seq<Field>, vs: seq<U32>)
    requires |fields| == |names| == |vs| > 0
    requires forall i :: 0 <= i < |fields| ==> Clean(fields[i]) && ParseField(fields[i], names[i]) == Ok(vs[i])
    ensures ParseFields(Some(Spaced(fields)), names) == Ok(vs)
    decreases |fields|
  {
    hide NextField, ParseField, Clean, Spaced;
    NextFieldOfSpaced(fields, names[0]);
    if |fields| > 1 {
      FieldsRoundTrip(fields[1..], names[1..], vs[1..]);
      assert [vs[0]] + vs[1..] == vs;
    } else {
      assert names[1..] == [] && ParseFields(None, names[1..]) == Ok([]);
      assert [vs[0]] + [] == vs;
    }
  }

  function DataValues(f: DataFrame): seq<U32>
    requires |f.payload| < MODULUS
  {
    [f.channel, f.msgno, if f.more then 1 else 0, f.seqno, |f.payload|]
    + if f.ansno.Some? then [f.ansno.value] else []
  }

  lemma {:induction false} FieldRoundTrip(v: U32, name: Field)
    requires v <= FieldMax(name) && !name.More?
    ensures Clean(Digits(v)) && ParseField(Digits(v), name) == Ok(v)
  {
    DigitsClean(v);
    NumberRoundTrip(v, name, FieldMax(name));
  }

  lemma {:induction false} DataFieldsRoundTrip(f: DataFrame)
    requires f.Valid()
    ensures ParseFields(Some(Spaced(DataFields(f))), DataNames(f.kind)) == Ok(DataValues(f))
  {
    FieldRoundTrip(f.channel, Field.Channel);
    FieldRoundTrip(f.msgno, MsgNo);
    FieldRoundTrip(f.seqno, SeqNo);
    FieldRoundTrip(|f.payload|, Size);
    if f.ansno.Some? {
      FieldRoundTrip(f.ansno.value, AnsNo);
    }
    FieldsRoundTrip(DataFields(f), DataNames(f.kind), DataValues(f));
  }

  lemma {:induction false} SeqFieldsRoundTrip(s: SeqFrame)
    requires s.Valid()
    ensures ParseFields(Some(Spaced(SeqFields(s))), SeqNames()) == Ok([s.channel, s.ackno, s.window])
  {
    FieldRoundTrip(s.channel, Field.Channel);
    FieldRoundTrip(s.ackno, AckNo);
    FieldRoundTrip(s.window, WindowSize);
    FieldsRoundTrip(SeqFields(s), SeqNames(), [s.channel, s.ackno, s.window]);
  }

  function LineOf(f: Frame): Bytes
    requires f.Valid()
  {
    if f.Data? then Line(Token(f.data.kind), DataFields(f.data)) else Line(SEQ_TOKEN, SeqFields(f.seqf))
  }

  function ParsedOf(f: Frame): Parsed
    requires f.Valid()
  {
    if f.Data? then
      DataLine(DataHeader(f.data.kind, f.data.channel, f.data.msgno, f.data.more, f.data.seqno, |f.data.payload|, f.data.ansno))
    else SeqLine(f.seqf)
  }

  lemma {:induction false} TokenRoundTrip(kind: FrameKind)
    ensures FromToken(Token(kind)) == Some(kind) && Token(kind) != SEQ_TOKEN
  {
    assert Token(Msg)[0] == 77 && Token(Rpy)[0] == 82 && Token(Err)[0] == 69 && Token(Ans)[0] == 65 && Token(Nul)[0] == 78;
  }

  lemma {:induction false} DataLineRoundTrip(d: DataFrame, maxFrameSize: U32)
    requires d.Valid() && |d.payload| <= maxFrameSize
    ensures ParseHeader(LineOf(Data(d)), maxFrameSize) == Ok(ParsedOf(Data(d)))
  {
    var line := LineOf(Data(d));
    assert line[..3] == Token(d.kind) && line[3] == SP && line[4..] == Spaced(DataFields(d));
    TokenRoundTrip(d.kind);
    DataFieldsRoundTrip(d);
  }

  lemma {:induction false} SeqLineRoundTrip(s: SeqFrame, maxFrameSize: U32)
    requires s.Valid()
    ensures ParseHeader(LineOf(Seq(s)), maxFrameSize) == Ok(SeqLine(s))
  {
    var line := LineOf(Seq(s));
    assert line[..3] == SEQ_TOKEN && line[3] == SP && line[4..] == Spaced(SeqFields(s));
    SeqFieldsRoundTrip(s);
  }

  // ---- a header line and where it ends -----------------------------------------------

  /** Decimal digits of a 32-bit number. */
  lemma {:induction false} DigitsBound(v: nat, k: nat)
    requires v < Power10(k) && k > 0
    ensures |Digits(v)| <= k
  {
    if v >= 10 {
      DigitsBound(v / 10, k - 1);
    }
  }

  lemma {:induction false} SmallDigits(v: U32)
    ensures Clean(Digits(v)) && |Digits(v)| <= 10
  {
    DigitsClean(v);
    assert Power10(2) == 100 && Power10(4) == 100 * Power10(2);
    assert Power10(6) == 100 * Power10(4) && Power10(8) == 100 * Power10(6) && Power10(10) == 100 * Power10(8);
    DigitsBound(v, 10);
  }

  /** A line of `n` clean fields of at most ten octets each. */
  lemma {:induction false} SpacedClean(fields: seq<Bytes>)
    requires forall i :: 0 <= i < |fields| ==> Clean(fields[i]) && |fields[i]| <= 10
    ensures |Spaced(fields)| <= 11 * |fields|
    ensures forall i :: 0 <= i < |Spaced(fields)| ==> Spaced(fields)[i] != LF
    decreases |fields|
  {
    if |fields| > 1 {
      SpacedClean(fields[1..]);
    }
  }

  lemma {:induction false} DataFieldsSmall(d: DataFrame)
    requires d.Valid()
    ensures forall i :: 0 <= i < |DataFields(d)| ==> Clean(DataFields(d)[i]) && |DataFields(d)[i]| <= 10
  {
    SmallDigits(d.channel);
    SmallDigits(d.msgno);
    SmallDigits(d.seqno);
    SmallDigits(|d.payload|);
    if d.ansno.Some? {
      SmallDigits(d.ansno.value);
    }
  }

  lemma {:induction false} SeqFieldsSmall(s: SeqFrame)
    ensures forall i :: 0 <= i < |SeqFields(s)| ==> Clean(SeqFields(s)[i]) && |SeqFields(s)[i]| <= 10
  {
    SmallDigits(s.channel);
    SmallDigits(s.ackno);
    SmallDigits(s.window);
  }

  lemma {:induction false} LineClean(token: Bytes, fields: seq<Bytes>)
    requires |token| == 3 && forall i :: 0 <= i < 3 ==> token[i] != LF
    requires |fields| <= 6 && forall i :: 0 <= i < |fields| ==> Clean(fields[i]) && |fields[i]| <= 10
    ensures |Line(token, fields)| + |CRLF| <= MAX_HEADER_LEN && Find(Line(token, fields), LF).None?
  {
    SpacedClean(fields);
    FindNone(Line(token, fields), LF);
  }

  /** Every header line is within the limit the decoder puts on one, and holds no line feed. */
  lemma {:induction false} LineFits(f: Frame)
    requires f.Valid()
    ensures |LineOf(f)| + |CRLF| <= MAX_HEADER_LEN
    ensures Find(LineOf(f), LF).None?
  {
    if f.Data? {
      DataFieldsSmall(f.data);
      LineClean(Token(f.data.kind), DataFields(f.data));
    } else {
      SeqFieldsSmall(f.seqf);
      LineClean(SEQ_TOKEN, SeqFields(f.seqf));
    }
  }

  lemma {:induction false} LineEnd(line: Bytes, tail: Bytes)
    requires |line| + |CRLF| <= MAX_HEADER_LEN && Find(line, LF).None?
    ensures
      var src := line + CRLF + tail;
      Find(src[..Min(|src|, MAX_HEADER_LEN)], LF) == Some(|line| + 1)
  {
    var src := line + CRLF + tail;
    var head := line + CRLF;
    FindBehind(line, CRLF, LF);
    assert CRLF[1..] == [LF] && Find(CRLF, LF) == Some(1);
    var w := src[..Min(|src|, MAX_HEADER_LEN)];
    assert w == head + w[|head|..];
    FindPrefix(head, w[|head|..], LF);
  }

  lemma {:induction false} HeaderRoundTrip(f: Frame, tail: Bytes, maxFrameSize: U32)
    requires f.Valid() && (f.Data? ==> |f.data.payload| <= maxFrameSize)
    ensures DecodeHeader(LineOf(f) + CRLF + tail, maxFrameSize) == Ok(Some(Head(ParsedOf(f), |LineOf(f)| + 2)))
  {
    var line := LineOf(f);
    var src := line + CRLF + tail;
    LineFits(f);
    LineEnd(line, tail);
    assert src[|line|] == CR && src[..|line|] == line;
    if f.Data? {
      DataLineRoundTrip(f.data, maxFrameSize);
    } else {
      SeqLineRoundTrip(f.seqf, maxFrameSize);
    }
    assert ParseHeader(line, maxFrameSize) == Ok(ParsedOf(f));
  }

  // ---- whole frames and streams of them ----------------------------------------------

  /** A printed frame decodes to itself, whatever follows it. */
  lemma {:induction false} FrameRoundTrip(f: Frame, tail: Bytes, maxFrameSize: U32)
    requires f.Valid() && (f.Data? ==> |f.data.payload| <= maxFrameSize)
    ensures Decode(None, maxFrameSize, Encode(f) + tail) == Yield(f, tail)
  {
    if f.Data? {
      var d := f.data;
      var body := d.payload + TRAILER + tail;
      assert Encode(f) + tail == LineOf(f) + CRLF + body;
      HeaderRoundTrip(f, body, maxFrameSize);
      assert (LineOf(f) + CRLF + body)[|LineOf(f)| + 2..] == body;
      BodyRoundTrip(d, tail);
    } else {
      HeaderRoundTrip(f, tail, maxFrameSize);
      assert (LineOf(f) + CRLF + tail)[|LineOf(f)| + 2..] == tail;
    }
  }

  lemma {:induction false} BodyRoundTrip(d: DataFrame, tail: Bytes)
    requires d.Valid()
    ensures DecodeBody(ParsedOf(Data(d)).header, d.payload + TRAILER + tail) == Yield(Data(d), tail)
  {
    var body := d.payload + TRAILER + tail;
    var n := |d.payload|;
    assert body[..n] == d.payload && body[n..n + |TRAILER|] == TRAILER && body[n + |TRAILER|..] == tail;
  }

  ghost predicate Fit(fs: seq<Frame>, maxFrameSize: U32)
  {
    AllValid(fs) && forall i :: 0 <= i < |fs| ==> fs[i].Data? ==> |fs[i].data.payload| <= maxFrameSize
  }

  lemma {:induction false} NothingToDecode(maxFrameSize: U32)
    ensures DecodeAll(None, maxFrameSize, []) == Decoded([], Wait(None, []))
  {
  }

  lemma {:induction false} FrameThenRest(f: Frame, tail: Bytes, maxFrameSize: U32)
    requires f.Valid() && (f.Data? ==> |f.data.payload| <= maxFrameSize)
    ensures
      var d := DecodeAll(None, maxFrameSize, tail);
      DecodeAll(None, maxFrameSize, Encode(f) + tail) == Decoded([f] + d.frames, d.end)
  {
    hide Decode, Encode;
    FrameRoundTrip(f, tail, maxFrameSize);
  }

  /** Frame stream round trip: the encodings one after the other decode to the frames, nothing left over. */
  lemma {:induction false} StreamRoundTrip(fs: seq<Frame>, maxFrameSize: U32)
    requires Fit(fs, maxFrameSize)
    ensures DecodeAll(None, maxFrameSize, EncodeAll(fs)) == Decoded(fs, Wait(None, []))
    decreases |fs|
  {
    hide Decode, DecodeAll, Encode;
    if fs == [] {
      NothingToDecode(maxFrameSize);
    } else {
      StreamRoundTrip(fs[1..], maxFrameSize);
      FrameThenRest(fs[0], EncodeAll(fs[1..]), maxFrameSize);
      assert [fs[0]] + fs[1..] == fs;
    }
  }

  /**
   * The wire is transparent: however the octets of a list of frames are cut on their way, the
   * receiving decoder yields exactly that list and has nothing left over.
   */
  lemma {:induction false} WireTransparent(fs: seq<Frame>, chunks: seq<Bytes>, maxFrameSize: U32)
    requires Fit(fs, maxFrameSize) && Flatten(chunks) == EncodeAll(fs)
    ensures FeedAll(Decoded([], Wait(None, [])), maxFrameSize, chunks) == Decoded(fs, Wait(None, []))
  {
    FragmentationInvisible(maxFrameSize, chunks);
    StreamRoundTrip(fs, maxFrameSize);
  }

  /** `frame_boundary` finds the end of a printed frame, whatever follows it. */
  lemma {:induction false} BoundaryOfEncoded(f: Frame, tail: Bytes)
    requires f.Valid()
    ensures FrameBoundary(Encode(f) + tail) == Some(|Encode(f)|)
  {
    hide Decode, FrameBoundary, Encode;
    FrameRoundTrip(f, tail, MAX_FRAME_SIZE);
    BoundaryOfDecoded(Encode(f) + tail);
  }
}
