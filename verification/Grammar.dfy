/**
 * The frame codec against the grammar of section 2.2.1 of RFC 3080 and section 3.1 of RFC 3081:
 * what is printed is the text the grammar asks for, and what is decoded is exactly what it
 * allows, up to leading zeros.
 */
module Grammar {
  import opened Octets
  import opened Frames
  import opened Codec
  import opened CodecLaws
  import M = Management

  /** Text as octets. */
  function Ascii(s: string): (b: Bytes)
    ensures |b| == |s|
  {
    if s == "" then [] else [if s[0] as int < 256 then s[0] as int else 63] + Ascii(s[1..])
  }

  lemma {:induction false} AsciiAppend(a: string, b: string)
    ensures Ascii(a + b) == Ascii(a) + Ascii(b)
  {
    if a == "" {
      assert a + b == b;
    } else {
      assert (a + b)[0] == a[0] && (a + b)[1..] == a[1..] + b;
      AsciiAppend(a[1..], b);
    }
  }

  function Keyword(kind: FrameKind): string
  {
    match kind
    case Msg => "MSG"
    case Rpy => "RPY"
    case Err => "ERR"
    case Ans => "ANS"
    case Nul => "NUL"
  }

  /** The text of `s` is one character in each place. */
  lemma {:induction false} AsciiAt(s: string, i: nat)
    requires i < |s| && s[i] as int < 256
    ensures Ascii(s)[i] == s[i] as int
  {
    if i > 0 {
      AsciiAt(s[1..], i - 1);
    }
  }

  lemma {:induction false} AsciiThree(s: string)
    requires |s| == 3 && s[0] as int < 256 && s[1] as int < 256 && s[2] as int < 256
    ensures Ascii(s) == [s[0] as int, s[1] as int, s[2] as int]
  {
    AsciiAt(s, 0);
    AsciiAt(s, 1);
    AsciiAt(s, 2);
  }

  lemma {:induction false} KeywordIsToken(kind: FrameKind)
    ensures Ascii(Keyword(kind)) == Token(kind) && Ascii("SEQ") == SEQ_TOKEN
  {
    AsciiThree("SEQ");
    AsciiThree(Keyword(kind));
  }

  lemma {:induction false} Punctuation()
    ensures Ascii(" ") == [32] && Ascii("*") == [42] && Ascii(".") == [46] && Ascii("\r\n") == [13, 10]
    ensures Ascii("END\r\n") == [69, 78, 68, 13, 10]
  {
    assert "\r\n"[1..] == "\n" && "\n"[1..] == "";
    AsciiThree("END");
    AsciiAppend("END", "\r\n");
    assert "END" + "\r\n" == "END\r\n";
    assert [69, 78, 68] + [13, 10] == [69, 78, 68, 13, 10];
  }

  lemma {:induction false} DecimalIsDigits(v: nat)
    ensures Ascii(M.Decimal(v)) == Digits(v)
  {
    if v >= 10 {
      DecimalIsDigits(v / 10);
      AsciiAppend(M.Decimal(v / 10), ['0' + (v % 10) as char]);
    }
  }

  // ---- what is printed ---------------------------------------------------------------

  /** The words of a header line, each behind a space. */
  function Words(words: seq<string>): string
  {
    if words == [] then "" else " " + words[0] + Words(words[1..])
  }

  function Numerals(fields: seq<Bytes>): Bytes
  {
    if fields == [] then [] else [32] + fields[0] + Numerals(fields[1..])
  }

  lemma {:induction false} LineIsNumerals(token: Bytes, fields: seq<Bytes>)
    requires fields != []
    ensures Line(token, fields) == token + Numerals(fields)
  {
    hide Spaced, Numerals;
    SpacedIsNumerals(fields);
    Associate(token, [SP], Spaced(fields));
  }

  lemma {:induction false} SpacedIsNumerals(fields: seq<Bytes>)
    requires fields != []
    ensures [SP] + Spaced(fields) == Numerals(fields)
    decreases |fields|
  {
    var first := fields[0];
    if |fields| > 1 {
      SpacedIsNumerals(fields[1..]);
      var rest := Spaced(fields[1..]);
      Associate(first, [SP], rest);
      Associate([SP], first, [SP] + rest);
    } else {
      assert fields[1..] == [] && [32] + first + [] == [SP] + first;
    }
  }

  lemma {:induction false} WordsAreNumerals(words: seq<string>, fields: seq<Bytes>)
    requires |words| == |fields| && forall i :: 0 <= i < |words| ==> Ascii(words[i]) == fields[i]
    ensures Ascii(Words(words)) == Numerals(fields)
    decreases |words|
  {
    if words != [] {
      WordsAreNumerals(words[1..], fields[1..]);
      Punctuation();
      AsciiAppend(" " + words[0], Words(words[1..]));
      AsciiAppend(" ", words[0]);
    }
  }

  /** A data frame's header line without its end. */
  function DataText(d: DataFrame): string
  {
    Keyword(d.kind)
    + Words([M.Decimal(d.channel), M.Decimal(d.msgno), if d.more then "*" else ".", M.Decimal(d.seqno), M.Decimal(|d.payload|)]
            + if d.ansno.Some? then [M.Decimal(d.ansno.value)] else [])
  }

  function SeqText(s: SeqFrame): string
  {
    "SEQ" + Words([M.Decimal(s.channel), M.Decimal(s.ackno), M.Decimal(s.window)])
  }

  lemma {:induction false} DataLineSpells(d: DataFrame)
    requires d.Valid()
    ensures Ascii(DataText(d)) == Line(Token(d.kind), DataFields(d))
  {
    hide Words, Numerals, Line, Digits, Keyword, Token;
    KeywordIsToken(d.kind);
    LineIsNumerals(Token(d.kind), DataFields(d));
    Punctuation();
    DecimalIsDigits(d.channel);
    DecimalIsDigits(d.msgno);
    DecimalIsDigits(d.seqno);
    DecimalIsDigits(|d.payload|);
    if d.ansno.Some? {
      DecimalIsDigits(d.ansno.value);
    }
    var words := [M.Decimal(d.channel), M.Decimal(d.msgno), if d.more then "*" else ".", M.Decimal(d.seqno), M.Decimal(|d.payload|)]
                 + if d.ansno.Some? then [M.Decimal(d.ansno.value)] else [];
    WordsAreNumerals(words, DataFields(d));
    AsciiAppend(Keyword(d.kind), Words(words));
  }

  lemma {:induction false} SeqLineSpells(s: SeqFrame)
    ensures Ascii(SeqText(s)) == Line(SEQ_TOKEN, SeqFields(s))
  {
    hide Words, Numerals, Line, Digits;
    KeywordIsToken(Msg);
    LineIsNumerals(SEQ_TOKEN, SeqFields(s));
    DecimalIsDigits(s.channel);
    DecimalIsDigits(s.ackno);
    DecimalIsDigits(s.window);
    var words := [M.Decimal(s.channel), M.Decimal(s.ackno), M.Decimal(s.window)];
    WordsAreNumerals(words, SeqFields(s));
    AsciiAppend("SEQ", Words(words));
  }

  /** A frame is printed as its header line, its payload and its trailer. */
  lemma {:induction false} EncodeSpells(f: Frame)
    requires f.Valid()
    ensures Encode(f) ==
      if f.Data? then Ascii(DataText(f.data) + "\r\n") + f.data.payload + Ascii("END\r\n") else Ascii(SeqText(f.seqf) + "\r\n")
  {
    hide DataText, SeqText, Line;
    Punctuation();
    match f
    case Data(d) =>
      DataLineSpells(d);
      AsciiAppend(DataText(d), "\r\n");
    case Seq(s) =>
      SeqLineSpells(s);
      AsciiAppend(SeqText(s), "\r\n");
  }

  // ---- fields, one after the other ---------------------------------------------------

  /** A numeral for `v`, leading zeros and all. */
  ghost predicate Spells(w: Bytes, v: int)
  {
    w != [] && (forall i :: 0 <= i < |w| ==> 48 <= w[i] <= 57) && Denotes(w) == v
  }

  /** What a field of a header may look like. */
  ghost predicate FieldSpells(w: Bytes, name: Field, v: U32)
  {
    if name.More? then (w == [46] && v == 0) || (w == [42] && v == 1) else Spells(w, v) && v <= FieldMax(name)
  }

  lemma {:induction false} FindFirst(hay: Bytes, needle: Octet, k: nat)
    requires k < |hay| && hay[k] == needle && forall i :: 0 <= i < k ==> hay[i] != needle
    ensures Find(hay, needle) == Some(k)
  {
    if k > 0 {
      FindFirst(hay[1..], needle, k - 1);
    }
  }

  /** What is found is the first, and nothing is found where there is nothing. */
  lemma {:induction false} FindMeans(hay: Bytes, needle: Octet)
    ensures Find(hay, needle).None? <==> needle !in hay
    ensures Find(hay, needle).Some? ==> needle !in hay[..Find(hay, needle).value]
  {
    if hay != [] && hay[0] != needle {
      FindMeans(hay[1..], needle);
      var rest := Find(hay[1..], needle);
      if rest.Some? {
        assert hay[..rest.value + 1] == [hay[0]] + hay[1..][..rest.value];
      } else {
        assert hay == [hay[0]] + hay[1..];
      }
    }
  }

  lemma {:induction false} FieldExactly(w: Bytes, name: Field, v: U32)
    requires w != []
    ensures ParseField(w, name) == Ok(v) <==> FieldSpells(w, name, v)
    ensures FieldSpells(w, name, v) ==> 32 !in w && 10 !in w
  {
    if !name.More? {
      ParseMeaning(w, name, FieldMax(name));
    }
  }

  /** The fields of a line are parsed into some values if and only if they spell them, a space in front of each. */
  lemma {:induction false} FieldsExactly(text: Bytes, names: seq<Field>, vs: seq<U32>)
    requires names != []
    ensures ParseFields(Some(text), names) == Ok(vs) <==> |vs| == |names| && exists ws :: SpellAll(ws, names, vs) && [32] + text == Numerals(ws)
    decreases |names|
  {
    hide ParseField, FieldSpells, Numerals;
    if ParseFields(Some(text), names) == Ok(vs) {
      var ws := FieldsSpelt(text, names, vs);
    }
    if |vs| == |names| && exists ws :: SpellAll(ws, names, vs) && [32] + text == Numerals(ws) {
      var ws :| SpellAll(ws, names, vs) && [32] + text == Numerals(ws);
      SpeltFields(text, names, vs, ws);
    }
  }

  ghost predicate SpellAll(ws: seq<Bytes>, names: seq<Field>, vs: seq<U32>)
    requires |names| == |vs|
  {
    |ws| == |vs| && forall i :: 0 <= i < |ws| ==> FieldSpells(ws[i], names[i], vs[i])
  }

  lemma {:induction false} FieldsSpelt(text: Bytes, names: seq<Field>, vs: seq<U32>) returns (ws: seq<Bytes>)
    requires names != [] && ParseFields(Some(text), names) == Ok(vs)
    ensures |vs| == |names| && SpellAll(ws, names, vs) && [32] + text == Numerals(ws)
    decreases |names|
  {
    hide ParseField, FieldSpells;
    var cut := NextField(Some(text), names[0]).value;
    var v := ParseField(cut.field, names[0]).value;
    FieldExactly(cut.field, names[0], v);
    FindMeans(text, SP);
    if |names| == 1 {
      assert names[1..] == [];
      ws := [cut.field];
      assert ws[1..] == [] && [32] + text + [] == [32] + text;
      assert vs == [v];
    } else {
      assert names[1..] != [];
      var rest := FieldsSpelt(cut.rest.value, names[1..], vs[1..]);
      ws := [cut.field] + rest;
      SpellMore(cut.field, rest, names, vs);
      NumeralsMore(cut.field, rest);
      assert text == cut.field + ([32] + cut.rest.value);
      assert [32] + (cut.field + Numerals(rest)) == [32] + cut.field + Numerals(rest);
    }
  }

  lemma {:induction false} SpellMore(w: Bytes, rest: seq<Bytes>, names: seq<Field>, vs: seq<U32>)
    requires |names| == |vs| > 0 && FieldSpells(w, names[0], vs[0]) && SpellAll(rest, names[1..], vs[1..])
    ensures SpellAll([w] + rest, names, vs)
  {
    hide FieldSpells;
    var ws := [w] + rest;
    forall i | 0 <= i < |ws|
      ensures FieldSpells(ws[i], names[i], vs[i])
    {
      if i > 0 {
        assert FieldSpells(rest[i - 1], names[1..][i - 1], vs[1..][i - 1]);
      }
    }
  }

  lemma {:induction false} NumeralsMore(w: Bytes, rest: seq<Bytes>)
    ensures Numerals([w] + rest) == [32] + w + Numerals(rest)
  {
    assert ([w] + rest)[1..] == rest;
  }

  lemma {:induction false} SpeltFields(text: Bytes, names: seq<Field>, vs: seq<U32>, ws: seq<Bytes>)
    requires names != [] && |vs| == |names| && SpellAll(ws, names, vs) && [32] + text == Numerals(ws)
    ensures ParseFields(Some(text), names) == Ok(vs)
    decreases |names|
  {
    hide ParseField, FieldSpells, NextField;
    var w, more := ws[0], Numerals(ws[1..]);
    assert FieldSpells(ws[0], names[0], vs[0]);
    SpeltNonEmpty(w, names[0], vs[0]);
    FieldExactly(w, names[0], vs[0]);
    NextNumeral(text, w, ws[1..], names[0]);
    assert vs == [vs[0]] + vs[1..];
    if |names| == 1 {
      assert ws[1..] == [] && names[1..] == [] && vs[1..] == [];
      assert ParseFields(None, names[1..]) == Ok([]);
    } else {
      assert [32] + more[1..] == more;
      SpeltFields(more[1..], names[1..], vs[1..], ws[1..]);
    }
  }

  /** The next field is cut off at its space, or is the last. */
  lemma {:induction false} NextNumeral(text: Bytes, w: Bytes, ws: seq<Bytes>, name: Field)
    requires w != [] && 32 !in w && [32] + text == [32] + w + Numerals(ws)
    ensures NextField(Some(text), name) == Ok(Cut(w, if ws == [] then None else Some(Numerals(ws)[1..])))
    ensures ws != [] ==> Numerals(ws) != [] && Numerals(ws)[0] == 32
  {
    var more := Numerals(ws);
    assert text == w + more by {
      assert [32] + w + more == [32] + (w + more);
      assert ([32] + text)[1..] == text && ([32] + (w + more))[1..] == w + more;
    }
    if ws == [] {
      assert w + [] == w;
      FindNone(text, SP);
    } else {
      NumeralsStart(ws);
      FindFirst(text, SP, |w|);
      assert text[..|w|] == w && text[|w| + 1..] == more[1..];
    }
  }

  lemma {:induction false} SpeltNonEmpty(w: Bytes, name: Field, v: U32)
    requires FieldSpells(w, name, v)
    ensures w != []
  {
  }

  // ---- what is decoded ---------------------------------------------------------------

  ghost predicate DataWords(ws: seq<Bytes>, d: DataFrame)
  {
    && |ws| == (if d.kind.Ans? then 6 else 5)
    && Spells(ws[0], d.channel) && Spells(ws[1], d.msgno) && ws[2] == (if d.more then [42] else [46])
    && Spells(ws[3], d.seqno) && Spells(ws[4], |d.payload|)
    && (d.kind.Ans? ==> d.ansno.Some? && Spells(ws[5], d.ansno.value))
  }

  /** A header line for `d`: its keyword, and its fields with a space in front of each. */
  ghost predicate DataHead(line: Bytes, d: DataFrame)
  {
    exists ws :: DataWords(ws, d) && line == Ascii(Keyword(d.kind)) + Numerals(ws)
  }

  ghost predicate SeqWords(ws: seq<Bytes>, s: SeqFrame)
  {
    |ws| == 3 && Spells(ws[0], s.channel) && Spells(ws[1], s.ackno) && Spells(ws[2], s.window)
  }

  ghost predicate SeqHead(line: Bytes, s: SeqFrame)
  {
    exists ws :: SeqWords(ws, s) && line == Ascii("SEQ") + Numerals(ws)
  }

  lemma {:induction false} DataWordsSpell(ws: seq<Bytes>, d: DataFrame)
    requires d.Valid()
    ensures DataWords(ws, d) <==> SpellAll(ws, DataNames(d.kind), DataValues(d))
  {
    hide Spells;
    var (names, vs) := (DataNames(d.kind), DataValues(d));
    if SpellAll(ws, names, vs) {
      assert FieldSpells(ws[0], names[0], vs[0]) && FieldSpells(ws[1], names[1], vs[1]) && FieldSpells(ws[2], names[2], vs[2]);
      assert FieldSpells(ws[3], names[3], vs[3]) && FieldSpells(ws[4], names[4], vs[4]);
      if d.kind.Ans? {
        assert FieldSpells(ws[5], names[5], vs[5]);
      }
    }
  }

  lemma {:induction false} SeqWordsSpell(ws: seq<Bytes>, s: SeqFrame)
    requires s.Valid()
    ensures SeqWords(ws, s) <==> SpellAll(ws, SeqNames(), [s.channel, s.ackno, s.window])
  {
    hide Spells;
    var (names, vs) := (SeqNames(), [s.channel, s.ackno, s.window]);
    if SpellAll(ws, names, vs) {
      assert FieldSpells(ws[0], names[0], vs[0]) && FieldSpells(ws[1], names[1], vs[1]) && FieldSpells(ws[2], names[2], vs[2]);
    }
  }

  lemma {:induction false} NumeralsStart(ws: seq<Bytes>)
    requires ws != []
    ensures Numerals(ws) != [] && Numerals(ws)[0] == 32
  {
  }

  /** A line with three octets in front and its fields behind a space. */
  lemma {:induction false} LineCut(line: Bytes, token: Bytes, tail: Bytes)
    requires |token| == 3
    ensures line == token + ([32] + tail) <==> |line| > 3 && line[3] == 32 && line[..3] == token && line[4..] == tail
  {
    if |line| > 3 && line[3] == 32 && line[..3] == token && line[4..] == tail {
      assert line == line[..3] + ([line[3]] + line[4..]);
    }
  }

  /** The header of `d` is read from a line if and only if the line is one for `d` and its size is allowed. */
  lemma {:induction false} HeadExactly(line: Bytes, d: DataFrame, maxFrameSize: U32)
    requires d.Valid()
    ensures ParseHeader(line, maxFrameSize) == Ok(ParsedOf(Data(d))) <==> DataHead(line, d) && |d.payload| <= maxFrameSize
  {
    hide ParseFields, Numerals, DataWords, SpellAll;
    KeywordIsToken(d.kind);
    TokenRoundTrip(d.kind);
    if DataHead(line, d) && |d.payload| <= maxFrameSize {
      var ws :| DataWords(ws, d) && line == Ascii(Keyword(d.kind)) + Numerals(ws);
      DataWordsSpell(ws, d);
      SpellLength(ws, DataNames(d.kind), DataValues(d));
      NumeralsStart(ws);
      LineCut(line, Token(d.kind), Numerals(ws)[1..]);
      FieldsExactly(line[4..], DataNames(d.kind), DataValues(d));
    }
    if ParseHeader(line, maxFrameSize) == Ok(ParsedOf(Data(d))) {
      FieldsExactly(line[4..], DataNames(d.kind), DataValues(d));
      TokenOf(line[..3], d.kind);
      var vs := ParseFields(Some(line[4..]), DataNames(d.kind)).value;
      ValuesOf(d, vs, maxFrameSize);
      var ws :| SpellAll(ws, DataNames(d.kind), DataValues(d)) && [32] + line[4..] == Numerals(ws);
      DataWordsSpell(ws, d);
      LineCut(line, Token(d.kind), line[4..]);
    }
  }

  lemma {:induction false} SpellLength(ws: seq<Bytes>, names: seq<Field>, vs: seq<U32>)
    requires |names| == |vs| && SpellAll(ws, names, vs)
    ensures |ws| == |vs|
  {
  }

  lemma {:induction false} TokenOf(t: Bytes, kind: FrameKind)
    requires FromToken(t) == Some(kind)
    ensures t == Token(kind)
  {
  }

  lemma {:induction false} ValuesOf(d: DataFrame, vs: seq<U32>, maxFrameSize: U32)
    requires d.Valid() && |vs| == |DataNames(d.kind)| && (forall i :: 0 <= i < |vs| ==> vs[i] <= FieldMax(DataNames(d.kind)[i]))
    requires HeaderOf(d.kind, vs) == ParsedOf(Data(d)).header
    ensures vs == DataValues(d)
  {
    assert vs[2] <= FieldMax(DataNames(d.kind)[2]);
  }

  lemma {:induction false} SeqHeadExactly(line: Bytes, s: SeqFrame, maxFrameSize: U32)
    requires s.Valid()
    ensures ParseHeader(line, maxFrameSize) == Ok(SeqLine(s)) <==> SeqHead(line, s)
  {
    hide ParseFields, Numerals, SeqWords, SpellAll, FromToken;
    KeywordIsToken(Msg);
    var vs := [s.channel, s.ackno, s.window];
    if SeqHead(line, s) {
      var ws :| SeqWords(ws, s) && line == Ascii("SEQ") + Numerals(ws);
      SeqWordsSpell(ws, s);
      SpellLength(ws, SeqNames(), vs);
      NumeralsStart(ws);
      LineCut(line, SEQ_TOKEN, Numerals(ws)[1..]);
      FieldsExactly(line[4..], SeqNames(), vs);
    }
    if ParseHeader(line, maxFrameSize) == Ok(SeqLine(s)) {
      FieldsExactly(line[4..], SeqNames(), vs);
      assert ParseFields(Some(line[4..]), SeqNames()).value == vs;
      var ws :| SpellAll(ws, SeqNames(), vs) && [32] + line[4..] == Numerals(ws);
      SeqWordsSpell(ws, s);
      LineCut(line, SEQ_TOKEN, line[4..]);
    }
  }

  /** Keywords and fields hold no line feed. */
  lemma {:induction false} HeadClean(ws: seq<Bytes>, names: seq<Field>, vs: seq<U32>, keyword: Bytes)
    requires |names| == |vs| && SpellAll(ws, names, vs) && 10 !in keyword
    ensures 10 !in keyword + Numerals(ws)
  {
    hide FieldSpells;
    forall i | 0 <= i < |ws|
      ensures 10 !in ws[i]
    {
      assert FieldSpells(ws[i], names[i], vs[i]);
      SpeltNonEmpty(ws[i], names[i], vs[i]);
      FieldExactly(ws[i], names[i], vs[i]);
    }
    NumeralsClean(ws);
  }

  lemma {:induction false} NumeralsClean(ws: seq<Bytes>)
    requires forall i :: 0 <= i < |ws| ==> 10 !in ws[i]
    ensures 10 !in Numerals(ws)
  {
    if ws != [] {
      NumeralsClean(ws[1..]);
    }
  }

  /** A line that ends in time is found, and nothing else is found. */
  lemma {:induction false} HeaderAt(src: Bytes, line: Bytes, tail: Bytes)
    requires 10 !in line && |line| <= 96 && src == line + [13, 10] + tail
    ensures Find(src[..Min(|src|, MAX_HEADER_LEN)], LF) == Some(|line| + 1) && src[|line|] == 13 && src[..|line|] == line
    ensures src[|line| + 2..] == tail
  {
    FindNone(line, LF);
    LineEnd(line, tail);
  }

  lemma {:induction false} HeaderFound(src: Bytes, maxFrameSize: U32)
    requires DecodeHeader(src, maxFrameSize).Ok? && DecodeHeader(src, maxFrameSize).value.Some?
    ensures
      var h := DecodeHeader(src, maxFrameSize).value.value;
      && h.taken >= 2 && |src[..h.taken - 2]| <= 96 && src == src[..h.taken - 2] + [13, 10] + src[h.taken..]
      && ParseHeader(src[..h.taken - 2], maxFrameSize) == Ok(h.parsed)
  {
    hide ParseHeader;
    var lf := Find(src[..Min(|src|, MAX_HEADER_LEN)], LF).value;
    assert src[lf] == 10 && src[lf - 1] == 13;
  }

  /** Octets laid out as a data frame: header line, payload and trailer, and then `rest`. */
  ghost predicate DataLayout(src: Bytes, line: Bytes, d: DataFrame, rest: Bytes)
  {
    DataHead(line, d) && |line| <= 96 && src == line + [13, 10] + (d.payload + ([69, 78, 68, 13, 10] + rest))
  }

  /**
   * The decoder yields a data frame if and only if the octets are laid out as one, within the
   * ranges of the header fields, the limit of 98 octets on a header and the size allowed.
   */
  lemma {:induction false} DecodesDataExactly(src: Bytes, maxFrameSize: U32, d: DataFrame, rest: Bytes)
    ensures Decode(None, maxFrameSize, src) == Yield(Data(d), rest) <==>
      d.Valid() && |d.payload| <= maxFrameSize && exists line :: DataLayout(src, line, d, rest)
  {
    hide Decode, DataHead;
    if Decode(None, maxFrameSize, src) == Yield(Data(d), rest) {
      DecodedLayout(src, maxFrameSize, d, rest);
    }
    if d.Valid() && |d.payload| <= maxFrameSize && exists line :: DataLayout(src, line, d, rest) {
      var line :| DataLayout(src, line, d, rest);
      LayoutDecoded(src, maxFrameSize, d, rest, line);
    }
  }

  lemma {:induction false} LayoutDecoded(src: Bytes, maxFrameSize: U32, d: DataFrame, rest: Bytes, line: Bytes)
    requires d.Valid() && |d.payload| <= maxFrameSize && DataLayout(src, line, d, rest)
    ensures Decode(None, maxFrameSize, src) == Yield(Data(d), rest)
  {
    hide ParseHeader, Numerals, Token, Keyword, DataWords, DataHead;
    HeadExactly(line, d, maxFrameSize);
    DataHeadClean(line, d);
    var tail := d.payload + (TRAILER + rest);
    HeaderAt(src, line, tail);
    assert tail == d.payload + TRAILER + rest;
    BodyRoundTrip(d, rest);
  }

  lemma {:induction false} DataHeadClean(line: Bytes, d: DataFrame)
    requires d.Valid() && DataHead(line, d)
    ensures 10 !in line
  {
    hide Numerals, DataWords, SpellAll;
    var ws :| DataWords(ws, d) && line == Ascii(Keyword(d.kind)) + Numerals(ws);
    DataWordsSpell(ws, d);
    KeywordIsToken(d.kind);
    HeadClean(ws, DataNames(d.kind), DataValues(d), Token(d.kind));
  }

  lemma {:induction false} DecodedLayout(src: Bytes, maxFrameSize: U32, d: DataFrame, rest: Bytes)
    requires Decode(None, maxFrameSize, src) == Yield(Data(d), rest)
    ensures d.Valid() && |d.payload| <= maxFrameSize && exists line :: DataLayout(src, line, d, rest)
  {
    hide ParseHeader, DecodeHeader, DataHead;
    DecodedValid(None, maxFrameSize, src);
    HeaderFound(src, maxFrameSize);
    var head := DecodeHeader(src, maxFrameSize).value.value;
    var line, tail := src[..head.taken - 2], src[head.taken..];
    HeaderKind(line, maxFrameSize);
    BodyOf(head.parsed.header, tail, d, rest);
    HeadExactly(line, d, maxFrameSize);
    assert DataLayout(src, line, d, rest);
  }

  lemma {:induction false} HeaderKind(line: Bytes, maxFrameSize: U32)
    requires ParseHeader(line, maxFrameSize).Ok? && ParseHeader(line, maxFrameSize).value.DataLine?
    ensures var h := ParseHeader(line, maxFrameSize).value.header; h.kind.Ans? <==> h.ansno.Some?
  {
    hide ParseFields, FromToken;
  }

  lemma {:induction false} BodyOf(h: DataHeader, src: Bytes, d: DataFrame, rest: Bytes)
    requires DecodeBody(h, src) == Yield(Data(d), rest) && d.Valid() && (h.kind.Ans? <==> h.ansno.Some?)
    ensures DataLine(h) == ParsedOf(Data(d)) && src == d.payload + ([69, 78, 68, 13, 10] + rest)
  {
    assert src == src[..h.size] + (src[h.size..h.size + |TRAILER|] + src[h.size + |TRAILER|..]);
  }

  /** Octets laid out as a SEQ frame, which is a header line alone. */
  ghost predicate SeqLayout(src: Bytes, line: Bytes, s: SeqFrame, rest: Bytes)
  {
    SeqHead(line, s) && |line| <= 96 && src == line + [13, 10] + rest
  }

  /** The same for SEQ frames. */
  lemma {:induction false} DecodesSeqExactly(src: Bytes, maxFrameSize: U32, s: SeqFrame, rest: Bytes)
    ensures Decode(None, maxFrameSize, src) == Yield(Seq(s), rest) <==> s.Valid() && exists line :: SeqLayout(src, line, s, rest)
  {
    hide Decode, SeqLayout;
    if Decode(None, maxFrameSize, src) == Yield(Seq(s), rest) {
      SeqDecodedLayout(src, maxFrameSize, s, rest);
    }
    if s.Valid() && exists line :: SeqLayout(src, line, s, rest) {
      var line :| SeqLayout(src, line, s, rest);
      SeqLayoutDecoded(src, maxFrameSize, s, rest, line);
    }
  }

  lemma {:induction false} SeqDecodedLayout(src: Bytes, maxFrameSize: U32, s: SeqFrame, rest: Bytes)
    requires Decode(None, maxFrameSize, src) == Yield(Seq(s), rest)
    ensures s.Valid() && exists line :: SeqLayout(src, line, s, rest)
  {
    hide ParseHeader, SeqHead, DecodeHeader;
    DecodedValid(None, maxFrameSize, src);
    HeaderFound(src, maxFrameSize);
    var line := src[..DecodeHeader(src, maxFrameSize).value.value.taken - 2];
    SeqHeadExactly(line, s, maxFrameSize);
    assert SeqLayout(src, line, s, rest);
  }

  lemma {:induction false} SeqLayoutDecoded(src: Bytes, maxFrameSize: U32, s: SeqFrame, rest: Bytes, line: Bytes)
    requires s.Valid() && SeqLayout(src, line, s, rest)
    ensures Decode(None, maxFrameSize, src) == Yield(Seq(s), rest)
  {
    hide ParseHeader, SeqHead, DecodeHeader;
    SeqHeadClean(line, s);
    SeqHeadExactly(line, s, maxFrameSize);
    HeaderAt(src, line, rest);
    HeaderIs(src, maxFrameSize, line);
  }

  lemma {:induction false} SeqHeadClean(line: Bytes, s: SeqFrame)
    requires s.Valid() && SeqHead(line, s)
    ensures 10 !in line
  {
    hide Numerals, SeqWords, SpellAll;
    var ws :| SeqWords(ws, s) && line == Ascii("SEQ") + Numerals(ws);
    SeqWordsSpell(ws, s);
    KeywordIsToken(Msg);
    HeadClean(ws, SeqNames(), [s.channel, s.ackno, s.window], SEQ_TOKEN);
  }

  lemma {:induction false} HeaderIs(src: Bytes, maxFrameSize: U32, line: Bytes)
    requires Find(src[..Min(|src|, MAX_HEADER_LEN)], LF) == Some(|line| + 1) && |line| < |src| && src[|line|] == 13 && src[..|line|] == line
    ensures DecodeHeader(src, maxFrameSize) ==
      var p := ParseHeader(line, maxFrameSize); if p.Failed? then Failed(p.error) else Ok(Some(Head(p.value, |line| + 2)))
  {
    hide ParseHeader;
  }

  /** The decoder waits for more of a header exactly while there is no line feed and still may be one in time. */
  lemma {:induction false} WaitsExactly(src: Bytes, maxFrameSize: U32)
    ensures Decode(None, maxFrameSize, src) == Wait(None, src) <==> |src| < 98 && 10 !in src
    ensures |src| >= 98 && 10 !in src[..98] ==> Decode(None, maxFrameSize, src) == Fail(HeaderTooLong)
  {
    hide ParseHeader;
    var window := src[..Min(|src|, MAX_HEADER_LEN)];
    FindMeans(window, LF);
    if |src| < 98 {
      assert window == src;
    }
  }

  /** No keyword of the grammar. */
  ghost predicate Unknown(word: Bytes)
  {
    word != Ascii("SEQ") && forall kind: FrameKind :: word != Ascii(Keyword(kind))
  }

  /** Which fault is named of a line, ended by the first line feed, whose beginning is wrong. */
  lemma {:induction false} WrongStart(src: Bytes, maxFrameSize: U32, k: nat)
    requires k < |src| && k < 98 && src[k] == 10 && 10 !in src[..k]
    ensures k == 0 || src[k - 1] != 13 ==> Decode(None, maxFrameSize, src) == Fail(BareNewlineInHeader)
    ensures 1 <= k < 4 && src[k - 1] == 13 ==> Decode(None, maxFrameSize, src) == Fail(TruncatedFrameType)
    ensures k >= 4 && src[k - 1] == 13 && (k == 4 || src[3] != 32) ==> Decode(None, maxFrameSize, src) == Fail(NoSpaceAfterFrameType)
    ensures k > 4 && src[k - 1] == 13 && src[3] == 32 && Unknown(src[..3]) ==> Decode(None, maxFrameSize, src) == Fail(UnknownFrameType)
  {
    hide ParseFields, Ascii;
    var window := src[..Min(|src|, MAX_HEADER_LEN)];
    assert window[..k] == src[..k];
    FindFirst(window, LF, k);
    if k > 4 {
      assert src[..k - 1][..3] == src[..3] && src[..k - 1][3] == src[3];
      if Unknown(src[..3]) {
        UnknownToken(src[..3]);
      }
    }
  }

  lemma {:induction false} UnknownToken(word: Bytes)
    requires Unknown(word)
    ensures word != SEQ_TOKEN && FromToken(word).None?
  {
    hide Ascii, Token, Keyword;
    KeywordIsToken(Msg);
    forall kind: FrameKind
      ensures word != Token(kind)
    {
      KeywordIsToken(kind);
      assert word != Ascii(Keyword(kind));
    }
  }

  // ---- which fault is named ----------------------------------------------------------

  function DigitsIn(w: Bytes): nat
  {
    if w == [] || w[0] < 48 || w[0] > 57 then 0 else 1 + DigitsIn(w[1..])
  }

  lemma {:induction false} DigitsInBound(w: Bytes)
    ensures DigitsIn(w) <= |w|
    ensures forall i :: 0 <= i < DigitsIn(w) ==> 48 <= w[i] <= 57
    ensures DigitsIn(w) < |w| ==> w[DigitsIn(w)] < 48 || w[DigitsIn(w)] > 57
  {
    if w != [] && 48 <= w[0] <= 57 {
      DigitsInBound(w[1..]);
    }
  }

  /** What is wrong with a word as a field, if anything: too large as far as its digits go, or then something that is no digit. */
  ghost predicate Faulty(w: Bytes, name: Field, e: Error)
  {
    if w == [] then e == MissingField(name)
    else if name.More? then
      w != [42] && w != [46] && e == if |w| == 1 then InvalidContinuation(w[0]) else WideContinuation
    else if Denotes(w[..Min(DigitsIn(w), |w|)]) > FieldMax(name) then e == ValueOutOfRange(name)
    else DigitsIn(w) < |w| && e == InvalidDigit(name)
  }

  lemma {:induction false} NumberFaults(w: Bytes, name: Field, max: U32)
    ensures
      var k := DigitsIn(w);
      k <= |w| && ParseU32(w, name, max) ==
        if Denotes(w[..k]) > max then Failed(ValueOutOfRange(name))
        else if k < |w| then Failed(InvalidDigit(name)) else Ok(Denotes(w[..k]))
    decreases |w|
  {
    hide ParseFrom;
    DigitsInBound(w);
    var k := DigitsIn(w);
    NumberUpTo(w, k, name, max);
    assert w[..k] + w[k..] == w;
    if Denotes(w[..k]) <= max {
      NoDigit(Denotes(w[..k]), w[k..], name, max);
    }
  }

  lemma {:induction false} NoDigit(value: nat, rest: Bytes, name: Field, max: U32)
    requires value <= max && (rest != [] ==> rest[0] < 48 || rest[0] > 57)
    ensures ParseFrom(value, rest, name, max) == if rest == [] then Ok(value) else Failed(InvalidDigit(name))
  {
  }

  /** Digits are worth what they denote, and the rest is read on from there. */
  lemma {:induction false} NumberUpTo(w: Bytes, k: nat, name: Field, max: U32)
    requires k <= |w| && forall i :: 0 <= i < k ==> 48 <= w[i] <= 57
    ensures Denotes(w[..k]) >= 0
    ensures ParseU32(w, name, max) ==
      if Denotes(w[..k]) > max then Failed(ValueOutOfRange(name)) else ParseFrom(Denotes(w[..k]), w[k..], name, max)
    decreases k
  {
    if k == 0 {
      assert w[..0] == [] && w[0..] == w;
    } else {
      NumberUpTo(w, k - 1, name, max);
      assert w[..k][..k - 1] == w[..k - 1] && w[..k][k - 1] == w[k - 1];
      assert w[k - 1..][1..] == w[k..];
    }
  }

  lemma {:induction false} FieldFaults(w: Bytes, name: Field, e: Error)
    requires w != []
    ensures ParseField(w, name) == Failed(e) <==> Faulty(w, name, e)
    ensures ParseField(w, name).Ok? <==> forall x :: !Faulty(w, name, x)
  {
    hide Denotes, ParseU32;
    NumberFaults(w, name, FieldMax(name));
    if ParseField(w, name).Failed? {
      assert Faulty(w, name, ParseField(w, name).error);
    }
  }

  /** Word `i` is the first that is wrong. */
  ghost predicate FirstFaulty(ws: seq<Bytes>, names: seq<Field>, i: nat, e: Error)
  {
    && i < |ws| && i < |names| && Faulty(ws[i], names[i], e)
    && forall j, x :: 0 <= j < i ==> !Faulty(ws[j], names[j], x)
  }

  /** The first word that is wrong names the fault. */
  lemma {:induction false} FirstFaultNamed(ws: seq<Bytes>, names: seq<Field>, i: nat, e: Error)
    requires (forall k :: 0 <= k < |ws| ==> 32 !in ws[k]) && FirstFaulty(ws, names, i, e)
    ensures ParseFields(Some(Numerals(ws)[1..]), names) == Failed(e)
    decreases i
  {
    hide ParseField, Faulty, NextField;
    NumeralsStart(ws);
    var text := Numerals(ws)[1..];
    assert [32] + text == [32] + ws[0] + Numerals(ws[1..]);
    if ws[0] == [] {
      EmptyNext(text, ws[1..], names[0]);
      EmptyFaulty(names[0], i, e, ws, names);
    } else {
      NextNumeral(text, ws[0], ws[1..], names[0]);
      FieldFaults(ws[0], names[0], e);
      if i > 0 {
        assert FirstFaulty(ws[1..], names[1..], i - 1, e) by {
          forall j, x | 0 <= j < i - 1
            ensures !Faulty(ws[1..][j], names[1..][j], x)
          {
            assert ws[1..][j] == ws[j + 1] && names[1..][j] == names[j + 1];
          }
        }
        FirstFaultNamed(ws[1..], names[1..], i - 1, e);
      }
    }
  }

  lemma {:induction false} EmptyFaulty(name: Field, i: nat, e: Error, ws: seq<Bytes>, names: seq<Field>)
    requires FirstFaulty(ws, names, i, e) && ws[0] == [] && names[0] == name
    ensures i == 0 && e == MissingField(name)
  {
    assert Faulty(ws[0], names[0], MissingField(name));
  }

  lemma {:induction false} EmptyNext(text: Bytes, ws: seq<Bytes>, name: Field)
    requires [32] + text == [32] + [] + Numerals(ws)
    ensures NextField(Some(text), name) == Failed(MissingField(name))
  {
    assert text == Numerals(ws) by {
      assert [32] + [] + Numerals(ws) == [32] + Numerals(ws);
      assert ([32] + text)[1..] == text && ([32] + Numerals(ws))[1..] == Numerals(ws);
    }
    if ws != [] {
      NumeralsStart(ws);
      FindFirst(text, SP, 0);
      assert text[..0] == [];
    }
  }

  /** With every word right so far, one too few or one too many is the fault. */
  lemma {:induction false} CountFaultNamed(ws: seq<Bytes>, names: seq<Field>)
    requires ws != [] && |ws| != |names| && forall k :: 0 <= k < |ws| ==> 32 !in ws[k]
    requires forall j, x :: 0 <= j < |ws| && j < |names| ==> !Faulty(ws[j], names[j], x)
    ensures ParseFields(Some(Numerals(ws)[1..]), names) ==
      Failed(if |ws| < |names| then MissingField(names[|ws|]) else TrailingOctets)
    decreases |names|
  {
    hide ParseField, Faulty, NextField;
    if names != [] {
      NumeralsStart(ws);
      var text := Numerals(ws)[1..];
      assert [32] + text == [32] + ws[0] + Numerals(ws[1..]);
      NotFaultyEmpty(ws[0], names[0]);
      NextNumeral(text, ws[0], ws[1..], names[0]);
      FieldFaults(ws[0], names[0], TrailingOctets);
      if |ws| == 1 {
        assert ws[1..] == [];
        NothingNext(names[1..]);
      } else {
        forall j, x | 0 <= j < |ws[1..]| && j < |names[1..]|
          ensures !Faulty(ws[1..][j], names[1..][j], x)
        {
          assert ws[1..][j] == ws[j + 1] && names[1..][j] == names[j + 1];
        }
        CountFaultNamed(ws[1..], names[1..]);
      }
    }
  }

  lemma {:induction false} NotFaultyEmpty(w: Bytes, name: Field)
    requires forall x :: !Faulty(w, name, x)
    ensures w != []
  {
    assert !Faulty(w, name, MissingField(name));
  }

  lemma {:induction false} NothingNext(names: seq<Field>)
    requires names != []
    ensures ParseFields(None, names) == Failed(MissingField(names[0]))
  {
  }

  /** A header that is right, and then: a size that is not allowed, octets still to come, or another trailer. */
  lemma {:induction false} BodyFaultNamed(line: Bytes, d: DataFrame, tail: Bytes, maxFrameSize: U32)
    requires d.Valid() && DataHead(line, d) && |line| <= 96
    ensures
      var (n, s) := (|d.payload|, Decode(None, maxFrameSize, line + [13, 10] + tail));
      if n > maxFrameSize then s == Fail(FrameTooLarge)
      else if |tail| < n + 5 then s == Wait(Some(ParsedOf(Data(d)).header), tail)
      else tail[n..n + 5] != [69, 78, 68, 13, 10] ==> s == Fail(MissingTrailer)
  {
    hide ParseHeader, DataHead;
    DataHeadClean(line, d);
    HeaderAt(line + [13, 10] + tail, line, tail);
    HeadExactly(line, d, maxFrameSize);
    if |d.payload| > maxFrameSize {
      TooLarge(line, d, maxFrameSize);
    }
  }

  lemma {:induction false} TooLarge(line: Bytes, d: DataFrame, maxFrameSize: U32)
    requires d.Valid() && DataHead(line, d) && |d.payload| > maxFrameSize
    ensures ParseHeader(line, maxFrameSize) == Failed(FrameTooLarge)
  {
    hide ParseFields, DataHead, FromToken;
    HeadExactly(line, d, MAX_FRAME_SIZE);
  }
}
