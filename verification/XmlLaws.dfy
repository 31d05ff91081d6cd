/** What the XML reader promises: every document tree, printed with escaping, reads back as itself. */
module XmlLaws {
  import opened Octets
  import opened Xml

  // ---- documents and how they are printed --------------------------------------------

  datatype Doc = Doc(name: string, attrs: seq<(string, string)>, body: Option<Content>)

  datatype Content =
    | Nothing
    | Text(text: string, rest: Content)       // printed escaped
    | Plain(text: string, rest: Content)      // printed as it is
    | Cdata(raw: string, rest: Content)       // printed as it is, between delimiters
    | Child(doc: Doc, rest: Content)

  function PrintAttrs(attrs: seq<(string, string)>): string
  {
    if attrs == [] then ""
    else " " + attrs[0].0 + "='" + Escape(attrs[0].1) + "'" + PrintAttrs(attrs[1..])
  }

  function Print(doc: Doc): string
  {
    "<" + doc.name + PrintAttrs(doc.attrs)
    + match doc.body
      case None => " />"
      case Some(content) => ">" + PrintContent(content) + "</" + doc.name + ">"
  }

  function PrintContent(content: Content): string
  {
    match content
    case Nothing => ""
    case Text(text, rest) => Escape(text) + PrintContent(rest)
    case Plain(text, rest) => text + PrintContent(rest)
    case Cdata(raw, rest) => CDATA_OPEN + raw + CDATA_CLOSE + PrintContent(rest)
    case Child(doc, rest) => Print(doc) + PrintContent(rest)
  }

  // ---- what they mean ----------------------------------------------------------------

  function Meaning(doc: Doc): Element
  {
    match doc.body
    case None => Element(doc.name, doc.attrs, [], "")
    case Some(content) => Element(doc.name, doc.attrs, Children(content), Words(content))
  }

  function Children(content: Content): seq<Element>
  {
    match content
    case Nothing => []
    case Text(_, rest) => Children(rest)
    case Plain(_, rest) => Children(rest)
    case Cdata(_, rest) => Children(rest)
    case Child(doc, rest) => [Meaning(doc)] + Children(rest)
  }

  function Words(content: Content): string
  {
    match content
    case Nothing => ""
    case Text(text, rest) => text + Words(rest)
    case Plain(text, rest) => text + Words(rest)
    case Cdata(raw, rest) => raw + Words(rest)
    case Child(_, rest) => Words(rest)
  }

  // ---- which documents ---------------------------------------------------------------

  ghost predicate GoodKey(key: string)
  {
    key != "" && forall i :: 0 <= i < |key| ==> !EndsName(key[i])
  }

  ghost predicate GoodName(name: string)
  {
    GoodKey(name) && name[0] != '!' && name[0] != '?'
  }

  ghost predicate Free(raw: string)
  {
    Seek(raw, CDATA_CLOSE).None?
  }

  /** Text that needs no escaping. */
  ghost predicate Unmarked(text: string)
  {
    forall i :: 0 <= i < |text| ==> text[i] != '<' && text[i] != '&'
  }

  ghost predicate GoodAttrs(attrs: seq<(string, string)>)
  {
    forall i :: 0 <= i < |attrs| ==> GoodKey(attrs[i].0)
  }

  /** Names that can be names, sections that end where they should, text in one piece, nesting within the limit. */
  ghost predicate GoodDoc(doc: Doc, depth: nat)
  {
    && depth <= MAX_DEPTH && GoodName(doc.name) && GoodAttrs(doc.attrs)
    && (doc.body.Some? ==> GoodContent(doc.body.value, depth))
  }

  ghost predicate GoodContent(content: Content, depth: nat)
  {
    match content
    case Nothing => true
    case Text(_, rest) => !rest.Text? && !rest.Plain? && GoodContent(rest, depth)
    case Plain(text, rest) => Unmarked(text) && !rest.Text? && !rest.Plain? && GoodContent(rest, depth)
    case Cdata(raw, rest) => Free(raw) && GoodContent(rest, depth)
    case Child(doc, rest) => GoodDoc(doc, depth + 1) && GoodContent(rest, depth)
  }

  // ---- strings -----------------------------------------------------------------------

  lemma {:induction false} Front(a: string, b: string)
    ensures (a + b)[..|a|] == a && (a + b)[|a|..] == b
  {
  }

  lemma {:induction false} IndexOfBehind(a: string, b: string, c: char)
    requires forall i :: 0 <= i < |a| ==> a[i] != c
    ensures IndexOf(a + [c] + b, c) == Some(|a|)
  {
    if a != "" {
      assert (a + [c] + b)[1..] == a[1..] + [c] + b;
      IndexOfBehind(a[1..], b, c);
    }
  }

  // ---- escaping ----------------------------------------------------------------------

  ghost predicate Tame(s: string)
  {
    forall i :: 0 <= i < |s| ==> s[i] != '<' && s[i] != '>' && s[i] != '\'' && s[i] != '"'
  }

  lemma {:induction false} TameChar(c: char)
    ensures Tame(EscapeChar(c))
  {
  }

  lemma {:induction false} TameAppend(a: string, b: string)
    requires Tame(a) && Tame(b)
    ensures Tame(a + b)
  {
  }

  lemma {:induction false} EscapeTame(value: string)
    ensures Tame(Escape(value))
  {
    hide EscapeChar, Tame;
    if value != "" {
      EscapeTame(value[1..]);
      TameChar(value[0]);
      TameAppend(EscapeChar(value[0]), Escape(value[1..]));
    } else {
      TameNone();
    }
  }

  lemma {:induction false} TameNone()
    ensures Tame("")
  {
  }

  /** A named entity decodes to its character. */
  lemma {:induction false} EntityDecodes(name: string, c: char, rest: string)
    requires 0 < |name| < MAX_ENTITY_LEN && Entity(name) == Some(c) && forall i :: 0 <= i < |name| ==> name[i] != ';'
    ensures
      var more := DecodeEntities(rest);
      DecodeEntities("&" + name + ";" + rest) == if more.Failed? then more else Ok([c] + more.value)
  {
    hide Entity;
    var raw := "&" + name + ";" + rest;
    var tail := raw[1..];
    assert tail == name + [';'] + rest;
    var w := tail[..Min(|tail|, MAX_ENTITY_LEN)];
    assert w == name + [';'] + w[|name| + 1..];
    IndexOfBehind(name, w[|name| + 1..], ';');
    assert tail[..|name|] == name && tail[|name| + 1..] == rest;
  }

  lemma {:induction false} PlainDecodes(c: char, rest: string)
    requires c != '&'
    ensures
      var more := DecodeEntities(rest);
      DecodeEntities([c] + rest) == if more.Failed? then more else Ok([c] + more.value)
  {
    assert ([c] + rest)[1..] == rest;
  }

  lemma {:induction false} CharDecodes(c: char, rest: string)
    ensures
      var more := DecodeEntities(rest);
      DecodeEntities(EscapeChar(c) + rest) == if more.Failed? then more else Ok([c] + more.value)
  {
    hide DecodeEntities;
    if c == '&' {
      EntityDecodes("amp", c, rest);
    } else if c == '<' {
      EntityDecodes("lt", c, rest);
    } else if c == '>' {
      EntityDecodes("gt", c, rest);
    } else if c == '\'' {
      EntityDecodes("apos", c, rest);
    } else if c == '"' {
      EntityDecodes("quot", c, rest);
    } else {
      PlainDecodes(c, rest);
    }
    EscapedName(c);
  }

  /** An escaped character is its entity name between an ampersand and a semicolon. */
  lemma {:induction false} EscapedName(c: char)
    ensures c == '&' ==> EscapeChar(c) == "&" + "amp" + ";"
    ensures c == '<' ==> EscapeChar(c) == "&" + "lt" + ";"
    ensures c == '>' ==> EscapeChar(c) == "&" + "gt" + ";"
    ensures c == '\'' ==> EscapeChar(c) == "&" + "apos" + ";"
    ensures c == '"' ==> EscapeChar(c) == "&" + "quot" + ";"
  {
  }

  /** Escaping any string and expanding its entities gives the string back. */
  lemma {:induction false} EscapeRoundTrip(value: string)
    ensures DecodeEntities(Escape(value)) == Ok(value)
  {
    hide EscapeChar;
    if value != "" {
      EscapeRoundTrip(value[1..]);
      CharDecodes(value[0], Escape(value[1..]));
      assert [value[0]] + value[1..] == value;
    }
  }

  // ---- start tags --------------------------------------------------------------------

  lemma {:induction false} NameEnds(name: string, rest: string)
    requires GoodKey(name) && (rest == "" || EndsName(rest[0]))
    ensures ReadName(name + rest) == Ok(Read(name, rest))
  {
    NameLengthIs(name, rest);
    Front(name, rest);
  }

  lemma {:induction false} NameLengthIs(name: string, rest: string)
    requires forall i :: 0 <= i < |name| ==> !EndsName(name[i])
    requires rest == "" || EndsName(rest[0])
    ensures NameLength(name + rest) == |name|
  {
    hide EndsName;
    if name == "" {
      assert name + rest == rest;
    } else {
      assert (name + rest)[1..] == name[1..] + rest;
      NameLengthIs(name[1..], rest);
    }
  }

  lemma {:induction false} ValueReads(value: string, rest: string)
    ensures ReadAttrValue("'" + Escape(value) + "'" + rest) == Ok(Read(value, rest))
  {
    hide Escape, DecodeEntities;
    var raw := Escape(value);
    var s := "'" + raw + "'" + rest;
    EscapeTame(value);
    EscapeRoundTrip(value);
    assert s[1..] == raw + ['\''] + rest;
    IndexOfBehind(raw, rest, '\'');
    assert s[1..][..|raw|] == raw && s[|raw| + 2..] == rest;
  }

  lemma {:induction false} AttrReads(key: string, value: string, rest: string)
    requires GoodKey(key)
    ensures ReadAttr(key + "='" + Escape(value) + "'" + rest) == Ok(Read((key, value), rest))
  {
    hide Escape, ReadAttrValue, ReadName;
    var quoted := "'" + Escape(value) + "'" + rest;
    var s := key + "='" + Escape(value) + "'" + rest;
    assert s == key + ("=" + quoted);
    NameEnds(key, "=" + quoted);
    assert ("=" + quoted)[1..] == quoted;
    ValueReads(value, rest);
  }

  lemma {:induction false} FirstAttrReads(key: string, value: string, more: string)
    requires GoodKey(key) && ReadTag(more).Ok?
    ensures
      var end := ReadTag(more).value;
      ReadTag(" " + (key + "='" + Escape(value) + "'" + more))
        == Ok(Read(Tag([(key, value)] + end.value.attrs, end.value.empty), end.rest))
  {
    hide ReadAttr, Escape;
    var t := key + "='" + Escape(value) + "'" + more;
    var s := " " + t;
    assert s[1..] == t && t[0] == key[0];
    assert SkipWs(s) == t;
    AttrReads(key, value, more);
  }

  lemma {:induction false} PrintedFirst(key: string, quoted: string, others: string, rest: string)
    ensures " " + key + "='" + quoted + "'" + others + rest == " " + (key + "='" + quoted + "'" + (others + rest))
  {
  }

  /** Attributes printed one after the other are read one after the other. */
  lemma {:induction false} TagReads(attrs: seq<(string, string)>, rest: string)
    requires GoodAttrs(attrs) && ReadTag(rest).Ok?
    ensures
      var end := ReadTag(rest).value;
      ReadTag(PrintAttrs(attrs) + rest) == Ok(Read(Tag(attrs + end.value.attrs, end.value.empty), end.rest))
    decreases |attrs|
  {
    hide ReadTag, Escape, GoodKey;
    var end := ReadTag(rest).value;
    if attrs == [] {
      assert PrintAttrs(attrs) + rest == rest;
      assert attrs + end.value.attrs == end.value.attrs;
    } else {
      TagReads(attrs[1..], rest);
      FirstAttrReads(attrs[0].0, attrs[0].1, PrintAttrs(attrs[1..]) + rest);
      PrintedFirst(attrs[0].0, Escape(attrs[0].1), PrintAttrs(attrs[1..]), rest);
      AttrsJoin(attrs, end.value.attrs);
    }
  }

  lemma {:induction false} AttrsJoin(attrs: seq<(string, string)>, more: seq<(string, string)>)
    requires attrs != []
    ensures [(attrs[0].0, attrs[0].1)] + (attrs[1..] + more) == attrs + more
  {
  }

  // ---- content -----------------------------------------------------------------------

  lemma {:induction false} EndReads(name: string, rest: string)
    requires GoodName(name)
    ensures EndTag(name + ">" + rest, name) == Ok(rest)
  {
    hide ReadName;
    assert name + ">" + rest == name + (">" + rest);
    NameEnds(name, ">" + rest);
    assert (">" + rest)[1..] == rest;
  }

  lemma {:induction false} ContentEnds(e: Element, rest: string, depth: nat)
    requires GoodName(e.name)
    ensures ParseContent("</" + e.name + ">" + rest, e, depth) == Ok(Read(e, rest))
  {
    hide EndTag;
    var s := "</" + e.name + ">" + rest;
    assert s[..2] == "</" && s[2..] == e.name + ">" + rest;
    EndReads(e.name, rest);
  }

  lemma {:induction false} TextLengthIs(t: string, rest: string)
    requires (forall i :: 0 <= i < |t| ==> t[i] != '<') && rest != "" && rest[0] == '<'
    ensures TextLength(t + rest) == |t|
  {
    if t == "" {
      assert t + rest == rest;
    } else {
      assert (t + rest)[1..] == t[1..] + rest;
      TextLengthIs(t[1..], rest);
    }
  }

  lemma {:induction false} TextStep(s: string, e: Element, depth: nat)
    requires s != "" && s[0] != '<' && DecodeEntities(s[..TextLength(s)]).Ok?
    ensures
      var n := TextLength(s);
      ParseContent(s, e, depth) == ParseContent(s[n..], e.(text := e.text + DecodeEntities(s[..n]).value), depth)
  {
    hide DecodeEntities, TextLength, EndTag, SkipPast, Seek, ParseElement;
    assert !StartsWith(s, "</") && !StartsWith(s, "<!--") && !StartsWith(s, CDATA_OPEN);
  }

  /** Escaped text up to the next markup is one piece of text. */
  lemma {:induction false} TextReads(t: string, rest: string, e: Element, depth: nat)
    requires rest != "" && rest[0] == '<'
    ensures ParseContent(Escape(t) + rest, e, depth) == ParseContent(rest, e.(text := e.text + t), depth)
  {
    hide Escape, DecodeEntities, ParseContent, TextLength;
    var raw := Escape(t);
    EscapeTame(t);
    EscapeRoundTrip(t);
    if raw == "" {
      DecodeNone();
      assert raw + rest == rest && e.text + "" == e.text;
    } else {
      TextLengthIs(raw, rest);
      Front(raw, rest);
      TextStep(raw + rest, e, depth);
    }
  }

  lemma {:induction false} UnmarkedDecodes(t: string)
    requires Unmarked(t)
    ensures DecodeEntities(t) == Ok(t)
  {
    if t != "" {
      UnmarkedDecodes(t[1..]);
      assert [t[0]] + t[1..] == t;
    }
  }

  lemma {:induction false} PlainReads(t: string, rest: string, e: Element, depth: nat)
    requires Unmarked(t) && rest != "" && rest[0] == '<'
    ensures ParseContent(t + rest, e, depth) == ParseContent(rest, e.(text := e.text + t), depth)
  {
    hide DecodeEntities, ParseContent, TextLength;
    UnmarkedDecodes(t);
    if t == "" {
      assert t + rest == rest && e.text + "" == e.text;
    } else {
      TextLengthIs(t, rest);
      Front(t, rest);
      TextStep(t + rest, e, depth);
    }
  }

  lemma {:induction false} DecodeNone()
    ensures DecodeEntities("") == Ok("")
  {
  }

  /** A section that does not hold its own end ends where it was closed. */
  lemma {:induction false} SeekClose(raw: string, rest: string)
    requires Free(raw)
    ensures Seek(raw + CDATA_CLOSE + rest, CDATA_CLOSE) == Some(|raw|)
  {
    var s := raw + CDATA_CLOSE + rest;
    if raw == "" {
      assert s[..3] == CDATA_CLOSE;
    } else {
      if |raw| >= 3 {
        assert s[..3] == raw[..3];
      } else if |raw| == 2 {
        assert s[2] == ']';
      } else {
        assert s[2] == ']';
      }
      assert s[..3] != CDATA_CLOSE;
      assert s[1..] == raw[1..] + CDATA_CLOSE + rest;
      SeekClose(raw[1..], rest);
    }
  }

  lemma {:induction false} CdataReads(raw: string, rest: string, e: Element, depth: nat)
    requires Free(raw)
    ensures ParseContent(CDATA_OPEN + raw + CDATA_CLOSE + rest, e, depth)
         == ParseContent(rest, e.(text := e.text + raw), depth)
  {
    hide Seek, ParseElement, DecodeEntities, TextLength, EndTag, SkipPast;
    var s := CDATA_OPEN + raw + CDATA_CLOSE + rest;
    var body := raw + CDATA_CLOSE + rest;
    assert s == CDATA_OPEN + body;
    Front(CDATA_OPEN, body);
    SeekClose(raw, rest);
    assert body[..|raw|] == raw && body[|raw| + 3..] == rest;
    assert s[..9] == CDATA_OPEN && s[1] == '!' && s[2] == '[';
  }

  lemma {:induction false} ChildReads(printed: string, m: Element, rest: string, e: Element, depth: nat)
    requires |printed| > 1 && printed[0] == '<' && printed[1] != '/' && printed[1] != '!'
    requires ParseElement(printed + rest, depth + 1) == Ok(Read(m, rest))
    ensures ParseContent(printed + rest, e, depth) == ParseContent(rest, e.(children := e.children + [m]), depth)
  {
    hide ParseElement, DecodeEntities, TextLength, EndTag, SkipPast, Seek;
    var s := printed + rest;
    assert s[0] == '<' && s[1] == printed[1];
    assert !StartsWith(s, "</") && !StartsWith(s, "<!--") && !StartsWith(s, CDATA_OPEN);
  }

  // ---- whole documents ---------------------------------------------------------------

  /** The element once its content has been read. */
  function Filled(e: Element, content: Content): Element
  {
    e.(children := e.children + Children(content), text := e.text + Words(content))
  }

  lemma {:induction false} PrintShape(doc: Doc, depth: nat, tail: string)
    requires GoodDoc(doc, depth)
    ensures
      var p := Print(doc);
      |p| > 1 && p[0] == '<' && p[1] == doc.name[0] && p[1] != '/' && p[1] != '!' && p[1] != '?'
  {
    assert !EndsName(doc.name[0]);
  }

  lemma {:induction false} ContentStarts(content: Content, name: string, tail: string, depth: nat)
    requires GoodContent(content, depth) && !content.Text? && !content.Plain?
    ensures
      var s := PrintContent(content) + ("</" + name + ">" + tail);
      s != "" && s[0] == '<'
  {
    match content
    case Nothing =>
    case Cdata(raw, rest) =>
    case Child(doc, rest) => PrintShape(doc, depth + 1, tail);
  }

  /** Content reads back piece by piece, up to the end tag. */
  lemma {:induction false} ContentRoundTrip(content: Content, e: Element, tail: string, depth: nat)
    requires GoodContent(content, depth) && GoodName(e.name)
    ensures ParseContent(PrintContent(content) + ("</" + e.name + ">" + tail), e, depth)
         == Ok(Read(Filled(e, content), tail))
    decreases content
  {
    hide ParseContent, ParseElement, Print, Meaning, Escape, GoodName, Free, Unmarked;
    var end := "</" + e.name + ">" + tail;
    match content
    case Nothing =>
      ContentEnds(e, tail, depth);
      assert PrintContent(content) + end == end;
      assert Filled(e, content) == e;
    case Text(t, rest) =>
      var e' := e.(text := e.text + t);
      ContentRoundTrip(rest, e', tail, depth);
      ContentStarts(rest, e.name, tail, depth);
      TextReads(t, PrintContent(rest) + end, e, depth);
      Associate(Escape(t), PrintContent(rest), end);
      Associate(e.text, t, Words(rest));
    case Plain(t, rest) =>
      var e' := e.(text := e.text + t);
      ContentRoundTrip(rest, e', tail, depth);
      ContentStarts(rest, e.name, tail, depth);
      PlainReads(t, PrintContent(rest) + end, e, depth);
      Associate(t, PrintContent(rest), end);
      Associate(e.text, t, Words(rest));
    case Cdata(raw, rest) =>
      var e' := e.(text := e.text + raw);
      ContentRoundTrip(rest, e', tail, depth);
      CdataReads(raw, PrintContent(rest) + end, e, depth);
      Associate(CDATA_OPEN + raw + CDATA_CLOSE, PrintContent(rest), end);
      Associate(e.text, raw, Words(rest));
    case Child(doc, rest) =>
      var e' := e.(children := e.children + [Meaning(doc)]);
      ContentRoundTrip(rest, e', tail, depth);
      DocRoundTrip(doc, PrintContent(rest) + end, depth + 1);
      PrintShape(doc, depth + 1, tail);
      ChildReads(Print(doc), Meaning(doc), PrintContent(rest) + end, e, depth);
      Associate(Print(doc), PrintContent(rest), end);
      assert (e.children + [Meaning(doc)]) + Children(rest) == e.children + ([Meaning(doc)] + Children(rest));
  }

  /** How a start tag and what follows it are read. */
  lemma {:induction false} ElementReads(name: string, attrs: seq<(string, string)>, rest: string, depth: nat)
    requires depth <= MAX_DEPTH && GoodName(name) && GoodAttrs(attrs) && ReadTag(rest).Ok?
    requires ReadTag(rest).value.value.attrs == [] && rest != "" && EndsName(rest[0])
    ensures
      var tag := ReadTag(rest).value;
      var e := Element(name, attrs, [], "");
      ParseElement("<" + name + PrintAttrs(attrs) + rest, depth)
        == if tag.value.empty then Ok(Read(e, tag.rest)) else ParseContent(tag.rest, e, depth)
  {
    hide ReadTag, ReadName, ParseContent, PrintAttrs;
    var s := "<" + name + PrintAttrs(attrs) + rest;
    var more := PrintAttrs(attrs) + rest;
    assert s[1..] == name + more;
    AttrsStart(attrs, rest);
    NameEnds(name, more);
    TagReads(attrs, rest);
    assert attrs + [] == attrs;
  }

  lemma {:induction false} AttrsStart(attrs: seq<(string, string)>, rest: string)
    requires rest != "" && EndsName(rest[0])
    ensures
      var s := PrintAttrs(attrs) + rest;
      s != "" && EndsName(s[0])
  {
  }

  lemma {:induction false} TagEnds(rest: string)
    ensures ReadTag(" />" + rest) == Ok(Read(Tag([], true), rest))
    ensures ReadTag(">" + rest) == Ok(Read(Tag([], false), rest))
  {
    hide ReadAttr;
    var s := " />" + rest;
    assert s[1..] == "/>" + rest && ("/>" + rest)[1..] == ">" + rest && (">" + rest)[1..] == rest;
    assert SkipWs(s) == "/>" + rest;
    assert SkipWs(">" + rest) == ">" + rest;
  }

  /** Every good document, printed and read, is what it means, whatever follows it. */
  lemma {:induction false} DocRoundTrip(doc: Doc, tail: string, depth: nat)
    requires GoodDoc(doc, depth)
    ensures ParseElement(Print(doc) + tail, depth) == Ok(Read(Meaning(doc), tail))
    decreases doc
  {
    hide ParseElement, ParseContent, PrintAttrs, PrintContent, ReadTag, GoodName;
    var start := "<" + doc.name + PrintAttrs(doc.attrs);
    match doc.body
    case None =>
      TagEnds(tail);
      ElementReads(doc.name, doc.attrs, " />" + tail, depth);
      Associate(start, " />", tail);
    case Some(content) =>
      var end := "</" + doc.name + ">" + tail;
      var rest := PrintContent(content) + end;
      TagEnds(rest);
      ElementReads(doc.name, doc.attrs, ">" + rest, depth);
      ContentRoundTrip(content, Element(doc.name, doc.attrs, [], ""), tail, depth);
      assert Print(doc) + tail == start + (">" + rest);
      assert [] + Children(content) == Children(content) && "" + Words(content) == Words(content);
  }

  /** A whole document, with or without a line end behind it. */
  lemma {:induction false} ParseRoundTrip(doc: Doc, tail: string)
    requires GoodDoc(doc, 0) && (tail == "" || tail == "\r\n")
    ensures Parse(Print(doc) + tail) == Ok(Meaning(doc))
  {
    hide ParseElement, Print, Meaning;
    DocRoundTrip(doc, tail, 0);
    PrintShape(doc, 0, tail);
    PrologNone(Print(doc) + tail);
    PrologEnd(tail);
  }

  lemma {:induction false} PrologNone(s: string)
    requires |s| > 1 && s[0] == '<' && s[1] != '!' && s[1] != '?'
    ensures SkipProlog(s) == Ok(s)
  {
  }

  lemma {:induction false} PrologEnd(tail: string)
    requires tail == "" || tail == "\r\n"
    ensures SkipProlog(tail) == Ok("")
  {
    if tail != "" {
      assert tail[1..] == "\n" && "\n"[1..] == "";
      assert SkipWs(tail) == "";
    }
  }
}
