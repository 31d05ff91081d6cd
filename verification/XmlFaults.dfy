/** What the XML reader refuses, and by what fault: documents that are not well formed, nested too deep, or followed by more. */
module XmlFaults {
  import opened Octets
  import opened Xml
  import opened XmlLaws

  // ---- entities ----------------------------------------------------------------------

  /** The five entities, by name. */
  lemma {:induction false} NamedEntities(name: string, c: char, rest: string)
    requires Named(name, c)
    ensures Escape([c] + rest) == "&" + name + ";" + Escape(rest)
    ensures
      var more := DecodeEntities(rest);
      DecodeEntities("&" + name + ";" + rest) == if more.Failed? then more else Ok([c] + more.value)
  {
    hide DecodeEntities, EscapeChar;
    assert ([c] + rest)[1..] == rest;
    EscapedName(c);
    EntityDecodes(name, c, rest);
  }

  predicate Named(name: string, c: char)
  {
    || (name == "amp" && c == '&') || (name == "lt" && c == '<') || (name == "gt" && c == '>')
    || (name == "apos" && c == '\'') || (name == "quot" && c == '"')
  }

  /** Any other name is refused, unless it is a numeric reference; and so is one that does not end within twelve characters. */
  lemma {:induction false} OtherEntities(name: string, rest: string)
    requires (forall i :: 0 <= i < |name| ==> name[i] != ';') && (name == "" || name[0] != '#') && (forall c: char :: !Named(name, c))
    ensures |name| < 12 ==> DecodeEntities("&" + name + ";" + rest) == Failed(UnsupportedEntity)
    ensures |name| >= 12 ==> DecodeEntities("&" + name + rest) == Failed(UnterminatedEntity)
  {
    assert !Named(name, '&') && !Named(name, '<') && !Named(name, '>') && !Named(name, '\'') && !Named(name, '"');
    assert Entity(name).None?;
    if |name| < 12 {
      var tail := ("&" + name + ";" + rest)[1..];
      assert tail == name + [';'] + rest;
      var w := tail[..Min(|tail|, MAX_ENTITY_LEN)];
      assert w == name + [';'] + w[|name| + 1..];
      IndexOfBehind(name, w[|name| + 1..], ';');
      assert tail[..|name|] == name;
    } else {
      var tail := ("&" + name + rest)[1..];
      assert tail == name + rest && tail[..12] == name[..12];
      NotFound(tail[..12], ';');
    }
  }

  lemma {:induction false} NotFound(s: string, c: char)
    requires forall i :: 0 <= i < |s| ==> s[i] != c
    ensures IndexOf(s, c).None?
  {
    if s != "" {
      NotFound(s[1..], c);
    }
  }

  // ---- numeric references ------------------------------------------------------------

  function HexDigit(d: nat): char
    requires d < 16
  {
    if d < 10 then '0' + d as char else 'a' + (d - 10) as char
  }

  /** Hexadecimal digits, most significant first. */
  function Hex(v: nat): string
  {
    if v < 16 then [HexDigit(v)] else Hex(v / 16) + [HexDigit(v % 16)]
  }

  lemma {:induction false} HexDigits(v: nat)
    ensures Hex(v) != "" && forall i :: 0 <= i < |Hex(v)| ==> ('0' <= Hex(v)[i] <= '9' || 'a' <= Hex(v)[i] <= 'f')
  {
    if v >= 16 {
      HexDigits(v / 16);
    }
  }

  lemma {:induction false} HexSnoc(value: nat, s: string, d: char)
    requires value < MODULUS
    ensures
      var r := ParseRadix(value, s, 16);
      ParseRadix(value, s + [d], 16) == if r.None? then None else ParseRadix(r.value, [d], 16)
    decreases |s|
  {
    if s == "" {
      assert s + [d] == [d];
    } else {
      assert (s + [d])[0] == s[0] && (s + [d])[1..] == s[1..] + [d];
      var v := DigitValue(s[0]);
      if v < 16 && value * 16 + v < MODULUS {
        HexSnoc(value * 16 + v, s[1..], d);
      }
    }
  }

  lemma {:induction false} HexWorth(v: nat)
    requires v < MODULUS
    ensures ParseRadix(0, Hex(v), 16) == Some(v)
  {
    var d := HexDigit(v % 16);
    assert DigitValue(d) == v % 16 && [d][1..] == "";
    if v >= 16 {
      HexWorth(v / 16);
      HexSnoc(0, Hex(v / 16), d);
    }
  }

  lemma {:induction false} HexShort(v: nat)
    requires v < 0x100_0000
    ensures |Hex(v)| <= 6
  {
    assert v / 16 < 0x10_0000 && v / 16 / 16 < 0x1_0000 && v / 16 / 16 / 16 < 0x1000;
    assert v / 16 / 16 / 16 / 16 < 0x100 && v / 16 / 16 / 16 / 16 / 16 < 0x10;
    HexLength(v / 16 / 16 / 16 / 16 / 16, 1);
    HexLength(v / 16 / 16 / 16 / 16, 2);
    HexLength(v / 16 / 16 / 16, 3);
    HexLength(v / 16 / 16, 4);
    HexLength(v / 16, 5);
    HexLength(v, 6);
  }

  lemma {:induction false} HexLength(v: nat, k: nat)
    requires k > 0 && (v < 16 || (k > 1 && |Hex(v / 16)| <= k - 1))
    ensures |Hex(v)| <= k
  {
  }

  /** A hexadecimal reference, its mark in either case, expands to its character; one to no character is refused. */
  lemma {:induction false} HexReferenceDecodes(v: nat, x: char, rest: string)
    requires v < 0x100_0000 && (x == 'x' || x == 'X')
    ensures
      var more := DecodeEntities(rest);
      DecodeEntities("&" + ("#" + [x] + Hex(v)) + ";" + rest) ==
        if v >= 0x11_0000 || 0xD800 <= v < 0xE000 then Failed(UnsupportedEntity)
        else if more.Failed? then more else Ok([v as char] + more.value)
  {
    hide DecodeEntities, Hex, ParseRadix;
    var name := "#" + [x] + Hex(v);
    HexDigits(v);
    HexWorth(v);
    HexShort(v);
    assert name[1..] == [x] + Hex(v) && ([x] + Hex(v))[1..] == Hex(v) && Hex(v)[0] != '+';
    if IsScalar(v) {
      assert Entity(name) == Some(v as char);
      EntityDecodes(name, v as char, rest);
    } else {
      assert Entity(name) == None;
      EntityRefused(name, rest);
    }
  }

  lemma {:induction false} EntityRefused(name: string, rest: string)
    requires |name| < MAX_ENTITY_LEN && Entity(name) == None && forall i :: 0 <= i < |name| ==> name[i] != ';'
    ensures DecodeEntities("&" + name + ";" + rest) == Failed(UnsupportedEntity)
  {
    hide Entity;
    var tail := ("&" + name + ";" + rest)[1..];
    assert tail == name + [';'] + rest;
    var w := tail[..Min(|tail|, MAX_ENTITY_LEN)];
    assert w == name + [';'] + w[|name| + 1..];
    IndexOfBehind(name, w[|name| + 1..], ';');
    assert tail[..|name|] == name;
  }

  // ---- other spellings ---------------------------------------------------------------

  ghost predicate White(w: string)
  {
    forall i :: 0 <= i < |w| ==> w[i] == ' ' || w[i] == '\t' || w[i] == '\r' || w[i] == '\n'
  }

  lemma {:induction false} WhiteSkipped(w: string, s: string)
    requires White(w) && (s == "" || !IsWs(s[0]))
    ensures SkipWs(w + s) == s
  {
    if w == "" {
      assert w + s == s;
    } else {
      assert (w + s)[1..] == w[1..] + s;
      WhiteSkipped(w[1..], s);
    }
  }

  /** An attribute may have white space around its equals sign, and either quote around its value. */
  lemma {:induction false} AttrSpellings(key: string, value: string, before: string, behind: string, q: char, rest: string)
    requires GoodKey(key) && White(before) && White(behind) && (q == '"' || q == '\'')
    ensures ReadAttr(key + (before + ("=" + (behind + ([q] + Escape(value) + [q] + rest))))) == Ok(Read((key, value), rest))
  {
    hide Escape, DecodeEntities, ReadName;
    var quoted := [q] + Escape(value) + [q] + rest;
    var eq := "=" + (behind + quoted);
    WhiteSkipped(before, eq);
    WhiteSkipped(behind, quoted);
    WhiteStart(before, eq);
    NameEnds(key, before + eq);
    assert eq[1..] == behind + quoted;
    EscapeTame(value);
    EscapeRoundTrip(value);
    assert quoted[1..] == Escape(value) + [q] + rest;
    IndexOfBehind(Escape(value), rest, q);
    assert quoted[1..][..|Escape(value)|] == Escape(value) && quoted[|Escape(value)| + 2..] == rest;
  }

  lemma {:induction false} WhiteStart(w: string, s: string)
    requires White(w) && s != "" && EndsName(s[0])
    ensures w + s != "" && EndsName((w + s)[0])
  {
  }

  /** An end tag may have white space behind its name. */
  lemma {:induction false} EndSpellings(name: string, w: string, rest: string)
    requires GoodName(name) && White(w)
    ensures EndTag(name + (w + (">" + rest)), name) == Ok(rest)
  {
    hide ReadName;
    WhiteSkipped(w, ">" + rest);
    WhiteStart(w, ">" + rest);
    NameEnds(name, w + (">" + rest));
    assert (">" + rest)[1..] == rest;
  }

  /** A comment in content is nothing. */
  lemma {:induction false} CommentInContent(x: string, s: string, e: Element, depth: nat)
    requires Seek("<!--" + x + "--", "-->").None?
    ensures ParseContent("<!--" + x + "-->" + s, e, depth) == ParseContent(s, e, depth)
  {
    hide ParseElement, EndTag;
    var t := "<!--" + x + "-->" + s;
    assert "-->"[..2] == "--";
    SeekAtEnd("<!--" + x, "-->", s);
    assert t[|"<!--" + x| + 3..] == s;
    assert StartsWith(t, "<!--") && !StartsWith(t, "</") by {
      assert t[..4] == "<!--" && t[1] == '!';
    }
  }

  // ---- end tags ----------------------------------------------------------------------

  /** An element begun as `name`, with good content, and then `end`. */
  function Begun(name: string, attrs: seq<(string, string)>, content: Content, end: string): string
  {
    "<" + name + PrintAttrs(attrs) + (">" + (PrintContent(content) + end))
  }

  /** Content that is not ended is read up to where it should end, and then as what is there. */
  lemma {:induction false} ContentUpTo(content: Content, e: Element, end: string, depth: nat)
    requires GoodContent(content, depth) && end != "" && end[0] == '<'
    ensures ParseContent(PrintContent(content) + end, e, depth) == ParseContent(end, Filled(e, content), depth)
    decreases content
  {
    hide ParseContent, ParseElement, Print, Meaning, Escape, Free, Unmarked;
    match content
    case Nothing =>
      assert PrintContent(content) + end == end && Filled(e, content) == e;
    case Text(t, rest) =>
      ContentUpTo(rest, e.(text := e.text + t), end, depth);
      StartsMarkup(rest, end, depth);
      TextReads(t, PrintContent(rest) + end, e, depth);
      Associate(Escape(t), PrintContent(rest), end);
      Associate(e.text, t, Words(rest));
    case Plain(t, rest) =>
      ContentUpTo(rest, e.(text := e.text + t), end, depth);
      StartsMarkup(rest, end, depth);
      PlainReads(t, PrintContent(rest) + end, e, depth);
      Associate(t, PrintContent(rest), end);
      Associate(e.text, t, Words(rest));
    case Cdata(raw, rest) =>
      ContentUpTo(rest, e.(text := e.text + raw), end, depth);
      CdataReads(raw, PrintContent(rest) + end, e, depth);
      Associate(CDATA_OPEN + raw + CDATA_CLOSE, PrintContent(rest), end);
      Associate(e.text, raw, Words(rest));
    case Child(doc, rest) =>
      ContentUpTo(rest, e.(children := e.children + [Meaning(doc)]), end, depth);
      DocRoundTrip(doc, PrintContent(rest) + end, depth + 1);
      PrintShape(doc, depth + 1, end);
      ChildReads(Print(doc), Meaning(doc), PrintContent(rest) + end, e, depth);
      Associate(Print(doc), PrintContent(rest), end);
      assert (e.children + [Meaning(doc)]) + Children(rest) == e.children + ([Meaning(doc)] + Children(rest));
  }

  lemma {:induction false} StartsMarkup(content: Content, end: string, depth: nat)
    requires GoodContent(content, depth) && !content.Text? && !content.Plain? && end != "" && end[0] == '<'
    ensures PrintContent(content) + end != "" && (PrintContent(content) + end)[0] == '<'
  {
    match content
    case Nothing =>
    case Cdata(raw, rest) =>
    case Child(doc, rest) => PrintShape(doc, depth + 1, end);
  }

  lemma {:induction false} BegunReads(name: string, attrs: seq<(string, string)>, content: Content, end: string)
    requires GoodName(name) && GoodAttrs(attrs) && GoodContent(content, 0) && end != "" && end[0] == '<'
    ensures
      ParseElement(Begun(name, attrs, content, end), 0) == ParseContent(end, Filled(Element(name, attrs, [], ""), content), 0)
  {
    hide ParseElement, ParseContent, PrintAttrs, PrintContent, ReadTag, GoodName;
    var rest := PrintContent(content) + end;
    TagEnds(rest);
    ElementReads(name, attrs, ">" + rest, 0);
    ContentUpTo(content, Element(name, attrs, [], ""), end, 0);
  }

  /** An element has to be ended under its own name. */
  lemma {:induction false} MismatchRefused(name: string, attrs: seq<(string, string)>, content: Content, other: string, tail: string)
    requires GoodName(name) && GoodAttrs(attrs) && GoodContent(content, 0) && GoodName(other) && other != name
    ensures Parse(Begun(name, attrs, content, "</" + other + ">" + tail)) == Failed(MismatchedEnd)
  {
    hide ParseElement, ReadName, PrintAttrs, PrintContent, GoodContent, Filled;
    var end := "</" + other + ">" + tail;
    BegunReads(name, attrs, content, end);
    assert end[2..] == other + (">" + tail) && StartsWith(end, "</");
    NameEnds(other, ">" + tail);
    assert (">" + tail)[0] == '>' && !IsWs('>');
    assert EndTag(end[2..], name) == Failed(MismatchedEnd);
    FilledName(Element(name, attrs, [], ""), content);
    BegunProlog(name, attrs, content, end);
  }

  lemma {:induction false} FilledName(e: Element, content: Content)
    ensures Filled(e, content).name == e.name
  {
  }

  lemma {:induction false} BegunProlog(name: string, attrs: seq<(string, string)>, content: Content, end: string)
    requires GoodName(name)
    ensures SkipProlog(Begun(name, attrs, content, end)) == Ok(Begun(name, attrs, content, end))
  {
    hide PrintAttrs, PrintContent;
    var s := Begun(name, attrs, content, end);
    assert s[0] == '<' && s[1] == name[0];
    assert !EndsName(name[0]);
    PrologNone(s);
  }

  // ---- start tags and content that break off -----------------------------------------

  /** Attributes that are right change nothing about what is wrong behind them. */
  lemma {:induction false} TagFails(attrs: seq<(string, string)>, rest: string, f: Fault)
    requires GoodAttrs(attrs) && ReadTag(rest) == Failed(f)
    ensures ReadTag(PrintAttrs(attrs) + rest) == Failed(f)
    decreases |attrs|
  {
    hide ReadAttr, Escape, GoodKey;
    if attrs == [] {
      assert PrintAttrs(attrs) + rest == rest;
    } else {
      var (key, value) := attrs[0];
      var more := PrintAttrs(attrs[1..]) + rest;
      TagFails(attrs[1..], rest, f);
      var t := key + "='" + Escape(value) + "'" + more;
      AttrReads(key, value, more);
      PrintedFirst(key, Escape(value), PrintAttrs(attrs[1..]), rest);
      KeyFront(key);
      assert (" " + t)[1..] == t && t[0] == key[0];
      assert SkipWs(" " + t) == t;
    }
  }

  lemma {:induction false} KeyFront(key: string)
    requires GoodKey(key)
    ensures key != "" && !IsWs(key[0]) && key[0] != '/' && key[0] != '>'
  {
    assert !EndsName(key[0]);
  }

  lemma {:induction false} ElementFails(name: string, attrs: seq<(string, string)>, rest: string, f: Fault)
    requires GoodName(name) && GoodAttrs(attrs) && ReadTag(rest) == Failed(f) && (attrs != [] || rest == "" || EndsName(rest[0]))
    ensures Parse("<" + name + PrintAttrs(attrs) + rest) == Failed(f)
  {
    hide ReadTag, ReadName, ParseContent, PrintAttrs, GoodName;
    var s := "<" + name + PrintAttrs(attrs) + rest;
    var more := PrintAttrs(attrs) + rest;
    assert s[1..] == name + more;
    TagFails(attrs, rest, f);
    AttrsFront(attrs, rest);
    NameGood(name);
    NameEnds(name, more);
    assert s[0] == '<' && s[1] == name[0];
    PrologNone(s);
  }

  lemma {:induction false} NameGood(name: string)
    requires GoodName(name)
    ensures GoodKey(name) && name != "" && name[0] != '!' && name[0] != '?'
  {
  }

  lemma {:induction false} AttrsFront(attrs: seq<(string, string)>, rest: string)
    requires attrs != [] || rest == "" || EndsName(rest[0])
    ensures var more := PrintAttrs(attrs) + rest; more == "" || EndsName(more[0])
  {
    hide Escape;
    if attrs == [] {
      assert PrintAttrs(attrs) + rest == rest;
    } else {
      assert PrintAttrs(attrs)[0] == ' ';
    }
  }

  /** What is named when a start tag breaks off: after its attributes, or within one. */
  lemma {:induction false} TagsBrokenOff(name: string, attrs: seq<(string, string)>, key: string, x: string)
    requires GoodName(name) && GoodAttrs(attrs) && GoodKey(key)
    ensures Parse("<" + name + PrintAttrs(attrs)) == Failed(UnterminatedTag)
    ensures x == "" || x[0] != '>' ==> Parse("<" + name + PrintAttrs(attrs) + ("/" + x)) == Failed(Expected('>'))
    ensures x == "" || (EndsName(x[0]) && !IsWs(x[0]) && x[0] != '=') ==>
      Parse("<" + name + PrintAttrs(attrs) + (" " + (key + x))) == Failed(Expected('='))
    ensures x == "" || (!IsWs(x[0]) && x[0] != '"' && x[0] != '\'') ==>
      Parse("<" + name + PrintAttrs(attrs) + (" " + (key + ("=" + x)))) == Failed(NotQuoted)
    ensures '\'' !in x ==> Parse("<" + name + PrintAttrs(attrs) + (" " + (key + ("='" + x)))) == Failed(UnterminatedValue)
  {
    hide Parse, PrintAttrs, ReadTag, GoodName, GoodKey, GoodAttrs;
    var start := "<" + name + PrintAttrs(attrs);
    assert start + "" == start;
    EmptyTag();
    ElementFails(name, attrs, "", UnterminatedTag);
    if x == "" || x[0] != '>' {
      SlashTag(x);
      ElementFails(name, attrs, "/" + x, Expected('>'));
    }
    if x == "" || (EndsName(x[0]) && !IsWs(x[0]) && x[0] != '=') {
      KeyTag(key, x);
      ElementFails(name, attrs, " " + (key + x), Expected('='));
    }
    if x == "" || (!IsWs(x[0]) && x[0] != '"' && x[0] != '\'') {
      BareTag(key, x);
      ElementFails(name, attrs, " " + (key + ("=" + x)), NotQuoted);
    }
    if '\'' !in x {
      OpenTag(key, x);
      ElementFails(name, attrs, " " + (key + ("='" + x)), UnterminatedValue);
    }
  }

  lemma {:induction false} EmptyTag()
    ensures ReadTag("") == Failed(UnterminatedTag)
  {
  }

  lemma {:induction false} SlashTag(x: string)
    requires x == "" || x[0] != '>'
    ensures ReadTag("/" + x) == Failed(Expected('>'))
  {
    assert ("/" + x)[1..] == x && SkipWs("/" + x) == "/" + x;
  }

  lemma {:induction false} KeyTag(key: string, x: string)
    requires GoodKey(key) && (x == "" || (EndsName(x[0]) && !IsWs(x[0]) && x[0] != '='))
    ensures ReadTag(" " + (key + x)) == Failed(Expected('='))
  {
    hide ReadName, GoodKey;
    KeyFront(key);
    var t := key + x;
    assert (" " + t)[1..] == t && SkipWs(" " + t) == t;
    NameEnds(key, x);
    assert SkipWs(x) == x;
  }

  lemma {:induction false} BareTag(key: string, x: string)
    requires GoodKey(key) && (x == "" || (!IsWs(x[0]) && x[0] != '"' && x[0] != '\''))
    ensures ReadTag(" " + (key + ("=" + x))) == Failed(NotQuoted)
  {
    hide ReadName, GoodKey;
    KeyFront(key);
    var t := key + ("=" + x);
    assert (" " + t)[1..] == t && SkipWs(" " + t) == t;
    NameEnds(key, "=" + x);
    assert ("=" + x)[1..] == x && SkipWs("=" + x) == "=" + x && SkipWs(x) == x;
  }

  lemma {:induction false} OpenTag(key: string, x: string)
    requires GoodKey(key) && '\'' !in x
    ensures ReadTag(" " + (key + ("='" + x))) == Failed(UnterminatedValue)
  {
    hide ReadName, GoodKey;
    KeyFront(key);
    var t := key + ("='" + x);
    var quoted := "'" + x;
    assert (" " + t)[1..] == t && SkipWs(" " + t) == t;
    assert "='" + x == "=" + quoted;
    NameEnds(key, "=" + quoted);
    assert ("=" + quoted)[1..] == quoted && SkipWs("=" + quoted) == "=" + quoted && SkipWs(quoted) == quoted;
    assert quoted[1..] == x;
    NotFound(x, '\'');
  }

  /** A tag needs a name. */
  lemma {:induction false} NameNeeded(c: char, x: string)
    requires EndsName(c)
    ensures Parse("<" + ([c] + x)) == Failed(ExpectedName)
  {
    var s := "<" + ([c] + x);
    assert s[1..] == [c] + x && NameLength([c] + x) == 0;
    PrologNone(s);
  }

  /** What is named when content breaks off: with nothing, in a section, in a comment. */
  lemma {:induction false} ContentBrokenOff(name: string, attrs: seq<(string, string)>, content: Content, x: string)
    requires GoodName(name) && GoodAttrs(attrs) && GoodContent(content, 0)
    ensures Seek(x, "]]>").None? ==> Parse(Begun(name, attrs, content, "<![CDATA[" + x)) == Failed(UnterminatedDeclaration)
    ensures Seek("<!--" + x, "-->").None? ==> Parse(Begun(name, attrs, content, "<!--" + x)) == Failed(UnterminatedDeclaration)
    ensures Parse(Begun(name, attrs, content, "<")) == Failed(ExpectedName)
  {
    hide ParseContent, ParseElement, PrintContent, PrintAttrs, GoodContent, Filled, GoodName;
    var e := Filled(Element(name, attrs, [], ""), content);
    var cdata, comment := "<![CDATA[" + x, "<!--" + x;
    BegunReads(name, attrs, content, cdata);
    BegunReads(name, attrs, content, comment);
    BegunReads(name, attrs, content, "<");
    BegunProlog(name, attrs, content, cdata);
    BegunProlog(name, attrs, content, comment);
    BegunProlog(name, attrs, content, "<");
    if Seek(x, "]]>").None? {
      OpenSection(x, e);
    }
    if Seek(comment, "-->").None? {
      OpenComment(x, e);
    }
    OpenElement(e);
  }

  lemma {:induction false} OpenSection(x: string, e: Element)
    requires Seek(x, "]]>").None?
    ensures ParseContent("<![CDATA[" + x, e, 0) == Failed(UnterminatedDeclaration)
  {
    hide ParseElement, EndTag, Seek;
    var s := "<![CDATA[" + x;
    assert s[..9] == CDATA_OPEN && s[9..] == x;
    assert !StartsWith(s, "</") && !StartsWith(s, "<!--") by {
      assert s[1] == '!' && s[2] == '[';
    }
  }

  lemma {:induction false} OpenComment(x: string, e: Element)
    requires Seek("<!--" + x, "-->").None?
    ensures ParseContent("<!--" + x, e, 0) == Failed(UnterminatedDeclaration)
  {
    hide ParseElement, EndTag, Seek;
    var s := "<!--" + x;
    assert s[..4] == "<!--" && !StartsWith(s, "</") by {
      assert s[1] == '!';
    }
  }

  lemma {:induction false} OpenElement(e: Element)
    ensures ParseContent("<", e, 0) == Failed(ExpectedName)
  {
    assert "<"[1..] == "" && NameLength("") == 0;
    assert ParseElement("<", 1) == Failed(ExpectedName);
  }

  // ---- nesting -----------------------------------------------------------------------

  /** `k` elements around an empty one. */
  function Tower(name: string, k: nat): Doc
  {
    if k == 0 then Doc(name, [], None) else Doc(name, [], Some(Child(Tower(name, k - 1), Nothing)))
  }

  lemma {:induction false} TowerGood(name: string, k: nat, depth: nat)
    requires GoodName(name) && depth + k <= 32
    ensures GoodDoc(Tower(name, k), depth)
  {
    hide GoodName;
    if k > 0 {
      TowerGood(name, k - 1, depth + 1);
      assert GoodContent(Child(Tower(name, k - 1), Nothing), depth);
    }
  }

  lemma {:induction false} TowerShape(name: string, k: nat)
    requires GoodName(name)
    ensures
      var p := Print(Tower(name, k));
      |p| > 1 && p[0] == '<' && p[1] == name[0] && p[1] != '/' && p[1] != '!' && p[1] != '?'
  {
    assert !EndsName(name[0]);
  }

  lemma {:induction false} TowerTooDeep(name: string, k: nat, tail: string, depth: nat)
    requires GoodName(name) && depth + k > 32
    ensures ParseElement(Print(Tower(name, k)) + tail, depth) == Failed(TooDeep)
    decreases k
  {
    hide GoodName, Print, ParseElement;
    if depth <= 32 {
      TowerTooDeep(name, k - 1, "</" + name + ">" + tail, depth + 1);
      TowerStep(name, k, tail, depth);
    } else {
      DeepFails(Print(Tower(name, k)) + tail, depth);
    }
  }

  lemma {:induction false} DeepFails(s: string, depth: nat)
    requires depth > 32
    ensures ParseElement(s, depth) == Failed(TooDeep)
  {
  }

  lemma {:induction false} TowerStep(name: string, k: nat, tail: string, depth: nat)
    requires GoodName(name) && k > 0 && depth <= 32
    requires ParseElement(Print(Tower(name, k - 1)) + ("</" + name + ">" + tail), depth + 1) == Failed(TooDeep)
    ensures ParseElement(Print(Tower(name, k)) + tail, depth) == Failed(TooDeep)
  {
    hide GoodName, ReadTag, PrintAttrs, Print, ParseElement, ParseContent, Tower;
    var rest := Print(Tower(name, k - 1)) + ("</" + name + ">" + tail);
    TowerShape(name, k - 1);
    TowerPrints(name, k, tail);
    TagEnds(rest);
    ElementReads(name, [], ">" + rest, depth);
    ChildFails(rest, Element(name, [], [], ""), depth);
  }

  lemma {:induction false} TowerPrints(name: string, k: nat, tail: string)
    requires k > 0
    ensures Print(Tower(name, k)) + tail == "<" + name + PrintAttrs([]) + (">" + (Print(Tower(name, k - 1)) + ("</" + name + ">" + tail)))
  {
    var inner := Print(Tower(name, k - 1));
    assert PrintContent(Child(Tower(name, k - 1), Nothing)) == inner + "";
    assert Print(Tower(name, k)) == "<" + name + PrintAttrs([]) + (">" + (inner + "") + "</" + name + ">");
  }

  lemma {:induction false} ChildFails(s: string, e: Element, depth: nat)
    requires |s| > 1 && s[0] == '<' && s[1] != '/' && s[1] != '!' && ParseElement(s, depth + 1) == Failed(TooDeep)
    ensures ParseContent(s, e, depth) == Failed(TooDeep)
  {
    hide ParseElement, EndTag, SkipPast;
  }

  /** Elements may be nested thirty-two deep in the root, and no deeper. */
  lemma {:induction false} NestingExactly(name: string, k: nat)
    requires GoodName(name)
    ensures Parse(Print(Tower(name, k))) == if k <= 32 then Ok(Meaning(Tower(name, k))) else Failed(TooDeep)
  {
    hide ParseElement, Print, Meaning, GoodName;
    assert Print(Tower(name, k)) + "" == Print(Tower(name, k));
    if k <= 32 {
      TowerGood(name, k, 0);
      ParseRoundTrip(Tower(name, k), "");
    } else {
      TowerTooDeep(name, k, "", 0);
      TowerShape(name, k);
      PrologNone(Print(Tower(name, k)));
    }
  }

  // ---- before and behind the root ----------------------------------------------------

  /** Nothing but white space and declarations may follow the root. */
  lemma {:induction false} TrailingRefused(doc: Doc, c: char, tail: string)
    requires GoodDoc(doc, 0) && c != '<' && !IsWs(c)
    ensures Parse(Print(doc) + ([c] + tail)) == Failed(TrailingContent)
  {
    hide ParseElement, Print, Meaning;
    DocRoundTrip(doc, [c] + tail, 0);
    PrintShape(doc, 0, [c] + tail);
    PrologNone(Print(doc) + ([c] + tail));
    assert SkipWs([c] + tail) == [c] + tail;
    assert !StartsWith([c] + tail, "<?") && !StartsWith([c] + tail, "<!");
  }

  lemma {:induction false} SeekAtEnd(x: string, pat: string, rest: string)
    requires pat != "" && Seek(x + pat[..|pat| - 1], pat).None?
    ensures Seek(x + pat + rest, pat) == Some(|x|)
    decreases |x|
  {
    var s := x + pat + rest;
    if x == "" {
      assert s[..|pat|] == pat;
    } else {
      var t := x + pat[..|pat| - 1];
      assert t[1..] == x[1..] + pat[..|pat| - 1] && s[1..] == x[1..] + pat + rest;
      assert s[..|pat|] == t[..|pat|];
      SeekAtEnd(x[1..], pat, rest);
    }
  }

  /** A declaration in front of the document is passed over, whatever it says. */
  lemma {:induction false} DeclarationSkipped(x: string, s: string)
    requires Seek("<?" + x + "?", "?>").None?
    ensures Parse("<?" + x + "?>" + s) == Parse(s)
  {
    hide ParseElement;
    var t := "<?" + x + "?>" + s;
    assert "?>"[..1] == "?";
    SeekAtEnd("<?" + x, "?>", s);
    assert t[|"<?" + x| + 2..] == s;
    assert SkipWs(t) == t && StartsWith(t, "<?");
  }

  /** So is a comment. */
  lemma {:induction false} CommentSkipped(x: string, s: string)
    requires Seek("<!--" + x + "--", "-->").None?
    ensures Parse("<!--" + x + "-->" + s) == Parse(s)
  {
    hide ParseElement;
    var t := "<!--" + x + "-->" + s;
    assert "-->"[..2] == "--";
    SeekAtEnd("<!--" + x, "-->", s);
    assert t[|"<!--" + x| + 3..] == s;
    assert SkipWs(t) == t && StartsWith(t, "<!--") && StartsWith(t, "<!") && !StartsWith(t, "<?");
  }
}
