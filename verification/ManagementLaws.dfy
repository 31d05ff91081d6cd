/** Channel-management messages survive being rendered and read back, exactly when their text and content can. */
module ManagementLaws {
  import opened Octets
  import opened Xml
  import opened XmlLaws
  import opened Management

  // ---- rendering is printing ---------------------------------------------------------

  ghost predicate Inert(s: string)
  {
    forall i :: 0 <= i < |s| ==> s[i] != '&' && s[i] != '<' && s[i] != '>' && s[i] != '\'' && s[i] != '"'
  }

  lemma {:induction false} EscapeInert(s: string)
    requires Inert(s)
    ensures Escape(s) == s
  {
    if s != "" {
      EscapeInert(s[1..]);
    }
  }

  lemma {:induction false} DecimalDigits(v: nat)
    ensures DecimalText(Decimal(v))
  {
    if v >= 10 {
      DecimalDigits(v / 10);
    }
  }

  lemma {:induction false} DecimalInert(v: nat)
    ensures Escape(Decimal(v)) == Decimal(v)
  {
    DecimalDigits(v);
    EscapeInert(Decimal(v));
  }

  lemma {:induction false} PrintOneAttr(key: string, value: string)
    ensures PrintAttrs([(key, value)]) == " " + key + "='" + Escape(value) + "'"
  {
    hide Escape;
    assert [(key, value)][1..] == [];
    assert PrintAttrs([]) == "";
    var s := " " + key + "='" + Escape(value) + "'";
    assert s + "" == s;
  }

  lemma {:induction false} PrintAttrsAppend(a: seq<(string, string)>, b: seq<(string, string)>)
    ensures PrintAttrs(a + b) == PrintAttrs(a) + PrintAttrs(b)
  {
    hide Escape;
    if a == [] {
      assert a + b == b;
    } else {
      assert (a + b)[0] == a[0] && (a + b)[1..] == a[1..] + b;
      PrintAttrsAppend(a[1..], b);
      Associate(" " + a[0].0 + "='" + Escape(a[0].1) + "'", PrintAttrs(a[1..]), PrintAttrs(b));
    }
  }

  lemma {:induction false} ContentPrints(c: string)
    requires Carried(c)
    ensures PrintContent(ContentDoc(c)) == CDATA_OPEN + c + CDATA_CLOSE
  {
    var at := Seek(c, CDATA_CLOSE);
    if at.None? {
      assert CDATA_OPEN + c + CDATA_CLOSE + "" == CDATA_OPEN + c + CDATA_CLOSE;
    } else {
      var a, b := c[..at.value], c[at.value..];
      Swap(b);
      assert a + b == c && b + "" == b;
      assert PrintContent(Plain(b, Nothing)) == b + PrintContent(Nothing);
      assert PrintContent(ContentDoc(c)) == CDATA_OPEN + a + CDATA_CLOSE + b;
      Associate(CDATA_OPEN + a, CDATA_CLOSE, b);
      Associate(CDATA_OPEN + a, b, CDATA_CLOSE);
      Associate(CDATA_OPEN, a, b);
    }
  }

  /** Repeated section ends can be moved past one more. */
  lemma {:induction false} Swap(b: string)
    requires OnlyCloses(b)
    ensures CDATA_CLOSE + b == b + CDATA_CLOSE
  {
    if b != "" {
      Swap(b[3..]);
      assert b == CDATA_CLOSE + b[3..];
      Associate(CDATA_CLOSE, b[3..], CDATA_CLOSE);
    } else {
      assert CDATA_CLOSE + "" == CDATA_CLOSE && "" + CDATA_CLOSE == CDATA_CLOSE;
    }
  }

  ghost predicate CarriedProfile(p: Profile) { p.content.Some? ==> Carried(p.content.value) }

  lemma {:induction false} Base64Prints()
    ensures " " + "encoding" + "='" + Escape("base64") + "'" == " encoding='base64'"
  {
    hide Escape;
    EscapeInert("base64");
  }

  /** Start tags as they are rendered and as they are printed. */
  lemma {:induction false} TagTexts(n: string)
    ensures "<" + "profile" + (" " + "uri" + "='" + n + "'") == "<profile uri='" + n + "'"
    ensures "<" + "start" + (" " + "number" + "='" + n + "'") == "<start number='" + n + "'"
    ensures "<" + "error" + (" " + "code" + "='" + n + "'") == "<error code='" + n + "'"
    ensures " " + "serverName" + "='" + n + "'" == " serverName='" + n + "'"
  {
  }

  lemma {:induction false} ProfileTagPrints(p: Profile)
    ensures "<" + "profile" + PrintAttrs(ProfileAttrs(p))
         == "<profile uri='" + Escape(p.uri) + "'" + (if p.encoding.Base64? then " encoding='base64'" else "")
  {
    hide Escape, PrintAttrs;
    var uri := [("uri", p.uri)];
    PrintOneAttr("uri", p.uri);
    TagTexts(Escape(p.uri));
    if p.encoding.Base64? {
      PrintAttrsAppend(uri, [("encoding", "base64")]);
      PrintOneAttr("encoding", "base64");
      Base64Prints();
      Associate("<" + "profile", PrintAttrs(uri), PrintAttrs([("encoding", "base64")]));
    } else {
      assert uri + [] == uri;
    }
  }

  lemma {:induction false} SectionPrints(c: string)
    ensures "><![CDATA[" + c + "]]></profile>" == ">" + (CDATA_OPEN + c + CDATA_CLOSE) + "</" + "profile" + ">"
  {
  }

  lemma {:induction false} ProfilePrints(p: Profile)
    requires CarriedProfile(p)
    ensures RenderProfile(p) == Print(ProfileDoc(p))
  {
    hide Escape, PrintAttrs, ContentDoc, Carried;
    ProfileTagPrints(p);
    if p.content.Some? {
      ContentPrints(p.content.value);
      SectionPrints(p.content.value);
    }
  }

  lemma {:induction false} ProfileLine(p: string, rest: string)
    ensures "\r\n" + ("   " + p + "\r\n" + rest) == "\r\n   " + (p + ("\r\n" + rest))
  {
  }

  lemma {:induction false} ProfilesPrint(ps: seq<Profile>)
    requires forall i :: 0 <= i < |ps| ==> CarriedProfile(ps[i])
    ensures "\r\n" + RenderProfiles(ps) == PrintContent(ProfilesContent(ps))
  {
    hide RenderProfile, ProfileDoc, Print, CarriedProfile;
    if ps == [] {
      EscapeInert("\r\n");
      assert PrintContent(Text("\r\n", Nothing)) == Escape("\r\n") + "";
    } else {
      ProfilePrints(ps[0]);
      ProfilesPrint(ps[1..]);
      EscapeInert("\r\n   ");
      ProfileLine(RenderProfile(ps[0]), RenderProfiles(ps[1..]));
    }
  }

  lemma {:induction false} OptionalPrints(name: string, value: Option<string>)
    ensures PrintAttrs(Optional(name, value)) == if value.Some? then " " + name + "='" + Escape(value.value) + "'" else ""
  {
    hide Escape;
    if value.Some? {
      PrintOneAttr(name, value.value);
    }
  }

  lemma {:induction false} NumberPrints(name: string, v: nat)
    ensures PrintAttrs([(name, Decimal(v))]) == " " + name + "='" + Decimal(v) + "'"
  {
    PrintOneAttr(name, Decimal(v));
    DecimalInert(v);
  }

  /** The close of a `<close>` or an `<error>`: the optional text and the end tag. */
  lemma {:induction false} TailPrints(lang: Option<string>, text: Option<string>, tag: string)
    ensures RenderLangAndText(lang, text, tag)
         == PrintAttrs(Optional("xml:lang", lang))
            + (match TextDoc(text) case None => " />" case Some(c) => ">" + PrintContent(c) + "</" + tag + ">")
            + "\r\n"
  {
    hide Escape, PrintAttrs;
    OptionalPrints("xml:lang", lang);
    if lang.Some? {
      assert " " + "xml:lang" + "='" + Escape(lang.value) + "'" == " xml:lang='" + Escape(lang.value) + "'";
    }
    if text.Some? {
      var t := Escape(text.value);
      assert PrintContent(Text(text.value, Nothing)) == t + PrintContent(Nothing);
      assert t + "" == t;
    }
  }

  ghost predicate CarriedMessage(m: Message)
  {
    match m
    case Start(_, _, profiles) => forall i :: 0 <= i < |profiles| ==> CarriedProfile(profiles[i])
    case Accepted(profile) => CarriedProfile(profile)
    case _ => true
  }

  function LineEnd(m: Message): string { if m.Okay? then "" else "\r\n" }

  lemma {:induction false} StartTagPrints(number: U32, serverName: Option<string>)
    ensures "<" + "start" + PrintAttrs([("number", Decimal(number))] + Optional("serverName", serverName))
         == "<start number='" + Decimal(number) + "'"
            + (if serverName.Some? then " serverName='" + Escape(serverName.value) + "'" else "")
  {
    hide Escape, PrintAttrs, Optional;
    NumberPrints("number", number);
    OptionalPrints("serverName", serverName);
    PrintAttrsAppend([("number", Decimal(number))], Optional("serverName", serverName));
    var n, name := PrintAttrs([("number", Decimal(number))]), PrintAttrs(Optional("serverName", serverName));
    TagTexts(Decimal(number));
    Associate("<" + "start", n, name);
    if serverName.Some? {
      TagTexts(Escape(serverName.value));
    }
  }

  lemma {:induction false} StartBody(head: string, ps: string)
    ensures head + ">\r\n" + ps + "</start>\r\n" == head + (">" + ("\r\n" + ps) + "</" + "start" + ">") + "\r\n"
  {
  }

  lemma {:induction false} StartPrints(m: Message)
    requires m.Start? && CarriedMessage(m)
    ensures Render(m) == Print(ToDoc(m)) + "\r\n"
  {
    hide Escape, PrintAttrs, PrintContent, RenderProfiles, ProfilesContent, CarriedProfile, Optional;
    ProfilesPrint(m.profiles);
    StartTagPrints(m.number, m.serverName);
    StartBody("<" + "start" + PrintAttrs(ToDoc(m).attrs), RenderProfiles(m.profiles));
  }

  lemma {:induction false} CloseNumbers(n: string, c: string)
    ensures "<" + "close" + ((" " + "number" + "='" + n + "'") + (" " + "code" + "='" + c + "'"))
         == "<close number='" + n + "' code='" + c + "'"
  {
  }

  lemma {:induction false} TagBody(start: string, numbers: string, lang: string, body: string)
    ensures (start + numbers) + (lang + body + "\r\n") == start + (numbers + lang) + body + "\r\n"
  {
  }

  lemma {:induction false} ClosePrints(m: Message)
    requires m.Close?
    ensures Render(m) == Print(ToDoc(m)) + "\r\n"
  {
    hide Escape, PrintAttrs, PrintContent, RenderLangAndText, Optional;
    NumberPrints("number", m.number);
    NumberPrints("code", m.code);
    var lang := Optional("xml:lang", m.lang);
    TailPrints(m.lang, m.text, "close");
    var numbers := [("number", Decimal(m.number)), ("code", Decimal(m.code))];
    assert numbers == [("number", Decimal(m.number))] + [("code", Decimal(m.code))];
    PrintAttrsAppend([("number", Decimal(m.number))], [("code", Decimal(m.code))]);
    PrintAttrsAppend(numbers, lang);
    CloseNumbers(Decimal(m.number), Decimal(m.code));
    var body := match TextDoc(m.text) case None => " />" case Some(c) => ">" + PrintContent(c) + "</" + "close" + ">";
    TagBody("<" + "close", PrintAttrs(numbers), PrintAttrs(lang), body);
  }

  lemma {:induction false} RefusedPrints(m: Message)
    requires m.Refused?
    ensures Render(m) == Print(ToDoc(m)) + "\r\n"
  {
    hide Escape, PrintAttrs, PrintContent, RenderLangAndText, Optional;
    NumberPrints("code", m.code);
    var lang := Optional("xml:lang", m.lang);
    TailPrints(m.lang, m.text, "error");
    var code := [("code", Decimal(m.code))];
    PrintAttrsAppend(code, lang);
    TagTexts(Decimal(m.code));
    var body := match TextDoc(m.text) case None => " />" case Some(c) => ">" + PrintContent(c) + "</" + "error" + ">";
    TagBody("<" + "error", PrintAttrs(code), PrintAttrs(lang), body);
  }

  /** What is rendered is the document of the message. */
  lemma {:induction false} RenderIsPrint(m: Message)
    requires CarriedMessage(m)
    ensures Render(m) == Print(ToDoc(m)) + LineEnd(m)
  {
    match m
    case Start(_, _, _) => StartPrints(m);
    case Close(_, _, _, _) => ClosePrints(m);
    case Accepted(p) => ProfilePrints(p);
    case Okay =>
    case Refused(_, _, _) => RefusedPrints(m);
  }

  // ---- the documents are good --------------------------------------------------------

  lemma {:induction false} SeekFree(c: string)
    requires Seek(c, CDATA_CLOSE).Some?
    ensures Free(c[..Seek(c, CDATA_CLOSE).value])
  {
    var at := Seek(c, CDATA_CLOSE).value;
    if at > 0 {
      SeekFree(c[1..]);
      assert c[1..][..at - 1] == c[..at][1..];
      if at >= 3 {
        assert c[..at][..3] == c[..3];
      }
    }
  }

  lemma {:induction false} OnlyClosesUnmarked(b: string)
    requires OnlyCloses(b)
    ensures Unmarked(b)
  {
    if b != "" {
      OnlyClosesUnmarked(b[3..]);
      forall i | 0 <= i < |b|
        ensures b[i] != '<' && b[i] != '&'
      {
        if i < 3 {
          assert b[i] == b[..3][i];
        } else {
          assert b[i] == b[3..][i - 3];
        }
      }
    }
  }

  lemma {:induction false} ContentGood(c: string, depth: nat)
    requires Carried(c)
    ensures GoodContent(ContentDoc(c), depth) && Words(ContentDoc(c)) == c && Children(ContentDoc(c)) == []
  {
    var at := Seek(c, CDATA_CLOSE);
    if at.Some? {
      SeekFree(c);
      OnlyClosesUnmarked(c[at.value..]);
      assert GoodContent(Plain(c[at.value..], Nothing), depth);
      assert Words(Plain(c[at.value..], Nothing)) == c[at.value..] + "";
      assert Children(Plain(c[at.value..], Nothing)) == [];
      assert c[..at.value] + c[at.value..] == c;
    } else {
      assert Words(Cdata(c, Nothing)) == c + "";
    }
  }

  lemma {:induction false} ProfileGood(p: Profile, depth: nat)
    requires CarriedProfile(p) && depth <= MAX_DEPTH
    ensures GoodDoc(ProfileDoc(p), depth)
  {
    hide ContentDoc, Carried, GoodContent;
    if p.content.Some? {
      ContentGood(p.content.value, depth);
    }
  }

  lemma {:induction false} ProfilesGood(ps: seq<Profile>, depth: nat)
    requires depth < MAX_DEPTH && forall i :: 0 <= i < |ps| ==> CarriedProfile(ps[i])
    ensures GoodContent(ProfilesContent(ps), depth)
  {
    hide ProfileDoc, GoodDoc, CarriedProfile;
    if ps == [] {
      assert GoodContent(Nothing, depth);
    } else {
      ProfileGood(ps[0], depth + 1);
      ProfilesGood(ps[1..], depth);
      assert GoodContent(Child(ProfileDoc(ps[0]), ProfilesContent(ps[1..])), depth);
    }
  }

  lemma {:induction false} MessageGood(m: Message)
    requires CarriedMessage(m)
    ensures GoodDoc(ToDoc(m), 0)
  {
    hide ProfileDoc, ProfilesContent, CarriedProfile, Decimal;
    match m
    case Start(_, _, profiles) => ProfilesGood(profiles, 0);
    case Close(_, _, _, text) => assert GoodContent(Nothing, 0);
    case Accepted(p) => ProfileGood(p, 0);
    case Okay =>
    case Refused(_, _, text) => assert GoodContent(Nothing, 0);
  }

  // ---- reading numbers ---------------------------------------------------------------

  lemma {:induction false} RadixSnoc(value: nat, s: string, d: char)
    requires value < MODULUS && '0' <= d <= '9'
    ensures
      var r := ParseRadix(value, s, 10);
      ParseRadix(value, s + [d], 10) == if r.None? then None else ParseRadix(r.value, [d], 10)
    decreases |s|
  {
    if s == "" {
      assert s + [d] == [d];
    } else {
      assert (s + [d])[0] == s[0] && (s + [d])[1..] == s[1..] + [d];
      var v := value * 10 + DigitValue(s[0]);
      if DigitValue(s[0]) < 10 && v < MODULUS {
        RadixSnoc(v, s[1..], d);
      }
    }
  }

  lemma {:induction false} RadixOfDecimal(v: U32)
    ensures ParseRadix(0, Decimal(v), 10) == Some(v)
  {
    var d := '0' + (v % 10) as char;
    assert DigitValue(d) == v % 10;
    assert [d][1..] == "";
    if v >= 10 {
      RadixOfDecimal(v / 10);
      RadixSnoc(0, Decimal(v / 10), d);
    }
  }

  lemma {:induction false} DecimalShort(v: nat, k: nat)
    requires v < Power10(k) && k > 0
    ensures |Decimal(v)| <= k
  {
    if v >= 10 {
      DecimalShort(v / 10, k - 1);
    }
  }

  /** A numeric reference to any character expands to that character. */
  lemma {:induction false} NumericReferenceDecodes(c: char, rest: string)
    ensures
      var more := DecodeEntities(rest);
      DecodeEntities("&" + ("#" + Decimal(c as nat)) + ";" + rest) == if more.Failed? then more else Ok([c] + more.value)
  {
    hide Decimal, DecodeEntities, ParseRadix;
    var v := c as nat;
    var name := "#" + Decimal(v);
    DecimalDigits(v);
    RadixOfDecimal(v);
    assert Power10(2) == 100 && Power10(4) == 100 * Power10(2) && Power10(7) == 1000 * Power10(4);
    DecimalShort(v, 7);
    assert name[1..] == Decimal(v);
    assert Decimal(v)[0] != 'x' && Decimal(v)[0] != 'X' && Decimal(v)[0] != '+';
    assert name[0] == '#' && "amp"[0] != '#' && "lt"[0] != '#' && "gt"[0] != '#' && "quot"[0] != '#' && "apos"[0] != '#';
    assert NumericReference(name) == Some(c);
    EntityDecodes(name, c, rest);
  }

  lemma {:induction false} AttrOfDecimal(e: Element, name: string, v: U32)
    requires Attr(e.attrs, name) == Some(Decimal(v))
    ensures AttrU32(e, name) == Ok(v)
  {
    hide Attr, Decimal, ParseRadix;
    DecimalDigits(v);
    RadixOfDecimal(v);
    assert Decimal(v)[0] != '+';
  }

  // ---- what is read back -------------------------------------------------------------

  /** A profile as the reader returns it: empty content is no content. */
  function ReadProfile(p: Profile): Profile
  {
    if p.content == Some("") then p.(content := None) else p
  }

  function ReadProfiles(ps: seq<Profile>): seq<Profile>
  {
    if ps == [] then [] else [ReadProfile(ps[0])] + ReadProfiles(ps[1..])
  }

  function ReadText(text: Option<string>): Option<string>
  {
    if text.None? || Trim(text.value) == "" then None else Some(Trim(text.value))
  }

  /** A message as the reader returns it. */
  function ReadBack(m: Message): Message
  {
    match m
    case Start(number, serverName, profiles) => Start(number, serverName, ReadProfiles(profiles))
    case Close(number, code, lang, text) => Close(number, code, lang, ReadText(text))
    case Accepted(profile) => Accepted(ReadProfile(profile))
    case Okay => Okay
    case Refused(code, lang, text) => Refused(code, lang, ReadText(text))
  }

  lemma {:induction false} ProfileReads(p: Profile)
    requires CarriedProfile(p)
    ensures ParseProfile(Meaning(ProfileDoc(p))) == Ok(ReadProfile(p))
  {
    hide ContentDoc, Carried, GoodContent;
    if p.content.Some? {
      ContentGood(p.content.value, 0);
    }
    var attrs := ProfileAttrs(p);
    assert attrs[0].0 == "uri" && "uri" != "encoding";
    if p.encoding.Base64? {
      assert attrs[1..] == [("encoding", "base64")];
      assert Attr(attrs[1..], "encoding") == Some("base64") && "base64" != "none";
    } else {
      assert attrs[1..] == [];
      assert Attr(attrs[1..], "encoding") == None;
    }
  }

  lemma {:induction false} ProfilesRead(ps: seq<Profile>)
    requires forall i :: 0 <= i < |ps| ==> CarriedProfile(ps[i])
    ensures ParseProfiles(Children(ProfilesContent(ps))) == Ok(ReadProfiles(ps))
  {
    hide ParseProfile, ReadProfile, CarriedProfile;
    if ps == [] {
      assert Children(Nothing) == [];
    } else {
      ProfileReads(ps[0]);
      ProfilesRead(ps[1..]);
      var first, rest := Meaning(ProfileDoc(ps[0])), Children(ProfilesContent(ps[1..]));
      assert Children(Child(ProfileDoc(ps[0]), ProfilesContent(ps[1..]))) == [first] + rest;
      assert ([first] + rest)[1..] == rest && first.name == "profile";
    }
  }

  lemma {:induction false} TextOfReads(e: Element, text: Option<string>)
    requires e.text == (match TextDoc(text) case None => "" case Some(c) => Words(c))
    ensures TextOf(e) == ReadText(text)
  {
    if text.Some? {
      assert Words(Text(text.value, Nothing)) == text.value + "";
      assert text.value + "" == text.value;
    } else {
      assert Trim("") == "";
    }
  }

  lemma {:induction false} StartReads(m: Message)
    requires m.Start? && CarriedMessage(m)
    ensures FromElement(Meaning(ToDoc(m))) == Ok(ReadBack(m))
  {
    hide ParseProfiles, ProfilesContent, Children, Words, AttrU32, Decimal;
    var e := Meaning(ToDoc(m));
    ProfilesRead(m.profiles);
    assert e.attrs[0].0 == "number" && e.attrs[1..] == Optional("serverName", m.serverName);
    AttrOfDecimal(e, "number", m.number);
    assert "serverName" != "number";
    OptionalFound("serverName", m.serverName);
  }

  lemma {:induction false} CloseReads(m: Message)
    requires m.Close?
    ensures FromElement(Meaning(ToDoc(m))) == Ok(ReadBack(m))
  {
    hide Words, AttrU32, Decimal, TextOf, ReadText, Children, Attr;
    var e := Meaning(ToDoc(m));
    TextOfReads(e, m.text);
    CloseAttrs(m);
    AttrOfDecimal(e, "number", m.number);
    AttrOfDecimal(e, "code", m.code);
  }

  lemma {:induction false} CloseAttrs(m: Message)
    requires m.Close?
    ensures
      var attrs := ToDoc(m).attrs;
      Attr(attrs, "number") == Some(Decimal(m.number)) && Attr(attrs, "code") == Some(Decimal(m.code))
      && Attr(attrs, "xml:lang") == m.lang
  {
    hide Decimal;
    var attrs := ToDoc(m).attrs;
    assert attrs[1..][1..] == Optional("xml:lang", m.lang);
    assert attrs[1..][0].0 == "code" && attrs[0].0 == "number";
    assert "number" != "code" && "xml:lang" != "code" && "xml:lang" != "number";
    OptionalFound("xml:lang", m.lang);
  }

  lemma {:induction false} OptionalFound(name: string, value: Option<string>)
    ensures Attr(Optional(name, value), name) == value
  {
  }

  lemma {:induction false} RefusedReads(m: Message)
    requires m.Refused?
    ensures FromElement(Meaning(ToDoc(m))) == Ok(ReadBack(m))
  {
    hide Words, AttrU32, Decimal, TextOf, ReadText, Children;
    var e := Meaning(ToDoc(m));
    TextOfReads(e, m.text);
    assert e.attrs[0].0 == "code" && e.attrs[1..] == Optional("xml:lang", m.lang);
    OptionalFound("xml:lang", m.lang);
    AttrOfDecimal(e, "code", m.code);
    assert "xml:lang" != "code";
  }

  /** Rendering and reading gives the message back, up to what the reader itself drops. */
  lemma {:induction false} RenderReads(m: Message)
    requires CarriedMessage(m)
    ensures FromXml(Render(m)) == Ok(ReadBack(m))
  {
    hide Parse, Print, Meaning, GoodDoc, Render, FromElement, ToDoc;
    MessageGood(m);
    RenderIsPrint(m);
    ParseRoundTrip(ToDoc(m), LineEnd(m));
    assert FromElement(Meaning(ToDoc(m))) == Ok(ReadBack(m)) by {
      MeaningReads(m);
    }
  }

  lemma {:induction false} MeaningReads(m: Message)
    requires CarriedMessage(m)
    ensures FromElement(Meaning(ToDoc(m))) == Ok(ReadBack(m))
  {
    match m
    case Start(_, _, _) => StartReads(m);
    case Close(_, _, _, _) => CloseReads(m);
    case Accepted(p) => ProfileReads(p);
    case Okay =>
    case Refused(_, _, _) => RefusedReads(m);
  }
}
