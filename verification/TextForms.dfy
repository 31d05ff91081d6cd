/**
 * The text formats against the documents that define them: the alphabet and the groups of
 * section 4 of RFC 4648, the elements and attributes of section 2.3.1 of RFC 3080, and entity
 * headers. What is written is the text asked for, and what is read is taken from where it stands.
 */
module TextForms {
  import opened Octets
  import opened Xml
  import opened XmlLaws
  import opened Management
  import opened ManagementLaws
  import B = Base64
  import G = Greetings
  import F = XmlFaults

  // ---- Base64 ------------------------------------------------------------------------

  /** The alphabet: upper case, lower case, digits, plus and slash; the equals sign pads. */
  lemma {:induction false} AlphabetSpells(v: nat)
    requires v < 64
    ensures B.Char(v) == (if v < 26 then 'A' as int + v else if v < 52 then 'a' as int + (v - 26) else if v < 62 then '0' as int + (v - 52)
                          else if v == 62 then '+' as int else '/' as int)
    ensures B.PAD == '=' as int
  {
  }

  /** Three octets are written as four characters of six bits each, the first bits first; one or two are padded. */
  lemma {:induction false} GroupSpells(a: Octet, b: Octet, c: Octet)
    ensures B.Encode([a, b, c]) == [B.Char(a / 4), B.Char(a % 4 * 16 + b / 16), B.Char(b % 16 * 4 + c / 64), B.Char(c % 64)]
    ensures B.Encode([a, b]) == [B.Char(a / 4), B.Char(a % 4 * 16 + b / 16), B.Char(b % 16 * 4), 61]
    ensures B.Encode([a]) == [B.Char(a / 4), B.Char(a % 4 * 16), 61, 61]
  {
    hide B.Encode, B.Char;
    GroupOf(a, b, c, [a, b, c]);
    GroupOf(a, b, 0, [a, b]);
    GroupOf(a, 0, 0, [a]);
  }

  lemma {:induction false} GroupOf(a: Octet, b: Octet, c: Octet, chunk: Bytes)
    requires chunk == [a, b, c] || (chunk == [a, b] && c == 0) || (chunk == [a] && b == c == 0)
    ensures B.Encode(chunk) == [B.Char(a / 4), B.Char(a % 4 * 16 + b / 16),
                                if |chunk| > 1 then B.Char(b % 16 * 4 + c / 64) else 61, if |chunk| > 2 then B.Char(c % 64) else 61]
  {
    hide B.Encode, B.Char;
    Whole(chunk);
    Sixes(a, b, c);
  }

  lemma {:induction false} Whole(chunk: Bytes)
    requires 1 <= |chunk| <= 3
    ensures B.Encode(chunk) == B.Quad(chunk)
  {
    assert chunk[..|chunk|] == chunk && chunk[|chunk|..] == [] && B.Encode([]) == [];
  }

  lemma {:induction false} Sixes(a: Octet, b: Octet, c: Octet)
    ensures
      var bits := a * 65536 + b * 256 + c;
      && bits / 262144 % 64 == a / 4 && bits / 4096 % 64 == a % 4 * 16 + b / 16
      && bits / 64 % 64 == b % 16 * 4 + c / 64 && bits % 64 == c % 64
  {
    var (p, s, t, u) := (a / 4, a % 4 * 16 + b / 16, b % 16 * 4 + c / 64, c % 64);
    assert ((p * 64 + s) * 64 + t) * 64 + u == a * 65536 + b * 256 + c by {
      assert a == 4 * (a / 4) + a % 4 && b == 16 * (b / 16) + b % 16 && c == 64 * (c / 64) + c % 64;
    }
    B.SixesOfBits(p, s, t, u);
  }

  /** Longer data is written group after group. */
  lemma {:induction false} GroupsSpell(a: Octet, b: Octet, c: Octet, data: Bytes)
    ensures B.Encode([a, b, c] + data) == B.Encode([a, b, c]) + B.Encode(data)
  {
    var all := [a, b, c] + data;
    assert all[..3] == [a, b, c] && all[3..] == data;
    Whole([a, b, c]);
  }

  /** White space in Base64 text goes, wherever it is, and nothing else does. */
  lemma {:induction false} SqueezedDrops(text: Bytes, c: Octet)
    ensures B.Squeezed([c] + text) == (if c == 32 || c == 9 || c == 10 || c == 12 || c == 13 then [] else [c]) + B.Squeezed(text)
  {
    assert ([c] + text)[1..] == text;
  }

  // ---- numbers in attributes ---------------------------------------------------------

  /** What a numeral is worth. */
  function Worth(s: string): nat
  {
    if s == "" then 0 else Worth(s[..|s| - 1]) * 10 + if '0' <= s[|s| - 1] <= '9' then (s[|s| - 1] - '0') as nat else 0
  }

  ghost predicate Numeral(s: string)
  {
    s != "" && forall i :: 0 <= i < |s| ==> '0' <= s[i] <= '9'
  }

  lemma {:induction false} RadixWorth(s: string)
    requires forall i :: 0 <= i < |s| ==> '0' <= s[i] <= '9'
    ensures ParseRadix(0, s, 10) == if Worth(s) < 0x1_0000_0000 then Some(Worth(s)) else None
  {
    if s != "" {
      var init, d := s[..|s| - 1], s[|s| - 1];
      RadixWorth(init);
      assert s == init + [d];
      RadixSnoc(0, init, d);
      assert [d][1..] == "";
    }
  }

  /** An attribute is read as a number exactly when it is a numeral of 32 bits; what else it may be names the fault. */
  lemma {:induction false} AttrNumberExactly(e: Element, name: string)
    ensures
      var raw := Attr(e.attrs, name);
      AttrU32(e, name) ==
        if raw.None? then Failed(MissingField(name))
        else if !Numeral(raw.value) then Failed(InvalidDigit(name))
        else if Worth(raw.value) >= 0x1_0000_0000 then Failed(ValueOutOfRange(name))
        else Ok(Worth(raw.value))
  {
    var raw := Attr(e.attrs, name);
    if raw.Some? && Numeral(raw.value) {
      RadixWorth(raw.value);
      assert raw.value[0] != '+';
    }
  }

  // ---- trimming ----------------------------------------------------------------------

  /** `t` is `s` without what is blank at its ends. */
  ghost predicate Stripped(s: string, t: string, blank: char -> bool)
  {
    exists i: nat, j: nat :: Cuts(s, i, j, blank) && s[i..j] == t
  }

  ghost predicate Cuts(s: string, i: nat, j: nat, blank: char -> bool)
  {
    && i <= j <= |s| && (forall k :: 0 <= k < i ==> blank(s[k])) && (forall k :: j <= k < |s| ==> blank(s[k]))
    && (i < j ==> !blank(s[i]) && !blank(s[j - 1]))
  }

  /** There is one way to strip a text. */
  lemma {:induction false} StrippedOnce(s: string, t: string, t': string, blank: char -> bool)
    requires Stripped(s, t, blank) && Stripped(s, t', blank)
    ensures t == t'
  {
    var i: nat, j: nat :| Cuts(s, i, j, blank) && s[i..j] == t;
    var i': nat, j': nat :| Cuts(s, i', j', blank) && s[i'..j'] == t';
    CutSomewhere(s, i, j, blank);
    CutSomewhere(s, i', j', blank);
    if i < j {
      assert i' <= i && i <= i' && j <= j' && j' <= j;
    }
  }

  lemma {:induction false} CutSomewhere(s: string, i: nat, j: nat, blank: char -> bool)
    requires Cuts(s, i, j, blank)
    ensures i < j <==> exists k :: 0 <= k < |s| && !blank(s[k])
  {
  }

  lemma {:induction false} TrimStartCuts(s: string) returns (i: nat)
    ensures i <= |s| && TrimStart(s) == s[i..] && (forall k :: 0 <= k < i ==> IsSpace(s[k])) && (i < |s| ==> !IsSpace(s[i]))
  {
    hide IsSpace;
    i := 0;
    if s != "" && IsSpace(s[0]) {
      var n := TrimStartCuts(s[1..]);
      i := n + 1;
      assert s[1..][n..] == s[i..];
    }
  }

  lemma {:induction false} TrimEndCuts(s: string) returns (j: nat)
    ensures j <= |s| && TrimEnd(s) == s[..j] && (forall k :: j <= k < |s| ==> IsSpace(s[k])) && (j > 0 ==> !IsSpace(s[j - 1]))
  {
    hide IsSpace;
    j := |s|;
    if s != "" && IsSpace(s[|s| - 1]) {
      j := TrimEndCuts(s[..|s| - 1]);
      assert s[..|s| - 1][..j] == s[..j];
    }
  }

  /** Trimming takes white space off both ends, all of it and nothing else. */
  lemma {:induction false} TrimStrips(s: string)
    ensures Stripped(s, Trim(s), IsSpace)
  {
    hide IsSpace;
    var i := TrimStartCuts(s);
    var j := TrimEndCuts(s[i..]);
    assert s[i..][..j] == s[i..i + j];
    assert Cuts(s, i, i + j, IsSpace);
  }

  // ---- management messages -----------------------------------------------------------

  /** The element a profile is. */
  ghost predicate ProfileElement(e: Element, p: Profile)
  {
    && e.name == "profile" && Attr(e.attrs, "uri") == Some(p.uri)
    && Attr(e.attrs, "encoding") == (if p.encoding.Base64? then Some("base64") else None)
    && e.text == (if p.content.Some? then p.content.value else "")
  }

  /** The element a message is. */
  ghost predicate MessageElement(e: Element, m: Message)
  {
    match m
    case Start(number, serverName, profiles) =>
      && e.name == "start" && Attr(e.attrs, "number") == Some(Decimal(number)) && Attr(e.attrs, "serverName") == serverName
      && |e.children| == |profiles| && forall i :: 0 <= i < |profiles| ==> ProfileElement(e.children[i], profiles[i])
    case Close(number, code, lang, text) =>
      && e.name == "close" && Attr(e.attrs, "number") == Some(Decimal(number)) && Attr(e.attrs, "code") == Some(Decimal(code))
      && Attr(e.attrs, "xml:lang") == lang && e.text == if text.Some? then text.value else ""
    case Accepted(profile) => ProfileElement(e, profile)
    case Okay => e.name == "ok"
    case Refused(code, lang, text) =>
      && e.name == "error" && Attr(e.attrs, "code") == Some(Decimal(code))
      && Attr(e.attrs, "xml:lang") == lang && e.text == if text.Some? then text.value else ""
  }

  /** What is rendered is a document, its root the element of the message. */
  lemma {:induction false} RenderSpells(m: Message)
    requires CarriedMessage(m)
    ensures Parse(Render(m)).Ok? && MessageElement(Parse(Render(m)).value, m)
  {
    hide Parse, Print, Meaning, GoodDoc, Render, ToDoc, MessageElement;
    MessageGood(m);
    RenderIsPrint(m);
    ParseRoundTrip(ToDoc(m), LineEnd(m));
    MeaningSpells(m);
  }

  lemma {:induction false} MeaningSpells(m: Message)
    requires CarriedMessage(m)
    ensures MessageElement(Meaning(ToDoc(m)), m)
  {
    hide ProfileElement, ProfilesContent, Decimal;
    match m
    case Start(number, serverName, profiles) =>
      ProfilesSpell(profiles);
      OptionalFound("serverName", serverName);
      NoOther("serverName", serverName, "number");
      assert ToDoc(m).attrs[1..] == Optional("serverName", serverName);
    case Close(number, code, lang, text) => CloseSpells(m);
    case Accepted(profile) => ProfileSpells(profile);
    case Okay =>
    case Refused(code, lang, text) => RefusedSpells(m);
  }

  lemma {:induction false} NoOther(name: string, value: Option<string>, other: string)
    requires name != other
    ensures Attr(Optional(name, value), other) == None
  {
    if value.Some? {
      assert Optional(name, value)[1..] == [];
    }
  }

  lemma {:induction false} TextSpells(text: Option<string>)
    requires text.Some?
    ensures Words(Text(text.value, Nothing)) == text.value
  {
    assert text.value + "" == text.value;
  }

  lemma {:induction false} CloseSpells(m: Message)
    requires m.Close?
    ensures MessageElement(Meaning(ToDoc(m)), m)
  {
    hide Decimal, Attr;
    CloseAttrs(m);
    if m.text.Some? {
      TextSpells(m.text);
    }
  }

  lemma {:induction false} RefusedSpells(m: Message)
    requires m.Refused?
    ensures MessageElement(Meaning(ToDoc(m)), m)
  {
    hide Decimal;
    var attrs := ToDoc(m).attrs;
    OptionalFound("xml:lang", m.lang);
    assert attrs[0].0 == "code" && attrs[1..] == Optional("xml:lang", m.lang);
    assert "code" != "xml:lang";
    if m.text.Some? {
      TextSpells(m.text);
    }
  }

  lemma {:induction false} ProfileSpells(p: Profile)
    requires CarriedProfile(p)
    ensures ProfileElement(Meaning(ProfileDoc(p)), p)
  {
    hide ContentDoc, Carried, GoodContent;
    var attrs := ProfileAttrs(p);
    assert attrs[0].0 == "uri" && "uri" != "encoding";
    if p.encoding.Base64? {
      assert attrs[1..] == [("encoding", "base64")];
      assert Attr(attrs[1..], "encoding") == Some("base64");
    } else {
      assert attrs[1..] == [];
      assert Attr(attrs[1..], "encoding") == None;
    }
    if p.content.Some? {
      ContentGood(p.content.value, 0);
    }
  }

  lemma {:induction false} ProfilesSpell(ps: seq<Profile>)
    requires forall i :: 0 <= i < |ps| ==> CarriedProfile(ps[i])
    ensures
      var es := Children(ProfilesContent(ps));
      |es| == |ps| && forall i :: 0 <= i < |ps| ==> ProfileElement(es[i], ps[i])
  {
    hide ProfileElement, ProfileDoc;
    if ps != [] {
      ProfileSpells(ps[0]);
      ProfilesSpell(ps[1..]);
      var rest := Children(ProfilesContent(ps[1..]));
      assert Children(ProfilesContent(ps)) == [Meaning(ProfileDoc(ps[0]))] + rest;
      forall i | 0 <= i < |ps|
        ensures ProfileElement(([Meaning(ProfileDoc(ps[0]))] + rest)[i], ps[i])
      {
        if i > 0 {
          assert ProfileElement(rest[i - 1], ps[1..][i - 1]);
        }
      }
    }
  }

  // ---- reading them ------------------------------------------------------------------

  /** An attribute that says a number, leading zeros and all. */
  ghost predicate Says(e: Element, name: string, v: U32)
  {
    var raw := Attr(e.attrs, name);
    raw.Some? && Numeral(raw.value) && Worth(raw.value) == v
  }

  ghost predicate SaysProfile(e: Element, p: Profile)
  {
    && Attr(e.attrs, "uri") == Some(p.uri) && p.content == (if e.text == "" then None else Some(e.text))
    && var encoding := Attr(e.attrs, "encoding");
       if p.encoding.Base64? then encoding == Some("base64") else encoding == None || encoding == Some("none")
  }

  /** The children that are profiles. */
  function Profiles(es: seq<Element>): seq<Element>
  {
    if es == [] then [] else (if es[0].name == "profile" then [es[0]] else []) + Profiles(es[1..])
  }

  ghost predicate SaysProfiles(es: seq<Element>, ps: seq<Profile>)
  {
    |es| == |ps| && forall i :: 0 <= i < |ps| ==> SaysProfile(es[i], ps[i])
  }

  ghost predicate SaysText(e: Element, text: Option<string>)
  {
    exists t :: Stripped(e.text, t, IsSpace) && text == if t == "" then None else Some(t)
  }

  /** What an element says, whichever document it is the root of. */
  ghost predicate SaysMessage(e: Element, m: Message)
  {
    match m
    case Start(number, serverName, profiles) =>
      e.name == "start" && Says(e, "number", number) && serverName == Attr(e.attrs, "serverName") && SaysProfiles(Profiles(e.children), profiles)
    case Close(number, code, lang, text) =>
      && e.name == "close" && Says(e, "number", number) && Says(e, "code", code)
      && lang == Attr(e.attrs, "xml:lang") && SaysText(e, text)
    case Accepted(profile) => e.name == "profile" && SaysProfile(e, profile)
    case Okay => e.name == "ok"
    case Refused(code, lang, text) =>
      e.name == "error" && Says(e, "code", code) && lang == Attr(e.attrs, "xml:lang") && SaysText(e, text)
  }

  lemma {:induction false} TextExactly(e: Element, text: Option<string>)
    ensures SaysText(e, text) <==> text == TextOf(e)
  {
    hide IsSpace, Stripped, Trim;
    TrimStrips(e.text);
    if SaysText(e, text) {
      var t :| Stripped(e.text, t, IsSpace) && text == if t == "" then None else Some(t);
      StrippedOnce(e.text, t, Trim(e.text), IsSpace);
    }
  }

  lemma {:induction false} ProfileExactly(e: Element, p: Profile)
    ensures ParseProfile(e) == Ok(p) <==> SaysProfile(e, p)
  {
  }

  lemma {:induction false} ProfilesExactly(es: seq<Element>, ps: seq<Profile>)
    ensures ParseProfiles(es) == Ok(ps) <==> SaysProfiles(Profiles(es), ps)
    decreases |es|
  {
    hide ParseProfile, SaysProfile, SaysProfiles;
    if es == [] {
      NoProfiles(ps);
    } else {
      var rest := Profiles(es[1..]);
      if es[0].name != "profile" {
        assert [] + rest == rest;
        ProfilesExactly(es[1..], ps);
      } else if ps != [] {
        ProfileExactly(es[0], ps[0]);
        ProfilesExactly(es[1..], ps[1..]);
        OneMoreProfile(es[0], rest, ps);
        assert ps == [ps[0]] + ps[1..];
      } else {
        SomeProfiles(es[0], rest);
      }
    }
  }

  lemma {:induction false} NoProfiles(ps: seq<Profile>)
    ensures SaysProfiles([], ps) <==> ps == []
  {
  }

  lemma {:induction false} SomeProfiles(e: Element, es: seq<Element>)
    ensures !SaysProfiles([e] + es, [])
  {
  }

  lemma {:induction false} OneMoreProfile(e: Element, es: seq<Element>, ps: seq<Profile>)
    requires ps != []
    ensures SaysProfiles([e] + es, ps) <==> SaysProfile(e, ps[0]) && SaysProfiles(es, ps[1..])
  {
    hide SaysProfile;
    var all := [e] + es;
    if SaysProfiles(all, ps) {
      assert SaysProfile(all[0], ps[0]);
      forall i | 0 <= i < |ps[1..]|
        ensures SaysProfile(es[i], ps[1..][i])
      {
        assert SaysProfile(all[i + 1], ps[i + 1]);
      }
    }
    if SaysProfile(e, ps[0]) && SaysProfiles(es, ps[1..]) {
      forall i | 0 <= i < |ps|
        ensures SaysProfile(all[i], ps[i])
      {
        if i > 0 {
          assert SaysProfile(es[i - 1], ps[1..][i - 1]);
        }
      }
    }
  }

  /** A document is read as a message if and only if its root says that message. */
  lemma {:induction false} ReadsExactly(s: string, m: Message)
    ensures FromXml(s) == Ok(m) <==> Parse(s).Ok? && SaysMessage(Parse(s).value, m)
  {
    hide Parse, SaysProfiles, SaysProfile, ParseProfile, ParseProfiles, TextOf, AttrU32, Numeral, SaysText;
    if Parse(s).Ok? {
      var e := Parse(s).value;
      AttrNumberExactly(e, "number");
      AttrNumberExactly(e, "code");
      if m.Start? {
        ProfilesExactly(e.children, m.profiles);
      }
      if m.Accepted? {
        ProfileExactly(e, m.profile);
      }
      if m.Close? || m.Refused? {
        TextExactly(e, m.text);
      }
    }
  }

  /** What is wrong with a profile, if anything: no URI, or else an encoding nobody knows. */
  ghost predicate FaultyProfile(e: Element, f: Problem)
  {
    var encoding := Attr(e.attrs, "encoding");
    if Attr(e.attrs, "uri") == None then f == MissingUri
    else encoding != None && encoding != Some("none") && encoding != Some("base64") && f == UnknownEncoding
  }

  lemma {:induction false} ProfileFaults(e: Element, f: Problem)
    ensures ParseProfile(e) == Failed(f) <==> FaultyProfile(e, f)
  {
  }

  /** Profile `i` is the first that is wrong. */
  ghost predicate FirstFaultyProfile(es: seq<Element>, i: int, f: Problem)
  {
    0 <= i < |es| && FaultyProfile(es[i], f) && forall j, x :: 0 <= j < i ==> !FaultyProfile(es[j], x)
  }

  /** What is wrong with the first profile that is wrong. */
  ghost predicate FaultyAmong(es: seq<Element>, f: Problem)
  {
    exists i :: FirstFaultyProfile(es, i, f)
  }

  lemma {:induction false} ProfilesFault(es: seq<Element>, f: Problem)
    ensures ParseProfiles(es) == Failed(f) <==> FaultyAmong(Profiles(es), f)
    decreases |es|
  {
    hide ParseProfile, FaultyProfile, FaultyAmong;
    if es == [] {
      NoneFaulty(f);
    } else {
      var rest := Profiles(es[1..]);
      ProfilesFault(es[1..], f);
      if es[0].name != "profile" {
        assert Profiles(es) == rest;
      } else {
        assert Profiles(es) == [es[0]] + rest;
        FirstFaultyLater(es[0], rest, f);
        ProfileFaults(es[0], f);
        if ParseProfile(es[0]).Failed? {
          ProfileFaults(es[0], ParseProfile(es[0]).error);
        } else {
          forall x
            ensures !FaultyProfile(es[0], x)
          {
            ProfileFaults(es[0], x);
          }
        }
      }
    }
  }

  lemma {:induction false} NoneFaulty(f: Problem)
    ensures !FaultyAmong(Profiles([]), f)
  {
  }

  lemma {:induction false} FirstFaultyLater(e: Element, es: seq<Element>, f: Problem)
    ensures FaultyAmong([e] + es, f) <==> FaultyProfile(e, f) || ((forall x :: !FaultyProfile(e, x)) && FaultyAmong(es, f))
  {
    hide FaultyProfile;
    var all := [e] + es;
    if i :| FirstFaultyProfile(all, i, f) {
      if i > 0 {
        assert forall x :: !FaultyProfile(all[0], x);
        forall j, x | 0 <= j < i - 1
          ensures !FaultyProfile(es[j], x)
        {
          assert es[j] == all[j + 1];
        }
        assert FirstFaultyProfile(es, i - 1, f);
      }
    }
    if FaultyProfile(e, f) {
      assert FirstFaultyProfile(all, 0, f);
    } else if forall x :: !FaultyProfile(e, x) {
      if i :| FirstFaultyProfile(es, i, f) {
        forall j, x | 0 <= j < i + 1
          ensures !FaultyProfile(all[j], x)
        {
          assert j > 0 ==> all[j] == es[j - 1];
        }
        assert FirstFaultyProfile(all, i + 1, f);
      }
    }
  }

  /** What is wrong with a numeric attribute: it is missing, no numeral, or too large. */
  ghost predicate FaultyNumber(e: Element, name: string, f: Problem)
  {
    var raw := Attr(e.attrs, name);
    if raw.None? then f == MissingField(name)
    else if !Numeral(raw.value) then f == InvalidDigit(name)
    else Worth(raw.value) >= 0x1_0000_0000 && f == ValueOutOfRange(name)
  }

  /** Why a document is no message: it is no document, its root is none of the five elements, or the first thing asked of it is wrong. */
  lemma {:induction false} FaultsExactly(s: string, f: Problem)
    ensures FromXml(s) == Failed(f) <==>
      if Parse(s).Failed? then f == Syntax(Parse(s).error)
      else
        var e := Parse(s).value;
        if e.name == "start" then
          FaultyNumber(e, "number", f) || ((forall x :: !FaultyNumber(e, "number", x)) && FaultyAmong(Profiles(e.children), f))
        else if e.name == "close" then
          FaultyNumber(e, "number", f) || ((forall x :: !FaultyNumber(e, "number", x)) && FaultyNumber(e, "code", f))
        else if e.name == "profile" then FaultyProfile(e, f)
        else if e.name == "error" then FaultyNumber(e, "code", f)
        else e.name != "ok" && f == UnexpectedElement
  {
    hide Parse, FaultyProfile, FaultyAmong, ParseProfile, ParseProfiles, TextOf, AttrU32, FaultyNumber, Profiles;
    if Parse(s).Ok? {
      var e := Parse(s).value;
      NumberFault(e, "number", f);
      NumberFault(e, "code", f);
      ProfilesFault(e.children, f);
      ProfileFaults(e, f);
    }
  }

  lemma {:induction false} NumberFault(e: Element, name: string, f: Problem)
    ensures AttrU32(e, name) == Failed(f) <==> FaultyNumber(e, name, f)
    ensures AttrU32(e, name).Ok? <==> forall x :: !FaultyNumber(e, name, x)
  {
    hide AttrU32, Worth, Numeral;
    AttrNumberExactly(e, name);
    if AttrU32(e, name).Failed? {
      assert FaultyNumber(e, name, AttrU32(e, name).error);
    }
  }

  // ---- entity headers ----------------------------------------------------------------

  /** ASCII white space. */
  predicate Blank(c: char) { c == ' ' || c == '\t' || c == '\n' || c == '\r' || c as int == 12 }

  /** The same letters, capital or not. */
  ghost predicate SameLetters(a: string, b: string)
  {
    |a| == |b| && forall i :: 0 <= i < |a| ==> SameLetter(a[i], b[i])
  }

  predicate SameLetter(c: char, d: char)
  {
    || c == d || ('A' <= c <= 'Z' && d as int == c as int + 32) || ('A' <= d <= 'Z' && c as int == d as int + 32)
  }

  /** A line without the return in front of its line feed. */
  function Unreturned(line: string): string
  {
    if line != "" && line[|line| - 1] == '\r' then line[..|line| - 1] else line
  }

  /** A header line: a name, a colon, and a value with blanks around it. */
  ghost predicate Carries(line: string, name: string, value: string)
  {
    exists k :: ColonAt(Unreturned(line), k) && SameLetters(Unreturned(line)[..k], name) && Stripped(Unreturned(line)[k + 1..], value, Blank)
  }

  ghost predicate ColonAt(s: string, k: int)
  {
    0 <= k < |s| && s[k] == ':' && forall i :: 0 <= i < k ==> s[i] != ':'
  }

  lemma {:induction false} IndexMeans(s: string, c: char)
    ensures IndexOf(s, c).None? <==> c !in s
    ensures IndexOf(s, c).Some? ==> c !in s[..IndexOf(s, c).value]
  {
    if s != "" && s[0] != c {
      IndexMeans(s[1..], c);
      var rest := IndexOf(s[1..], c);
      if rest.Some? {
        assert s[..rest.value + 1] == [s[0]] + s[1..][..rest.value];
      } else {
        assert s == [s[0]] + s[1..];
      }
    }
  }

  lemma {:induction false} BlankIs(c: char)
    ensures Blank(c) <==> G.IsAsciiSpace(c)
  {
  }

  lemma {:induction false} AsciiStartCuts(s: string) returns (i: nat)
    ensures i <= |s| && G.TrimAsciiStart(s) == s[i..] && (forall k :: 0 <= k < i ==> Blank(s[k])) && (i < |s| ==> !Blank(s[i]))
  {
    i := 0;
    if s != "" && G.IsAsciiSpace(s[0]) {
      var n := AsciiStartCuts(s[1..]);
      i := n + 1;
      assert s[1..][n..] == s[i..];
    }
  }

  lemma {:induction false} AsciiEndCuts(s: string) returns (j: nat)
    ensures j <= |s| && G.TrimAsciiEnd(s) == s[..j] && (forall k :: j <= k < |s| ==> Blank(s[k])) && (j > 0 ==> !Blank(s[j - 1]))
  {
    j := |s|;
    if s != "" && G.IsAsciiSpace(s[|s| - 1]) {
      j := AsciiEndCuts(s[..|s| - 1]);
      assert s[..|s| - 1][..j] == s[..j];
    }
  }

  lemma {:induction false} AsciiStrips(s: string)
    ensures Stripped(s, G.TrimAsciiEnd(G.TrimAsciiStart(s)), Blank)
  {
    hide Blank;
    var i := AsciiStartCuts(s);
    var j := AsciiEndCuts(s[i..]);
    assert s[i..][..j] == s[i..i + j];
    assert Cuts(s, i, i + j, Blank);
  }

  lemma {:induction false} LettersIgnoreCase(a: string, b: string)
    ensures G.EqIgnoreCase(a, b) <==> SameLetters(a, b)
  {
    forall i | 0 <= i < |a| && |a| == |b|
      ensures G.Lower(a[i]) == G.Lower(b[i]) <==> SameLetter(a[i], b[i])
    {
    }
  }

  /** One line carries a header exactly as it looks. */
  lemma {:induction false} LineExactly(line: string, name: string, value: string)
    ensures G.HeaderIn(G.StripCr(line), name) == Some(value) <==> Carries(line, name, value)
  {
    hide Stripped, Blank, G.TrimAsciiStart, G.TrimAsciiEnd, G.EqIgnoreCase, SameLetters;
    var s := Unreturned(line);
    var colon := IndexOf(s, ':');
    IndexMeans(s, ':');
    if colon.Some? {
      var rest := s[colon.value + 1..];
      LettersIgnoreCase(s[..colon.value], name);
      AsciiStrips(rest);
      assert ColonAt(s, colon.value);
      if Carries(line, name, value) {
        var k :| ColonAt(s, k) && SameLetters(s[..k], name) && Stripped(s[k + 1..], value, Blank);
        assert k == colon.value;
        StrippedOnce(rest, value, G.TrimAsciiEnd(G.TrimAsciiStart(rest)), Blank);
      }
    }
  }

  /** Header lines, with line feeds between them. */
  function Lines(lines: seq<string>): string
  {
    if lines == [] then "" else if |lines| == 1 then lines[0] else lines[0] + "\n" + Lines(lines[1..])
  }

  /** Line `i` is the first that carries the header. */
  ghost predicate FirstCarries(lines: seq<string>, name: string, value: string, i: int)
  {
    0 <= i < |lines| && Carries(lines[i], name, value) && forall j, v :: 0 <= j < i ==> !Carries(lines[j], name, v)
  }

  /** A header has the value that the first line carrying it gives it, and none when no line does. */
  lemma {:induction false} HeaderExactly(lines: seq<string>, name: string, value: string)
    requires lines != [] && forall i :: 0 <= i < |lines| ==> '\n' !in lines[i]
    ensures G.Header(Lines(lines), name) == Some(value) <==> exists i :: FirstCarries(lines, name, value, i)
    decreases |lines|
  {
    hide G.HeaderIn, Carries, G.StripCr;
    HeaderFirst(lines, name);
    LineExactly(lines[0], name, value);
    var found := G.HeaderIn(G.StripCr(lines[0]), name);
    if found.Some? {
      LineExactly(lines[0], name, found.value);
      FirstAtOnce(lines, name, value, found.value);
    } else {
      forall v
        ensures !Carries(lines[0], name, v)
      {
        LineExactly(lines[0], name, v);
      }
      if |lines| > 1 {
        HeaderExactly(lines[1..], name, value);
        FirstLater(lines, name, value);
      }
    }
  }

  lemma {:induction false} HeaderFirst(lines: seq<string>, name: string)
    requires lines != [] && '\n' !in lines[0]
    ensures
      var found := G.HeaderIn(G.StripCr(lines[0]), name);
      G.Header(Lines(lines), name) == if found.Some? || |lines| == 1 then found else G.Header(Lines(lines[1..]), name)
  {
    hide G.HeaderIn, G.StripCr;
    if |lines| == 1 {
      IndexMeans(lines[0], '\n');
    } else {
      var s := Lines(lines);
      assert s == lines[0] + ['\n'] + Lines(lines[1..]);
      IndexOfBehind(lines[0], Lines(lines[1..]), '\n');
      assert s[..|lines[0]|] == lines[0] && s[|lines[0]| + 1..] == Lines(lines[1..]);
    }
  }

  lemma {:induction false} FirstAtOnce(lines: seq<string>, name: string, value: string, found: string)
    requires lines != [] && Carries(lines[0], name, found)
    ensures (exists i :: FirstCarries(lines, name, value, i)) <==> Carries(lines[0], name, value)
  {
    hide Carries;
    if Carries(lines[0], name, value) {
      assert FirstCarries(lines, name, value, 0);
    }
    if i :| FirstCarries(lines, name, value, i) {
      assert i == 0;
    }
  }

  lemma {:induction false} FirstLater(lines: seq<string>, name: string, value: string)
    requires |lines| > 1 && forall v :: !Carries(lines[0], name, v)
    ensures (exists i :: FirstCarries(lines, name, value, i)) <==> exists i :: FirstCarries(lines[1..], name, value, i)
  {
    hide Carries;
    if i :| FirstCarries(lines, name, value, i) {
      assert i > 0;
      forall j, v | 0 <= j < i - 1
        ensures !Carries(lines[1..][j], name, v)
      {
        assert lines[1..][j] == lines[j + 1];
      }
      assert FirstCarries(lines[1..], name, value, i - 1);
    }
    if i :| FirstCarries(lines[1..], name, value, i) {
      forall j, v | 0 <= j < i + 1
        ensures !Carries(lines[j], name, v)
      {
        assert j > 0 ==> lines[j] == lines[1..][j - 1];
      }
      assert FirstCarries(lines, name, value, i + 1);
    }
  }

  // ---- payloads and greetings --------------------------------------------------------

  /** Where the headers of a payload end: at once, at the first empty line, or nowhere. */
  lemma {:induction false} SplitExactly(payload: string, headers: string, body: string)
    ensures payload == "\r\n" + body ==> G.Split(payload) == G.Entity("", body)
    ensures payload == headers + "\r\n\r\n" + body && !StartsWith(payload, "\r\n") && Seek(headers + "\r\n\r", "\r\n\r\n").None? ==>
      G.Split(payload) == G.Entity(headers, body)
    ensures !StartsWith(payload, "\r\n") && Seek(payload, "\r\n\r\n").None? ==> G.Split(payload) == G.Entity("", payload)
  {
    if payload == "\r\n" + body {
      assert payload[2..] == body && payload[..2] == "\r\n";
    }
    if payload == headers + "\r\n\r\n" + body && Seek(headers + "\r\n\r", "\r\n\r\n").None? {
      assert "\r\n\r\n"[..3] == "\r\n\r";
      F.SeekAtEnd(headers, "\r\n\r\n", body);
      assert payload[..|headers|] == headers && payload[|headers| + 4..] == body;
    }
  }

  /** A payload is XML when its content type says so, in whatever case. */
  lemma {:induction false} BeepXmlExactly(payload: string)
    ensures
      var ct := G.Header(G.Split(payload).headers, "Content-Type");
      G.BeepXml(payload) == if ct.Some? && SameLetters(ct.value, "application/beep+xml") then Some(G.Split(payload).body) else None
  {
    hide G.Header, G.EqIgnoreCase, SameLetters;
    var ct := G.Header(G.Split(payload).headers, "Content-Type");
    if ct.Some? {
      LettersIgnoreCase(ct.value, "application/beep+xml");
    }
  }

  /** A payload that is not XML is neither a message nor a greeting; a document that is no greeting is an unexpected element. */
  lemma {:induction false} NotXml(payload: string)
    ensures G.BeepXml(payload) == None ==> G.MessageOf(payload) == Failed(NotBeepXml) && G.GreetingOf(payload) == Failed(NotBeepXml)
    ensures G.BeepXml(payload).Some? && Parse(G.BeepXml(payload).value).Failed? ==>
      G.GreetingOf(payload) == Failed(Syntax(Parse(G.BeepXml(payload).value).error))
    ensures G.BeepXml(payload).Some? && Parse(G.BeepXml(payload).value).Ok? && Parse(G.BeepXml(payload).value).value.name != "greeting" ==>
      G.GreetingOf(payload) == Failed(UnexpectedElement)
  {
    hide Parse, G.BeepXml;
  }

  /** The profile elements that name a URI, and the URIs they name. */
  function Uris(es: seq<Element>): seq<string>
  {
    if es == [] then []
    else (if es[0].name == "profile" && Attr(es[0].attrs, "uri").Some? then [Attr(es[0].attrs, "uri").value] else []) + Uris(es[1..])
  }

  lemma {:induction false} UrisOfExactly(es: seq<Element>)
    ensures G.UrisOf(es) == Uris(es)
  {
    if es != [] {
      UrisOfExactly(es[1..]);
    }
  }

  /** A payload is a greeting if and only if its XML is a greeting element, and says what that element says. */
  lemma {:induction false} GreetingReads(payload: string, g: G.Greeting)
    ensures
      var xml := G.BeepXml(payload);
      G.GreetingOf(payload) == Ok(g) <==>
        && xml.Some? && Parse(xml.value).Ok? && Parse(xml.value).value.name == "greeting"
        && var e := Parse(xml.value).value;
           g.profiles == Uris(e.children) && g.features == Attr(e.attrs, "features") && g.localize == Attr(e.attrs, "localize")
  {
    hide Parse, G.BeepXml, Attr;
    var xml := G.BeepXml(payload);
    if xml.Some? && Parse(xml.value).Ok? {
      UrisOfExactly(Parse(xml.value).value.children);
    }
  }
}
