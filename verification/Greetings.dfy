/** Entity headers, and the greeting each end announces itself with. */
module Greetings {
  import opened Octets
  import opened Xml
  import opened XmlLaws
  import opened Management
  import opened ManagementLaws
  import RoundTrips

  // ---- entity headers ----------------------------------------------------------------

  const CONTENT_TYPE: string := "Content-Type"
  const BEEP_XML: string := "application/beep+xml"

  datatype Entity = Entity(headers: string, body: string)

  /** `mime::split`. */
  function Split(payload: string): Entity
  {
    if StartsWith(payload, "\r\n") then Entity("", payload[2..])
    else
      var at := Seek(payload, "\r\n\r\n");
      if at.None? then Entity("", payload) else Entity(payload[..at.value], payload[at.value + 4..])
  }

  function Lower(c: char): char { if 'A' <= c <= 'Z' then c - 'A' + 'a' else c }

  predicate EqIgnoreCase(a: string, b: string)
  {
    |a| == |b| && forall i :: 0 <= i < |a| ==> Lower(a[i]) == Lower(b[i])
  }

  predicate IsAsciiSpace(c: char) { c == ' ' || c == '\t' || c == '\n' || c == '\U{C}' || c == '\r' }

  function TrimAsciiStart(s: string): string
  {
    if s != "" && IsAsciiSpace(s[0]) then TrimAsciiStart(s[1..]) else s
  }

  function TrimAsciiEnd(s: string): string
  {
    if s != "" && IsAsciiSpace(s[|s| - 1]) then TrimAsciiEnd(s[..|s| - 1]) else s
  }

  function StripCr(line: string): string
  {
    if line != "" && line[|line| - 1] == '\r' then line[..|line| - 1] else line
  }

  /** A header line's value, if it is the header asked for. */
  function HeaderIn(line: string, name: string): Option<string>
  {
    var colon := IndexOf(line, ':');
    if colon.None? || !EqIgnoreCase(line[..colon.value], name) then None
    else Some(TrimAsciiEnd(TrimAsciiStart(line[colon.value + 1..])))
  }

  /** `mime::header`: the first line that carries it. */
  function Header(headers: string, name: string): Option<string>
    decreases |headers|
  {
    var lf := IndexOf(headers, '\n');
    var line := StripCr(if lf.None? then headers else headers[..lf.value]);
    var found := HeaderIn(line, name);
    if found.Some? || lf.None? then found else Header(headers[lf.value + 1..], name)
  }

  /** The XML of a payload that says it is BEEP XML. */
  function BeepXml(payload: string): Option<string>
  {
    var e := Split(payload);
    var ct := Header(e.headers, CONTENT_TYPE);
    if ct.None? || !EqIgnoreCase(ct.value, BEEP_XML) then None else Some(e.body)
  }

  function ToPayload(xml: string): string
  {
    CONTENT_TYPE + ": " + BEEP_XML + "\r\n\r\n" + xml
  }

  lemma {:induction false} SeekBehind(a: string, pat: string, rest: string)
    requires pat != "" && forall i :: 0 <= i < |a| ==> a[i] != pat[0]
    ensures Seek(a + pat + rest, pat) == Some(|a|)
  {
    var s := a + pat + rest;
    if a == "" {
      assert s[..|pat|] == pat;
    } else {
      assert s[0] == a[0] && s[..|pat|][0] == a[0];
      assert s[1..] == a[1..] + pat + rest;
      SeekBehind(a[1..], pat, rest);
    }
  }

  lemma {:induction false} IndexOfNone(s: string, c: char)
    requires forall i :: 0 <= i < |s| ==> s[i] != c
    ensures IndexOf(s, c).None?
  {
    if s != "" {
      IndexOfNone(s[1..], c);
    }
  }

  lemma {:induction false} BeepXmlTrimmed()
    ensures TrimAsciiEnd(TrimAsciiStart(" " + BEEP_XML)) == BEEP_XML
  {
    var value := " " + BEEP_XML;
    assert value[1..] == BEEP_XML;
    assert TrimAsciiStart(value) == TrimAsciiStart(BEEP_XML) == BEEP_XML;
  }

  lemma {:induction false} ContentTypeIn()
    ensures HeaderIn(CONTENT_TYPE + ": " + BEEP_XML, CONTENT_TYPE) == Some(BEEP_XML)
  {
    hide TrimAsciiEnd, TrimAsciiStart, IndexOf;
    var line := CONTENT_TYPE + ": " + BEEP_XML;
    assert line == CONTENT_TYPE + [':'] + (" " + BEEP_XML);
    IndexOfBehind(CONTENT_TYPE, " " + BEEP_XML, ':');
    assert line[..12] == CONTENT_TYPE && line[13..] == " " + BEEP_XML;
    BeepXmlTrimmed();
  }

  lemma {:induction false} ContentTypeFound()
    ensures Header(CONTENT_TYPE + ": " + BEEP_XML, CONTENT_TYPE) == Some(BEEP_XML)
  {
    hide HeaderIn, IndexOf;
    var line := CONTENT_TYPE + ": " + BEEP_XML;
    IndexOfNone(line, '\n');
    assert StripCr(line) == line;
    ContentTypeIn();
  }

  /** A payload made of some XML is read as that XML. */
  lemma {:induction false} PayloadRoundTrip(xml: string)
    ensures BeepXml(ToPayload(xml)) == Some(xml)
  {
    hide Header, Seek;
    var head := CONTENT_TYPE + ": " + BEEP_XML;
    var payload := ToPayload(xml);
    assert payload == head + "\r\n\r\n" + xml;
    SeekBehind(head, "\r\n\r\n", xml);
    assert payload[..|head|] == head && payload[|head| + 4..] == xml && payload[0] == 'C';
    ContentTypeFound();
  }

  /** `Message::from_payload`. */
  function MessageOf(payload: string): Result<Message, Problem>
  {
    var xml := BeepXml(payload);
    if xml.None? then Failed(NotBeepXml) else FromXml(xml.value)
  }

  /** A management message comes back from its payload exactly when it comes back from its XML. */
  lemma {:induction false} MessagePayloadRoundTrip(m: Message)
    ensures MessageOf(ToPayload(Render(m))) == Ok(m) <==> RoundTrips.Returns(m)
  {
    hide FromXml, Render, BeepXml, ToPayload, RoundTrips.Returns;
    PayloadRoundTrip(Render(m));
    RoundTrips.MessageRoundTrip(m);
  }

  // ---- greetings ---------------------------------------------------------------------

  datatype Greeting = Greeting(profiles: seq<string>, features: Option<string>, localize: Option<string>)

  function PushAttr(name: string, value: Option<string>): string
  {
    if value.None? then "" else " " + name + "='" + Escape(value.value) + "'"
  }

  function Announce(uris: seq<string>): string
  {
    if uris == [] then "" else "   <profile uri='" + Escape(uris[0]) + "' />\r\n" + Announce(uris[1..])
  }

  /** The XML of `Greeting::to_payload`. */
  function RenderGreeting(g: Greeting): string
  {
    "<greeting" + PushAttr("features", g.features) + PushAttr("localize", g.localize)
    + if g.profiles == [] then " />\r\n" else ">\r\n" + Announce(g.profiles) + "</greeting>\r\n"
  }

  /** The URIs of the profiles among the children; one without a URI is passed over. */
  function UrisOf(children: seq<Element>): seq<string>
  {
    if children == [] then []
    else
      var uri := Attr(children[0].attrs, "uri");
      (if children[0].name == "profile" && uri.Some? then [uri.value] else []) + UrisOf(children[1..])
  }

  /** `Greeting::from_payload`. */
  function GreetingOf(payload: string): Result<Greeting, Problem>
  {
    var xml := BeepXml(payload);
    if xml.None? then Failed(NotBeepXml) else
    var root := Parse(xml.value);
    if root.Failed? then Failed(Syntax(root.error))
    else if root.value.name != "greeting" then Failed(UnexpectedElement)
    else
      var e := root.value;
      Ok(Greeting(UrisOf(e.children), Attr(e.attrs, "features"), Attr(e.attrs, "localize")))
  }

  function Bare(uris: seq<string>): seq<Profile>
  {
    if uris == [] then [] else [Profile(uris[0], Literal, None)] + Bare(uris[1..])
  }

  function GreetingDoc(g: Greeting): Doc
  {
    Doc("greeting", Optional("features", g.features) + Optional("localize", g.localize),
        if g.profiles == [] then None else Some(ProfilesContent(Bare(g.profiles))))
  }

  lemma {:induction false} BareCarried(uris: seq<string>)
    ensures forall i :: 0 <= i < |Bare(uris)| ==> CarriedProfile(Bare(uris)[i])
  {
    if uris != [] {
      BareCarried(uris[1..]);
    }
  }

  lemma {:induction false} AnnounceLine(u: string, rest: string)
    ensures "   " + ("<profile uri='" + u + "'" + "" + " />") + "\r\n" + rest == "   <profile uri='" + u + "' />\r\n" + rest
  {
    assert "' />\r\n" == "'" + " />" + "\r\n" && "   <profile uri='" == "   " + "<profile uri='";
  }

  lemma {:induction false} AnnounceIsProfiles(uris: seq<string>)
    ensures Announce(uris) == RenderProfiles(Bare(uris))
  {
    hide Escape;
    if uris != [] {
      var ps := Bare(uris);
      assert ps[1..] == Bare(uris[1..]);
      AnnounceIsProfiles(uris[1..]);
      AnnounceLine(Escape(uris[0]), Announce(uris[1..]));
    }
  }

  lemma {:induction false} GreetingTag(g: Greeting)
    ensures "<" + "greeting" + PrintAttrs(GreetingDoc(g).attrs)
         == "<greeting" + PushAttr("features", g.features) + PushAttr("localize", g.localize)
  {
    hide Escape, PrintAttrs, Optional;
    PrintAttrsAppend(Optional("features", g.features), Optional("localize", g.localize));
    OptionalPrints("features", g.features);
    OptionalPrints("localize", g.localize);
    assert "<" + "greeting" == "<greeting";
    Associate("<greeting", PushAttr("features", g.features), PushAttr("localize", g.localize));
  }

  lemma {:induction false} GreetingBody(head: string, ps: string)
    ensures head + (">\r\n" + ps + "</greeting>\r\n") == head + (">" + ("\r\n" + ps) + "</" + "greeting" + ">") + "\r\n"
    ensures head + " />\r\n" == head + " />" + "\r\n"
  {
  }

  lemma {:induction false} GreetingPrints(g: Greeting)
    ensures RenderGreeting(g) == Print(GreetingDoc(g)) + "\r\n"
  {
    hide PrintAttrs, PushAttr, PrintContent, RenderProfiles, ProfilesContent, Optional, CarriedProfile;
    GreetingTag(g);
    BareCarried(g.profiles);
    ProfilesPrint(Bare(g.profiles));
    AnnounceIsProfiles(g.profiles);
    GreetingBody("<" + "greeting" + PrintAttrs(GreetingDoc(g).attrs), Announce(g.profiles));
  }

  lemma {:induction false} UrisOfProfiles(uris: seq<string>)
    ensures UrisOf(Children(ProfilesContent(Bare(uris)))) == uris
  {
    if uris == [] {
      assert Children(Nothing) == [];
    } else {
      var ps := Bare(uris);
      assert ps[1..] == Bare(uris[1..]) && ps[0] == Profile(uris[0], Literal, None);
      UrisOfProfiles(uris[1..]);
      var first, rest := Meaning(ProfileDoc(ps[0])), Children(ProfilesContent(ps[1..]));
      assert first.name == "profile" && first.attrs[0] == ("uri", uris[0]);
      assert Children(Child(ProfileDoc(ps[0]), ProfilesContent(ps[1..]))) == [first] + rest;
      assert ([first] + rest)[1..] == rest;
      assert [uris[0]] + uris[1..] == uris;
    }
  }

  lemma {:induction false} GreetingAttrs(g: Greeting)
    ensures Attr(GreetingDoc(g).attrs, "features") == g.features && Attr(GreetingDoc(g).attrs, "localize") == g.localize
  {
    var attrs := GreetingDoc(g).attrs;
    OptionalFound("localize", g.localize);
    assert "features" != "localize";
    if g.features.Some? {
      assert attrs[0] == ("features", g.features.value) && attrs[1..] == Optional("localize", g.localize);
    } else {
      assert attrs == Optional("localize", g.localize);
      assert Attr(attrs, "features") == None by {
        if attrs != [] {
          assert attrs[1..] == [];
        }
      }
    }
  }

  lemma {:induction false} GreetingGood(g: Greeting)
    ensures GoodDoc(GreetingDoc(g), 0)
  {
    hide ProfilesContent, CarriedProfile;
    BareCarried(g.profiles);
    ProfilesGood(Bare(g.profiles), 0);
  }

  /** Greetings come back whole, whatever strings they hold. */
  lemma {:induction false} GreetingRoundTrip(g: Greeting)
    ensures GreetingOf(ToPayload(RenderGreeting(g))) == Ok(g)
  {
    hide BeepXml, ToPayload, Parse, Print, RenderGreeting, Attr, UrisOf, ProfilesContent, GoodDoc;
    PayloadRoundTrip(RenderGreeting(g));
    GreetingPrints(g);
    GreetingGood(g);
    ParseRoundTrip(GreetingDoc(g), "\r\n");
    GreetingAttrs(g);
    UrisOfProfiles(g.profiles);
    NoUris();
  }

  lemma {:induction false} NoUris()
    ensures UrisOf([]) == []
  {
  }
}
