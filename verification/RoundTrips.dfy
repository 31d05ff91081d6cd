/** When a management message comes back from its rendering: exactly when its text and content can be carried. */
module RoundTrips {
  import opened Octets
  import opened Xml
  import opened XmlLaws
  import opened Management
  import opened ManagementLaws
  import opened Sections

  // ---- when a message comes back -----------------------------------------------------

  /** Content that comes back: none, or some that a section can carry. */
  predicate ContentReturns(content: Option<string>)
  {
    content.None? || (content.value != "" && Carried(content.value))
  }

  /** Text that comes back: none, or some with no white space around it. */
  predicate TextReturns(text: Option<string>)
  {
    text.None? || (text.value != "" && Trim(text.value) == text.value)
  }

  lemma {:induction false} TrimShorter(s: string)
    ensures |TrimStart(s)| <= |s| && |TrimEnd(s)| <= |s|
    ensures s != "" && IsSpace(s[0]) ==> |TrimStart(s)| < |s|
    ensures s != "" && IsSpace(s[|s| - 1]) ==> |TrimEnd(s)| < |s|
  {
    if s != "" {
      TrimShorter(s[1..]);
      TrimShorter(s[..|s| - 1]);
    }
  }

  /** Text is trimmed exactly when it neither begins nor ends with white space. */
  lemma {:induction false} TrimmedMeans(s: string)
    ensures Trim(s) == s <==> s == "" || (!IsSpace(s[0]) && !IsSpace(s[|s| - 1]))
  {
    hide IsSpace;
    TrimShorter(s);
    TrimShorter(TrimStart(s));
  }

  predicate Returns(m: Message)
  {
    match m
    case Start(_, _, profiles) => forall i :: 0 <= i < |profiles| ==> ContentReturns(profiles[i].content)
    case Close(_, _, _, text) => TextReturns(text)
    case Accepted(profile) => ContentReturns(profile.content)
    case Okay => true
    case Refused(_, _, text) => TextReturns(text)
  }

  lemma {:induction false} ReadProfilesSame(ps: seq<Profile>)
    ensures |ReadProfiles(ps)| == |ps|
    ensures forall i :: 0 <= i < |ps| ==> ReadProfiles(ps)[i] == ReadProfile(ps[i])
  {
    if ps != [] {
      ReadProfilesSame(ps[1..]);
    }
  }

  /** Among messages whose content can be carried, the reader returns exactly those it should. */
  lemma {:induction false} ReadBackSame(m: Message)
    requires CarriedMessage(m)
    ensures ReadBack(m) == m <==> Returns(m)
  {
    hide Carried, Trim;
    if m.Start? {
      ReadProfilesSame(m.profiles);
      if forall i :: 0 <= i < |m.profiles| ==> ReadProfile(m.profiles[i]) == m.profiles[i] {
        assert ReadProfiles(m.profiles) == m.profiles;
      }
      if ReadProfiles(m.profiles) == m.profiles {
        forall i | 0 <= i < |m.profiles|
          ensures ContentReturns(m.profiles[i].content)
        {
          assert CarriedProfile(m.profiles[i]) && ReadProfile(m.profiles[i]) == m.profiles[i];
        }
      }
    }
  }

  lemma {:induction false} ProfileSection(p: Profile)
    requires p.content.Some?
    ensures Render(Accepted(p)) == "<" + "profile" + PrintAttrs(ProfileAttrs(p))
                                   + (">" + (CDATA_OPEN + p.content.value + "]]></profile>\r\n"))
  {
    hide Escape, PrintAttrs, ProfileAttrs;
    ProfileTagPrints(p);
    SectionTail("<" + "profile" + PrintAttrs(ProfileAttrs(p)), p.content.value);
  }

  lemma {:induction false} SectionTail(head: string, c: string)
    ensures head + ("><![CDATA[" + c + "]]></profile>") + "\r\n" == head + (">" + (CDATA_OPEN + c + "]]></profile>\r\n"))
  {
  }

  lemma {:induction false} NotCarriedFails(p: Profile)
    requires p.content.Some? && !Carried(p.content.value)
    ensures FromXml(Render(Accepted(p))) != Ok(Accepted(p))
  {
    hide Render, ParseContent, ParseElement, ReadTag, Carried, PrintAttrs, SkipProlog;
    var c := p.content.value;
    var rest := CDATA_OPEN + c + ("]]></profile>" + "\r\n");
    var e := Element("profile", ProfileAttrs(p), [], "");
    assert "]]></profile>" + "\r\n" == "]]></profile>\r\n";
    ProfileSection(p);
    TagEnds(rest);
    ElementReads("profile", ProfileAttrs(p), ">" + rest, 0);
    PrologNone(Render(Accepted(p)));
    EndsBehind(c, e, "\r\n", 0);
    var r := ParseContent(rest, e, 0);
    if r.Ok? {
      NothingBehind(r.value.rest);
    }
  }

  lemma {:induction false} NothingBehind(rest: string)
    ensures !Behind(rest, "\r\n")
  {
  }

  // ---- a start with such content -----------------------------------------------------

  /** What is rendered behind the start tag of a `<start>`. */
  function Body(ps: seq<Profile>): string { "\r\n" + RenderProfiles(ps) + "</start>\r\n" }

  /** A profile's start tag as rendered, and what is rendered behind it. */
  function Front(p: Profile): string
  {
    "<profile uri='" + Escape(p.uri) + "'" + (if p.encoding.Base64? then " encoding='base64'" else "")
    + (if p.content.None? then " />" else ">")
  }

  function Back(p: Profile): string
  {
    if p.content.None? then "" else CDATA_OPEN + p.content.value + "]]></profile>"
  }

  lemma {:induction false} FrontBack(p: Profile)
    ensures RenderProfile(p) == Front(p) + Back(p)
  {
    hide Escape;
    if p.content.Some? {
      assert "><![CDATA[" + p.content.value + "]]></profile>" == ">" + (CDATA_OPEN + p.content.value + "]]></profile>");
    }
  }

  /** The only '>' of a rendered start tag is its last character. */
  ghost predicate OnlyLast(front: string)
  {
    front != "" && forall i :: 0 <= i < |front| - 1 ==> front[i] != '>'
  }

  lemma {:induction false} FrontOnlyLast(p: Profile)
    ensures OnlyLast("\r\n   " + Front(p))
  {
    hide Escape;
    EscapeTame(p.uri);
  }

  /** An element that ends inside such a piece of text ends behind it. */
  lemma {:induction false} PastFront(rest: string, front: string, tail: string)
    requires OnlyLast(front) && Behind(rest, front + tail)
    ensures Suffix(rest, tail)
  {
    var whole := front + tail;
    var k := |whole| - |rest| - 1;
    assert k < |front| ==> whole[k] == front[k];
    assert |rest| <= |tail|;
    assert whole[k + 1..] == tail[|tail| - |rest|..];
  }

  /** Where reading may stand once the end of the element before was missed. */
  function Ahead(ps: seq<Profile>): string
  {
    if ps == [] then "\r\n" else Back(ps[0]) + Body(ps[1..])
  }

  lemma {:induction false} BodySplit(ps: seq<Profile>)
    requires ps != []
    ensures Body(ps) == "\r\n   " + (RenderProfile(ps[0]) + Body(ps[1..]))
    ensures Body(ps) == ("\r\n   " + Front(ps[0])) + Ahead(ps)
  {
    hide RenderProfile, Front, Back;
    FrontBack(ps[0]);
    var p, rest := RenderProfile(ps[0]), RenderProfiles(ps[1..]);
    BodyText(p, rest);
    var f, b := Front(ps[0]), Back(ps[0]);
    Associate(f, b, Body(ps[1..]));
    Associate("\r\n   ", f, b + Body(ps[1..]));
  }

  lemma {:induction false} BodyText(p: string, rest: string)
    ensures "\r\n" + ("   " + p + "\r\n" + rest) + "</start>\r\n" == "\r\n   " + (p + ("\r\n" + rest + "</start>\r\n"))
  {
  }

  lemma {:induction false} MissedEnd(rest: string, ps: seq<Profile>)
    requires Behind(rest, Body(ps))
    ensures Suffix(rest, Ahead(ps))
  {
    hide Behind, Suffix, RenderProfile, Front, Back;
    if ps == [] {
      var front := "\r\n</start>";
      assert Body(ps) == front + "\r\n";
      PastFront(rest, front, "\r\n");
    } else {
      BodySplit(ps);
      FrontOnlyLast(ps[0]);
      PastFront(rest, "\r\n   " + Front(ps[0]), Ahead(ps));
    }
  }

  // ---- how much a profile element takes ----------------------------------------------

  lemma {:induction false} AttrTakes(s: string)
    requires ReadAttr(s).Ok?
    ensures |s| >= |ReadAttr(s).value.rest| + |ReadAttr(s).value.value.0| + 3
  {
    hide NameLength, SkipWs, IndexOf, DecodeEntities;
  }

  /** A start tag ends with a '>', and a `uri` in it takes at least six characters more. */
  lemma {:induction false} TagTakes(s: string)
    requires ReadTag(s).Ok?
    ensures
      var r := ReadTag(s).value;
      && Behind(r.rest, s)
      && |s| >= |r.rest| + 1 + (if Attr(r.value.attrs, "uri").Some? then 6 else 0)
    decreases |s|
  {
    hide SkipWs, ReadAttr, Suffix, Behind;
    var t := SkipWs(s);
    SkipWsSuffix(s);
    var r := ReadTag(s).value;
    if t[0] == '/' {
      TagEndBehind(t[1..], r.rest);
      SuffixOf(t, 1);
      BehindSuffix(r.rest, t[1..], t);
      BehindSuffix(r.rest, t, s);
    } else if t[0] == '>' {
      TagEndBehind(t, r.rest);
      BehindSuffix(r.rest, t, s);
    } else {
      var attr := ReadAttr(t).value;
      AttrTakes(t);
      ReadAttrSuffix(t);
      TagTakes(attr.rest);
      BehindSuffix(r.rest, attr.rest, t);
      BehindSuffix(r.rest, t, s);
      var more := ReadTag(attr.rest).value.value.attrs;
      assert r.value.attrs == [attr.value] + more && ([attr.value] + more)[1..] == more;
    }
  }

  lemma {:induction false} TagEndBehind(t: string, rest: string)
    requires t != "" && t[0] == '>' && rest == t[1..]
    ensures Behind(rest, t)
  {
  }

  lemma {:induction false} BehindSuffix(rest: string, t: string, s: string)
    requires Behind(rest, t) && Suffix(t, s)
    ensures Behind(rest, s)
  {
    SuffixTwice(rest, t, s);
    assert s[|s| - |t|..][|t| - |rest| - 1] == s[|s| - |rest| - 1];
  }

  /** A profile element takes its tags and its text at least, and ends with a '>'. */
  lemma {:induction false} ProfileTakes(s: string, depth: nat)
    requires ParseElement(s, depth).Ok?
    requires
      var e := ParseElement(s, depth).value.value;
      e.name == "profile" && Attr(e.attrs, "uri").Some?
    ensures
      var r := ParseElement(s, depth).value;
      && Behind(r.rest, s)
      && |s| >= |r.rest| + 15 + (if r.value.text == "" then 0 else |r.value.text| + 10)
  {
    hide ReadTag, NameLength, Suffix, ParseContent, Behind, Shrinks;
    var t := s[1..];
    SuffixOf(s, 1);
    var name := ReadName(t).value;
    NamePrefix(t);
    ReadNameSuffix(t);
    var tag := ReadTag(name.rest).value;
    TagTakes(name.rest);
    SuffixTwice(name.rest, t, s);
    BehindSuffix(tag.rest, name.rest, s);
    if !tag.value.empty {
      var e := Element(name.value, tag.value.attrs, [], "");
      ContentShrinks(tag.rest, e, depth);
      var r := ParseContent(tag.rest, e, depth).value;
      ShrinksBehind(tag.rest, e, r);
      ShrinksText(tag.rest, e, r);
      ContentKeepsAttrs(tag.rest, e, depth);
      BehindIsSuffix(tag.rest, s);
      BehindSuffix(r.rest, tag.rest, s);
    }
  }

  lemma {:induction false} BehindIsSuffix(rest: string, s: string)
    requires Behind(rest, s)
    ensures Suffix(rest, s)
  {
  }

  lemma {:induction false} ShrinksText(s: string, e: Element, r: Read<Element>)
    requires Shrinks(s, e, r) && e.text == ""
    ensures |r.value.text| + |e.name| + 3 + |r.rest| <= |s| && r.value.name == e.name
  {
    assert r.value.text[0..] == r.value.text;
  }

  /** Reading content changes no attribute and only adds children. */
  lemma {:induction false} ContentKeepsAttrs(s: string, e: Element, depth: nat)
    requires ParseContent(s, e, depth).Ok?
    ensures
      var q := ParseContent(s, e, depth).value.value;
      q.attrs == e.attrs && q.name == e.name && e.children <= q.children
    decreases |s|
  {
    hide EndTag, Seek, DecodeEntities, ParseElement, TextLength;
    if StartsWith(s, "</") {
    } else if StartsWith(s, "<!--") {
      ContentKeepsAttrs(SkipPast(s, "-->").value, e, depth);
    } else if StartsWith(s, CDATA_OPEN) {
      var body := s[|CDATA_OPEN|..];
      var at := Seek(body, CDATA_CLOSE).value;
      ContentKeepsAttrs(body[at + |CDATA_CLOSE|..], e.(text := e.text + body[..at]), depth);
    } else if s[0] == '<' {
      var child := ParseElement(s, depth + 1).value;
      ContentKeepsAttrs(child.rest, e.(children := e.children + [child.value]), depth);
    } else {
      var n := TextLength(s);
      TextLengthPositive(s);
      ContentKeepsAttrs(s[n..], e.(text := e.text + DecodeEntities(s[..n]).value), depth);
    }
  }

  // ---- what a misplaced reader cannot find -------------------------------------------

  /** The profiles among the children `q` has beyond those of `e`. */
  function Gained(e: Element, q: Element): Result<seq<Profile>, Problem>
  {
    if e.children <= q.children then ParseProfiles(q.children[|e.children|..]) else Failed(UnexpectedElement)
  }

  lemma {:induction false} ChildStep(s: string, e: Element, depth: nat)
    requires |s| > 1 && s[0] == '<' && s[1] != '/' && s[1] != '!'
    ensures
      var child := ParseElement(s, depth + 1);
      ParseContent(s, e, depth) ==
        if child.Failed? then child
        else ParseContent(child.value.rest, e.(children := e.children + [child.value.value]), depth)
  {
    hide ParseElement, DecodeEntities, TextLength, EndTag, SkipPast, Seek;
    assert !StartsWith(s, "</") && !StartsWith(s, "<!--") && !StartsWith(s, CDATA_OPEN);
  }

  /** One child more is one profile more, or none if it is not a profile. */
  lemma {:induction false} GainedChild(e: Element, child: Element, q: Element)
    requires e.children + [child] <= q.children
    ensures
      var rest := Gained(e.(children := e.children + [child]), q);
      Gained(e, q) ==
        if child.name != "profile" then rest
        else
          var p := ParseProfile(child);
          if p.Failed? then Failed(p.error)
          else if rest.Failed? then rest
          else Ok([p.value] + rest.value)
  {
    hide ParseProfile;
    var added := q.children[|e.children|..];
    assert added[0] == child && added[1..] == q.children[|e.children| + 1..];
  }

  /** A reader that stands behind the start tag of the next profile finds that profile, if at all, only past its end. */
  lemma {:induction false} NextMissed(s: string, ps: seq<Profile>, depth: nat)
    requires ps != [] && Suffix(s, Ahead(ps)) && ParseElement(s, depth).Ok?
    requires
      var e := ParseElement(s, depth).value.value;
      e.name == "profile" && ParseProfile(e) == Ok(ps[0])
    ensures Suffix(ParseElement(s, depth).value.rest, Ahead(ps[1..]))
  {
    hide ParseElement, Behind, Suffix, RenderProfiles;
    var r := ParseElement(s, depth).value;
    ProfileTakes(s, depth);
    BehindSuffix(r.rest, s, Ahead(ps));
    SuffixShorter(s, Ahead(ps));
    BehindTail(r.rest, Back(ps[0]), Body(ps[1..]));
    MissedEnd(r.rest, ps[1..]);
  }

  lemma {:induction false} SuffixShorter(s: string, t: string)
    requires Suffix(s, t)
    ensures |s| <= |t|
  {
  }

  lemma {:induction false} AheadOfNone(s: string)
    requires Suffix(s, "\r\n") && s != ""
    ensures s[0] != '<'
  {
  }

  /** From there the profiles still to come can never all be found. */
  lemma {:induction false} NeverFound(s: string, e: Element, ps: seq<Profile>, depth: nat)
    requires Suffix(s, Ahead(ps))
    ensures var q := ParseContent(s, e, depth); q.Ok? ==> Gained(e, q.value.value) != Ok(ps)
    decreases |s|
  {
    hide Suffix, EndTag, Seek, DecodeEntities, ParseElement, TextLength, Ahead, ParseProfile, ParseProfiles, Gained;
    var q := ParseContent(s, e, depth);
    if q.Ok? {
      ContentKeepsAttrs(s, e, depth);
      if StartsWith(s, "</") {
        GainedNone(e);
        if ps == [] {
          AheadNone();
          AheadOfNone(s);
        }
      } else if StartsWith(s, "<!--") {
        var t := SkipPast(s, "-->").value;
        SuffixOf(s, |s| - |t|);
        SuffixTwice(t, s, Ahead(ps));
        NeverFound(t, e, ps, depth);
      } else if StartsWith(s, CDATA_OPEN) {
        var body := s[|CDATA_OPEN|..];
        var at := Seek(body, CDATA_CLOSE).value;
        var k := |CDATA_OPEN| + at + |CDATA_CLOSE|;
        assert body[at + |CDATA_CLOSE|..] == s[k..];
        SuffixOf(s, k);
        SuffixTwice(s[k..], s, Ahead(ps));
        var e' := e.(text := e.text + body[..at]);
        NeverFound(s[k..], e', ps, depth);
        GainedText(e, e', q.value.value);
      } else if s[0] == '<' {
        ChildNeverFound(s, e, ps, depth);
      } else {
        var n := TextLength(s);
        TextLengthPositive(s);
        SuffixOf(s, n);
        SuffixTwice(s[n..], s, Ahead(ps));
        var e' := e.(text := e.text + DecodeEntities(s[..n]).value);
        NeverFound(s[n..], e', ps, depth);
        GainedText(e, e', q.value.value);
      }
    }
  }

  lemma {:induction false} GainedNone(e: Element)
    ensures Gained(e, e) == Ok([])
  {
    assert e.children[|e.children|..] == [];
  }

  lemma {:induction false} GainedText(e: Element, e': Element, q: Element)
    requires e'.children == e.children
    ensures Gained(e', q) == Gained(e, q)
  {
  }

  lemma {:induction false} AheadNone()
    ensures Ahead([]) == "\r\n"
  {
  }

  lemma {:induction false} ChildNeverFound(s: string, e: Element, ps: seq<Profile>, depth: nat)
    requires Suffix(s, Ahead(ps)) && s != "" && s[0] == '<'
    requires !StartsWith(s, "</") && !StartsWith(s, "<!--") && !StartsWith(s, CDATA_OPEN)
    ensures var q := ParseContent(s, e, depth); q.Ok? ==> Gained(e, q.value.value) != Ok(ps)
    decreases |s|, 0
  {
    hide Suffix, EndTag, Seek, DecodeEntities, ParseElement, TextLength, Ahead, ParseProfile, ParseProfiles, Gained;
    var q := ParseContent(s, e, depth);
    if q.Ok? {
      var child := ParseElement(s, depth + 1).value;
      var e' := e.(children := e.children + [child.value]);
      ElementSuffix(s, depth + 1);
      ContentKeepsAttrs(child.rest, e', depth);
      GainedChild(e, child.value, q.value.value);
      if child.value.name != "profile" {
        SuffixTwice(child.rest, s, Ahead(ps));
        NeverFound(child.rest, e', ps, depth);
      } else if Gained(e, q.value.value) == Ok(ps) {
        assert ps != [] && ParseProfile(child.value) == Ok(ps[0]);
        var rest := Gained(e', q.value.value).value;
        assert rest == ps[1..];
        NextMissed(s, ps, depth + 1);
        NeverFound(child.rest, e', ps[1..], depth);
      }
    }
  }

  // ---- a start whose content is not carried ------------------------------------------

  ghost predicate AllCarried(ps: seq<Profile>) { forall i :: 0 <= i < |ps| ==> CarriedProfile(ps[i]) }

  /** A profile that is not carried, in its own place: its element ends behind its own end. */
  lemma {:induction false} FirstMissed(p: Profile, tail: string)
    requires !CarriedProfile(p)
    ensures
      var child := ParseElement(RenderProfile(p) + tail, 1);
      child.Ok? ==>
        && child.value.value.name == "profile"
        && (ParseProfile(child.value.value) == Ok(p) ==> Behind(child.value.rest, tail))
  {
    hide ParseContent, ParseElement, ReadTag, Carried, PrintAttrs, Behind, Escape;
    var c := p.content.value;
    var rest := CDATA_OPEN + c + ("]]></profile>" + tail);
    var e := Element("profile", ProfileAttrs(p), [], "");
    ProfileTagPrints(p);
    MissedText("<" + "profile" + PrintAttrs(ProfileAttrs(p)), c, tail);
    TagEnds(rest);
    ElementReads("profile", ProfileAttrs(p), ">" + rest, 1);
    EndsBehind(c, e, tail, 1);
    if ParseContent(rest, e, 1).Ok? {
      ContentKeepsAttrs(rest, e, 1);
    }
  }

  lemma {:induction false} MissedText(head: string, c: string, tail: string)
    ensures head + ("><![CDATA[" + c + "]]></profile>") + tail == head + (">" + (CDATA_OPEN + c + ("]]></profile>" + tail)))
  {
  }

  /** Reading from the beginning: as soon as one profile is not carried, they are not all found. */
  lemma {:induction false} NotAllFound(ps: seq<Profile>, e: Element)
    requires !AllCarried(ps)
    ensures var q := ParseContent(Body(ps), e, 0); q.Ok? ==> Gained(e, q.value.value) != Ok(ps)
    decreases |ps|
  {
    hide ParseContent, ParseElement, RenderProfile, ProfileDoc, Gained, CarriedProfile, ParseProfile, Behind, Body, Suffix;
    var p, tail := ps[0], Body(ps[1..]);
    var s := RenderProfile(p) + tail;
    var e' := e.(text := e.text + "\r\n   ");
    BodySplit(ps);
    ProfileStarts(p, tail);
    EscapeInert("\r\n   ");
    TextReads("\r\n   ", s, e, 0);
    ChildStep(s, e', 0);
    var q := ParseContent(Body(ps), e, 0);
    if q.Ok? {
      var child := ParseElement(s, 1).value;
      var e'' := e'.(children := e'.children + [child.value]);
      ContentKeepsAttrs(child.rest, e'', 0);
      GainedText(e, e', q.value.value);
      GainedChild(e', child.value, q.value.value);
      if CarriedProfile(p) {
        ProfilePrints(p);
        ProfileGood(p, 1);
        DocRoundTrip(ProfileDoc(p), tail, 1);
        ProfileReads(p);
        ProfileName(p);
        assert !AllCarried(ps[1..]);
        NotAllFound(ps[1..], e'');
      } else {
        FirstMissed(p, tail);
        if Gained(e, q.value.value) == Ok(ps) {
          assert ParseProfile(child.value) == Ok(p) && Gained(e'', q.value.value).value == ps[1..];
          MissedEnd(child.rest, ps[1..]);
          NeverFound(child.rest, e'', ps[1..], 0);
        }
      }
    }
  }

  lemma {:induction false} ProfileName(p: Profile)
    ensures Meaning(ProfileDoc(p)).name == "profile"
  {
  }

  lemma {:induction false} ProfileStarts(p: Profile, tail: string)
    ensures
      var s := RenderProfile(p) + tail;
      |s| > 1 && s[0] == '<' && s[1] == 'p'
  {
  }

  lemma {:induction false} NotCarriedStartFails(m: Message)
    requires m.Start? && !AllCarried(m.profiles)
    ensures FromXml(Render(m)) != Ok(m)
  {
    hide ParseContent, ParseElement, ReadTag, PrintAttrs, SkipProlog, ParseProfiles, Optional, Decimal, Body, Escape;
    var attrs := ToDoc(m).attrs;
    var body := Body(m.profiles);
    var e := Element("start", attrs, [], "");
    StartText(m);
    StartAttrsGood(m);
    TagEnds(body);
    ElementReads("start", attrs, ">" + body, 0);
    RenderStarts(m);
    PrologNone(Render(m));
    NotAllFound(m.profiles, e);
    var q := ParseContent(body, e, 0);
    if q.Ok? {
      ContentKeepsAttrs(body, e, 0);
      assert q.value.value.children[0..] == q.value.value.children;
    }
  }

  lemma {:induction false} StartAttrsGood(m: Message)
    requires m.Start?
    ensures GoodAttrs(ToDoc(m).attrs) && GoodName("start")
  {
  }

  lemma {:induction false} RenderStarts(m: Message)
    requires m.Start?
    ensures |Render(m)| > 1 && Render(m)[0] == '<' && Render(m)[1] == 's'
  {
    hide Decimal, Escape, RenderProfiles;
  }

  lemma {:induction false} StartText(m: Message)
    requires m.Start?
    ensures Render(m) == "<" + "start" + PrintAttrs(ToDoc(m).attrs) + (">" + Body(m.profiles))
  {
    hide Escape, PrintAttrs, RenderProfiles, Optional, Decimal;
    StartTagPrints(m.number, m.serverName);
    StartBodyText("<" + "start" + PrintAttrs(ToDoc(m).attrs), RenderProfiles(m.profiles));
  }

  lemma {:induction false} StartBodyText(head: string, ps: string)
    ensures head + ">\r\n" + ps + "</start>\r\n" == head + (">" + ("\r\n" + ps + "</start>\r\n"))
  {
  }

  // ---- the round trip ----------------------------------------------------------------

  /**
   * Management XML round trip: rendering a message and reading it gives the message back exactly
   * when its text is absent, or not empty and trimmed, and all its content is absent, or not empty
   * and says nothing after a first "]]>" but "]]>" again.
   */
  lemma {:induction false} MessageRoundTrip(m: Message)
    ensures FromXml(Render(m)) == Ok(m) <==> Returns(m)
  {
    hide FromXml, Render, Carried, ReadBack;
    if CarriedMessage(m) {
      RenderReads(m);
      ReadBackSame(m);
    } else if m.Accepted? {
      NotCarriedFails(m.profile);
    } else {
      NotCarriedStartFails(m);
    }
  }

  /** Content that closes its own section and opens another reads as two profiles, not one. */
  lemma {:induction false} ContentCanPose(number: U32, serverName: Option<string>, p: Profile, x: string, q: Profile, y: string)
    requires p.content == Some(x) && q.content == Some(y) && q.encoding.Literal? && Carried(x) && Carried(y) && x != "" && y != ""
    ensures
      var posing := p.(content := Some(x + "]]></profile>\r\n   <profile uri='" + Escape(q.uri) + "'><![CDATA[" + y));
      FromXml(Render(Start(number, serverName, [posing]))) == Ok(Start(number, serverName, [p, q]))
  {
    hide FromXml, Carried, Escape, Decimal;
    var content := x + "]]></profile>\r\n   <profile uri='" + Escape(q.uri) + "'><![CDATA[" + y;
    var posing := p.(content := Some(content));
    var m := Start(number, serverName, [p, q]);
    assert [posing][1..] == [] && [p, q][1..] == [q] && [q][1..] == [];
    assert RenderProfiles([posing]) == "   " + RenderProfile(posing) + "\r\n" + "";
    assert RenderProfiles([q]) == "   " + RenderProfile(q) + "\r\n" + "";
    assert RenderProfiles([p, q]) == "   " + RenderProfile(p) + "\r\n" + RenderProfiles([q]);
    var head := "<profile uri='" + Escape(p.uri) + "'" + (if p.encoding.Base64? then " encoding='base64'" else "");
    PosingText(head, x, Escape(q.uri), y);
    MessageRoundTrip(m);
  }

  lemma {:induction false} PosingText(head: string, x: string, u: string, y: string)
    ensures "   " + (head + ("><![CDATA[" + (x + "]]></profile>\r\n   <profile uri='" + u + "'><![CDATA[" + y) + "]]></profile>")) + "\r\n" + ""
         == "   " + (head + ("><![CDATA[" + x + "]]></profile>")) + "\r\n"
            + ("   " + ("<profile uri='" + u + "'" + "" + ("><![CDATA[" + y + "]]></profile>")) + "\r\n" + "")
  {
    var sp, open, close, nl, uri, q := "   ", "><![CDATA[", "]]></profile>", "\r\n", "<profile uri='", "'";
    assert "]]></profile>\r\n   <profile uri='" == close + nl + sp + uri && "'><![CDATA[" == q + open;
    Regroup(sp, head, open, x, close, nl, uri, u, q, y);
  }

  lemma {:induction false} Regroup(sp: string, head: string, open: string, x: string, close: string, nl: string,
                                   uri: string, u: string, q: string, y: string)
    ensures sp + (head + (open + (x + (close + nl + sp + uri) + u + (q + open) + y) + close)) + nl + ""
         == sp + (head + (open + x + close)) + nl + (sp + (uri + u + q + "" + (open + y + close)) + nl + "")
  {
    var end := open + y + close + nl;
    var second := sp + uri + u + q + end;
    assert sp + (uri + u + q + "" + (open + y + close)) + nl + "" == second;
    assert x + (close + nl + sp + uri) + u + (q + open) + y + (close + nl) == x + close + nl + second;
    var inner := x + (close + nl + sp + uri) + u + (q + open) + y;
    assert sp + (head + (open + inner + close)) + nl + "" == sp + head + open + (inner + (close + nl));
    assert sp + (head + (open + x + close)) + nl + second == sp + head + open + (x + close + nl + second);
  }
}
