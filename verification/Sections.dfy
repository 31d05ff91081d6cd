/**
 * Why a section cannot carry everything: reading never makes text longer than the document it
 * came from, so content that closes its own section cannot come back whole.
 */
module Sections {
  import opened Octets
  import opened Xml
  import opened XmlLaws
  import opened Management
  import opened ManagementLaws

  // ---- what is left is the end of what there was -------------------------------------

  ghost predicate Suffix(rest: string, s: string)
  {
    |rest| <= |s| && s[|s| - |rest|..] == rest
  }

  lemma {:induction false} SuffixOf(s: string, k: nat)
    requires k <= |s|
    ensures Suffix(s[k..], s)
  {
  }

  lemma {:induction false} SuffixTwice(a: string, b: string, c: string)
    requires Suffix(a, b) && Suffix(b, c)
    ensures Suffix(a, c)
  {
    assert c[|c| - |a|..] == c[|c| - |b|..][|b| - |a|..];
  }

  lemma {:induction false} SkipWsSuffix(s: string)
    ensures Suffix(SkipWs(s), s)
  {
    if s != "" && IsWs(s[0]) {
      SkipWsSuffix(s[1..]);
      SuffixOf(s, 1);
      SuffixTwice(SkipWs(s[1..]), s[1..], s);
    }
  }

  lemma {:induction false} ReadNameSuffix(s: string)
    requires ReadName(s).Ok?
    ensures Suffix(ReadName(s).value.rest, s)
  {
    hide NameLength;
    SuffixOf(s, NameLength(s));
  }

  lemma {:induction false} ExpectSuffix(s: string, c: char)
    requires Expect(SkipWs(s), c).Ok?
    ensures Suffix(Expect(SkipWs(s), c).value, s)
  {
    hide SkipWs;
    SkipWsSuffix(s);
    SuffixOf(SkipWs(s), 1);
    SuffixTwice(SkipWs(s)[1..], SkipWs(s), s);
  }

  lemma {:induction false} ReadAttrValueSuffix(s: string)
    requires ReadAttrValue(SkipWs(s)).Ok?
    ensures Suffix(ReadAttrValue(SkipWs(s)).value.rest, s)
  {
    hide SkipWs, DecodeEntities, IndexOf, Suffix;
    var t := SkipWs(s);
    SkipWsSuffix(s);
    var end := IndexOf(t[1..], t[0]).value;
    SuffixOf(t, end + 2);
    SuffixTwice(t[end + 2..], t, s);
  }

  lemma {:induction false} ReadAttrSuffix(s: string)
    requires ReadAttr(s).Ok?
    ensures Suffix(ReadAttr(s).value.rest, s)
  {
    hide ReadName, SkipWs, Expect, ReadAttrValue, Suffix;
    var key := ReadName(s).value.rest;
    ReadNameSuffix(s);
    var eq := Expect(SkipWs(key), '=').value;
    ExpectSuffix(key, '=');
    SuffixTwice(eq, key, s);
    ReadAttrValueSuffix(eq);
    SuffixTwice(ReadAttr(s).value.rest, eq, s);
  }

  lemma {:induction false} ReadTagSuffix(s: string)
    requires ReadTag(s).Ok?
    ensures Suffix(ReadTag(s).value.rest, s)
    decreases |s|
  {
    hide SkipWs, ReadAttr, Suffix;
    var t := SkipWs(s);
    SkipWsSuffix(s);
    if t[0] == '/' {
      SuffixOf(t, 1);
      SuffixOf(t[1..], 1);
      SuffixTwice(t[1..][1..], t[1..], t);
    } else if t[0] == '>' {
      SuffixOf(t, 1);
    } else {
      var rest := ReadAttr(t).value.rest;
      ReadAttrSuffix(t);
      ReadTagSuffix(rest);
      SuffixTwice(ReadTag(rest).value.rest, rest, t);
    }
    SuffixTwice(ReadTag(s).value.rest, t, s);
  }

  lemma {:induction false} BeforeSuffix(t: string, s: string)
    requires Suffix(t, s) && t != ""
    ensures s[|s| - |t|] == t[0] && (|t| == |s| ==> t == s)
  {
    assert t == s[|s| - |t|..];
  }

  lemma {:induction false} NamePrefix(s: string)
    requires ReadName(s).Ok?
    ensures s == ReadName(s).value.value + ReadName(s).value.rest
  {
    hide NameLength;
  }

  /** An end tag takes at least its own name, and that only when nothing stands between. */
  lemma {:induction false} EndTagSize(s: string, name: string)
    requires EndTag(s, name).Ok?
    ensures
      var rest := EndTag(s, name).value;
      && Suffix(rest, s) && |s| >= |rest| + |name| + 1 && s[|s| - |rest| - 1] == '>'
      && (|s| == |rest| + |name| + 1 ==> s == name + ">" + rest)
  {
    hide ReadName, SkipWs, Suffix;
    var behind := ReadName(s).value.rest;
    NamePrefix(s);
    ReadNameSuffix(s);
    var t := SkipWs(behind);
    SkipWsSuffix(behind);
    BeforeSuffix(t, behind);
    SuffixTwice(t, behind, s);
    BeforeSuffix(t, s);
    SuffixOf(t, 1);
    SuffixTwice(t[1..], t, s);
    assert t == ">" + t[1..];
    Associate(name, ">", t[1..]);
  }

  // ---- text never grows --------------------------------------------------------------

  lemma {:induction false} DecodeShrinks(raw: string)
    requires DecodeEntities(raw).Ok?
    ensures
      var v := DecodeEntities(raw).value;
      |v| <= |raw| && (|v| == |raw| ==> v == raw)
    decreases |raw|
  {
    hide Entity, IndexOf;
    if raw != "" {
      if raw[0] != '&' {
        DecodeShrinks(raw[1..]);
        assert raw == [raw[0]] + raw[1..];
      } else {
        var tail := raw[1..];
        var end := IndexOf(tail[..Min(|tail|, MAX_ENTITY_LEN)], ';').value;
        DecodeShrinks(tail[end + 1..]);
      }
    }
  }

  /**
   * What reading content does to an element: its text grows by at most what was read less the
   * end tag, and by exactly that only when what was read is the text itself.
   */
  ghost predicate Shrinks(s: string, e: Element, r: Read<Element>)
  {
    && r.value.name == e.name && |e.text| <= |r.value.text| && r.value.text[..|e.text|] == e.text
    && Suffix(r.rest, s) && |s| > |r.rest| && s[|s| - |r.rest| - 1] == '>'
    && var gained := r.value.text[|e.text|..];
       && |gained| + |e.name| + 3 + |r.rest| <= |s|
       && (|gained| + |e.name| + 3 + |r.rest| == |s| ==> s == gained + ("</" + e.name + ">" + r.rest))
  }

  lemma {:induction false} EndShrinks(s: string, e: Element, depth: nat)
    requires StartsWith(s, "</") && EndTag(s[2..], e.name).Ok?
    ensures Shrinks(s, e, Read(e, EndTag(s[2..], e.name).value))
  {
    hide EndTag;
    var rest := EndTag(s[2..], e.name).value;
    EndTagSize(s[2..], e.name);
    SuffixOf(s, 2);
    SuffixTwice(rest, s[2..], s);
    assert s == "</" + s[2..];
    assert s[|s| - |rest| - 1] == s[2..][|s[2..]| - |rest| - 1];
    assert e.text[|e.text|..] == "";
    if |s[2..]| == |rest| + |e.name| + 1 {
      assert s == "" + ("</" + e.name + ">" + rest);
    }
  }

  /** Markup inside the content leaves less text than it took. */
  lemma {:induction false} MarkupShrinks(s: string, t: string, e: Element, e': Element, r: Read<Element>)
    requires Suffix(t, s) && e'.name == e.name && |e.text| <= |e'.text| && e'.text[..|e.text|] == e.text
    requires |e'.text| - |e.text| + |t| < |s| && Shrinks(t, e', r)
    ensures Shrinks(s, e, r)
  {
    SuffixTwice(r.rest, t, s);
    assert r.value.text[..|e.text|] == r.value.text[..|e'.text|][..|e.text|];
    assert s[|s| - |r.rest| - 1] == s[|s| - |t|..][|t| - |r.rest| - 1];
  }

  lemma {:induction false} TextShrinks(s: string, n: nat, v: string, e: Element, r: Read<Element>)
    requires n <= |s| && |v| <= n && (|v| == n ==> v == s[..n])
    requires Shrinks(s[n..], e.(text := e.text + v), r)
    ensures Shrinks(s, e, r)
  {
    var e' := e.(text := e.text + v);
    SuffixOf(s, n);
    if |v| < n {
      assert e'.text[..|e.text|] == e.text;
      MarkupShrinks(s, s[n..], e, e', r);
    } else {
      SuffixTwice(r.rest, s[n..], s);
      assert r.value.text[..|e.text|] == r.value.text[..|e'.text|][..|e.text|];
      var gained := r.value.text[|e'.text|..];
      assert r.value.text[|e.text|..] == v + gained by {
        assert r.value.text == e'.text + gained;
        assert r.value.text == e.text + (v + gained);
      }
      assert s == v + s[n..];
      assert s[|s| - |r.rest| - 1] == s[n..][|s[n..]| - |r.rest| - 1];
      Associate(v, gained, "</" + e.name + ">" + r.rest);
    }
  }

  lemma {:induction false} CdataShrinks(s: string, at: nat, e: Element, r: Read<Element>)
    requires |CDATA_OPEN| + at + |CDATA_CLOSE| <= |s|
    requires
      var body := s[|CDATA_OPEN|..];
      Shrinks(body[at + |CDATA_CLOSE|..], e.(text := e.text + body[..at]), r)
    ensures Shrinks(s, e, r)
  {
    hide Shrinks, Suffix;
    var body := s[|CDATA_OPEN|..];
    var e' := e.(text := e.text + body[..at]);
    var k := |CDATA_OPEN| + at + |CDATA_CLOSE|;
    assert body[at + |CDATA_CLOSE|..] == s[k..];
    SuffixOf(s, k);
    assert e'.text[..|e.text|] == e.text;
    MarkupShrinks(s, s[k..], e, e', r);
  }

  lemma {:induction false} ElementSuffix(s: string, depth: nat)
    requires ParseElement(s, depth).Ok?
    ensures Suffix(ParseElement(s, depth).value.rest, s)
    decreases |s|, 0
  {
    hide ReadTag, NameLength, Suffix, ParseContent;
    var t := s[1..];
    SuffixOf(s, 1);
    var u := ReadName(t).value.rest;
    SuffixOf(t, NameLength(t));
    SuffixTwice(u, t, s);
    var tag := ReadTag(u).value;
    ReadTagSuffix(u);
    SuffixTwice(tag.rest, u, s);
    if !tag.value.empty {
      var e := Element(ReadName(t).value.value, tag.value.attrs, [], "");
      ContentShrinks(tag.rest, e, depth);
      SuffixTwice(ParseContent(tag.rest, e, depth).value.rest, tag.rest, s);
    }
  }

  /** Reading content never finds more text than there was. */
  lemma {:induction false} ContentShrinks(s: string, e: Element, depth: nat)
    requires ParseContent(s, e, depth).Ok?
    ensures Shrinks(s, e, ParseContent(s, e, depth).value)
    ensures Suffix(ParseContent(s, e, depth).value.rest, s)
    decreases |s|, 1
  {
    hide Shrinks, Suffix, EndTag, Seek, DecodeEntities, ParseElement, TextLength;
    var r := ParseContent(s, e, depth).value;
    if StartsWith(s, "</") {
      EndShrinks(s, e, depth);
    } else if StartsWith(s, "<!--") {
      var t := SkipPast(s, "-->").value;
      SuffixOf(s, |s| - |t|);
      ContentShrinks(t, e, depth);
      assert e.text[..|e.text|] == e.text;
      MarkupShrinks(s, t, e, e, r);
    } else if StartsWith(s, CDATA_OPEN) {
      var body := s[|CDATA_OPEN|..];
      var at := Seek(body, CDATA_CLOSE).value;
      ContentShrinks(body[at + |CDATA_CLOSE|..], e.(text := e.text + body[..at]), depth);
      CdataShrinks(s, at, e, r);
    } else if s[0] == '<' {
      var child := ParseElement(s, depth + 1).value;
      ElementSuffix(s, depth + 1);
      var e' := e.(children := e.children + [child.value]);
      ContentShrinks(child.rest, e', depth);
      assert e'.text[..|e.text|] == e.text;
      MarkupShrinks(s, child.rest, e, e', r);
    } else {
      var n := TextLength(s);
      DecodeShrinks(s[..n]);
      var v := DecodeEntities(s[..n]).value;
      assert |s[..n]| == n;
      TextLengthPositive(s);
      ContentShrinks(s[n..], e.(text := e.text + v), depth);
      TextShrinks(s, n, v, e, r);
    }
    ShrinksSuffix(s, e, r);
  }

  lemma {:induction false} ShrinksSuffix(s: string, e: Element, r: Read<Element>)
    requires Shrinks(s, e, r)
    ensures Suffix(r.rest, s)
  {
  }

  lemma {:induction false} TextLengthPositive(s: string)
    requires s != "" && s[0] != '<'
    ensures TextLength(s) > 0
  {
  }

  // ---- content that cannot come back -------------------------------------------------

  /** Only repeated section ends can be moved past one more. */
  lemma {:induction false} SwapOnly(b: string)
    requires CDATA_CLOSE + b == b + CDATA_CLOSE
    ensures OnlyCloses(b)
  {
    if b != "" {
      var s := CDATA_CLOSE + b;
      assert s[..3] == CDATA_CLOSE && s[|b|..] == CDATA_CLOSE;
      assert s[2] == '>' && s[|b|] == s[|b|..][0] == ']' && s[|b| + 1] == s[|b|..][1] == ']';
      assert |b| >= 3;
      assert b[..3] == (b + CDATA_CLOSE)[..3];
      assert b == CDATA_CLOSE + b[3..];
      assert s[3..] == b;
      assert (b + CDATA_CLOSE)[3..] == b[3..] + CDATA_CLOSE;
      SwapOnly(b[3..]);
    }
  }

  /** `rest` is a proper end of `whole`, right behind a '>'. */
  ghost predicate Behind(rest: string, whole: string)
  {
    |rest| < |whole| && Suffix(rest, whole) && whole[|whole| - |rest| - 1] == '>'
  }

  /** An end of `front + tail` shorter than `tail` is an end of `tail`. */
  lemma {:induction false} BehindTail(rest: string, front: string, tail: string)
    requires Behind(rest, front + tail) && |rest| < |tail|
    ensures Behind(rest, tail)
  {
    var whole := front + tail;
    assert whole[|whole| - |rest|..] == tail[|tail| - |rest|..];
    assert whole[|whole| - |rest| - 1] == tail[|tail| - |rest| - 1];
  }

  lemma {:induction false} ShrinksBehind(s: string, e: Element, r: Read<Element>)
    requires Shrinks(s, e, r)
    ensures Behind(r.rest, s)
  {
  }

  /** Content that closes its own section is given back only by an element that ends behind its own end tag. */
  lemma {:induction false} EndsBehind(c: string, e: Element, tail: string, depth: nat)
    requires !Carried(c) && e.text == "" && e.name == "profile"
    ensures
      var r := ParseContent(CDATA_OPEN + c + ("]]></profile>" + tail), e, depth);
      r.Ok? && r.value.value.text == c ==> Behind(r.value.rest, tail)
  {
    hide ParseContent, Shrinks, OnlyCloses, Behind;
    var at := Seek(c, CDATA_CLOSE).value;
    var a, b := c[..at], c[at + 3..];
    var e' := e.(text := "" + a);
    var s := b + ("]]></profile>" + tail);
    CdataStops(c, e, tail, depth);
    var r := ParseContent(s, e', depth);
    if r.Ok? && r.value.value.text == c {
      ContentShrinks(s, e', depth);
      assert "" + a == a;
      SeekFinds(c);
      assert c == a + (CDATA_CLOSE + b) && c[at..] == CDATA_CLOSE + b;
      if |r.value.rest| >= |tail| {
        Exhausted(s, b, e', tail, r.value);
        SwapOnly(b);
        OneMore(b);
      } else {
        ShrinksBehind(s, e', r.value);
        Associate(b, "]]></profile>", tail);
        BehindTail(r.value.rest, b + "]]></profile>", tail);
      }
    }
  }

  lemma {:induction false} OneMore(b: string)
    requires OnlyCloses(b)
    ensures OnlyCloses(CDATA_CLOSE + b)
  {
    var s := CDATA_CLOSE + b;
    assert s[..3] == CDATA_CLOSE && s[3..] == b;
  }

  lemma {:induction false} SeekFinds(c: string)
    requires Seek(c, CDATA_CLOSE).Some?
    ensures var at := Seek(c, CDATA_CLOSE).value; c[at..at + 3] == CDATA_CLOSE
  {
    if c[..3] != CDATA_CLOSE {
      SeekFinds(c[1..]);
      var at := Seek(c, CDATA_CLOSE).value;
      assert c[1..][at - 1..at + 2] == c[at..at + 3];
    }
  }

  /** The section ends at the first end the content holds. */
  lemma {:induction false} CdataStops(c: string, e: Element, tail: string, depth: nat)
    requires Seek(c, CDATA_CLOSE).Some?
    ensures
      var at := Seek(c, CDATA_CLOSE).value;
      ParseContent(CDATA_OPEN + c + ("]]></profile>" + tail), e, depth)
        == ParseContent(c[at + 3..] + ("]]></profile>" + tail), e.(text := e.text + c[..at]), depth)
  {
    var at := Seek(c, CDATA_CLOSE).value;
    var end := "]]></profile>" + tail;
    hide ParseContent, Seek, Free;
    var a, b := c[..at], c[at + 3..];
    SeekFree(c);
    SeekFinds(c);
    assert c == a + CDATA_CLOSE + b;
    StopsText(a, b, end);
    CdataReads(a, b + end, e, depth);
  }

  lemma {:induction false} StopsText(a: string, b: string, tail: string)
    ensures CDATA_OPEN + (a + CDATA_CLOSE + b) + tail == CDATA_OPEN + a + CDATA_CLOSE + (b + tail)
  {
  }

  /** Text that comes back at full length is the document itself, up to the end tag. */
  lemma {:induction false} Exhausted(s: string, b: string, e: Element, tail: string, r: Read<Element>)
    requires s == b + ("]]></profile>" + tail) && e.name == "profile" && Shrinks(s, e, r) && |r.rest| >= |tail|
    requires r.value.text == e.text + (CDATA_CLOSE + b)
    ensures CDATA_CLOSE + b == b + CDATA_CLOSE
  {
    var gained := r.value.text[|e.text|..];
    assert gained == CDATA_CLOSE + b;
    var end := "</" + e.name + ">" + r.rest;
    assert |s| == |b| + 13 + |tail| && |r.rest| == |tail|;
    assert s == gained + end;
    assert s[..|b| + 3] == gained;
    assert s[..|b| + 3] == b + CDATA_CLOSE;
  }
}
