/** The XML reader as it runs: a cursor moving along the document. Each method is proved equal to its function in `Xml`. */
module Parsers {
  import opened Octets
  import opened Xml
  import XmlLaws

  lemma {:induction false} Tail(s: string, i: nat)
    requires i < |s|
    ensures s[i..] != "" && s[i..][0] == s[i] && s[i..][1..] == s[i + 1..]
  {
  }

  lemma {:induction false} TailFrom(s: string, i: nat, n: nat)
    requires i + n <= |s|
    ensures s[i..][n..] == s[i + n..] && s[i..][..n] == s[i..i + n]
  {
  }

  // ---- entities ----------------------------------------------------------------------

  /** `escape`: character by character onto the end of `out`. */
  method EscapeOnto(out: string, value: string) returns (r: string)
    ensures r == out + Escape(value)
  {
    r := out;
    var i := 0;
    assert value[0..] == value;
    while i < |value|
      invariant 0 <= i <= |value| && r + Escape(value[i..]) == out + Escape(value)
    {
      Tail(value, i);
      assert r + (EscapeChar(value[i]) + Escape(value[i + 1..])) == (r + EscapeChar(value[i])) + Escape(value[i + 1..]);
      r := r + EscapeChar(value[i]);
      i := i + 1;
    }
    assert value[i..] == "" && r + "" == r;
  }

  /** Text before the next ampersand is passed through. */
  lemma {:induction false} PassedThrough(rest: string, at: nat)
    requires at <= |rest| && forall i :: 0 <= i < at ==> rest[i] != '&'
    ensures
      var d := DecodeEntities(rest[at..]);
      DecodeEntities(rest) == if d.Failed? then d else Ok(rest[..at] + d.value)
    decreases at
  {
    if at == 0 {
      assert rest[0..] == rest;
      var d := DecodeEntities(rest);
      assert d.Ok? ==> rest[..0] + d.value == d.value;
    } else {
      PassedThrough(rest[1..], at - 1);
      assert rest[1..][at - 1..] == rest[at..];
      assert rest[..at] == [rest[0]] + rest[1..][..at - 1];
      var d := DecodeEntities(rest[at..]);
      assert d.Ok? ==> [rest[0]] + (rest[1..][..at - 1] + d.value) == rest[..at] + d.value;
    }
  }

  lemma {:induction false} IndexOfFirst(s: string, c: char)
    ensures forall i :: 0 <= i < (if IndexOf(s, c).Some? then IndexOf(s, c).value else |s|) ==> s[i] != c
  {
    if s != "" && s[0] != c {
      IndexOfFirst(s[1..], c);
      forall i | 0 <= i < (if IndexOf(s, c).Some? then IndexOf(s, c).value else |s|)
        ensures s[i] != c
      {
        if i > 0 {
          assert s[i] == s[1..][i - 1];
        }
      }
    }
  }

  /** One reference. */
  lemma {:induction false} ReferenceStep(rest: string)
    requires rest != "" && rest[0] == '&'
    ensures
      var tail := rest[1..];
      var end := IndexOf(tail[..Min(|tail|, MAX_ENTITY_LEN)], ';');
      DecodeEntities(rest) ==
        if end.None? then Failed(UnterminatedEntity)
        else
          var c := Entity(tail[..end.value]);
          if c.None? then Failed(UnsupportedEntity)
          else
            var d := DecodeEntities(tail[end.value + 1..]);
            if d.Failed? then d else Ok([c.value] + d.value)
  {
    hide Entity, IndexOf;
  }

  function Behind(out: string, d: Result<string, Fault>): Result<string, Fault>
  {
    if d.Failed? then d else Ok(out + d.value)
  }

  lemma {:induction false} BehindTwice(out: string, piece: string, d: Result<string, Fault>)
    ensures Behind(out, Behind(piece, d)) == Behind(out + piece, d)
  {
    if d.Ok? {
      assert out + (piece + d.value) == (out + piece) + d.value;
    }
  }

  /** `decode_entities`: from one ampersand to the next. */
  method ExpandEntities(raw: string) returns (r: Result<string, Fault>)
    ensures r == DecodeEntities(raw)
  {
    hide DecodeEntities, Entity, IndexOf;
    var out, rest := "", raw;
    assert Behind("", DecodeEntities(raw)) == DecodeEntities(raw) by {
      assert DecodeEntities(raw).Ok? ==> "" + DecodeEntities(raw).value == DecodeEntities(raw).value;
    }
    var at := IndexOf(rest, '&');
    while at.Some?
      invariant at == IndexOf(rest, '&')
      invariant DecodeEntities(raw) == Behind(out, DecodeEntities(rest))
      decreases |rest|
    {
      IndexOfFirst(rest, '&');
      PassedThrough(rest, at.value);
      TailFrom(rest, at.value, 1);
      ReferenceStep(rest[at.value..]);
      var tail := rest[at.value + 1..];
      var end := IndexOf(tail[..Min(|tail|, MAX_ENTITY_LEN)], ';');
      if end.None? {
        return Failed(UnterminatedEntity);
      }
      var c := Entity(tail[..end.value]);
      if c.None? {
        return Failed(UnsupportedEntity);
      }
      var left := tail[end.value + 1..];
      BehindTwice(rest[..at.value], [c.value], DecodeEntities(left));
      BehindTwice(out, rest[..at.value] + [c.value], DecodeEntities(left));
      out := out + (rest[..at.value] + [c.value]);
      rest := left;
      at := IndexOf(rest, '&');
    }
    IndexOfFirst(rest, '&');
    PassedThrough(rest, |rest|);
    XmlLaws.DecodeNone();
    assert rest[|rest|..] == "" && rest[..|rest|] == rest && rest + "" == rest;
    r := Ok(out + rest);
  }

  lemma {:induction false} SeekStep(s: string, k: nat, pat: string)
    requires k <= |s| && pat != ""
    ensures
      Seek(s[k..], pat) ==
        if |s| < k + |pat| then None
        else if s[k..k + |pat|] == pat then Some(0)
        else
          var rest := Seek(s[k + 1..], pat);
          if rest.None? then None else Some(rest.value + 1)
  {
    if k + |pat| <= |s| {
      TailFrom(s, k, |pat|);
      Tail(s, k);
    }
  }

  lemma {:induction false} IndexStep(s: string, k: nat, c: char)
    requires k <= |s|
    ensures
      IndexOf(s[k..], c) ==
        if k == |s| then None
        else if s[k] == c then Some(0)
        else
          var rest := IndexOf(s[k + 1..], c);
          if rest.None? then None else Some(rest.value + 1)
  {
    if k < |s| {
      Tail(s, k);
    }
  }

  /** One turn of the loop of `skip_prolog`. */
  lemma {:induction false} PrologStep(s: string)
    ensures
      var t := SkipWs(s);
      SkipProlog(s) ==
        if !StartsWith(t, "<?") && !StartsWith(t, "<!") then Ok(t)
        else
          var past := SkipPast(t, if StartsWith(t, "<?") then "?>" else if StartsWith(t, "<!--") then "-->" else ">");
          if past.Failed? then past else SkipProlog(past.value)
  {
    hide SkipWs, SkipPast, StartsWith;
  }

  // ---- the cursor --------------------------------------------------------------------

  class Parser {
    const src: string
    var i: nat

    ghost predicate Valid()
      reads this
    {
      i <= |src|
    }

    /** What is left of the document. */
    function Rest(): string
      requires Valid()
      reads this
    {
      src[i..]
    }

    constructor (src: string)
      ensures Valid() && Rest() == src && this.src == src
    {
      this.src := src;
      i := 0;
    }

    method SkipSpace()
      requires Valid()
      modifies this
      ensures Valid() && Rest() == SkipWs(old(Rest()))
    {
      while i < |src| && IsWs(src[i])
        invariant Valid() && SkipWs(Rest()) == SkipWs(old(Rest()))
        decreases |src| - i
      {
        Tail(src, i);
        i := i + 1;
      }
    }

    /** `skip_past`: tries every position from the cursor on. */
    method SkipOver(pat: string) returns (r: Result<(), Fault>)
      requires Valid() && pat != ""
      modifies this
      ensures Valid()
      ensures
        var s := SkipPast(old(Rest()), pat);
        if s.Failed? then r == Failed(s.error) else r == Ok(()) && Rest() == s.value
    {
      hide Seek;
      var start := i;
      var at := 0;
      while start + at + |pat| <= |src|
        invariant 0 <= at && start + at <= |src| && i == start
        invariant
          var here := Seek(src[start + at..], pat);
          Seek(src[start..], pat) == if here.None? then None else Some(here.value + at)
        decreases |src| - start - at
      {
        SeekStep(src, start + at, pat);
        if src[start + at..start + at + |pat|] == pat {
          TailFrom(src, start, at + |pat|);
          i := start + at + |pat|;
          return Ok(());
        }
        at := at + 1;
      }
      SeekStep(src, start + at, pat);
      return Failed(UnterminatedDeclaration);
    }

    /** `skip_prolog`. */
    method SkipDeclarations() returns (r: Result<(), Fault>)
      requires Valid()
      modifies this
      ensures Valid()
      ensures
        var s := SkipProlog(old(Rest()));
        if s.Failed? then r == Failed(s.error) else r == Ok(()) && Rest() == s.value
    {
      hide SkipWs, SkipPast, StartsWith, SkipProlog;
      while true
        invariant Valid() && SkipProlog(Rest()) == SkipProlog(old(Rest()))
        decreases |src| - i
      {
        ghost var before := Rest();
        SkipSpace();
        var t := Rest();
        PrologStep(before);
        if !StartsWith(t, "<?") && !StartsWith(t, "<!") {
          return Ok(());
        }
        var past := SkipOver(if StartsWith(t, "<?") then "?>" else if StartsWith(t, "<!--") then "-->" else ">");
        if past.Failed? {
          return Failed(past.error);
        }
      }
    }

    method Demand(c: char) returns (r: Result<(), Fault>)
      requires Valid()
      modifies this
      ensures Valid()
      ensures
        var s := Expect(old(Rest()), c);
        if s.Failed? then r == Failed(s.error) else r == Ok(()) && Rest() == s.value
    {
      if i == |src| || src[i] != c {
        return Failed(Expected(c));
      }
      Tail(src, i);
      i := i + 1;
      return Ok(());
    }

    /** `read_name`. */
    method TakeName() returns (r: Result<string, Fault>)
      requires Valid()
      modifies this
      ensures Valid()
      ensures
        var s := ReadName(old(Rest()));
        if s.Failed? then r == Failed(s.error) else r == Ok(s.value.value) && Rest() == s.value.rest
    {
      var start := i;
      while i < |src| && !EndsName(src[i])
        invariant start <= i <= |src|
        invariant NameLength(src[start..]) == i - start + NameLength(src[i..])
        decreases |src| - i
      {
        Tail(src, i);
        i := i + 1;
      }
      TailFrom(src, start, i - start);
      if i == start {
        return Failed(ExpectedName);
      }
      return Ok(src[start..i]);
    }

    /** Moves to the next `c`, or to the end if there is none. */
    method MoveTo(c: char)
      requires Valid()
      modifies this
      ensures Valid() && old(i) <= i
      ensures
        var at := IndexOf(old(Rest()), c);
        if at.None? then i == |src| else i == old(i) + at.value && i < |src|
    {
      hide IndexOf;
      IndexStep(src, i, c);
      while i < |src| && src[i] != c
        invariant old(i) <= i <= |src|
        invariant
          var here := IndexOf(src[i..], c);
          IndexOf(old(Rest()), c) == if here.None? then None else Some(here.value + (i - old(i)))
        decreases |src| - i
      {
        IndexStep(src, i, c);
        i := i + 1;
      }
      IndexStep(src, i, c);
    }

    /** `read_attr_value`: up to the quote that opened it. */
    method TakeAttrValue() returns (r: Result<string, Fault>)
      requires Valid()
      modifies this
      ensures Valid()
      ensures
        var s := ReadAttrValue(old(Rest()));
        if s.Failed? then r == Failed(s.error) else r == Ok(s.value.value) && Rest() == s.value.rest
    {
      hide DecodeEntities, IndexOf;
      if i == |src| || (src[i] != '"' && src[i] != '\'') {
        return Failed(NotQuoted);
      }
      var quote := src[i];
      Tail(src, i);
      i := i + 1;
      var start := i;
      MoveTo(quote);
      if i == |src| {
        return Failed(UnterminatedValue);
      }
      TailFrom(src, start, i - start);
      TailFrom(src, start - 1, i - start + 2);
      r := ExpandEntities(src[start..i]);
      i := i + 1;
    }

    /** One attribute: a name, an equals sign, a quoted value. */
    method TakeAttr() returns (r: Result<(string, string), Fault>)
      requires Valid()
      modifies this
      ensures Valid()
      ensures
        var s := ReadAttr(old(Rest()));
        if s.Failed? then r == Failed(s.error) else r == Ok(s.value.value) && Rest() == s.value.rest
    {
      hide ReadName, SkipWs, ReadAttrValue;
      var key := TakeName();
      if key.Failed? {
        return Failed(key.error);
      }
      SkipSpace();
      var eq := Demand('=');
      if eq.Failed? {
        return Failed(eq.error);
      }
      SkipSpace();
      var value := TakeAttrValue();
      if value.Failed? {
        return Failed(value.error);
      }
      return Ok((key.value, value.value));
    }

    /** The loop of `parse_element` over a start tag. */
    method TakeTag() returns (r: Result<Tag, Fault>)
      requires Valid()
      modifies this
      ensures Valid()
      ensures
        var s := ReadTag(old(Rest()));
        if s.Failed? then r == Failed(s.error) else r == Ok(s.value.value) && Rest() == s.value.rest
    {
      hide ReadAttr, SkipWs, ReadTag, Expect, WithAttrs;
      var attrs: seq<(string, string)> := [];
      WithNone(ReadTag(Rest()));
      while true
        invariant Valid() && ReadTag(old(Rest())) == WithAttrs(attrs, ReadTag(Rest()))
        decreases |src| - i
      {
        TagStep(Rest());
        SkipSpace();
        if i == |src| {
          WithFaults(attrs);
          return Failed(UnterminatedTag);
        }
        Tail(src, i);
        if src[i] == '/' {
          i := i + 1;
          var end := Demand('>');
          WithFaults(attrs);
          WithEnd(attrs, true);
          return if end.Failed? then Failed(end.error) else Ok(Tag(attrs, true));
        }
        if src[i] == '>' {
          i := i + 1;
          WithEnd(attrs, false);
          return Ok(Tag(attrs, false));
        }
        var attr := TakeAttr();
        WithFaults(attrs);
        if attr.Failed? {
          return Failed(attr.error);
        }
        WithTwice(attrs, [attr.value], ReadTag(Rest()));
        attrs := attrs + [attr.value];
      }
    }

    // ---- elements --------------------------------------------------------------------

    /** The end tag behind its "</". */
    method TakeEnd(name: string) returns (r: Result<(), Fault>)
      requires Valid()
      modifies this
      ensures Valid()
      ensures
        var s := EndTag(old(Rest()), name);
        if s.Failed? then r == Failed(s.error) else r == Ok(()) && Rest() == s.value
    {
      hide ReadName, SkipWs, Expect;
      var closing := TakeName();
      if closing.Failed? {
        return Failed(closing.error);
      }
      SkipSpace();
      var end := Demand('>');
      if end.Failed? {
        return Failed(end.error);
      }
      return if closing.value != name then Failed(MismatchedEnd) else Ok(());
    }

    /** The text up to the next markup. */
    method TakeText() returns (r: Result<string, Fault>)
      requires Valid() && i < |src| && src[i] != '<'
      modifies this
      ensures Valid() && old(i) < i
      ensures
        var n := TextLength(old(Rest()));
        r == DecodeEntities(old(Rest())[..n]) && Rest() == old(Rest())[n..]
    {
      hide DecodeEntities;
      var start := i;
      while i < |src| && src[i] != '<'
        invariant start <= i <= |src| && (i == start ==> src[i] != '<' && i < |src|)
        invariant TextLength(src[start..]) == i - start + TextLength(src[i..])
        decreases |src| - i
      {
        Tail(src, i);
        i := i + 1;
      }
      TailFrom(src, start, i - start);
      r := ExpandEntities(src[start..i]);
    }

    /** A section behind its opening, up to and including its end. */
    method TakeSection() returns (r: Result<string, Fault>)
      requires Valid()
      modifies this
      ensures Valid() && (r.Ok? ==> old(i) <= i)
      ensures
        var body := old(Rest());
        var at := Seek(body, CDATA_CLOSE);
        if at.None? then r == Failed(UnterminatedDeclaration)
        else r == Ok(body[..at.value]) && Rest() == body[at.value + |CDATA_CLOSE|..]
    {
      hide SkipPast, Seek;
      var from := i;
      SectionEnd(Rest());
      var past := SkipOver(CDATA_CLOSE);
      if past.Failed? {
        return Failed(past.error);
      }
      TailFrom(src, from, i - |CDATA_CLOSE| - from);
      return Ok(src[from..i - |CDATA_CLOSE|]);
    }

    /** `parse_element`. */
    method TakeElement(depth: nat) returns (r: Result<Element, Fault>)
      requires Valid()
      modifies this
      ensures Valid()
      ensures
        var s := ParseElement(old(Rest()), depth);
        if s.Failed? then r == Failed(s.error) else r == Ok(s.value.value) && Rest() == s.value.rest
      decreases |src| - i, 0
    {
      hide ReadName, ReadTag, Expect, ParseContent;
      if depth > MAX_DEPTH {
        return Failed(TooDeep);
      }
      var open := Demand('<');
      if open.Failed? {
        return Failed(open.error);
      }
      var name := TakeName();
      if name.Failed? {
        return Failed(name.error);
      }
      var tag := TakeTag();
      if tag.Failed? {
        return Failed(tag.error);
      }
      var e := Element(name.value, tag.value.attrs, [], "");
      if tag.value.empty {
        return Ok(e);
      }
      r := TakeContent(e, depth);
    }

    /** `parse_content`: the loop over an element's content. */
    method TakeContent(start: Element, depth: nat) returns (r: Result<Element, Fault>)
      requires Valid()
      modifies this
      ensures Valid()
      ensures
        var s := ParseContent(old(Rest()), start, depth);
        if s.Failed? then r == Failed(s.error) else r == Ok(s.value.value) && Rest() == s.value.rest
      decreases |src| - i, 1
    {
      hide ParseContent, ParseElement, EndTag, SkipPast, Seek, TextLength, DecodeEntities;
      var e := start;
      while true
        invariant Valid() && old(i) <= i && ParseContent(old(Rest()), start, depth) == ParseContent(Rest(), e, depth)
        decreases |src| - i
      {
        ContentStep(Rest(), e, depth);
        var s := Rest();
        if StartsWith(s, "</") {
          TailFrom(src, i, 2);
          i := i + 2;
          var end := TakeEnd(e.name);
          return if end.Failed? then Failed(end.error) else Ok(e);
        }
        if StartsWith(s, "<!--") {
          var past := SkipOver("-->");
          if past.Failed? {
            return Failed(past.error);
          }
        } else if StartsWith(s, CDATA_OPEN) {
          TailFrom(src, i, |CDATA_OPEN|);
          i := i + |CDATA_OPEN|;
          var raw := TakeSection();
          if raw.Failed? {
            return Failed(raw.error);
          }
          e := e.(text := e.text + raw.value);
        } else if s == "" {
          return Failed(UnterminatedContent);
        } else if s[0] == '<' {
          var child := TakeElement(depth + 1);
          if child.Failed? {
            return Failed(child.error);
          }
          e := e.(children := e.children + [child.value]);
        } else {
          var text := TakeText();
          if text.Failed? {
            return Failed(text.error);
          }
          e := e.(text := e.text + text.value);
        }
      }
    }
  }

  /** Where a section ends, and what `skip_past` makes of it. */
  lemma {:induction false} SectionEnd(body: string)
    ensures
      var at := Seek(body, CDATA_CLOSE);
      SkipPast(body, CDATA_CLOSE) == if at.None? then Failed(UnterminatedDeclaration) else Ok(body[at.value + |CDATA_CLOSE|..])
  {
    hide Seek;
  }

  /** One turn of the loop over an element's content. */
  lemma {:induction false} ContentStep(s: string, e: Element, depth: nat)
    ensures
      ParseContent(s, e, depth) ==
        if StartsWith(s, "</") then
          var end := EndTag(s[2..], e.name);
          if end.Failed? then Failed(end.error) else Ok(Read(e, end.value))
        else if StartsWith(s, "<!--") then
          var past := SkipPast(s, "-->");
          if past.Failed? then Failed(past.error) else ParseContent(past.value, e, depth)
        else if StartsWith(s, CDATA_OPEN) then
          var body := s[|CDATA_OPEN|..];
          var at := Seek(body, CDATA_CLOSE);
          if at.None? then Failed(UnterminatedDeclaration)
          else ParseContent(body[at.value + |CDATA_CLOSE|..], e.(text := e.text + body[..at.value]), depth)
        else if s == "" then Failed(UnterminatedContent)
        else if s[0] == '<' then
          var child := ParseElement(s, depth + 1);
          if child.Failed? then child
          else ParseContent(child.value.rest, e.(children := e.children + [child.value.value]), depth)
        else
          var n := TextLength(s);
          var text := DecodeEntities(s[..n]);
          if text.Failed? then Failed(text.error) else ParseContent(s[n..], e.(text := e.text + text.value), depth)
  {
    hide EndTag, SkipPast, Seek, ParseElement, TextLength, DecodeEntities;
  }

  /** `parse`: one root element, and nothing but prolog around it. */
  method ReadDocument(input: string) returns (r: Result<Element, Fault>)
    ensures r == Parse(input)
  {
    hide SkipProlog, ParseElement;
    var parser := new Parser(input);
    var start := parser.SkipDeclarations();
    if start.Failed? {
      return Failed(start.error);
    }
    var root := parser.TakeElement(0);
    if root.Failed? {
      return Failed(root.error);
    }
    var end := parser.SkipDeclarations();
    if end.Failed? {
      return Failed(end.error);
    }
    return if parser.i < |input| then Failed(TrailingContent) else Ok(root.value);
  }

  // ---- start tags one attribute at a time --------------------------------------------

  function WithAttrs(attrs: seq<(string, string)>, r: Result<Read<Tag>, Fault>): Result<Read<Tag>, Fault>
  {
    if r.Failed? then r else Ok(Read(Tag(attrs + r.value.value.attrs, r.value.value.empty), r.value.rest))
  }

  lemma {:induction false} WithNone(r: Result<Read<Tag>, Fault>)
    ensures WithAttrs([], r) == r
  {
    if r.Ok? {
      assert [] + r.value.value.attrs == r.value.value.attrs;
    }
  }

  lemma {:induction false} WithTwice(a: seq<(string, string)>, b: seq<(string, string)>, r: Result<Read<Tag>, Fault>)
    ensures WithAttrs(a, WithAttrs(b, r)) == WithAttrs(a + b, r)
  {
    if r.Ok? {
      assert a + (b + r.value.value.attrs) == (a + b) + r.value.value.attrs;
    }
  }

  lemma {:induction false} WithFaults(a: seq<(string, string)>)
    ensures forall f: Fault :: WithAttrs(a, Failed(f)) == Failed(f)
  {
  }

  lemma {:induction false} WithEnd(a: seq<(string, string)>, empty: bool)
    ensures forall rest: string :: WithAttrs(a, Ok(Read(Tag([], empty), rest))) == Ok(Read(Tag(a, empty), rest))
  {
    assert a + [] == a;
  }

  /** One turn of the loop over a start tag. */
  lemma {:induction false} TagStep(s: string)
    ensures
      var t := SkipWs(s);
      ReadTag(s) ==
        if t == "" then Failed(UnterminatedTag)
        else if t[0] == '/' then
          var end := Expect(t[1..], '>');
          if end.Failed? then Failed(end.error) else Ok(Read(Tag([], true), end.value))
        else if t[0] == '>' then Ok(Read(Tag([], false), t[1..]))
        else
          var attr := ReadAttr(t);
          if attr.Failed? then Failed(attr.error) else WithAttrs([attr.value.value], ReadTag(attr.value.rest))
  {
    hide SkipWs, ReadAttr, Expect;
  }
}
