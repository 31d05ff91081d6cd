/**
 * The XML reader of channel management, as functions on what is left of the document. Text is
 * a sequence of Unicode characters; the reader's own delimiters are all ASCII.
 */
module Xml {
  import opened Octets

  const MAX_DEPTH: nat := 32
  const MAX_ENTITY_LEN: nat := 12
  const CDATA_OPEN: string := "<![CDATA["
  const CDATA_CLOSE: string := "]]>"

  datatype Element = Element(name: string, attrs: seq<(string, string)>, children: seq<Element>, text: string)

  datatype Fault =
    | TrailingContent
    | UnterminatedDeclaration
    | Expected(c: char)
    | ExpectedName
    | TooDeep
    | UnterminatedTag
    | NotQuoted
    | UnterminatedValue
    | MismatchedEnd
    | UnterminatedContent
    | UnterminatedEntity
    | UnsupportedEntity

  /** Something read, and what is left behind it. */
  datatype Read<+T> = Read(value: T, rest: string)

  // ---- looking ahead -----------------------------------------------------------------

  predicate StartsWith(s: string, pat: string) { |pat| <= |s| && s[..|pat|] == pat }

  predicate IsWs(c: char) { c == ' ' || c == '\t' || c == '\r' || c == '\n' }

  function SkipWs(s: string): (rest: string)
    ensures |rest| <= |s|
  {
    if s != "" && IsWs(s[0]) then SkipWs(s[1..]) else s
  }

  /** Where `pat` first occurs. */
  function Seek(s: string, pat: string): (at: Option<nat>)
    requires pat != ""
    ensures at.Some? ==> at.value + |pat| <= |s|
  {
    if |s| < |pat| then None
    else if s[..|pat|] == pat then Some(0)
    else
      var rest := Seek(s[1..], pat);
      if rest.None? then None else Some(rest.value + 1)
  }

  /** `skip_past`. */
  function SkipPast(s: string, pat: string): (r: Result<string, Fault>)
    requires pat != ""
    ensures r.Ok? ==> |r.value| < |s|
  {
    var at := Seek(s, pat);
    if at.None? then Failed(UnterminatedDeclaration) else Ok(s[at.value + |pat|..])
  }

  function SkipProlog(s: string): (r: Result<string, Fault>)
    ensures r.Ok? ==> |r.value| <= |s|
    decreases |s|
  {
    var t := SkipWs(s);
    if !StartsWith(t, "<?") && !StartsWith(t, "<!") then Ok(t)
    else
      var past := SkipPast(t, if StartsWith(t, "<?") then "?>" else if StartsWith(t, "<!--") then "-->" else ">");
      if past.Failed? then past else SkipProlog(past.value)
  }

  function Expect(s: string, c: char): (r: Result<string, Fault>)
    ensures r.Ok? ==> |r.value| < |s|
  {
    if s == "" || s[0] != c then Failed(Expected(c)) else Ok(s[1..])
  }

  predicate EndsName(c: char) { IsWs(c) || c == '/' || c == '>' || c == '=' || c == '<' }

  function NameLength(s: string): (n: nat)
    ensures n <= |s|
  {
    if s == "" || EndsName(s[0]) then 0 else 1 + NameLength(s[1..])
  }

  function ReadName(s: string): (r: Result<Read<string>, Fault>)
    ensures r.Ok? ==> |r.value.rest| < |s|
  {
    var n := NameLength(s);
    if n == 0 then Failed(ExpectedName) else Ok(Read(s[..n], s[n..]))
  }

  // ---- entities ----------------------------------------------------------------------

  function EscapeChar(c: char): string
  {
    if c == '&' then "&amp;"
    else if c == '<' then "&lt;"
    else if c == '>' then "&gt;"
    else if c == '\'' then "&apos;"
    else if c == '"' then "&quot;"
    else [c]
  }

  function Escape(value: string): string
  {
    if value == "" then "" else EscapeChar(value[0]) + Escape(value[1..])
  }

  function IndexOf(s: string, c: char): (at: Option<nat>)
    ensures at.Some? ==> at.value < |s| && s[at.value] == c
  {
    if s == "" then None
    else if s[0] == c then Some(0)
    else
      var rest := IndexOf(s[1..], c);
      if rest.None? then None else Some(rest.value + 1)
  }

  function DigitValue(c: char): (v: nat)
  {
    if '0' <= c <= '9' then (c - '0') as nat
    else if 'a' <= c <= 'f' then (c - 'a') as nat + 10
    else if 'A' <= c <= 'F' then (c - 'A') as nat + 10
    else 16
  }

  function ParseRadix(value: nat, s: string, radix: nat): (r: Option<nat>)
    requires value < MODULUS
    ensures r.Some? ==> r.value < MODULUS
    decreases |s|
  {
    if s == "" then Some(value)
    else
      var d := DigitValue(s[0]);
      if d >= radix || value * radix + d >= MODULUS then None
      else ParseRadix(value * radix + d, s[1..], radix)
  }

  /** A 32-bit number in the given radix; a sign is allowed, an empty string is not. */
  function ParseNumber(s: string, radix: nat): (r: Option<nat>)
    ensures r.Some? ==> r.value < MODULUS
  {
    var digits := if s != "" && s[0] == '+' then s[1..] else s;
    if digits == "" then None else ParseRadix(0, digits, radix)
  }

  predicate IsScalar(value: nat) { value < 0xD800 || 0xE000 <= value < 0x11_0000 }

  function NumericReference(name: string): Option<char>
  {
    if name == "" || name[0] != '#' then None
    else
      var digits := name[1..];
      var value := if digits != "" && (digits[0] == 'x' || digits[0] == 'X')
                   then ParseNumber(digits[1..], 16) else ParseNumber(digits, 10);
      if value.None? || !IsScalar(value.value) then None else Some(value.value as char)
  }

  function Entity(name: string): Option<char>
  {
    if name == "amp" then Some('&')
    else if name == "lt" then Some('<')
    else if name == "gt" then Some('>')
    else if name == "quot" then Some('"')
    else if name == "apos" then Some('\'')
    else NumericReference(name)
  }

  /** `decode_entities`. */
  function DecodeEntities(raw: string): (r: Result<string, Fault>)
    decreases |raw|
  {
    if raw == "" then Ok("")
    else if raw[0] != '&' then
      var rest := DecodeEntities(raw[1..]);
      if rest.Failed? then rest else Ok([raw[0]] + rest.value)
    else
      var tail := raw[1..];
      var end := IndexOf(tail[..Min(|tail|, MAX_ENTITY_LEN)], ';');
      if end.None? then Failed(UnterminatedEntity)
      else
        var c := Entity(tail[..end.value]);
        if c.None? then Failed(UnsupportedEntity)
        else
          var rest := DecodeEntities(tail[end.value + 1..]);
          if rest.Failed? then rest else Ok([c.value] + rest.value)
  }

  // ---- elements ----------------------------------------------------------------------

  function ReadAttrValue(s: string): (r: Result<Read<string>, Fault>)
    ensures r.Ok? ==> |r.value.rest| < |s|
  {
    if s == "" || (s[0] != '"' && s[0] != '\'') then Failed(NotQuoted)
    else
      var end := IndexOf(s[1..], s[0]);
      if end.None? then Failed(UnterminatedValue)
      else
        var value := DecodeEntities(s[1..][..end.value]);
        if value.Failed? then Failed(value.error) else Ok(Read(value.value, s[end.value + 2..]))
  }

  /** A start tag behind its name: its attributes, and whether the element ends with it. */
  datatype Tag = Tag(attrs: seq<(string, string)>, empty: bool)

  function ReadAttr(s: string): (r: Result<Read<(string, string)>, Fault>)
    ensures r.Ok? ==> |r.value.rest| < |s|
  {
    var key := ReadName(s);
    if key.Failed? then Failed(key.error) else
    var eq := Expect(SkipWs(key.value.rest), '=');
    if eq.Failed? then Failed(eq.error) else
    var value := ReadAttrValue(SkipWs(eq.value));
    if value.Failed? then Failed(value.error) else Ok(Read((key.value.value, value.value.value), value.value.rest))
  }

  function ReadTag(s: string): (r: Result<Read<Tag>, Fault>)
    ensures r.Ok? ==> |r.value.rest| < |s|
    decreases |s|
  {
    var t := SkipWs(s);
    if t == "" then Failed(UnterminatedTag)
    else if t[0] == '/' then
      var end := Expect(t[1..], '>');
      if end.Failed? then Failed(end.error) else Ok(Read(Tag([], true), end.value))
    else if t[0] == '>' then Ok(Read(Tag([], false), t[1..]))
    else
      var attr := ReadAttr(t);
      if attr.Failed? then Failed(attr.error) else
      var more := ReadTag(attr.value.rest);
      if more.Failed? then more
      else Ok(Read(Tag([attr.value.value] + more.value.value.attrs, more.value.value.empty), more.value.rest))
  }

  /** Characters up to the next markup. */
  function TextLength(s: string): (n: nat)
    ensures n <= |s|
  {
    if s == "" || s[0] == '<' then 0 else 1 + TextLength(s[1..])
  }

  function EndTag(s: string, name: string): (r: Result<string, Fault>)
    ensures r.Ok? ==> |r.value| < |s|
  {
    var closing := ReadName(s);
    if closing.Failed? then Failed(closing.error) else
    var end := Expect(SkipWs(closing.value.rest), '>');
    if end.Failed? then Failed(end.error)
    else if closing.value.value != name then Failed(MismatchedEnd)
    else Ok(end.value)
  }

  function ParseElement(s: string, depth: nat): (r: Result<Read<Element>, Fault>)
    ensures r.Ok? ==> |r.value.rest| < |s|
    decreases |s|, 0
  {
    if depth > MAX_DEPTH then Failed(TooDeep) else
    var open := Expect(s, '<');
    if open.Failed? then Failed(open.error) else
    var name := ReadName(open.value);
    if name.Failed? then Failed(name.error) else
    var tag := ReadTag(name.value.rest);
    if tag.Failed? then Failed(tag.error) else
    var e := Element(name.value.value, tag.value.value.attrs, [], "");
    if tag.value.value.empty then Ok(Read(e, tag.value.rest))
    else ParseContent(tag.value.rest, e, depth)
  }

  /** `parse_content`: `e` is the element as far as it has been read. */
  function ParseContent(s: string, e: Element, depth: nat): (r: Result<Read<Element>, Fault>)
    ensures r.Ok? ==> |r.value.rest| < |s|
    decreases |s|, 1
  {
    if StartsWith(s, "</") then
      var end := EndTag(s[2..], e.name);
      if end.Failed? then Failed(end.error) else Ok(Read(e, end.value))
    else if StartsWith(s, "<!--") then
      var past := SkipPast(s, "-->");
      if past.Failed? then Failed(past.error) else ParseContent(past.value, e, depth)
    else if StartsWith(s, CDATA_OPEN) then
      var body := s[|CDATA_OPEN|..];
      var at := Seek(body, CDATA_CLOSE);
      if at.None? then Failed(UnterminatedDeclaration)
      else ParseContent(body[at.value + |CDATA_CLOSE|..], e.(text := e.text + body[..at.value]), depth)
    else if s == "" then Failed(UnterminatedContent)
    else if s[0] == '<' then
      var child := ParseElement(s, depth + 1);
      if child.Failed? then child
      else ParseContent(child.value.rest, e.(children := e.children + [child.value.value]), depth)
    else
      var n := TextLength(s);
      var text := DecodeEntities(s[..n]);
      if text.Failed? then Failed(text.error) else ParseContent(s[n..], e.(text := e.text + text.value), depth)
  }

  /** A document holding exactly one root element. */
  function Parse(s: string): Result<Element, Fault>
  {
    var start := SkipProlog(s);
    if start.Failed? then Failed(start.error) else
    var root := ParseElement(start.value, 0);
    if root.Failed? then Failed(root.error) else
    var end := SkipProlog(root.value.rest);
    if end.Failed? then Failed(end.error)
    else if end.value != "" then Failed(TrailingContent)
    else Ok(root.value.value)
  }

  /** The first attribute of that name. */
  function Attr(attrs: seq<(string, string)>, name: string): Option<string>
  {
    if attrs == [] then None
    else if attrs[0].0 == name then Some(attrs[0].1)
    else Attr(attrs[1..], name)
  }
}
