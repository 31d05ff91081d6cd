/** Channel-management messages: how they are rendered as XML, and how they are read back. */
module Management {
  import opened Octets
  import opened Xml
  import opened XmlLaws

  datatype Encoding = Literal | Base64

  datatype Profile = Profile(uri: string, encoding: Encoding, content: Option<string>)

  datatype Message =
    | Start(number: U32, serverName: Option<string>, profiles: seq<Profile>)
    | Close(number: U32, code: U32, lang: Option<string>, text: Option<string>)
    | Accepted(profile: Profile)
    | Okay
    | Refused(code: U32, lang: Option<string>, text: Option<string>)

  datatype Problem =
    | Syntax(fault: Fault)
    | UnexpectedElement
    | MissingUri
    | UnknownEncoding
    | MissingField(name: string)
    | InvalidDigit(name: string)
    | ValueOutOfRange(name: string)
    | NotBeepXml

  // ---- rendering ---------------------------------------------------------------------

  /** `push_u32`. */
  function Decimal(v: nat): (ds: string)
    ensures ds != ""
  {
    if v < 10 then ['0' + v as char] else Decimal(v / 10) + ['0' + (v % 10) as char]
  }

  function RenderProfile(p: Profile): string
  {
    "<profile uri='" + Escape(p.uri) + "'"
    + (if p.encoding.Base64? then " encoding='base64'" else "")
    + (if p.content.None? then " />" else "><![CDATA[" + p.content.value + "]]></profile>")
  }

  function RenderProfiles(ps: seq<Profile>): string
  {
    if ps == [] then "" else "   " + RenderProfile(ps[0]) + "\r\n" + RenderProfiles(ps[1..])
  }

  function RenderLangAndText(lang: Option<string>, text: Option<string>, tag: string): string
  {
    (if lang.Some? then " xml:lang='" + Escape(lang.value) + "'" else "")
    + (if text.None? then " />\r\n" else ">" + Escape(text.value) + "</" + tag + ">\r\n")
  }

  function Render(m: Message): string
  {
    match m
    case Start(number, serverName, profiles) =>
      "<start number='" + Decimal(number) + "'"
      + (if serverName.Some? then " serverName='" + Escape(serverName.value) + "'" else "")
      + ">\r\n" + RenderProfiles(profiles) + "</start>\r\n"
    case Close(number, code, lang, text) =>
      "<close number='" + Decimal(number) + "' code='" + Decimal(code) + "'" + RenderLangAndText(lang, text, "close")
    case Accepted(profile) => RenderProfile(profile) + "\r\n"
    case Okay => "<ok />"
    case Refused(code, lang, text) =>
      "<error code='" + Decimal(code) + "'" + RenderLangAndText(lang, text, "error")
  }

  // ---- reading -----------------------------------------------------------------------

  function ParseEncoding(value: Option<string>): Result<Encoding, Problem>
  {
    if value.None? || value.value == "none" then Ok(Literal)
    else if value.value == "base64" then Ok(Base64)
    else Failed(UnknownEncoding)
  }

  function ParseProfile(e: Element): Result<Profile, Problem>
  {
    var uri := Attr(e.attrs, "uri");
    if uri.None? then Failed(MissingUri) else
    var encoding := ParseEncoding(Attr(e.attrs, "encoding"));
    if encoding.Failed? then Failed(encoding.error)
    else Ok(Profile(uri.value, encoding.value, if e.text == "" then None else Some(e.text)))
  }

  /** Every child that is a profile, in order; the first that is not well formed fails the message. */
  function ParseProfiles(children: seq<Element>): Result<seq<Profile>, Problem>
  {
    if children == [] then Ok([])
    else if children[0].name != "profile" then ParseProfiles(children[1..])
    else
      var p := ParseProfile(children[0]);
      if p.Failed? then Failed(p.error) else
      var ps := ParseProfiles(children[1..]);
      if ps.Failed? then ps else Ok([p.value] + ps.value)
  }

  /** White space as Unicode defines it. */
  predicate IsSpace(c: char)
  {
    var v := c as int;
    || 0x9 <= v <= 0xD || v == 0x20 || v == 0x85 || v == 0xA0 || v == 0x1680 || 0x2000 <= v <= 0x200A
    || v == 0x2028 || v == 0x2029 || v == 0x202F || v == 0x205F || v == 0x3000
  }

  function TrimStart(s: string): (t: string)
  {
    if s != "" && IsSpace(s[0]) then TrimStart(s[1..]) else s
  }

  function TrimEnd(s: string): (t: string)
  {
    if s != "" && IsSpace(s[|s| - 1]) then TrimEnd(s[..|s| - 1]) else s
  }

  function Trim(s: string): string { TrimEnd(TrimStart(s)) }

  function TextOf(e: Element): Option<string>
  {
    var t := Trim(e.text);
    if t == "" then None else Some(t)
  }

  predicate DecimalText(s: string)
  {
    forall i :: 0 <= i < |s| ==> '0' <= s[i] <= '9'
  }

  function AttrU32(e: Element, name: string): (r: Result<U32, Problem>)
  {
    var raw := Attr(e.attrs, name);
    if raw.None? then Failed(MissingField(name))
    else if raw.value == "" || !DecimalText(raw.value) then Failed(InvalidDigit(name))
    else
      var v := ParseNumber(raw.value, 10);
      if v.None? then Failed(ValueOutOfRange(name)) else Ok(v.value)
  }

  function FromElement(root: Element): (r: Result<Message, Problem>)
  {
    if root.name == "start" then
      var number := AttrU32(root, "number");
      if number.Failed? then Failed(number.error) else
      var profiles := ParseProfiles(root.children);
      if profiles.Failed? then Failed(profiles.error)
      else Ok(Start(number.value, Attr(root.attrs, "serverName"), profiles.value))
    else if root.name == "close" then
      var number := AttrU32(root, "number");
      if number.Failed? then Failed(number.error) else
      var code := AttrU32(root, "code");
      if code.Failed? then Failed(code.error)
      else Ok(Close(number.value, code.value, Attr(root.attrs, "xml:lang"), TextOf(root)))
    else if root.name == "profile" then
      var p := ParseProfile(root);
      if p.Failed? then Failed(p.error) else Ok(Accepted(p.value))
    else if root.name == "ok" then Ok(Okay)
    else if root.name == "error" then
      var code := AttrU32(root, "code");
      if code.Failed? then Failed(code.error)
      else Ok(Refused(code.value, Attr(root.attrs, "xml:lang"), TextOf(root)))
    else Failed(UnexpectedElement)
  }

  function FromXml(body: string): Result<Message, Problem>
  {
    var root := Parse(body);
    if root.Failed? then Failed(Syntax(root.error)) else FromElement(root.value)
  }

  // ---- messages as documents ---------------------------------------------------------

  /** Nothing but the end of a section, over and over. */
  predicate OnlyCloses(s: string)
  {
    s == "" || (StartsWith(s, CDATA_CLOSE) && OnlyCloses(s[3..]))
  }

  /** Content that a section can carry: once it says "]]>" it says nothing else. */
  predicate Carried(c: string)
  {
    var at := Seek(c, CDATA_CLOSE);
    at.None? || OnlyCloses(c[at.value..])
  }

  function ContentDoc(c: string): Content
  {
    var at := Seek(c, CDATA_CLOSE);
    if at.None? then Cdata(c, Nothing) else Cdata(c[..at.value], Plain(c[at.value..], Nothing))
  }

  function ProfileAttrs(p: Profile): seq<(string, string)>
  {
    [("uri", p.uri)] + if p.encoding.Base64? then [("encoding", "base64")] else []
  }

  function ProfileDoc(p: Profile): Doc
  {
    Doc("profile", ProfileAttrs(p), if p.content.None? then None else Some(ContentDoc(p.content.value)))
  }

  function ProfilesContent(ps: seq<Profile>): Content
  {
    if ps == [] then Text("\r\n", Nothing) else Text("\r\n   ", Child(ProfileDoc(ps[0]), ProfilesContent(ps[1..])))
  }

  function Optional(name: string, value: Option<string>): seq<(string, string)>
  {
    if value.Some? then [(name, value.value)] else []
  }

  function TextDoc(text: Option<string>): Option<Content>
  {
    if text.None? then None else Some(Text(text.value, Nothing))
  }

  function ToDoc(m: Message): Doc
  {
    match m
    case Start(number, serverName, profiles) =>
      Doc("start", [("number", Decimal(number))] + Optional("serverName", serverName), Some(ProfilesContent(profiles)))
    case Close(number, code, lang, text) =>
      Doc("close", [("number", Decimal(number)), ("code", Decimal(code))] + Optional("xml:lang", lang), TextDoc(text))
    case Accepted(profile) => ProfileDoc(profile)
    case Okay => Doc("ok", [], None)
    case Refused(code, lang, text) =>
      Doc("error", [("code", Decimal(code))] + Optional("xml:lang", lang), TextDoc(text))
  }
}
