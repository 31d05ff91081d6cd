/** The loops behind the text formats: numbers laid down digit by digit, profiles one after the other, headers line by line. */
module Renderers {
  import opened Octets
  import opened Xml
  import opened Management
  import opened ManagementLaws
  import opened Greetings

  lemma {:induction false} DecimalFits(v: U32)
    ensures |Decimal(v)| <= 10
  {
    assert Power10(2) == 100 && Power10(4) == 100 * Power10(2);
    assert Power10(6) == 100 * Power10(4) && Power10(8) == 100 * Power10(6) && Power10(10) == 100 * Power10(8);
    DecimalShort(v, 10);
  }

  /** `push_u32`: digits from the end of a ten-character buffer. */
  method PushU32(out: string, value: U32) returns (r: string)
    ensures r == out + Decimal(value)
  {
    DecimalFits(value);
    var buf := new char[10](_ => '0');
    var i := 10;
    var v: nat := value;
    while true
      invariant 0 <= i <= 10 && i >= |Decimal(v)|
      invariant Decimal(v) + buf[i..] == Decimal(value)
      decreases v, i
    {
      i := i - 1;
      buf[i] := '0' + (v % 10) as char;
      assert buf[i..] == ['0' + (v % 10) as char] + buf[i + 1..];
      if v < 10 {
        break;
      }
      assert Decimal(v) + buf[i + 1..] == Decimal(v / 10) + buf[i..];
      v := v / 10;
    }
    r := out + buf[i..];
  }

  lemma {:induction false} ProfilesNext(ps: seq<Profile>, i: nat)
    requires i < |ps|
    ensures RenderProfiles(ps[i..]) == ("   " + RenderProfile(ps[i]) + "\r\n") + RenderProfiles(ps[i + 1..])
  {
    assert ps[i..][0] == ps[i] && ps[i..][1..] == ps[i + 1..];
  }

  /** The loop of `render` over the profiles of a start. */
  method PushProfiles(out: string, ps: seq<Profile>) returns (r: string)
    ensures r == out + RenderProfiles(ps)
  {
    hide RenderProfile, RenderProfiles;
    r := out;
    var i := 0;
    assert ps[0..] == ps;
    while i < |ps|
      invariant 0 <= i <= |ps| && r + RenderProfiles(ps[i..]) == out + RenderProfiles(ps)
    {
      ProfilesNext(ps, i);
      var line := "   " + RenderProfile(ps[i]) + "\r\n";
      assert r + (line + RenderProfiles(ps[i + 1..])) == (r + line) + RenderProfiles(ps[i + 1..]);
      r := r + line;
      i := i + 1;
    }
    NoProfiles();
    assert ps[i..] == [] && r + "" == r;
  }

  lemma {:induction false} NoProfiles()
    ensures RenderProfiles([]) == "" && Announce([]) == ""
  {
  }

  lemma {:induction false} AnnounceNext(uris: seq<string>, i: nat)
    requires i < |uris|
    ensures Announce(uris[i..]) == ("   <profile uri='" + Escape(uris[i]) + "' />\r\n") + Announce(uris[i + 1..])
  {
    hide Escape;
    assert uris[i..][0] == uris[i] && uris[i..][1..] == uris[i + 1..];
  }

  /** `Greeting::to_payload`. */
  method GreetingPayload(g: Greeting) returns (r: string)
    ensures r == ToPayload(RenderGreeting(g))
  {
    hide Escape, Announce;
    var head := CONTENT_TYPE + ": " + BEEP_XML + "\r\n\r\n";
    r := "<greeting" + PushAttr("features", g.features) + PushAttr("localize", g.localize);
    ghost var tag := r;
    if g.profiles == [] {
      r := r + " />\r\n";
    } else {
      r := r + ">\r\n";
      ghost var start := r;
      var i := 0;
      assert g.profiles[0..] == g.profiles;
      while i < |g.profiles|
        invariant 0 <= i <= |g.profiles| && r + Announce(g.profiles[i..]) == start + Announce(g.profiles)
      {
        AnnounceNext(g.profiles, i);
        var line := "   <profile uri='" + Escape(g.profiles[i]) + "' />\r\n";
        assert r + (line + Announce(g.profiles[i + 1..])) == (r + line) + Announce(g.profiles[i + 1..]);
        r := r + line;
        i := i + 1;
      }
      NoProfiles();
      assert g.profiles[i..] == [] && r + "" == r;
      assert start + Announce(g.profiles) + "</greeting>\r\n" == tag + (">\r\n" + Announce(g.profiles) + "</greeting>\r\n");
      r := r + "</greeting>\r\n";
    }
    r := head + r;
  }

  /** `mime::trim`: white space off the front, then off the back. */
  method TrimBoth(s: string) returns (r: string)
    ensures r == TrimAsciiEnd(TrimAsciiStart(s))
  {
    r := s;
    while r != "" && IsAsciiSpace(r[0])
      invariant TrimAsciiStart(r) == TrimAsciiStart(s)
      decreases |r|
    {
      r := r[1..];
    }
    ghost var front := r;
    while r != "" && IsAsciiSpace(r[|r| - 1])
      invariant TrimAsciiEnd(r) == TrimAsciiEnd(front)
      decreases |r|
    {
      r := r[..|r| - 1];
    }
  }

  /** `mime::header`: line by line until the name is found. */
  method FindHeader(headers: string, name: string) returns (r: Option<string>)
    ensures r == Header(headers, name)
  {
    hide IndexOf, EqIgnoreCase, TrimAsciiEnd, TrimAsciiStart;
    var rest := headers;
    while true
      invariant Header(rest, name) == Header(headers, name)
      decreases |rest|
    {
      var lf := IndexOf(rest, '\n');
      var line := StripCr(if lf.None? then rest else rest[..lf.value]);
      var colon := IndexOf(line, ':');
      if colon.Some? && EqIgnoreCase(line[..colon.value], name) {
        var value := TrimBoth(line[colon.value + 1..]);
        return Some(value);
      }
      if lf.None? {
        return None;
      }
      rest := rest[lf.value + 1..];
    }
  }
}
