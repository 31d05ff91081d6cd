/** Base64 with padding (section 4 of RFC 4648): decoding accepts exactly the canonical text, folded or not. */
module Base64 {
  import opened Octets

  const PAD: Octet := 61

  /** The alphabet. */
  function Char(v: nat): (c: Octet)
    requires v < 64
    ensures c != PAD && !IsSpace(c)
  {
    if v < 26 then 65 + v
    else if v < 52 then 97 + (v - 26)
    else if v < 62 then 48 + (v - 52)
    else if v == 62 then 43
    else 47
  }

  /** The six bits a character stands for. */
  function Value(c: Octet): (v: Option<nat>)
    ensures v.Some? ==> v.value < 64
  {
    if 65 <= c <= 90 then Some(c - 65)
    else if 97 <= c <= 122 then Some(c - 97 + 26)
    else if 48 <= c <= 57 then Some(c - 48 + 52)
    else if c == 43 then Some(62)
    else if c == 47 then Some(63)
    else None
  }

  predicate IsSpace(c: Octet) { c == 32 || c == 9 || c == 10 || c == 12 || c == 13 }

  /** Every character stands for the six bits it is printed for, and no other does. */
  lemma {:induction false} CharValue(v: nat, c: Octet)
    requires v < 64
    ensures Value(c) == Some(v) <==> c == Char(v)
  {
  }

  // ---- one group ---------------------------------------------------------------------

  /** One to three octets as a 24-bit number, missing ones being zero. */
  function BitsOf(chunk: Bytes): nat
    requires 1 <= |chunk| <= 3
  {
    var a: int := chunk[0];
    var b: int := if |chunk| > 1 then chunk[1] else 0;
    var c: int := if |chunk| > 2 then chunk[2] else 0;
    a * 65536 + b * 256 + c
  }

  function Quad(chunk: Bytes): (q: Bytes)
    requires 1 <= |chunk| <= 3
    ensures |q| == 4
  {
    var bits := BitsOf(chunk);
    [Char(bits / 262144 % 64), Char(bits / 4096 % 64),
     if |chunk| > 1 then Char(bits / 64 % 64) else PAD,
     if |chunk| > 2 then Char(bits % 64) else PAD]
  }

  function Padding(q: Bytes, last: bool): nat
    requires |q| == 4
  {
    if last then (if q[3] == PAD then 1 else 0) + (if q[2] == PAD then 1 else 0) else 0
  }

  /** Six bits of the character at `at`, or none for padding. */
  function Six(q: Bytes, padding: nat, at: nat): (v: Option<nat>)
    requires |q| == 4 && at < 4
    ensures v.Some? ==> v.value < 64
  {
    if at + padding >= 4 then Some(0) else Value(q[at])
  }

  /** The running accumulator over the four characters of a group, six bits at a time. */
  function Gathered(q: Bytes, padding: nat, n: nat): (bits: Option<nat>)
    requires |q| == 4 && n <= 4
  {
    if n == 0 then Some(0)
    else
      var before := Gathered(q, padding, n - 1);
      var six := Six(q, padding, n - 1);
      if before.None? || six.None? then None else Some(before.value * 64 + six.value)
  }

  /** Bits set that the padding says are not there. */
  predicate Stray(bits: nat, padding: nat)
  {
    (padding == 1 && bits % 256 != 0) || (padding == 2 && bits % 65536 != 0)
  }

  function OctetsIn(bits: nat, padding: nat): (out: Bytes)
    ensures |out| == if padding == 0 then 3 else if padding == 1 then 2 else 1
  {
    [bits / 65536 % 256] + (if padding < 2 then [bits / 256 % 256] else []) + (if padding < 1 then [bits % 256] else [])
  }

  function DecodeQuad(q: Bytes, last: bool): (r: Option<Bytes>)
    requires |q| == 4
    ensures r.Some? ==> 1 <= |r.value| <= 3 && (|r.value| < 3 ==> last)
  {
    var padding := Padding(q, last);
    var bits := Gathered(q, padding, 4);
    if bits.None? || Stray(bits.value, padding) then None else Some(OctetsIn(bits.value, padding))
  }

  lemma {:induction false} OctetsOfBits(a: nat, b: nat, c: nat)
    requires a < 256 && b < 256 && c < 256
    ensures
      var bits := a * 65536 + b * 256 + c;
      bits < 16777216 && bits / 65536 == a && bits / 256 % 256 == b && bits % 256 == c && bits % 65536 == b * 256 + c
  {
  }

  lemma {:induction false} BitsOfOctets(bits: nat)
    requires bits < 16777216
    ensures bits / 65536 * 65536 + bits / 256 % 256 * 256 + bits % 256 == bits && bits / 65536 < 256
  {
  }

  lemma {:induction false} Shift(x: nat, v: nat)
    requires v < 64
    ensures (x * 64 + v) / 64 == x && (x * 64 + v) % 64 == v
  {
  }

  lemma {:induction false} ShiftTwice(n: nat)
    ensures n / 64 / 64 == n / 4096 && n / 4096 / 64 == n / 262144
  {
  }

  lemma {:induction false} SixesOfBits(p: nat, s: nat, t: nat, u: nat)
    requires p < 64 && s < 64 && t < 64 && u < 64
    ensures
      var bits := ((p * 64 + s) * 64 + t) * 64 + u;
      bits / 262144 % 64 == p && bits / 4096 % 64 == s && bits / 64 % 64 == t && bits % 64 == u && bits < 16777216
  {
    var bits := ((p * 64 + s) * 64 + t) * 64 + u;
    Shift((p * 64 + s) * 64 + t, u);
    Shift(p * 64 + s, t);
    Shift(p, s);
    ShiftTwice(bits);
  }

  lemma {:induction false} BitsOfSixes(bits: nat)
    requires bits < 16777216
    ensures bits / 262144 % 64 * 262144 + bits / 4096 % 64 * 4096 + bits / 64 % 64 * 64 + bits % 64 == bits
  {
    assert bits / 4096 == bits / 262144 * 64 + bits / 4096 % 64;
    assert bits / 64 == bits / 4096 * 64 + bits / 64 % 64;
  }

  lemma {:induction false} ShiftOctet(x: nat)
    ensures (x * 256) / 256 == x && (x * 256) % 256 == 0
  {
  }

  lemma {:induction false} OneOctetShort(bits: nat)
    requires bits % 256 == 0
    ensures bits % 64 == 0
  {
    Shift(4 * (bits / 256), 0);
  }

  lemma {:induction false} TwoOctetsShort(bits: nat)
    requires bits % 65536 == 0
    ensures bits / 64 % 64 == 0 && bits % 64 == 0 && bits % 256 == 0 && bits / 256 % 256 == 0
  {
    var k := bits / 65536;
    Shift(1024 * k, 0);
    Shift(16 * k, 0);
    ShiftOctet(256 * k);
    ShiftOctet(k);
  }

  lemma {:induction false} ShortBits(bits: nat)
    ensures bits % 256 == 0 ==> bits % 64 == 0
    ensures bits % 65536 == 0 ==> bits / 64 % 64 == 0 && bits % 64 == 0 && bits % 256 == 0 && bits / 256 % 256 == 0
  {
    if bits % 256 == 0 {
      OneOctetShort(bits);
    }
    if bits % 65536 == 0 {
      TwoOctetsShort(bits);
    }
  }

  lemma {:induction false} GatheredAll(q: Bytes, padding: nat)
    requires |q| == 4
    ensures
      var p, s, t, u := Six(q, padding, 0), Six(q, padding, 1), Six(q, padding, 2), Six(q, padding, 3);
      Gathered(q, padding, 4) == if p.None? || s.None? || t.None? || u.None? then None
                                 else Some(((p.value * 64 + s.value) * 64 + t.value) * 64 + u.value)
  {
    hide Six;
    assert Gathered(q, padding, 1) == Six(q, padding, 0);
    assert Gathered(q, padding, 2) == (var p, s := Six(q, padding, 0), Six(q, padding, 1);
      if p.None? || s.None? then None else Some(p.value * 64 + s.value));
  }

  lemma {:induction false} PrintedSixes(chunk: Bytes, last: bool)
    requires 1 <= |chunk| <= 3 && (|chunk| < 3 ==> last)
    ensures
      var q, bits := Quad(chunk), BitsOf(chunk);
      var padding := Padding(q, last);
      && padding == 3 - |chunk|
      && Six(q, padding, 0) == Some(bits / 262144 % 64) && Six(q, padding, 1) == Some(bits / 4096 % 64)
      && Six(q, padding, 2) == Some(if padding > 1 then 0 else bits / 64 % 64)
      && Six(q, padding, 3) == Some(if padding > 0 then 0 else bits % 64)
  {
    hide Char, Value, BitsOf;
    var bits := BitsOf(chunk);
    CharValue(bits / 262144 % 64, Char(bits / 262144 % 64));
    CharValue(bits / 4096 % 64, Char(bits / 4096 % 64));
    CharValue(bits / 64 % 64, Char(bits / 64 % 64));
    CharValue(bits % 64, Char(bits % 64));
  }

  lemma {:induction false} ChunkBits(chunk: Bytes)
    requires 1 <= |chunk| <= 3
    ensures
      var bits, padding := BitsOf(chunk), 3 - |chunk|;
      && bits < 16777216 && !Stray(bits, padding)
      && OctetsIn(bits, padding) == chunk
      && (padding > 1 ==> bits / 64 % 64 == 0) && (padding > 0 ==> bits % 64 == 0)
  {
    var a: int := chunk[0];
    var b: int := if |chunk| > 1 then chunk[1] else 0;
    var c: int := if |chunk| > 2 then chunk[2] else 0;
    OctetsOfBits(a, b, c);
    ShortBits(BitsOf(chunk));
  }

  /** A printed group decodes to itself, wherever it may stand. */
  lemma {:induction false} QuadRoundTrip(chunk: Bytes, last: bool)
    requires 1 <= |chunk| <= 3 && (|chunk| < 3 ==> last)
    ensures DecodeQuad(Quad(chunk), last) == Some(chunk)
  {
    hide Quad, Six, BitsOf, Stray, OctetsIn, Gathered;
    var bits := BitsOf(chunk);
    PrintedSixes(chunk, last);
    ChunkBits(chunk);
    GatheredAll(Quad(chunk), 3 - |chunk|);
    BitsOfSixes(bits);
  }

  lemma {:induction false} BitsOfChunk(bits: nat, padding: nat)
    requires bits < 16777216 && padding <= 2 && !Stray(bits, padding)
    ensures BitsOf(OctetsIn(bits, padding)) == bits
  {
    BitsOfOctets(bits);
    ShortBits(bits);
  }

  /** Only a printed group decodes: the characters are those of the octets they decode to. */
  lemma {:induction false} QuadCanonical(q: Bytes, last: bool)
    requires |q| == 4 && DecodeQuad(q, last).Some?
    ensures Quad(DecodeQuad(q, last).value) == q
  {
    hide Char, Value, Gathered, BitsOf, OctetsIn, Stray;
    var padding := Padding(q, last);
    var p, s, t, u := Six(q, padding, 0), Six(q, padding, 1), Six(q, padding, 2), Six(q, padding, 3);
    GatheredAll(q, padding);
    SixesOfBits(p.value, s.value, t.value, u.value);
    var bits := Gathered(q, padding, 4).value;
    BitsOfChunk(bits, padding);
    CharValue(p.value, q[0]);
    CharValue(s.value, q[1]);
    CharValue(t.value, q[2]);
    CharValue(u.value, q[3]);
    PaddingPlaces(q, last);
  }

  /** Padding is where it is counted: an equals sign before another character is no padding. */
  lemma {:induction false} PaddingPlaces(q: Bytes, last: bool)
    requires |q| == 4 && Gathered(q, Padding(q, last), 4).Some?
    ensures Padding(q, last) >= 1 ==> q[3] == PAD
    ensures Padding(q, last) == 2 ==> q[2] == PAD
  {
    GatheredAll(q, Padding(q, last));
  }

  // ---- whole texts -------------------------------------------------------------------

  function Encode(data: Bytes): (t: Bytes)
    decreases |data|
  {
    if data == [] then []
    else
      var n := Min(3, |data|);
      Quad(data[..n]) + Encode(data[n..])
  }

  /** Text without its whitespace. */
  function Squeezed(text: Bytes): Bytes
  {
    if text == [] then [] else (if IsSpace(text[0]) then [] else [text[0]]) + Squeezed(text[1..])
  }

  function DecodeQuads(packed: Bytes): (r: Option<Bytes>)
    decreases |packed|
  {
    if packed == [] then Some([])
    else if |packed| < 4 then None
    else
      var chunk := DecodeQuad(packed[..4], |packed| == 4);
      var rest := DecodeQuads(packed[4..]);
      if chunk.None? || rest.None? then None else Some(chunk.value + rest.value)
  }

  function Decode(text: Bytes): Option<Bytes>
  {
    var packed := Squeezed(text);
    if |packed| % 4 != 0 then None else DecodeQuads(packed)
  }

  lemma {:induction false} EncodeDecodes(data: Bytes)
    ensures |Encode(data)| % 4 == 0 && DecodeQuads(Encode(data)) == Some(data)
    decreases |data|
  {
    hide Quad, DecodeQuad;
    if data != [] {
      var n := Min(3, |data|);
      EncodeDecodes(data[n..]);
      var q, rest := Quad(data[..n]), Encode(data[n..]);
      assert (q + rest)[..4] == q && (q + rest)[4..] == rest;
      assert data[n..] == [] <==> rest == [];
      QuadRoundTrip(data[..n], rest == []);
      assert data[..n] + data[n..] == data;
    }
  }

  lemma {:induction false} DecodeEncodes(packed: Bytes)
    requires DecodeQuads(packed).Some?
    ensures Encode(DecodeQuads(packed).value) == packed
    decreases |packed|
  {
    hide Quad, DecodeQuad;
    if packed != [] {
      var q, tail := packed[..4], packed[4..];
      var chunk, rest := DecodeQuad(q, |packed| == 4).value, DecodeQuads(tail).value;
      QuadCanonical(q, |packed| == 4);
      DecodeEncodes(tail);
      assert |chunk| < 3 ==> tail == [] && rest == [];
      var n := |chunk|;
      assert (chunk + rest)[..n] == chunk && (chunk + rest)[n..] == rest;
      assert n == Min(3, |chunk + rest|);
      assert q + tail == packed;
    }
  }

  lemma {:induction false} EncodeHasNoSpace(data: Bytes)
    ensures forall i :: 0 <= i < |Encode(data)| ==> !IsSpace(Encode(data)[i])
    decreases |data|
  {
    hide Char, BitsOf;
    if data != [] {
      EncodeHasNoSpace(data[Min(3, |data|)..]);
    }
  }

  lemma {:induction false} SqueezedAlready(text: Bytes)
    requires forall i :: 0 <= i < |text| ==> !IsSpace(text[i])
    ensures Squeezed(text) == text
  {
    if text != [] {
      SqueezedAlready(text[1..]);
    }
  }

  /**
   * Base64 is a bijection onto canonical text: decoding succeeds with `data` exactly when the
   * text, whitespace aside, is the encoding of `data`; nothing else is ever accepted.
   */
  lemma {:induction false} DecodesExactly(text: Bytes, data: Bytes)
    ensures Decode(text) == Some(data) <==> Squeezed(text) == Encode(data)
  {
    EncodeDecodes(data);
    var packed := Squeezed(text);
    if DecodeQuads(packed).Some? {
      DecodeEncodes(packed);
    }
  }

  lemma {:induction false} RoundTrip(data: Bytes)
    ensures Decode(Encode(data)) == Some(data)
  {
    EncodeHasNoSpace(data);
    SqueezedAlready(Encode(data));
    DecodesExactly(Encode(data), data);
  }

  // ---- the loops ---------------------------------------------------------------------

  lemma {:induction false} EncodeNothing()
    ensures Encode([]) == []
  {
  }

  /** One turn of the loop of `encode`. */
  lemma {:induction false} EncodeStep(data: Bytes, i: nat)
    requires i < |data|
    ensures var n := Min(3, |data| - i); Encode(data[i..]) == Quad(data[i..i + n]) + Encode(data[i + n..])
  {
    hide Quad;
    var n := Min(3, |data| - i);
    assert data[i..][..n] == data[i..i + n] && data[i..][n..] == data[i + n..];
  }

  /** `encode`: three octets at a time. */
  method EncodeText(data: Bytes) returns (encoded: Bytes)
    ensures encoded == Encode(data)
  {
    hide Quad, Encode;
    encoded := [];
    var i := 0;
    assert data[0..] == data;
    while i < |data|
      invariant 0 <= i <= |data| && Encode(data) == encoded + Encode(data[i..])
    {
      var n := Min(3, |data| - i);
      var chunk := data[i..i + n];
      EncodeStep(data, i);
      Associate(encoded, Quad(chunk), Encode(data[i + n..]));
      encoded := encoded + Quad(chunk);
      i := i + n;
    }
    EncodeNothing();
    assert data[i..] == [] && encoded + [] == encoded;
  }

  lemma {:induction false} GatheredStops(q: Bytes, padding: nat, n: nat, m: nat)
    requires |q| == 4 && n <= m <= 4 && Gathered(q, padding, n).None?
    ensures Gathered(q, padding, m).None?
  {
    if n < m {
      GatheredStops(q, padding, n, m - 1);
    }
  }

  /** The inner loop of `decode`. */
  method Gather(q: Bytes, padding: nat) returns (r: Option<nat>)
    requires |q| == 4
    ensures r == Gathered(q, padding, 4)
  {
    hide Six;
    var bits: nat := 0;
    var at := 0;
    while at < 4
      invariant 0 <= at <= 4 && Gathered(q, padding, at) == Some(bits)
    {
      var six := Six(q, padding, at);
      if six.None? {
        GatheredStops(q, padding, at + 1, 4);
        return None;
      }
      bits := bits * 64 + six.value;
      at := at + 1;
    }
    return Some(bits);
  }

  /** One group of `decode`: the 24 bits of its characters, then up to three octets out. */
  method ReadQuad(q: Bytes, last: bool) returns (r: Option<Bytes>)
    requires |q| == 4
    ensures r == DecodeQuad(q, last)
  {
    hide Six, Gathered;
    var padding := Padding(q, last);
    var gathered := Gather(q, padding);
    if gathered.None? {
      return None;
    }
    var bits := gathered.value;
    if padding > 0 && Stray(bits, padding) {
      return None;
    }
    var out: Bytes := [bits / 65536 % 256];
    if padding < 2 {
      out := out + [bits / 256 % 256];
    }
    if padding < 1 {
      out := out + [bits % 256];
    }
    assert out == OctetsIn(bits, padding);
    return Some(out);
  }

  lemma {:induction false} DecodeNothing()
    ensures DecodeQuads([]) == Some([])
  {
  }

  /** One turn of the loop of `decode`. */
  lemma {:induction false} DecodeQuadsStep(packed: Bytes, i: nat)
    requires i + 4 <= |packed|
    ensures
      var chunk := DecodeQuad(packed[i..i + 4], i + 4 == |packed|);
      var rest := DecodeQuads(packed[i + 4..]);
      DecodeQuads(packed[i..]) == if chunk.None? || rest.None? then None else Some(chunk.value + rest.value)
  {
    hide DecodeQuad;
    assert packed[i..][..4] == packed[i..i + 4] && packed[i..][4..] == packed[i + 4..];
  }

  /** `decode`: whitespace dropped, then four characters at a time. */
  method DecodeText(text: Bytes) returns (r: Option<Bytes>)
    ensures r == Decode(text)
  {
    hide DecodeQuad, DecodeQuads;
    var packed := Squeezed(text);
    if |packed| % 4 != 0 {
      return None;
    }
    var decoded: Bytes := [];
    var i := 0;
    assert packed[0..] == packed;
    assert DecodeQuads(packed).Some? ==> [] + DecodeQuads(packed).value == DecodeQuads(packed).value;
    while i < |packed|
      invariant 0 <= i <= |packed| && (|packed| - i) % 4 == 0
      invariant
        var rest := DecodeQuads(packed[i..]);
        DecodeQuads(packed) == if rest.None? then None else Some(decoded + rest.value)
    {
      DecodeQuadsStep(packed, i);
      var chunk := ReadQuad(packed[i..i + 4], i + 4 == |packed|);
      if chunk.None? {
        return None;
      }
      ghost var rest := DecodeQuads(packed[i + 4..]);
      if rest.Some? {
        Associate(decoded, chunk.value, rest.value);
      }
      decoded := decoded + chunk.value;
      i := i + 4;
    }
    DecodeNothing();
    assert packed[i..] == [];
    assert decoded + [] == decoded;
    return Some(decoded);
  }
}
