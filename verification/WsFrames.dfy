/** WebSocket frames: headers, masking, and the events a received frame stands for (sections 5.2 to 5.5 of RFC 6455). */
module WsFrames {
  import opened Octets

  const MAX_PAYLOAD: nat := 16_777_216

  datatype OpCode = Continuation | Text | Binary | Close | Ping | Pong {
    predicate IsControl() { Close? || Ping? || Pong? }

    function Bits(): Octet
    {
      match this
      case Continuation => 0
      case Text => 1
      case Binary => 2
      case Close => 8
      case Ping => 9
      case Pong => 10
    }
  }

  function FromBits(bits: int): Option<OpCode>
  {
    if bits == 0 then Some(Continuation)
    else if bits == 1 then Some(Text)
    else if bits == 2 then Some(Binary)
    else if bits == 8 then Some(Close)
    else if bits == 9 then Some(Ping)
    else if bits == 10 then Some(Pong)
    else None
  }

  /** A masking key. */
  type Key = k: Bytes | |k| == 4 witness [0, 0, 0, 0]

  datatype ProtocolError =
    | ReservedBits
    | UnknownOpCode(bits: int)
    | ControlFrameTooLarge(len: nat)
    | FragmentedControlFrame
    | PayloadTooLarge(len: nat)
    | NonMinimalLength

  datatype Header = Header(fin: bool, opcode: OpCode, mask: Option<Key>, payloadLen: nat, headerLen: nat)

  // ---- big-endian numbers ------------------------------------------------------------

  /** The low `k` octets of `n`, most significant first. */
  function BigEndian(n: nat, k: nat): (bs: Bytes)
    ensures |bs| == k
  {
    if k == 0 then [] else BigEndian(n / 256, k - 1) + [n % 256]
  }

  function FromBigEndian(bs: Bytes): nat
  {
    if bs == [] then 0 else FromBigEndian(bs[..|bs| - 1]) * 256 + bs[|bs| - 1]
  }

  function Power256(k: nat): nat
  {
    if k == 0 then 1 else 256 * Power256(k - 1)
  }

  lemma {:induction false} BigEndianRoundTrip(n: nat, k: nat)
    requires n < Power256(k)
    ensures FromBigEndian(BigEndian(n, k)) == n
  {
    if k > 0 {
      BigEndianRoundTrip(n / 256, k - 1);
      assert BigEndian(n, k)[..k - 1] == BigEndian(n / 256, k - 1);
    }
  }

  // ---- masking -----------------------------------------------------------------------

  /** Exclusive or of the low `n` bits. */
  function XorBits(a: nat, b: nat, n: nat): nat
  {
    if n == 0 then 0 else 2 * XorBits(a / 2, b / 2, n - 1) + (if a % 2 == b % 2 then 0 else 1)
  }

  function Power2(k: nat): nat
  {
    if k == 0 then 1 else 2 * Power2(k - 1)
  }

  lemma {:induction false} XorBound(a: nat, b: nat, n: nat)
    ensures XorBits(a, b, n) < Power2(n)
  {
    if n > 0 {
      XorBound(a / 2, b / 2, n - 1);
    }
  }

  lemma {:induction false} Halve(q: nat, bit: nat)
    requires bit <= 1
    ensures (2 * q + bit) / 2 == q && (2 * q + bit) % 2 == bit
  {
  }

  lemma {:induction false} XorInverse(a: nat, b: nat, n: nat)
    requires a < Power2(n)
    ensures XorBits(XorBits(a, b, n), b, n) == a
  {
    if n > 0 {
      XorInverse(a / 2, b / 2, n - 1);
      Halve(XorBits(a / 2, b / 2, n - 1), if a % 2 == b % 2 then 0 else 1);
    }
  }

  function Xor(a: Octet, b: Octet): Octet
  {
    XorBound(a, b, 8);
    XorBits(a, b, 8)
  }

  /** The payload with the key applied, the first octet being `offset` octets into the message. */
  function Masked(payload: Bytes, key: Key, offset: nat): (m: Bytes)
    ensures |m| == |payload|
  {
    seq(|payload|, i requires 0 <= i < |payload| => Xor(payload[i], key[(i + offset) % 4]))
  }

  /** Masking is its own inverse. */
  lemma {:induction false} MaskedTwice(payload: Bytes, key: Key, offset: nat)
    ensures Masked(Masked(payload, key, offset), key, offset) == payload
  {
    forall i | 0 <= i < |payload|
      ensures Masked(Masked(payload, key, offset), key, offset)[i] == payload[i]
    {
      XorInverse(payload[i], key[(i + offset) % 4], 8);
    }
  }

  /** Masking in two passes, carrying the offset, is masking in one. */
  lemma {:induction false} MaskedInTwo(payload: Bytes, key: Key, offset: nat, k: nat)
    requires k <= |payload|
    ensures Masked(payload[..k], key, offset) + Masked(payload[k..], key, offset + k) == Masked(payload, key, offset)
  {
    forall i | k <= i < |payload|
      ensures Masked(payload[k..], key, offset + k)[i - k] == Masked(payload, key, offset)[i]
    {
      assert (i - k) + (offset + k) == i + offset;
    }
  }

  // ---- headers -----------------------------------------------------------------------

  /** `encode_header`, in the shortest form that fits. */
  function EncodeHeader(opcode: OpCode, fin: bool, len: nat, mask: Option<Key>): Bytes
  {
    var masked := if mask.Some? then 128 else 0;
    [(if fin then 128 else 0) + opcode.Bits()]
    + (if len < 126 then [masked + len]
       else if len <= 0xffff then [masked + 126] + BigEndian(len, 2)
       else [masked + 127] + BigEndian(len, 8))
    + (if mask.Some? then mask.value else [])
  }

  /** The declared length and how many octets it takes; `None` while they are not all there. */
  function DecodeLength(buffer: Bytes): (r: Result<Option<(nat, nat)>, ProtocolError>)
    requires |buffer| >= 2
    ensures r.Ok? && r.value.Some? ==> 2 + r.value.value.1 <= |buffer|
  {
    var short := buffer[1] % 128;
    if short == 126 then
      if |buffer| < 4 then Ok(None)
      else
        var len := FromBigEndian(buffer[2..4]);
        if len < 126 then Failed(NonMinimalLength) else Ok(Some((len, 2)))
    else if short == 127 then
      if |buffer| < 10 then Ok(None)
      else
        var len := FromBigEndian(buffer[2..10]);
        if len <= 0xffff then Failed(NonMinimalLength) else Ok(Some((len, 8)))
    else Ok(Some((short, 0)))
  }

  /** `decode_header`. */
  function DecodeHeader(buffer: Bytes): (r: Result<Option<Header>, ProtocolError>)
    ensures r.Ok? && r.value.Some? ==> 2 <= r.value.value.headerLen <= |buffer|
  {
    if |buffer| < 2 then Ok(None)
    else if buffer[0] / 16 % 8 != 0 then Failed(ReservedBits)
    else
      var fin := buffer[0] >= 128;
      var opcode := FromBits(buffer[0] % 16);
      if opcode.None? then Failed(UnknownOpCode(buffer[0] % 16)) else
      var length := DecodeLength(buffer);
      if length.Failed? then Failed(length.error) else
      if length.value.None? then Ok(None) else
      var (len, extra) := length.value.value;
      if len > MAX_PAYLOAD then Failed(PayloadTooLarge(len)) else
      if opcode.value.IsControl() && len > 125 then Failed(ControlFrameTooLarge(len)) else
      if opcode.value.IsControl() && !fin then Failed(FragmentedControlFrame) else
      var at := 2 + extra;
      if buffer[1] < 128 then Ok(Some(Header(fin, opcode.value, None, len, at)))
      else if |buffer| < at + 4 then Ok(None)
      else Ok(Some(Header(fin, opcode.value, Some(buffer[at..at + 4]), len, at + 4)))
  }

  // ---- frames ------------------------------------------------------------------------

  /** A frame as this end queues it, always final. */
  datatype Out = Out(opcode: OpCode, payload: Bytes, mask: Option<Key>) {
    /** What a peer accepts: a payload within its limit, and a short control frame. */
    ghost predicate Sendable()
    {
      |payload| <= if opcode.IsControl() then 125 else MAX_PAYLOAD
    }
  }

  /** `queue`: header, then the payload under its mask. */
  function EncodeFrame(f: Out): Bytes
  {
    EncodeHeader(f.opcode, true, |f.payload|, f.mask)
    + if f.mask.Some? then Masked(f.payload, f.mask.value, 0) else f.payload
  }

  datatype Event =
    | Data(payload: Bytes)
    | PingEvent(payload: Bytes)
    | PongEvent(payload: Bytes)
    | CloseEvent(code: Option<nat>, reason: Bytes)

  function EventOf(opcode: OpCode, payload: Bytes): Event
  {
    match opcode
    case Ping => PingEvent(payload)
    case Pong => PongEvent(payload)
    case Close =>
      if |payload| >= 2 then CloseEvent(Some(FromBigEndian(payload[..2])), payload[2..]) else CloseEvent(None, [])
    case _ => Data(payload)
  }

  datatype Polled =
    | Got(event: Event, rest: Bytes)
    | Short
    | Bad(error: ProtocolError)

  /** `Decoder::poll`: nothing is consumed until the whole frame is there. */
  function Poll(buffer: Bytes): (p: Polled)
    ensures p.Got? ==> |p.rest| < |buffer|
  {
    var header := DecodeHeader(buffer);
    if header.Failed? then Bad(header.error)
    else if header.value.None? then Short
    else
      var h := header.value.value;
      var total := h.headerLen + h.payloadLen;
      if |buffer| < total then Short
      else
        var payload := buffer[h.headerLen..total];
        Got(EventOf(h.opcode, if h.mask.Some? then Masked(payload, h.mask.value, 0) else payload), buffer[total..])
  }

  // ---- laws --------------------------------------------------------------------------

  /** Octets added behind what is there never change an answer already given. */
  lemma {:induction false} HeaderStays(buffer: Bytes, more: Bytes)
    requires DecodeHeader(buffer) != Ok(None)
    ensures DecodeHeader(buffer + more) == DecodeHeader(buffer)
  {
    if DecodeLength(buffer) != Ok(None) {
      LengthStays(buffer, more);
    }
    assert (buffer + more)[0] == buffer[0] && (buffer + more)[1] == buffer[1];
    var length := DecodeLength(buffer);
    if length.Ok? && length.value.Some? {
      var at := 2 + length.value.value.1;
      if |buffer| >= at + 4 {
        assert (buffer + more)[at..at + 4] == buffer[at..at + 4];
      }
    }
  }

  lemma {:induction false} LengthStays(buffer: Bytes, more: Bytes)
    requires |buffer| >= 2 && DecodeLength(buffer) != Ok(None)
    ensures DecodeLength(buffer + more) == DecodeLength(buffer)
  {
    assert (buffer + more)[1] == buffer[1];
    if |buffer| >= 4 {
      assert (buffer + more)[2..4] == buffer[2..4];
    }
    if |buffer| >= 10 {
      assert (buffer + more)[2..10] == buffer[2..10];
    }
  }

  lemma {:induction false} PollStays(buffer: Bytes, more: Bytes)
    requires !Poll(buffer).Short?
    ensures
      var p := Poll(buffer);
      Poll(buffer + more) == if p.Got? then Got(p.event, p.rest + more) else p
  {
    HeaderStays(buffer, more);
    var header := DecodeHeader(buffer);
    if header.Ok? {
      var h := header.value.value;
      var total := h.headerLen + h.payloadLen;
      assert (buffer + more)[h.headerLen..total] == buffer[h.headerLen..total];
      assert (buffer + more)[total..] == buffer[total..] + more;
    }
  }

  lemma {:induction false} Power256At(k: nat)
    requires k == 2 || k == 8
    ensures Power256(2) == 0x1_0000 && Power256(8) > MAX_PAYLOAD
  {
    assert Power256(2) == 256 * Power256(1) && Power256(1) == 256 * Power256(0);
    assert Power256(4) == 0x1_0000 * Power256(2);
    assert Power256(8) == 0x1_0000 * Power256(6) && Power256(6) == 0x1_0000 * Power256(4);
  }

  lemma {:induction false} MediumLength(buffer: Bytes, len: nat)
    requires 126 <= len <= 0xffff && |buffer| >= 4 && buffer[1] % 128 == 126 && buffer[2..4] == BigEndian(len, 2)
    ensures DecodeLength(buffer) == Ok(Some((len, 2)))
  {
    Power256At(2);
    BigEndianRoundTrip(len, 2);
  }

  lemma {:induction false} LongLength(buffer: Bytes, len: nat)
    requires 0xffff < len <= MAX_PAYLOAD && |buffer| >= 10 && buffer[1] % 128 == 127 && buffer[2..10] == BigEndian(len, 8)
    ensures DecodeLength(buffer) == Ok(Some((len, 8)))
  {
    Power256At(8);
    BigEndianRoundTrip(len, 8);
  }

  /** The length field reads back as the length it was written for, whatever follows. */
  lemma {:induction false} LengthRoundTrip(opcode: OpCode, fin: bool, len: nat, mask: Option<Key>, tail: Bytes)
    requires len <= MAX_PAYLOAD
    ensures
      var buffer := EncodeHeader(opcode, fin, len, mask) + tail;
      && |buffer| >= 2
      && DecodeLength(buffer) == Ok(Some((len, if len < 126 then 0 else if len <= 0xffff then 2 else 8)))
  {
    var buffer := EncodeHeader(opcode, fin, len, mask) + tail;
    var masked := if mask.Some? then 128 else 0;
    if 126 <= len <= 0xffff {
      assert buffer[1] == masked + 126 && buffer[2..4] == BigEndian(len, 2);
      MediumLength(buffer, len);
    } else if len > 0xffff {
      assert buffer[1] == masked + 127 && buffer[2..10] == BigEndian(len, 8);
      LongLength(buffer, len);
    } else {
      assert buffer[1] == masked + len;
    }
  }

  lemma {:induction false} OpCodeRoundTrip(opcode: OpCode, fin: bool)
    ensures var b := (if fin then 128 else 0) + opcode.Bits(); b / 16 % 8 == 0 && FromBits(b % 16) == Some(opcode) && (b >= 128 <==> fin)
  {
  }

  /** A header a peer may write is read as what it says, whatever follows. */
  lemma {:induction false} HeaderReads(opcode: OpCode, fin: bool, len: nat, mask: Option<Key>, tail: Bytes)
    requires len <= MAX_PAYLOAD && (opcode.IsControl() ==> fin && len <= 125)
    ensures
      var h := EncodeHeader(opcode, fin, len, mask);
      DecodeHeader(h + tail) == Ok(Some(Header(fin, opcode, mask, len, |h|)))
  {
    var h := EncodeHeader(opcode, fin, len, mask);
    var buffer := h + tail;
    LengthRoundTrip(opcode, fin, len, mask, tail);
    OpCodeRoundTrip(opcode, fin);
    if mask.Some? {
      assert buffer[|h| - 4..|h|] == mask.value;
    }
  }

  /** A header this end writes is read back as itself. */
  lemma {:induction false} HeaderRoundTrip(f: Out, tail: Bytes)
    requires f.Sendable()
    ensures
      var h := EncodeHeader(f.opcode, true, |f.payload|, f.mask);
      DecodeHeader(h + tail) == Ok(Some(Header(true, f.opcode, f.mask, |f.payload|, |h|)))
  {
    HeaderReads(f.opcode, true, |f.payload|, f.mask, tail);
  }

  /** Octets are the big-endian form of the number they stand for. */
  lemma {:induction false} FromBigEndianRoundTrip(bs: Bytes)
    ensures BigEndian(FromBigEndian(bs), |bs|) == bs
  {
    if bs != [] {
      FromBigEndianRoundTrip(bs[..|bs| - 1]);
      assert bs == bs[..|bs| - 1] + [bs[|bs| - 1]];
    }
  }

  lemma {:induction false} LengthWritten(buffer: Bytes, masked: int)
    requires |buffer| >= 2 && DecodeLength(buffer).Ok? && DecodeLength(buffer).value.Some?
    requires buffer[1] == masked + buffer[1] % 128
    ensures
      var (len, extra) := DecodeLength(buffer).value.value;
      buffer[1..2 + extra] == if len < 126 then [masked + len]
                              else if len <= 0xffff then [masked + 126] + BigEndian(len, 2) else [masked + 127] + BigEndian(len, 8)
  {
    var (len, extra) := DecodeLength(buffer).value.value;
    if extra == 2 {
      FromBigEndianRoundTrip(buffer[2..4]);
      BigEndianBound(buffer[2..4]);
      Power256At(2);
    } else if extra == 8 {
      FromBigEndianRoundTrip(buffer[2..10]);
    }
    assert buffer[1..2 + extra] == [buffer[1]] + buffer[2..2 + extra];
  }

  lemma {:induction false} BigEndianBound(bs: Bytes)
    ensures FromBigEndian(bs) < Power256(|bs|)
  {
    if bs != [] {
      BigEndianBound(bs[..|bs| - 1]);
    }
  }

  /** Only a header a peer may write is accepted, and only in its shortest form. */
  lemma {:induction false} HeaderWritten(buffer: Bytes)
    requires DecodeHeader(buffer).Ok? && DecodeHeader(buffer).value.Some?
    ensures
      var h := DecodeHeader(buffer).value.value;
      && h.payloadLen <= MAX_PAYLOAD && (h.opcode.IsControl() ==> h.fin && h.payloadLen <= 125)
      && buffer[..h.headerLen] == EncodeHeader(h.opcode, h.fin, h.payloadLen, h.mask)
  {
    hide DecodeLength, BigEndian;
    var h := DecodeHeader(buffer).value.value;
    var masked := if h.mask.Some? then 128 else 0;
    LengthWritten(buffer, masked);
    var extra := DecodeLength(buffer).value.value.1;
    assert buffer[..2 + extra] == [buffer[0]] + buffer[1..2 + extra];
    if h.mask.Some? {
      assert buffer[..2 + extra + 4] == buffer[..2 + extra] + buffer[2 + extra..2 + extra + 4];
    }
  }

  /** A queued frame polls back as the event it stands for, with or without a mask, whatever follows. */
  lemma {:induction false} PollRoundTrip(f: Out, tail: Bytes)
    requires f.Sendable()
    ensures Poll(EncodeFrame(f) + tail) == Got(EventOf(f.opcode, f.payload), tail)
  {
    var h := EncodeHeader(f.opcode, true, |f.payload|, f.mask);
    var body := if f.mask.Some? then Masked(f.payload, f.mask.value, 0) else f.payload;
    assert EncodeFrame(f) + tail == h + (body + tail);
    HeaderRoundTrip(f, body + tail);
    assert (h + (body + tail))[|h|..|h| + |body|] == body;
    assert (h + (body + tail))[|h| + |body|..] == tail;
    if f.mask.Some? {
      MaskedTwice(f.payload, f.mask.value, 0);
    }
  }
}
