/**
 * WebSocket frames against the layout of section 5.2 of RFC 6455: which octets a frame is written
 * as, which octets are taken for a frame, and what each opcode means to the tunnel.
 */
module WsGrammar {
  import opened Octets
  import opened WsFrames
  import T = WsTunnel

  /** The numbers section 11.8 of RFC 6455 gives to the opcodes. */
  function Number(opcode: OpCode): nat
  {
    match opcode
    case Continuation => 0
    case Text => 1
    case Binary => 2
    case Close => 8
    case Ping => 9
    case Pong => 10
  }

  /** The payload length: seven bits, or 126 and sixteen, or 127 and sixty-four, the shortest that fits. */
  function LengthOctets(masked: bool, len: nat): Bytes
    requires len <= 16_777_216
  {
    var m := if masked then 128 else 0;
    if len <= 125 then [m + len]
    else if len <= 65535 then [m + 126, len / 256, len % 256]
    else [m + 127, 0, 0, 0, 0, len / 16_777_216, len / 65536 % 256, len / 256 % 256, len % 256]
  }

  lemma {:induction false} BigEndianTwo(len: nat)
    requires len <= 65535
    ensures BigEndian(len, 2) == [len / 256, len % 256]
  {
    assert BigEndian(len, 2) == BigEndian(len / 256, 1) + [len % 256];
    assert BigEndian(len / 256, 1) == BigEndian(len / 256 / 256, 0) + [len / 256 % 256];
  }

  lemma {:induction false} BigEndianEight(len: nat)
    requires len <= 16_777_216
    ensures BigEndian(len, 8) == [0, 0, 0, 0, len / 16_777_216, len / 65536 % 256, len / 256 % 256, len % 256]
  {
    BigEndianZero(4);
    var (a, b, c) := (len / 256, len / 65536, len / 16_777_216);
    assert a / 256 == b && b / 256 == c && c / 256 == 0 && c % 256 == c;
    assert BigEndian(c, 5) == BigEndian(0, 4) + [c];
    assert BigEndian(b, 6) == BigEndian(c, 5) + [b % 256];
    assert BigEndian(a, 7) == BigEndian(b, 6) + [a % 256];
    assert BigEndian(len, 8) == BigEndian(a, 7) + [len % 256];
  }

  lemma {:induction false} BigEndianZero(k: nat)
    requires k <= 4
    ensures BigEndian(0, k) == [0, 0, 0, 0][..k]
  {
    if k > 0 {
      BigEndianZero(k - 1);
    }
  }

  /** A header is its final bit and opcode, its mask bit and length, and its key. */
  lemma {:induction false} HeaderSpells(opcode: OpCode, fin: bool, len: nat, mask: Option<Key>)
    requires len <= 16_777_216
    ensures EncodeHeader(opcode, fin, len, mask) ==
      [(if fin then 128 else 0) + Number(opcode)] + LengthOctets(mask.Some?, len) + if mask.Some? then mask.value else []
  {
    hide BigEndian;
    var masked := if mask.Some? then 128 else 0;
    if 126 <= len <= 65535 {
      BigEndianTwo(len);
      assert [masked + 126] + BigEndian(len, 2) == LengthOctets(mask.Some?, len);
    } else if len > 65535 {
      BigEndianEight(len);
      assert [masked + 127] + BigEndian(len, 8) == LengthOctets(mask.Some?, len);
    }
    assert opcode.Bits() == Number(opcode);
  }

  // ---- masking -----------------------------------------------------------------------

  /** The binary digit of `x` worth 2 to the power `k`. */
  function Bit(x: nat, k: nat): nat { if k == 0 then x % 2 else Bit(x / 2, k - 1) }

  lemma {:induction false} XorDigits(a: nat, b: nat, n: nat, k: nat)
    requires k < n
    ensures Bit(XorBits(a, b, n), k) == if Bit(a, k) == Bit(b, k) then 0 else 1
  {
    Halve(XorBits(a / 2, b / 2, n - 1), if a % 2 == b % 2 then 0 else 1);
    if k > 0 {
      XorDigits(a / 2, b / 2, n - 1, k - 1);
    }
  }

  /** Each octet of a masked payload differs from the payload's in exactly the bits set in the key's octet for its place. */
  lemma {:induction false} MaskedDigits(payload: Bytes, key: Key, i: nat, k: nat)
    requires i < |payload| && k < 8
    ensures |Masked(payload, key, 0)| == |payload|
    ensures Bit(Masked(payload, key, 0)[i], k) == if Bit(payload[i], k) == Bit(key[i % 4], k) then 0 else 1
  {
    XorDigits(payload[i], key[i % 4], 8, k);
  }

  // ---- what is taken for a frame, and what it means ----------------------------------

  /** What a frame means to the tunnel: a close with its code and reason, a ping, a pong, or else data. */
  ghost predicate Stands(opcode: OpCode, payload: Bytes, e: Event)
  {
    match opcode
    case Close =>
      if |payload| < 2 then e == CloseEvent(None, [])
      else
        var high: nat := payload[0];
        var low: nat := payload[1];
        e == CloseEvent(Some(256 * high + low), payload[2..])
    case Ping => e == PingEvent(payload)
    case Pong => e == PongEvent(payload)
    case Text => e == Event.Data(payload)
    case Binary => e == Event.Data(payload)
    case Continuation => e == Event.Data(payload)
  }

  lemma {:induction false} StandsFor(opcode: OpCode, payload: Bytes, e: Event)
    ensures EventOf(opcode, payload) == e <==> Stands(opcode, payload, e)
  {
    if opcode.Close? && |payload| >= 2 {
      var code := payload[..2];
      assert code[..1] == [payload[0]] && code[..1][..0] == [];
      assert FromBigEndian(code) == FromBigEndian(code[..1]) * 256 + code[1];
      assert FromBigEndian(code[..1]) == FromBigEndian([]) * 256 + payload[0];
    }
  }

  /** Limits a receiver puts on a frame: 2^24 octets; a control frame is whole and at most 125. */
  predicate Permitted(opcode: OpCode, fin: bool, len: nat)
  {
    len <= 16_777_216 && (Number(opcode) >= 8 ==> fin && len <= 125)
  }

  /** Octets laid out as a frame, and then `rest`. */
  ghost predicate Layout(buffer: Bytes, opcode: OpCode, fin: bool, key: Option<Key>, payload: Bytes, rest: Bytes)
  {
    && Permitted(opcode, fin, |payload|)
    && buffer == [(if fin then 128 else 0) + Number(opcode)] + LengthOctets(key.Some?, |payload|) + (if key.Some? then key.value else [])
                 + ((if key.Some? then Masked(payload, key.value, 0) else payload) + rest)
  }

  /** A frame is polled from a buffer if and only if the octets in front are laid out as one; and it is reported as what it means. */
  lemma {:induction false} PollsExactly(buffer: Bytes, e: Event, rest: Bytes)
    ensures Poll(buffer) == Got(e, rest) <==>
      exists opcode, fin, key, payload :: Layout(buffer, opcode, fin, key, payload, rest) && Stands(opcode, payload, e)
  {
    hide Poll, Layout, Stands;
    if Poll(buffer) == Got(e, rest) {
      PolledLayout(buffer, e, rest);
    }
    if exists opcode, fin, key, payload :: Layout(buffer, opcode, fin, key, payload, rest) && Stands(opcode, payload, e) {
      var opcode, fin, key, payload :| Layout(buffer, opcode, fin, key, payload, rest) && Stands(opcode, payload, e);
      LayoutPolled(buffer, opcode, fin, key, payload, rest, e);
    }
  }

  lemma {:induction false} LayoutPolled(buffer: Bytes, opcode: OpCode, fin: bool, key: Option<Key>, payload: Bytes, rest: Bytes, e: Event)
    requires Layout(buffer, opcode, fin, key, payload, rest) && Stands(opcode, payload, e)
    ensures Poll(buffer) == Got(e, rest)
  {
    hide EncodeHeader, DecodeHeader, LengthOctets, Stands, EventOf, Masked, Poll;
    var h := EncodeHeader(opcode, fin, |payload|, key);
    var body := if key.Some? then Masked(payload, key.value, 0) else payload;
    HeaderSpells(opcode, fin, |payload|, key);
    HeaderReads(opcode, fin, |payload|, key, body + rest);
    PolledBehind(h, body, rest, Header(fin, opcode, key, |payload|, |h|));
    if key.Some? {
      MaskedTwice(payload, key.value, 0);
    }
    StandsFor(opcode, payload, e);
  }

  lemma {:induction false} PolledBehind(h: Bytes, body: Bytes, rest: Bytes, header: Header)
    requires DecodeHeader(h + (body + rest)) == Ok(Some(header)) && header.headerLen == |h| && header.payloadLen == |body|
    ensures Poll(h + (body + rest)) ==
      Got(EventOf(header.opcode, if header.mask.Some? then Masked(body, header.mask.value, 0) else body), rest)
  {
    hide DecodeHeader, EventOf, Masked;
    assert (h + (body + rest))[|h|..|h| + |body|] == body;
    assert (h + (body + rest))[|h| + |body|..] == rest;
  }

  lemma {:induction false} PolledLayout(buffer: Bytes, e: Event, rest: Bytes)
    requires Poll(buffer) == Got(e, rest)
    ensures exists opcode, fin, key, payload :: Layout(buffer, opcode, fin, key, payload, rest) && Stands(opcode, payload, e)
  {
    hide EncodeHeader, DecodeHeader, LengthOctets, Stands, EventOf;
    HeaderWritten(buffer);
    var h := DecodeHeader(buffer).value.value;
    var total := h.headerLen + h.payloadLen;
    var body := buffer[h.headerLen..total];
    var payload := if h.mask.Some? then Masked(body, h.mask.value, 0) else body;
    if h.mask.Some? {
      MaskedTwice(body, h.mask.value, 0);
    }
    HeaderSpells(h.opcode, h.fin, |payload|, h.mask);
    assert buffer == buffer[..h.headerLen] + (body + buffer[total..]);
    StandsFor(h.opcode, payload, e);
    assert Layout(buffer, h.opcode, h.fin, h.mask, payload, rest);
  }

  /** A queued frame, polled by the peer: what its opcode means, whatever follows. */
  lemma {:induction false} PollMeans(f: Out, tail: Bytes)
    requires f.Sendable()
    ensures Poll(EncodeFrame(f) + tail).Got? && Poll(EncodeFrame(f) + tail).rest == tail
    ensures Stands(f.opcode, f.payload, Poll(EncodeFrame(f) + tail).event)
  {
    hide Poll, EncodeFrame, Stands, EventOf;
    PollRoundTrip(f, tail);
    StandsFor(f.opcode, f.payload, EventOf(f.opcode, f.payload));
  }

  /** The opcode a number stands for, if it is one. */
  ghost predicate Known(number: int, opcode: OpCode) { number == Number(opcode) }

  /** What a header declares as its length, and in how many further octets; nothing while they are not all there. */
  ghost predicate Declares(buffer: Bytes, len: nat, extra: nat)
    requires |buffer| >= 2
  {
    var short := buffer[1] % 128;
    if short == 126 then
      |buffer| >= 4 && extra == 2 && var (a: nat, b: nat) := (buffer[2], buffer[3]); len == 256 * a + b
    else if short == 127 then |buffer| >= 10 && extra == 8 && len == FromBigEndian(buffer[2..10])
    else extra == 0 && len == short
  }

  /** The first rule of section 5 of RFC 6455 that a header breaks, if any, names the fault. */
  ghost predicate Breaks(buffer: Bytes, e: ProtocolError)
    requires |buffer| >= 2
  {
    if buffer[0] / 16 % 8 != 0 then e == ReservedBits
    else if forall opcode :: !Known(buffer[0] % 16, opcode) then e == UnknownOpCode(buffer[0] % 16)
    else exists len: nat, extra: nat :: Declares(buffer, len, extra) && BreaksLength(buffer, len, extra, e)
  }

  ghost predicate BreaksLength(buffer: Bytes, len: nat, extra: nat, e: ProtocolError)
    requires |buffer| >= 2
  {
    if (extra == 2 && len <= 125) || (extra == 8 && len <= 65535) then e == NonMinimalLength
    else if len > 16_777_216 then e == PayloadTooLarge(len)
    else if buffer[0] % 16 >= 8 && len > 125 then e == ControlFrameTooLarge(len)
    else buffer[0] % 16 >= 8 && buffer[0] < 128 && e == FragmentedControlFrame
  }

  lemma {:induction false} KnownBits(number: int)
    requires 0 <= number < 16
    ensures FromBits(number).None? <==> forall opcode :: !Known(number, opcode)
    ensures FromBits(number).Some? ==> (FromBits(number).value.IsControl() <==> number >= 8)
  {
    assert Known(0, Continuation) && Known(1, Text) && Known(2, Binary) && Known(8, Close) && Known(9, Ping) && Known(10, Pong);
  }

  lemma {:induction false} LengthDeclared(buffer: Bytes, len: nat, extra: nat)
    requires |buffer| >= 2
    ensures Declares(buffer, len, extra) ==>
      DecodeLength(buffer) == if (extra == 2 && len <= 125) || (extra == 8 && len <= 65535) then Failed(NonMinimalLength) else Ok(Some((len, extra)))
  {
    if |buffer| >= 4 {
      var two := buffer[2..4];
      assert two[..1] == [buffer[2]] && two[..1][..0] == [];
      assert FromBigEndian(two) == FromBigEndian(two[..1]) * 256 + two[1];
      assert FromBigEndian(two[..1]) == FromBigEndian([]) * 256 + buffer[2];
    }
  }

  lemma {:induction false} DeclaredSomehow(buffer: Bytes) returns (len: nat, extra: nat)
    requires |buffer| >= 2 && (buffer[1] % 128 == 126 ==> |buffer| >= 4) && (buffer[1] % 128 == 127 ==> |buffer| >= 10)
    ensures Declares(buffer, len, extra)
  {
    if buffer[1] % 128 == 126 {
      var a: nat, b: nat := buffer[2], buffer[3];
      len, extra := 256 * a + b, 2;
    } else if buffer[1] % 128 == 127 {
      len, extra := FromBigEndian(buffer[2..10]), 8;
    } else {
      len, extra := buffer[1] % 128, 0;
    }
  }

  /** A buffer is refused exactly for what its first header breaks; short of two octets nothing is refused. */
  lemma {:induction false} RefusedExactly(buffer: Bytes, e: ProtocolError)
    ensures |buffer| < 2 ==> Poll(buffer) == Short
    ensures |buffer| >= 2 ==> (Poll(buffer) == Bad(e) <==> Breaks(buffer, e))
  {
    hide DecodeLength, EventOf, Masked, Declares;
    if |buffer| >= 2 {
      KnownBits(buffer[0] % 16);
      if (buffer[1] % 128 == 126 ==> |buffer| >= 4) && (buffer[1] % 128 == 127 ==> |buffer| >= 10) {
        var len, extra := DeclaredSomehow(buffer);
        LengthDeclared(buffer, len, extra);
        forall l: nat, x: nat | Declares(buffer, l, x)
          ensures l == len && x == extra
        {
          DeclaredOnce(buffer, l, x, len, extra);
        }
      } else {
        NotDeclared(buffer);
      }
    }
  }

  lemma {:induction false} DeclaredOnce(buffer: Bytes, l: nat, x: nat, len: nat, extra: nat)
    requires |buffer| >= 2 && Declares(buffer, l, x) && Declares(buffer, len, extra)
    ensures l == len && x == extra
  {
  }

  lemma {:induction false} NotDeclared(buffer: Bytes)
    requires |buffer| >= 2 && ((buffer[1] % 128 == 126 && |buffer| < 4) || (buffer[1] % 128 == 127 && |buffer| < 10))
    ensures DecodeLength(buffer) == Ok(None) && forall l: nat, x: nat :: !Declares(buffer, l, x)
  {
  }

  // ---- pings on whole runs -----------------------------------------------------------

  /** The payloads of the pings among frames, in order. */
  function Pings(outs: seq<Out>): seq<Bytes>
  {
    if outs == [] then [] else (if outs[0].opcode == Ping then [outs[0].payload] else []) + Pings(outs[1..])
  }

  /** A reader of frames before any close is to answer exactly the pings among them, in order, and then those of what follows. */
  lemma {:induction false} PingsReceived(outs: seq<Out>, tail: Bytes)
    requires T.Carriable(outs)
    ensures T.Unframe(T.Wire(outs) + tail).pings == Pings(outs) + T.Unframe(tail).pings
    decreases |outs|
  {
    hide Poll, EncodeFrame;
    if outs == [] {
      assert T.Wire(outs) + tail == tail && [] + T.Unframe(tail).pings == T.Unframe(tail).pings;
    } else {
      var first, rest := outs[0], T.Wire(outs[1..]) + tail;
      Associate(EncodeFrame(first), T.Wire(outs[1..]), tail);
      PollMeans(first, rest);
      PingsReceived(outs[1..], tail);
      var mine := if first.opcode == Ping then [first.payload] else [];
      assert T.PingIn(Poll(EncodeFrame(first) + rest).event) == mine;
      Associate(mine, Pings(outs[1..]), T.Unframe(tail).pings);
    }
  }
}
