/**
 * The tunnel as it runs: buffers updated in place by writes, reads and flushes. Writing is
 * proved to be the step system of `WsTunnel`; reading is proved to lose and invent nothing.
 */
module WsStreams {
  import opened Octets
  import opened Codec
  import opened WsTunnel
  import Ws = WsFrames

  const OUTBOUND_HIGH_WATER: nat := 524_288

  // ---- masking in place --------------------------------------------------------------

  /** `apply_mask`. */
  method ApplyMask(payload: array<Octet>, mask: Ws.Key, offset: nat)
    modifies payload
    ensures payload[..] == Ws.Masked(old(payload[..]), mask, offset)
  {
    hide Ws.Xor;
    var i := 0;
    while i < payload.Length
      invariant 0 <= i <= payload.Length
      invariant forall k :: 0 <= k < i ==> payload[k] == Ws.Xor(old(payload[k]), mask[(k + offset) % 4])
      invariant forall k :: i <= k < payload.Length ==> payload[k] == old(payload[k])
    {
      payload[i] := Ws.Xor(payload[i], mask[(i + offset) % 4]);
      i := i + 1;
    }
  }

  /** The octets of `payload` with the key applied, in a buffer of their own. */
  method MaskedCopy(payload: Bytes, mask: Ws.Key) returns (out: Bytes)
    ensures out == Ws.Masked(payload, mask, 0)
  {
    hide Ws.Masked;
    var buf := new Octet[|payload|](i requires 0 <= i < |payload| => payload[i]);
    assert buf[..] == payload;
    ApplyMask(buf, mask, 0);
    out := buf[..];
  }

  /** `Decoder::poll`: a frame is taken off the front of the buffer only when it is all there. */
  method TakeEvent(buffer: Bytes) returns (r: Result<Option<Ws.Event>, Ws.ProtocolError>, rest: Bytes)
    ensures
      match Ws.Poll(buffer)
      case Got(e, left) => r == Ok(Some(e)) && rest == left
      case Short => r == Ok(None) && rest == buffer
      case Bad(e) => r == Failed(e) && rest == buffer
  {
    hide Ws.DecodeHeader, Ws.Masked;
    rest := buffer;
    var header := Ws.DecodeHeader(buffer);
    if header.Failed? {
      r := Failed(header.error);
      return;
    }
    if header.value.None? {
      r := Ok(None);
      return;
    }
    var h := header.value.value;
    var total := h.headerLen + h.payloadLen;
    if |buffer| < total {
      r := Ok(None);
      return;
    }
    var payload := buffer[h.headerLen..total];
    rest := buffer[total..];
    if h.mask.Some? {
      payload := MaskedCopy(payload, h.mask.value);
    }
    r := Ok(Some(Ws.EventOf(h.opcode, payload)));
  }

  // ---- what is still to be read ------------------------------------------------------

  /** The octets a socket still delivers; an empty read is the end of file. */
  function UntilEof(incoming: seq<Bytes>): Bytes
  {
    if incoming == [] || incoming[0] == [] then [] else incoming[0] + UntilEof(incoming[1..])
  }

  /** The pings answered among queued frames. */
  function Pongs(outs: seq<Ws.Out>): seq<Bytes>
  {
    if outs == [] then []
    else Pongs(outs[..|outs| - 1])
         + if outs[|outs| - 1].opcode.Pong? then [outs[|outs| - 1].payload] else []
  }

  /** The payloads of the closes among queued frames. */
  function Closes(outs: seq<Ws.Out>): seq<Bytes>
  {
    if outs == [] then []
    else Closes(outs[..|outs| - 1])
         + if outs[|outs| - 1].opcode.Close? then [outs[|outs| - 1].payload] else []
  }

  /** A close with code 1000 is queued when this end begins to close, and at no other time. */
  ghost predicate ClosedOnce(before: seq<Ws.Out>, was: bool, after: seq<Ws.Out>, now: bool)
  {
    Closes(after) == Closes(before) + (if now && !was then [[3, 232]] else []) && (was ==> now)
  }

  lemma {:induction false} NormalClosure()
    ensures Ws.BigEndian(1000, 2) == [3, 232]
  {
    assert Ws.BigEndian(1000, 2) == Ws.BigEndian(3, 1) + [232] && Ws.BigEndian(3, 1) == Ws.BigEndian(0, 0) + [3];
  }

  lemma {:induction false} QueuedClose(before: seq<Ws.Out>, after: seq<Ws.Out>)
    requires |after| == |before| + 1 && after[..|before|] == before
    ensures Closes(after) == Closes(before) + if after[|before|].opcode.Close? then [after[|before|].payload] else []
  {
  }

  lemma {:induction false} WireSnoc(outs: seq<Ws.Out>, o: Ws.Out)
    ensures Wire(outs + [o]) == Wire(outs) + Ws.EncodeFrame(o)
  {
    hide Ws.EncodeFrame;
    if outs == [] {
      assert [o][1..] == [];
      assert Wire([o]) == Ws.EncodeFrame(o) + [];
      assert outs + [o] == [o];
    } else {
      assert (outs + [o])[0] == outs[0] && (outs + [o])[1..] == outs[1..] + [o];
      WireSnoc(outs[1..], o);
      Associate(Ws.EncodeFrame(outs[0]), Wire(outs[1..]), Ws.EncodeFrame(o));
    }
  }

  datatype Read = Pending | Ready(chunk: Bytes) | Error(error: Ws.ProtocolError)

  /** A close queued behind `before` adds no payload and changes nothing in front of it. */
  lemma {:induction false} CloseLast(first: seq<Ws.Out>, before: seq<Ws.Out>, outs: seq<Ws.Out>)
    requires |first| <= |before| && before[..|first|] == first
    requires |outs| == |before| + 1 && outs[..|before|] == before && outs[|before|].opcode.Close?
    ensures Payloads(outs) == Payloads(before) && outs[..|first|] == first
    ensures outs[|first|..][..|outs| - |first| - 1] == before[|first|..]
  {
    assert outs == before + [outs[|before|]];
    PayloadsAppend(before, [outs[|before|]]);
    assert [outs[|before|]][1..] == [];
  }

  class WsStream {
    const masks: bool              // the client end masks, the server end does not
    var incoming: seq<Bytes>       // what the socket has still to deliver, read by read
    var drained: Bytes             // what the socket has taken
    var inbound: Bytes
    var payload: Bytes
    var outbound: Bytes
    var partial: Bytes
    var finished: bool
    var closing: bool

    ghost var outs: seq<Ws.Out>    // every frame queued
    ghost var taken: Bytes         // every octet taken from the caller

    /** The writing half, as `WsTunnel` sees it. */
    ghost function Written(): Writer
      reads this`outs, this`partial, this`taken
    {
      Writer(outs, partial, taken)
    }

    /** Octets taken by the socket and waiting for it are the frames queued, in order. */
    ghost predicate Valid()
      reads this`drained, this`outbound, this`outs
    {
      drained + outbound == Wire(outs)
    }

    constructor (masks: bool, prefix: Bytes, incoming: seq<Bytes>)
      ensures Valid() && Written() == FRESH && payload == [] && !finished && !closing
      ensures inbound == prefix && this.incoming == incoming && this.masks == masks
    {
      this.masks := masks;
      this.incoming := incoming;
      inbound, payload, outbound, partial, drained := prefix, [], [], [], [];
      finished, closing := false, false;
      outs, taken := [], [];
    }

    // ---- writing ---------------------------------------------------------------------

    /** `queue`: one frame, under a fresh key at the client end. */
    method Queue(opcode: Ws.OpCode, octets: Bytes)
      requires Valid()
      modifies this`outbound, this`outs
      ensures Valid()
      ensures |outs| == |old(outs)| + 1 && outs[..|old(outs)|] == old(outs)
      ensures
        var o := outs[|old(outs)|];
        o.opcode == opcode && o.payload == octets && (o.mask.Some? <==> masks)
    {
      hide Ws.EncodeHeader, Ws.Masked;
      var mask: Option<Ws.Key> := None;
      if masks {
        var key: Ws.Key := *;
        mask := Some(key);
      }
      var body := octets;
      if mask.Some? {
        body := MaskedCopy(octets, mask.value);
      }
      ghost var o := Ws.Out(opcode, octets, mask);
      WireSnoc(outs, o);
      Associate(drained, outbound, Ws.EncodeFrame(o));
      Associate(outbound, Ws.EncodeHeader(opcode, true, |octets|, mask), body);
      outbound := outbound + Ws.EncodeHeader(opcode, true, |octets|, mask) + body;
      outs := outs + [o];
    }

    /** `poll_drain`: the socket takes as much as it will. */
    method Drain()
      requires Valid()
      modifies this`outbound, this`drained
      ensures Valid() && |old(outbound)| >= |outbound|
    {
      var k: nat :| k <= |outbound|;
      Associate(drained, outbound[..k], outbound[k..]);
      assert outbound[..k] + outbound[k..] == outbound;
      drained := drained + outbound[..k];
      outbound := outbound[k..];
    }

    /** `queue_whole_frames`. */
    method QueueWholeFrames()
      requires Valid()
      modifies this`outbound, this`outs, this`partial
      ensures Valid() && |outs| >= |old(outs)| && outs[..|old(outs)|] == old(outs)
      ensures Framed(outs[|old(outs)|..], WholeFrames(old(partial)).queued) && partial == WholeFrames(old(partial)).held
    {
      hide FrameBoundary, Valid, WholeFrames, Framed;
      ghost var done: seq<Bytes> := [];
      FramedNone(outs);
      var end := FrameBoundary(partial);
      while end.Some?
        invariant Valid() && end == FrameBoundary(partial)
        invariant |outs| >= |old(outs)| && outs[..|old(outs)|] == old(outs) && Framed(outs[|old(outs)|..], done)
        invariant
          var w := WholeFrames(partial);
          WholeFrames(old(partial)) == Packed(done + w.queued, w.held)
        decreases |partial|
      {
        WholeFramesStep(partial);
        var first := partial[..end.value];
        ghost var before := outs;
        Associate(done, [first], WholeFrames(partial[end.value..]).queued);
        Queue(Ws.Binary, first);
        FramedSnoc(old(outs), before, outs, done, first);
        done := done + [first];
        partial := partial[end.value..];
        end := FrameBoundary(partial);
      }
      WholeFramesStep(partial);
      assert done + [] == done;
    }

    /** `flush_partial`: whole frames first, then whatever is left, whole frame or not. */
    method FlushHeld()
      requires Valid()
      modifies this`outbound, this`outs, this`partial
      ensures Valid() && Acts(old(Written()), Flush, Written())
    {
      hide Valid, WholeFrames;
      QueueWholeFrames();
      if partial != [] {
        ghost var before := outs;
        ghost var done := WholeFrames(old(partial)).queued;
        Queue(Ws.Binary, partial);
        FramedSnoc(old(outs), before, outs, done, partial);
        partial := [];
      } else {
        ghost var done := WholeFrames(old(partial)).queued;
        assert done + [] == done;
      }
    }

    /** The loop of `poll_write`, with nothing held back: whole frames while the budget lasts, then the rest is held. */
    method TakeLoop(buf: Bytes) returns (n: nat)
      requires Valid() && partial == []
      modifies this`outbound, this`outs, this`partial
      ensures Valid() && |outs| >= |old(outs)| && outs[..|old(outs)|] == old(outs)
      ensures
        var t := TakeFrames(buf, 0);
        Framed(outs[|old(outs)|..], t.queued) && partial == t.held && n == |buf| - |t.left|
    {
      hide FrameBoundary, Valid, TakeFrames, Framed;
      n := 0;
      var queued: nat := 0;
      ghost var done: seq<Bytes> := [];
      FramedNone(outs);
      assert buf[0..] == buf;
      while n < |buf| && queued < MAX_SEND_BATCH
        invariant n <= |buf| && Valid()
        invariant |outs| >= |old(outs)| && outs[..|old(outs)|] == old(outs) && Framed(outs[|old(outs)|..], done)
        invariant partial != [] ==> n == |buf|
        invariant
          var t := TakeFrames(buf[n..], queued);
          TakeFrames(buf, 0) == Taken(done + t.queued, if partial != [] then partial else t.held, t.left)
        decreases |buf| - n
      {
        var rest := buf[n..];
        TakeFramesStep(rest, queued);
        var end := FrameBoundary(rest);
        if end.Some? {
          var first := rest[..end.value];
          ghost var before := outs;
          Associate(done, [first], TakeFrames(rest[end.value..], queued + end.value).queued);
          assert rest[end.value..] == buf[n + end.value..];
          Queue(Ws.Binary, first);
          FramedSnoc(old(outs), before, outs, done, first);
          done := done + [first];
          n := n + end.value;
          queued := queued + end.value;
        } else {
          partial := partial + rest;
          n := |buf|;
          assert buf[n..] == [];
          TakeFramesStep(buf[n..], queued);
        }
      }
      TakeFramesStep(buf[n..], queued);
      assert done + [] == done;
    }

    /** `poll_write`: waits for room, then is exactly one writing step of the tunnel. */
    method PollWrite(buf: Bytes) returns (r: Option<nat>)
      requires Valid()
      modifies this`outbound, this`drained, this`outs, this`partial, this`taken
      ensures Valid()
      ensures r.None? ==> Written() == old(Written()) && old(|outbound|) >= OUTBOUND_HIGH_WATER
      ensures r.Some? ==> Acts(old(Written()), Offer(buf), Written()) && r.value == Write(old(partial), buf).taken
    {
      hide Valid, WholeFrames, TakeFrames;
      TakeNothing();
      if buf == [] {
        return Some(0);
      }
      if |outbound| >= OUTBOUND_HIGH_WATER {
        Drain();
        if outbound != [] {
          return None;
        }
      }
      var n := |buf|;
      if partial != [] {
        partial := partial + buf;
        QueueWholeFrames();
        assert buf[..n] == buf;
      } else {
        n := TakeLoop(buf);
      }
      taken := taken + buf[..n];
      Drain();
      return Some(n);
    }

    /** `poll_flush`, as far as the buffers go. */
    method PollFlush()
      requires Valid()
      modifies this`outbound, this`drained, this`outs, this`partial
      ensures Valid() && Acts(old(Written()), Flush, Written())
    {
      hide Valid, Acts;
      FlushHeld();
      Drain();
    }

    /** `poll_shutdown`: what was held back is queued, and behind it one close unless one was queued before. */
    method PollShutdown()
      requires Valid()
      modifies this`outbound, this`drained, this`outs, this`partial, this`closing
      ensures Valid() && closing && partial == [] && Payloads(outs) == Payloads(old(outs)) + FlushPartial(old(partial))
      ensures |old(outs)| <= |outs| && outs[..|old(outs)|] == old(outs)
      ensures
        var added := outs[|old(outs)|..];
        if old(closing) then Framed(added, FlushPartial(old(partial)))
        else
          && added != [] && Framed(added[..|added| - 1], FlushPartial(old(partial)))
          && added[|added| - 1].opcode.Close? && added[|added| - 1].payload == Ws.BigEndian(1000, 2)
    {
      hide Valid, FlushPartial, Framed;
      FlushHeld();
      ActPayloads(old(Written()), Flush, Written());
      if !closing {
        closing := true;
        ghost var before := outs;
        Queue(Ws.Close, Ws.BigEndian(1000, 2));
        CloseLast(old(outs), before, outs);
      }
      Drain();
    }

    // ---- reading ---------------------------------------------------------------------

    /** What reading on to the end of what the socket delivers would come to. */
    ghost function Ahead(): Received
      reads this`inbound, this`incoming, this`finished
    {
      if finished then Received([], [], Closed) else Unframe(inbound + UntilEof(incoming))
    }

    /** The event at the front of the buffer, acted upon. */
    method React(e: Ws.Event, rest: Bytes)
      requires Valid() && !finished && payload == [] && Ws.Poll(inbound) == Ws.Got(e, rest)
      modifies this`inbound, this`payload, this`outbound, this`drained, this`outs, this`finished, this`closing
      ensures Valid() && inbound == rest && (finished <==> e.CloseEvent?)
      ensures payload + Ahead().data == old(Ahead().data)
      ensures Answers(old(outs), outs, if e.PingEvent? then [e.payload] else [])
      ensures (if e.PingEvent? then [e.payload] else []) + Ahead().pings == old(Ahead().pings)
      ensures !finished ==> Ahead().end == old(Ahead().end)
      ensures finished ==> old(Ahead().end) == Closed
      ensures ClosedOnce(old(outs), old(closing), outs, closing) && (if finished then closing else closing == old(closing))
    {
      hide Valid, Ws.Poll, Unframe, UntilEof;
      NormalClosure();
      UnframeEvent(inbound, UntilEof(incoming));
      inbound := rest;
      match e {
        case Data(octets) =>
          payload := octets;
        case PingEvent(octets) =>
          Queue(Ws.Pong, octets);
          QueuedClose(old(outs), outs);
          Drain();
        case PongEvent(_) =>
        case CloseEvent(_, _) =>
          finished := true;
          if !closing {
            closing := true;
            Queue(Ws.Close, Ws.BigEndian(1000, 2));
            QueuedClose(old(outs), outs);
            Drain();
          }
      }
    }

    /**
     * `poll_read`: what it hands up and what is still ahead make up what was ahead before, and
     * likewise for pings and the pongs that answer them. An empty read with room for more means
     * that there is nothing ahead at all. The peer's close is answered by one close, with code
     * 1000, unless this end has begun to close before.
     */
    method PollRead(room: nat) returns (r: Read)
      requires Valid()
      modifies this`incoming, this`inbound, this`payload, this`outbound, this`drained, this`outs, this`finished, this`closing
      ensures Valid() && Payloads(outs) == Payloads(old(outs))
      ensures r.Ready? ==> |r.chunk| <= room && r.chunk + (payload + Ahead().data) == old(payload + Ahead().data)
      ensures !r.Ready? ==> payload == [] && Ahead().data == old(payload + Ahead().data)
      ensures r.Ready? && room > 0 && r.chunk == [] ==> finished && payload == []
      ensures r.Pending? ==> incoming == [] && !finished
      ensures r.Error? ==> old(Ahead().end) == Broken(r.error)
      ensures exists pongs :: Answers(old(outs), outs, pongs) && pongs + Ahead().pings == old(Ahead().pings)
      ensures ClosedOnce(old(outs), old(closing), outs, closing) && (closing != old(closing) ==> finished)
      ensures finished && !old(finished) ==> (old(Ahead().end) == Closed ==> closing) && (closing != old(closing) ==> old(Ahead().end) == Closed)
    {
      hide Valid, Ahead, Answers, Closes;
      ghost var pongs: seq<Bytes> := [];
      AnswersNone(outs);
      r := Pending;
      var again := true;
      while again && payload == [] && !finished
        invariant Valid() && Answers(old(outs), outs, pongs)
        invariant payload + Ahead().data == old(payload + Ahead().data)
        invariant pongs + Ahead().pings == old(Ahead().pings)
        invariant !finished ==> Ahead().end == old(Ahead().end)
        invariant ClosedOnce(old(outs), old(closing), outs, closing) && (closing != old(closing) ==> finished)
        invariant finished && !old(finished) ==>
          (old(Ahead().end) == Closed ==> closing) && (closing != old(closing) ==> old(Ahead().end) == Closed)
        invariant !again ==> payload == [] && !finished
        invariant !again ==> if r.Pending? then incoming == [] else r.Error? && Ahead().end == Broken(r.error)
        decreases again, |incoming|, |inbound|
      {
        ghost var before := outs;
        ghost var gained;
        again, r, gained := ReadOn();
        AnswersJoin(old(outs), before, outs, pongs, gained);
        Associate(pongs, gained, Ahead().pings);
        pongs := pongs + gained;
      }
      AnswersPayloads(old(outs), outs, pongs);
      if payload != [] {
        var take := Min(|payload|, room);
        r := Ready(payload[..take]);
        Associate(payload[..take], payload[take..], Ahead().data);
        assert payload[..take] + payload[take..] == payload;
        payload := payload[take..];
      } else if finished {
        r := Ready([]);
      }
    }

    /** One turn of the loop of `poll_read` with nothing to hand up: the next event, or else the next octets. */
    method ReadOn() returns (again: bool, r: Read, ghost gained: seq<Bytes>)
      requires Valid() && payload == [] && !finished
      modifies this`incoming, this`inbound, this`payload, this`outbound, this`drained, this`outs, this`finished, this`closing
      ensures Valid() && Answers(old(outs), outs, gained)
      ensures payload + Ahead().data == old(Ahead().data)
      ensures gained + Ahead().pings == old(Ahead().pings)
      ensures !finished ==> Ahead().end == old(Ahead().end)
      ensures !again ==> payload == [] && !finished
      ensures !again ==> if r.Pending? then incoming == [] else r.Error? && Ahead().end == Broken(r.error)
      ensures again ==> |incoming| < |old(incoming)| || (incoming == old(incoming) && |inbound| < |old(inbound)|)
      ensures ClosedOnce(old(outs), old(closing), outs, closing) && (closing != old(closing) ==> finished)
      ensures finished ==> (old(Ahead().end) == Closed ==> closing) && (closing != old(closing) ==> old(Ahead().end) == Closed)
    {
      hide Valid, Ws.Poll, Unframe, Answers, UntilEof, Closes;
      assert Closes(outs) + [] == Closes(outs);
      again, r, gained := true, Pending, [];
      AnswersNone(outs);
      var event, rest := TakeEvent(inbound);
      if event.Failed? {
        BrokenAhead(inbound, UntilEof(incoming));
        again, r := false, Error(event.error);
      } else if event.value.Some? {
        gained := if event.value.value.PingEvent? then [event.value.value.payload] else [];
        React(event.value.value, rest);
      } else if incoming == [] {
        again := false;
      } else {
        NextRead(inbound, incoming);
        var chunk := incoming[0];
        incoming := incoming[1..];
        if chunk == [] {
          finished := true;
        } else {
          inbound := inbound + chunk;
        }
      }
    }
  }

  /** `after` has only control frames behind `before`, and the pongs among them answer `pings` in order. */
  ghost predicate Answers(before: seq<Ws.Out>, after: seq<Ws.Out>, pings: seq<Bytes>)
  {
    && |before| <= |after| && after[..|before|] == before
    && (forall i :: |before| <= i < |after| ==> after[i].opcode.Pong? || after[i].opcode.Close?)
    && Pongs(after) == Pongs(before) + pings
  }

  lemma {:induction false} AnswersNone(outs: seq<Ws.Out>)
    ensures Answers(outs, outs, [])
  {
  }

  lemma {:induction false} AnswersJoin(a: seq<Ws.Out>, b: seq<Ws.Out>, c: seq<Ws.Out>, p: seq<Bytes>, q: seq<Bytes>)
    requires Answers(a, b, p) && Answers(b, c, q)
    ensures Answers(a, c, p + q)
  {
    assert c[..|a|] == c[..|b|][..|a|];
    forall i | |a| <= i < |c|
      ensures c[i].opcode.Pong? || c[i].opcode.Close?
    {
      if i < |b| {
        assert c[i] == c[..|b|][i] == b[i];
      }
    }
  }

  lemma {:induction false} AnswersPayloads(a: seq<Ws.Out>, b: seq<Ws.Out>, p: seq<Bytes>)
    requires Answers(a, b, p)
    ensures Payloads(b) == Payloads(a)
  {
    assert b == a + b[|a|..];
    PayloadsAppend(a, b[|a|..]);
    OnlyControl(b[|a|..]);
  }

  lemma {:induction false} OnlyControl(outs: seq<Ws.Out>)
    requires forall i :: 0 <= i < |outs| ==> outs[i].opcode.IsControl()
    ensures Payloads(outs) == []
  {
    if outs != [] {
      OnlyControl(outs[1..]);
    }
  }

  lemma {:induction false} FramedNone(outs: seq<Ws.Out>)
    ensures Framed(outs[|outs|..], [])
  {
  }

  /** One turn of the loop of `queue_whole_frames`. */
  lemma {:induction false} WholeFramesStep(partial: Bytes)
    ensures
      var end := FrameBoundary(partial);
      WholeFrames(partial) ==
        if end.None? then Packed([], partial)
        else
          var w := WholeFrames(partial[end.value..]);
          Packed([partial[..end.value]] + w.queued, w.held)
  {
    hide FrameBoundary;
  }

  /** One turn of the loop of `poll_write`. */
  lemma {:induction false} TakeFramesStep(rest: Bytes, queued: nat)
    ensures
      TakeFrames(rest, queued) ==
        if rest == [] || queued >= MAX_SEND_BATCH then Taken([], [], rest)
        else
          var end := FrameBoundary(rest);
          if end.None? then Taken([], rest, [])
          else
            var t := TakeFrames(rest[end.value..], queued + end.value);
            Taken([rest[..end.value]] + t.queued, t.held, t.left)
  {
    hide FrameBoundary;
  }

  /** The event at the front comes first, whatever is still to be delivered behind it. */
  lemma {:induction false} UnframeEvent(inbound: Bytes, more: Bytes)
    requires Ws.Poll(inbound).Got?
    ensures
      var e, rest := Ws.Poll(inbound).event, Ws.Poll(inbound).rest;
      var r := Unframe(rest + more);
      Unframe(inbound + more) == if e.CloseEvent? then Received([], [], Closed)
                                 else Received(DataIn(e) + r.data, PingIn(e) + r.pings, r.end)
  {
    hide Ws.Poll;
    Ws.PollStays(inbound, more);
  }

  lemma {:induction false} BrokenAhead(inbound: Bytes, more: Bytes)
    requires Ws.Poll(inbound).Bad?
    ensures Unframe(inbound + more) == Received([], [], Broken(Ws.Poll(inbound).error))
  {
    hide Ws.Poll;
    Ws.PollStays(inbound, more);
  }

  /** Reading once more moves octets from the socket to the buffer; at the end of file there is nothing left to read. */
  lemma {:induction false} NextRead(inbound: Bytes, incoming: seq<Bytes>)
    requires incoming != [] && Ws.Poll(inbound).Short?
    ensures incoming[0] == [] ==> Unframe(inbound + UntilEof(incoming)) == Received([], [], Open(inbound))
    ensures incoming[0] != [] ==> inbound + UntilEof(incoming) == (inbound + incoming[0]) + UntilEof(incoming[1..])
  {
    hide Ws.Poll;
    if incoming[0] == [] {
      assert inbound + [] == inbound;
    } else {
      Associate(inbound, incoming[0], UntilEof(incoming[1..]));
    }
  }

  lemma {:induction false} TakeNothing()
    ensures TakeFrames([], 0) == Taken([], [], [])
  {
  }

  /** One more binary frame carries one more payload. */
  lemma {:induction false} FramedSnoc(start: seq<Ws.Out>, before: seq<Ws.Out>, after: seq<Ws.Out>, done: seq<Bytes>, p: Bytes)
    requires |start| <= |before| && before[..|start|] == start && Framed(before[|start|..], done)
    requires |after| == |before| + 1 && after[..|before|] == before
    requires after[|before|].opcode.Binary? && after[|before|].payload == p
    ensures after[..|start|] == start && Framed(after[|start|..], done + [p])
  {
    assert after[..|start|] == after[..|before|][..|start|];
    assert after[|start|..] == before[|start|..] + [after[|before|]];
  }
}
