/**
 * The WebSocket tunnel as functions: how written octets are cut into binary frames, one BEEP
 * frame each, and how received frames are turned back into octets.
 */
module WsTunnel {
  import opened Octets
  import opened Frames
  import opened Codec
  import opened CodecLaws
  import Ws = WsFrames

  const MAX_SEND_BATCH: nat := 65_536

  // ---- writing -----------------------------------------------------------------------

  /** Payloads put into binary frames, and the octets held back because they are not a whole BEEP frame. */
  datatype Packed = Packed(queued: seq<Bytes>, held: Bytes)

  /** `queue_whole_frames`: every whole BEEP frame at the front becomes a payload of its own. */
  function WholeFrames(partial: Bytes): Packed
    decreases |partial|
  {
    var end := FrameBoundary(partial);
    if end.None? then Packed([], partial)
    else
      var rest := WholeFrames(partial[end.value..]);
      Packed([partial[..end.value]] + rest.queued, rest.held)
  }

  /** What the loop of `poll_write` takes of `rest`, having queued `queued` octets before. */
  datatype Taken = Taken(queued: seq<Bytes>, held: Bytes, left: Bytes)

  function TakeFrames(rest: Bytes, queued: nat): (t: Taken)
    ensures |t.left| <= |rest|
    decreases |rest|
  {
    if rest == [] || queued >= MAX_SEND_BATCH then Taken([], [], rest)
    else
      var end := FrameBoundary(rest);
      if end.None? then Taken([], rest, [])
      else
        var t := TakeFrames(rest[end.value..], queued + end.value);
        Taken([rest[..end.value]] + t.queued, t.held, t.left)
  }

  datatype Written = Written(queued: seq<Bytes>, partial: Bytes, taken: nat)

  /** `poll_write` once there is room: payloads queued, what is held back now, octets taken. */
  function Write(partial: Bytes, buf: Bytes): Written
  {
    if partial != [] && buf != [] then
      var c := WholeFrames(partial + buf);
      Written(c.queued, c.held, |buf|)
    else
      var t := TakeFrames(buf, 0);
      Written(t.queued, if buf == [] then partial else t.held, |buf| - |t.left|)
  }

  // ---- how much one write takes ------------------------------------------------------

  lemma {:induction false} TakeFramesBudget(rest: Bytes, queued: nat)
    ensures
      var t := TakeFrames(rest, queued);
      && (t.left != [] ==> t.held == [] && queued + |Flatten(t.queued)| >= 65_536)
      && (t.queued != [] ==> queued + |Flatten(t.queued[..|t.queued| - 1])| < 65_536)
    decreases |rest|
  {
    hide FrameBoundary;
    if rest != [] && queued < MAX_SEND_BATCH && FrameBoundary(rest).Some? {
      var end := FrameBoundary(rest).value;
      TakeFramesBudget(rest[end..], queued + end);
      var t := TakeFrames(rest[end..], queued + end);
      var all := [rest[..end]] + t.queued;
      assert all[1..] == t.queued;
      if t.queued == [] {
        assert all[..0] == [];
      } else {
        assert all[..|all| - 1] == [rest[..end]] + t.queued[..|t.queued| - 1];
        assert ([rest[..end]] + t.queued[..|t.queued| - 1])[1..] == t.queued[..|t.queued| - 1];
      }
    }
  }

  /** A write leaves octets only once it has queued 64 KiB, and then holds none back; it queues no more than it takes to get there. */
  lemma {:induction false} WriteBudget(partial: Bytes, buf: Bytes)
    ensures
      var w := Write(partial, buf);
      && (w.taken < |buf| ==> partial == [] && w.partial == [] && |Flatten(w.queued)| >= 65_536)
      && (partial == [] && w.queued != [] ==> |Flatten(w.queued[..|w.queued| - 1])| < 65_536)
  {
    hide TakeFrames, WholeFrames;
    TakeFramesBudget(buf, 0);
  }

  // ---- nothing is lost, whatever the octets ------------------------------------------

  lemma {:induction false} WholeFramesKeep(partial: Bytes)
    ensures Flatten(WholeFrames(partial).queued) + WholeFrames(partial).held == partial
    decreases |partial|
  {
    hide FrameBoundary;
    var end := FrameBoundary(partial);
    if end.Some? {
      var first, rest := partial[..end.value], partial[end.value..];
      WholeFramesKeep(rest);
      FlattenFront(first, WholeFrames(rest).queued, WholeFrames(rest).held);
      assert partial == first + rest;
    } else {
      assert Flatten([]) == [];
    }
  }

  lemma {:induction false} WholeFramesHeld(partial: Bytes)
    ensures FrameBoundary(WholeFrames(partial).held).None?
    decreases |partial|
  {
    hide FrameBoundary;
    var end := FrameBoundary(partial);
    if end.Some? {
      WholeFramesHeld(partial[end.value..]);
    }
  }

  lemma {:induction false} TakeFramesKeep(rest: Bytes, queued: nat)
    ensures var t := TakeFrames(rest, queued); Flatten(t.queued) + (t.held + t.left) == rest
    decreases |rest|
  {
    hide FrameBoundary;
    var end := FrameBoundary(rest);
    if rest != [] && queued < MAX_SEND_BATCH && end.Some? {
      var first, behind := rest[..end.value], rest[end.value..];
      TakeFramesKeep(behind, queued + end.value);
      var t := TakeFrames(behind, queued + end.value);
      FlattenFront(first, t.queued, t.held + t.left);
      assert rest == first + behind;
    } else {
      assert Flatten([]) == [];
    }
  }

  lemma {:induction false} TakeFramesMoves(rest: Bytes, queued: nat)
    requires rest != [] && queued < MAX_SEND_BATCH
    ensures |TakeFrames(rest, queued).left| < |rest|
  {
    hide FrameBoundary;
  }

  /**
   * For arbitrary octets: the payloads queued, followed by what is held back, are exactly the
   * octets held back before followed by the octets taken; and a non-empty write takes something.
   */
  lemma {:induction false} WriteKeeps(partial: Bytes, buf: Bytes)
    ensures
      var w := Write(partial, buf);
      && w.taken <= |buf|
      && (buf != [] ==> w.taken > 0)
      && Flatten(w.queued) + w.partial == partial + buf[..w.taken]
  {
    hide FrameBoundary;
    if partial != [] && buf != [] {
      WholeFramesKeep(partial + buf);
      assert buf[..|buf|] == buf;
    } else if buf != [] {
      TakeFramesKeep(buf, 0);
      TakeFramesMoves(buf, 0);
      var t := TakeFrames(buf, 0);
      Associate(Flatten(t.queued), t.held, t.left);
      assert buf[..|buf| - |t.left|] == Flatten(t.queued) + t.held;
    } else {
      assert [] + partial == partial + [];
    }
  }

  // ---- one BEEP frame per payload ----------------------------------------------------

  /** Each payload is the encoding of one frame, and they are the first frames of `gs` in order. */
  ghost predicate Aligned(gs: seq<Frame>, payloads: seq<Bytes>)
    requires AllValid(gs)
  {
    |payloads| <= |gs| && forall i :: 0 <= i < |payloads| ==> payloads[i] == Encode(gs[i])
  }

  lemma {:induction false} AlignedFront(gs: seq<Frame>, first: Bytes, payloads: seq<Bytes>)
    requires AllValid(gs) && gs != [] && first == Encode(gs[0]) && Aligned(gs[1..], payloads)
    ensures Aligned(gs, [first] + payloads)
  {
    forall i | 0 <= i < |payloads| + 1
      ensures ([first] + payloads)[i] == Encode(gs[i])
    {
      if i > 0 {
        assert gs[1..][i - 1] == gs[i];
      }
    }
  }

  /** In a prefix of an encoded stream the first boundary is that of the first frame, if it is all there. */
  lemma {:induction false} BoundaryInStream(gs: seq<Frame>, x: Bytes)
    requires AllValid(gs) && x <= EncodeAll(gs) && FrameBoundary(x).Some?
    ensures gs != [] && FrameBoundary(x) == Some(|Encode(gs[0])|)
    ensures x == Encode(gs[0]) + x[|Encode(gs[0])|..] && x[|Encode(gs[0])|..] <= EncodeAll(gs[1..])
  {
    hide FrameBoundary, Encode;
    assert x != [];
    var first, rest := Encode(gs[0]), EncodeAll(gs[1..]);
    if |x| >= |first| {
      assert x == first + x[|first|..];
      BoundaryOfEncoded(gs[0], x[|first|..]);
    } else {
      assert x == (first + rest)[..|x|];
      BoundaryOfEncoded(gs[0], rest);
      BoundaryIsFirst(first + rest, |x|);
    }
  }

  lemma {:induction false} WholeFramesAligned(gs: seq<Frame>, x: Bytes)
    requires AllValid(gs) && x <= EncodeAll(gs)
    ensures Aligned(gs, WholeFrames(x).queued)
    decreases |x|
  {
    hide FrameBoundary, Encode;
    var end := FrameBoundary(x);
    if end.Some? {
      BoundaryInStream(gs, x);
      WholeFramesAligned(gs[1..], x[end.value..]);
      AlignedFront(gs, x[..end.value], WholeFrames(x[end.value..]).queued);
    }
  }

  lemma {:induction false} TakeFramesAligned(gs: seq<Frame>, x: Bytes, queued: nat)
    requires AllValid(gs) && x <= EncodeAll(gs)
    ensures Aligned(gs, TakeFrames(x, queued).queued)
    decreases |x|
  {
    hide FrameBoundary, Encode;
    if x != [] && queued < MAX_SEND_BATCH {
      var end := FrameBoundary(x);
      if end.Some? {
        BoundaryInStream(gs, x);
        TakeFramesAligned(gs[1..], x[end.value..], queued + end.value);
        AlignedFront(gs, x[..end.value], TakeFrames(x[end.value..], queued + end.value).queued);
      }
    }
  }

  /** What is held back is never a whole frame. */
  lemma {:induction false} TakeFramesHeld(rest: Bytes, queued: nat)
    ensures FrameBoundary(TakeFrames(rest, queued).held).None?
    decreases |rest|
  {
    hide FrameBoundary;
    if rest != [] && queued < MAX_SEND_BATCH && FrameBoundary(rest).Some? {
      TakeFramesHeld(rest[FrameBoundary(rest).value..], queued + FrameBoundary(rest).value);
    }
  }

  lemma {:induction false} WriteAligned(gs: seq<Frame>, partial: Bytes, buf: Bytes)
    requires AllValid(gs) && FrameBoundary(partial).None? && partial + buf <= EncodeAll(gs)
    ensures Aligned(gs, Write(partial, buf).queued) && FrameBoundary(Write(partial, buf).partial).None?
  {
    hide FrameBoundary;
    if partial != [] && buf != [] {
      WholeFramesAligned(gs, partial + buf);
      WholeFramesHeld(partial + buf);
    } else if buf != [] {
      assert partial + buf == buf;
      TakeFramesAligned(gs, buf, 0);
      TakeFramesHeld(buf, 0);
    }
  }

  // ---- the writing end, over whole runs ----------------------------------------------

  /** Frames queued so far, octets held back, and every octet taken from the caller so far. */
  datatype Writer = Writer(outs: seq<Ws.Out>, partial: Bytes, taken: Bytes)

  datatype Act =
    | Offer(buf: Bytes)                                     // `poll_write`
    | Control(opcode: Ws.OpCode, payload: Bytes)            // a ping or pong in between
    | Flush                                                 // `poll_flush`

  /** `outs` puts each payload into a binary frame of its own, under any mask. */
  ghost predicate Framed(outs: seq<Ws.Out>, payloads: seq<Bytes>)
  {
    |outs| == |payloads| && forall i :: 0 <= i < |outs| ==> outs[i].opcode.Binary? && outs[i].payload == payloads[i]
  }

  /** `flush_partial`: whole frames first, then whatever is left. */
  function FlushPartial(partial: Bytes): seq<Bytes>
  {
    var p := WholeFrames(partial);
    p.queued + if p.held == [] then [] else [p.held]
  }

  ghost predicate Acts(w: Writer, act: Act, w': Writer)
  {
    && |w.outs| <= |w'.outs| && w'.outs[..|w.outs|] == w.outs
    && var queued := w'.outs[|w.outs|..];
       match act
       case Offer(buf) =>
         var r := Write(w.partial, buf);
         && Framed(queued, r.queued) && w'.partial == r.partial
         && r.taken <= |buf| && w'.taken == w.taken + buf[..r.taken]
       case Control(opcode, payload) =>
         && (opcode.Ping? || opcode.Pong?) && |queued| == 1
         && queued[0].opcode == opcode && queued[0].payload == payload
         && w'.partial == w.partial && w'.taken == w.taken
       case Flush => Framed(queued, FlushPartial(w.partial)) && w'.partial == [] && w'.taken == w.taken
  }

  /** The payloads of the data frames among `outs`. */
  function Payloads(outs: seq<Ws.Out>): seq<Bytes>
  {
    if outs == [] then []
    else (if outs[0].opcode.IsControl() then [] else [outs[0].payload]) + Payloads(outs[1..])
  }

  lemma {:induction false} PayloadsAppend(a: seq<Ws.Out>, b: seq<Ws.Out>)
    ensures Payloads(a + b) == Payloads(a) + Payloads(b)
  {
    if a == [] {
      assert a + b == b;
    } else {
      assert (a + b)[0] == a[0] && (a + b)[1..] == a[1..] + b;
      PayloadsAppend(a[1..], b);
    }
  }

  lemma {:induction false} FramedPayloads(outs: seq<Ws.Out>, payloads: seq<Bytes>)
    requires Framed(outs, payloads)
    ensures Payloads(outs) == payloads
  {
    if outs != [] {
      FramedPayloads(outs[1..], payloads[1..]);
      assert payloads == [payloads[0]] + payloads[1..];
    }
  }

  /** What one act adds to the data frames. */
  function Gained(w: Writer, act: Act): seq<Bytes>
  {
    match act
    case Offer(buf) => Write(w.partial, buf).queued
    case Control(_, _) => []
    case Flush => FlushPartial(w.partial)
  }

  lemma {:induction false} ActPayloads(w: Writer, act: Act, w': Writer)
    requires Acts(w, act, w')
    ensures Payloads(w'.outs) == Payloads(w.outs) + Gained(w, act)
  {
    var queued := w'.outs[|w.outs|..];
    assert w'.outs == w.outs + queued;
    PayloadsAppend(w.outs, queued);
    if act.Control? {
      assert queued[1..] == [];
    } else {
      FramedPayloads(queued, Gained(w, act));
    }
  }

  lemma {:induction false} FlushPartialKeeps(partial: Bytes)
    ensures Flatten(FlushPartial(partial)) == partial
  {
    hide FrameBoundary;
    WholeFramesKeep(partial);
    var p := WholeFrames(partial);
    if p.held != [] {
      FlattenAppend(p.queued, [p.held]);
      assert [p.held][1..] == [];
    } else {
      assert p.queued + [] == p.queued;
    }
  }

  /** No octet is lost, repeated or reordered: the data frames and what is held back are what was taken. */
  ghost predicate Conserves(w: Writer)
  {
    Flatten(Payloads(w.outs)) + w.partial == w.taken
  }

  lemma {:induction false} ActConserves(w: Writer, act: Act, w': Writer)
    requires Conserves(w) && Acts(w, act, w')
    ensures Conserves(w')
  {
    hide FrameBoundary, Write, FlushPartial;
    ActPayloads(w, act, w');
    FlattenAppend(Payloads(w.outs), Gained(w, act));
    var sent := Flatten(Payloads(w.outs));
    match act
    case Offer(buf) =>
      WriteKeeps(w.partial, buf);
      var r := Write(w.partial, buf);
      Associate(sent, Flatten(r.queued), r.partial);
      Associate(sent, w.partial, buf[..r.taken]);
    case Control(_, _) =>
    case Flush =>
      FlushPartialKeeps(w.partial);
  }

  /** Each octet written belongs to the stream of `gs`, and a flush never comes in the middle of a frame. */
  ghost predicate InStream(gs: seq<Frame>, w: Writer, act: Act)
    requires AllValid(gs)
  {
    && (act.Offer? ==> w.taken + act.buf <= EncodeAll(gs))
    && (act.Flush? ==> exists k :: AtFrame(gs, w.taken, k))
  }

  /** `taken` ends where frame `k` begins. */
  ghost predicate AtFrame(gs: seq<Frame>, taken: Bytes, k: int)
    requires AllValid(gs)
  {
    0 <= k <= |gs| && taken == EncodeAll(gs[..k])
  }

  /** The writer has put exactly the first frames of `gs` on the wire, one to a WebSocket frame, and holds a part of the next. */
  ghost predicate OnePerFrame(gs: seq<Frame>, w: Writer)
    requires AllValid(gs)
  {
    && Aligned(gs, Payloads(w.outs))
    && FrameBoundary(w.partial).None?
    && w.taken <= EncodeAll(gs)
    && Conserves(w)
  }

  lemma {:induction false} EncodeAllSplit(gs: seq<Frame>, k: nat)
    requires AllValid(gs) && k <= |gs|
    ensures EncodeAll(gs) == EncodeAll(gs[..k]) + EncodeAll(gs[k..])
    decreases k
  {
    hide Encode;
    if k == 0 {
      assert gs[..0] == [] && gs[k..] == gs;
    } else {
      EncodeAllSplit(gs[1..], k - 1);
      assert gs[1..][k - 1..] == gs[k..] && gs[..k][1..] == gs[1..][..k - 1];
      Associate(Encode(gs[0]), EncodeAll(gs[1..][..k - 1]), EncodeAll(gs[k..]));
    }
  }

  lemma {:induction false} AlignedFlatten(gs: seq<Frame>, payloads: seq<Bytes>)
    requires AllValid(gs) && Aligned(gs, payloads)
    ensures Flatten(payloads) == EncodeAll(gs[..|payloads|])
  {
    if payloads != [] {
      forall i | 0 <= i < |payloads| - 1
        ensures payloads[1..][i] == Encode(gs[1..][i])
      {
        assert payloads[1..][i] == payloads[i + 1] && gs[1..][i] == gs[i + 1];
      }
      AlignedFlatten(gs[1..], payloads[1..]);
      assert gs[..|payloads|][1..] == gs[1..][..|payloads| - 1];
    }
  }

  lemma {:induction false} AlignedJoin(gs: seq<Frame>, a: seq<Bytes>, b: seq<Bytes>)
    requires AllValid(gs) && Aligned(gs, a) && Aligned(gs[|a|..], b)
    ensures Aligned(gs, a + b)
  {
    forall i | |a| <= i < |a + b|
      ensures (a + b)[i] == Encode(gs[i])
    {
      assert gs[|a|..][i - |a|] == gs[i] && (a + b)[i] == b[i - |a|];
    }
  }

  /** With only whole frames taken, nothing is held back. */
  lemma {:induction false} NothingHeld(gs: seq<Frame>, w: Writer, k: nat)
    requires AllValid(gs) && OnePerFrame(gs, w) && AtFrame(gs, w.taken, k)
    ensures w.partial == [] && |Payloads(w.outs)| == k
  {
    hide FrameBoundary, Encode;
    var j := |Payloads(w.outs)|;
    AlignedFlatten(gs, Payloads(w.outs));
    if j < k {
      EncodeAllSplit(gs[..k], j);
      assert gs[..k][..j] == gs[..j];
      var rest := gs[..k][j..];
      SameFront(EncodeAll(gs[..j]), w.partial, EncodeAll(rest));
      BoundaryOfEncoded(rest[0], EncodeAll(rest[1..]));
    } else {
      EncodeAllSplit(gs[..j], k);
      assert gs[..j][..k] == gs[..k];
      var rest := gs[..j][k..];
      assert |EncodeAll(rest)| + |w.partial| == 0;
      if rest != [] {
        BoundaryOfEncoded(rest[0], EncodeAll(rest[1..]));
      }
    }
  }

  lemma {:induction false} SameFront(a: Bytes, b: Bytes, c: Bytes)
    requires a + b == a + c
    ensures b == c
  {
    assert b == (a + b)[|a|..] && c == (a + c)[|a|..];
  }

  /** What is offered next continues the stream behind the frames already out. */
  lemma {:induction false} OfferContinues(gs: seq<Frame>, w: Writer, buf: Bytes)
    requires AllValid(gs) && OnePerFrame(gs, w) && w.taken + buf <= EncodeAll(gs)
    ensures w.partial + buf <= EncodeAll(gs[|Payloads(w.outs)|..])
  {
    hide FrameBoundary, Encode;
    var j := |Payloads(w.outs)|;
    AlignedFlatten(gs, Payloads(w.outs));
    EncodeAllSplit(gs, j);
    var front := EncodeAll(gs[..j]);
    Associate(front, w.partial, buf);
    BehindFront(front, w.partial + buf, EncodeAll(gs[j..]));
  }

  lemma {:induction false} BehindFront(a: Bytes, b: Bytes, c: Bytes)
    requires a + b <= a + c
    ensures b <= c
  {
    assert (a + b)[|a|..] == b && (a + c)[|a|..] == c;
    assert |b| <= |c| && (a + c)[|a|..][..|b|] == (a + c)[..|a + b|][|a|..];
  }

  lemma {:induction false} OfferAligned(gs: seq<Frame>, w: Writer, buf: Bytes, w': Writer)
    requires AllValid(gs) && OnePerFrame(gs, w) && Acts(w, Offer(buf), w') && w.taken + buf <= EncodeAll(gs)
    ensures Aligned(gs, Payloads(w'.outs)) && FrameBoundary(w'.partial).None?
  {
    hide FrameBoundary, Encode, Write;
    OfferContinues(gs, w, buf);
    WriteAligned(gs[|Payloads(w.outs)|..], w.partial, buf);
    ActPayloads(w, Offer(buf), w');
    AlignedJoin(gs, Payloads(w.outs), Write(w.partial, buf).queued);
  }

  lemma {:induction false} ActAligned(gs: seq<Frame>, w: Writer, act: Act, w': Writer)
    requires AllValid(gs) && OnePerFrame(gs, w) && Acts(w, act, w') && InStream(gs, w, act)
    ensures OnePerFrame(gs, w')
  {
    hide FrameBoundary;
    ActConserves(w, act, w');
    match act
    case Offer(buf) => OfferAligned(gs, w, buf, w');
    case Control(_, _) => ActPayloads(w, act, w');
    case Flush =>
      var k :| AtFrame(gs, w.taken, k);
      NothingHeld(gs, w, k);
      ActPayloads(w, act, w');
  }

  ghost predicate Runs(w: Writer, acts: seq<Act>, states: seq<Writer>)
  {
    && |states| == |acts| + 1 && states[0] == w
    && forall i :: 0 <= i < |acts| ==> Acts(states[i], acts[i], states[i + 1])
  }

  const FRESH: Writer := Writer([], [], [])

  /** Whatever is written, and however: nothing is lost, repeated or reordered. */
  lemma {:induction false} WritesConserve(acts: seq<Act>, states: seq<Writer>, k: nat)
    requires Runs(FRESH, acts, states) && k <= |acts|
    ensures Conserves(states[k])
  {
    if k > 0 {
      WritesConserve(acts, states, k - 1);
      ActConserves(states[k - 1], acts[k - 1], states[k]);
    }
  }

  /**
   * WebSocket alignment. Whatever frames are written, however their encoding is cut into writes,
   * wherever the batch budget stops a write short, and whatever control frames come in between:
   * as long as nobody flushes in the middle of a frame, every data frame on the wire carries
   * exactly one BEEP frame, in order; and when all octets have been taken all frames are out.
   */
  lemma {:induction false} WritesAligned(gs: seq<Frame>, acts: seq<Act>, states: seq<Writer>, k: nat)
    requires AllValid(gs) && Runs(FRESH, acts, states) && k <= |acts|
    requires forall i :: 0 <= i < |acts| ==> InStream(gs, states[i], acts[i])
    ensures OnePerFrame(gs, states[k])
    ensures states[k].taken == EncodeAll(gs) ==> |Payloads(states[k].outs)| == |gs| && states[k].partial == []
  {
    if k > 0 {
      WritesAligned(gs, acts, states, k - 1);
      ActAligned(gs, states[k - 1], acts[k - 1], states[k]);
    }
    if states[k].taken == EncodeAll(gs) {
      assert gs[..|gs|] == gs;
      NothingHeld(gs, states[k], |gs|);
    }
  }

  // ---- reading -----------------------------------------------------------------------

  datatype End = Open(kept: Bytes) | Closed | Broken(error: Ws.ProtocolError)

  /** What the frames at the front of a buffer come to: payload octets, pings to answer, and how it ends. */
  datatype Received = Received(data: Bytes, pings: seq<Bytes>, end: End)

  function DataIn(e: Ws.Event): Bytes { if e.Data? then e.payload else [] }

  function PingIn(e: Ws.Event): seq<Bytes> { if e.PingEvent? then [e.payload] else [] }

  /** The loop of `poll_read` over everything buffered. */
  function Unframe(src: Bytes): Received
    decreases |src|
  {
    match Ws.Poll(src)
    case Bad(e) => Received([], [], Broken(e))
    case Short => Received([], [], Open(src))
    case Got(e, rest) =>
      if e.CloseEvent? then Received([], [], Closed)
      else
        var r := Unframe(rest);
        Received(DataIn(e) + r.data, PingIn(e) + r.pings, r.end)
  }

  /** A reader given more octets; after a close or an error nothing more is read. */
  function More(r: Received, more: Bytes): Received
  {
    if !r.end.Open? then r
    else
      var r' := Unframe(r.end.kept + more);
      Received(r.data + r'.data, r.pings + r'.pings, r'.end)
  }

  lemma {:induction false} UnframeJoins(src: Bytes, more: Bytes)
    ensures Unframe(src + more) == More(Unframe(src), more)
    decreases |src|
  {
    hide Ws.Poll;
    var p := Ws.Poll(src);
    if !p.Short? {
      Ws.PollStays(src, more);
      if p.Got? && !p.event.CloseEvent? {
        UnframeJoins(p.rest, more);
      }
    }
  }

  function MoreAll(r: Received, chunks: seq<Bytes>): Received
    decreases |chunks|
  {
    if chunks == [] then r else MoreAll(More(r, chunks[0]), chunks[1..])
  }

  /** However the socket cuts the octets, the reader gets what it would get from all of them at once. */
  lemma {:induction false} ChunksInvisible(src: Bytes, chunks: seq<Bytes>)
    ensures MoreAll(Unframe(src), chunks) == Unframe(src + Flatten(chunks))
    decreases |chunks|
  {
    if chunks == [] {
      assert src + [] == src;
    } else {
      UnframeJoins(src, chunks[0]);
      ChunksInvisible(src + chunks[0], chunks[1..]);
      assert (src + chunks[0]) + Flatten(chunks[1..]) == src + Flatten(chunks);
    }
  }

  function Wire(outs: seq<Ws.Out>): Bytes
  {
    if outs == [] then [] else Ws.EncodeFrame(outs[0]) + Wire(outs[1..])
  }

  /** Frames a peer accepts, none of them a close. */
  ghost predicate Carriable(outs: seq<Ws.Out>)
  {
    forall i :: 0 <= i < |outs| ==> outs[i].Sendable() && !outs[i].opcode.Close?
  }

  /** The frames of one end, read by the other: the payloads of the data frames, in order, whatever follows. */
  lemma {:induction false} UnframeWire(outs: seq<Ws.Out>, tail: Bytes)
    requires Carriable(outs)
    ensures
      var r := Unframe(Wire(outs) + tail);
      r.data == Flatten(Payloads(outs)) + Unframe(tail).data && r.end == Unframe(tail).end
    decreases |outs|
  {
    hide Ws.Poll, Ws.EncodeFrame;
    if outs == [] {
      assert Wire(outs) + tail == tail;
    } else {
      var first, rest := outs[0], Wire(outs[1..]) + tail;
      Associate(Ws.EncodeFrame(first), Wire(outs[1..]), tail);
      Ws.PollRoundTrip(first, rest);
      UnframeWire(outs[1..], tail);
      UnframeFirst(first, outs[1..]);
      assert [first] + outs[1..] == outs;
      Associate(DataIn(Ws.EventOf(first.opcode, first.payload)), Flatten(Payloads(outs[1..])), Unframe(tail).data);
    }
  }

  lemma {:induction false} UnframeFirst(first: Ws.Out, rest: seq<Ws.Out>)
    requires !first.opcode.Close?
    ensures DataIn(Ws.EventOf(first.opcode, first.payload)) + Flatten(Payloads(rest)) == Flatten(Payloads([first] + rest))
  {
    assert ([first] + rest)[1..] == rest;
    if first.opcode.IsControl() {
      assert [] + Payloads(rest) == Payloads(rest);
      assert [] + Flatten(Payloads(rest)) == Flatten(Payloads(rest));
    } else {
      assert ([first.payload] + Payloads(rest))[1..] == Payloads(rest);
    }
  }

  /** A close frame ends what is read. */
  lemma {:induction false} UnframeClose(close: Ws.Out, tail: Bytes)
    requires close.Sendable() && close.opcode.Close?
    ensures Unframe(Ws.EncodeFrame(close) + tail) == Received([], [], Closed)
  {
    hide Ws.Poll;
    Ws.PollRoundTrip(close, tail);
  }

  /**
   * Tunnel transparency. Whatever one end writes, under any masking keys, with any pongs in
   * between, however its octets are cut on their way: once it has flushed, the octets the other
   * end reads before a close are exactly those written.
   */
  lemma {:induction false} TunnelTransparent(
    acts: seq<Act>, states: seq<Writer>, chunks: seq<Bytes>, close: Ws.Out, tail: Bytes)
    requires Runs(FRESH, acts, states)
    requires var w := states[|acts|]; w.partial == [] && Carriable(w.outs)
    requires close.Sendable() && close.opcode.Close?
    ensures
      var w := states[|acts|];
      && (Flatten(chunks) == Wire(w.outs) ==> MoreAll(Unframe([]), chunks).data == w.taken && MoreAll(Unframe([]), chunks).end == Open([]))
      && (Flatten(chunks) == Wire(w.outs) + (Ws.EncodeFrame(close) + tail)
          ==> MoreAll(Unframe([]), chunks).data == w.taken && MoreAll(Unframe([]), chunks).end == Closed)
  {
    var w := states[|acts|];
    WritesConserve(acts, states, |acts|);
    assert Flatten(Payloads(w.outs)) + [] == Flatten(Payloads(w.outs));
    ChunksInvisible([], chunks);
    assert [] + Flatten(chunks) == Flatten(chunks);
    UnframeWire(w.outs, []);
    assert Wire(w.outs) + [] == Wire(w.outs);
    UnframeWire(w.outs, Ws.EncodeFrame(close) + tail);
    UnframeClose(close, tail);
  }

  /** What has been read so far is always a beginning of what was written. */
  lemma {:induction false} ReadsArePrefix(acts: seq<Act>, states: seq<Writer>, chunks: seq<Bytes>)
    requires Runs(FRESH, acts, states)
    requires var w := states[|acts|]; Carriable(w.outs) && Flatten(chunks) <= Wire(w.outs)
    ensures MoreAll(Unframe([]), chunks).data <= states[|acts|].taken
  {
    hide Ws.Poll;
    var w := states[|acts|];
    WritesConserve(acts, states, |acts|);
    ChunksInvisible([], chunks);
    var x := Flatten(chunks);
    assert [] + x == x;
    var rest := Wire(w.outs)[|x|..];
    assert x + rest == Wire(w.outs) + [];
    UnframeJoins(x, rest);
    UnframeWire(w.outs, []);
    assert Flatten(Payloads(w.outs)) + [] == Flatten(Payloads(w.outs));
  }
}
