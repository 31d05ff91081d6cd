/**
 * What one end of a channel does with its octets, as functions on values: cutting a message
 * to the peer's window, checking and reassembling what arrives, and reopening the window.
 * The classes of `Channels` and `Sessions` are proved to compute exactly these functions.
 */
module Flow {
  import opened Octets
  import opened Window
  import opened Frames

  /** A message: queued for sending, partly reassembled, or complete. */
  datatype Message = Message(kind: FrameKind, msgno: U32, ansno: Option<U32>, payload: Bytes) {
    predicate Matches(f: DataFrame) { kind == f.kind && msgno == f.msgno && ansno == f.ansno }
  }

  /** The sending half of a channel. */
  datatype Sender = Sender(number: U32, window: Window, next: U32) {
    function Writable(): U32 { window.Remaining(next) }
  }

  /** The receiving half of a channel. */
  datatype Receiver = Receiver(number: U32, window: Window, expected: U32, partial: Option<Message>)

  /** A message whose header fields every frame constructor accepts. */
  predicate WellFormed(number: U32, m: Message)
  {
    && number <= MAX_CHANNEL_NO
    && m.msgno <= MAX_MSG_NO
    && (m.kind.HasAnsNo() <==> m.ansno.Some?)
    && (m.ansno.Some? ==> m.ansno.value <= MAX_ANS_NO)
  }

  // ---- sending -----------------------------------------------------------------------

  datatype Emitted = Emitted(tx: Sender, frames: seq<DataFrame>, remaining: Bytes)

  function ChunkLimit(maxFrameSize: U32): (limit: U32)
    ensures 1 <= limit <= MAX_FRAME_SIZE
  {
    if maxFrameSize < 1 then 1 else Min(maxFrameSize, MAX_FRAME_SIZE)
  }

  /**
   * The frames carrying `body` in pieces of at most `limit` octets from `seqno` on. Only the
   * last may be complete, and only when nothing of the message stays behind.
   */
  function Chunks(number: U32, m: Message, seqno: U32, limit: U32, body: Bytes, behind: bool): (fs: seq<DataFrame>)
    requires limit >= 1
    decreases |body|
  {
    if body == [] then []
    else
      var take := Min(limit, |body|);
      [DataFrame(m.kind, number, m.msgno, take < |body| || behind, seqno, m.ansno, body[..take])]
      + Chunks(number, m, Advance(seqno, take), limit, body[take..], behind)
  }

  /** `Channel::emit`. */
  function Emit(tx: Sender, m: Message, maxFrameSize: U32): (r: Result<Emitted, Error>)
  {
    if m.kind.HasAnsNo() != m.ansno.Some? then Failed(MissingField(AnsNo))
    else if m.payload == [] then
      var built := NewFrame(m.kind, tx.number, m.msgno, tx.next, m.ansno, []);
      if built.Failed? then Failed(built.error) else Ok(Emitted(tx, [built.value], []))
    else if tx.Writable() == 0 then Failed(ChannelStalled)
    else
      var built := NewFrame(m.kind, tx.number, m.msgno, tx.next, m.ansno, []);
      if built.Failed? then Failed(built.error)
      else
        var cut := Min(tx.Writable(), |m.payload|);
        var rest := m.payload[cut..];
        Ok(Emitted(
             tx.(next := Advance(tx.next, cut)),
             Chunks(tx.number, m, tx.next, ChunkLimit(maxFrameSize), m.payload[..cut], rest != []),
             rest))
  }

  datatype Flushed = Flushed(tx: Sender, queue: seq<Message>, frames: seq<DataFrame>)

  predicate AllWellFormed(number: U32, q: seq<Message>)
  {
    forall i :: 0 <= i < |q| ==> WellFormed(number, q[i])
  }

  /** `Session::flush` on one channel: as much of the queue as the window allows. */
  function Flush(tx: Sender, queue: seq<Message>, maxFrameSize: U32): (r: Flushed)
    requires AllWellFormed(tx.number, queue)
    decreases |queue|
  {
    if queue == [] || (tx.Writable() == 0 && queue[0].payload != []) then Flushed(tx, queue, [])
    else
      assert WellFormed(tx.number, queue[0]);
      var e := Emit(tx, queue[0], maxFrameSize).value;
      if e.remaining != [] then
        Flushed(e.tx, [queue[0].(payload := e.remaining)] + queue[1..], e.frames)
      else
        var r := Flush(e.tx, queue[1..], maxFrameSize);
        Flushed(r.tx, r.queue, e.frames + r.frames)
  }

  /** Flushing moves neither the channel number nor the window, and what stays queued is still well formed. */
  lemma {:induction false} FlushKeeps(tx: Sender, queue: seq<Message>, maxFrameSize: U32)
    requires AllWellFormed(tx.number, queue)
    ensures var r := Flush(tx, queue, maxFrameSize);
      r.tx.number == tx.number && r.tx.window == tx.window && AllWellFormed(tx.number, r.queue)
    decreases |queue|
  {
    if queue == [] || (tx.Writable() == 0 && queue[0].payload != []) {
    } else {
      assert WellFormed(tx.number, queue[0]);
      var e := Emit(tx, queue[0], maxFrameSize).value;
      if e.remaining == [] {
        FlushKeeps(e.tx, queue[1..], maxFrameSize);
      }
    }
  }

  /** A message is cut short only when the window is used up. */
  lemma {:induction false} CutIsStalled(tx: Sender, m: Message, maxFrameSize: U32)
    requires Emit(tx, m, maxFrameSize).Ok? && Emit(tx, m, maxFrameSize).value.remaining != []
    ensures Emit(tx, m, maxFrameSize).value.tx.Writable() == 0
  {
    assert Distance(Advance(tx.next, tx.Writable()), tx.window.base) == tx.window.size;
  }

  lemma {:induction false} EmitSucceeds(tx: Sender, m: Message, maxFrameSize: U32)
    requires WellFormed(tx.number, m) && (tx.Writable() != 0 || m.payload == [])
    ensures Emit(tx, m, maxFrameSize).Ok?
    ensures Emit(tx, m, maxFrameSize).value.tx.number == tx.number
  {
  }

  /** Nothing of the queue can be written now. */
  predicate Idle(tx: Sender, queue: seq<Message>)
  {
    queue == [] || (tx.Writable() == 0 && queue[0].payload != [])
  }

  lemma {:induction false} FlushIdle(tx: Sender, queue: seq<Message>, maxFrameSize: U32)
    requires AllWellFormed(tx.number, queue) && Idle(tx, queue)
    ensures Flush(tx, queue, maxFrameSize) == Flushed(tx, queue, [])
  {
  }

  /** The queue once the first message has been through `emit`. */
  function Behind(queue: seq<Message>, remaining: Bytes): seq<Message>
    requires queue != []
  {
    if remaining == [] then queue[1..] else [queue[0].(payload := remaining)] + queue[1..]
  }

  /** One message at a time: the first through `emit`, then the rest; a message cut short ends it. */
  lemma {:induction false} FlushStep(tx: Sender, queue: seq<Message>, maxFrameSize: U32)
    requires AllWellFormed(tx.number, queue) && !Idle(tx, queue)
    ensures Emit(tx, queue[0], maxFrameSize).Ok?
    ensures
      var e := Emit(tx, queue[0], maxFrameSize).value;
      && e.tx.number == tx.number && AllWellFormed(tx.number, Behind(queue, e.remaining))
      && (e.remaining != [] ==> Idle(e.tx, Behind(queue, e.remaining)))
      && var r := Flush(e.tx, Behind(queue, e.remaining), maxFrameSize);
         Flush(tx, queue, maxFrameSize) == Flushed(r.tx, r.queue, e.frames + r.frames)
  {
    hide Emit;
    assert WellFormed(tx.number, queue[0]);
    EmitSucceeds(tx, queue[0], maxFrameSize);
    if Emit(tx, queue[0], maxFrameSize).value.remaining != [] {
      CutIsStalled(tx, queue[0], maxFrameSize);
    }
  }

  /** After a flush, a queue that is not empty means that the window is used up. */
  lemma {:induction false} FlushLeavesIdle(tx: Sender, queue: seq<Message>, maxFrameSize: U32)
    requires AllWellFormed(tx.number, queue)
    ensures var r := Flush(tx, queue, maxFrameSize); Idle(r.tx, r.queue)
    decreases |queue|
  {
    hide Emit;
    if !Idle(tx, queue) {
      FlushStep(tx, queue, maxFrameSize);
      var e := Emit(tx, queue[0], maxFrameSize).value;
      if e.remaining != [] {
        FlushIdle(e.tx, Behind(queue, e.remaining), maxFrameSize);
      } else {
        FlushLeavesIdle(e.tx, queue[1..], maxFrameSize);
      }
    }
  }

  /** Flushing after every message gives the same frames, counters and queue as flushing once at the end. */
  lemma {:induction false} FlushJoins(tx: Sender, queue: seq<Message>, more: seq<Message>, maxFrameSize: U32)
    requires AllWellFormed(tx.number, queue) && AllWellFormed(tx.number, more)
    ensures
      var r := Flush(tx, queue, maxFrameSize);
      && r.tx.number == tx.number && AllWellFormed(tx.number, r.queue)
      && var r' := Flush(r.tx, r.queue + more, maxFrameSize);
         Flush(tx, queue + more, maxFrameSize) == Flushed(r'.tx, r'.queue, r.frames + r'.frames)
    decreases |queue|
  {
    hide Emit, Flush, WellFormed;
    FlushKeeps(tx, queue, maxFrameSize);
    if Idle(tx, queue) {
      FlushIdle(tx, queue, maxFrameSize);
      var r := Flush(tx, queue + more, maxFrameSize);
      assert [] + r.frames == r.frames;
    } else {
      FlushStep(tx, queue, maxFrameSize);
      FlushStep(tx, queue + more, maxFrameSize);
      var e := Emit(tx, queue[0], maxFrameSize).value;
      var left := Behind(queue, e.remaining);
      assert left + more == Behind(queue + more, e.remaining);
      if e.remaining != [] {
        FlushIdle(e.tx, left, maxFrameSize);
        FlushIdle(e.tx, left + more, maxFrameSize);
        assert (e.frames + []) + [] == e.frames + [];
      } else {
        FlushJoins(e.tx, left, more, maxFrameSize);
        var r := Flush(e.tx, left, maxFrameSize);
        Associate(e.frames, r.frames, Flush(r.tx, r.queue + more, maxFrameSize).frames);
      }
    }
  }

  // ---- how large frames are ----------------------------------------------------------

  /** No frame is larger than configured; a configured size of zero counts as one, and no frame exceeds 2^31 - 1 octets. */
  ghost predicate Within(fs: seq<DataFrame>, maxFrameSize: U32)
  {
    forall i :: 0 <= i < |fs| ==> |fs[i].payload| <= (if maxFrameSize == 0 then 1 else maxFrameSize) && |fs[i].payload| <= 2_147_483_647
  }

  /** Nor smaller than need be: one that is followed by another of its message is as large as may be. */
  ghost predicate CutTo(fs: seq<DataFrame>, maxFrameSize: U32)
  {
    && Within(fs, maxFrameSize)
    && (forall i :: 0 <= i < |fs| - 1 && fs[i].more ==>
          |fs[i].payload| == if maxFrameSize == 0 then 1 else if maxFrameSize > 2_147_483_647 then 2_147_483_647 else maxFrameSize)
  }

  lemma {:induction false} ChunksCut(number: U32, m: Message, seqno: U32, maxFrameSize: U32, body: Bytes, behind: bool)
    ensures
      var fs := Chunks(number, m, seqno, ChunkLimit(maxFrameSize), body, behind);
      CutTo(fs, maxFrameSize) && (fs != [] ==> fs[|fs| - 1].more == behind)
    decreases |body|
  {
    if body != [] {
      var take := Min(ChunkLimit(maxFrameSize), |body|);
      ChunksCut(number, m, Advance(seqno, take), maxFrameSize, body[take..], behind);
    }
  }

  lemma {:induction false} EmitCut(tx: Sender, m: Message, maxFrameSize: U32)
    requires Emit(tx, m, maxFrameSize).Ok?
    ensures
      var e := Emit(tx, m, maxFrameSize).value;
      && CutTo(e.frames, maxFrameSize) && e.frames != []
      && e.frames[|e.frames| - 1].more == (e.remaining != [])
  {
    if m.payload != [] {
      var cut := Min(tx.Writable(), |m.payload|);
      ChunksCut(tx.number, m, tx.next, maxFrameSize, m.payload[..cut], m.payload[cut..] != []);
    }
  }

  lemma {:induction false} CutJoins(a: seq<DataFrame>, b: seq<DataFrame>, maxFrameSize: U32)
    requires CutTo(a, maxFrameSize) && CutTo(b, maxFrameSize) && (a != [] ==> !a[|a| - 1].more)
    ensures CutTo(a + b, maxFrameSize)
  {
  }

  /** Whatever `flush` writes is cut to the configured size, no larger and no smaller. */
  lemma {:induction false} FlushCut(tx: Sender, queue: seq<Message>, maxFrameSize: U32)
    requires AllWellFormed(tx.number, queue)
    ensures CutTo(Flush(tx, queue, maxFrameSize).frames, maxFrameSize)
    decreases |queue|
  {
    hide Emit, CutTo;
    CutNone(maxFrameSize);
    if Idle(tx, queue) {
      FlushIdle(tx, queue, maxFrameSize);
    } else {
      FlushStep(tx, queue, maxFrameSize);
      EmitCut(tx, queue[0], maxFrameSize);
      var e := Emit(tx, queue[0], maxFrameSize).value;
      if e.remaining == [] {
        FlushCut(e.tx, queue[1..], maxFrameSize);
        CutJoins(e.frames, Flush(e.tx, queue[1..], maxFrameSize).frames, maxFrameSize);
      } else {
        FlushIdle(e.tx, Behind(queue, e.remaining), maxFrameSize);
        assert e.frames + [] == e.frames;
      }
    }
  }

  lemma {:induction false} CutNone(maxFrameSize: U32)
    ensures CutTo([], maxFrameSize)
  {
  }

  // ---- requests no frame can carry ---------------------------------------------------

  /** `flush` on any queue: what it did, and the error if it met a message no frame can carry. */
  function TryFlush(tx: Sender, queue: seq<Message>, maxFrameSize: U32): (Flushed, Option<Error>)
    decreases |queue|
  {
    if Idle(tx, queue) then (Flushed(tx, queue, []), None)
    else
      var e := Emit(tx, queue[0], maxFrameSize);
      if e.Failed? then (Flushed(tx, queue, []), Some(e.error))
      else if e.value.remaining != [] then (Flushed(e.value.tx, Behind(queue, e.value.remaining), e.value.frames), None)
      else
        var (r, error) := TryFlush(e.value.tx, queue[1..], maxFrameSize);
        (Flushed(r.tx, r.queue, e.value.frames + r.frames), error)
  }

  lemma {:induction false} EmitExactly(tx: Sender, m: Message, maxFrameSize: U32)
    requires tx.Writable() != 0 || m.payload == []
    ensures Emit(tx, m, maxFrameSize).Ok? <==> WellFormed(tx.number, m)
  {
  }

  /** How far `flush` gets before the first message no frame can carry: it fails if it gets there with room to try. */
  ghost predicate Reaches(tx: Sender, queue: seq<Message>, maxFrameSize: U32, k: nat)
  {
    && k < |queue| && AllWellFormed(tx.number, queue[..k]) && !WellFormed(tx.number, queue[k])
    && var r := Flush(tx, queue[..k], maxFrameSize);
       r.queue == [] && (r.tx.Writable() != 0 || queue[k].payload == [])
  }

  lemma {:induction false} ReachesOn(tx: Sender, queue: seq<Message>, maxFrameSize: U32, tx': Sender, fs: seq<DataFrame>, k: nat)
    requires !Idle(tx, queue) && Emit(tx, queue[0], maxFrameSize) == Ok(Emitted(tx', fs, [])) && tx'.number == tx.number
    ensures Reaches(tx, queue, maxFrameSize, k + 1) <==> WellFormed(tx.number, queue[0]) && Reaches(tx', queue[1..], maxFrameSize, k)
  {
    hide Emit, WellFormed;
    if k + 1 < |queue| {
      var front := queue[..k + 1];
      assert front[0] == queue[0] && front[1..] == queue[1..][..k] && queue[1..][k] == queue[k + 1];
      assert front == [queue[0]] + queue[1..][..k];
      if AllWellFormed(tx.number, front) {
        FlushStep(tx, front, maxFrameSize);
      }
    }
  }

  /** Nothing is reached when nothing can be written, or when the first message is cut short. */
  lemma {:induction false} ReachesNone(tx: Sender, queue: seq<Message>, maxFrameSize: U32, k: nat)
    requires Idle(tx, queue)
             || (WellFormed(tx.number, queue[0]) && Emit(tx, queue[0], maxFrameSize).Ok? && Emit(tx, queue[0], maxFrameSize).value.remaining != [])
    ensures !Reaches(tx, queue, maxFrameSize, k)
  {
    hide Emit, WellFormed;
    if k < |queue| && AllWellFormed(tx.number, queue[..k]) {
      var front := queue[..k];
      assert k > 0 ==> front[0] == queue[0];
      if Idle(tx, front) {
        FlushIdle(tx, front, maxFrameSize);
      } else {
        FlushStep(tx, front, maxFrameSize);
        var e := Emit(tx, front[0], maxFrameSize).value;
        FlushIdle(e.tx, Behind(front, e.remaining), maxFrameSize);
      }
    }
  }

  /** A bad message in front is met at once, or never. */
  lemma {:induction false} ReachesFirst(tx: Sender, queue: seq<Message>, maxFrameSize: U32, k: nat)
    requires !Idle(tx, queue) && (k == 0 || !WellFormed(tx.number, queue[0]))
    ensures Reaches(tx, queue, maxFrameSize, k) <==> k == 0 && !WellFormed(tx.number, queue[0])
  {
    hide WellFormed;
    assert queue[..0] == [];
    FlushIdle(tx, [], maxFrameSize);
    if 0 < k <= |queue| {
      assert queue[..k][0] == queue[0];
    }
  }

  /** When `flush` fails, and what it does otherwise. */
  lemma {:induction false} TryFlushExactly(tx: Sender, queue: seq<Message>, maxFrameSize: U32)
    ensures TryFlush(tx, queue, maxFrameSize).1.Some? <==> exists k: nat :: Reaches(tx, queue, maxFrameSize, k)
    ensures AllWellFormed(tx.number, queue) ==> TryFlush(tx, queue, maxFrameSize) == (Flush(tx, queue, maxFrameSize), None)
    decreases |queue|, 1
  {
    hide Emit, WellFormed, Reaches;
    if !Idle(tx, queue) {
      EmitExactly(tx, queue[0], maxFrameSize);
      ReachesFirst(tx, queue, maxFrameSize, 0);
      if WellFormed(tx.number, queue[0]) {
        TryFlushGood(tx, queue, maxFrameSize);
      }
    } else {
      forall k: nat
        ensures !Reaches(tx, queue, maxFrameSize, k)
      {
        ReachesNone(tx, queue, maxFrameSize, k);
      }
    }
  }

  lemma {:induction false} TryFlushGood(tx: Sender, queue: seq<Message>, maxFrameSize: U32)
    requires !Idle(tx, queue) && WellFormed(tx.number, queue[0])
    ensures TryFlush(tx, queue, maxFrameSize).1.Some? <==> exists k: nat :: Reaches(tx, queue, maxFrameSize, k)
    ensures AllWellFormed(tx.number, queue) ==> TryFlush(tx, queue, maxFrameSize) == (Flush(tx, queue, maxFrameSize), None)
    decreases |queue|, 0
  {
    hide Emit, WellFormed, Reaches;
    EmitExactly(tx, queue[0], maxFrameSize);
    EmitSucceeds(tx, queue[0], maxFrameSize);
    var e := Emit(tx, queue[0], maxFrameSize).value;
    if AllWellFormed(tx.number, queue) {
      FlushStep(tx, queue, maxFrameSize);
      if e.remaining != [] {
        FlushIdle(e.tx, Behind(queue, e.remaining), maxFrameSize);
        assert e.frames + [] == e.frames;
      }
    }
    if e.remaining != [] {
      forall k: nat
        ensures !Reaches(tx, queue, maxFrameSize, k)
      {
        ReachesNone(tx, queue, maxFrameSize, k);
      }
    } else {
      TryFlushExactly(e.tx, queue[1..], maxFrameSize);
      ReachesFirst(tx, queue, maxFrameSize, 0);
      if k: nat :| Reaches(e.tx, queue[1..], maxFrameSize, k) {
        ReachesOn(tx, queue, maxFrameSize, e.tx, e.frames, k);
      } else if k: nat :| Reaches(tx, queue, maxFrameSize, k) {
        ReachesOn(tx, queue, maxFrameSize, e.tx, e.frames, k - 1);
        assert false;
      }
    }
  }

  /** Such a message jams its channel for good: wherever the window stands and whatever is queued behind it, nothing is written. */
  lemma {:induction false} Jams(tx: Sender, queue: seq<Message>, more: seq<Message>, maxFrameSize: U32)
    requires queue != [] && !WellFormed(tx.number, queue[0])
    ensures TryFlush(tx, queue + more, maxFrameSize).0 == Flushed(tx, queue + more, [])
    ensures TryFlush(tx, queue + more, maxFrameSize).1.Some? <==> tx.Writable() != 0 || queue[0].payload == []
  {
    if !Idle(tx, queue + more) {
      EmitExactly(tx, queue[0], maxFrameSize);
    }
  }

  /** `Channel::apply_seq`. */
  function ApplySeq(tx: Sender, s: SeqFrame): Sender
  {
    tx.(window := tx.window.Updated(s.ackno, s.window))
  }

  // ---- receiving ---------------------------------------------------------------------

  /** The message so far once `f` has been added to what was already reassembled. */
  function Joined(partial: Option<Message>, f: DataFrame): Message
  {
    Message(f.kind, f.msgno, f.ansno, (if partial.Some? then partial.value.payload else []) + f.payload)
  }

  datatype Accepted = Accepted(rx: Receiver, outcome: Result<Option<Message>, Error>)

  /** `Channel::accept`; a failed check of the counters leaves the receiver as it was. */
  function Accept(rx: Receiver, f: DataFrame): (r: Accepted)
    requires |f.payload| <= MAX_FRAME_SIZE
  {
    var len: U32 := |f.payload|;
    if f.seqno != rx.expected then
      Accepted(rx, Failed(UnexpectedSeqNo(f.seqno, rx.expected)))
    else if !rx.window.Accepts(f.seqno, len) then
      Accepted(rx, Failed(OutsideWindow(f.seqno, len, rx.window.Limit())))
    else
      var rx' := rx.(expected := Advance(f.seqno, len), partial := None);
      if rx.partial.Some? && !rx.partial.value.Matches(f) then Accepted(rx', Failed(InterleavedFragment))
      else if f.more then Accepted(rx'.(partial := Some(Joined(rx.partial, f))), Ok(None))
      else Accepted(rx', Ok(Some(Joined(rx.partial, f))))
  }

  /** Half the window offered, but never more than half of the initial one. */
  function Threshold(size: U32): (t: U32)
  {
    var half := size / 2;
    if half < 1 then 1 else Min(half, INITIAL_WINDOW_SIZE / 2)
  }

  datatype Acknowledged = Acknowledged(rx: Receiver, unacked: U32, outcome: Result<Option<SeqFrame>, Error>)

  /** `Session::acknowledge` on one channel, including `Channel::consume`. */
  function Acknowledge(rx: Receiver, unacked: U32, octets: U32): (r: Acknowledged)
  {
    var pending: U32 := Min(unacked + octets, MAX_SEQ_NO);
    if pending < Threshold(rx.window.size) then Acknowledged(rx, pending, Ok(None))
    else
      var rx' := rx.(window := rx.window.Consumed(pending));
      if rx.number > MAX_CHANNEL_NO then Acknowledged(rx', pending, Failed(ValueOutOfRange(Field.Channel)))
      else if rx.window.size > MAX_FRAME_SIZE then Acknowledged(rx', pending, Failed(ValueOutOfRange(WindowSize)))
      else Acknowledged(rx', 0, Ok(Some(SeqFrame(rx.number, rx'.window.base, rx.window.size))))
  }

  /** `accept` and then `acknowledge`, as `handle_data` and `handle_channel_zero` use them. */
  function TakeFrame(rx: Receiver, unacked: U32, f: DataFrame): (Acknowledged, Result<Option<Message>, Error>)
    requires |f.payload| <= MAX_FRAME_SIZE
  {
    var a := Accept(rx, f);
    if a.outcome.Failed? then (Acknowledged(a.rx, unacked, Failed(a.outcome.error)), a.outcome)
    else (Acknowledge(a.rx, unacked, |f.payload|), a.outcome)
  }
}
