/** One channel of a session, updated in place: octet counters, message numbers and reassembly. */
module Channels {
  import opened Octets
  import opened Window
  import opened Frames
  import opened Flow
  import opened Replies

  // ---- message numbers in cyclic order -----------------------------------------------

  /** The message number after `n`, wrapping past the largest back to zero. */
  function Succ(n: U32): U32
  {
    if n == MAX_MSG_NO then 0 else if n < MAX_MSG_NO then n + 1 else n
  }

  /** The number `k` places after `start`. */
  function Ahead(start: U32, k: nat): U32
  {
    if k == 0 then start else Succ(Ahead(start, k - 1))
  }

  lemma {:induction false} AheadIs(start: U32, k: nat)
    requires start <= MAX_MSG_NO && k <= MAX_MSG_NO + 1
    ensures Ahead(start, k) == if start + k <= MAX_MSG_NO then start + k else start + k - (MAX_MSG_NO + 1)
  {
    if k > 0 {
      AheadIs(start, k - 1);
    }
  }

  /** Going once around meets every message number. */
  lemma {:induction false} AheadMeetsAll(start: U32, n: U32) returns (k: nat)
    requires start <= MAX_MSG_NO && n <= MAX_MSG_NO
    ensures k <= MAX_MSG_NO && Ahead(start, k) == n
  {
    k := if n >= start then n - start else n + (MAX_MSG_NO + 1) - start;
    AheadIs(start, k);
  }

  /** The first `k` numbers from `start` on are all in use. */
  ghost predicate Busy(start: U32, k: nat, inUse: set<U32>)
  {
    forall j :: 0 <= j < k ==> Ahead(start, j) in inUse
  }

  /** `n` is the first free number in cyclic order from `start`. */
  ghost predicate FirstFree(start: U32, n: U32, inUse: set<U32>)
  {
    n <= MAX_MSG_NO && n !in inUse && exists k: nat :: Ahead(start, k) == n && Busy(start, k, inUse)
  }

  ghost predicate Exhausted(inUse: set<U32>)
  {
    forall n: U32 :: n <= MAX_MSG_NO ==> n in inUse
  }

  /** Once around without finding a free number means that there is none. */
  lemma {:induction false} BusyIsExhausted(start: U32, inUse: set<U32>)
    requires start <= MAX_MSG_NO && Busy(start, MAX_MSG_NO + 1, inUse)
    ensures Exhausted(inUse)
  {
    forall n: U32 | n <= MAX_MSG_NO
      ensures n in inUse
    {
      var k := AheadMeetsAll(start, n);
    }
  }

  lemma {:induction false} FreeInRange(start: U32, n: U32, inUse: set<U32>)
    requires FirstFree(start, n, inUse)
    ensures n <= MAX_MSG_NO && n !in inUse
  {
  }

  /** There is a first free number exactly when not all are in use. */
  lemma {:induction false} FirstFreeExists(start: U32, inUse: set<U32>)
    requires start <= MAX_MSG_NO
    ensures (exists n: U32 :: FirstFree(start, n, inUse)) <==> !Exhausted(inUse)
  {
    hide FirstFree;
    if !Exhausted(inUse) {
      var free: U32 :| free <= MAX_MSG_NO && free !in inUse;
      var k := AheadMeetsAll(start, free);
      var n := FirstOf(start, k, inUse);
    } else if n: U32 :| FirstFree(start, n, inUse) {
      FirstFreeUnique(start, n, n, inUse);
    }
  }

  /** Where some number is free, there is a first one. */
  lemma {:induction false} FirstOf(start: U32, k: nat, inUse: set<U32>) returns (n: U32)
    requires start <= MAX_MSG_NO && k <= MAX_MSG_NO && Ahead(start, k) !in inUse
    ensures FirstFree(start, n, inUse)
    decreases k
  {
    if Busy(start, k, inUse) {
      n := Ahead(start, k);
      AheadIs(start, k);
    } else {
      var j: nat :| j < k && Ahead(start, j) !in inUse;
      n := FirstOf(start, j, inUse);
    }
  }

  /** And there is only one. */
  lemma {:induction false} FirstFreeUnique(start: U32, a: U32, b: U32, inUse: set<U32>)
    requires FirstFree(start, a, inUse) && FirstFree(start, b, inUse)
    ensures a == b && !Exhausted(inUse)
  {
    var j: nat :| Ahead(start, j) == a && Busy(start, j, inUse);
    var k: nat :| Ahead(start, k) == b && Busy(start, k, inUse);
    if j != k {
      assert false;
    }
  }

  // ---- the channel -------------------------------------------------------------------

  class Channel {
    const number: U32
    var sendWindow: Window
    var nextSeqno: U32
    var nextMsgno: U32
    var outstanding: set<U32>
    var nextAnsno: map<U32, U32>
    var recvWindow: Window
    var expectedSeqno: U32
    var awaitingReply: set<U32>
    var partial: Option<Message>

    ghost predicate Valid() reads this`nextMsgno, this`outstanding
    {
      nextMsgno <= MAX_MSG_NO && forall n :: n in outstanding ==> n <= MAX_MSG_NO
    }

    /** The sending half as a value. */
    function Tx(): Sender reads this`sendWindow, this`nextSeqno { Sender(number, sendWindow, nextSeqno) }

    /** The receiving half as a value. */
    function Rx(): Receiver reads this`recvWindow, this`expectedSeqno, this`partial { Receiver(number, recvWindow, expectedSeqno, partial) }

    /** Both halves, and the answers so far. */
    function Known(): (Sender, Receiver, map<U32, U32>)
      reads this`sendWindow, this`nextSeqno, this`recvWindow, this`expectedSeqno, this`partial, this`nextAnsno
    {
      (Tx(), Rx(), nextAnsno)
    }

    /** `with_window_size`: the size offered governs the receiving half alone. */
    constructor (number: U32, windowSize: U32)
      ensures Valid()
      ensures Tx() == Sender(number, Window(0, INITIAL_WINDOW_SIZE), 0)
      ensures Rx() == Receiver(number, Window(0, windowSize), 0, None)
      ensures outstanding == {} && nextAnsno == map[] && awaitingReply == {} && nextMsgno == 0
    {
      this.number := number;
      sendWindow := Window(0, INITIAL_WINDOW_SIZE);
      nextSeqno := 0;
      nextMsgno := 0;
      outstanding := {};
      nextAnsno := map[];
      recvWindow := Window(0, windowSize);
      expectedSeqno := 0;
      awaitingReply := {};
      partial := None;
    }

    // ---- outgoing --------------------------------------------------------------------

    /** `allocate_msgno`: the first free number in cyclic order, or a failure when there is none at all. */
    method AllocateMsgno() returns (r: Result<U32, Error>)
      requires Valid()
      modifies this`nextMsgno, this`outstanding
      ensures Valid()
      ensures r.Ok? <==> !Exhausted(old(outstanding))
      ensures r.Ok? ==> FirstFree(old(nextMsgno), r.value, old(outstanding))
      ensures r.Ok? ==> outstanding == old(outstanding) + {r.value} && nextMsgno == Succ(r.value)
      ensures r.Failed? ==> r.error == MsgNoExhausted && outstanding == old(outstanding) && nextMsgno == old(nextMsgno)
    {
      var i: nat := 0;
      while i <= MAX_MSG_NO
        invariant 0 <= i <= MAX_MSG_NO + 1
        invariant nextMsgno <= MAX_MSG_NO && outstanding == old(outstanding)
        invariant nextMsgno == Ahead(old(nextMsgno), i)
        invariant Busy(old(nextMsgno), i, outstanding)
      {
        var candidate := nextMsgno;
        nextMsgno := if candidate == MAX_MSG_NO then 0 else candidate + 1;
        if candidate !in outstanding {
          outstanding := outstanding + {candidate};
          return Ok(candidate);
        }
        i := i + 1;
      }
      BusyIsExhausted(old(nextMsgno), outstanding);
      AheadIs(old(nextMsgno), MAX_MSG_NO + 1);
      return Failed(MsgNoExhausted);
    }

    /** `reserve_msgno`. */
    method ReserveMsgno(msgno: U32) returns (r: Result<(), Error>)
      requires Valid()
      modifies this`nextMsgno, this`outstanding
      ensures Valid()
      ensures r.Ok? <==> msgno <= MAX_MSG_NO && msgno !in old(outstanding)
      ensures r.Ok? ==> outstanding == old(outstanding) + {msgno} && nextMsgno == Succ(msgno)
      ensures r.Failed? ==> outstanding == old(outstanding) && nextMsgno == old(nextMsgno)
      ensures r.Failed? ==> r.error == if msgno > MAX_MSG_NO then ValueOutOfRange(MsgNo) else MsgNoInUse(msgno)
    {
      if msgno > MAX_MSG_NO {
        return Failed(ValueOutOfRange(MsgNo));
      }
      if msgno in outstanding {
        return Failed(MsgNoInUse(msgno));
      }
      outstanding := outstanding + {msgno};
      nextMsgno := if msgno == MAX_MSG_NO then 0 else msgno + 1;
      return Ok(());
    }

    method ReleaseMsgno(msgno: U32)
      requires Valid()
      modifies this`outstanding
      ensures Valid() && outstanding == old(outstanding) - {msgno}
    {
      outstanding := outstanding - {msgno};
    }

    /** `build`: one frame, its payload charged against the outgoing counter. */
    method Build(kind: FrameKind, msgno: U32, ansno: Option<U32>, payload: Bytes, more: bool)
      returns (r: Result<DataFrame, Error>)
      modifies this`nextSeqno
      ensures r.Ok? <==> NewFrame(kind, number, msgno, old(nextSeqno), ansno, payload).Ok?
      ensures r.Failed? ==> r.error == NewFrame(kind, number, msgno, old(nextSeqno), ansno, payload).error
      ensures r.Failed? ==> nextSeqno == old(nextSeqno)
      ensures r.Ok? ==> r.value == NewFrame(kind, number, msgno, old(nextSeqno), ansno, payload).value.(more := more)
      ensures r.Ok? ==> |payload| <= MAX_FRAME_SIZE && nextSeqno == Advance(old(nextSeqno), |payload|)
    {
      var frame := NewFrame(kind, number, msgno, nextSeqno, ansno, payload);
      if frame.Failed? {
        return Failed(frame.error);
      }
      nextSeqno := Advance(nextSeqno, |payload|);
      return Ok(frame.value.(more := more));
    }

    /** The loop of `emit`: pieces of at most `limit` octets; only the message's last one is complete. */
    method EmitPieces(m: Message, limit: U32, body: Bytes, behind: bool) returns (r: Result<seq<DataFrame>, Error>)
      requires 1 <= limit <= MAX_FRAME_SIZE && 0 < |body| < MODULUS && m.kind.HasAnsNo() == m.ansno.Some?
      modifies this`nextSeqno
      ensures r.Ok? <==> WellFormed(number, m)
      ensures r.Failed? ==> nextSeqno == old(nextSeqno)
      ensures r.Failed? ==> r.error == NewFrame(m.kind, number, m.msgno, old(nextSeqno), m.ansno, []).error
      ensures r.Ok? ==> r.value == Chunks(number, m, old(nextSeqno), limit, body, behind)
      ensures r.Ok? ==> nextSeqno == Advance(old(nextSeqno), |body|)
    {
      ghost var whole := Chunks(number, m, nextSeqno, limit, body, behind);
      var head := body;
      var frames: seq<DataFrame> := [];
      while head != []
        invariant |head| <= |body| && (frames == [] <==> |head| == |body|)
        invariant frames != [] ==> WellFormed(number, m)
        invariant nextSeqno == Advance(old(nextSeqno), |body| - |head|)
        invariant whole == frames + Chunks(number, m, nextSeqno, limit, head, behind)
        decreases |head|
      {
        var take := Min(limit, |head|);
        ghost var rest := Chunks(number, m, Advance(nextSeqno, take), limit, head[take..], behind);
        ghost var seqno := nextSeqno;
        var frame := Build(m.kind, m.msgno, m.ansno, head[..take], take < |head| || behind);
        if frame.Failed? {
          return Failed(frame.error);
        }
        assert Chunks(number, m, seqno, limit, head, behind) == [frame.value] + rest;
        head := head[take..];
        assert frames + ([frame.value] + rest) == (frames + [frame.value]) + rest;
        frames := frames + [frame.value];
      }
      assert frames + [] == frames;
      return Ok(frames);
    }

    /** `emit`. */
    method Emit(m: Message, maxFrameSize: U32) returns (r: Result<Emitted, Error>)
      modifies this`nextSeqno
      ensures r == Flow.Emit(old(Tx()), m, maxFrameSize)
      ensures Tx() == if r.Ok? then r.value.tx else old(Tx())
    {
      if m.kind.HasAnsNo() != m.ansno.Some? {
        return Failed(MissingField(AnsNo));
      }
      if m.payload == [] {
        var frame := Build(m.kind, m.msgno, m.ansno, [], false);
        if frame.Failed? {
          return Failed(frame.error);
        }
        return Ok(Emitted(Tx(), [frame.value], []));
      }
      var budget := sendWindow.Remaining(nextSeqno);
      if budget == 0 {
        return Failed(ChannelStalled);
      }
      var cut := Min(budget, |m.payload|);
      var frames := EmitPieces(m, ChunkLimit(maxFrameSize), m.payload[..cut], m.payload[cut..] != []);
      if frames.Failed? {
        return Failed(frames.error);
      }
      return Ok(Emitted(Tx(), frames.value, m.payload[cut..]));
    }

    /** `allocate_ansno` and `finish_answers`, as `send` uses them. */
    method Number(r: Request) returns (m: Message)
      modifies this`nextAnsno
      ensures m == Numbered(old(nextAnsno), r)
      ensures nextAnsno == Recount(old(nextAnsno), r)
    {
      var ansno := r.ansno;
      if r.kind.Ans? && r.ansno.None? {
        var slot := if r.msgno in nextAnsno then nextAnsno[r.msgno] else 0;
        ansno := Some(slot);
        nextAnsno := nextAnsno[r.msgno := if slot == MAX_SEQ_NO then 0 else slot + 1];
      } else if r.kind.Nul? {
        nextAnsno := nextAnsno - {r.msgno};
      }
      return Message(r.kind, r.msgno, ansno, r.payload);
    }

    method ApplySeq(s: SeqFrame)
      modifies this`sendWindow
      ensures Tx() == Flow.ApplySeq(old(Tx()), s)
    {
      sendWindow := sendWindow.Updated(s.ackno, s.window);
    }

    // ---- incoming --------------------------------------------------------------------

    /** `accept`: sequence number, window, reassembly. */
    method Accept(f: DataFrame) returns (r: Result<Option<Message>, Error>)
      requires |f.payload| <= MAX_FRAME_SIZE
      modifies this`expectedSeqno, this`awaitingReply, this`partial
      ensures r == Flow.Accept(old(Rx()), f).outcome && Rx() == Flow.Accept(old(Rx()), f).rx
      ensures awaitingReply == old(awaitingReply) + if f.kind.Msg? && !f.more && (r.Ok? || r.error == InterleavedFragment) then {f.msgno} else {}
    {
      if f.seqno != expectedSeqno {
        return Failed(UnexpectedSeqNo(f.seqno, expectedSeqno));
      }
      var len: U32 := |f.payload|;
      if !recvWindow.Accepts(f.seqno, len) {
        return Failed(OutsideWindow(f.seqno, len, recvWindow.Limit()));
      }
      expectedSeqno := Advance(f.seqno, len);
      if f.kind.Msg? && !f.more {
        awaitingReply := awaitingReply + {f.msgno};
      }
      var taken := partial;
      partial := None;
      match taken {
        case Some(p) =>
          if !p.Matches(f) {
            return Failed(InterleavedFragment);
          }
          var joined := p.(payload := p.payload + f.payload);
          if f.more {
            partial := Some(joined);
            return Ok(None);
          }
          return Ok(Some(joined));
        case None =>
          var first := Message(f.kind, f.msgno, f.ansno, f.payload);
          assert [] + f.payload == f.payload;
          if f.more {
            partial := Some(first);
            return Ok(None);
          }
          return Ok(Some(first));
      }
    }

    /** `consume`: the window slides, and a SEQ announces it. */
    method Consume(octets: U32) returns (r: Result<SeqFrame, Error>)
      modifies this`recvWindow
      ensures Rx() == old(Rx()).(window := old(recvWindow).Consumed(octets))
      ensures r.Ok? <==> number <= MAX_CHANNEL_NO && recvWindow.size <= MAX_FRAME_SIZE
      ensures r.Ok? ==> r.value == SeqFrame(number, recvWindow.base, recvWindow.size)
      ensures r.Failed? ==> r.error == ValueOutOfRange(if number > MAX_CHANNEL_NO then Field.Channel else WindowSize)
    {
      recvWindow := recvWindow.Consumed(octets);
      if number > MAX_CHANNEL_NO {
        return Failed(ValueOutOfRange(Field.Channel));
      }
      if recvWindow.size > MAX_FRAME_SIZE {
        return Failed(ValueOutOfRange(WindowSize));
      }
      return Ok(SeqFrame(number, recvWindow.base, recvWindow.size));
    }
  }
}
