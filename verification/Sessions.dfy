/**
 * A session, updated in place: channels, send queues, the reply reorder buffer, unacknowledged
 * octets and the octets to transmit. What works on one channel is proved against the functions of
 * `Flow` and `Replies` and leaves every other channel as it was; every call is proved to do to the
 * whole session what `SessionSteps` says, so that any list of calls keeps it valid.
 */
module Sessions {
  import opened Octets
  import opened Window
  import opened Frames
  import opened Flow
  import opened Replies
  import opened Channels
  import Codec
  import opened Decoders
  import CodecLaws
  import opened SessionSteps
  import SS = SessionSteps
  import T = Tables
  import M = Management

  /** What a map holds for `n`, or what stands for nothing. */
  function At<V>(m: map<U32, V>, n: U32, nothing: V): V { if n in m then m[n] else nothing }

  /** What is known about channel `n`, put together from what its object knows and what the maps hold. */
  function Assembled(n: U32, own: (Sender, Receiver, map<U32, U32>), queues: map<U32, seq<Message>>, order: map<U32, seq<U32>>,
                     held: map<U32, map<U32, seq<Message>>>, unacked: map<U32, U32>): View
  {
    View(own.0, own.1, At(queues, n, []), Buffer(At(order, n, []), At(held, n, map[]), own.2), At(unacked, n, 0))
  }

  lemma {:induction false} AssembledWithout(n: U32, k: U32, own: (Sender, Receiver, map<U32, U32>), queues: map<U32, seq<Message>>,
                                            order: map<U32, seq<U32>>, held: map<U32, map<U32, seq<Message>>>, unacked: map<U32, U32>)
    requires k != n
    ensures Assembled(k, own, queues - {n}, order - {n}, held - {n}, unacked - {n}) == Assembled(k, own, queues, order, held, unacked)
  {
  }

  lemma {:induction false} AssembledIs(n: U32, own: (Sender, Receiver, map<U32, U32>), queues: map<U32, seq<Message>>,
                                       order: map<U32, seq<U32>>, held: map<U32, map<U32, seq<Message>>>, unacked: map<U32, U32>)
    ensures Assembled(n, own, queues, order, held, unacked) ==
      View(own.0, own.1, At(queues, n, []), Buffer(At(order, n, []), At(held, n, map[]), own.2), At(unacked, n, 0))
  {
  }

  lemma {:induction false} EncodeAllSnoc(fs: seq<Frame>, f: Frame)
    requires Codec.AllValid(fs) && f.Valid()
    ensures Codec.AllValid(fs + [f]) && Codec.EncodeAll(fs + [f]) == Codec.EncodeAll(fs) + Codec.Encode(f)
  {
    hide Codec.Encode;
    if fs == [] {
      assert fs + [f] == [f] && [f][1..] == [];
      assert Codec.EncodeAll([f]) == Codec.Encode(f) + [];
    } else {
      assert (fs + [f])[0] == fs[0] && (fs + [f])[1..] == fs[1..] + [f];
      EncodeAllSnoc(fs[1..], f);
      Associate(Codec.Encode(fs[0]), Codec.EncodeAll(fs[1..]), Codec.Encode(f));
    }
  }

  lemma {:induction false} AsFramesNext(fs: seq<DataFrame>, i: nat)
    requires i < |fs|
    ensures AsFrames(fs[..i + 1]) == AsFrames(fs[..i]) + [Data(fs[i])]
  {
    assert fs[..i + 1][..i] == fs[..i];
  }

  lemma {:induction false} AsFramesNone()
    ensures AsFrames([]) == []
  {
  }

  lemma {:induction false} WellFormedOne(n: U32, m: Message)
    requires WellFormed(n, m)
    ensures AllWellFormed(n, [m])
  {
  }

  /** What may be assumed of a channel between calls: nothing ill formed is queued or held, nothing that could be written is queued. */
  ghost predicate Quiet(n: U32, queue: seq<Message>, held: map<U32, seq<Message>>, tx: Sender)
  {
    AllWellFormed(n, queue) && HeldRight(n, held) && Idle(tx, queue)
  }

  ghost predicate AllFramesValid(fs: seq<DataFrame>)
  {
    forall i :: 0 <= i < |fs| ==> fs[i].Valid()
  }

  lemma {:induction false} ChunksValid(number: U32, m: Message, seqno: U32, limit: U32, body: Bytes, behind: bool)
    requires WellFormed(number, m) && 1 <= limit <= MAX_FRAME_SIZE
    ensures AllFramesValid(Chunks(number, m, seqno, limit, body, behind))
    decreases |body|
  {
    if body != [] {
      var take := Min(limit, |body|);
      ChunksValid(number, m, Advance(seqno, take), limit, body[take..], behind);
    }
  }

  /** Every frame of a well-formed message is one the printer can print. */
  lemma {:induction false} EmitValid(tx: Sender, m: Message, maxFrameSize: U32)
    requires WellFormed(tx.number, m) && (tx.Writable() != 0 || m.payload == [])
    ensures Emit(tx, m, maxFrameSize).Ok? && AllFramesValid(Emit(tx, m, maxFrameSize).value.frames)
  {
    if m.payload != [] {
      var cut := Min(tx.Writable(), |m.payload|);
      ChunksValid(tx.number, m, tx.next, ChunkLimit(maxFrameSize), m.payload[..cut], m.payload[cut..] != []);
    }
  }

  class Session {
    const role: T.Role
    const maxFrameSize: U32
    const windowSize: U32
    const wire: Wire
    const zero: Channel
    var channels: map<U32, Channel>
    var queues: map<U32, seq<Message>>
    var replyOrder: map<U32, seq<U32>>
    var heldReplies: map<U32, map<U32, seq<Message>>>
    var unacked: map<U32, U32>
    var outbound: Bytes
    var events: seq<Event>

    var phase: T.Phase
    var pending: map<U32, T.Pending>
    var halfOpen: set<U32>
    var nextChannel: U32

    const decoder: Decoder
    var inbound: Bytes

    ghost var origins: map<U32, T.Origin>                        // who opened each channel
    ghost var issued: nat              // starts sent, and what became of them
    ghost var granted: nat
    ghost var declined: nat
    ghost var transmitted: Bytes       // what `poll_transmit` has handed over
    ghost var written: seq<Frame>      // every frame written so far

    // ---- invariant -------------------------------------------------------------------

    /** Each number has a channel object of its own; zero is never among the numbered ones. */
    ghost predicate Distinct()
      reads this`channels
    {
      && zero.number == 0
      && (forall n :: n in channels ==> channels[n].number == n && n != 0 && channels[n] != zero)
      && (forall m, n :: m in channels && n in channels && m != n ==> channels[m] != channels[n])
    }

    ghost predicate Open(n: U32)
      reads this`channels
    {
      n == 0 || n in channels
    }

    function Chan(n: U32): Channel
      requires Open(n)
      reads this`channels
    {
      if n == 0 then zero else channels[n]
    }

    function Queue(n: U32): seq<Message>
      reads this`queues
    {
      At(queues, n, [])
    }

    function Order(n: U32): seq<U32>
      reads this`replyOrder
    {
      At(replyOrder, n, [])
    }

    function Held(n: U32): map<U32, seq<Message>>
      reads this`heldReplies
    {
      At(heldReplies, n, map[])
    }

    function Unacked(n: U32): U32
      reads this`unacked
    {
      At(unacked, n, 0)
    }

    /** The octets transmitted and still to be transmitted are the encodings of the frames written. */
    ghost predicate OnWire()
      reads this`written, this`transmitted, this`outbound
    {
      Codec.AllValid(written) && transmitted + outbound == Codec.EncodeAll(written)
    }

    /** The channel table. */
    ghost function TableOf(): T.Table
      reads this`phase, this`origins, this`halfOpen, this`pending, this`nextChannel, this`issued, this`granted, this`declined
      reads zero`outstanding, zero`nextMsgno
    {
      T.Table(role, phase, origins, halfOpen, pending, zero.outstanding, zero.nextMsgno, nextChannel,
              issued, granted, declined)
    }

    /** `Session::new` up to the greeting. */
    constructor (role: T.Role, maxFrameSize: U32, windowSize: U32, wire: Wire)
      ensures Valid() && fresh(zero) && fresh(decoder) && channels == map[]
      ensures Conf() == Config(role, maxFrameSize, windowSize, wire) && decoder.maxFrameSize == MAX_FRAME_SIZE
      ensures Snap() == Begun(Conf())
      ensures outbound == [] && transmitted == [] && inbound == [] && decoder.pending == None
    {
      this.role := role;
      this.maxFrameSize := maxFrameSize;
      this.windowSize := windowSize;
      this.wire := wire;
      zero := new Channel(0, windowSize);
      channels, queues, replyOrder, heldReplies, unacked := map[], map[], map[], map[], map[];
      outbound, events, inbound := [], [], [];
      decoder := new Decoder(MAX_FRAME_SIZE);
      phase, pending, halfOpen, nextChannel := T.AwaitingGreeting, map[], {}, role.First();
      origins, issued, granted, declined := map[], 0, 0, 0;
      transmitted, written := [], [];
      new;
      hide Valid, Snap, Begun;
      Bare();
    }

    /** A session with nothing but channel 0, as it is made. */
    lemma Bare()
      requires channels == map[] && queues == map[] && replyOrder == map[] && heldReplies == map[] && unacked == map[] && origins == map[]
      requires outbound == transmitted == [] && events == [] && written == [] && TableOf() == T.Initial(role)
      requires zero.number == 0 && zero.Valid()
      requires Chan(0).Known() == (Sender(0, Window(0, INITIAL_WINDOW_SIZE), 0), Receiver(0, Window(0, windowSize), 0, None), map[])
      ensures Valid() && Snap() == Begun(Conf())
    {
      hide Channel.Known, Rested;
      assert Views() == map[0 := FreshView(0, windowSize)];
      BegunRests(Conf());
      assert [] + [] == Codec.EncodeAll([]);
    }

    /** What `flush` makes of `queue` from `tx` on is what the channel has now, and it was written after `before`. */
    ghost predicate FlushedFrom(n: U32, tx: Sender, queue: seq<Message>, before: seq<Frame>)
      requires Open(n)
      reads this`channels, this`queues, this`written, Chan(n)`sendWindow, Chan(n)`nextSeqno
    {
      && AllWellFormed(tx.number, queue)
      && var r := Flow.Flush(tx, queue, maxFrameSize);
         Chan(n).Tx() == r.tx && Queue(n) == r.queue && written == before + AsFrames(r.frames)
    }

    ghost predicate HeldWellFormed(n: U32)
      reads this`heldReplies
    {
      HeldRight(n, Held(n))
    }

    /** Channels other than `n` have the queues, reply buffers and octet counts they had. */
    ghost predicate Others(n: U32, queues0: map<U32, seq<Message>>, order0: map<U32, seq<U32>>,
                           held0: map<U32, map<U32, seq<Message>>>, unacked0: map<U32, U32>)
      reads this`queues, this`replyOrder, this`heldReplies, this`unacked
    {
      && queues - {n} == queues0 - {n} && replyOrder - {n} == order0 - {n}
      && heldReplies - {n} == held0 - {n} && unacked - {n} == unacked0 - {n}
    }

    // ---- writing ---------------------------------------------------------------------

    method Write(f: Frame)
      requires OnWire() && f.Valid()
      modifies this`outbound, this`written
      ensures OnWire() && written == old(written) + [f]
    {
      hide Codec.Encode;
      EncodeAllSnoc(written, f);
      Associate(transmitted, outbound, Codec.Encode(f));
      if f.Data? {
        outbound := PutData(outbound, f.data);
      } else {
        outbound := PutSeq(outbound, f.seqf);
      }
      written := written + [f];
    }

    method WriteAll(fs: seq<DataFrame>)
      requires OnWire() && forall i :: 0 <= i < |fs| ==> fs[i].Valid()
      modifies this`outbound, this`written
      ensures OnWire() && written == old(written) + AsFrames(fs)
    {
      hide OnWire, AsFrames;
      AsFramesNone();
      var i := 0;
      while i < |fs|
        invariant 0 <= i <= |fs| && OnWire() && written == old(written) + AsFrames(fs[..i])
      {
        assert Data(fs[i]).Valid();
        Write(Data(fs[i]));
        AsFramesNext(fs, i);
        Associate(old(written), AsFrames(fs[..i]), [Data(fs[i])]);
        i := i + 1;
      }
      assert fs[..|fs|] == fs;
    }

    /** `poll_transmit`. */
    method PollTransmit() returns (r: Option<Bytes>)
      requires OnWire()
      modifies this`outbound, this`transmitted
      ensures OnWire() && outbound == []
      ensures transmitted == old(transmitted) + (if r.Some? then r.value else [])
      ensures r.None? <==> old(outbound) == []
    {
      hide Codec.EncodeAll;
      if outbound == [] {
        return None;
      }
      r := Some(outbound);
      transmitted := transmitted + outbound;
      outbound := [];
    }

    method Enqueue(n: U32, m: Message)
      modifies this`queues
      ensures Queue(n) == old(Queue(n)) + [m]
      ensures queues - {n} == old(queues) - {n}
    {
      queues := queues[n := (if n in queues then queues[n] else []) + [m]];
    }

    /** One turn of the loop of `flush`: what the window allows of the first message. */
    method FlushFront(n: U32) returns (more: bool)
      requires Distinct() && Open(n) && OnWire() && n in queues && queues[n] != [] && WellFormed(n, queues[n][0])
      requires Chan(n).Tx().Writable() != 0 || queues[n][0].payload == []
      modifies this`queues, this`outbound, this`written, Chan(n)`nextSeqno
      ensures OnWire() && n in queues && queues - {n} == old(queues) - {n}
      ensures
        var e := Flow.Emit(old(Chan(n).Tx()), old(queues[n][0]), maxFrameSize).value;
        && Chan(n).Tx() == e.tx && written == old(written) + AsFrames(e.frames)
        && more == (e.remaining == [])
        && queues[n] == Behind(old(queues[n]), e.remaining)
    {
      hide Flow.Emit;
      var channel, front := Chan(n), queues[n][0];
      EmitValid(channel.Tx(), front, maxFrameSize);
      var emitted := channel.Emit(front, maxFrameSize);
      WriteAll(emitted.value.frames);
      more := emitted.value.remaining == [];
      if more {
        queues := queues[n := queues[n][1..]];
      } else {
        queues := queues[n := [front.(payload := emitted.value.remaining)] + queues[n][1..]];
      }
    }

    /** `flush`: writes as much of a channel's queue as its window allows, and nothing of any other's. */
    method Flush(n: U32)
      requires Distinct() && Open(n) && OnWire() && AllWellFormed(n, Queue(n))
      modifies this`queues, this`outbound, this`written, Chan(n)`nextSeqno
      ensures OnWire()
      ensures FlushedFrom(n, old(Chan(n).Tx()), old(Queue(n)), old(written))
      ensures Idle(Chan(n).Tx(), Queue(n)) && AllWellFormed(n, Queue(n))
      ensures queues - {n} == old(queues) - {n}
    {
      hide Flow.Emit, Flow.Flush, OnWire, AsFrames;
      AsFramesNone();
      assert written + [] == written;
      if n !in queues {
        FlushIdle(Chan(n).Tx(), [], maxFrameSize);
        return;
      }
      ghost var whole := Flow.Flush(Chan(n).Tx(), queues[n], maxFrameSize);
      ghost var done: seq<DataFrame> := [];
      var more := true;
      while more && !Idle(Chan(n).Tx(), queues[n])
        invariant n in queues && AllWellFormed(n, queues[n]) && OnWire()
        invariant written == old(written) + AsFrames(done)
        invariant queues - {n} == old(queues) - {n}
        invariant
          var r := Flow.Flush(Chan(n).Tx(), queues[n], maxFrameSize);
          whole == Flushed(r.tx, r.queue, done + r.frames)
        invariant more || Idle(Chan(n).Tx(), queues[n])
        decreases |queues[n]|, more
      {
        FlushStep(Chan(n).Tx(), queues[n], maxFrameSize);
        ghost var e := Flow.Emit(Chan(n).Tx(), queues[n][0], maxFrameSize).value;
        ghost var before := AsFrames(done);
        more := FlushFront(n);
        AsFramesAppend(done, e.frames);
        Associate(old(written), before, AsFrames(e.frames));
        done := done + e.frames;
      }
      FlushIdle(Chan(n).Tx(), queues[n], maxFrameSize);
      FlushKeeps(old(Chan(n).Tx()), old(queues[n]), maxFrameSize);
      assert done + [] == done;
    }

    // ---- replies ---------------------------------------------------------------------

    method EnqueueAll(n: U32, ms: seq<Message>) returns (finished: bool)
      modifies this`queues
      ensures Queue(n) == old(Queue(n)) + ms && finished == Completes(ms)
      ensures queues - {n} == old(queues) - {n}
    {
      finished := false;
      var i := 0;
      while i < |ms|
        invariant 0 <= i <= |ms| && Queue(n) == old(Queue(n)) + ms[..i]
        invariant finished == Completes(ms[..i])
        invariant queues - {n} == old(queues) - {n}
      {
        CompletesSnoc(ms[..i], ms[i]);
        assert ms[..i + 1] == ms[..i] + [ms[i]];
        finished := finished || ms[i].kind.CompletesReply();
        Enqueue(n, ms[i]);
        i := i + 1;
      }
      assert ms[..|ms|] == ms;
    }

    /** One turn of the loop of `reply_finished`: everything held for the message whose turn it is. */
    method ReleaseNext(n: U32) returns (finished: bool)
      requires Distinct() && Open(n) && OnWire() && AllWellFormed(n, Queue(n)) && HeldWellFormed(n)
      requires Order(n) != [] && Order(n)[0] in Held(n)
      modifies this`queues, this`heldReplies, this`replyOrder, this`outbound, this`written, Chan(n)`nextSeqno
      ensures OnWire() && Settled(n)
      ensures
        var next := old(Order(n)[0]);
        var group := old(Held(n)[next]);
        && Held(n) == old(Held(n)) - {next}
        && finished == Completes(group)
        && Order(n) == (if finished then old(Order(n))[1..] else old(Order(n)))
        && FlushedFrom(n, old(Chan(n).Tx()), old(Queue(n)) + group, old(written))
      ensures Others(n, old(queues), old(replyOrder), old(heldReplies), old(unacked))
    {
      hide OnWire, FlushedFrom, Completes, Idle, Flow.Flush, AsFrames;
      var next := replyOrder[n][0];
      var group := heldReplies[n][next];
      heldReplies := heldReplies[n := heldReplies[n] - {next}];
      finished := EnqueueAll(n, group);
      Flush(n);
      if finished {
        replyOrder := replyOrder[n := replyOrder[n][1..]];
      }
    }

    /** Flushing on from a flushed state is flushing once from the start. */
    lemma FlushedOn(n: U32, tx: Sender, queue: seq<Message>, before: seq<Frame>,
                    tx1: Sender, queue1: seq<Message>, before1: seq<Frame>, more: seq<Message>)
      requires Open(n) && AllWellFormed(tx.number, queue) && AllWellFormed(tx.number, more)
      requires
        var r := Flow.Flush(tx, queue, maxFrameSize);
        r.tx == tx1 && r.queue == queue1 && before1 == before + AsFrames(r.frames)
      requires FlushedFrom(n, tx1, queue1 + more, before1)
      ensures FlushedFrom(n, tx, queue + more, before)
    {
      hide Flow.Flush, AsFrames;
      FlushJoins(tx, queue, more, maxFrameSize);
      var a, b := Flow.Flush(tx, queue, maxFrameSize).frames, Flow.Flush(tx1, queue1 + more, maxFrameSize).frames;
      AsFramesAppend(a, b);
      Associate(before, AsFrames(a), AsFrames(b));
    }

    lemma FlushedFacts(n: U32, tx: Sender, queue: seq<Message>, before: seq<Frame>)
      requires Open(n) && FlushedFrom(n, tx, queue, before)
      ensures AllWellFormed(tx.number, queue)
      ensures
        var r := Flow.Flush(tx, queue, maxFrameSize);
        r.tx == Chan(n).Tx() && r.queue == Queue(n) && written == before + AsFrames(r.frames)
    {
    }

    /** Nothing to flush is as good as flushed. */
    lemma FlushedAlready(n: U32)
      requires Open(n) && AllWellFormed(Chan(n).Tx().number, Queue(n)) && Idle(Chan(n).Tx(), Queue(n))
      ensures FlushedFrom(n, Chan(n).Tx(), Queue(n) + [], written)
    {
      FlushIdle(Chan(n).Tx(), Queue(n), maxFrameSize);
      assert Queue(n) + [] == Queue(n) && written + [] == written;
    }

    /** What may be assumed of a channel between calls. */
    ghost predicate Settled(n: U32)
      requires Open(n)
      reads this`channels, this`queues, this`heldReplies, Chan(n)`sendWindow, Chan(n)`nextSeqno
    {
      Quiet(n, Queue(n), Held(n), Chan(n).Tx())
    }

    /** `reply_finished`: retires the exchange and writes, in order, everything that was waiting behind it. */
    method ReplyFinished(n: U32, msgno: U32)
      requires Distinct() && Open(n) && OnWire() && Settled(n)
      modifies this`queues, this`heldReplies, this`replyOrder, this`outbound, this`written, Chan(n)`nextSeqno
      ensures OnWire() && Settled(n)
      ensures
        var rel := Release(Popped(old(Order(n)), msgno), old(Held(n)));
        && Order(n) == rel.order && Held(n) == rel.held
        && FlushedFrom(n, old(Chan(n).Tx()), old(Queue(n)) + rel.out, old(written))
      ensures Others(n, old(queues), old(replyOrder), old(heldReplies), old(unacked))
    {
      hide OnWire, FlushedFrom, Release, Flow.Flush, AsFrames;
      FlushedAlready(n);
      if n in replyOrder && replyOrder[n] != [] && replyOrder[n][0] == msgno {
        replyOrder := replyOrder[n := replyOrder[n][1..]];
      }
      ghost var all := Release(Order(n), Held(n));
      ghost var out: seq<Message> := [];
      var more := true;
      while more && Order(n) != [] && Order(n)[0] in Held(n)
        invariant OnWire() && Settled(n)
        invariant Others(n, old(queues), old(replyOrder), old(heldReplies), old(unacked))
        invariant FlushedFrom(n, old(Chan(n).Tx()), old(Queue(n)) + out, old(written))
        invariant var r := Release(Order(n), Held(n)); all == Released(r.order, r.held, out + r.out)
        invariant more || Order(n) == [] || Order(n)[0] !in Held(n)
        decreases |Order(n)|, more
      {
        ReleaseStep(Order(n), Held(n));
        FlushedFacts(n, old(Chan(n).Tx()), old(Queue(n)) + out, old(written));
        ghost var group := Held(n)[Order(n)[0]];
        ghost var tx1, queue1, before1 := Chan(n).Tx(), Queue(n), written;
        more := ReleaseNext(n);
        FlushedOn(n, old(Chan(n).Tx()), old(Queue(n)) + out, old(written), tx1, queue1, before1, group);
        Associate(old(Queue(n)), out, group);
        Associate(out, group, Release(Order(n), Held(n)).out);
        out := out + group;
      }
      ReleaseNone(Order(n), Held(n));
      assert out + [] == out;
    }

    /** A message joins those held for its exchange. */
    method Hold(n: U32, m: Message)
      requires WellFormed(n, m) && HeldWellFormed(n)
      modifies this`heldReplies
      ensures HeldWellFormed(n) && heldReplies - {n} == old(heldReplies) - {n}
      ensures Held(n) == old(Held(n))[m.msgno := HeldFor(old(Held(n)), m.msgno) + [m]]
    {
      var held := Held(n);
      var group := HeldFor(held, m.msgno);
      assert AllWellFormed(n, group);
      heldReplies := heldReplies[n := held[m.msgno := group + [m]]];
    }

    /**
     * `send`: what is written, held back and released is what the reorder buffer says, passed
     * through the channel's window; no other channel is touched.
     */
    method Send(n: U32, r: Request) returns (res: Result<(), Error>)
      requires Distinct() && OnWire()
      requires n in channels ==> Settled(n) && WellFormed(n, Numbered(channels[n].nextAnsno, r))
      modifies this`queues, this`heldReplies, this`replyOrder, this`outbound, this`written
      modifies (if n in channels then {channels[n]} else {})`nextSeqno
      modifies (if n in channels then {channels[n]} else {})`nextAnsno
      ensures OnWire() && (n in channels ==> Settled(n))
      ensures n !in channels ==> res == Failed(NoSuchChannel(n)) && unchanged(this)
      ensures n in channels ==>
        var (b, out) := Submit(old(Buffer(Order(n), Held(n), channels[n].nextAnsno)), r);
        && res == Ok(())
        && Buffer(Order(n), Held(n), channels[n].nextAnsno) == b
        && FlushedFrom(n, old(channels[n].Tx()), old(Queue(n)) + out, old(written))
      ensures Others(n, old(queues), old(replyOrder), old(heldReplies), old(unacked))
    {
      hide OnWire, FlushedFrom, Release, Idle, Flow.Flush, AsFrames, AllWellFormed;
      if n !in channels {
        return Failed(NoSuchChannel(n));
      }
      var m := channels[n].Number(r);
      if m.kind.IsReply() && !IsNext(Order(n), m.msgno) {
        Hold(n, m);
        FlushedAlready(n);
        return Ok(());
      }
      ghost var tx, queue, before := channels[n].Tx(), Queue(n), written;
      WellFormedOne(n, m);
      WellFormedAppend(n, queue, [m]);
      Enqueue(n, m);
      Flush(n);
      if m.kind.CompletesReply() {
        FlushedFacts(n, tx, queue + [m], before);
        ghost var tx1, queue1, before1 := channels[n].Tx(), Queue(n), written;
        ghost var rel := Release(Popped(Order(n), m.msgno), Held(n));
        ReleaseWellFormed(n, Popped(Order(n), m.msgno), Held(n));
        ReplyFinished(n, m.msgno);
        FlushedOn(n, tx, queue + [m], before, tx1, queue1, before1, rel.out);
        Associate(queue, [m], rel.out);
      }
      return Ok(());
    }

    // ---- receiving -------------------------------------------------------------------

    /** `handle_seq`: the peer's window moves, and whatever now fits is written. */
    method HandleSeq(s: SeqFrame) returns (res: Result<(), Error>)
      requires Distinct() && OnWire() && (Open(s.channel) ==> Settled(s.channel))
      modifies this`queues, this`outbound, this`written
      modifies (if Open(s.channel) then {Chan(s.channel)} else {})`sendWindow
      modifies (if Open(s.channel) then {Chan(s.channel)} else {})`nextSeqno
      ensures OnWire() && (Open(s.channel) ==> Settled(s.channel))
      ensures !Open(s.channel) ==> res == Failed(NoSuchChannel(s.channel)) && unchanged(this)
      ensures Open(s.channel) ==>
        && res == Ok(())
        && FlushedFrom(s.channel, Flow.ApplySeq(old(Chan(s.channel).Tx()), s), old(Queue(s.channel)), old(written))
      ensures Others(s.channel, old(queues), old(replyOrder), old(heldReplies), old(unacked))
    {
      hide OnWire, FlushedFrom;
      if s.channel != 0 && s.channel !in channels {
        return Failed(NoSuchChannel(s.channel));
      }
      Chan(s.channel).ApplySeq(s);
      Flush(s.channel);
      return Ok(());
    }

    /** `acknowledge`: octets are charged, and a SEQ reopens the window once enough have come in. */
    method Acknowledge(n: U32, octets: U32) returns (res: Result<(), Error>)
      requires Distinct() && Open(n) && OnWire()
      modifies this`unacked, this`outbound, this`written, Chan(n)`recvWindow
      ensures OnWire() && unacked - {n} == old(unacked) - {n}
      ensures
        var k := Flow.Acknowledge(old(Chan(n).Rx()), old(Unacked(n)), octets);
        && Chan(n).Rx() == k.rx && Unacked(n) == k.unacked
        && res == (if k.outcome.Ok? then Ok(()) else Failed(k.outcome.error))
        && written == old(written) + if k.outcome.Ok? && k.outcome.value.Some? then [Seq(k.outcome.value.value)] else []
    {
      hide OnWire;
      var pending := Min(Unacked(n) + octets, MAX_SEQ_NO);
      unacked := unacked[n := pending];
      if pending >= Threshold(Chan(n).recvWindow.size) {
        var seqf := Chan(n).Consume(pending);
        if seqf.Failed? {
          return Failed(seqf.error);
        }
        unacked := unacked[n := 0];
        Write(Seq(seqf.value));
      }
      return Ok(());
    }

    // ---- the session as a value ------------------------------------------------------

    function Conf(): Config { Config(role, maxFrameSize, windowSize, wire) }

    ghost function ViewOf(n: U32): View
      requires Open(n)
      reads this`channels, this`queues, this`replyOrder, this`heldReplies, this`unacked
      reads Chan(n)`sendWindow, Chan(n)`nextSeqno, Chan(n)`recvWindow, Chan(n)`expectedSeqno, Chan(n)`partial, Chan(n)`nextAnsno
    {
      Assembled(n, Chan(n).Known(), queues, replyOrder, heldReplies, unacked)
    }

    ghost function Views(): map<U32, View>
      reads this`channels, this`queues, this`replyOrder, this`heldReplies, this`unacked
      reads zero`sendWindow, zero`nextSeqno, zero`recvWindow, zero`expectedSeqno, zero`partial, zero`nextAnsno
      reads channels.Values`sendWindow, channels.Values`nextSeqno, channels.Values`recvWindow
      reads channels.Values`expectedSeqno, channels.Values`partial, channels.Values`nextAnsno
    {
      map n: U32 | n in channels.Keys + {0} :: ViewOf(n)
    }

    ghost function Snap(): Snapshot
      reads this`channels, this`queues, this`replyOrder, this`heldReplies, this`unacked, this`events, this`written
      reads this`phase, this`origins, this`halfOpen, this`pending, this`nextChannel, this`issued, this`granted, this`declined
      reads zero, channels.Values
    {
      Snapshot(Views(), TableOf(), events, written)
    }

    ghost predicate KnownWithin(numbers: set<U32>)
      reads this`queues, this`replyOrder, this`heldReplies, this`unacked
    {
      queues.Keys <= numbers && replyOrder.Keys <= numbers && heldReplies.Keys <= numbers && unacked.Keys <= numbers
    }

    /** Everything known is known about an open channel. */
    ghost predicate Tidy()
      reads this`channels, this`queues, this`replyOrder, this`heldReplies, this`unacked
    {
      KnownWithin(channels.Keys + {0})
    }

    lemma KnownWithinMore(a: set<U32>, b: set<U32>)
      requires KnownWithin(a) && a <= b
      ensures KnownWithin(b)
    {
    }

    /** Nothing is known any more about a channel that is dropped. */
    lemma KnownWithout(n: U32, numbers: set<U32>, queues0: map<U32, seq<Message>>, order0: map<U32, seq<U32>>,
                       held0: map<U32, map<U32, seq<Message>>>, unacked0: map<U32, U32>)
      requires queues0.Keys <= numbers && order0.Keys <= numbers && held0.Keys <= numbers && unacked0.Keys <= numbers
      requires queues == queues0 - {n} && replyOrder == order0 - {n} && heldReplies == held0 - {n} && unacked == unacked0 - {n}
      ensures KnownWithin(numbers - {n})
    {
    }

    ghost predicate ChannelsValid()
      reads this`channels, zero`nextMsgno, zero`outstanding, channels.Values`nextMsgno, channels.Values`outstanding
    {
      zero.Valid() && forall n :: n in channels ==> channels[n].Valid()
    }

    /** What the objects and maps keep to; what they say is the business of the snapshot. */
    ghost predicate Steady()
      reads this`channels, this`queues, this`replyOrder, this`heldReplies, this`unacked
      reads this`written, this`transmitted, this`outbound, this`origins
      reads zero`nextMsgno, zero`outstanding, channels.Values`nextMsgno, channels.Values`outstanding
    {
      Distinct() && OnWire() && Tidy() && ChannelsValid() && origins.Keys == channels.Keys
    }

    /** What every call that does not fail keeps. */
    ghost predicate Valid()
      reads this, zero, channels.Values
    {
      Steady() && Rested(Snap())
    }

    /** Whether a call did what is specified: the same failure, or the session specified, and valid. */
    ghost predicate Meets<V>(r: Result<V, Error>, s: Result<Snapshot, Error>)
      reads this, zero, channels.Values
    {
      if r.Ok? then s == Ok(Snap()) && Valid() else s == Failed(r.error)
    }

    lemma DistinctAt(n: U32, k: U32)
      requires Distinct() && Open(n) && Open(k) && n != k
      ensures Chan(n) != Chan(k)
    {
    }

    lemma NotZero(n: U32)
      requires Distinct() && n in channels
      ensures n != 0
    {
    }

    /** When the objects and maps agree away from `n`, so do the views. */
    lemma Moved(n: U32, before: map<U32, View>, queues0: map<U32, seq<Message>>, order0: map<U32, seq<U32>>,
                held0: map<U32, map<U32, seq<Message>>>, unacked0: map<U32, U32>)
      requires Open(n) && before.Keys == channels.Keys + {0} && Others(n, queues0, order0, held0, unacked0)
      requires forall k :: k in before && k != n ==> before[k] == Assembled(k, Chan(k).Known(), queues0, order0, held0, unacked0)
      ensures Views() == before[n := ViewOf(n)]
    {
      hide Channel.Known;
      forall k | k in before && k != n
        ensures before[k] == ViewOf(k)
      {
        Elsewhere(queues, queues0, n, k);
        Elsewhere(replyOrder, order0, n, k);
        Elsewhere(heldReplies, held0, n, k);
        Elsewhere(unacked, unacked0, n, k);
      }
    }

    lemma ViewsAre(vs: map<U32, View>)
      requires vs.Keys == channels.Keys + {0}
      requires forall k :: k in vs ==> vs[k] == ViewOf(k)
      ensures Views() == vs
    {
    }

    lemma StillTidy(n: U32, queues0: map<U32, seq<Message>>, order0: map<U32, seq<U32>>,
                    held0: map<U32, map<U32, seq<Message>>>, unacked0: map<U32, U32>)
      requires Others(n, queues0, order0, held0, unacked0) && Open(n)
      requires queues0.Keys <= channels.Keys + {0} && order0.Keys <= channels.Keys + {0}
      requires held0.Keys <= channels.Keys + {0} && unacked0.Keys <= channels.Keys + {0}
      ensures Tidy()
    {
      Elsewhere(queues, queues0, n, n);
      Elsewhere(replyOrder, order0, n, n);
      Elsewhere(heldReplies, held0, n, n);
      Elsewhere(unacked, unacked0, n, n);
    }

    /** A channel of a valid session is in order. */
    lemma ValidAt(n: U32)
      requires Valid() && Open(n)
      ensures Settled(n) && n in Snap().views && Snap().views[n] == ViewOf(n) && (n in channels ==> n != 0)
    {
      hide OnWire;
      RestedAt(Snap(), n);
    }

    lemma ViewAt(n: U32)
      requires Open(n)
      ensures n in Views() && Views()[n] == ViewOf(n) && Views().Keys == channels.Keys + {0}
    {
    }

    lemma AllViews()
      ensures Views().Keys == channels.Keys + {0}
      ensures forall k :: k in Views() ==> Views()[k] == ViewOf(k)
    {
    }

    lemma NotKnown(n: U32)
      requires Tidy() && n != 0 && n !in channels
      ensures n !in queues && n !in replyOrder && n !in heldReplies && n !in unacked
    {
    }

    lemma ZeroView()
      requires Valid()
      ensures 0 in Snap().views && Snap().views.Keys == channels.Keys + {0}
    {
    }

    lemma TableAt()
      ensures Snap().table == TableOf()
    {
    }

    lemma SteadyZero()
      requires Steady()
      ensures zero.number == 0 && zero.Valid() && OnWire() && origins.Keys == channels.Keys
    {
    }

    /** A flush that moved one channel is a flush of the whole session. */
    lemma FlushedSnap(n: U32, before: Snapshot, v: View, tx: Sender, queue: seq<Message>)
      requires Open(n) && FlushedFrom(n, tx, queue, before.written) && Views() == before.views[n := ViewOf(n)]
      requires ViewOf(n) == v.(tx := ViewOf(n).tx, queue := ViewOf(n).queue) && TableOf() == before.table && events == before.events
      ensures AllWellFormed(tx.number, queue) && Snap() == Flushing(Conf(), before, n, v, tx, queue)
    {
      hide Views, Flow.Flush, AsFrames, AllWellFormed, TableOf;
    }

    // ---- calls of the application ----------------------------------------------------

    /** `send` on an open channel moves that channel alone. */
    method SendOn(n: U32, q: Replies.Request)
      requires Steady() && n in channels && Settled(n) && WellFormed(n, Numbered(channels[n].nextAnsno, q))
      modifies this`queues, this`heldReplies, this`replyOrder, this`outbound, this`written, Chan(n)`nextSeqno, Chan(n)`nextAnsno
      ensures Steady() && Views() == old(Views())[n := ViewOf(n)]
      ensures
        var (b, out) := Submit(old(ViewOf(n)).buffer, q);
        ViewOf(n).buffer == b && FlushedFrom(n, old(ViewOf(n)).tx, old(ViewOf(n)).queue + out, old(written))
      ensures ViewOf(n).rx == old(ViewOf(n)).rx && ViewOf(n).unacked == old(ViewOf(n)).unacked
    {
      hide OnWire, Submit, WellFormed, FlushedFrom, Others, ChannelsValid, Distinct, Channel.Tx, Channel.Rx;
      NotZero(n);
      var r := Send(n, q);
      StillTidy(n, old(queues), old(replyOrder), old(heldReplies), old(unacked));
      hide KnownWithin;
      assert Views() == old(Views())[n := ViewOf(n)] by {
        hide Channel.Known, Assembled;
        forall k | k in old(Views()) && k != n
          ensures old(Views())[k] == Assembled(k, Chan(k).Known(), old(queues), old(replyOrder), old(heldReplies), old(unacked))
        {
          DistinctAt(n, k);
          assert old(Chan(k).Known()) == Chan(k).Known();
        }
        Moved(n, old(Views()), old(queues), old(replyOrder), old(heldReplies), old(unacked));
      }
      hide Views;
    }

    /** `send`: the whole session moves as specified, and stays valid. */
    method Post(n: U32, q: Replies.Request) returns (r: Result<(), Error>)
      requires Valid() && Sendable(Snap(), n, q)
      modifies this`queues, this`heldReplies, this`replyOrder, this`outbound, this`written
      modifies (if n in channels then {channels[n]} else {})`nextSeqno
      modifies (if n in channels then {channels[n]} else {})`nextAnsno
      ensures Valid() && r == (if n in channels then Ok(()) else Failed(NoSuchChannel(n)))
      ensures
        var s := SS.Post(Conf(), old(Snap()), n, q);
        if r.Failed? then s == Failed(r.error) && Snap() == old(Snap()) else s == Ok(Snap())
    {
      hide Steady, Rested, Submit, WellFormed, Flow.Flush, AsFrames, Views;
      ZeroView();
      if n !in channels {
        return Failed(NoSuchChannel(n));
      }
      ValidAt(n);
      SendOn(n, q);
      PostRests(Conf(), old(Snap()), n, q);
      return Ok(());
    }

    /** A message number on a numbered channel; nothing else moves. */
    method AllocateOn(n: U32) returns (r: Result<U32, Error>)
      requires Steady() && n in channels && n != 0
      modifies Chan(n)`nextMsgno, Chan(n)`outstanding
      ensures Steady() && TableOf() == old(TableOf())
      ensures r.Failed? <==> Exhausted(old(channels[n].outstanding))
      ensures r.Failed? ==> r.error == MsgNoExhausted
      ensures r.Ok? ==> FirstFree(old(channels[n].nextMsgno), r.value, old(channels[n].outstanding)) && r.value <= MAX_MSG_NO
      ensures r.Ok? ==> channels[n].outstanding == old(channels[n].outstanding) + {r.value} && channels[n].nextMsgno == Succ(r.value)
    {
      hide OnWire, Tidy, FirstFree, Exhausted;
      r := channels[n].AllocateMsgno();
      if r.Ok? {
        FreeInRange(old(channels[n].nextMsgno), r.value, old(channels[n].outstanding));
      }
    }

    /** `send_msg`: a message number of its own, then `send`. */
    method SendMsg(n: U32, payload: Bytes) returns (r: Result<U32, Error>)
      requires Valid() && n <= MAX_CHANNEL_NO
      modifies this`queues, this`heldReplies, this`replyOrder, this`outbound, this`written
      modifies (if n in channels then {channels[n]} else {})`nextSeqno
      modifies (if n in channels then {channels[n]} else {})`nextAnsno
      modifies (if n in channels then {channels[n]} else {})`nextMsgno
      modifies (if n in channels then {channels[n]} else {})`outstanding
      ensures r.Ok? <==> n in channels && !Exhausted(old(channels[n].outstanding))
      ensures r.Ok? ==>
        var q := Replies.Request(Msg, r.value, None, payload);
        && FirstFree(old(channels[n].nextMsgno), r.value, old(channels[n].outstanding))
        && channels[n].outstanding == old(channels[n].outstanding) + {r.value} && channels[n].nextMsgno == Succ(r.value)
        && Sendable(old(Snap()), n, q) && Meets(r, SS.Post(Conf(), old(Snap()), n, q))
      ensures r.Failed? ==> r.error == (if n in channels then MsgNoExhausted else NoSuchChannel(n)) && Valid() && Snap() == old(Snap())
    {
      hide Steady, Views, Rested, FirstFree, Exhausted, SS.Post;
      if n !in channels {
        return Failed(NoSuchChannel(n));
      }
      ValidAt(n);
      r := AllocateOn(n);
      if r.Failed? {
        return;
      }
      var sent := Post(n, Replies.Request(Msg, r.value, None, payload));
    }

    /** `set_window_size`. */
    method SetWindowSize(n: U32, size: U32) returns (r: Result<(), Error>)
      requires Valid()
      modifies (if n in channels then {channels[n]} else {})`recvWindow
      ensures Meets(r, SS.Resize(old(Snap()), n, size))
      ensures r.Failed? ==> n !in channels && Valid() && Snap() == old(Snap())
    {
      hide Steady, Views, Rested;
      ZeroView();
      if n !in channels {
        return Failed(NoSuchChannel(n));
      }
      ValidAt(n);
      ResizeRests(Snap(), n, size);
      ResizeOn(n, size);
      return Ok(());
    }

    /** It moves that channel alone. */
    method ResizeOn(n: U32, size: U32)
      requires Steady() && n != 0 && n in channels
      modifies Chan(n)`recvWindow
      ensures Steady() && Views() == old(Views())[n := ViewOf(n)]
      ensures ViewOf(n) == old(ViewOf(n)).(rx := old(ViewOf(n)).rx.(window := old(ViewOf(n)).rx.window.Resized(size)))
    {
      hide OnWire, Tidy, ChannelsValid, Views, Assembled;
      ghost var vs := Views();
      AllViews();
      var c := channels[n];
      c.recvWindow := c.recvWindow.Resized(size);
      assert Steady();
      hide Steady;
      forall k | k in vs && k != n
        ensures vs[k] == ViewOf(k)
      {
        hide Channel.Known;
        assert old(Chan(k).Known()) == Chan(k).Known();
      }
      assert ViewOf(n) == old(ViewOf(n)).(rx := old(ViewOf(n)).rx.(window := old(ViewOf(n)).rx.window.Resized(size))) by {
        AssembledIs(n, old(Chan(n).Known()), queues, replyOrder, heldReplies, unacked);
        AssembledIs(n, Chan(n).Known(), queues, replyOrder, heldReplies, unacked);
      }
      hide ViewOf;
      ViewsAre(vs[n := ViewOf(n)]);
    }

    // ---- frames on one channel -------------------------------------------------------

    /** `handle_seq` on an open channel moves that channel alone. */
    method SeqOn(q: SeqFrame)
      requires Steady() && Open(q.channel) && Settled(q.channel)
      modifies this`queues, this`outbound, this`written, Chan(q.channel)`sendWindow, Chan(q.channel)`nextSeqno
      ensures Steady() && Views() == old(Views())[q.channel := ViewOf(q.channel)]
      ensures FlushedFrom(q.channel, Flow.ApplySeq(old(ViewOf(q.channel)).tx, q), old(ViewOf(q.channel)).queue, old(written))
      ensures ViewOf(q.channel) == old(ViewOf(q.channel)).(tx := ViewOf(q.channel).tx, queue := ViewOf(q.channel).queue)
    {
      hide OnWire, FlushedFrom, Others, ChannelsValid, Distinct, Channel.Tx, Channel.Rx, Flow.ApplySeq;
      var n := q.channel;
      ghost var v := ViewOf(n);
      var r := HandleSeq(q);
      assert ViewOf(n) == v.(tx := ViewOf(n).tx, queue := ViewOf(n).queue);
      assert FlushedFrom(n, Flow.ApplySeq(v.tx, q), v.queue, old(written));
      hide Assembled;
      StillTidy(n, old(queues), old(replyOrder), old(heldReplies), old(unacked));
      hide KnownWithin;
      assert Views() == old(Views())[n := ViewOf(n)] by {
        hide Channel.Known, Assembled;
        forall k | k in old(Views()) && k != n
          ensures old(Views())[k] == Assembled(k, Chan(k).Known(), old(queues), old(replyOrder), old(heldReplies), old(unacked))
        {
          DistinctAt(n, k);
          assert old(Chan(k).Known()) == Chan(k).Known();
        }
        Moved(n, old(Views()), old(queues), old(replyOrder), old(heldReplies), old(unacked));
      }
      hide Views;
    }

    /** `handle_seq`, for the whole session. */
    method TakeSeq(q: SeqFrame) returns (r: Result<(), Error>)
      requires Valid()
      modifies this`queues, this`outbound, this`written
      modifies (if Open(q.channel) then {Chan(q.channel)} else {})`sendWindow
      modifies (if Open(q.channel) then {Chan(q.channel)} else {})`nextSeqno
      ensures Meets(r, SS.OnSeq(Conf(), old(Snap()), q))
    {
      hide Steady, Rested, FlushedFrom, Flushing, Views, ViewOf, Flow.ApplySeq;
      ZeroView();
      if q.channel != 0 && q.channel !in channels {
        return Failed(NoSuchChannel(q.channel));
      }
      ValidAt(q.channel);
      OnSeqRests(Conf(), Snap(), q);
      ghost var s, v := Snap(), ViewOf(q.channel);
      SeqOn(q);
      FlushedSnap(q.channel, s, v, Flow.ApplySeq(v.tx, q), v.queue);
      return Ok(());
    }

    /** `accept` and `acknowledge`, which is what every data frame goes through. */
    method Charge(n: U32, f: DataFrame) returns (r: Result<Option<Message>, Error>)
      requires Distinct() && OnWire() && Open(n) && f.Valid()
      modifies this`unacked, this`outbound, this`written
      modifies Chan(n)`expectedSeqno, Chan(n)`recvWindow, Chan(n)`partial, Chan(n)`awaitingReply
      ensures
        var a := Flow.Accept(old(Chan(n).Rx()), f).outcome;
        Chan(n).awaitingReply == old(Chan(n).awaitingReply)
                                 + if f.kind.Msg? && !f.more && (a.Ok? || a.error == InterleavedFragment) then {f.msgno} else {}
      ensures OnWire() && Others(n, old(queues), old(replyOrder), old(heldReplies), old(unacked))
      ensures
        var (k, outcome) := TakeFrame(old(Chan(n).Rx()), old(Unacked(n)), f);
        && Chan(n).Rx() == k.rx && Unacked(n) == k.unacked
        && r == (if k.outcome.Failed? then Failed(k.outcome.error) else outcome)
        && written == old(written) + SeqOf(k)
    {
      hide OnWire, Flow.Acknowledge, Flow.Accept;
      r := Chan(n).Accept(f);
      if r.Ok? {
        var acked := Acknowledge(n, |f.payload|);
        if acked.Failed? {
          r := Failed(acked.error);
        }
      }
    }

    /** The same moves that channel alone. */
    method Take(n: U32, f: DataFrame) returns (r: Result<Option<Message>, Error>)
      requires Steady() && Open(n) && f.Valid()
      modifies this`unacked, this`outbound, this`written
      modifies Chan(n)`expectedSeqno, Chan(n)`recvWindow, Chan(n)`partial, Chan(n)`awaitingReply
      ensures Steady() && Views() == old(Views())[n := ViewOf(n)]
      ensures
        var (k, outcome) := TakeFrame(old(ViewOf(n)).rx, old(ViewOf(n)).unacked, f);
        && ViewOf(n) == old(ViewOf(n)).(rx := k.rx, unacked := k.unacked)
        && r == (if k.outcome.Failed? then Failed(k.outcome.error) else outcome)
        && written == old(written) + SeqOf(k)
    {
      hide OnWire, Others, ChannelsValid, Distinct, Channel.Tx, Channel.Rx, TakeFrame, SeqOf;
      r := Charge(n, f);
      StillTidy(n, old(queues), old(replyOrder), old(heldReplies), old(unacked));
      hide KnownWithin;
      assert Views() == old(Views())[n := ViewOf(n)] by {
        hide Channel.Known, Assembled;
        forall k | k in old(Views()) && k != n
          ensures old(Views())[k] == Assembled(k, Chan(k).Known(), old(queues), old(replyOrder), old(heldReplies), old(unacked))
        {
          DistinctAt(n, k);
          assert old(Chan(k).Known()) == Chan(k).Known();
        }
        Moved(n, old(Views()), old(queues), old(replyOrder), old(heldReplies), old(unacked));
      }
      hide Views;
    }

    /** The same, for the whole session. */
    method TakeOn(n: U32, f: DataFrame) returns (r: Result<Option<Message>, Error>)
      requires Valid() && Open(n) && f.Valid()
      modifies this`unacked, this`outbound, this`written
      modifies Chan(n)`expectedSeqno, Chan(n)`recvWindow, Chan(n)`partial, Chan(n)`awaitingReply
      ensures n in old(Snap()).views
      ensures
        var s := SS.Taking(old(Snap()), n, f);
        if r.Failed? then s == Failed(r.error) else s == Ok((Snap(), r.value)) && Valid()
    {
      hide Steady, Rested, TakeFrame, Views, SeqOf, ViewOf;
      ZeroView();
      ValidAt(n);
      ghost var v := ViewOf(n);
      if TakeFrame(v.rx, v.unacked, f).0.outcome.Ok? {
        TakeFrameLedger(v.rx, v.unacked, f);
        TakingRests(Snap(), n, f);
      }
      r := Take(n, f);
    }

    /** A message to answer takes its place in the order of replies. */
    method Await(n: U32, msgno: U32)
      requires Steady() && Open(n)
      modifies this`replyOrder
      ensures Steady() && Views() == old(Views())[n := ViewOf(n)]
      ensures
        var v := old(ViewOf(n));
        ViewOf(n) == v.(buffer := v.buffer.(order := v.buffer.order + [msgno]))
    {
      hide OnWire, ChannelsValid, Distinct, Channel.Known;
      ghost var v := ViewOf(n);
      replyOrder := replyOrder[n := Order(n) + [msgno]];
      assert ViewOf(n) == v.(buffer := v.buffer.(order := v.buffer.order + [msgno]));
      assert Others(n, old(queues), old(replyOrder), old(heldReplies), old(unacked));
      hide Others, Assembled;
      StillTidy(n, old(queues), old(replyOrder), old(heldReplies), old(unacked));
      hide KnownWithin;
      assert Views() == old(Views())[n := ViewOf(n)] by {
        Moved(n, old(Views()), old(queues), old(replyOrder), old(heldReplies), old(unacked));
      }
      hide Views;
    }

    /** A complete message is reported. */
    method Report(n: U32, message: Message)
      requires Steady() && Open(n)
      modifies this`replyOrder, this`events
      ensures Steady() && n in old(Snap()).views && Snap() == Reporting(old(Snap()), n, message)
    {
      hide Steady, Views, Channel.Known, TableOf;
      ViewAt(n);
      if message.kind.Msg? {
        Await(n, message.msgno);
      } else {
        assert ViewOf(n).buffer.order + [] == ViewOf(n).buffer.order;
        assert Views()[n := ViewOf(n)] == Views();
      }
      events := events + [MessageReceived(n, message)];
    }

    /** `handle_data` on a numbered channel: accept, acknowledge, note the order of messages to answer, report. */
    method HandleData(f: DataFrame) returns (r: Result<(), Error>)
      requires Valid() && f.Valid() && f.channel != 0
      modifies this`replyOrder, this`unacked, this`outbound, this`written, this`events
      modifies (if f.channel in channels then {channels[f.channel]} else {})`expectedSeqno
      modifies (if f.channel in channels then {channels[f.channel]} else {})`recvWindow
      modifies (if f.channel in channels then {channels[f.channel]} else {})`partial
      modifies (if f.channel in channels then {channels[f.channel]} else {})`awaitingReply
      ensures Meets(r, SS.OnData(old(Snap()), f))
    {
      hide Steady, Rested, Views, SS.Taking, Reporting;
      var n := f.channel;
      ZeroView();
      if n !in channels {
        return Failed(NoSuchChannel(n));
      }
      var complete := TakeOn(n, f);
      if complete.Failed? {
        return Failed(complete.error);
      }
      OnDataRests(old(Snap()), f);
      if complete.value.Some? {
        Report(n, complete.value.value);
      }
      return Ok(());
    }

    // ---- channel management ----------------------------------------------------------

    /** `write_zero`: a message goes through channel 0's queue like any other. */
    method EnqueueZero(kind: FrameKind, msgno: U32, payload: Bytes)
      requires Distinct() && OnWire() && Settled(0) && WellFormed(0, Message(kind, msgno, None, payload))
      modifies this`queues, this`outbound, this`written, zero`nextSeqno
      ensures OnWire() && Settled(0) && Others(0, old(queues), old(replyOrder), old(heldReplies), old(unacked))
      ensures FlushedFrom(0, old(Chan(0).Tx()), old(Queue(0)) + [Message(kind, msgno, None, payload)], old(written))
    {
      hide OnWire, FlushedFrom, Idle, AllWellFormed;
      var m := Message(kind, msgno, None, payload);
      WellFormedOne(0, m);
      WellFormedAppend(0, Queue(0), [m]);
      Enqueue(0, m);
      Flush(0);
    }

    /** The same moves channel 0 alone. */
    method EnqueueOn(kind: FrameKind, msgno: U32, payload: Bytes)
      requires Steady() && Settled(0) && WellFormed(0, Message(kind, msgno, None, payload))
      modifies this`queues, this`outbound, this`written, zero`nextSeqno
      ensures Steady() && Settled(0) && Views() == old(Views())[0 := ViewOf(0)]
      ensures FlushedFrom(0, old(ViewOf(0)).tx, old(ViewOf(0)).queue + [Message(kind, msgno, None, payload)], old(written))
      ensures ViewOf(0) == old(ViewOf(0)).(tx := ViewOf(0).tx, queue := ViewOf(0).queue)
    {
      hide OnWire, FlushedFrom, Others, ChannelsValid, Distinct, Channel.Tx, Channel.Rx, WellFormed, Quiet;
      ghost var v := ViewOf(0);
      EnqueueZero(kind, msgno, payload);
      assert ViewOf(0) == v.(tx := ViewOf(0).tx, queue := ViewOf(0).queue);
      assert FlushedFrom(0, v.tx, v.queue + [Message(kind, msgno, None, payload)], old(written));
      hide Assembled;
      StillTidy(0, old(queues), old(replyOrder), old(heldReplies), old(unacked));
      hide KnownWithin;
      assert Views() == old(Views())[0 := ViewOf(0)] by {
        hide Channel.Known, Assembled;
        forall k | k in old(Views()) && k != 0
          ensures old(Views())[k] == Assembled(k, Chan(k).Known(), old(queues), old(replyOrder), old(heldReplies), old(unacked))
        {
          DistinctAt(0, k);
          assert old(Chan(k).Known()) == Chan(k).Known();
        }
        Moved(0, old(Views()), old(queues), old(replyOrder), old(heldReplies), old(unacked));
      }
      hide Views;
    }

    /** The same, for the whole session. */
    method Tell(kind: FrameKind, msgno: U32, payload: Bytes)
      requires Steady() && Settled(0) && WellFormed(0, Message(kind, msgno, None, payload))
      modifies this`queues, this`outbound, this`written, zero`nextSeqno
      ensures Steady() && Settled(0) && ZeroReady(old(Snap()))
      ensures Snap() == Telling(Conf(), old(Snap()), Message(kind, msgno, None, payload))
    {
      hide Steady, Views, TableOf, FlushedFrom, Flushing, WellFormed;
      SteadyZero();
      ViewAt(0);
      ghost var s, v := Snap(), ViewOf(0);
      EnqueueOn(kind, msgno, payload);
      FlushedSnap(0, s, v, v.tx, v.queue + [Message(kind, msgno, None, payload)]);
    }

    /** The end of `Session::new`. */
    method Announce(greeting: Bytes)
      requires Valid()
      modifies this`queues, this`outbound, this`written, zero`nextSeqno
      ensures Valid() && ZeroReady(old(Snap())) && Snap() == Announcing(Conf(), old(Snap()), greeting)
    {
      hide OnWire, Distinct, Tidy, ChannelsValid, Views, TableOf, Telling, Rested;
      ValidAt(0);
      AnnouncingRests(Conf(), Snap(), greeting);
      Tell(Rpy, 0, greeting);
      if windowSize > INITIAL_WINDOW_SIZE && zero.recvWindow.size <= MAX_FRAME_SIZE {
        Write(Seq(SeqFrame(0, zero.recvWindow.base, zero.recvWindow.size)));
      } else {
        assert written + [] == written;
      }
    }

    /** `write_zero`. */
    method WriteZero(kind: FrameKind, msgno: U32, m: M.Message)
      requires Steady() && Settled(0) && msgno <= MAX_MSG_NO && !kind.HasAnsNo()
      modifies this`queues, this`outbound, this`written, zero`nextSeqno
      ensures Steady() && Settled(0)
      ensures ZeroReady(old(Snap())) && Snap() == SS.WriteZero(Conf(), old(Snap()), kind, msgno, m)
    {
      hide Steady, Snap, Telling, Quiet;
      Tell(kind, msgno, wire.write(m));
    }

    /** A message number on channel 0, for a request. */
    method AllocateZero() returns (r: Result<U32, Error>)
      requires Steady()
      modifies zero`nextMsgno, zero`outstanding
      ensures Steady() && (r.Failed? <==> Exhausted(old(zero.outstanding)))
      ensures r.Failed? ==> r.error == MsgNoExhausted && zero.nextMsgno == old(zero.nextMsgno) && zero.outstanding == old(zero.outstanding)
      ensures r.Ok? ==> FirstFree(old(zero.nextMsgno), r.value, old(zero.outstanding)) && r.value <= MAX_MSG_NO
      ensures r.Ok? ==> zero.outstanding == old(zero.outstanding) + {r.value} && zero.nextMsgno == Succ(r.value)
    {
      hide OnWire, Tidy, FirstFree, Exhausted;
      r := zero.AllocateMsgno();
      if r.Ok? {
        FreeInRange(old(zero.nextMsgno), r.value, old(zero.outstanding));
      }
    }

    /** `request`: a fresh message number, a note of what it asks for, and the message itself. */
    method Request(m: M.Message, p: T.Pending) returns (r: Result<U32, Error>)
      requires Steady() && Settled(0)
      modifies this`pending, this`queues, this`outbound, this`written, zero`nextSeqno, zero`nextMsgno, zero`outstanding
      ensures Steady() && (r.Failed? <==> Exhausted(old(zero.outstanding)))
      ensures r.Failed? ==> r.error == MsgNoExhausted && Snap() == old(Snap())
      ensures r.Ok? ==>
        && FirstFree(old(zero.nextMsgno), r.value, old(zero.outstanding)) && r.value <= MAX_MSG_NO
        && ZeroReady(old(Snap()))
        && Snap() == SS.WriteZero(Conf(), old(Snap()).(table := T.Requested(old(Snap()).table, r.value, p)), Msg, r.value, m)
    {
      hide Steady, Views, SS.WriteZero, FirstFree, Exhausted, Quiet;
      r := AllocateZero();
      if r.Failed? {
        return;
      }
      pending := pending[r.value := p];
      assert Snap() == old(Snap()).(table := T.Requested(old(TableOf()), r.value, p));
      WriteZero(Msg, r.value, m);
    }

    /** The next channel number, spent and half open. */
    method Spend() returns (number: U32)
      modifies this`nextChannel, this`halfOpen, this`issued
      ensures number == old(nextChannel) && issued == old(issued) + 1
      ensures Snap() == old(Snap()).(table := T.Stranded(old(Snap()).table).(issued := old(issued) + 1))
    {
      hide Views;
      issued := issued + 1;
      number := nextChannel;
      nextChannel := if nextChannel + 2 < MODULUS then nextChannel + 2 else nextChannel + 2 - MODULUS;
      halfOpen := halfOpen + {number};
    }

    ghost method Unissue()
      requires issued > 0
      modifies this`issued
      ensures Snap() == old(Snap()).(table := old(Snap()).table.(issued := old(issued) - 1))
    {
      hide Views;
      issued := issued - 1;
    }

    /** The start itself, under the next channel number. */
    method Ask(profile: M.Profile) returns (number: U32, sent: Result<U32, Error>)
      requires Steady() && Settled(0) && phase.Ready?
      modifies this`pending, this`halfOpen, this`nextChannel, this`issued, this`queues, this`outbound, this`written
      modifies zero`nextSeqno, zero`nextMsgno, zero`outstanding
      ensures Steady() && number == old(nextChannel) && (sent.Failed? <==> Exhausted(old(zero.outstanding)))
      ensures sent.Failed? ==> sent.error == MsgNoExhausted && Snap() == old(Snap()).(table := T.Stranded(old(TableOf())))
      ensures sent.Ok? ==>
        && FirstFree(old(zero.nextMsgno), sent.value, old(zero.outstanding)) && sent.value <= MAX_MSG_NO
        && ZeroReady(old(Snap()))
        && var s := old(Snap()).(table := T.Next(old(TableOf()), T.StartChannel(sent.value)).value);
           Snap() == SS.WriteZero(Conf(), s, Msg, sent.value, M.Start(number, None, [profile]))
    {
      hide Steady, Snap, SS.WriteZero, FirstFree, Exhausted, Quiet, T.Requested, T.Next;
      TableAt();
      number := Spend();
      sent := Request(M.Start(number, None, [profile]), T.Start(number));
      if sent.Failed? {
        Unissue();
      } else {
        T.StartIs(old(TableOf()), sent.value);
      }
    }

    /** `start_channel`. */
    method StartChannel(profile: M.Profile) returns (r: Result<U32, Error>, ghost msgno: U32)
      requires Valid() && issued + 1 < 0x7fff_ffff
      modifies this`pending, this`halfOpen, this`nextChannel, this`issued, this`queues, this`outbound, this`written
      modifies zero`nextSeqno, zero`nextMsgno, zero`outstanding
      ensures r.Ok? <==> old(phase.Ready?) && !Exhausted(old(zero.outstanding))
      ensures r.Ok? ==>
        && r.value == old(nextChannel)
        && FirstFree(old(zero.nextMsgno), msgno, old(zero.outstanding)) && msgno <= MAX_MSG_NO
        && Meets(r, SS.Start(Conf(), old(Snap()), profile, msgno))
      ensures !old(phase.Ready?) ==> r == Failed(NotReady) && Valid() && Snap() == old(Snap())
      ensures r.Failed? && old(phase.Ready?) ==>
        r.error == MsgNoExhausted && Steady() && Snap() == old(Snap()).(table := T.Stranded(old(TableOf())))
    {
      hide Steady, Views, SS.WriteZero, FirstFree, Exhausted, Quiet, Rested, T.Stranded;
      msgno := 0;
      if !phase.Ready? {
        r := Failed(NotReady);
        return;
      }
      ValidAt(0);
      var number, sent := Ask(profile);
      if sent.Failed? {
        r := Failed(sent.error);
        return;
      }
      msgno := sent.value;
      r := Ok(number);
      RequestRests(Conf(), old(Snap()), T.StartChannel(msgno), msgno, M.Start(number, None, [profile]));
    }

    /** `close_channel`. */
    method CloseChannel(channel: U32) returns (r: Result<(), Error>, ghost msgno: U32)
      requires Valid()
      modifies this`pending, this`queues, this`outbound, this`written, zero`nextSeqno, zero`nextMsgno, zero`outstanding
      ensures r.Ok? <==> old(phase.Ready?) && (channel == 0 || channel in channels) && !Exhausted(old(zero.outstanding))
      ensures r.Ok? ==>
        && FirstFree(old(zero.nextMsgno), msgno, old(zero.outstanding)) && msgno <= MAX_MSG_NO
        && Meets(r, SS.Close(Conf(), old(Snap()), channel, msgno))
      ensures r.Failed? ==>
        && r.error == (if !old(phase.Ready?) then NotReady else if channel != 0 && channel !in channels then NoSuchChannel(channel) else MsgNoExhausted)
        && Valid() && Snap() == old(Snap())
    {
      hide Steady, Views, SS.WriteZero, FirstFree, Exhausted, Quiet, Rested;
      msgno := 0;
      if !phase.Ready? {
        r := Failed(NotReady);
        return;
      }
      if channel != 0 && channel !in channels {
        r := Failed(NoSuchChannel(channel));
        return;
      }
      ValidAt(0);
      SteadyZero();
      var sent := Request(M.Close(channel, 200, None, None), T.Close(channel));
      if sent.Failed? {
        r := Failed(sent.error);
        return;
      }
      msgno := sent.value;
      r := Ok(());
      RequestRests(Conf(), old(Snap()), T.CloseChannel(channel, msgno), msgno, M.Close(channel, 200, None, None));
    }

    /** A channel object of its own for a new number. */
    method Place(channel: U32, ghost origin: T.Origin)
      requires Distinct() && ChannelsValid() && channel != 0 && channel !in channels && origins.Keys == channels.Keys
      modifies this`channels, this`origins
      ensures Distinct() && ChannelsValid() && origins == old(origins)[channel := origin] && origins.Keys == channels.Keys
      ensures fresh(channels.Values - old(channels.Values))
      ensures channels.Keys == old(channels).Keys + {channel} && fresh(channels[channel])
      ensures forall n :: n in old(channels) ==> channels[n] == old(channels)[n]
      ensures Chan(channel).Known() == (FreshView(channel, windowSize).tx, FreshView(channel, windowSize).rx, map[])
    {
      var c := new Channel(channel, windowSize);
      channels := channels[channel := c];
      origins := origins[channel := origin];
    }

    /** Nothing is known about it yet. */
    method PlaceNew(channel: U32, ghost origin: T.Origin)
      requires Steady() && channel != 0 && channel !in channels
      modifies this`channels, this`origins
      ensures Steady() && origins == old(origins)[channel := origin] && fresh(channels.Values - old(channels.Values))
      ensures channels.Keys == old(channels).Keys + {channel} && fresh(channels[channel])
      ensures forall n :: n in old(channels) ==> channels[n] == old(channels)[n]
      ensures ViewOf(channel) == FreshView(channel, windowSize)
    {
      hide OnWire, Distinct, ChannelsValid;
      NotKnown(channel);
      hide KnownWithin;
      Place(channel, origin);
      KnownWithinMore(old(channels).Keys + {0}, channels.Keys + {0});
    }

    /** The same, with what it means for the session as a whole. */
    method Insert(channel: U32, ghost origin: T.Origin)
      requires Steady() && channel != 0 && channel !in channels
      modifies this`channels, this`origins
      ensures Steady() && origins == old(origins)[channel := origin] && fresh(channels.Values - old(channels.Values))
      ensures Views() == old(Views())[channel := FreshView(channel, windowSize)]
    {
      hide Steady, Views, Channel.Known, FreshView, Assembled;
      ghost var vs := Views();
      AllViews();
      PlaceNew(channel, origin);
      forall k | k in vs
        ensures vs[k] == ViewOf(k)
      {
        assert old(Chan(k)) == Chan(k);
        assert old(Chan(k).Known()) == Chan(k).Known();
      }
      hide ViewOf;
      ViewsAre(vs[channel := FreshView(channel, windowSize)]);
    }

    /** `finish_close` for one channel: everything known about it goes. */
    method CloseOne(channel: U32)
      requires Steady() && channel != 0
      modifies this`channels, this`origins, this`queues, this`unacked, this`replyOrder, this`heldReplies
      ensures Steady() && origins == old(origins) - {channel} && channels.Values <= old(channels.Values)
      ensures Views() == old(Views()) - {channel}
    {
      hide OnWire, Views, Channel.Known, Assembled;
      ghost var vs, numbers := Views(), channels.Keys + {0};
      AllViews();
      DropChannel(channel);
      KnownWithout(channel, numbers, old(queues), old(replyOrder), old(heldReplies), old(unacked));
      assert numbers - {channel} == channels.Keys + {0};
      assert Steady();
      hide Steady;
      forall k | k in vs - {channel}
        ensures (vs - {channel})[k] == ViewOf(k)
      {
        assert old(Chan(k)) == Chan(k);
        assert old(Chan(k).Known()) == Chan(k).Known();
        AssembledWithout(channel, k, Chan(k).Known(), old(queues), old(replyOrder), old(heldReplies), old(unacked));
      }
      hide ViewOf;
      ViewsAre(vs - {channel});
    }

    method DropChannel(channel: U32)
      requires Distinct() && ChannelsValid() && origins.Keys == channels.Keys
      modifies this`channels, this`origins, this`queues, this`unacked, this`replyOrder, this`heldReplies
      ensures Distinct() && ChannelsValid() && origins.Keys == channels.Keys && channels.Values <= old(channels.Values)
      ensures channels == old(channels) - {channel} && origins == old(origins) - {channel}
      ensures queues == old(queues) - {channel} && unacked == old(unacked) - {channel}
      ensures replyOrder == old(replyOrder) - {channel} && heldReplies == old(heldReplies) - {channel}
    {
      channels, origins := channels - {channel}, origins - {channel};
      queues, unacked := queues - {channel}, unacked - {channel};
      replyOrder, heldReplies := replyOrder - {channel}, heldReplies - {channel};
    }

    /** The application is told. */
    method Raise(e: Event)
      modifies this`events
      ensures Snap() == old(Snap()).(events := old(Snap()).events + [e])
    {
      hide Views;
      events := events + [e];
    }

    /** `finish_close`. */
    method FinishClose(channel: U32)
      requires Steady()
      modifies this`phase, this`channels, this`origins, this`queues, this`unacked, this`replyOrder, this`heldReplies, this`events
      ensures Steady() && channels.Values <= old(channels.Values)
      ensures 0 in old(Snap()).views && Snap() == Closing(old(Snap()), T.FinishClose(old(Snap()).table, channel), channel)
    {
      hide Steady, Snap;
      if channel == 0 {
        ForgetAll();
        Raise(SessionClosed);
      } else {
        ForgetChannel(channel);
        Raise(ChannelClosed(channel));
      }
    }

    /** The table goes with the channel. */
    method ForgetChannel(channel: U32)
      requires Steady() && channel != 0
      modifies this`channels, this`origins, this`queues, this`unacked, this`replyOrder, this`heldReplies
      ensures Steady() && channels.Values <= old(channels.Values) && 0 in old(Snap()).views
      ensures Snap() == old(Snap()).(views := SS.Forget(old(Snap()).views, channel), table := T.FinishClose(old(Snap()).table, channel))
    {
      hide Steady, Views, ViewOf, SS.Forget;
      ViewAt(0);
      ForgetOne(Views(), channel);
      CloseOne(channel);
    }

    /** The table goes with all of them. */
    method ForgetAll()
      requires Steady()
      modifies this`phase, this`channels, this`origins, this`queues, this`unacked, this`replyOrder, this`heldReplies
      ensures Steady() && channels.Values <= old(channels.Values) && 0 in old(Snap()).views
      ensures Snap() == old(Snap()).(views := SS.Forget(old(Snap()).views, 0), table := T.FinishClose(old(Snap()).table, 0))
    {
      hide Steady, Views, SS.Forget;
      phase := T.Closed;
      CloseAll();
    }

    /** `finish_close` for the session: every channel goes, and what channel 0 still had to do. */
    method CloseAll()
      requires Steady()
      modifies this`channels, this`origins, this`queues, this`unacked, this`replyOrder, this`heldReplies
      ensures Steady() && origins == map[] && channels == map[] && channels.Values <= old(channels.Values)
      ensures 0 in old(Views()) && Views() == SS.Forget(old(Views()), 0)
    {
      hide OnWire, Channel.Known, Views;
      ViewAt(0);
      SteadyZero();
      hide Steady;
      channels, origins := map[], map[];
      queues, unacked, replyOrder, heldReplies := map[], map[], map[], map[];
      Emptied();
    }

    /** A session with no channels and nothing to do. */
    lemma Emptied()
      requires zero.number == 0 && zero.Valid() && OnWire() && origins == map[] && channels == map[]
      requires queues == map[] && unacked == map[] && replyOrder == map[] && heldReplies == map[]
      ensures Steady() && Views() == map[0 := View(zero.Known().0, zero.Known().1, [], Buffer([], map[], zero.Known().2), 0)]
    {
      hide OnWire, Channel.Known;
      assert Views() == map[0 := ViewOf(0)];
    }

    /** A new channel comes to life: the table and the channels move together. */
    method Establish(channel: U32, ghost origin: T.Origin)
      requires Steady() && channel != 0 && channel !in channels
      modifies this`channels, this`origins
      ensures Steady() && fresh(channels.Values - old(channels.Values))
      ensures (old(Settled(0)) ==> Settled(0))
      ensures
        var t := old(TableOf());
        Snap() == Opening(Conf(), old(Snap()), t.(open := t.open[channel := origin]), channel)
    {
      hide Steady, Views, ViewOf, FreshView, Quiet;
      Insert(channel, origin);
    }

    /** `accept_start`: a fresh channel under the number the peer asked for, if it may ask for it. */
    method AcceptStart(channel: U32, msgno: U32, profile: M.Profile) returns (r: Result<(), Error>)
      requires Valid() && msgno <= MAX_MSG_NO
      modifies this`channels, this`origins, this`queues, this`outbound, this`written, zero`nextSeqno, zero`awaitingReply
      ensures fresh(channels.Values - old(channels.Values))
      ensures Meets(r, SS.AcceptStart(Conf(), old(Snap()), channel, msgno, profile))
      ensures r.Ok? ==> zero.awaitingReply == old(zero.awaitingReply) - {msgno}
      ensures r.Failed? ==> zero.awaitingReply == old(zero.awaitingReply) && Valid() && Snap() == old(Snap())
    {
      hide Steady, Views, SS.WriteZero, Opening, Quiet, Rested;
      if channel == 0 || role.Owns(channel) {
        return Failed(PeerMayNotAllocate);
      }
      SteadyZero();
      if channel in channels {
        return Failed(AlreadyOpen);
      }
      ValidAt(0);
      AcceptStartRests(Conf(), Snap(), channel, msgno, profile);
      Establish(channel, T.Peer);
      zero.awaitingReply := zero.awaitingReply - {msgno};
      WriteZero(Rpy, msgno, M.Accepted(profile));
      return Ok(());
    }

    /** `refuse_start` and `refuse_close`. */
    method Refuse(msgno: U32, error: M.Message)
      requires Valid() && msgno <= MAX_MSG_NO
      modifies this`queues, this`outbound, this`written, zero`nextSeqno, zero`awaitingReply
      ensures zero.awaitingReply == old(zero.awaitingReply) - {msgno}
      ensures Valid() && Snap() == SS.Refuse(Conf(), old(Snap()), msgno, error)
    {
      hide Steady, Views, SS.WriteZero, Quiet, Rested;
      ValidAt(0);
      WriteZeroRests(Conf(), Snap(), Err, msgno, error);
      zero.awaitingReply := zero.awaitingReply - {msgno};
      WriteZero(Err, msgno, error);
    }

    /** `accept_close`: the peer is told, then the channel goes. */
    method AcceptClose(channel: U32, msgno: U32)
      requires Valid() && msgno <= MAX_MSG_NO
      modifies this`phase, this`channels, this`origins, this`queues, this`unacked, this`replyOrder, this`heldReplies, this`events
      modifies this`outbound, this`written, zero`nextSeqno, zero`awaitingReply
      ensures zero.awaitingReply == old(zero.awaitingReply) - {msgno}
      ensures Valid() && channels.Values <= old(channels.Values)
      ensures Snap() == SS.AcceptClose(Conf(), old(Snap()), channel, msgno)
    {
      hide Steady, Views, SS.WriteZero, Quiet, Rested, Closing, T.FinishClose;
      ValidAt(0);
      AcceptCloseRests(Conf(), Snap(), channel, msgno);
      WriteZeroKeeps(Conf(), Snap(), Rpy, msgno, M.Okay);
      zero.awaitingReply := zero.awaitingReply - {msgno};
      WriteZero(Rpy, msgno, M.Okay);
      FinishClose(channel);
    }

    // ---- replies to requests of this end ---------------------------------------------

    /** The reply to a request is in: its message number is free again. */
    method Settle(msgno: U32)
      requires Steady()
      modifies this`pending, zero`outstanding
      ensures Steady() && Snap() == old(Snap()).(table := T.Answered(old(Snap()).table, msgno))
    {
      hide OnWire, Tidy, Views;
      pending := pending - {msgno};
      zero.ReleaseMsgno(msgno);
    }

    /** A channel this end asked for comes to life. */
    method Grant(msgno: U32, number: U32)
      requires Steady() && number != 0 && number !in channels
      modifies this`pending, this`halfOpen, this`channels, this`origins, this`granted, zero`outstanding
      ensures Steady() && fresh(channels.Values - old(channels.Values))
      ensures
        var t := T.Answered(old(Snap()).table, msgno);
        Snap() == Opening(Conf(), old(Snap()), t.(halfOpen := t.halfOpen - {number}, open := t.open[number := T.Own],
                                                 granted := t.granted + 1), number)
    {
      hide Steady, Views, ViewOf, FreshView, Quiet, T.Answered;
      Settle(msgno);
      halfOpen, granted := halfOpen - {number}, granted + 1;
      Establish(number, T.Own);
    }

    /** The peer accepted a start: the channel is open under the number asked for. */
    method OnProfile(msgno: U32) returns (r: Result<(), Error>)
      requires Valid()
      modifies this`pending, this`halfOpen, this`channels, this`origins, this`events, this`granted, zero`outstanding
      ensures fresh(channels.Values - old(channels.Values))
      ensures 0 in old(Snap()).views && Meets(r, SS.OnReply(Conf(), old(Snap()), msgno, T.ProfileReply(msgno)))
    {
      hide Steady, Snap, Rested, T.Sound, Opening;
      ZeroView();
      TableAt();
      SteadyZero();
      RestedSound(Snap());
      if msgno !in pending || !pending[msgno].Start? {
        pending := pending - {msgno};
        return Failed(UnknownMsgNo(msgno));
      }
      var number := pending[msgno].number;
      StartNew(TableOf(), msgno);
      OnReplyRests(Conf(), Snap(), msgno, T.ProfileReply(msgno));
      Grant(msgno, number);
      Raise(ChannelOpened(number));
      return Ok(());
    }

    /** The peer accepted a close. */
    method OnOk(msgno: U32) returns (r: Result<(), Error>)
      requires Valid()
      modifies this`pending, this`phase, this`channels, this`origins, this`queues, this`unacked, this`replyOrder
      modifies this`heldReplies, this`events, zero`outstanding
      ensures channels.Values <= old(channels.Values)
      ensures 0 in old(Snap()).views && Meets(r, SS.OnReply(Conf(), old(Snap()), msgno, T.OkReply(msgno)))
    {
      hide Steady, Views, Rested, T.Sound, T.FinishClose;
      ZeroView();
      if msgno !in pending || !pending[msgno].Close? {
        pending := pending - {msgno};
        return Failed(UnknownMsgNo(msgno));
      }
      var number := pending[msgno].number;
      OnReplyRests(Conf(), Snap(), msgno, T.OkReply(msgno));
      Settle(msgno);
      FinishClose(number);
      return Ok(());
    }

    /** The peer refused a request of either kind. */
    method OnError(msgno: U32) returns (r: Result<(), Error>)
      requires Valid()
      modifies this`pending, this`halfOpen, this`events, this`declined, zero`outstanding
      ensures 0 in old(Snap()).views && Meets(r, SS.OnReply(Conf(), old(Snap()), msgno, T.ErrorReply(msgno)))
    {
      hide Steady, Snap, Rested, T.Sound;
      ZeroView();
      TableAt();
      if msgno !in pending {
        return Failed(UnknownMsgNo(msgno));
      }
      var p := pending[msgno];
      OnReplyRests(Conf(), Snap(), msgno, T.ErrorReply(msgno));
      Settle(msgno);
      if p.Start? {
        Withdraw(p.number);
        Raise(StartRefused(p.number));
      } else {
        Raise(CloseRefused(p.number));
      }
      return Ok(());
    }

    /** A channel this end asked for is not to be. */
    method Withdraw(number: U32)
      modifies this`halfOpen, this`declined
      ensures
        var t := old(Snap()).table;
        Snap() == old(Snap()).(table := t.(halfOpen := t.halfOpen - {number}, refused := t.refused + 1))
    {
      hide Views;
      halfOpen, declined := halfOpen - {number}, declined + 1;
    }

    /** `dispatch_management`: requests become events, replies move the table and the channels. */
    method Dispatch(kind: FrameKind, msgno: U32, m: M.Message) returns (r: Result<(), Error>)
      requires Valid()
      modifies this`pending, this`halfOpen, this`channels, this`origins, this`phase, this`queues, this`unacked, this`replyOrder
      modifies this`heldReplies, this`events, this`granted, this`declined, zero`outstanding
      ensures fresh(channels.Values - old(channels.Values))
      ensures 0 in old(Snap()).views && Meets(r, SS.Dispatch(Conf(), old(Snap()), kind, msgno, m))
    {
      hide Steady, Views, Rested, SS.OnReply;
      ZeroView();
      if kind.Msg? && (m.Start? || m.Close?) {
        DispatchRests(Conf(), Snap(), kind, msgno, m);
        Raise(if m.Start? then StartRequested(m.number, msgno) else CloseRequested(m.number, msgno));
        return Ok(());
      }
      if kind.Rpy? && m.Accepted? {
        r := OnProfile(msgno);
      } else if kind.Rpy? && m.Okay? {
        r := OnOk(msgno);
      } else if kind.Err? && m.Refused? {
        r := OnError(msgno);
      } else {
        r := Failed(UnexpectedElement);
      }
    }

    // ---- input -----------------------------------------------------------------------

    method GetReady()
      modifies this`phase
      ensures Snap() == old(Snap()).(table := old(Snap()).table.(phase := T.Ready))
    {
      hide Views;
      phase := T.Ready;
    }

    /** The peer's greeting opens the session for business. */
    method TakeGreeting(f: DataFrame) returns (r: Result<(), Error>)
      requires Valid() && f.Valid() && phase.AwaitingGreeting?
      modifies this`unacked, this`outbound, this`written, this`phase, this`events, zero
      ensures 0 in old(Snap()).views && Meets(r, SS.OnZero(Conf(), old(Snap()), f))
    {
      hide Steady, Snap, Rested, SS.Taking, SS.Dispatch;
      ZeroView();
      TableAt();
      if !wire.Greeting(f) {
        return Failed(NotAGreeting);
      }
      if SS.Taking(Snap(), 0, f).Ok? {
        OnZeroRests(Conf(), Snap(), f);
      }
      var taken := TakeOn(0, f);
      if taken.Failed? {
        return Failed(taken.error);
      }
      GetReady();
      Raise(GreetingReceived);
      return Ok(());
    }

    /** `handle_channel_zero`: the greeting first, management messages after it. */
    method HandleZero(f: DataFrame) returns (r: Result<(), Error>)
      requires Valid() && f.Valid()
      modifies this, zero
      ensures inbound == old(inbound) && fresh(channels.Values - old(channels.Values))
      ensures 0 in old(Snap()).views && Meets(r, SS.OnZero(Conf(), old(Snap()), f))
    {
      hide Steady, Views, Rested, SS.Taking, SS.Dispatch;
      ZeroView();
      if phase.AwaitingGreeting? {
        r := TakeGreeting(f);
        return;
      }
      var complete := TakeOn(0, f);
      if complete.Failed? {
        return Failed(complete.error);
      }
      if complete.value.None? {
        return Ok(());
      }
      var m := wire.read(complete.value.value.payload);
      if m.None? {
        return Failed(NotBeepXml);
      }
      r := Dispatch(complete.value.value.kind, complete.value.value.msgno, m.value);
    }

    /** `handle_frame`. */
    method HandleFrame(f: Frame) returns (r: Result<(), Error>)
      requires Valid() && f.Valid()
      modifies this, zero, channels.Values
      ensures inbound == old(inbound) && fresh(channels.Values - old(channels.Values))
      ensures Meets(r, SS.OnFrame(Conf(), old(Snap()), f))
    {
      hide Valid, SS.OnSeq, SS.OnZero, SS.OnData;
      if f.Seq? {
        r := TakeSeq(f.seqf);
      } else if f.data.channel == 0 {
        r := HandleZero(f.data);
      } else {
        r := HandleData(f.data);
      }
    }

    /**
     * `handle_input`: octets in, frames out of the decoder, each acted upon in order until one
     * fails. What becomes of the session depends on the octets received, not on how they were cut.
     */
    method HandleInput(input: Bytes) returns (r: Result<(), Error>)
      requires Valid()
      modifies this, zero, channels.Values, decoder
      ensures fresh(channels.Values - old(channels.Values))
      ensures Meets(r, SS.OnInput(Conf(), old(Snap()), old(decoder.pending), decoder.maxFrameSize, old(inbound) + input))
      ensures r.Ok? ==>
        Codec.DecodeAll(old(decoder.pending), decoder.maxFrameSize, old(inbound) + input).end == Codec.Wait(decoder.pending, inbound)
    {
      hide Codec.Decode, Codec.DecodeAll, Steady, Snap, Rested, SS.OnInput, SS.OnFrame;
      inbound := inbound + input;
      ghost var all := SS.OnInput(Conf(), Snap(), decoder.pending, decoder.maxFrameSize, inbound);
      ghost var end := Codec.DecodeAll(decoder.pending, decoder.maxFrameSize, inbound).end;
      while true
        invariant Valid() && fresh(channels.Values - old(channels.Values))
        invariant all == SS.OnInput(Conf(), Snap(), decoder.pending, decoder.maxFrameSize, inbound)
        invariant end == Codec.DecodeAll(decoder.pending, decoder.maxFrameSize, inbound).end
        decreases |inbound|
      {
        OnInputStep(Conf(), Snap(), decoder.pending, decoder.maxFrameSize, inbound);
        CodecLaws.DecodeAllStep(decoder.pending, decoder.maxFrameSize, inbound);
        var frame, rest := decoder.Take(inbound);
        if frame.Failed? {
          r := Failed(frame.error);
          return;
        }
        inbound := rest;
        if frame.value.None? {
          r := Ok(());
          return;
        }
        r := HandleFrame(frame.value.value);
        if r.Failed? {
          return;
        }
      }
    }

    // ---- whole runs ------------------------------------------------------------------

    /** Octets from the peer, as one of the calls. */
    method DoInput(octets: Bytes) returns (goesOn: bool)
      requires Valid()
      modifies this, zero, channels.Values, decoder
      ensures fresh(channels.Values - old(channels.Values))
      ensures goesOn ==> Valid() && Steps(Conf(), old(Snap()), Input(octets), Snap())
    {
      hide Steady, Snap, Rested, OnFrames;
      DecodedAllValid(decoder.pending, decoder.maxFrameSize, inbound + octets);
      var r := HandleInput(octets);
      goesOn := r.Ok?;
    }

    method DoSend(n: U32, q: Replies.Request) returns (goesOn: bool)
      requires Valid()
      modifies this`queues, this`heldReplies, this`replyOrder, this`outbound, this`written
      modifies (if n in channels then {channels[n]} else {})`nextSeqno
      modifies (if n in channels then {channels[n]} else {})`nextAnsno
      ensures goesOn ==> Valid() && Steps(Conf(), old(Snap()), SS.Send(n, q), Snap())
      ensures !goesOn ==> Ends(old(Snap()), SS.Send(n, q))
    {
      hide Steady, Views, Rested, SS.Post, WellFormed;
      ZeroView();
      if n in channels {
        ValidAt(n);
        if !WellFormed(n, Numbered(channels[n].nextAnsno, q)) {
          return false;
        }
      }
      var r := Post(n, q);
      return true;
    }

    method DoSendMsg(n: U32, payload: Bytes)
      requires Valid() && n <= MAX_CHANNEL_NO
      modifies this`queues, this`heldReplies, this`replyOrder, this`outbound, this`written
      modifies (if n in channels then {channels[n]} else {})`nextSeqno
      modifies (if n in channels then {channels[n]} else {})`nextAnsno
      modifies (if n in channels then {channels[n]} else {})`nextMsgno
      modifies (if n in channels then {channels[n]} else {})`outstanding
      ensures Valid() && Steps(Conf(), old(Snap()), SS.SendMsg(n, payload), Snap())
    {
      hide Steady, Snap, Rested, SS.Post, Sendable, FirstFree, Exhausted;
      var r := SendMsg(n, payload);
    }

    method DoStart(profile: M.Profile) returns (goesOn: bool)
      requires Valid() && issued + 1 < 0x7fff_ffff
      modifies this`pending, this`halfOpen, this`nextChannel, this`issued, this`queues, this`outbound, this`written
      modifies zero`nextSeqno, zero`nextMsgno, zero`outstanding
      ensures goesOn ==> Valid() && Steps(Conf(), old(Snap()), SS.StartChannel(profile), Snap())
      ensures !goesOn ==> Ends(old(Snap()), SS.StartChannel(profile))
    {
      hide Steady, Views, Rested, SS.Start, FirstFree, Exhausted, T.Stranded;
      goesOn := phase.Ready?;
      var r, msgno := StartChannel(profile);
      goesOn := goesOn ==> r.Ok?;
    }

    method DoClose(channel: U32)
      requires Valid()
      modifies this`pending, this`queues, this`outbound, this`written, zero`nextSeqno, zero`nextMsgno, zero`outstanding
      ensures Valid() && Steps(Conf(), old(Snap()), SS.CloseChannel(channel), Snap())
    {
      hide Steady, Views, Rested, Close, FirstFree, Exhausted;
      var r, msgno := CloseChannel(channel);
    }

    method DoTransmit()
      requires Valid()
      modifies this`outbound, this`transmitted
      ensures Valid() && Snap() == old(Snap())
    {
      hide Distinct, OnWire, Tidy, ChannelsValid, Snap, Rested;
      var octets := PollTransmit();
    }

    /** One call. It does what is specified, or ends the session and is one of those that may. */
    method Do(call: Call) returns (goesOn: bool)
      requires Valid() && Carriable(call) && issued + 1 < 0x7fff_ffff
      modifies this, zero, channels.Values, decoder
      ensures fresh(channels.Values - old(channels.Values))
      ensures goesOn ==> Valid() && Steps(Conf(), old(Snap()), call, Snap())
      ensures !goesOn ==> Ends(old(Snap()), call)
    {
      hide Steady, Snap, Rested, SS.Post, Sendable, SS.AcceptStart, SS.Refuse, SS.AcceptClose, Resize, InputDid, SendMsgDid, StartDid, CloseDid;
      goesOn := true;
      match call
      case Input(octets) =>
        goesOn := DoInput(octets);
      case Transmit =>
        DoTransmit();
      case Send(n, q) =>
        goesOn := DoSend(n, q);
      case SendMsg(n, payload) =>
        DoSendMsg(n, payload);
      case StartChannel(profile) =>
        goesOn := DoStart(profile);
      case CloseChannel(n) =>
        DoClose(n);
      case GrantStart(n, msgno, profile) =>
        var r := AcceptStart(n, msgno, profile);
      case Decline(msgno, error) =>
        Refuse(msgno, error);
      case GrantClose(n, msgno) =>
        AcceptClose(n, msgno);
      case SetWindowSize(n, size) =>
        var r := SetWindowSize(n, size);
    }

    /**
     * Any list of calls, until one ends the session: the session goes through the states of a
     * run and is valid after each of them.
     */
    method Perform(calls: seq<Call>) returns (done: nat, ghost trace: seq<Snapshot>)
      requires Valid() && issued + |calls| < 0x7fff_ffff && forall i :: 0 <= i < |calls| ==> Carriable(calls[i])
      modifies this, zero, channels.Values, decoder
      ensures fresh(channels.Values - old(channels.Values))
      ensures done <= |calls| && Run(Conf(), trace, calls[..done]) && trace[0] == old(Snap())
      ensures done == |calls| ==> Valid() && trace[done] == Snap()
      ensures done < |calls| ==> Ends(trace[done], calls[done])
    {
      hide Valid, Snap, Steps, Ends;
      done := 0;
      trace := [Snap()];
      while done < |calls|
        invariant done <= |calls| && Valid() && fresh(channels.Values - old(channels.Values))
        invariant |trace| == done + 1 && trace[0] == old(Snap()) && trace[done] == Snap()
        invariant forall i :: 0 <= i < done ==> Steps(Conf(), trace[i], calls[i], trace[i + 1])
        invariant issued <= old(issued) + done
        decreases |calls| - done
      {
        ghost var s := Snap();
        TableAt();
        var goesOn := Do(calls[done]);
        if !goesOn {
          return;
        }
        StepsRests(Conf(), s, calls[done], Snap());
        TableAt();
        trace := trace + [Snap()];
        done := done + 1;
      }
    }
  }

  /** `Session::new`, and then any list of calls: what `SessionSafety` says holds of the object after each of them. */
  method Lifetime(c: Config, greeting: Bytes, calls: seq<Call>) returns (session: Session, done: nat, ghost trace: seq<Snapshot>)
    requires |calls| < 0x7fff_ffff && forall i :: 0 <= i < |calls| ==> Carriable(calls[i])
    ensures done <= |calls| && Run(c, trace, calls[..done])
    ensures ZeroReady(Begun(c)) && trace[0] == Announcing(c, Begun(c), greeting)
    ensures done == |calls| ==> session.Valid() && trace[done] == session.Snap()
    ensures done < |calls| ==> Ends(trace[done], calls[done])
  {
    hide Session.Valid, Session.Snap, Steps, Ends, Announcing, ZeroReady;
    session := new Session(c.role, c.maxFrameSize, c.windowSize, c.wire);
    session.TableAt();
    session.Announce(greeting);
    done, trace := session.Perform(calls);
  }

  /** What holds away from `n` holds at every other number. */
  lemma {:induction false} Elsewhere<V>(now: map<U32, V>, before: map<U32, V>, n: U32, k: U32)
    requires now - {n} == before - {n}
    ensures now.Keys <= before.Keys + {n}
    ensures k != n ==> (k in now <==> k in before) && (k in now ==> now[k] == before[k])
  {
    assert forall j :: j in now && j != n ==> j in now - {n};
    if k != n {
      assert k in now <==> k in now - {n};
      assert k in before <==> k in before - {n};
      assert k in now ==> now[k] == (now - {n})[k];
    }
  }
}
