/**
 * What two sessions say to each other about channels: the message one call puts on channel 0,
 * cut into frames as it may be, is read whole at the other end and raises exactly the event it
 * is meant to raise there.
 */
module Dialogues {
  import opened Octets
  import opened Window
  import opened Frames
  import opened Flow
  import opened Replies
  import opened SessionSteps
  import SS = SessionSteps
  import Codec
  import T = Tables
  import N = Transport
  import W = TwoWay
  import C = Connections
  import M = Management
  import RoundTrips

  // ---- one message on channel 0, frame by frame --------------------------------------

  /** The frames of one message: only the last is complete. */
  ghost predicate Whole(fs: seq<DataFrame>)
  {
    fs != [] && (forall i :: 0 <= i < |fs| - 1 ==> fs[i].more) && !fs[|fs| - 1].more
  }

  ghost predicate AllSound(fs: seq<DataFrame>)
  {
    forall i :: 0 <= i < |fs| ==> fs[i].Valid()
  }

  lemma {:induction false} ChunksWhole(number: U32, m: Message, seqno: U32, limit: U32, body: Bytes)
    requires 1 <= limit <= MAX_FRAME_SIZE && body != [] && WellFormed(number, m)
    ensures Whole(Chunks(number, m, seqno, limit, body, false)) && AllSound(Chunks(number, m, seqno, limit, body, false))
    decreases |body|
  {
    var take := Min(limit, |body|);
    if take < |body| {
      ChunksWhole(number, m, Advance(seqno, take), limit, body[take..]);
    } else {
      assert body[take..] == [];
    }
  }

  /** A message that leaves nothing in the queue went out whole. */
  lemma {:induction false} FlushWhole(tx: Sender, m: Message, maxFrameSize: U32)
    requires WellFormed(tx.number, m) && Flow.Flush(tx, [m], maxFrameSize).queue == []
    ensures Whole(Flow.Flush(tx, [m], maxFrameSize).frames) && AllSound(Flow.Flush(tx, [m], maxFrameSize).frames)
    ensures C.AllOf(Flow.Flush(tx, [m], maxFrameSize).frames, tx.number)
  {
    hide Emit;
    C.FlushOf(tx, [m], maxFrameSize);
    if Idle(tx, [m]) {
      FlushIdle(tx, [m], maxFrameSize);
    } else {
      FlushStep(tx, [m], maxFrameSize);
      var e := Emit(tx, m, maxFrameSize).value;
      FlushIdle(e.tx, Behind([m], e.remaining), maxFrameSize);
      EmitWhole(tx, m, maxFrameSize);
      assert e.frames + [] == e.frames;
    }
  }

  lemma {:induction false} EmitWhole(tx: Sender, m: Message, maxFrameSize: U32)
    requires WellFormed(tx.number, m) && Emit(tx, m, maxFrameSize).Ok? && Emit(tx, m, maxFrameSize).value.remaining == []
    ensures Whole(Emit(tx, m, maxFrameSize).value.frames) && AllSound(Emit(tx, m, maxFrameSize).value.frames)
  {
    if m.payload != [] {
      ChunksWhole(tx.number, m, tx.next, ChunkLimit(maxFrameSize), m.payload[..Min(tx.Writable(), |m.payload|)]);
    }
  }

  // ---- two ends in touch -------------------------------------------------------------

  /** What `a` writes on channel 0 carries on from what `b` has received of it; `seqs` are on their way back. */
  ghost predicate InTouch(c: Config, a: Snapshot, b: Snapshot, seqs: seq<SeqFrame>)
  {
    && 0 in a.views && 0 in b.views
    && exists net, k :: Bridges(c, a, b, seqs, net, k)
  }

  ghost predicate Bridges(c: Config, a: Snapshot, b: Snapshot, seqs: seq<SeqFrame>, net: N.Net, k: N.Counts)
    requires 0 in a.views && 0 in b.views
  {
    N.Refines(net, k, c.maxFrameSize) && C.Carries(net, a.views[0], b.views[0]) && net.data == [] && net.seqs == seqs
  }

  /** Nothing but the receiving half of channel 0 and the frames written tell `b'` from `b`. */
  ghost predicate OnlyReceived(b: Snapshot, b': Snapshot)
  {
    && b'.table == b.table && b'.events == b.events && b.written <= b'.written && b'.views.Keys == b.views.Keys
    && 0 in b.views && (forall n :: n in b.views && n != 0 ==> b'.views[n] == b.views[n])
    && b'.views[0] == b.views[0].(rx := b'.views[0].rx, unacked := b'.views[0].unacked)
  }

  lemma {:induction false} AtRestNet(net: N.Net, k: N.Counts, maxFrameSize: U32)
    requires N.Refines(net, k, maxFrameSize) && net.data == [] && net.queue == []
    ensures net.sent == net.delivered && net.rx.partial == None
  {
  }

  lemma {:induction false} FirstFrame(fs: seq<DataFrame>)
    requires fs != []
    ensures AsFrames(fs) != [] && AsFrames(fs)[0] == Data(fs[0]) && AsFrames(fs)[1..] == AsFrames(fs[1..])
  {
    assert fs == [fs[0]] + fs[1..];
    AsFramesAppend([fs[0]], fs[1..]);
    assert AsFrames([fs[0]]) == AsFrames([]) + [Data(fs[0])];
  }

  lemma {:induction false} SoundFrames(fs: seq<DataFrame>)
    requires AllSound(fs)
    ensures Codec.AllValid(AsFrames(fs))
    decreases |fs|
  {
    if fs != [] {
      SoundFrames(fs[..|fs| - 1]);
    }
  }

  /** One frame on channel 0 of a session past its greeting. */
  lemma {:induction false} ZeroStep(c: Config, b: Snapshot, net: N.Net, k: N.Counts, maxFrameSize: U32) returns (b': Snapshot, net': N.Net, k': N.Counts)
    requires Rested(b) && !b.table.phase.AwaitingGreeting? && N.Refines(net, k, maxFrameSize)
    requires net.data != [] && net.data[0].Valid() && net.data[0].channel == 0
    requires 0 in b.views && net.rx == b.views[0].rx && net.unacked == b.views[0].unacked
    ensures N.Receive(net) == Ok(net') && N.Refines(net', k', maxFrameSize)
    ensures Rested(b') && OnlyReceived(b, b') && b'.views[0].rx == net'.rx && b'.views[0].unacked == net'.unacked
    ensures net'.seqs == net.seqs + W.SeqsOn(C.Added(b, b'))
    ensures net.data[0].more ==> net'.delivered == net.delivered && OnFrame(c, b, Data(net.data[0])) == Ok(b')
    ensures !net.data[0].more ==>
      && |net'.delivered| == |net.delivered| + 1 && net'.delivered[..|net.delivered|] == net.delivered
      && var m := net'.delivered[|net.delivered|];
         OnFrame(c, b, Data(net.data[0])) ==
           if c.wire.read(m.payload).None? then Failed(NotBeepXml) else Dispatch(c, b', m.kind, m.msgno, c.wire.read(m.payload).value)
  {
    hide Rested, N.Refines, TakeFrame, Dispatch, N.Receive;
    var f := net.data[0];
    net', k' := NetStep(net, k, maxFrameSize);
    var taken := TakeFrame(net.rx, net.unacked, f);
    b' := Taking(b, 0, f).value.0;
    TakingRests(b, 0, f);
    C.AddedIs(b, b', SeqOf(taken.0));
  }

  /** The same, seen from the wire. */
  lemma {:induction false} NetStep(net: N.Net, k: N.Counts, maxFrameSize: U32) returns (net': N.Net, k': N.Counts)
    requires N.Refines(net, k, maxFrameSize) && net.data != [] && |net.data[0].payload| <= MAX_FRAME_SIZE
    ensures N.Receive(net) == Ok(net') && N.Refines(net', k', maxFrameSize)
    ensures
      var f := net.data[0];
      var (taken, outcome) := TakeFrame(net.rx, net.unacked, f);
      && taken.outcome.Ok? && outcome.Ok? && (outcome.value.None? <==> f.more)
      && net'.rx == taken.rx && net'.unacked == taken.unacked && net'.seqs == net.seqs + W.SeqsOn(SeqOf(taken))
      && net'.delivered == net.delivered + if outcome.value.Some? then [outcome.value.value] else []
  {
    hide N.Refines, TakeFrame;
    N.CountsEnough(net, k, maxFrameSize);
    N.StepRefines(net, k, N.DeliverData, maxFrameSize);
    C.ReceiveTakes(net);
    N.AcceptRefines(net, k, maxFrameSize);
    TakenOutcome(net.rx, net.unacked, net.data[0]);
    SeqAdded(net, TakeFrame(net.rx, net.unacked, net.data[0]).0);
    net' := N.Receive(net).value;
    k' := N.Count(net, k, N.DeliverData, maxFrameSize);
  }

  lemma {:induction false} TakenOutcome(rx: Receiver, unacked: U32, f: DataFrame)
    requires |f.payload| <= MAX_FRAME_SIZE
    ensures TakeFrame(rx, unacked, f).1 == Accept(rx, f).outcome
  {
  }

  lemma {:induction false} SeqAdded(net: N.Net, k: Acknowledged)
    requires net.data != [] && |net.data[0].payload| <= MAX_FRAME_SIZE && N.Receive(net).Ok?
    requires k == TakeFrame(net.rx, net.unacked, net.data[0]).0
    ensures N.Receive(net).value.seqs == net.seqs + W.SeqsOn(SeqOf(k))
  {
    hide Accept, Acknowledge;
    if SeqOf(k) != [] {
      assert SeqOf(k)[1..] == [];
      assert W.SeqsOn(SeqOf(k)) == [SeqOf(k)[0].seqf] + W.SeqsOn([]);
    }
  }

  lemma {:induction false} ReceivedTwice(b: Snapshot, b': Snapshot, b'': Snapshot)
    requires OnlyReceived(b, b') && OnlyReceived(b', b'')
    ensures OnlyReceived(b, b'') && W.SeqsOn(C.Added(b, b'')) == W.SeqsOn(C.Added(b, b')) + W.SeqsOn(C.Added(b', b''))
  {
    assert C.Added(b, b'') == C.Added(b, b') + C.Added(b', b'');
    W.OnAppend(C.Added(b, b'), C.Added(b', b''));
  }

  /** A whole message on channel 0 is read as one, and acted upon once. */
  lemma {:induction false} WholeRead(c: Config, b: Snapshot, net: N.Net, k: N.Counts, maxFrameSize: U32, m: Message, mm: M.Message)
    returns (b': Snapshot, net': N.Net, k': N.Counts)
    requires Rested(b) && !b.table.phase.AwaitingGreeting? && N.Refines(net, k, maxFrameSize)
    requires Whole(net.data) && AllSound(net.data) && C.AllOf(net.data, 0) && net.queue == []
    requires 0 in b.views && net.rx == b.views[0].rx && net.unacked == b.views[0].unacked
    requires net.sent == net.delivered + [m] && c.wire.read(m.payload) == Some(mm)
    ensures Codec.AllValid(AsFrames(net.data)) && Rested(b') && OnlyReceived(b, b')
    ensures OnFrames(c, b, AsFrames(net.data)) == Dispatch(c, b', m.kind, m.msgno, mm)
    ensures N.Refines(net', k', maxFrameSize) && net'.data == [] && net'.tx == net.tx && net'.queue == []
    ensures net'.rx == b'.views[0].rx && net'.unacked == b'.views[0].unacked && net'.seqs == net.seqs + W.SeqsOn(C.Added(b, b'))
    decreases |net.data|
  {
    hide Rested, N.Refines, OnFrame, Dispatch, Accept, Acknowledge;
    var f := net.data[0];
    SoundFrames(net.data);
    FirstFrame(net.data);
    var b1, net1, k1 := ZeroStep(c, b, net, k, maxFrameSize);
    if |net.data| == 1 {
      assert net1.data == [];
      AtRestNet(net1, k1, maxFrameSize);
      assert net1.sent == net.sent;
      assert net1.delivered[|net.delivered|] == m;
      assert AsFrames(net.data)[1..] == [];
      b', net', k' := b1, net1, k1;
    } else {
      assert f.more;
      b', net', k' := WholeRead(c, b1, net1, k1, maxFrameSize, m, mm);
      ReceivedTwice(b, b1, b');
      Associate(net.seqs, W.SeqsOn(C.Added(b, b1)), W.SeqsOn(C.Added(b1, b')));
    }
  }

  // ---- one message, from one session to the other ------------------------------------

  /** What one end writes the other reads, for every message that can come back from text. */
  ghost predicate Understands(teller: Config, hearer: Config)
  {
    forall m :: RoundTrips.Returns(m) ==> hearer.wire.read(teller.wire.write(m)) == Some(m)
  }

  /** Two sessions past their greetings, `a` with nothing waiting on channel 0, in touch from `a` to `b`. */
  ghost predicate Talking(ca: Config, a: Snapshot, cb: Config, b: Snapshot, seqs: seq<SeqFrame>)
  {
    && Rested(a) && Rested(b) && !b.table.phase.AwaitingGreeting? && Understands(ca, cb)
    && InTouch(ca, a, b, seqs) && a.views[0].queue == []
  }

  lemma {:induction false} FitsGoes(tx: Sender, m: Message, maxFrameSize: U32)
    requires WellFormed(tx.number, m) && |m.payload| <= tx.Writable()
    ensures Flow.Flush(tx, [m], maxFrameSize).queue == []
  {
    hide Chunks;
  }

  /** What `a` wrote to become `a'` makes `b` act upon one message, and the two stay in touch. */
  ghost predicate Carried(ca: Config, a: Snapshot, a': Snapshot, cb: Config, b: Snapshot, b': Snapshot, seqs: seq<SeqFrame>,
                          kind: FrameKind, msgno: U32, mm: M.Message)
    requires Rested(b)
  {
    && Codec.AllValid(C.Added(a, a')) && Rested(b') && OnlyReceived(b, b')
    && OnFrames(cb, b, C.Added(a, a')) == Dispatch(cb, b', kind, msgno, mm)
    && InTouch(ca, a', b', seqs + W.SeqsOn(C.Added(b, b')))
  }

  /** A message told on channel 0, nothing else waiting there, is read and acted upon at the other end. */
  lemma {:induction false} Told(ca: Config, a: Snapshot, a': Snapshot, cb: Config, b: Snapshot, seqs: seq<SeqFrame>, m: Message, mm: M.Message)
    returns (b': Snapshot)
    requires Talking(ca, a, cb, b, seqs) && WellFormed(0, m) && cb.wire.read(m.payload) == Some(mm)
    requires ZeroReady(a) && a' == Telling(ca, a, m) && 0 in a'.views && a'.views[0].queue == []
    ensures Carried(ca, a, a', cb, b, b', seqs, m.kind, m.msgno, mm)
  {
    hide Rested, N.Refines, Dispatch, OnFrames, Understands, Flow.Flush, AsFrames;
    var net, k :| Bridges(ca, a, b, seqs, net, k);
    RestedAt(a, 0);
    var v := a.views[0];
    assert v.queue + [m] == [m];
    AtRestNet(net, k, ca.maxFrameSize);
    FlushWhole(v.tx, m, ca.maxFrameSize);
    C.FlushingOf(ca, a, 0, v, v.tx, [m], 0);
    N.CountsEnough(net, k, ca.maxFrameSize);
    N.StepRefines(net, k, N.Send(m), ca.maxFrameSize);
    var sent := N.Next(net, N.Send(m), ca.maxFrameSize).value;
    var r := Flow.Flush(v.tx, [m], ca.maxFrameSize);
    assert sent == net.(tx := r.tx, queue := r.queue, data := r.frames, sent := net.sent + [m]) by {
      assert net.queue + [m] == [m] && net.data + r.frames == r.frames;
    }
    var net', k';
    b', net', k' := WholeRead(cb, b, sent, N.Count(net, k, N.Send(m), ca.maxFrameSize), ca.maxFrameSize, m, mm);
    assert Bridges(ca, a', b', seqs + W.SeqsOn(C.Added(b, b')), net', k');
  }

  /** Being in touch is a matter of the two halves of channel 0 alone. */
  lemma {:induction false} StillInTouch(c: Config, a: Snapshot, b: Snapshot, seqs: seq<SeqFrame>, a': Snapshot, b': Snapshot)
    requires InTouch(c, a, b, seqs) && 0 in a'.views && 0 in b'.views
    requires a'.views[0].tx == a.views[0].tx && a'.views[0].queue == a.views[0].queue
    requires b'.views[0].rx == b.views[0].rx && b'.views[0].unacked == b.views[0].unacked
    ensures InTouch(c, a', b', seqs)
  {
    hide N.Refines;
    var net, k :| Bridges(c, a, b, seqs, net, k);
    assert Bridges(c, a', b', seqs, net, k);
  }

  /** A management message that the teller writes from `a0`, which differs from `a` in its table and its other channels at most. */
  lemma {:induction false} Conveyed(ca: Config, a: Snapshot, a0: Snapshot, a': Snapshot, cb: Config, b: Snapshot, seqs: seq<SeqFrame>,
                                    kind: FrameKind, msgno: U32, mm: M.Message) returns (b': Snapshot)
    requires Talking(ca, a, cb, b, seqs) && Rested(a0) && ZeroReady(a0) && a0.views[0] == a.views[0] && a0.written == a.written
    requires msgno <= MAX_MSG_NO && !kind.HasAnsNo() && RoundTrips.Returns(mm)
    requires a' == WriteZero(ca, a0, kind, msgno, mm) && 0 in a'.views && a'.views[0].queue == []
    ensures Carried(ca, a, a', cb, b, b', seqs, kind, msgno, mm)
  {
    hide Rested, Dispatch, OnFrames, InTouch, Telling, OnlyReceived, Codec.AllValid, RoundTrips.Returns;
    HasZero(b);
    StillInTouch(ca, a, b, seqs, a0, b);
    b' := Told(ca, a0, a', cb, b, seqs, Message(kind, msgno, None, ca.wire.write(mm)), mm);
  }

  lemma {:induction false} HasZero(s: Snapshot)
    requires Rested(s)
    ensures 0 in s.views
  {
  }

  // ---- requests ----------------------------------------------------------------------

  /** Numbered channels other than `n` are as they were, and no other has appeared. */
  ghost predicate OthersKept(n: U32, s: Snapshot, s': Snapshot)
  {
    && s'.views.Keys <= s.views.Keys + {n}
    && forall k :: k in s.views && k != n && k != 0 ==> k in s'.views && s'.views[k] == s.views[k]
  }

  /** A request under a message number of its own: the table notes it, and nothing else but channel 0 moves. */
  ghost predicate Asks(a: Snapshot, a': Snapshot, msgno: U32, p: T.Pending)
  {
    && msgno <= MAX_MSG_NO && msgno !in a.table.pending && a'.table.pending == a.table.pending[msgno := p]
    && a'.table.open == a.table.open && a'.events == a.events && OthersKept(0, a, a')
  }

  /** The other end hears it: it reports `e`, and nothing else but channel 0 moves there; the two stay in touch. */
  ghost predicate HearsOnly(ca: Config, a: Snapshot, a': Snapshot, cb: Config, b: Snapshot, b': Snapshot, seqs: seq<SeqFrame>, e: Event)
    requires Rested(b)
  {
    && Codec.AllValid(C.Added(a, a')) && OnFrames(cb, b, C.Added(a, a')) == Ok(b') && Rested(b')
    && b'.events == b.events + [e] && b'.table == b.table && OthersKept(0, b, b')
    && InTouch(ca, a', b', seqs + W.SeqsOn(C.Added(b, b')))
  }

  /** A message that only raises an event. */
  lemma {:induction false} EventHeard(ca: Config, a: Snapshot, a': Snapshot, cb: Config, b: Snapshot, b1: Snapshot, seqs: seq<SeqFrame>,
                                      kind: FrameKind, msgno: U32, mm: M.Message, e: Event) returns (b': Snapshot)
    requires Rested(b) && Carried(ca, a, a', cb, b, b1, seqs, kind, msgno, mm)
    requires Dispatch(cb, b1, kind, msgno, mm) == Ok(b1.(events := b1.events + [e]))
    ensures HearsOnly(ca, a, a', cb, b, b', seqs, e)
  {
    hide Rested, OnFrames, InTouch, Codec.AllValid, Dispatch;
    b' := b1.(events := b1.events + [e]);
    DispatchRests(cb, b1, kind, msgno, mm);
    InTouchZero(ca, a', b1, seqs + W.SeqsOn(C.Added(b, b1)));
    StillInTouch(ca, a', b1, seqs + W.SeqsOn(C.Added(b, b1)), a', b');
  }

  lemma {:induction false} InTouchZero(c: Config, a: Snapshot, b: Snapshot, seqs: seq<SeqFrame>)
    requires InTouch(c, a, b, seqs)
    ensures 0 in a.views && 0 in b.views
  {
  }

  /**
   * `close_channel`: under a message number of its own the other end is asked to close that very
   * channel. It reports so, and nothing else happens at either end.
   */
  lemma {:induction false} AskedToClose(ca: Config, a: Snapshot, cb: Config, b: Snapshot, seqs: seq<SeqFrame>, n: U32, a': Snapshot)
    returns (msgno: U32, b': Snapshot)
    requires Talking(ca, a, cb, b, seqs) && Steps(ca, a, Call.CloseChannel(n), a') && a' != a && 0 in a'.views && a'.views[0].queue == []
    ensures Asks(a, a', msgno, T.Close(n)) && HearsOnly(ca, a, a', cb, b, b', seqs, CloseRequested(n, msgno))
  {
    hide Rested, OnFrames, WriteZero, InTouch, Understands, T.Sound, Carried, HearsOnly, T.Enabled;
    msgno :| T.Enabled(a.table, T.CloseChannel(n, msgno)) && msgno <= MAX_MSG_NO && SS.Close(ca, a, n, msgno) == Ok(a');
    var mm := M.Close(n, 200, None, None);
    var a0 := a.(table := T.Next(a.table, T.CloseChannel(n, msgno)).value);
    RequestRests(ca, a, T.CloseChannel(n, msgno), msgno, mm);
    var b1 := Conveyed(ca, a, a0, a', cb, b, seqs, Msg, msgno, mm);
    Requested(ca, a0, Msg, msgno, mm);
    RestedSound(a);
    FreshRequest(a.table, T.CloseChannel(n, msgno));
    CarriedZero(ca, a, a', cb, b, b1, seqs, Msg, msgno, mm);
    b' := EventHeard(ca, a, a', cb, b, b1, seqs, Msg, msgno, mm, CloseRequested(n, msgno));
  }

  lemma {:induction false} CarriedZero(ca: Config, a: Snapshot, a': Snapshot, cb: Config, b: Snapshot, b': Snapshot, seqs: seq<SeqFrame>,
                                       kind: FrameKind, msgno: U32, mm: M.Message)
    requires Rested(b) && Carried(ca, a, a', cb, b, b', seqs, kind, msgno, mm)
    ensures 0 in b'.views
  {
  }

  lemma {:induction false} FreshRequest(t: T.Table, step: T.Step)
    requires T.Sound(t) && T.Enabled(t, step) && (step.StartChannel? || step.CloseChannel?)
    ensures step.msgno !in t.pending
  {
  }

  /** Writing on channel 0 touches no other channel, no event and no table. */
  lemma {:induction false} Requested(c: Config, a0: Snapshot, kind: FrameKind, msgno: U32, mm: M.Message)
    requires ZeroReady(a0) && msgno <= MAX_MSG_NO && !kind.HasAnsNo()
    ensures
      var a' := WriteZero(c, a0, kind, msgno, mm);
      OthersKept(0, a0, a') && a'.table == a0.table && a'.events == a0.events && a'.views.Keys == a0.views.Keys
  {
  }

  /** `start_channel`: the other end is asked for the next channel number of this end, which is not open here. */
  lemma {:induction false} AskedToStart(ca: Config, a: Snapshot, cb: Config, b: Snapshot, seqs: seq<SeqFrame>, profile: M.Profile, a': Snapshot)
    returns (msgno: U32, b': Snapshot)
    requires Talking(ca, a, cb, b, seqs) && RoundTrips.ContentReturns(profile.content)
    requires Steps(ca, a, Call.StartChannel(profile), a') && a' != a && 0 in a'.views && a'.views[0].queue == []
    ensures
      var n := a.table.nextChannel;
      && Asks(a, a', msgno, T.Start(n)) && n !in a.views && HearsOnly(ca, a, a', cb, b, b', seqs, StartRequested(n, msgno))
  {
    hide Rested, OnFrames, WriteZero, InTouch, Understands, T.Sound, Carried, HearsOnly, T.Enabled;
    msgno :| T.Enabled(a.table, T.StartChannel(msgno)) && msgno <= MAX_MSG_NO && SS.Start(ca, a, profile, msgno) == Ok(a');
    var n := a.table.nextChannel;
    var mm := M.Start(n, None, [profile]);
    var a0 := a.(table := T.Next(a.table, T.StartChannel(msgno)).value);
    RequestRests(ca, a, T.StartChannel(msgno), msgno, mm);
    var b1 := Conveyed(ca, a, a0, a', cb, b, seqs, Msg, msgno, mm);
    Requested(ca, a0, Msg, msgno, mm);
    RestedSound(a);
    FreshRequest(a.table, T.StartChannel(msgno));
    NextIsNew(a, msgno);
    CarriedZero(ca, a, a', cb, b, b1, seqs, Msg, msgno, mm);
    b' := EventHeard(ca, a, a', cb, b, b1, seqs, Msg, msgno, mm, StartRequested(n, msgno));
  }

  lemma {:induction false} NextIsNew(a: Snapshot, msgno: U32)
    requires Rested(a) && a.table.phase.Ready? && T.Enabled(a.table, T.StartChannel(msgno))
    ensures a.table.nextChannel !in a.views
  {
    T.OwnsNext(a.table.role, a.table.issued);
    T.OwnOnly(a.table, a.table.nextChannel);
  }

  // ---- answers -----------------------------------------------------------------------

  /** The end that asked hears the answer: the request is settled, it reports `e`, and the two stay in touch. */
  ghost predicate Settles(ca: Config, a: Snapshot, a': Snapshot, cb: Config, b: Snapshot, b': Snapshot, msgno: U32, e: Event)
    requires Rested(b)
  {
    && Codec.AllValid(C.Added(a, a')) && OnFrames(cb, b, C.Added(a, a')) == Ok(b') && Rested(b')
    && b'.events == b.events + [e] && b'.table.pending == b.table.pending - {msgno}
  }

  /** Channel `n` is new at this end, as if it had never been used, and no other has moved. */
  ghost predicate Opens(c: Config, s: Snapshot, s': Snapshot, n: U32, origin: T.Origin)
  {
    && n != 0 && n !in s.views && n in s'.views && s'.views[n] == FreshView(n, c.windowSize)
    && s'.table.open == s.table.open[n := origin] && OthersKept(n, s, s')
  }

  /** Channel `n` is gone at this end, or all of them with channel 0, and what that had still to say; no other has moved. */
  ghost predicate Closes(s: Snapshot, s': Snapshot, n: U32)
  {
    if n == 0 then
      && s'.views.Keys == {0} && s'.table.open == map[] && s'.table.phase.Closed?
      && s'.views[0].queue == [] && s'.views[0].buffer.order == [] && s'.views[0].buffer.held == map[]
    else n !in s'.views && s'.table.open == s.table.open - {n} && s'.table.phase == s.table.phase && OthersKept(n, s, s')
  }

  lemma {:induction false} ReplyHeard(ca: Config, a: Snapshot, a': Snapshot, cb: Config, b: Snapshot, b1: Snapshot, seqs: seq<SeqFrame>,
                                      kind: FrameKind, msgno: U32, mm: M.Message, e: Event) returns (b': Snapshot)
    requires Rested(b) && Carried(ca, a, a', cb, b, b1, seqs, kind, msgno, mm) && 0 in b1.views
    requires Dispatch(cb, b1, kind, msgno, mm).Ok? && Dispatch(cb, b1, kind, msgno, mm).value.events == b1.events + [e]
    requires Dispatch(cb, b1, kind, msgno, mm).value.table.pending == b1.table.pending - {msgno}
    ensures b' == Dispatch(cb, b1, kind, msgno, mm).value && Settles(ca, a, a', cb, b, b', msgno, e)
  {
    hide Rested, OnFrames, InTouch, Codec.AllValid, Dispatch;
    b' := Dispatch(cb, b1, kind, msgno, mm).value;
    DispatchRests(cb, b1, kind, msgno, mm);
  }

  lemma {:induction false} PendingNew(b: Snapshot, msgno: U32, n: U32)
    requires Rested(b) && msgno in b.table.pending && b.table.pending[msgno] == T.Start(n)
    ensures n != 0 && n !in b.views
  {
    StartNew(b.table, msgno);
  }

  /**
   * `accept_start`: the channel is new at both ends, opened by the end that asked, which reports
   * it; no other channel moves.
   */
  lemma {:induction false} StartAccepted(ca: Config, a: Snapshot, cb: Config, b: Snapshot, seqs: seq<SeqFrame>,
                                         n: U32, msgno: U32, profile: M.Profile, a': Snapshot) returns (b': Snapshot)
    requires Talking(ca, a, cb, b, seqs) && RoundTrips.ContentReturns(profile.content)
    requires Steps(ca, a, GrantStart(n, msgno, profile), a') && a' != a && 0 in a'.views && a'.views[0].queue == []
    requires msgno in b.table.pending && b.table.pending[msgno] == T.Start(n)
    ensures Opens(ca, a, a', n, T.Peer) && a'.events == a.events
    ensures Settles(ca, a, a', cb, b, b', msgno, ChannelOpened(n)) && Opens(cb, b, b', n, T.Own)
    ensures InTouch(ca, a', b', seqs + W.SeqsOn(C.Added(b, b')))
  {
    hide Rested, OnFrames, WriteZero, InTouch, Understands, T.Sound, Carried, FreshView, Steps;
    var a0 := GrantedHere(ca, a, n, msgno, profile, a');
    var b1 := Conveyed(ca, a, a0, a', cb, b, seqs, Rpy, msgno, M.Accepted(profile));
    PendingNew(b, msgno, n);
    CarriedFacts(ca, a, a', cb, b, b1, seqs, Rpy, msgno, M.Accepted(profile));
    b' := ReplyHeard(ca, a, a', cb, b, b1, seqs, Rpy, msgno, M.Accepted(profile), ChannelOpened(n));
    AddedSame(b, b1, b');
    StillInTouch(ca, a', b1, seqs + W.SeqsOn(C.Added(b, b1)), a', b');
  }

  /** What accepting a start does where it is accepted. */
  lemma {:induction false} GrantedHere(c: Config, a: Snapshot, n: U32, msgno: U32, profile: M.Profile, a': Snapshot) returns (a0: Snapshot)
    requires Steps(c, a, GrantStart(n, msgno, profile), a') && a' != a
    ensures msgno <= MAX_MSG_NO && 0 in a.views && Rested(a0) && ZeroReady(a0) && a' == WriteZero(c, a0, Rpy, msgno, M.Accepted(profile))
    ensures a0.views[0] == a.views[0] && a0.written == a.written
    ensures Opens(c, a, a', n, T.Peer) && a'.events == a.events
  {
    hide Rested, WriteZero, T.Sound, FreshView;
    RestedSound(a);
    T.StepSound(a.table, T.AcceptStart(n));
    var t := T.Next(a.table, T.AcceptStart(n)).value;
    a0 := Opening(c, a, t, n);
    OpeningRests(c, a, t, n, T.Peer);
    WriteZeroRests(c, a0, Rpy, msgno, M.Accepted(profile));
    Requested(c, a0, Rpy, msgno, M.Accepted(profile));
    NotOpen(a, n);
  }

  lemma {:induction false} NotOpen(a: Snapshot, n: U32)
    requires Rested(a) && n != 0 && n !in a.table.open
    ensures n !in a.views
  {
  }

  lemma {:induction false} AddedSame(b: Snapshot, b1: Snapshot, b': Snapshot)
    requires b'.written == b1.written
    ensures C.Added(b, b') == C.Added(b, b1)
  {
  }

  lemma {:induction false} CarriedFacts(ca: Config, a: Snapshot, a': Snapshot, cb: Config, b: Snapshot, b': Snapshot, seqs: seq<SeqFrame>,
                                        kind: FrameKind, msgno: U32, mm: M.Message)
    requires Rested(b) && Carried(ca, a, a', cb, b, b', seqs, kind, msgno, mm)
    ensures 0 in b'.views && OnlyReceived(b, b') && Rested(b') && InTouch(ca, a', b', seqs + W.SeqsOn(C.Added(b, b')))
  {
  }

  /** `refuse_start` and `refuse_close`: the end that asked reports which it was, and no channel moves at either end. */
  lemma {:induction false} Refused(ca: Config, a: Snapshot, cb: Config, b: Snapshot, seqs: seq<SeqFrame>,
                                   msgno: U32, code: U32, lang: Option<string>, text: Option<string>, a': Snapshot) returns (b': Snapshot)
    requires Talking(ca, a, cb, b, seqs) && RoundTrips.TextReturns(text)
    requires Steps(ca, a, Decline(msgno, M.Refused(code, lang, text)), a') && 0 in a'.views && a'.views[0].queue == []
    requires msgno in b.table.pending
    ensures OthersKept(0, a, a') && a'.table == a.table && a'.events == a.events
    ensures
      var p := b.table.pending[msgno];
      Settles(ca, a, a', cb, b, b', msgno, if p.Start? then StartRefused(p.number) else CloseRefused(p.number))
    ensures OthersKept(0, b, b') && b'.table.open == b.table.open
    ensures InTouch(ca, a', b', seqs + W.SeqsOn(C.Added(b, b')))
  {
    hide Rested, OnFrames, WriteZero, InTouch, Understands, T.Sound, Carried, T.Enabled;
    var mm := M.Refused(code, lang, text);
    WriteZeroRests(ca, a, Err, msgno, mm);
    var b1 := Conveyed(ca, a, a, a', cb, b, seqs, Err, msgno, mm);
    Requested(ca, a, Err, msgno, mm);
    CarriedFacts(ca, a, a', cb, b, b1, seqs, Err, msgno, mm);
    var p := b.table.pending[msgno];
    b' := ReplyHeard(ca, a, a', cb, b, b1, seqs, Err, msgno, mm, if p.Start? then StartRefused(p.number) else CloseRefused(p.number));
    AddedSame(b, b1, b');
    StillInTouch(ca, a', b1, seqs + W.SeqsOn(C.Added(b, b1)), a', b');
  }

  /**
   * `accept_close`, its reply fitting the window: the channel, or the session with channel 0, is
   * gone at both ends, and both report it; no other channel moves.
   */
  lemma {:induction false} CloseAccepted(ca: Config, a: Snapshot, cb: Config, b: Snapshot, seqs: seq<SeqFrame>, n: U32, msgno: U32, a': Snapshot)
    returns (b': Snapshot)
    requires Talking(ca, a, cb, b, seqs) && Steps(ca, a, GrantClose(n, msgno), a')
    requires |ca.wire.write(M.Okay)| <= a.views[0].tx.Writable()
    requires msgno in b.table.pending && b.table.pending[msgno] == T.Close(n)
    ensures Closes(a, a', n) && a'.events == a.events + [if n == 0 then SessionClosed else ChannelClosed(n)]
    ensures Settles(ca, a, a', cb, b, b', msgno, if n == 0 then SessionClosed else ChannelClosed(n)) && Closes(b, b', n)
    ensures n != 0 ==> InTouch(ca, a', b', seqs + W.SeqsOn(C.Added(b, b')))
  {
    hide Rested, OnFrames, WriteZero, InTouch, Understands, T.Sound, Carried, Closes, Steps, Dispatch;
    var a1 := ClosedHere(ca, a, n, msgno, a');
    OkayGoes(ca, a, msgno);
    var b1 := Conveyed(ca, a, a, a1, cb, b, seqs, Rpy, msgno, M.Okay);
    CarriedFacts(ca, a, a1, cb, b, b1, seqs, Rpy, msgno, M.Okay);
    ClosedThere(cb, b, b1, n, msgno);
    b' := ReplyHeard(ca, a, a1, cb, b, b1, seqs, Rpy, msgno, M.Okay, if n == 0 then SessionClosed else ChannelClosed(n));
    AddedSame(b, b1, b');
    AddedSame(a, a1, a');
    if n != 0 {
      StillInTouch(ca, a1, b1, seqs + W.SeqsOn(C.Added(b, b1)), a', b');
    }
  }

  /** What accepting a close does where it is accepted. */
  lemma {:induction false} ClosedHere(c: Config, a: Snapshot, n: U32, msgno: U32, a': Snapshot) returns (a1: Snapshot)
    requires Steps(c, a, GrantClose(n, msgno), a')
    ensures msgno <= MAX_MSG_NO && ZeroReady(a) && a1 == WriteZero(c, a, Rpy, msgno, M.Okay)
    ensures 0 in a1.views && 0 in a'.views && a'.written == a1.written && (n != 0 ==> a'.views[0] == a1.views[0])
    ensures Closes(a, a', n) && a'.events == a.events + [if n == 0 then SessionClosed else ChannelClosed(n)]
  {
    hide Rested, WriteZero, T.Sound;
    WriteZeroRests(c, a, Rpy, msgno, M.Okay);
    WriteZeroKeeps(c, a, Rpy, msgno, M.Okay);
    Requested(c, a, Rpy, msgno, M.Okay);
    a1 := WriteZero(c, a, Rpy, msgno, M.Okay);
    RestedSound(a1);
  }

  /** What hearing of it does where the close was asked for. */
  lemma {:induction false} ClosedThere(c: Config, b: Snapshot, b1: Snapshot, n: U32, msgno: U32)
    requires OnlyReceived(b, b1) && 0 in b1.views && msgno in b.table.pending && b.table.pending[msgno] == T.Close(n)
    ensures
      var r := Dispatch(c, b1, Rpy, msgno, M.Okay);
      && r.Ok? && r.value.events == b1.events + [if n == 0 then SessionClosed else ChannelClosed(n)]
      && r.value.table.pending == b1.table.pending - {msgno} && r.value.written == b1.written
      && Closes(b, r.value, n) && 0 in r.value.views && (n != 0 ==> r.value.views[0] == b1.views[0])
  {
  }

  lemma {:induction false} OkayGoes(c: Config, a: Snapshot, msgno: U32)
    requires Rested(a) && msgno <= MAX_MSG_NO && 0 in a.views && a.views[0].queue == []
    requires |c.wire.write(M.Okay)| <= a.views[0].tx.Writable()
    ensures ZeroReady(a) && 0 in WriteZero(c, a, Rpy, msgno, M.Okay).views && WriteZero(c, a, Rpy, msgno, M.Okay).views[0].queue == []
  {
    hide Rested, Flow.Flush;
    WriteZeroRests(c, a, Rpy, msgno, M.Okay);
    var m := Message(Rpy, msgno, None, c.wire.write(M.Okay));
    assert a.views[0].queue + [m] == [m];
    FitsGoes(a.views[0].tx, m, c.maxFrameSize);
  }

  // ---- what is no part of a dialogue -------------------------------------------------

  /**
   * Which management messages are acted upon: requests; replies to a request of their own kind
   * that is still pending; and refusals of any. Any other reply names its message number, and any
   * other pairing of kind and message is unexpected.
   */
  lemma {:induction false} DispatchExactly(c: Config, s: Snapshot, kind: FrameKind, msgno: U32, m: M.Message)
    requires 0 in s.views
    ensures
      var r := Dispatch(c, s, kind, msgno, m);
      var pending := s.table.pending;
      match (kind, m)
      case (Msg, Start(_, _, _)) => r.Ok?
      case (Msg, Close(_, _, _, _)) => r.Ok?
      case (Rpy, Accepted(_)) => if msgno in pending && pending[msgno].Start? then r.Ok? else r == Failed(UnknownMsgNo(msgno))
      case (Rpy, Okay) => if msgno in pending && pending[msgno].Close? then r.Ok? else r == Failed(UnknownMsgNo(msgno))
      case (Err, Refused(_, _, _)) => if msgno in pending then r.Ok? else r == Failed(UnknownMsgNo(msgno))
      case _ => r == Failed(UnexpectedElement)
  {
  }

  /** A frame for a channel that is not open is refused, whatever it is. */
  lemma {:induction false} UnknownChannel(c: Config, s: Snapshot, f: Frame)
    requires Rested(s) && f.Valid() && C.ChannelOf(f) != 0 && C.ChannelOf(f) !in s.table.open
    ensures OnFrame(c, s, f) == Failed(NoSuchChannel(C.ChannelOf(f)))
  {
    NotOpen(s, C.ChannelOf(f));
  }

  // ---- getting and staying in touch --------------------------------------------------

  /** A SEQ on its way back arrives: the two stay in touch, and what it lets through is written. */
  lemma {:induction false} SeqHeard(ca: Config, a: Snapshot, b: Snapshot, seqs: seq<SeqFrame>) returns (a': Snapshot)
    requires Rested(a) && InTouch(ca, a, b, seqs) && seqs != [] && seqs[0].Valid() && seqs[0].channel == 0 && a.views[0].queue == []
    ensures OnFrame(ca, a, Seq(seqs[0])) == Ok(a') && Rested(a') && InTouch(ca, a', b, seqs[1..])
    ensures a'.written == a.written && a'.table == a.table && a'.events == a.events && a'.views.Keys == a.views.Keys
  {
    hide Rested, N.Refines, Flow.Flush, AsFrames;
    var net, k :| Bridges(ca, a, b, seqs, net, k);
    RestedAt(a, 0);
    var v := a.views[0];
    var tx := ApplySeq(v.tx, seqs[0]);
    N.CountsEnough(net, k, ca.maxFrameSize);
    N.StepRefines(net, k, N.DeliverSeq, ca.maxFrameSize);
    FlushIdle(tx, [], ca.maxFrameSize);
    NoFrames();
    OnFrameRests(ca, a, Seq(seqs[0]));
    a' := OnFrame(ca, a, Seq(seqs[0])).value;
    assert a.written + [] == a.written && net.data + [] == net.data;
    assert Bridges(ca, a', b, seqs[1..], N.Next(net, N.DeliverSeq, ca.maxFrameSize).value, N.Count(net, k, N.DeliverSeq, ca.maxFrameSize));
  }

  lemma {:induction false} NoFrames()
    ensures AsFrames([]) == []
  {
  }

  /** The greeting as the first frame of a session. */
  function GreetingFrame(greeting: Bytes): DataFrame { DataFrame(Rpy, 0, 0, false, 0, None, greeting) }

  /** A window wider than the peer assumes is announced behind the greeting. */
  function Announcement(c: Config): seq<SeqFrame>
  {
    if 4096 < c.windowSize <= 2_147_483_647 then [SeqFrame(0, 0, c.windowSize)] else []
  }

  /** A greeting that is one frame: no larger than the first window nor than the size configured. */
  predicate OneFrame(c: Config, greeting: Bytes)
  {
    |greeting| <= 4096 && (|greeting| <= c.maxFrameSize || |greeting| <= 1)
  }

  lemma {:induction false} GreetingFlushed(c: Config, greeting: Bytes)
    requires OneFrame(c, greeting)
    ensures
      var tx := FreshView(0, c.windowSize).tx;
      Flow.Flush(tx, [Message(Rpy, 0, None, greeting)], c.maxFrameSize)
        == Flushed(tx.(next := |greeting|), [], [GreetingFrame(greeting)])
  {
    var tx := FreshView(0, c.windowSize).tx;
    var m := Message(Rpy, 0, None, greeting);
    assert tx.Writable() == 4096 && WellFormed(0, m);
    if greeting != [] {
      assert greeting[..|greeting|] == greeting && greeting[|greeting|..] == [];
      assert Chunks(0, m, 0, ChunkLimit(c.maxFrameSize), greeting, false) == [GreetingFrame(greeting)] + [];
    }
    assert [m][1..] == [];
    FlushIdle(tx.(next := |greeting|), [], c.maxFrameSize);
  }

  /** A new session writes its greeting, in one frame if it fits, and then its announcement if there is one. */
  lemma {:induction false} NewSession(c: Config, greeting: Bytes)
    requires OneFrame(c, greeting)
    ensures ZeroReady(Begun(c))
    ensures
      var s := Announcing(c, Begun(c), greeting);
      && s.written == [Data(GreetingFrame(greeting))] + W.AsSeqs(Announcement(c)) && s.events == []
      && s.table.phase.AwaitingGreeting? && s.views.Keys == {0} && s.views[0].queue == []
      && s.views[0].tx == Sender(0, Window(0, 4096), |greeting|) && s.views[0].rx == Receiver(0, Window(0, c.windowSize), 0, None)
      && s.views[0].unacked == 0
  {
    BegunRests(c);
    var v := FreshView(0, c.windowSize);
    var m := Message(Rpy, 0, None, greeting);
    GreetingFlushed(c, greeting);
    hide Flow.Flush;
    assert v.queue + [m] == [m];
    var fs := [GreetingFrame(greeting)];
    assert fs[..0] == [] && AsFrames(fs) == AsFrames([]) + [Data(fs[0])];
    if Announcement(c) != [] {
      assert Announcement(c)[1..] == [];
      assert W.AsSeqs(Announcement(c)) == [Seq(Announcement(c)[0])] + W.AsSeqs([]);
    }
  }

  /**
   * A new session's greeting reaches another: that one is ready and says so, and the two are in
   * touch from then on.
   */
  lemma {:induction false} GreetingHeard(ca: Config, greeting: Bytes, cb: Config, b: Snapshot) returns (b': Snapshot)
    requires OneFrame(ca, greeting) && ZeroReady(Begun(ca)) && cb.wire.greets(greeting)
    requires Rested(b) && b.table.phase.AwaitingGreeting? && cb.windowSize <= MAX_FRAME_SIZE && N.Roomy(cb.windowSize, ca.maxFrameSize)
    requires 0 in b.views && b.views[0].rx == FreshView(0, cb.windowSize).rx && b.views[0].unacked == 0
    ensures OnFrame(cb, b, Data(GreetingFrame(greeting))) == Ok(b') && Rested(b')
    ensures b'.events == b.events + [GreetingReceived] && b'.table == b.table.(phase := T.Ready) && b'.views.Keys == b.views.Keys
    ensures b'.views[0].tx == b.views[0].tx && b'.views[0].queue == b.views[0].queue
    ensures InTouch(ca, Announcing(ca, Begun(ca), greeting), b', Announcement(cb) + W.SeqsOn(C.Added(b, b')))
  {
    hide Rested, N.Refines, TakeFrame, N.Receive, Flow.Flush;
    var a := Announcing(ca, Begun(ca), greeting);
    NewSession(ca, greeting);
    var m := Message(Rpy, 0, None, greeting);
    var start := N.Fresh(0, cb.windowSize).(seqs := Announcement(cb));
    N.FreshRefines(0, cb.windowSize, ca.maxFrameSize);
    assert N.Refines(start, N.StartCounts(start), ca.maxFrameSize);
    N.CountsEnough(start, N.StartCounts(start), ca.maxFrameSize);
    N.StepRefines(start, N.StartCounts(start), N.Send(m), ca.maxFrameSize);
    GreetingFlushed(ca, greeting);
    var sent := N.Next(start, N.Send(m), ca.maxFrameSize).value;
    assert [] + [m] == [m] && [] + [GreetingFrame(greeting)] == [GreetingFrame(greeting)];
    assert sent.data == [GreetingFrame(greeting)] && sent.queue == [] && sent.tx == a.views[0].tx && sent.seqs == start.seqs;
    var net, k := NetStep(sent, N.Count(start, N.StartCounts(start), N.Send(m), ca.maxFrameSize), ca.maxFrameSize);
    var f := GreetingFrame(greeting);
    NetMoved(sent);
    b' := OnFrame(cb, b, Data(f)).value;
    OnFrameRests(cb, b, Data(f));
    C.AddedIs(b, b', SeqOf(TakeFrame(sent.rx, sent.unacked, f).0));
    assert Bridges(ca, a, b', Announcement(cb) + W.SeqsOn(C.Added(b, b')), net, k);
  }

  lemma {:induction false} NetMoved(net: N.Net)
    requires net.data != [] && |net.data[0].payload| <= MAX_FRAME_SIZE && N.Receive(net).Ok?
    ensures N.Receive(net).value.data == net.data[1..] && N.Receive(net).value.tx == net.tx && N.Receive(net).value.queue == net.queue
  {
    hide Accept, Acknowledge;
  }

  /** A greeting that is more than one frame, or cut short by the window, begins with a frame that is to be continued. */
  lemma {:induction false} LongGreeting(c: Config, greeting: Bytes)
    requires !OneFrame(c, greeting)
    ensures ZeroReady(Begun(c))
    ensures
      var s := Announcing(c, Begun(c), greeting);
      s.written != [] && s.written[0].Data? && s.written[0].data.more && s.written[0].data.channel == 0 && s.written[0].Valid()
  {
    BegunRests(c);
    var v := FreshView(0, c.windowSize);
    var m := Message(Rpy, 0, None, greeting);
    assert v.queue + [m] == [m] && v.tx.Writable() == 4096 && WellFormed(0, m);
    FlushStep(v.tx, [m], c.maxFrameSize);
    var e := Emit(v.tx, m, c.maxFrameSize).value;
    var cut := Min(4096, |greeting|);
    var limit := ChunkLimit(c.maxFrameSize);
    assert e.frames == Chunks(0, m, 0, limit, greeting[..cut], greeting[cut..] != []);
    assert e.frames[0] == DataFrame(Rpy, 0, 0, Min(limit, cut) < cut || greeting[cut..] != [], 0, None, greeting[..cut][..Min(limit, cut)]);
    hide Flow.Flush, Emit, Chunks;
    FirstFrame(Flow.Flush(v.tx, [m], c.maxFrameSize).frames);
  }

  /** What a new session writes first. */
  function FirstWritten(c: Config, greeting: Bytes): Option<Frame>
  {
    BegunRests(c);
    AnnouncingRests(c, Begun(c), greeting);
    var fs := Announcing(c, Begun(c), greeting).written;
    if fs == [] then None else Some(fs[0])
  }

  /**
   * Whether a new session's greeting is understood: if and only if it fits one frame, that is, the
   * first window and the size configured. A longer one is paced, but refused by its first frame.
   */
  lemma {:induction false} GreetingExactly(ca: Config, greeting: Bytes, cb: Config, b: Snapshot)
    requires cb.wire.greets(greeting) && Rested(b) && b.table.phase.AwaitingGreeting?
    requires cb.windowSize <= MAX_FRAME_SIZE && N.Roomy(cb.windowSize, ca.maxFrameSize)
    requires 0 in b.views && b.views[0].rx == FreshView(0, cb.windowSize).rx && b.views[0].unacked == 0
    ensures FirstWritten(ca, greeting).Some? && FirstWritten(ca, greeting).value.Valid()
    ensures
      var r := OnFrame(cb, b, FirstWritten(ca, greeting).value);
      (OneFrame(ca, greeting) <==> r.Ok?) && (!OneFrame(ca, greeting) ==> r == Failed(NotAGreeting))
  {
    hide Rested, Announcing, N.Roomy, Taking, Begun;
    BegunRests(ca);
    if OneFrame(ca, greeting) {
      NewSession(ca, greeting);
      var b' := GreetingHeard(ca, greeting, cb, b);
    } else {
      LongGreeting(ca, greeting);
    }
  }
}
