/**
 * Two sessions joined by two wires. A channel open at both ends is one line of `TwoWay`, whatever
 * else the sessions do meanwhile on other channels and on channel 0, so what is proved there
 * about flow control and delivery between two abstract ends holds of two sessions.
 */
module Connections {
  import opened Octets
  import opened Window
  import opened Frames
  import opened Flow
  import opened Replies
  import opened SessionSteps
  import SS = SessionSteps
  import T = Tables
  import N = Transport
  import W = TwoWay
  import M = Management

  function ChannelOf(f: Frame): U32 { if f.Data? then f.data.channel else f.seqf.channel }

  /** The frames of channel `n` among those on a wire. */
  function On(wire: seq<Frame>, n: U32): seq<Frame>
  {
    if wire == [] then []
    else On(wire[..|wire| - 1], n) + if ChannelOf(wire[|wire| - 1]) == n then [wire[|wire| - 1]] else []
  }

  /** The messages reported on channel `n`. */
  function Heard(events: seq<Event>, n: U32): seq<Message>
  {
    if events == [] then []
    else
      var e := events[|events| - 1];
      Heard(events[..|events| - 1], n) + if e.MessageReceived? && e.channel == n then [e.message] else []
  }

  lemma {:induction false} OnAppend(a: seq<Frame>, b: seq<Frame>, n: U32)
    ensures On(a + b, n) == On(a, n) + On(b, n)
    decreases |b|
  {
    if b == [] {
      assert a + b == a;
    } else {
      var k := |b| - 1;
      assert (a + b)[..|a + b| - 1] == a + b[..k] && (a + b)[|a + b| - 1] == b[k];
      OnAppend(a, b[..k], n);
    }
  }

  lemma {:induction false} OnFirst(wire: seq<Frame>, n: U32)
    requires wire != []
    ensures On(wire, n) == (if ChannelOf(wire[0]) == n then [wire[0]] else []) + On(wire[1..], n)
  {
    assert wire == [wire[0]] + wire[1..];
    OnAppend([wire[0]], wire[1..], n);
  }

  lemma {:induction false} HeardNext(events: seq<Event>, e: Event, n: U32)
    ensures Heard(events + [e], n) == Heard(events, n) + if e.MessageReceived? && e.channel == n then [e.message] else []
  {
    assert (events + [e])[..|events|] == events;
  }

  // ---- what is written belongs to the channel it is written for ----------------------

  ghost predicate AllOf(fs: seq<DataFrame>, n: U32)
  {
    forall i :: 0 <= i < |fs| ==> fs[i].channel == n
  }

  lemma {:induction false} ChunksOf(number: U32, m: Message, seqno: U32, limit: U32, body: Bytes, behind: bool)
    requires limit >= 1
    ensures AllOf(Chunks(number, m, seqno, limit, body, behind), number)
    decreases |body|
  {
    if body != [] {
      var take := Min(limit, |body|);
      ChunksOf(number, m, Advance(seqno, take), limit, body[take..], behind);
    }
  }

  lemma {:induction false} EmitOf(tx: Sender, m: Message, maxFrameSize: U32)
    requires Emit(tx, m, maxFrameSize).Ok?
    ensures AllOf(Emit(tx, m, maxFrameSize).value.frames, tx.number)
  {
    if m.payload != [] {
      var cut := Min(tx.Writable(), |m.payload|);
      ChunksOf(tx.number, m, tx.next, ChunkLimit(maxFrameSize), m.payload[..cut], m.payload[cut..] != []);
    }
  }

  lemma {:induction false} FlushOf(tx: Sender, queue: seq<Message>, maxFrameSize: U32)
    requires AllWellFormed(tx.number, queue)
    ensures AllOf(Flow.Flush(tx, queue, maxFrameSize).frames, tx.number)
    decreases |queue|
  {
    hide Emit;
    if Idle(tx, queue) {
      FlushIdle(tx, queue, maxFrameSize);
    } else {
      FlushStep(tx, queue, maxFrameSize);
      EmitOf(tx, queue[0], maxFrameSize);
      var e := Emit(tx, queue[0], maxFrameSize).value;
      if e.remaining == [] {
        FlushOf(e.tx, queue[1..], maxFrameSize);
      } else {
        FlushIdle(e.tx, Behind(queue, e.remaining), maxFrameSize);
      }
    }
  }

  lemma {:induction false} AllOfOn(fs: seq<DataFrame>, k: U32, n: U32)
    requires AllOf(fs, k)
    ensures On(AsFrames(fs), n) == if n == k then AsFrames(fs) else []
    decreases |fs|
  {
    if fs != [] {
      var i := |fs| - 1;
      AllOfOn(fs[..i], k, n);
      assert AsFrames(fs)[..|AsFrames(fs)| - 1] == AsFrames(fs[..i]);
    }
  }

  // ---- one end, seen from one channel ------------------------------------------------

  /** What a session wrote on the way from `s` to `s'`. */
  function Added(s: Snapshot, s': Snapshot): seq<Frame>
  {
    if |s.written| <= |s'.written| then s'.written[|s.written|..] else []
  }

  lemma {:induction false} AddedIs(s: Snapshot, s': Snapshot, fs: seq<Frame>)
    requires s'.written == s.written + fs
    ensures Added(s, s') == fs
  {
  }

  /** Channel `n` is still open, and nothing happened on it. */
  ghost predicate Untouched(n: U32, s: Snapshot, s': Snapshot)
  {
    && n in s.views && n in s'.views && s'.views[n] == s.views[n]
    && On(Added(s, s'), n) == [] && Heard(s'.events, n) == Heard(s.events, n)
  }

  lemma {:induction false} UntouchedTwice(n: U32, s: Snapshot, s': Snapshot, s'': Snapshot)
    requires Untouched(n, s, s') && Untouched(n, s', s'') && s.written <= s'.written <= s''.written
    ensures Untouched(n, s, s'')
  {
    assert Added(s, s'') == Added(s, s') + Added(s', s'');
    OnAppend(Added(s, s'), Added(s', s''), n);
  }

  /** Flushing channel `k` writes frames of channel `k`. */
  lemma {:induction false} FlushingOf(c: Config, s: Snapshot, k: U32, v: View, tx: Sender, queue: seq<Message>, n: U32)
    requires tx.number == k && AllWellFormed(k, queue)
    ensures
      var s' := Flushing(c, s, k, v, tx, queue);
      var fs := AsFrames(Flow.Flush(tx, queue, c.maxFrameSize).frames);
      Added(s, s') == fs && On(Added(s, s'), n) == (if n == k then fs else []) && s.written <= s'.written
  {
    hide Flow.Flush;
    var r := Flow.Flush(tx, queue, c.maxFrameSize);
    FlushOf(tx, queue, c.maxFrameSize);
    AllOfOn(r.frames, k, n);
    AddedIs(s, Flushing(c, s, k, v, tx, queue), AsFrames(r.frames));
  }

  lemma {:induction false} FlushingUntouched(c: Config, s: Snapshot, k: U32, v: View, tx: Sender, queue: seq<Message>, n: U32)
    requires tx.number == k && k != n && AllWellFormed(k, queue) && n in s.views
    ensures Untouched(n, s, Flushing(c, s, k, v, tx, queue)) && s.written <= Flushing(c, s, k, v, tx, queue).written
  {
    hide Flow.Flush, AsFrames;
    FlushingOf(c, s, k, v, tx, queue, n);
  }

  lemma {:induction false} WriteZeroUntouched(c: Config, s: Snapshot, kind: FrameKind, msgno: U32, m: M.Message, n: U32)
    requires ZeroReady(s) && msgno <= MAX_MSG_NO && !kind.HasAnsNo() && n != 0 && n in s.views
    ensures Untouched(n, s, WriteZero(c, s, kind, msgno, m)) && s.written <= WriteZero(c, s, kind, msgno, m).written
  {
    hide Flushing;
    var v := s.views[0];
    var message := Message(kind, msgno, None, c.wire.write(m));
    WellFormedAppend(0, v.queue, [message]);
    FlushingUntouched(c, s, 0, v, v.tx, v.queue + [message], n);
  }

  // ---- frames of other channels ------------------------------------------------------

  /** A SEQ that answers a data frame belongs to its channel. */
  lemma {:induction false} SeqOfOn(rx: Receiver, unacked: U32, f: DataFrame, n: U32)
    requires |f.payload| <= MAX_FRAME_SIZE
    ensures
      var k := TakeFrame(rx, unacked, f).0;
      On(SeqOf(k), n) == if n == rx.number then SeqOf(k) else []
  {
    var k := TakeFrame(rx, unacked, f).0;
    if SeqOf(k) != [] {
      assert SeqOf(k)[..0] == [];
    }
  }

  lemma {:induction false} TakingUntouched(s: Snapshot, k: U32, f: DataFrame, n: U32)
    requires k in s.views && n in s.views && n != k && s.views[k].rx.number == k && |f.payload| <= MAX_FRAME_SIZE
    requires Taking(s, k, f).Ok?
    ensures Untouched(n, s, Taking(s, k, f).value.0) && s.written <= Taking(s, k, f).value.0.written
    ensures Taking(s, k, f).value.0.table == s.table && Taking(s, k, f).value.0.views.Keys == s.views.Keys
  {
    hide TakeFrame, SeqOf;
    var v := s.views[k];
    SeqOfOn(v.rx, v.unacked, f, n);
    AddedIs(s, Taking(s, k, f).value.0, SeqOf(TakeFrame(v.rx, v.unacked, f).0));
  }

  /** An event that is not a message on `n` and a table that moves are nothing to channel `n`. */
  lemma {:induction false} EventUntouched(n: U32, s: Snapshot, s': Snapshot, e: Event)
    requires n in s.views && n in s'.views && s'.views[n] == s.views[n]
    requires s'.written == s.written && s'.events == s.events + [e] && !(e.MessageReceived? && e.channel == n)
    ensures Untouched(n, s, s')
  {
    AddedIs(s, s', []);
    HeardNext(s.events, e, n);
  }

  lemma {:induction false} DispatchUntouched(c: Config, s: Snapshot, kind: FrameKind, msgno: U32, m: M.Message, n: U32)
    requires Rested(s) && n != 0 && n in s.views && Dispatch(c, s, kind, msgno, m).Ok?
    requires n in Dispatch(c, s, kind, msgno, m).value.views
    ensures Untouched(n, s, Dispatch(c, s, kind, msgno, m).value) && s.written <= Dispatch(c, s, kind, msgno, m).value.written
  {
    hide Rested, T.Sound, Untouched;
    RestedSound(s);
    RestedAt(s, n);
    var s' := Dispatch(c, s, kind, msgno, m).value;
    if Meant(kind, msgno, m) == Some(T.ProfileReply(msgno)) {
      StartNew(s.table, msgno);
    }
    EventUntouched(n, s, s', s'.events[|s.events|]);
  }

  lemma {:induction false} OnZeroUntouched(c: Config, s: Snapshot, f: DataFrame, n: U32)
    requires Rested(s) && |f.payload| <= MAX_FRAME_SIZE && OnZero(c, s, f).Ok?
    requires n != 0 && n in s.views && n in OnZero(c, s, f).value.views
    ensures Untouched(n, s, OnZero(c, s, f).value) && s.written <= OnZero(c, s, f).value.written
  {
    hide Rested, Taking, Dispatch, Untouched;
    RestedSound(s);
    RestedAt(s, 0);
    TakingRests(s, 0, f);
    TakingUntouched(s, 0, f, n);
    var (s', s'') := (Taking(s, 0, f).value.0, OnZero(c, s, f).value);
    if s.table.phase.AwaitingGreeting? {
      EventUntouched(n, s', s'', GreetingReceived);
      UntouchedTwice(n, s, s', s'');
    } else if Taking(s, 0, f).value.1.Some? {
      var message := Taking(s, 0, f).value.1.value;
      DispatchUntouched(c, s', message.kind, message.msgno, c.wire.read(message.payload).value, n);
      UntouchedTwice(n, s, s', s'');
    }
  }

  lemma {:induction false} OnDataUntouched(s: Snapshot, f: DataFrame, n: U32)
    requires Rested(s) && |f.payload| <= MAX_FRAME_SIZE && OnData(s, f).Ok? && n in s.views && n != f.channel
    ensures Untouched(n, s, OnData(s, f).value) && s.written <= OnData(s, f).value.written
  {
    hide Rested, Taking, Untouched;
    var k := f.channel;
    RestedAt(s, k);
    TakingUntouched(s, k, f, n);
    var s' := Taking(s, k, f).value.0;
    if Taking(s, k, f).value.1.Some? {
      EventUntouched(n, s', OnData(s, f).value, MessageReceived(k, Taking(s, k, f).value.1.value));
      UntouchedTwice(n, s, s', OnData(s, f).value);
    }
  }

  /** A frame of another channel, channel 0 included, does nothing to channel `n` unless it closes it. */
  lemma {:induction false} OtherFrame(c: Config, s: Snapshot, f: Frame, n: U32)
    requires Rested(s) && f.Valid() && OnFrame(c, s, f).Ok? && ChannelOf(f) != n && n != 0
    requires n in s.views && n in OnFrame(c, s, f).value.views
    ensures Untouched(n, s, OnFrame(c, s, f).value) && s.written <= OnFrame(c, s, f).value.written
  {
    hide Rested, OnZero, OnData, Untouched, Flushing;
    if f.Seq? {
      var k := f.seqf.channel;
      RestedAt(s, k);
      FlushingUntouched(c, s, k, s.views[k], ApplySeq(s.views[k].tx, f.seqf), s.views[k].queue, n);
    } else if f.data.channel == 0 {
      OnZeroUntouched(c, s, f.data, n);
    } else {
      OnDataUntouched(s, f.data, n);
    }
  }

  // ---- calls that concern other channels ---------------------------------------------

  /** Whether a call is about channel `n`: it sends on it or changes its window. */
  predicate About(call: Call, n: U32)
  {
    (call.Send? || call.SendMsg? || call.SetWindowSize?) && call.channel == n
  }

  lemma {:induction false} PostUntouched(c: Config, s: Snapshot, k: U32, q: Request, n: U32)
    requires Rested(s) && Sendable(s, k, q) && Post(c, s, k, q).Ok? && n in s.views && n != k
    ensures Untouched(n, s, Post(c, s, k, q).value) && s.written <= Post(c, s, k, q).value.written
  {
    hide Flushing, Submit, WellFormed, Rested;
    var v := s.views[k];
    RestedAt(s, k);
    SubmitWellFormed(k, v.buffer, q);
    WellFormedAppend(k, v.queue, Submit(v.buffer, q).1);
    var (b, out) := Submit(v.buffer, q);
    FlushingUntouched(c, s, k, v.(buffer := b), v.tx, v.queue + out, n);
  }

  /** A step of the table alone is nothing to any channel, and neither is a message on channel 0 after it. */
  lemma {:induction false} TableUntouched(c: Config, s: Snapshot, s0: Snapshot, kind: FrameKind, msgno: U32, m: M.Message, n: U32)
    requires Rested(s0) && msgno <= MAX_MSG_NO && !kind.HasAnsNo() && n != 0 && n in s.views && n in s0.views
    requires s0.views[n] == s.views[n] && s0.written == s.written && s0.events == s.events
    ensures ZeroReady(s0) && Untouched(n, s, WriteZero(c, s0, kind, msgno, m)) && s.written <= WriteZero(c, s0, kind, msgno, m).written
  {
    hide Rested, WriteZero;
    WriteZeroRests(c, s0, kind, msgno, m);
    WriteZeroUntouched(c, s0, kind, msgno, m, n);
    AddedIs(s, s0, []);
    UntouchedTwice(n, s, s0, WriteZero(c, s0, kind, msgno, m));
  }

  lemma {:induction false} StartUntouched(c: Config, s: Snapshot, profile: M.Profile, msgno: U32, n: U32)
    requires Rested(s) && T.Enabled(s.table, T.StartChannel(msgno)) && msgno <= MAX_MSG_NO && SS.Start(c, s, profile, msgno).Ok?
    requires n != 0 && n in s.views
    ensures Untouched(n, s, SS.Start(c, s, profile, msgno).value) && s.written <= SS.Start(c, s, profile, msgno).value.written
  {
    hide Rested, WriteZero, T.Enabled, Untouched;
    RequestRests(c, s, T.StartChannel(msgno), msgno, M.Start(s.table.nextChannel, None, [profile]));
    var s0 := s.(table := T.Next(s.table, T.StartChannel(msgno)).value);
    TableUntouched(c, s, s0, Msg, msgno, M.Start(s.table.nextChannel, None, [profile]), n);
  }

  lemma {:induction false} CloseUntouched(c: Config, s: Snapshot, channel: U32, msgno: U32, n: U32)
    requires Rested(s) && T.Enabled(s.table, T.CloseChannel(channel, msgno)) && msgno <= MAX_MSG_NO && Close(c, s, channel, msgno).Ok?
    requires n != 0 && n in s.views
    ensures Untouched(n, s, Close(c, s, channel, msgno).value) && s.written <= Close(c, s, channel, msgno).value.written
  {
    hide Rested, WriteZero, T.Enabled, Untouched;
    RequestRests(c, s, T.CloseChannel(channel, msgno), msgno, M.Close(channel, 200, None, None));
    var s0 := s.(table := T.Next(s.table, T.CloseChannel(channel, msgno)).value);
    TableUntouched(c, s, s0, Msg, msgno, M.Close(channel, 200, None, None), n);
  }

  lemma {:induction false} AcceptStartUntouched(c: Config, s: Snapshot, channel: U32, msgno: U32, profile: M.Profile, n: U32)
    requires Rested(s) && msgno <= MAX_MSG_NO && AcceptStart(c, s, channel, msgno, profile).Ok? && n != 0 && n in s.views
    ensures Untouched(n, s, AcceptStart(c, s, channel, msgno, profile).value)
    ensures s.written <= AcceptStart(c, s, channel, msgno, profile).value.written
  {
    hide Rested, WriteZero, T.Sound, Untouched;
    RestedSound(s);
    RestedAt(s, n);
    T.StepSound(s.table, T.AcceptStart(channel));
    var t := T.Next(s.table, T.AcceptStart(channel)).value;
    OpeningRests(c, s, t, channel, T.Peer);
    TableUntouched(c, s, Opening(c, s, t, channel), Rpy, msgno, M.Accepted(profile), n);
  }

  lemma {:induction false} AcceptCloseUntouched(c: Config, s: Snapshot, channel: U32, msgno: U32, n: U32)
    requires Rested(s) && msgno <= MAX_MSG_NO && n != 0 && n in s.views && n in AcceptClose(c, s, channel, msgno).views
    ensures Untouched(n, s, AcceptClose(c, s, channel, msgno)) && s.written <= AcceptClose(c, s, channel, msgno).written
  {
    hide Rested, WriteZero, Untouched;
    WriteZeroRests(c, s, Rpy, msgno, M.Okay);
    WriteZeroUntouched(c, s, Rpy, msgno, M.Okay, n);
    WriteZeroKeeps(c, s, Rpy, msgno, M.Okay);
    var (s', s'') := (WriteZero(c, s, Rpy, msgno, M.Okay), AcceptClose(c, s, channel, msgno));
    RestedSound(s');
    EventUntouched(n, s', s'', if channel == 0 then SessionClosed else ChannelClosed(channel));
    UntouchedTwice(n, s, s', s'');
  }

  /** A call about anything else does nothing to channel `n` unless it closes it. */
  lemma {:induction false} OtherCall(c: Config, s: Snapshot, call: Call, s': Snapshot, n: U32)
    requires Steps(c, s, call, s') && !call.Input? && !About(call, n) && n != 0 && n in s.views && n in s'.views
    ensures Untouched(n, s, s') && s.written <= s'.written
  {
    hide Rested, Post, SS.Start, Close, AcceptStart, AcceptClose, Sendable, Untouched, WriteZero;
    if s' == s {
      StillUntouched(n, s);
    } else {
      match call
      case Send(k, q) => PostUntouched(c, s, k, q, n);
      case SendMsg(k, payload) =>
        var msgno: U32 :| Sendable(s, k, Request(Msg, msgno, None, payload)) && Post(c, s, k, Request(Msg, msgno, None, payload)) == Ok(s');
        PostUntouched(c, s, k, Request(Msg, msgno, None, payload), n);
      case StartChannel(profile) =>
        var msgno: U32 :| T.Enabled(s.table, T.StartChannel(msgno)) && msgno <= MAX_MSG_NO && SS.Start(c, s, profile, msgno) == Ok(s');
        StartUntouched(c, s, profile, msgno, n);
      case CloseChannel(k) =>
        var msgno: U32 :| T.Enabled(s.table, T.CloseChannel(k, msgno)) && msgno <= MAX_MSG_NO && Close(c, s, k, msgno) == Ok(s');
        CloseUntouched(c, s, k, msgno, n);
      case GrantStart(k, msgno, profile) => AcceptStartUntouched(c, s, k, msgno, profile, n);
      case Decline(msgno, error) => TableUntouched(c, s, s, Err, msgno, error, n);
      case GrantClose(k, msgno) => AcceptCloseUntouched(c, s, k, msgno, n);
      case SetWindowSize(k, size) => ResizeUntouched(s, k, size, n);
      case Transmit =>
    }
  }

  lemma {:induction false} StillUntouched(n: U32, s: Snapshot)
    requires n in s.views
    ensures Untouched(n, s, s)
  {
    AddedIs(s, s, []);
  }

  lemma {:induction false} ResizeUntouched(s: Snapshot, k: U32, size: U32, n: U32)
    requires Resize(s, k, size).Ok? && n in s.views && n != k
    ensures Untouched(n, s, Resize(s, k, size).value)
  {
    AddedIs(s, Resize(s, k, size).value, []);
  }

  // ---- a channel between two sessions ------------------------------------------------

  datatype Peers = Peers(here: Snapshot, hereConf: Config, there: Snapshot, thereConf: Config, toThere: seq<Frame>, toHere: seq<Frame>) {
    /** The same two sessions, seen from the other end. */
    function Turned(): Peers { Peers(there, thereConf, here, hereConf, toHere, toThere) }
  }

  /** Messages reported on earlier channels of the same number. */
  datatype Past = Past(here: seq<Message>, there: seq<Message>) {
    function Turned(): Past { Past(there, here) }
  }

  ghost predicate Carries(net: N.Net, sender: View, receiver: View)
  {
    net.tx == sender.tx && net.queue == sender.queue && net.rx == receiver.rx && net.unacked == receiver.unacked
  }

  /** Channel `n` of the two sessions is the line `l`. */
  ghost predicate Joined(p: Peers, n: U32, past: Past, l: W.Line)
  {
    && n != 0 && n in p.here.views && n in p.there.views
    && Carries(l.out, p.here.views[n], p.there.views[n]) && Carries(l.back, p.there.views[n], p.here.views[n])
    && l.toThere == On(p.toThere, n) && l.toHere == On(p.toHere, n)
    && l.outMax == p.hereConf.maxFrameSize && l.backMax == p.thereConf.maxFrameSize
    && Heard(p.there.events, n) == past.there + l.out.delivered
    && Heard(p.here.events, n) == past.here + l.back.delivered
  }

  lemma {:induction false} JoinedTurned(p: Peers, n: U32, past: Past, l: W.Line)
    requires Joined(p, n, past, l)
    ensures Joined(p.Turned(), n, past.Turned(), l.Turned())
  {
  }

  // ---- a frame of the channel arrives ------------------------------------------------

  function Arrived(p: Peers, s': Snapshot): Peers
    requires p.toThere != []
  {
    p.(there := s', toThere := p.toThere[1..], toHere := p.toHere + Added(p.there, s'))
  }

  /** `DeliverData` in terms of what a session does with a frame. */
  lemma {:induction false} ReceiveTakes(net: N.Net)
    requires net.data != [] && |net.data[0].payload| <= MAX_FRAME_SIZE && N.Receive(net).Ok?
    ensures
      var (k, outcome) := TakeFrame(net.rx, net.unacked, net.data[0]);
      && k.outcome.Ok? && outcome.Ok?
      && W.AsSeqs(W.NewSeqs(net, N.Receive(net).value)) == SeqOf(k)
      && N.Receive(net).value ==
         net.(data := net.data[1..], rx := k.rx, unacked := k.unacked, seqs := N.Receive(net).value.seqs,
              delivered := net.delivered + if outcome.value.Some? then [outcome.value.value] else [])
  {
    hide Accept, Acknowledge;
    var net' := N.Receive(net).value;
    var k := TakeFrame(net.rx, net.unacked, net.data[0]).0;
    if k.outcome.value.Some? {
      assert W.NewSeqs(net, net') == [k.outcome.value.value];
      assert W.AsSeqs([k.outcome.value.value]) == [Seq(k.outcome.value.value)] + W.AsSeqs([]);
    } else {
      assert W.NewSeqs(net, net') == [];
    }
  }

  lemma {:induction false} WireHead(p: Peers, n: U32, past: Past, l: W.Line)
    requires Joined(p, n, past, l) && p.toThere != [] && ChannelOf(p.toThere[0]) == n && W.Linked(l)
    ensures l.toThere == [p.toThere[0]] + On(p.toThere[1..], n)
    ensures p.toThere[0].Data? ==> l.out.data != [] && l.out.data[0] == p.toThere[0].data
    ensures p.toThere[0].Seq? ==> l.back.seqs != [] && l.back.seqs[0] == p.toThere[0].seqf
  {
    OnFirst(p.toThere, n);
  }

  lemma {:induction false} DataArrives(p: Peers, n: U32, past: Past, l: W.Line)
    requires Joined(p, n, past, l) && W.Linked(l) && Rested(p.there)
    requires p.toThere != [] && p.toThere[0].Valid() && p.toThere[0].Data? && ChannelOf(p.toThere[0]) == n
    requires W.Ready(l, W.Arrives) && W.Go(l, W.Arrives).Ok?
    ensures OnFrame(p.thereConf, p.there, p.toThere[0]).Ok?
    ensures Joined(Arrived(p, OnFrame(p.thereConf, p.there, p.toThere[0]).value), n, past, W.Go(l, W.Arrives).value)
  {
    hide Rested, TakeFrame, SeqOf, N.Receive, W.AsSeqs, W.NewSeqs, On, W.DataOn, W.SeqsOn;
    WireHead(p, n, past, l);
    ReceiveTakes(l.out);
    var (f, s, v) := (p.toThere[0].data, p.there, p.there.views[n]);
    var (k, outcome) := TakeFrame(v.rx, v.unacked, f);
    RestedAt(s, n);
    var s' := OnFrame(p.thereConf, s, p.toThere[0]).value;
    AddedIs(s, s', SeqOf(k));
    SeqOfOn(v.rx, v.unacked, f, n);
    OnAppend(p.toHere, SeqOf(k), n);
    if outcome.value.Some? {
      HeardNext(s.events, MessageReceived(n, outcome.value.value), n);
      Associate(past.there, l.out.delivered, [outcome.value.value]);
    } else {
      assert l.out.delivered + [] == l.out.delivered;
    }
    assert l.toThere[1..] == On(p.toThere[1..], n);
  }

  lemma {:induction false} SeqArrives(p: Peers, n: U32, past: Past, l: W.Line)
    requires Joined(p, n, past, l) && W.Linked(l) && Rested(p.there)
    requires p.toThere != [] && p.toThere[0].Valid() && p.toThere[0].Seq? && ChannelOf(p.toThere[0]) == n
    requires W.Ready(l, W.Arrives) && W.Go(l, W.Arrives).Ok?
    ensures OnFrame(p.thereConf, p.there, p.toThere[0]).Ok?
    ensures Joined(Arrived(p, OnFrame(p.thereConf, p.there, p.toThere[0]).value), n, past, W.Go(l, W.Arrives).value)
  {
    hide Rested, Flow.Flush, On, W.DataOn, W.SeqsOn, AsFrames;
    WireHead(p, n, past, l);
    var (q, s, v) := (p.toThere[0].seqf, p.there, p.there.views[n]);
    RestedAt(s, n);
    FlushingOf(p.thereConf, s, n, v, ApplySeq(v.tx, q), v.queue, n);
    var r := Flow.Flush(ApplySeq(v.tx, q), v.queue, p.thereConf.maxFrameSize);
    var n' := W.Go(l, W.Arrives).value.back;
    assert W.NewData(l.back, n') == r.frames;
    OnAppend(p.toHere, AsFrames(r.frames), n);
    assert l.toThere[1..] == On(p.toThere[1..], n);
  }

  // ---- the channel's own calls -------------------------------------------------------

  function After(p: Peers, s': Snapshot): Peers
  {
    p.(here := s', toThere := p.toThere + Added(p.here, s'))
  }

  /** A line once `ms` were sent on it. */
  function Sent(l: W.Line, ms: seq<Message>): W.Line
    requires AllWellFormed(l.out.tx.number, l.out.queue + ms)
  {
    var r := Flow.Flush(l.out.tx, l.out.queue + ms, l.outMax);
    l.(out := l.out.(tx := r.tx, queue := r.queue, data := l.out.data + r.frames, sent := l.out.sent + ms),
       toThere := l.toThere + AsFrames(r.frames))
  }

  /** One message sent is one move. */
  lemma {:induction false} SentOne(l: W.Line, m: Message, wide: bool)
    requires W.Sound(l, wide) && WellFormed(l.out.tx.number, m)
    ensures AllWellFormed(l.out.tx.number, l.out.queue + [m]) && W.Sound(Sent(l, [m]), wide)
    ensures Sent(l, [m]).out.tx.number == l.out.tx.number && Idle(Sent(l, [m]).out.tx, Sent(l, [m]).out.queue)
  {
    hide W.Sound, Flow.Flush, AsFrames, WellFormed;
    LineWellFormed(l, wide);
    WellFormedAppend(l.out.tx.number, l.out.queue, [m]);
    W.MoveSound(l, W.Sends(m), wide);
    var r := Flow.Flush(l.out.tx, l.out.queue + [m], l.outMax);
    FlushLeavesIdle(l.out.tx, l.out.queue + [m], l.outMax);
    FlushKeeps(l.out.tx, l.out.queue + [m], l.outMax);
    var n' := N.Next(l.out, N.Send(m), l.outMax).value;
    assert W.NewData(l.out, n') == r.frames;
  }

  lemma {:induction false} LineWellFormed(l: W.Line, wide: bool)
    requires W.Sound(l, wide)
    ensures AllWellFormed(l.out.tx.number, l.out.queue) && AllWellFormed(l.back.tx.number, l.back.queue)
  {
    W.SaneWellFormed(l.out, l.outMax, wide);
    W.SaneWellFormed(l.back, l.backMax, wide);
  }

  /** Any number of messages sent together are as many moves. */
  lemma {:induction false} SentAll(l: W.Line, ms: seq<Message>, wide: bool)
    requires W.Sound(l, wide) && AllWellFormed(l.out.tx.number, ms) && Idle(l.out.tx, l.out.queue)
    ensures AllWellFormed(l.out.tx.number, l.out.queue + ms) && W.Sound(Sent(l, ms), wide)
    decreases |ms|
  {
    hide W.Sound, Flow.Flush, WellFormed, Idle, AsFrames;
    var (tx, queue) := (l.out.tx, l.out.queue);
    LineWellFormed(l, wide);
    WellFormedAppend(tx.number, queue, ms);
    if ms == [] {
      FlushIdle(tx, queue, l.outMax);
      NoFrames();
      assert queue + [] == queue && l.out.data + [] == l.out.data && l.out.sent + [] == l.out.sent && l.toThere + [] == l.toThere;
    } else {
      SentOne(l, ms[0], wide);
      SentAll(Sent(l, [ms[0]]), ms[1..], wide);
      SentJoins(l, ms);
    }
  }

  lemma {:induction false} NoFrames()
    ensures AsFrames([]) == []
  {
  }

  lemma {:induction false} SentJoins(l: W.Line, ms: seq<Message>)
    requires ms != [] && AllWellFormed(l.out.tx.number, l.out.queue + ms) && AllWellFormed(l.out.tx.number, l.out.queue + [ms[0]])
    requires AllWellFormed(Sent(l, [ms[0]]).out.tx.number, Sent(l, [ms[0]]).out.queue + ms[1..])
    requires AllWellFormed(l.out.tx.number, ms[1..])
    ensures Sent(Sent(l, [ms[0]]), ms[1..]) == Sent(l, ms)
  {
    hide Flow.Flush, AllWellFormed, AsFrames;
    var (tx, queue, max) := (l.out.tx, l.out.queue, l.outMax);
    FlushJoins(tx, queue + [ms[0]], ms[1..], max);
    Associate(queue, [ms[0]], ms[1..]);
    Associate(l.out.sent, [ms[0]], ms[1..]);
    assert [ms[0]] + ms[1..] == ms;
    var r := Flow.Flush(tx, queue + [ms[0]], max);
    var r' := Flow.Flush(r.tx, r.queue + ms[1..], max);
    Associate(l.out.data, r.frames, r'.frames);
    AsFramesAppend(r.frames, r'.frames);
    Associate(l.toThere, AsFrames(r.frames), AsFrames(r'.frames));
  }

  /** What `send` lets through is sent on the line, in that order. */
  lemma {:induction false} PostFollows(p: Peers, n: U32, past: Past, l: W.Line, q: Request, wide: bool)
    requires Joined(p, n, past, l) && W.Sound(l, wide) && Rested(p.here) && Sendable(p.here, n, q)
    ensures Post(p.hereConf, p.here, n, q).Ok?
    ensures
      var ms := Submit(p.here.views[n].buffer, q).1;
      && AllWellFormed(l.out.tx.number, l.out.queue + ms)
      && W.Sound(Sent(l, ms), wide)
      && Joined(After(p, Post(p.hereConf, p.here, n, q).value), n, past, Sent(l, ms))
  {
    hide Rested, Submit, WellFormed, Flow.Flush, W.Sound, Idle, On, Heard, AsFrames;
    var v := p.here.views[n];
    RestedAt(p.here, n);
    SubmitWellFormed(n, v.buffer, q);
    WellFormedAppend(n, v.queue, Submit(v.buffer, q).1);
    var (b, ms) := Submit(v.buffer, q);
    FlushingOf(p.hereConf, p.here, n, v.(buffer := b), v.tx, v.queue + ms, n);
    SentAll(l, ms, wide);
    OnAppend(p.toThere, AsFrames(Flow.Flush(v.tx, v.queue + ms, l.outMax).frames), n);
  }

  lemma {:induction false} ResizeFollows(p: Peers, n: U32, past: Past, l: W.Line, size: U32, wide: bool)
    requires Joined(p, n, past, l) && W.Sound(l, wide) && p.here.views[n].rx.window.size <= size <= MAX_FRAME_SIZE
    ensures W.Ready(l, W.Grows(size)) && W.Go(l, W.Grows(size)).Ok? && W.Sound(W.Go(l, W.Grows(size)).value, wide)
    ensures Resize(p.here, n, size).Ok?
    ensures Joined(After(p, Resize(p.here, n, size).value), n, past, W.Go(l, W.Grows(size)).value)
  {
    hide W.Sound, On, Heard;
    W.MoveSound(l, W.Grows(size), wide);
    AddedIs(p.here, Resize(p.here, n, size).value, []);
    assert p.toThere + [] == p.toThere;
  }

  // ---- whole runs of two sessions ----------------------------------------------------

  /** What one end does: it makes a call, or the first frame on its wire reaches the other end. */
  datatype What = Called(call: Call, after: Snapshot) | FrameArrives

  datatype Act = Act(here: bool, what: What)

  function SeenFrom(p: Peers, here: bool): Peers { if here then p else p.Turned() }

  ghost predicate Moves(p: Peers, what: What, p': Peers)
  {
    match what
    case Called(call, s') => !call.Input? && Steps(p.hereConf, p.here, call, s') && p' == After(p, s')
    case FrameArrives =>
      && p.toThere != [] && Rested(p.there) && p.toThere[0].Valid()
      && var r := OnFrame(p.thereConf, p.there, p.toThere[0]);
         r.Ok? && p' == Arrived(p, r.value)
  }

  /** The channel's window is not made smaller. */
  predicate Widens(p: Peers, what: What, n: U32)
  {
    what.Called? && what.call.SetWindowSize? && what.call.channel == n && n in p.here.views ==>
      p.here.views[n].rx.window.size <= what.call.size <= MAX_FRAME_SIZE
  }

  /** The message number a `send_msg` found. */
  ghost function Numbering(c: Config, s: Snapshot, n: U32, payload: Bytes, s': Snapshot): (msgno: U32)
    requires Rested(s) && SendMsgDid(c, s, n, payload, s')
    ensures Sendable(s, n, Request(Msg, msgno, None, payload)) && Post(c, s, n, Request(Msg, msgno, None, payload)) == Ok(s')
  {
    var msgno: U32 :| Sendable(s, n, Request(Msg, msgno, None, payload)) && Post(c, s, n, Request(Msg, msgno, None, payload)) == Ok(s');
    msgno
  }

  /** What a call lets out on channel `n`: what it is asked to send there, as far as the order of replies allows. */
  ghost function LetOutBy(c: Config, s: Snapshot, call: Call, s': Snapshot, n: U32): seq<Message>
  {
    if n !in s.views then []
    else if call.Send? && call.channel == n then Submit(s.views[n].buffer, call.request).1
    else if call.SendMsg? && call.channel == n && s' != s && Rested(s) && SendMsgDid(c, s, n, call.payload, s') then
      [Message(Msg, Numbering(c, s, n, call.payload, s'), None, call.payload)]
    else []
  }

  ghost function LetOut(p: Peers, what: What, n: U32): seq<Message>
  {
    if what.Called? then LetOutBy(p.hereConf, p.here, what.call, what.after, n) else []
  }

  lemma {:induction false} UntouchedFollows(p: Peers, s': Snapshot, n: U32, past: Past, l: W.Line)
    requires Joined(p, n, past, l) && Untouched(n, p.here, s')
    ensures Joined(After(p, s'), n, past, l)
  {
    hide On, Heard, Added;
    OnAppend(p.toThere, Added(p.here, s'), n);
    assert On(p.toThere, n) + [] == On(p.toThere, n);
  }

  lemma {:induction false} OtherArrives(p: Peers, s': Snapshot, n: U32, past: Past, l: W.Line)
    requires Joined(p, n, past, l) && p.toThere != [] && ChannelOf(p.toThere[0]) != n && Untouched(n, p.there, s')
    ensures Joined(Arrived(p, s'), n, past, l)
  {
    hide On, Heard, Added;
    OnFirst(p.toThere, n);
    OnAppend(p.toHere, Added(p.there, s'), n);
    assert On(p.toHere, n) + [] == On(p.toHere, n);
    assert [] + On(p.toThere[1..], n) == On(p.toThere[1..], n);
  }

  /** A frame of the channel is never refused. */
  lemma {:induction false} FrameAccepted(p: Peers, n: U32, past: Past, l: W.Line, wide: bool)
    requires Joined(p, n, past, l) && W.Sound(l, wide) && Rested(p.there)
    requires p.toThere != [] && p.toThere[0].Valid() && ChannelOf(p.toThere[0]) == n
    ensures W.Ready(l, W.Arrives) && W.Go(l, W.Arrives).Ok? && W.Sound(W.Go(l, W.Arrives).value, wide)
    ensures OnFrame(p.thereConf, p.there, p.toThere[0]).Ok?
    ensures Joined(Arrived(p, OnFrame(p.thereConf, p.there, p.toThere[0]).value), n, past, W.Go(l, W.Arrives).value)
    ensures W.Go(l, W.Arrives).value.out.sent == l.out.sent && W.Go(l, W.Arrives).value.back.sent == l.back.sent
  {
    hide Rested, Joined, OnFrame, W.Ready, W.Go;
    assert W.Linked(l);
    WireHeads(p, n, past, l);
    W.MoveSound(l, W.Arrives, wide);
    W.ArrivalKeepsSent(l, W.Turn(true, W.Arrives));
    if p.toThere[0].Data? {
      DataArrives(p, n, past, l);
    } else {
      SeqArrives(p, n, past, l);
    }
  }

  lemma {:induction false} WireHeads(p: Peers, n: U32, past: Past, l: W.Line)
    requires Joined(p, n, past, l) && p.toThere != [] && ChannelOf(p.toThere[0]) == n && W.Linked(l)
    ensures W.Allowed(l, W.Arrives)
  {
    WireHead(p, n, past, l);
  }

  /** Whatever one end does, channel `n` stays a sound line, and what is sent on the line is what is let out. */
  lemma {:induction false} MoveFollows(p: Peers, what: What, p': Peers, n: U32, past: Past, l: W.Line, wide: bool) returns (l': W.Line)
    requires Joined(p, n, past, l) && W.Sound(l, wide) && Moves(p, what, p') && Widens(p, what, n)
    requires n in p'.here.views && n in p'.there.views
    ensures W.Sound(l', wide) && Joined(p', n, past, l')
    ensures l'.out.sent == l.out.sent + LetOut(p, what, n) && l'.back.sent == l.back.sent
  {
    hide Rested, W.Sound, OnFrame, Untouched, Submit, Flow.Flush, W.Go, W.Ready;
    l' := l;
    assert l.out.sent + [] == l.out.sent;
    match what
    case FrameArrives =>
      if ChannelOf(p.toThere[0]) == n {
        FrameAccepted(p, n, past, l, wide);
        l' := W.Go(l, W.Arrives).value;
      } else {
        OtherFrame(p.thereConf, p.there, p.toThere[0], n);
        OtherArrives(p, p'.there, n, past, l);
      }
    case Called(call, s') =>
      l' := CallFollows(p, call, s', n, past, l, wide);
  }

  lemma {:induction false} CallFollows(p: Peers, call: Call, s': Snapshot, n: U32, past: Past, l: W.Line, wide: bool) returns (l': W.Line)
    requires Joined(p, n, past, l) && W.Sound(l, wide) && !call.Input? && Steps(p.hereConf, p.here, call, s')
    requires Widens(p, Called(call, s'), n) && n in s'.views
    ensures W.Sound(l', wide) && Joined(After(p, s'), n, past, l')
    ensures l'.out.sent == l.out.sent + LetOut(p, Called(call, s'), n) && l'.back.sent == l.back.sent
  {
    hide Rested, W.Sound, Untouched, Submit, Flow.Flush, W.Ready, Sendable, Post;
    l' := l;
    assert l.out.sent + [] == l.out.sent;
    if !About(call, n) {
      OtherCall(p.hereConf, p.here, call, s', n);
      UntouchedFollows(p, s', n, past, l);
    } else if call.Send? {
      PostFollows(p, n, past, l, call.request, wide);
      l' := Sent(l, Submit(p.here.views[n].buffer, call.request).1);
    } else if call.SetWindowSize? {
      ResizeFollows(p, n, past, l, call.size, wide);
      l' := W.Go(l, W.Grows(call.size)).value;
    } else if s' == p.here {
      StillUntouched(n, p.here);
      UntouchedFollows(p, s', n, past, l);
    } else {
      var q := Request(Msg, Numbering(p.hereConf, p.here, n, call.payload, s'), None, call.payload);
      PostFollows(p, n, past, l, q, wide);
      MessagesPass(p.here.views[n].buffer, q.msgno, q.payload);
      l' := Sent(l, Submit(p.here.views[n].buffer, q).1);
    }
  }

  /** One act of either end that leaves channel `n` open at both. */
  ghost predicate Acts(p: Peers, act: Act, p': Peers, n: U32)
  {
    && Moves(SeenFrom(p, act.here), act.what, SeenFrom(p', act.here)) && Widens(SeenFrom(p, act.here), act.what, n)
    && n in p'.here.views && n in p'.there.views
  }

  /** Two sessions going about their business, channel `n` open throughout. */
  ghost predicate Run(trace: seq<Peers>, acts: seq<Act>, n: U32)
  {
    |trace| == |acts| + 1 && forall i :: 0 <= i < |acts| ==> Acts(trace[i], acts[i], trace[i + 1], n)
  }

  /** Everything one end let out on channel `n`, in order. */
  ghost function Said(trace: seq<Peers>, acts: seq<Act>, n: U32, here: bool): seq<Message>
    requires |trace| == |acts| + 1
    decreases |acts|
  {
    if acts == [] then []
    else
      var k := |acts| - 1;
      Said(trace[..k + 1], acts[..k], n, here) + if acts[k].here == here then LetOut(SeenFrom(trace[k], here), acts[k].what, n) else []
  }

  lemma {:induction false} ActFollows(p: Peers, act: Act, p': Peers, n: U32, past: Past, l: W.Line, wide: bool) returns (l': W.Line)
    requires Joined(p, n, past, l) && W.Sound(l, wide) && Acts(p, act, p', n)
    ensures W.Sound(l', wide) && Joined(p', n, past, l')
    ensures l'.out.sent == l.out.sent + if act.here then LetOut(p, act.what, n) else []
    ensures l'.back.sent == l.back.sent + if act.here then [] else LetOut(p.Turned(), act.what, n)
  {
    hide W.Sound, Joined, Moves, LetOut;
    assert l.out.sent + [] == l.out.sent && l.back.sent + [] == l.back.sent;
    if act.here {
      l' := MoveFollows(p, act.what, p', n, past, l, wide);
    } else {
      JoinedTurned(p, n, past, l);
      W.TurnedSound(l, wide);
      l' := MoveFollows(p.Turned(), act.what, p'.Turned(), n, past.Turned(), l.Turned(), wide);
      JoinedTurned(p'.Turned(), n, past.Turned(), l');
      W.TurnedSound(l', wide);
      l' := l'.Turned();
    }
  }

  lemma {:induction false} RunFollows(trace: seq<Peers>, acts: seq<Act>, n: U32, past: Past, l0: W.Line, wide: bool) returns (l: W.Line)
    requires Run(trace, acts, n) && Joined(trace[0], n, past, l0) && W.Sound(l0, wide) && l0.out.sent == [] && l0.back.sent == []
    ensures W.Sound(l, wide) && Joined(trace[|acts|], n, past, l)
    ensures l.out.sent == Said(trace, acts, n, true) && l.back.sent == Said(trace, acts, n, false)
    decreases |acts|
  {
    hide W.Sound, Joined, Acts, LetOut;
    if acts == [] {
      l := l0;
    } else {
      var k := |acts| - 1;
      l := RunFollows(trace[..k + 1], acts[..k], n, past, l0, wide);
      l := ActFollows(trace[k], acts[k], trace[k + 1], n, past, l, wide);
    }
  }

  /** The two halves of a channel are the same, whatever replies are on order. */
  predicate SameHalves(v: View, v': View)
  {
    v'.tx == v.tx && v'.queue == v.queue && v'.rx == v.rx && v'.unacked == v.unacked
  }

  /** A channel just opened in both sessions, nothing of it on the wires, each window roomy for what the other end sends. */
  ghost predicate OpenedAt(p: Peers, n: U32)
  {
    && 0 < n <= MAX_CHANNEL_NO && n in p.here.views && n in p.there.views
    && SameHalves(FreshView(n, p.hereConf.windowSize), p.here.views[n])
    && SameHalves(FreshView(n, p.thereConf.windowSize), p.there.views[n])
    && On(p.toThere, n) == [] && On(p.toHere, n) == []
    && p.hereConf.windowSize <= MAX_FRAME_SIZE && p.thereConf.windowSize <= MAX_FRAME_SIZE
    && N.Roomy(p.thereConf.windowSize, p.hereConf.maxFrameSize) && N.Roomy(p.hereConf.windowSize, p.thereConf.maxFrameSize)
  }

  function FirstLine(p: Peers, n: U32): W.Line
  {
    W.Line(N.Fresh(n, p.thereConf.windowSize), p.hereConf.maxFrameSize, N.Fresh(n, p.hereConf.windowSize), p.thereConf.maxFrameSize, [], [])
  }

  lemma {:induction false} OpenedJoins(p: Peers, n: U32)
    requires OpenedAt(p, n)
    ensures Joined(p, n, Past(Heard(p.here.events, n), Heard(p.there.events, n)), FirstLine(p, n))
    ensures W.Sound(FirstLine(p, n), false)
    ensures p.hereConf.windowSize >= INITIAL_WINDOW_SIZE && p.thereConf.windowSize >= INITIAL_WINDOW_SIZE ==> W.Sound(FirstLine(p, n), true)
  {
    hide W.Sound, Heard, On;
    var l := FirstLine(p, n);
    assert W.JustOpened(l);
    W.FreshSound(l, false);
    if W.BothWide(l) {
      W.FreshSound(l, true);
    }
  }

  lemma {:induction false} SoundDelivers(l: W.Line, wide: bool)
    requires W.Sound(l, wide)
    ensures l.out.delivered <= l.out.sent && l.back.delivered <= l.back.sent
    ensures (wide || W.BothPrompt(l)) && l.toThere == [] && l.toHere == [] ==>
      l.out.delivered == l.out.sent && l.out.queue == [] && l.back.delivered == l.back.sent && l.back.queue == []
  {
    SaneDelivers(l.out, l.outMax, wide);
    SaneDelivers(l.back, l.backMax, wide);
    if (wide || W.BothPrompt(l)) && l.toThere == [] && l.toHere == [] {
      W.RestDelivered(l.out, l.outMax, wide);
      W.RestDelivered(l.back, l.backMax, wide);
    }
  }

  lemma {:induction false} LineLinked(l: W.Line, wide: bool)
    requires W.Sound(l, wide)
    ensures W.Linked(l)
  {
  }

  lemma {:induction false} LineWithin(l: W.Line, wide: bool)
    requires W.Sound(l, wide)
    ensures Within(W.DataOn(l.toThere), l.outMax)
  {
    W.SaneWithin(l.out, l.outMax, wide);
  }

  lemma {:induction false} SaneDelivers(net: N.Net, maxFrameSize: U32, wide: bool)
    requires W.Sane(net, maxFrameSize, wide)
    ensures net.delivered <= net.sent
  {
    var c :| N.Refines(net, c, maxFrameSize);
    hide N.ToCome, N.Widening, N.Contiguous;
  }

  /**
   * One end of the channel: nothing of it is refused, frames on their way keep to the size
   * configured where they come from, and what is reported is what the other end let out.
   */
  ghost predicate Served(start: Peers, p: Peers, n: U32, said: seq<Message>)
  {
    && (p.toThere != [] && p.toThere[0].Valid() && ChannelOf(p.toThere[0]) == n && Rested(p.there) ==>
          OnFrame(p.thereConf, p.there, p.toThere[0]).Ok?)
    && Within(W.DataOn(On(p.toThere, n)), p.hereConf.maxFrameSize)
    && Heard(start.there.events, n) <= Heard(p.there.events, n) <= Heard(start.there.events, n) + said
  }

  /** Nothing is left to do: all that was let out has been reported, and no message waits. */
  ghost predicate Finished(start: Peers, p: Peers, n: U32, said: seq<Message>)
  {
    && Heard(p.there.events, n) == Heard(start.there.events, n) + said
    && n in p.here.views && p.here.views[n].queue == []
  }

  lemma {:induction false} EndServed(start: Peers, p: Peers, n: U32, past: Past, l: W.Line, wide: bool)
    requires Joined(p, n, past, l) && W.Sound(l, wide) && past.there == Heard(start.there.events, n)
    ensures Served(start, p, n, l.out.sent)
  {
    hide W.Sound, Rested, OnFrame, On, Heard, Within;
    SoundDelivers(l, wide);
    LineWithin(l, wide);
    if p.toThere != [] && p.toThere[0].Valid() && ChannelOf(p.toThere[0]) == n && Rested(p.there) {
      FrameAccepted(p, n, past, l, wide);
    }
  }

  /** What one end was offered last is enough to bring the other to its threshold. */
  predicate PromptAt(p: Peers, n: U32)
  {
    n in p.here.views && n in p.there.views && Threshold(p.there.views[n].rx.window.size) <= p.here.views[n].tx.window.size
  }

  lemma {:induction false} PromptJoined(p: Peers, n: U32, past: Past, l: W.Line)
    requires Joined(p, n, past, l) && W.Linked(l) && l.toThere == [] && l.toHere == []
    ensures W.BothPrompt(l) <==> PromptAt(p, n) && PromptAt(p.Turned(), n)
  {
  }

  /**
   * A channel between two sessions. Whatever the two applications call and however arrivals
   * interleave, as long as the channel stays open and its windows do not shrink: no frame of it
   * is ever refused, and the messages each end reports on it are, in order, a beginning of those
   * the other let out. Once no frame of it is on either wire they are all of them, and nothing is
   * left queued, if the windows configured are at least the initial one or the last offers prompt.
   */
  lemma {:induction false} SessionsDeliver(trace: seq<Peers>, acts: seq<Act>, n: U32)
    requires Run(trace, acts, n) && OpenedAt(trace[0], n)
    ensures
      var (start, p) := (trace[0], trace[|acts|]);
      && Served(start, p, n, Said(trace, acts, n, true))
      && Served(start.Turned(), p.Turned(), n, Said(trace, acts, n, false))
      && ((start.hereConf.windowSize >= INITIAL_WINDOW_SIZE && start.thereConf.windowSize >= INITIAL_WINDOW_SIZE)
          || (PromptAt(p, n) && PromptAt(p.Turned(), n)) ==>
          On(p.toThere, n) == [] && On(p.toHere, n) == [] ==>
          Finished(start, p, n, Said(trace, acts, n, true)) && Finished(start.Turned(), p.Turned(), n, Said(trace, acts, n, false)))
  {
    hide Acts, OpenedAt, W.Sound, Rested, OnFrame, Said, On, Heard, Served;
    var (start, p) := (trace[0], trace[|acts|]);
    var wide := start.hereConf.windowSize >= INITIAL_WINDOW_SIZE && start.thereConf.windowSize >= INITIAL_WINDOW_SIZE;
    var past := Past(Heard(start.here.events, n), Heard(start.there.events, n));
    OpenedJoins(start, n);
    var l := RunFollows(trace, acts, n, past, FirstLine(start, n), wide);
    EndServed(start, p, n, past, l, wide);
    JoinedTurned(p, n, past, l);
    W.TurnedSound(l, wide);
    EndServed(start.Turned(), p.Turned(), n, past.Turned(), l.Turned(), wide);
    if On(p.toThere, n) == [] && On(p.toHere, n) == [] {
      LineLinked(l, wide);
      PromptJoined(p, n, past, l);
      SoundDelivers(l, wide);
    }
  }
}
