/**
 * What each call does to a session, as functions on a value that holds everything a session
 * knows. The class of `Sessions` is proved to compute exactly these functions.
 */
module SessionSteps {
  import opened Octets
  import opened Window
  import opened Frames
  import opened Flow
  import opened Replies
  import T = Tables
  import Channels
  import M = Management
  import Codec
  import CodecLaws

  datatype Event =
    | MessageReceived(channel: U32, message: Message)
    | GreetingReceived
    | StartRequested(channel: U32, msgno: U32)
    | CloseRequested(channel: U32, msgno: U32)
    | ChannelOpened(channel: U32)
    | StartRefused(channel: U32)
    | ChannelClosed(channel: U32)
    | CloseRefused(channel: U32)
    | SessionClosed

  /** Payloads as octets: how management messages are written and read, and which are greetings. */
  datatype Wire = Wire(write: M.Message -> Bytes, read: Bytes -> Option<M.Message>, greets: Bytes -> bool) {
    /** `Greeting::from_frame`: a complete RPY on channel 0, its message and sequence numbers zero, that holds a greeting. */
    predicate Greeting(f: DataFrame)
    {
      f.kind.Rpy? && f.channel == 0 && f.msgno == 0 && f.seqno == 0 && !f.more && greets(f.payload)
    }
  }

  datatype Config = Config(role: T.Role, maxFrameSize: U32, windowSize: U32, wire: Wire)

  /** What a session knows about one channel. */
  datatype View = View(tx: Sender, rx: Receiver, queue: seq<Message>, buffer: Buffer, unacked: U32)

  /** What a session knows: its channels, zero among them, its table, and all it has reported and written. */
  datatype Snapshot = Snapshot(views: map<U32, View>, table: T.Table, events: seq<Event>, written: seq<Frame>)

  function FreshView(number: U32, windowSize: U32): View
  {
    View(Sender(number, Window(0, INITIAL_WINDOW_SIZE), 0), Receiver(number, Window(0, windowSize), 0, None),
         [], Buffer([], map[], map[]), 0)
  }

  // ---- what holds between calls ------------------------------------------------------

  ghost predicate HeldRight(n: U32, held: map<U32, seq<Message>>)
  {
    forall k :: k in held ==> AllWellFormed(n, held[k])
  }

  /** Nothing ill formed is queued or held, and nothing that could be written is queued. */
  ghost predicate AtRest(n: U32, v: View)
  {
    && v.tx.number == n && v.rx.number == n
    && AllWellFormed(n, v.queue) && HeldRight(n, v.buffer.held) && Idle(v.tx, v.queue)
  }

  /** The receive ledger: octets expected are those acknowledged and those still to be. */
  ghost predicate Ledger(v: View)
  {
    v.rx.expected == Advance(v.rx.window.base, v.unacked)
  }

  ghost predicate Rested(s: Snapshot)
  {
    && s.views.Keys == s.table.open.Keys + {0}
    && (forall n :: n in s.views ==> AtRest(n, s.views[n]))
    && (!s.table.phase.Closed? ==> forall n :: n in s.views ==> Ledger(s.views[n]))
    && T.Sound(s.table)
  }

  lemma {:induction false} RestedAt(s: Snapshot, n: U32)
    requires Rested(s) && n in s.views
    ensures AtRest(n, s.views[n]) && (!s.table.phase.Closed? ==> Ledger(s.views[n]))
    ensures n == 0 || n in s.table.open
  {
  }

  /** A session that changes one channel and leaves the table alone stays at rest. */
  lemma {:induction false} RestedWith(s: Snapshot, n: U32, v: View, s': Snapshot)
    requires Rested(s) && n in s.views && AtRest(n, v) && (!s.table.phase.Closed? ==> Ledger(v))
    requires s'.views == s.views[n := v] && s'.table == s.table
    ensures Rested(s')
  {
  }

  /** A session that has just begun. */
  function Begun(c: Config): Snapshot
  {
    Snapshot(map[0 := FreshView(0, c.windowSize)], T.Initial(c.role), [], [])
  }

  lemma {:induction false} BegunRests(c: Config)
    ensures Rested(Begun(c))
  {
    assert AllWellFormed(0, []) && HeldRight(0, map[]);
  }

  // ---- writing -----------------------------------------------------------------------

  /** Channel `n` becomes `v` with `queue` flushed from `tx` on. */
  function Flushing(c: Config, s: Snapshot, n: U32, v: View, tx: Sender, queue: seq<Message>): Snapshot
    requires AllWellFormed(tx.number, queue)
  {
    var r := Flow.Flush(tx, queue, c.maxFrameSize);
    s.(views := s.views[n := v.(tx := r.tx, queue := r.queue)], written := s.written + AsFrames(r.frames))
  }

  lemma {:induction false} FlushingRests(c: Config, s: Snapshot, n: U32, v: View, tx: Sender, queue: seq<Message>)
    requires Rested(s) && n in s.views && AllWellFormed(n, queue) && tx.number == n
    requires v.rx.number == n && HeldRight(n, v.buffer.held) && (!s.table.phase.Closed? ==> Ledger(v))
    ensures Rested(Flushing(c, s, n, v, tx, queue))
  {
    hide Flow.Flush, AsFrames;
    FlushKeeps(tx, queue, c.maxFrameSize);
    FlushLeavesIdle(tx, queue, c.maxFrameSize);
    var r := Flow.Flush(tx, queue, c.maxFrameSize);
    RestedWith(s, n, v.(tx := r.tx, queue := r.queue), Flushing(c, s, n, v, tx, queue));
  }

  // ---- sending -----------------------------------------------------------------------

  /** What the reorder buffer lets through is well formed if what goes in is. */
  lemma {:induction false} SubmitWellFormed(n: U32, b: Buffer, q: Request)
    requires HeldRight(n, b.held) && WellFormed(n, Numbered(b.nextAnsno, q))
    ensures AllWellFormed(n, Submit(b, q).1) && HeldRight(n, Submit(b, q).0.held)
  {
    var m := Numbered(b.nextAnsno, q);
    ReleaseWellFormed(n, Popped(b.order, m.msgno), b.held);
    assert AllWellFormed(n, HeldFor(b.held, m.msgno));
  }

  /** What is released was held, and so was what stays behind. */
  lemma {:induction false} ReleaseWellFormed(n: U32, order: seq<U32>, held: map<U32, seq<Message>>)
    requires HeldRight(n, held)
    ensures AllWellFormed(n, Release(order, held).out) && HeldRight(n, Release(order, held).held)
    decreases |order|
  {
    if order != [] && order[0] in held && Completes(held[order[0]]) {
      ReleaseWellFormed(n, order[1..], held - {order[0]});
    }
  }

  lemma {:induction false} WellFormedAppend(n: U32, q: seq<Message>, more: seq<Message>)
    requires AllWellFormed(n, q) && AllWellFormed(n, more)
    ensures AllWellFormed(n, q + more)
  {
  }

  /** What `send` demands of its caller: a request the frame constructors accept. */
  predicate Sendable(s: Snapshot, n: U32, q: Request)
  {
    n in s.views && n != 0 ==> WellFormed(n, Numbered(s.views[n].buffer.nextAnsno, q))
  }

  /** `send`. */
  function Post(c: Config, s: Snapshot, n: U32, q: Request): Result<Snapshot, Error>
    requires Rested(s) && Sendable(s, n, q)
  {
    if n == 0 || n !in s.views then Failed(NoSuchChannel(n))
    else
      var v := s.views[n];
      RestedAt(s, n);
      SubmitWellFormed(n, v.buffer, q);
      WellFormedAppend(n, v.queue, Submit(v.buffer, q).1);
      var (b, out) := Submit(v.buffer, q);
      Ok(Flushing(c, s, n, v.(buffer := b), v.tx, v.queue + out))
  }

  lemma {:induction false} PostRests(c: Config, s: Snapshot, n: U32, q: Request)
    requires Rested(s) && Sendable(s, n, q) && Post(c, s, n, q).Ok?
    ensures Rested(Post(c, s, n, q).value)
  {
    hide Flushing, Submit, WellFormed, Rested;
    var v := s.views[n];
    RestedAt(s, n);
    SubmitWellFormed(n, v.buffer, q);
    WellFormedAppend(n, v.queue, Submit(v.buffer, q).1);
    var (b, out) := Submit(v.buffer, q);
    FlushingRests(c, s, n, v.(buffer := b), v.tx, v.queue + out);
  }

  // ---- receiving ---------------------------------------------------------------------

  /** `handle_seq`. */
  function OnSeq(c: Config, s: Snapshot, q: SeqFrame): Result<Snapshot, Error>
    requires Rested(s)
  {
    var n := q.channel;
    if n !in s.views then Failed(NoSuchChannel(n))
    else
      RestedAt(s, n);
      Ok(Flushing(c, s, n, s.views[n], ApplySeq(s.views[n].tx, q), s.views[n].queue))
  }

  function SeqOf(k: Acknowledged): seq<Frame>
  {
    if k.outcome.Ok? && k.outcome.value.Some? then [Seq(k.outcome.value.value)] else []
  }

  /** `accept` and `acknowledge` on channel `n`. */
  function Taking(s: Snapshot, n: U32, f: DataFrame): Result<(Snapshot, Option<Message>), Error>
    requires n in s.views && |f.payload| <= MAX_FRAME_SIZE
  {
    var v := s.views[n];
    var (k, outcome) := TakeFrame(v.rx, v.unacked, f);
    if k.outcome.Failed? then Failed(k.outcome.error)
    else Ok((s.(views := s.views[n := v.(rx := k.rx, unacked := k.unacked)], written := s.written + SeqOf(k)), outcome.value))
  }

  /** A message is complete: its place in the order of replies is noted, and the application told. */
  function Reporting(s: Snapshot, n: U32, message: Message): Snapshot
    requires n in s.views
  {
    var v := s.views[n];
    var order := v.buffer.order + if message.kind.Msg? then [message.msgno] else [];
    s.(views := s.views[n := v.(buffer := v.buffer.(order := order))], events := s.events + [MessageReceived(n, message)])
  }

  /** `handle_data` on a numbered channel. */
  function OnData(s: Snapshot, f: DataFrame): Result<Snapshot, Error>
    requires Rested(s) && |f.payload| <= MAX_FRAME_SIZE
  {
    var n := f.channel;
    if n !in s.views then Failed(NoSuchChannel(n))
    else
      var taken := Taking(s, n, f);
      if taken.Failed? then Failed(taken.error)
      else if taken.value.1.None? then Ok(taken.value.0)
      else Ok(Reporting(taken.value.0, n, taken.value.1.value))
  }

  /** Accepting and acknowledging keeps the receiver's number and its ledger. */
  lemma {:induction false} TakeFrameLedger(rx: Receiver, unacked: U32, f: DataFrame)
    requires |f.payload| <= MAX_FRAME_SIZE && TakeFrame(rx, unacked, f).0.outcome.Ok?
    ensures TakeFrame(rx, unacked, f).1.Ok? && TakeFrame(rx, unacked, f).0.rx.number == rx.number
    ensures rx.expected == Advance(rx.window.base, unacked) ==>
      var k := TakeFrame(rx, unacked, f).0; k.rx.expected == Advance(k.rx.window.base, k.unacked)
  {
  }

  lemma {:induction false} TakingRests(s: Snapshot, n: U32, f: DataFrame)
    requires Rested(s) && n in s.views && |f.payload| <= MAX_FRAME_SIZE && Taking(s, n, f).Ok?
    ensures Rested(Taking(s, n, f).value.0) && n in Taking(s, n, f).value.0.views
  {
    hide TakeFrame;
    RestedAt(s, n);
    var v := s.views[n];
    TakeFrameLedger(v.rx, v.unacked, f);
    var k := TakeFrame(v.rx, v.unacked, f).0;
    RestedWith(s, n, v.(rx := k.rx, unacked := k.unacked), Taking(s, n, f).value.0);
  }

  lemma {:induction false} OnDataRests(s: Snapshot, f: DataFrame)
    requires Rested(s) && |f.payload| <= MAX_FRAME_SIZE && OnData(s, f).Ok?
    ensures Rested(OnData(s, f).value)
  {
    hide Taking, Rested;
    var n := f.channel;
    TakingRests(s, n, f);
    var s' := Taking(s, n, f).value.0;
    RestedAt(s', n);
    RestedWith(s', n, OnData(s, f).value.views[n], OnData(s, f).value);
  }

  lemma {:induction false} OnSeqRests(c: Config, s: Snapshot, q: SeqFrame)
    requires Rested(s) && OnSeq(c, s, q).Ok?
    ensures Rested(OnSeq(c, s, q).value)
  {
    hide Flushing;
    RestedAt(s, q.channel);
    FlushingRests(c, s, q.channel, s.views[q.channel], ApplySeq(s.views[q.channel].tx, q), s.views[q.channel].queue);
  }

  // ---- channel management ------------------------------------------------------------

  predicate ZeroReady(s: Snapshot)
  {
    0 in s.views && s.views[0].tx.number == 0 && AllWellFormed(0, s.views[0].queue)
  }

  /** A message on channel 0 goes through its queue like any other. */
  function Telling(c: Config, s: Snapshot, message: Message): Snapshot
    requires ZeroReady(s) && WellFormed(0, message)
  {
    var v := s.views[0];
    WellFormedAppend(0, v.queue, [message]);
    Flushing(c, s, 0, v, v.tx, v.queue + [message])
  }

  lemma {:induction false} TellingRests(c: Config, s: Snapshot, message: Message)
    requires Rested(s) && WellFormed(0, message)
    ensures ZeroReady(s) && Rested(Telling(c, s, message))
  {
    hide Flushing;
    RestedAt(s, 0);
    var v := s.views[0];
    WellFormedAppend(0, v.queue, [message]);
    FlushingRests(c, s, 0, v, v.tx, v.queue + [message]);
  }

  /** The end of `Session::new`: the greeting, and then the window on offer if it is wider than the peer assumes. */
  function Announcing(c: Config, s: Snapshot, greeting: Bytes): Snapshot
    requires ZeroReady(s)
  {
    var window := s.views[0].rx.window;
    var s' := Telling(c, s, Message(Rpy, 0, None, greeting));
    s'.(written := s'.written + if c.windowSize > INITIAL_WINDOW_SIZE && window.size <= MAX_FRAME_SIZE
                                then [Seq(SeqFrame(0, window.base, window.size))] else [])
  }

  lemma {:induction false} AnnouncingRests(c: Config, s: Snapshot, greeting: Bytes)
    requires Rested(s)
    ensures ZeroReady(s) && Rested(Announcing(c, s, greeting))
  {
    hide Rested, Telling, T.Sound;
    TellingRests(c, s, Message(Rpy, 0, None, greeting));
    RestedSound(Telling(c, s, Message(Rpy, 0, None, greeting)));
    TableRests(Telling(c, s, Message(Rpy, 0, None, greeting)), Announcing(c, s, greeting));
  }

  function WriteZero(c: Config, s: Snapshot, kind: FrameKind, msgno: U32, m: M.Message): Snapshot
    requires ZeroReady(s) && msgno <= MAX_MSG_NO && !kind.HasAnsNo()
  {
    Telling(c, s, Message(kind, msgno, None, c.wire.write(m)))
  }

  lemma {:induction false} WriteZeroRests(c: Config, s: Snapshot, kind: FrameKind, msgno: U32, m: M.Message)
    requires Rested(s) && msgno <= MAX_MSG_NO && !kind.HasAnsNo()
    ensures ZeroReady(s) && Rested(WriteZero(c, s, kind, msgno, m))
  {
    hide Telling, Rested;
    TellingRests(c, s, Message(kind, msgno, None, c.wire.write(m)));
  }

  /** What closing does to the channels: one goes, or all of them and what channel 0 still had to do. */
  function Forget(views: map<U32, View>, channel: U32): map<U32, View>
    requires 0 in views
  {
    if channel == 0 then map[0 := views[0].(queue := [], buffer := Buffer([], map[], views[0].buffer.nextAnsno), unacked := 0)]
    else views - {channel}
  }

  lemma {:induction false} ForgetOne(views: map<U32, View>, channel: U32)
    requires 0 in views && channel != 0
    ensures Forget(views, channel) == views - {channel}
  {
  }

  function Closing(s: Snapshot, t: T.Table, channel: U32): Snapshot
    requires 0 in s.views
  {
    s.(views := Forget(s.views, channel), table := t,
       events := s.events + [if channel == 0 then SessionClosed else ChannelClosed(channel)])
  }

  function Opening(c: Config, s: Snapshot, t: T.Table, channel: U32): Snapshot
  {
    s.(views := s.views[channel := FreshView(channel, c.windowSize)], table := t)
  }

  /** What a management message means for the table, if anything. */
  function Meant(kind: FrameKind, msgno: U32, m: M.Message): Option<T.Step>
  {
    if kind.Rpy? && m.Accepted? then Some(T.ProfileReply(msgno))
    else if kind.Rpy? && m.Okay? then Some(T.OkReply(msgno))
    else if kind.Err? && m.Refused? then Some(T.ErrorReply(msgno))
    else None
  }

  /** A reply to a request of this end: the table moves, a channel opens or closes, and the application is told. */
  function OnReply(c: Config, s: Snapshot, msgno: U32, step: T.Step): Result<Snapshot, Error>
    requires 0 in s.views && (step == T.ProfileReply(msgno) || step == T.OkReply(msgno) || step == T.ErrorReply(msgno))
  {
    var t := T.Next(s.table, step);
    if t.Failed? then Failed(t.error)
    else
      var p := s.table.pending[msgno];
      match step
      case ProfileReply(_) =>
        var s' := Opening(c, s, t.value, p.number);
        Ok(s'.(events := s'.events + [ChannelOpened(p.number)]))
      case OkReply(_) => Ok(Closing(s, t.value, p.number))
      case ErrorReply(_) =>
        Ok(s.(table := t.value, events := s.events + [if p.Start? then StartRefused(p.number) else CloseRefused(p.number)]))
      case _ => Failed(UnexpectedElement)
  }

  /** `dispatch_management`. */
  function Dispatch(c: Config, s: Snapshot, kind: FrameKind, msgno: U32, m: M.Message): Result<Snapshot, Error>
    requires 0 in s.views
  {
    if kind.Msg? && m.Start? then Ok(s.(events := s.events + [StartRequested(m.number, msgno)]))
    else if kind.Msg? && m.Close? then Ok(s.(events := s.events + [CloseRequested(m.number, msgno)]))
    else
      var step := Meant(kind, msgno, m);
      if step.None? then Failed(UnexpectedElement) else OnReply(c, s, msgno, step.value)
  }

  /** `handle_channel_zero`. */
  function OnZero(c: Config, s: Snapshot, f: DataFrame): Result<Snapshot, Error>
    requires 0 in s.views && |f.payload| <= MAX_FRAME_SIZE
  {
    if s.table.phase.AwaitingGreeting? then
      if !c.wire.Greeting(f) then Failed(NotAGreeting)
      else
        var taken := Taking(s, 0, f);
        if taken.Failed? then Failed(taken.error)
        else
          var s' := taken.value.0;
          Ok(s'.(table := s'.table.(phase := T.Ready), events := s'.events + [GreetingReceived]))
    else
      var taken := Taking(s, 0, f);
      if taken.Failed? then Failed(taken.error)
      else if taken.value.1.None? then Ok(taken.value.0)
      else
        var message := taken.value.1.value;
        var m := c.wire.read(message.payload);
        if m.None? then Failed(NotBeepXml) else Dispatch(c, taken.value.0, message.kind, message.msgno, m.value)
  }

  /** `handle_frame`. */
  function OnFrame(c: Config, s: Snapshot, f: Frame): Result<Snapshot, Error>
    requires Rested(s) && f.Valid()
  {
    if f.Seq? then OnSeq(c, s, f.seqf)
    else if f.data.channel == 0 then OnZero(c, s, f.data)
    else OnData(s, f.data)
  }

  // ---- management keeps the session at rest ------------------------------------------

  lemma {:induction false} OpeningRests(c: Config, s: Snapshot, t: T.Table, channel: U32, origin: T.Origin)
    requires Rested(s) && T.Sound(t) && t.open == s.table.open[channel := origin] && t.phase == s.table.phase && channel != 0
    ensures Rested(Opening(c, s, t, channel))
  {
    hide T.Sound;
    assert AtRest(channel, FreshView(channel, c.windowSize)) && Ledger(FreshView(channel, c.windowSize));
  }

  lemma {:induction false} ClosingRests(s: Snapshot, t: T.Table, channel: U32)
    requires Rested(s) && T.Sound(t)
    requires channel == 0 ==> t.open == map[] && t.phase.Closed?
    requires channel != 0 ==> t.open == s.table.open - {channel} && t.phase == s.table.phase
    ensures Rested(Closing(s, t, channel))
  {
    hide T.Sound;
    RestedAt(s, 0);
    if channel == 0 {
      var v := Forget(s.views, 0)[0];
      assert HeldRight(0, map[]) && AllWellFormed(0, []) && AtRest(0, v);
    }
  }

  lemma {:induction false} TableRests(s: Snapshot, s': Snapshot)
    requires Rested(s) && T.Sound(s'.table) && s'.views == s.views && s'.table.open == s.table.open
    requires s.table.phase.Closed? <==> s'.table.phase.Closed?
    ensures Rested(s')
  {
    hide T.Sound, AtRest;
  }

  lemma {:induction false} OnReplyRests(c: Config, s: Snapshot, msgno: U32, step: T.Step)
    requires Rested(s) && (step == T.ProfileReply(msgno) || step == T.OkReply(msgno) || step == T.ErrorReply(msgno))
    requires OnReply(c, s, msgno, step).Ok?
    ensures Rested(OnReply(c, s, msgno, step).value)
  {
    hide Rested, T.Sound, Closing;
    RestedSound(s);
    T.StepSound(s.table, step);
    var p := s.table.pending[msgno];
    var t := T.Next(s.table, step).value;
    var r := OnReply(c, s, msgno, step).value;
    match step
    case ProfileReply(_) =>
      StartNew(s.table, msgno);
      OpeningRests(c, s, t, p.number, T.Own);
      TableRests(Opening(c, s, t, p.number), r);
    case OkReply(_) => ClosingRests(s, t, p.number);
    case ErrorReply(_) => TableRests(s, r);
    case _ =>
  }

  lemma {:induction false} RestedSound(s: Snapshot)
    requires Rested(s)
    ensures T.Sound(s.table) && 0 in s.views
  {
  }

  /** The channel of a start the peer accepts is neither zero nor open. */
  lemma {:induction false} StartNew(t: T.Table, msgno: U32)
    requires T.Sound(t) && msgno in t.pending && t.pending[msgno].Start?
    ensures t.pending[msgno].number != 0 && t.pending[msgno].number !in t.open
  {
  }

  lemma {:induction false} DispatchRests(c: Config, s: Snapshot, kind: FrameKind, msgno: U32, m: M.Message)
    requires Rested(s) && Dispatch(c, s, kind, msgno, m).Ok?
    ensures Rested(Dispatch(c, s, kind, msgno, m).value)
  {
    hide Rested, OnReply, T.Sound;
    RestedSound(s);
    if kind.Msg? && (m.Start? || m.Close?) {
      TableRests(s, Dispatch(c, s, kind, msgno, m).value);
    } else {
      OnReplyRests(c, s, msgno, Meant(kind, msgno, m).value);
    }
  }

  lemma {:induction false} OnZeroRests(c: Config, s: Snapshot, f: DataFrame)
    requires Rested(s) && |f.payload| <= MAX_FRAME_SIZE && OnZero(c, s, f).Ok?
    ensures Rested(OnZero(c, s, f).value)
  {
    hide Rested, Taking, Dispatch, T.Sound;
    RestedSound(s);
    TakingRests(s, 0, f);
    TakingTable(s, 0, f);
    var s' := Taking(s, 0, f).value.0;
    RestedSound(s');
    if s.table.phase.AwaitingGreeting? {
      GreetSound(s'.table);
      TableRests(s', OnZero(c, s, f).value);
    } else if Taking(s, 0, f).value.1.Some? {
      var message := Taking(s, 0, f).value.1.value;
      DispatchRests(c, s', message.kind, message.msgno, c.wire.read(message.payload).value);
    }
  }

  lemma {:induction false} TakingTable(s: Snapshot, n: U32, f: DataFrame)
    requires n in s.views && |f.payload| <= MAX_FRAME_SIZE && Taking(s, n, f).Ok?
    ensures Taking(s, n, f).value.0.table == s.table
  {
  }

  lemma {:induction false} GreetSound(t: T.Table)
    requires T.Sound(t) && t.phase.AwaitingGreeting?
    ensures T.Sound(t.(phase := T.Ready)) && T.Next(t, T.Greet) == Ok(t.(phase := T.Ready))
  {
    T.StepSound(t, T.Greet);
  }

  lemma {:induction false} OnFrameRests(c: Config, s: Snapshot, f: Frame)
    requires Rested(s) && f.Valid() && OnFrame(c, s, f).Ok?
    ensures Rested(OnFrame(c, s, f).value)
  {
    hide Rested, OnSeq, OnZero, OnData;
    if f.Seq? {
      OnSeqRests(c, s, f.seqf);
    } else if f.data.channel == 0 {
      OnZeroRests(c, s, f.data);
    } else {
      OnDataRests(s, f.data);
    }
  }

  // ---- input -------------------------------------------------------------------------

  /** Frames acted upon one after the other, until one fails. */
  function OnFrames(c: Config, s: Snapshot, fs: seq<Frame>): (r: Result<Snapshot, Error>)
    requires Rested(s) && Codec.AllValid(fs)
    ensures r.Ok? ==> Rested(r.value)
    decreases |fs|
  {
    if fs == [] then Ok(s)
    else
      var s' := OnFrame(c, s, fs[0]);
      if s'.Failed? then s'
      else
        OnFrameRests(c, s, fs[0]);
        OnFrames(c, s'.value, fs[1..])
  }

  lemma {:induction false} DecodedAllValid(pending: Option<Codec.DataHeader>, maxFrameSize: U32, src: Bytes)
    ensures Codec.AllValid(Codec.DecodeAll(pending, maxFrameSize, src).frames)
    decreases |src|
  {
    hide Codec.Decode, Codec.DecodeAll, Frame.Valid;
    CodecLaws.DecodeAllStep(pending, maxFrameSize, src);
    var step := Codec.Decode(pending, maxFrameSize, src);
    if step.Yield? {
      CodecLaws.DecodedValid(pending, maxFrameSize, src);
      DecodedAllValid(None, maxFrameSize, step.rest);
    }
  }

  /** `handle_input`: what the octets decode to, acted upon in order; a frame that fails comes before octets that do not decode. */
  function OnInput(c: Config, s: Snapshot, pending: Option<Codec.DataHeader>, maxFrameSize: U32, src: Bytes): Result<Snapshot, Error>
    requires Rested(s)
  {
    DecodedAllValid(pending, maxFrameSize, src);
    var d := Codec.DecodeAll(pending, maxFrameSize, src);
    var r := OnFrames(c, s, d.frames);
    if r.Ok? && d.end.Fail? then Failed(d.end.error) else r
  }

  /** One turn of its loop. */
  lemma {:induction false} OnInputStep(c: Config, s: Snapshot, pending: Option<Codec.DataHeader>, maxFrameSize: U32, src: Bytes)
    requires Rested(s)
    ensures
      var step := Codec.Decode(pending, maxFrameSize, src);
      var r := OnInput(c, s, pending, maxFrameSize, src);
      if step.Fail? then r == Failed(step.error)
      else if step.Wait? then r == Ok(s)
      else
        && step.frame.Valid()
        && var s' := OnFrame(c, s, step.frame);
           if s'.Failed? then r == s' else Rested(s'.value) && r == OnInput(c, s'.value, None, maxFrameSize, step.rest)
  {
    hide Codec.Decode, Codec.DecodeAll, OnFrame, Rested, Frame.Valid;
    DecodedAllValid(pending, maxFrameSize, src);
    CodecLaws.DecodeAllStep(pending, maxFrameSize, src);
    var step := Codec.Decode(pending, maxFrameSize, src);
    if step.Yield? {
      CodecLaws.DecodedValid(pending, maxFrameSize, src);
      var s' := OnFrame(c, s, step.frame);
      if s'.Ok? {
        OnFrameRests(c, s, step.frame);
        var d := Codec.DecodeAll(pending, maxFrameSize, src);
        assert d.frames[1..] == Codec.DecodeAll(None, maxFrameSize, step.rest).frames;
        DecodedAllValid(None, maxFrameSize, step.rest);
      }
    }
  }

  lemma {:induction false} OnFramesJoin(c: Config, s: Snapshot, a: seq<Frame>, b: seq<Frame>)
    requires Rested(s) && Codec.AllValid(a) && Codec.AllValid(b)
    ensures Codec.AllValid(a + b)
    ensures
      var r := OnFrames(c, s, a);
      OnFrames(c, s, a + b) == if r.Ok? then OnFrames(c, r.value, b) else r
    decreases |a|
  {
    hide Rested, OnFrame, Frame.Valid;
    if a == [] {
      assert a + b == b;
    } else {
      assert (a + b)[0] == a[0] && (a + b)[1..] == a[1..] + b;
      var s' := OnFrame(c, s, a[0]);
      if s'.Ok? {
        OnFrameRests(c, s, a[0]);
        OnFramesJoin(c, s'.value, a[1..], b);
      }
    }
  }

  /** How the octets were cut does not matter: input in two parts does what it does in one. */
  lemma {:induction false} InputInTwo(c: Config, s: Snapshot, pending: Option<Codec.DataHeader>, maxFrameSize: U32, src: Bytes, more: Bytes)
    requires Rested(s)
    ensures
      var r := OnInput(c, s, pending, maxFrameSize, src);
      var end := Codec.DecodeAll(pending, maxFrameSize, src).end;
      && (r.Ok? ==> end.Wait? && Rested(r.value))
      && OnInput(c, s, pending, maxFrameSize, src + more) ==
         if r.Ok? then OnInput(c, r.value, end.pending, maxFrameSize, end.kept + more) else r
  {
    hide Rested, Codec.DecodeAll, OnFrames;
    DecodedAllValid(pending, maxFrameSize, src);
    DecodedAllValid(pending, maxFrameSize, src + more);
    CodecLaws.DecodeAllJoins(pending, maxFrameSize, src, more);
    var d := Codec.DecodeAll(pending, maxFrameSize, src);
    if d.end.Wait? {
      DecodedAllValid(d.end.pending, maxFrameSize, d.end.kept + more);
      var d' := Codec.DecodeAll(d.end.pending, maxFrameSize, d.end.kept + more);
      OnFramesJoin(c, s, d.frames, d'.frames);
    }
  }

  /** Octets that encode a list of frames do what the frames do. */
  lemma {:induction false} InputOfFrames(c: Config, s: Snapshot, maxFrameSize: U32, fs: seq<Frame>)
    requires Rested(s) && CodecLaws.Fit(fs, maxFrameSize)
    ensures OnInput(c, s, None, maxFrameSize, Codec.EncodeAll(fs)) == OnFrames(c, s, fs)
  {
    hide Rested, Codec.DecodeAll, OnFrames, Codec.EncodeAll;
    CodecLaws.StreamRoundTrip(fs, maxFrameSize);
    DecodedAllValid(None, maxFrameSize, Codec.EncodeAll(fs));
  }

  // ---- requests and answers of this end ----------------------------------------------

  /** `start_channel`, under message number `msgno`. */
  function Start(c: Config, s: Snapshot, profile: M.Profile, msgno: U32): Result<Snapshot, Error>
    requires Rested(s) && msgno <= MAX_MSG_NO
  {
    var t := T.Next(s.table, T.StartChannel(msgno));
    if t.Failed? then Failed(t.error)
    else
      RestedAt(s, 0);
      Ok(WriteZero(c, s.(table := t.value), Msg, msgno, M.Start(s.table.nextChannel, None, [profile])))
  }

  /** `close_channel`, under message number `msgno`. */
  function Close(c: Config, s: Snapshot, channel: U32, msgno: U32): Result<Snapshot, Error>
    requires Rested(s) && msgno <= MAX_MSG_NO
  {
    var t := T.Next(s.table, T.CloseChannel(channel, msgno));
    if t.Failed? then Failed(t.error)
    else
      RestedAt(s, 0);
      Ok(WriteZero(c, s.(table := t.value), Msg, msgno, M.Close(channel, 200, None, None)))
  }

  /** `accept_start`. */
  function AcceptStart(c: Config, s: Snapshot, channel: U32, msgno: U32, profile: M.Profile): Result<Snapshot, Error>
    requires Rested(s) && msgno <= MAX_MSG_NO
  {
    var t := T.Next(s.table, T.AcceptStart(channel));
    if t.Failed? then Failed(t.error)
    else
      RestedAt(s, 0);
      Ok(WriteZero(c, Opening(c, s, t.value, channel), Rpy, msgno, M.Accepted(profile)))
  }

  /** `refuse_start` and `refuse_close`. */
  function Refuse(c: Config, s: Snapshot, msgno: U32, error: M.Message): Snapshot
    requires Rested(s) && msgno <= MAX_MSG_NO
  {
    RestedAt(s, 0);
    WriteZero(c, s, Err, msgno, error)
  }

  /** `accept_close`: the peer is told, then the channel goes. */
  function AcceptClose(c: Config, s: Snapshot, channel: U32, msgno: U32): Snapshot
    requires Rested(s) && msgno <= MAX_MSG_NO
  {
    RestedAt(s, 0);
    var s' := WriteZero(c, s, Rpy, msgno, M.Okay);
    Closing(s', T.FinishClose(s.table, channel), channel)
  }

  /** `set_window_size`. */
  function Resize(s: Snapshot, n: U32, size: U32): Result<Snapshot, Error>
  {
    if n == 0 || n !in s.views then Failed(NoSuchChannel(n))
    else
      var v := s.views[n];
      Ok(s.(views := s.views[n := v.(rx := v.rx.(window := v.rx.window.Resized(size)))]))
  }

  lemma {:induction false} RequestRests(c: Config, s: Snapshot, step: T.Step, msgno: U32, m: M.Message)
    requires Rested(s) && T.Enabled(s.table, step) && (step.StartChannel? || step.CloseChannel?) && msgno <= MAX_MSG_NO
    requires T.Next(s.table, step).Ok?
    ensures
      var s' := s.(table := T.Next(s.table, step).value);
      ZeroReady(s') && Rested(s') && Rested(WriteZero(c, s', Msg, msgno, m))
  {
    hide T.Sound, WriteZero, Rested, ZeroReady;
    RestedSound(s);
    T.StepSound(s.table, step);
    var s' := s.(table := T.Next(s.table, step).value);
    TableRests(s, s');
    WriteZeroRests(c, s', Msg, msgno, m);
  }

  lemma {:induction false} AcceptStartRests(c: Config, s: Snapshot, channel: U32, msgno: U32, profile: M.Profile)
    requires Rested(s) && msgno <= MAX_MSG_NO && AcceptStart(c, s, channel, msgno, profile).Ok?
    ensures Rested(AcceptStart(c, s, channel, msgno, profile).value)
  {
    hide T.Sound, WriteZero, Rested;
    RestedSound(s);
    T.StepSound(s.table, T.AcceptStart(channel));
    var t := T.Next(s.table, T.AcceptStart(channel)).value;
    OpeningRests(c, s, t, channel, T.Peer);
    WriteZeroRests(c, Opening(c, s, t, channel), Rpy, msgno, M.Accepted(profile));
  }

  lemma {:induction false} WriteZeroKeeps(c: Config, s: Snapshot, kind: FrameKind, msgno: U32, m: M.Message)
    requires Rested(s) && msgno <= MAX_MSG_NO && !kind.HasAnsNo()
    ensures ZeroReady(s) && WriteZero(c, s, kind, msgno, m).table == s.table
    ensures WriteZero(c, s, kind, msgno, m).views.Keys == s.views.Keys
  {
    hide T.Sound;
    RestedAt(s, 0);
  }

  lemma {:induction false} AcceptCloseRests(c: Config, s: Snapshot, channel: U32, msgno: U32)
    requires Rested(s) && msgno <= MAX_MSG_NO
    ensures Rested(AcceptClose(c, s, channel, msgno))
  {
    hide T.Sound, WriteZero, Rested;
    RestedSound(s);
    T.StepSound(s.table, T.AcceptClose(channel));
    WriteZeroRests(c, s, Rpy, msgno, M.Okay);
    WriteZeroKeeps(c, s, Rpy, msgno, M.Okay);
    ClosingRests(WriteZero(c, s, Rpy, msgno, M.Okay), T.FinishClose(s.table, channel), channel);
  }

  lemma {:induction false} ResizeRests(s: Snapshot, n: U32, size: U32)
    requires Rested(s) && Resize(s, n, size).Ok?
    ensures Rested(Resize(s, n, size).value)
  {
    hide T.Sound, Rested;
    RestedAt(s, n);
    RestedWith(s, n, Resize(s, n, size).value.views[n], Resize(s, n, size).value);
  }

  // ---- whole runs --------------------------------------------------------------------

  /** What an application can do with a session, octets from the peer included. */
  datatype Call =
    | Input(octets: Bytes)
    | Transmit
    | Send(channel: U32, request: Request)
    | SendMsg(channel: U32, payload: Bytes)
    | StartChannel(profile: M.Profile)
    | CloseChannel(channel: U32)
    | GrantStart(channel: U32, msgno: U32, profile: M.Profile)
    | Decline(msgno: U32, error: M.Message)
    | GrantClose(channel: U32, msgno: U32)
    | SetWindowSize(channel: U32, size: U32)

  /** Message and channel numbers that frames can carry. */
  predicate Carriable(call: Call)
  {
    && (call.GrantStart? || call.Decline? || call.GrantClose? ==> call.msgno <= MAX_MSG_NO)
    && (call.SendMsg? ==> call.channel <= MAX_CHANNEL_NO)
  }

  /** What a call made of the session; one that fails leaves it alone. */
  ghost predicate Became(s: Snapshot, r: Result<Snapshot, Error>, s': Snapshot)
  {
    s' == if r.Ok? then r.value else s
  }

  ghost predicate InputDid(c: Config, s: Snapshot, s': Snapshot)
    requires Rested(s)
  {
    exists fs :: Codec.AllValid(fs) && OnFrames(c, s, fs) == Ok(s')
  }

  ghost predicate SendMsgDid(c: Config, s: Snapshot, n: U32, payload: Bytes, s': Snapshot)
    requires Rested(s)
  {
    exists msgno: U32 :: Sendable(s, n, Request(Msg, msgno, None, payload)) && Post(c, s, n, Request(Msg, msgno, None, payload)) == Ok(s')
  }

  ghost predicate StartDid(c: Config, s: Snapshot, profile: M.Profile, s': Snapshot)
    requires Rested(s)
  {
    exists msgno: U32 ::
      T.Enabled(s.table, T.StartChannel(msgno)) && msgno <= MAX_MSG_NO && Start(c, s, profile, msgno) == Ok(s')
  }

  ghost predicate CloseDid(c: Config, s: Snapshot, channel: U32, s': Snapshot)
    requires Rested(s)
  {
    exists msgno: U32 ::
      T.Enabled(s.table, T.CloseChannel(channel, msgno)) && msgno <= MAX_MSG_NO && Close(c, s, channel, msgno) == Ok(s')
  }

  /** One call that is not the end of the session. */
  ghost predicate Steps(c: Config, s: Snapshot, call: Call, s': Snapshot)
  {
    && Rested(s) && Carriable(call)
    && match call
       case Input(_) => InputDid(c, s, s')
       case Transmit => s' == s
       case Send(n, q) => Sendable(s, n, q) && Became(s, Post(c, s, n, q), s')
       case SendMsg(n, payload) => s' == s || SendMsgDid(c, s, n, payload, s')
       case StartChannel(profile) => if s.table.phase.Ready? then StartDid(c, s, profile, s') else s' == s
       case CloseChannel(n) => s' == s || CloseDid(c, s, n, s')
       case GrantStart(n, msgno, profile) => Became(s, AcceptStart(c, s, n, msgno, profile), s')
       case Decline(msgno, error) => s' == Refuse(c, s, msgno, error)
       case GrantClose(n, msgno) => s' == AcceptClose(c, s, n, msgno)
       case SetWindowSize(n, size) => Became(s, Resize(s, n, size), s')
  }

  /** What ends a session: octets it cannot act upon, a start without a message number, a request no frame can carry. */
  ghost predicate Ends(s: Snapshot, call: Call)
  {
    || call.Input?
    || (call.StartChannel? && Channels.Exhausted(s.table.outstanding))
    || (call.Send? && !Sendable(s, call.channel, call.request))
  }

  /** Every call keeps what holds between calls, and starts at most one channel. */
  lemma {:induction false} StepsRests(c: Config, s: Snapshot, call: Call, s': Snapshot)
    requires Steps(c, s, call, s')
    ensures Rested(s') && s'.table.issued <= s.table.issued + 1
  {
    hide Rested, OnFrames, Post, Start, Close, AcceptStart, Refuse, AcceptClose, Resize, Sendable;
    match call
    case Input(_) =>
      var fs :| Codec.AllValid(fs) && OnFrames(c, s, fs) == Ok(s');
      OnFramesIssued(c, s, fs);
    case Send(n, q) =>
      if Post(c, s, n, q).Ok? {
        PostRests(c, s, n, q);
        PostTable(c, s, n, q);
      }
    case SendMsg(n, payload) =>
      if s' != s {
        var msgno: U32 :| Sendable(s, n, Request(Msg, msgno, None, payload)) && Post(c, s, n, Request(Msg, msgno, None, payload)) == Ok(s');
        PostRests(c, s, n, Request(Msg, msgno, None, payload));
        PostTable(c, s, n, Request(Msg, msgno, None, payload));
      }
    case StartChannel(profile) =>
      if s.table.phase.Ready? {
        var msgno: U32 :| T.Enabled(s.table, T.StartChannel(msgno)) && msgno <= MAX_MSG_NO && Start(c, s, profile, msgno) == Ok(s');
        StartRests(c, s, profile, msgno);
      }
    case CloseChannel(n) =>
      if s' != s {
        var msgno: U32 :| T.Enabled(s.table, T.CloseChannel(n, msgno)) && msgno <= MAX_MSG_NO && Close(c, s, n, msgno) == Ok(s');
        CloseRests(c, s, n, msgno);
      }
    case GrantStart(n, msgno, profile) =>
      if AcceptStart(c, s, n, msgno, profile).Ok? {
        AcceptStartRests(c, s, n, msgno, profile);
        AcceptStartTable(c, s, n, msgno, profile);
      }
    case Decline(msgno, error) => RefuseRests(c, s, msgno, error);
    case GrantClose(n, msgno) =>
      AcceptCloseRests(c, s, n, msgno);
      AcceptCloseTable(c, s, n, msgno);
    case SetWindowSize(n, size) =>
      if Resize(s, n, size).Ok? {
        ResizeRests(s, n, size);
        ResizeTable(s, n, size);
      }
    case Transmit =>
  }

  lemma {:induction false} PostTable(c: Config, s: Snapshot, n: U32, q: Request)
    requires Rested(s) && Sendable(s, n, q) && Post(c, s, n, q).Ok?
    ensures Post(c, s, n, q).value.table == s.table
  {
    hide Rested, Submit, Sendable, WellFormed;
  }

  lemma {:induction false} StartRests(c: Config, s: Snapshot, profile: M.Profile, msgno: U32)
    requires Rested(s) && T.Enabled(s.table, T.StartChannel(msgno)) && msgno <= MAX_MSG_NO && Start(c, s, profile, msgno).Ok?
    ensures Rested(Start(c, s, profile, msgno).value)
    ensures Start(c, s, profile, msgno).value.table == T.Next(s.table, T.StartChannel(msgno)).value
    ensures Start(c, s, profile, msgno).value.table.issued == s.table.issued + 1
  {
    hide Rested, WriteZero, T.Enabled;
    RequestRests(c, s, T.StartChannel(msgno), msgno, M.Start(s.table.nextChannel, None, [profile]));
    WriteZeroKeeps(c, s.(table := T.Next(s.table, T.StartChannel(msgno)).value), Msg, msgno, M.Start(s.table.nextChannel, None, [profile]));
  }

  lemma {:induction false} CloseRests(c: Config, s: Snapshot, channel: U32, msgno: U32)
    requires Rested(s) && T.Enabled(s.table, T.CloseChannel(channel, msgno)) && msgno <= MAX_MSG_NO && Close(c, s, channel, msgno).Ok?
    ensures Rested(Close(c, s, channel, msgno).value)
    ensures Close(c, s, channel, msgno).value.table == T.Next(s.table, T.CloseChannel(channel, msgno)).value
    ensures Close(c, s, channel, msgno).value.table.issued == s.table.issued
  {
    hide Rested, WriteZero, T.Enabled;
    RequestRests(c, s, T.CloseChannel(channel, msgno), msgno, M.Close(channel, 200, None, None));
    WriteZeroKeeps(c, s.(table := T.Next(s.table, T.CloseChannel(channel, msgno)).value), Msg, msgno, M.Close(channel, 200, None, None));
  }

  lemma {:induction false} AcceptStartTable(c: Config, s: Snapshot, channel: U32, msgno: U32, profile: M.Profile)
    requires Rested(s) && msgno <= MAX_MSG_NO && AcceptStart(c, s, channel, msgno, profile).Ok?
    ensures AcceptStart(c, s, channel, msgno, profile).value.table == T.Next(s.table, T.AcceptStart(channel)).value
    ensures AcceptStart(c, s, channel, msgno, profile).value.table.issued == s.table.issued
  {
    hide Rested, WriteZero, T.Sound;
    RestedSound(s);
    T.StepSound(s.table, T.AcceptStart(channel));
    var t := T.Next(s.table, T.AcceptStart(channel)).value;
    OpeningRests(c, s, t, channel, T.Peer);
    WriteZeroKeeps(c, Opening(c, s, t, channel), Rpy, msgno, M.Accepted(profile));
  }

  lemma {:induction false} RefuseRests(c: Config, s: Snapshot, msgno: U32, error: M.Message)
    requires Rested(s) && msgno <= MAX_MSG_NO
    ensures Rested(Refuse(c, s, msgno, error)) && Refuse(c, s, msgno, error).table == s.table
  {
    hide Rested, WriteZero;
    WriteZeroRests(c, s, Err, msgno, error);
    WriteZeroKeeps(c, s, Err, msgno, error);
  }

  lemma {:induction false} AcceptCloseTable(c: Config, s: Snapshot, channel: U32, msgno: U32)
    requires Rested(s) && msgno <= MAX_MSG_NO
    ensures AcceptClose(c, s, channel, msgno).table == T.FinishClose(s.table, channel)
    ensures AcceptClose(c, s, channel, msgno).table.issued == s.table.issued
  {
    hide Rested, WriteZero, Forget;
    WriteZeroKeeps(c, s, Rpy, msgno, M.Okay);
    RestedSound(s);
  }

  lemma {:induction false} ResizeTable(s: Snapshot, n: U32, size: U32)
    requires Resize(s, n, size).Ok?
    ensures Resize(s, n, size).value.table == s.table
  {
  }

  lemma {:induction false} OnFrameIssued(c: Config, s: Snapshot, f: Frame)
    requires Rested(s) && f.Valid() && OnFrame(c, s, f).Ok?
    ensures OnFrame(c, s, f).value.table.issued == s.table.issued
  {
    hide Rested, Taking, Flow.Flush, T.Sound;
    if f.Data? {
      RestedSound(s);
      if f.data.channel in s.views && Taking(s, f.data.channel, f.data).Ok? {
        TakingTable(s, f.data.channel, f.data);
      }
    }
  }

  lemma {:induction false} OnFramesIssued(c: Config, s: Snapshot, fs: seq<Frame>)
    requires Rested(s) && Codec.AllValid(fs) && OnFrames(c, s, fs).Ok?
    ensures OnFrames(c, s, fs).value.table.issued == s.table.issued
    decreases |fs|
  {
    hide Rested, OnFrame;
    if fs != [] {
      OnFrameIssued(c, s, fs[0]);
      OnFrameRests(c, s, fs[0]);
      OnFramesIssued(c, OnFrame(c, s, fs[0]).value, fs[1..]);
    }
  }

  /** The session after each of the calls, one after the other. */
  ghost predicate Run(c: Config, trace: seq<Snapshot>, calls: seq<Call>)
  {
    |trace| == |calls| + 1 && forall i :: 0 <= i < |calls| ==> Steps(c, trace[i], calls[i], trace[i + 1])
  }

  /**
   * Session safety. After any list of calls on a fresh session, against any peer: on every open
   * channel the octets expected are those acknowledged and those still to be, nothing the window
   * has room for is waiting, channels bear numbers of the role that opened them, and the
   * message numbers in use on channel 0 are exactly the unanswered requests.
   */
  lemma {:induction false} SessionSafety(c: Config, greeting: Bytes, trace: seq<Snapshot>, calls: seq<Call>, i: nat, n: U32)
    requires Run(c, trace, calls) && i < |trace| && n in trace[i].views
    requires ZeroReady(Begun(c)) && trace[0] == Announcing(c, Begun(c), greeting)
    ensures
      var (v, t) := (trace[i].views[n], trace[i].table);
      && (!t.phase.Closed? ==> v.rx.expected == Advance(v.rx.window.base, v.unacked))
      && (v.queue != [] ==> v.tx.Writable() == 0 && v.queue[0].payload != [])
      && (n != 0 ==> n in t.open && (t.open[n].Own? <==> t.role.Owns(n)))
      && t.outstanding == t.pending.Keys
      && t.issued == t.granted + t.refused + |T.Starts(t.pending)|
  {
    RunRests(c, greeting, trace, calls, i);
    RestedAt(trace[i], n);
  }

  lemma {:induction false} RunRests(c: Config, greeting: Bytes, trace: seq<Snapshot>, calls: seq<Call>, i: nat)
    requires Run(c, trace, calls) && i < |trace|
    requires ZeroReady(Begun(c)) && trace[0] == Announcing(c, Begun(c), greeting)
    ensures Rested(trace[i])
  {
    hide Rested, Steps, Announcing, Begun, ZeroReady;
    if i == 0 {
      BegunRests(c);
      AnnouncingRests(c, Begun(c), greeting);
    } else {
      StepsRests(c, trace[i - 1], calls[i - 1], trace[i]);
    }
  }
}
