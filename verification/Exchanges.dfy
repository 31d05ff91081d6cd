/**
 * Replies of a whole session: on any channel, whatever happens on the others, the replies a
 * session lets out are those of the in-order specification for the messages it has reported
 * there, in the order it has reported them.
 */
module Exchanges {
  import opened Octets
  import opened Frames
  import opened Flow
  import opened Replies
  import opened SessionSteps
  import R = Replies
  import C = Connections

  /** What moves a session: a frame from the peer, or a call of the application. */
  datatype Doing = Hears(f: Frame) | Calls(call: Call)

  ghost predicate Does(c: Config, s: Snapshot, d: Doing, s': Snapshot)
  {
    match d
    case Hears(f) => Rested(s) && f.Valid() && OnFrame(c, s, f) == Ok(s')
    case Calls(call) => !call.Input? && Steps(c, s, call, s')
  }

  /** The messages reported on channel `n` on the way from `s` to `s'`. */
  function News(s: Snapshot, s': Snapshot, n: U32): seq<Message>
  {
    if |C.Heard(s.events, n)| <= |C.Heard(s'.events, n)| then C.Heard(s'.events, n)[|C.Heard(s.events, n)|..] else []
  }

  ghost function LetOut(c: Config, s: Snapshot, d: Doing, s': Snapshot, n: U32): seq<Message>
  {
    if d.Calls? then C.LetOutBy(c, s, d.call, s', n) else []
  }

  /** The replies asked for by a call on channel `n`. */
  predicate Answers(d: Doing, n: U32)
  {
    d.Calls? && d.call.Send? && d.call.channel == n && d.call.request.kind.IsReply()
  }

  /**
   * The history of channel `n`, its buffer included, moves with the session. The peer has at most
   * one message under a number unanswered, and handlers answer the messages reported, each properly.
   */
  ghost predicate Keeps(c: Config, s: Snapshot, d: Doing, s': Snapshot, n: U32, l: Log, l': Log)
  {
    if Answers(d, n) then exists i: nat :: Allowed(l, Reply(i, d.call.request)) && l' == Next(l, Reply(i, d.call.request))
    else if News(s, s', n) != [] && News(s, s', n)[0].kind.Msg? then
      Allowed(l, Arrive(News(s, s', n)[0].msgno)) && l' == Next(l, Arrive(News(s, s', n)[0].msgno))
    else l' == l.(out := l.out + LetOut(c, s, d, s', n))
  }

  // ---- how one step shows in the buffer ----------------------------------------------

  lemma {:induction false} NoNews(s: Snapshot, s': Snapshot, n: U32)
    requires C.Heard(s'.events, n) == C.Heard(s.events, n)
    ensures News(s, s', n) == []
  {
  }

  /** What a frame does to the buffer of channel `n`: a message to answer takes its place, and nothing else happens. */
  lemma {:induction false} FrameOrders(c: Config, s: Snapshot, f: Frame, s': Snapshot, n: U32)
    requires Rested(s) && f.Valid() && OnFrame(c, s, f) == Ok(s') && n != 0 && n in s.views && n in s'.views
    ensures |News(s, s', n)| <= 1 && C.Heard(s'.events, n) == C.Heard(s.events, n) + News(s, s', n)
    ensures
      var b := s.views[n].buffer;
      s'.views[n].buffer == if News(s, s', n) != [] && News(s, s', n)[0].kind.Msg? then b.(order := b.order + [News(s, s', n)[0].msgno]) else b
  {
    hide Rested, Taking, OnZero, Flushing, C.Heard;
    if C.ChannelOf(f) != n {
      C.OtherFrame(c, s, f, n);
      NoNews(s, s', n);
    } else if f.Seq? {
      SeqOrders(c, s, f.seqf, s');
      NoNews(s, s', n);
    } else {
      DataOrders(s, f.data, s');
    }
  }

  lemma {:induction false} SeqOrders(c: Config, s: Snapshot, q: SeqFrame, s': Snapshot)
    requires Rested(s) && OnSeq(c, s, q) == Ok(s')
    ensures s'.views[q.channel].buffer == s.views[q.channel].buffer && s'.events == s.events
  {
    hide Flow.Flush;
  }

  lemma {:induction false} DataOrders(s: Snapshot, f: DataFrame, s': Snapshot)
    requires Rested(s) && |f.payload| <= MAX_FRAME_SIZE && OnData(s, f) == Ok(s')
    ensures
      var (n, b) := (f.channel, s.views[f.channel].buffer);
      && |News(s, s', n)| <= 1 && C.Heard(s'.events, n) == C.Heard(s.events, n) + News(s, s', n)
      && s'.views[n].buffer == if News(s, s', n) != [] && News(s, s', n)[0].kind.Msg? then b.(order := b.order + [News(s, s', n)[0].msgno]) else b
  {
    hide TakeFrame, C.Heard, Rested;
    var n := f.channel;
    var taken := Taking(s, n, f).value;
    assert s.views[n].buffer.order + [] == s.views[n].buffer.order;
    if taken.1.Some? {
      C.HeardNext(s.events, MessageReceived(n, taken.1.value), n);
    } else {
      NoNews(s, s', n);
    }
  }

  /** A call that does not send on channel `n` leaves its buffer alone; one that does goes through it. */
  lemma {:induction false} CallOrders(c: Config, s: Snapshot, call: Call, s': Snapshot, n: U32)
    requires Steps(c, s, call, s') && !call.Input? && n != 0 && n in s.views && n in s'.views
    ensures News(s, s', n) == [] && C.Heard(s'.events, n) == C.Heard(s.events, n)
    ensures !(call.Send? && call.channel == n) ==> s'.views[n].buffer == s.views[n].buffer
    ensures call.Send? && call.channel == n ==> s'.views[n].buffer == Submit(s.views[n].buffer, call.request).0
  {
    hide Rested, Post, C.Heard, Sendable;
    if !C.About(call, n) {
      C.OtherCall(c, s, call, s', n);
    } else if call.Send? {
      PostOrders(c, s, n, call.request);
    } else if call.SendMsg? && s' != s {
      var msgno: U32 :| Sendable(s, n, Request(Msg, msgno, None, call.payload)) && Post(c, s, n, Request(Msg, msgno, None, call.payload)) == Ok(s');
      PostOrders(c, s, n, Request(Msg, msgno, None, call.payload));
      AskOrders(s.views[n].buffer, msgno, call.payload);
    }
    NoNews(s, s', n);
  }

  lemma {:induction false} PostOrders(c: Config, s: Snapshot, n: U32, q: Request)
    requires Rested(s) && Sendable(s, n, q) && n != 0 && n in s.views
    ensures Post(c, s, n, q).Ok?
    ensures Post(c, s, n, q).value.views[n].buffer == Submit(s.views[n].buffer, q).0 && Post(c, s, n, q).value.events == s.events
  {
    hide Rested, Submit, WellFormed;
  }

  lemma {:induction false} AskOrders(b: Buffer, msgno: U32, payload: Bytes)
    ensures Submit(b, Request(Msg, msgno, None, payload)).0 == b
  {
  }

  // ---- the history of a channel ------------------------------------------------------

  function MsgnosOf(xs: seq<Exchange>): seq<U32>
  {
    if xs == [] then [] else MsgnosOf(xs[..|xs| - 1]) + [xs[|xs| - 1].msgno]
  }

  /** The numbers of the messages to answer. */
  function Asked(ms: seq<Message>): seq<U32>
  {
    if ms == [] then [] else Asked(ms[..|ms| - 1]) + if ms[|ms| - 1].kind.Msg? then [ms[|ms| - 1].msgno] else []
  }

  lemma {:induction false} AskedAppend(a: seq<Message>, b: seq<Message>)
    ensures Asked(a + b) == Asked(a) + Asked(b)
    decreases |b|
  {
    if b == [] {
      assert a + b == a;
    } else {
      var n := |b| - 1;
      assert (a + b)[..|a + b| - 1] == a + b[..n] && (a + b)[|a + b| - 1] == b[n];
      AskedAppend(a, b[..n]);
    }
  }

  lemma {:induction false} AskedOne(m: Message)
    ensures Asked([m]) == if m.kind.Msg? then [m.msgno] else []
  {
    assert [m][..0] == [];
  }

  lemma {:induction false} MsgnosAt(xs: seq<Exchange>)
    ensures |MsgnosOf(xs)| == |xs| && forall i :: 0 <= i < |xs| ==> MsgnosOf(xs)[i] == xs[i].msgno
  {
    if xs != [] {
      MsgnosAt(xs[..|xs| - 1]);
    }
  }

  /** More of an answer is no other exchange. */
  lemma {:induction false} MsgnosExtended(xs: seq<Exchange>, i: nat, m: Message)
    requires i < |xs|
    ensures MsgnosOf(Extended(xs, i, m)) == MsgnosOf(xs)
  {
    MsgnosAt(xs);
    MsgnosAt(Extended(xs, i, m));
  }

  lemma {:induction false} MsgnosSnoc(xs: seq<Exchange>, x: Exchange)
    ensures MsgnosOf(xs + [x]) == MsgnosOf(xs) + [x.msgno]
  {
    assert (xs + [x])[..|xs|] == xs;
  }

  ghost predicate NoReplies(ms: seq<Message>)
  {
    forall i :: 0 <= i < |ms| ==> ms[i].kind.Msg?
  }

  lemma {:induction false} AsksKeep(out: seq<Message>, ms: seq<Message>)
    requires NoReplies(ms)
    ensures RepliesOf(out + ms) == RepliesOf(out)
    decreases |ms|
  {
    if ms == [] {
      assert out + ms == out;
    } else {
      var n := |ms| - 1;
      assert (out + ms)[..|out + ms| - 1] == out + ms[..n] && (out + ms)[|out + ms| - 1] == ms[n];
      AsksKeep(out, ms[..n]);
    }
  }

  /** Everything the invariant of a history says. */
  ghost predicate Right(l: Log)
  {
    InStep(l) && AllProper(l.Exchanges()) && CountsMatch(l.b.nextAnsno, l.live)
  }

  lemma {:induction false} RightStep(l: Log, step: Step)
    requires Right(l) && Allowed(l, step)
    ensures Right(Next(l, step))
  {
    hide InStep, AllProper, CountsMatch, Next, Allowed;
    StepKeeps(l, step);
    StepNumbers(l, step);
  }

  lemma {:induction false} RightAsks(l: Log, ms: seq<Message>)
    requires Right(l) && NoReplies(ms)
    ensures Right(l.(out := l.out + ms))
  {
    hide Ordered, CountsMatch, InOrder;
    AsksKeep(l.out, ms);
  }

  /** The history and the buffer of the session go together, step by step. */
  lemma {:induction false} StepFollows(c: Config, s: Snapshot, d: Doing, s': Snapshot, n: U32, l: Log, l': Log)
    requires Does(c, s, d, s') && n != 0 && n in s.views && n in s'.views && Keeps(c, s, d, s', n, l, l')
    requires s.views[n].buffer == l.b && Right(l)
    ensures s'.views[n].buffer == l'.b && Right(l') && C.Heard(s'.events, n) == C.Heard(s.events, n) + News(s, s', n)
    ensures l'.out == l.out + LetOut(c, s, d, s', n) && MsgnosOf(l'.Exchanges()) == MsgnosOf(l.Exchanges()) + Asked(News(s, s', n))
  {
    hide Right, Submit, Steps, OnFrame, C.Heard, Numbered;
    match d
    case Hears(f) =>
      FrameOrders(c, s, f, s', n);
      HearsFollows(s, s', n, l, l', News(s, s', n));
    case Calls(call) =>
      CallOrders(c, s, call, s', n);
      if Answers(d, n) {
        var i: nat :| Allowed(l, Reply(i, call.request)) && l' == Next(l, Reply(i, call.request));
        RightStep(l, Reply(i, call.request));
        StepHistory(l, Reply(i, call.request));
        MsgnosExtended(l.Exchanges(), |l.done| + i, Numbered(l.b.nextAnsno, call.request));
      } else {
        AsksFollow(c, s, call, s', n);
        RightAsks(l, LetOut(c, s, d, s', n));
      }
  }

  lemma {:induction false} HearsFollows(s: Snapshot, s': Snapshot, n: U32, l: Log, l': Log, news: seq<Message>)
    requires |news| <= 1 && Right(l)
    requires
      if news != [] && news[0].kind.Msg? then Allowed(l, Arrive(news[0].msgno)) && l' == Next(l, Arrive(news[0].msgno))
      else l' == l.(out := l.out + [])
    ensures Right(l') && l'.out == l.out + [] && MsgnosOf(l'.Exchanges()) == MsgnosOf(l.Exchanges()) + Asked(news)
    ensures l'.b == if news != [] && news[0].kind.Msg? then l.b.(order := l.b.order + [news[0].msgno]) else l.b
  {
    hide Right;
    assert l.out + [] == l.out && MsgnosOf(l.Exchanges()) + [] == MsgnosOf(l.Exchanges());
    if news != [] {
      assert news == [news[0]];
      AskedOne(news[0]);
      if news[0].kind.Msg? {
        RightStep(l, Arrive(news[0].msgno));
        StepHistory(l, Arrive(news[0].msgno));
        MsgnosSnoc(l.Exchanges(), Exchange(news[0].msgno, []));
      }
    }
  }

  /** What is let out other than replies are messages of this end's own, and the buffer does not notice. */
  lemma {:induction false} AsksFollow(c: Config, s: Snapshot, call: Call, s': Snapshot, n: U32)
    requires n in s.views && !Answers(Calls(call), n)
    ensures NoReplies(C.LetOutBy(c, s, call, s', n))
    ensures call.Send? && call.channel == n ==> Submit(s.views[n].buffer, call.request).0 == s.views[n].buffer
  {
    hide Rested, Release;
  }

  // ---- whole runs --------------------------------------------------------------------

  /** A run of a session, channel `n` open throughout, with the history of that channel. */
  ghost predicate Run(c: Config, trace: seq<Snapshot>, doings: seq<Doing>, n: U32, logs: seq<Log>)
  {
    && |trace| == |logs| == |doings| + 1 && n != 0 && logs[0] == R.Start()
    && (forall i :: 0 <= i < |trace| ==> n in trace[i].views)
    && (forall i :: 0 <= i < |doings| ==>
          Does(c, trace[i], doings[i], trace[i + 1]) && Keeps(c, trace[i], doings[i], trace[i + 1], n, logs[i], logs[i + 1]))
  }

  /** Everything let out on channel `n` in the first `k` steps. */
  ghost function OutBy(c: Config, trace: seq<Snapshot>, doings: seq<Doing>, n: U32, k: nat): seq<Message>
    requires |trace| == |doings| + 1 && k <= |doings|
  {
    if k == 0 then [] else OutBy(c, trace, doings, n, k - 1) + LetOut(c, trace[k - 1], doings[k - 1], trace[k], n)
  }

  /** Everything reported on it in the first `k` steps. */
  function HeardBy(trace: seq<Snapshot>, n: U32, k: nat): seq<Message>
    requires k < |trace|
  {
    if k == 0 then [] else HeardBy(trace, n, k - 1) + News(trace[k - 1], trace[k], n)
  }

  lemma {:induction false} RunFollows(c: Config, trace: seq<Snapshot>, doings: seq<Doing>, n: U32, logs: seq<Log>, k: nat)
    requires Run(c, trace, doings, n, logs) && k <= |doings| && trace[0].views[n].buffer == Buffer([], map[], map[])
    ensures trace[k].views[n].buffer == logs[k].b && Right(logs[k]) && logs[k].out == OutBy(c, trace, doings, n, k)
    ensures MsgnosOf(logs[k].Exchanges()) == Asked(HeardBy(trace, n, k))
    ensures C.Heard(trace[k].events, n) == C.Heard(trace[0].events, n) + HeardBy(trace, n, k)
  {
    hide Right, Does, Keeps, C.Heard, News, LetOut;
    if k == 0 {
      StartRight();
      assert C.Heard(trace[0].events, n) + [] == C.Heard(trace[0].events, n);
    } else {
      RunFollows(c, trace, doings, n, logs, k - 1);
      StepFollows(c, trace[k - 1], doings[k - 1], trace[k], n, logs[k - 1], logs[k]);
      AskedAppend(HeardBy(trace, n, k - 1), News(trace[k - 1], trace[k], n));
      Associate(C.Heard(trace[0].events, n), HeardBy(trace, n, k - 1), News(trace[k - 1], trace[k], n));
    }
  }

  lemma {:induction false} StartRight()
    ensures Right(R.Start()) && R.Start().Exchanges() == []
  {
  }

  /**
   * `xs` accounts for a channel: one exchange for each message asked, in order; the replies let
   * out are the complete answers to the first of them, one after the other, and what the next has
   * produced so far; each answer is numbered properly, and with all complete nothing is held back.
   */
  ghost predicate Accounts(xs: seq<Exchange>, asked: seq<U32>, out: seq<Message>, b: Buffer)
  {
    && MsgnosOf(xs) == asked && RepliesOf(out) == InOrder(xs) && AllProper(xs)
    && (AllAnswered(xs) ==> b.held == map[] && b.order == [])
  }

  /**
   * Replies in the order of the messages. However a session's handlers interleave, and whatever
   * it does on other channels: some list of exchanges accounts for channel `n`, the messages asked
   * being those reported on it, in the order they were reported.
   */
  lemma {:induction false} SessionRepliesInOrder(c: Config, trace: seq<Snapshot>, doings: seq<Doing>, n: U32, logs: seq<Log>, k: nat)
    requires Run(c, trace, doings, n, logs) && k <= |doings| && trace[0].views[n].buffer == Buffer([], map[], map[])
    ensures exists xs :: Accounts(xs, Asked(HeardBy(trace, n, k)), OutBy(c, trace, doings, n, k), trace[k].views[n].buffer)
    ensures C.Heard(trace[k].events, n) == C.Heard(trace[0].events, n) + HeardBy(trace, n, k)
  {
    hide Accounts, C.Heard, Right, HeardBy, OutBy;
    RunFollows(c, trace, doings, n, logs, k);
    RightAccounts(logs[k]);
    assert Accounts(logs[k].Exchanges(), Asked(HeardBy(trace, n, k)), OutBy(c, trace, doings, n, k), trace[k].views[n].buffer);
  }

  lemma {:induction false} RightAccounts(l: Log)
    requires Right(l)
    ensures Accounts(l.Exchanges(), MsgnosOf(l.Exchanges()), l.out, l.b)
  {
    hide AllProper, InOrder;
    if l.live != [] {
      assert l.Exchanges()[|l.done|] == l.live[0];
    }
  }
}
