/**
 * The reply reorder buffer of a channel. Handlers answer messages in any order; replies have to
 * leave in the order the messages arrived, each exchange being one RPY, one ERR, or any number
 * of ANS closed by a NUL. The buffer is proved equal to the obvious in-order specification.
 */
module Replies {
  import opened Octets
  import opened Frames
  import opened Flow

  /** What a handler passes to `send`; an `ANS` may leave its number to the session. */
  datatype Request = Request(kind: FrameKind, msgno: U32, ansno: Option<U32>, payload: Bytes)

  /** Message numbers awaiting a reply in arrival order, replies held back, and answer counters. */
  datatype Buffer = Buffer(order: seq<U32>, held: map<U32, seq<Message>>, nextAnsno: map<U32, U32>)

  function AnswersSoFar(nextAnsno: map<U32, U32>, msgno: U32): U32
  {
    if msgno in nextAnsno then nextAnsno[msgno] else 0
  }

  /** The answer number given to a request: `allocate_ansno` for an `ANS` that has none. */
  function Numbered(nextAnsno: map<U32, U32>, r: Request): Message
  {
    Message(r.kind, r.msgno,
            if r.kind.Ans? && r.ansno.None? then Some(AnswersSoFar(nextAnsno, r.msgno)) else r.ansno,
            r.payload)
  }

  /** The answer counters afterwards: `allocate_ansno` advances one, `finish_answers` drops one. */
  function Recount(nextAnsno: map<U32, U32>, r: Request): map<U32, U32>
  {
    if r.kind.Ans? && r.ansno.None? then
      var n := AnswersSoFar(nextAnsno, r.msgno);
      nextAnsno[r.msgno := if n == MAX_SEQ_NO then 0 else n + 1]
    else if r.kind.Nul? then nextAnsno - {r.msgno}
    else nextAnsno
  }

  /** `is_next_reply`; a channel with nothing recorded blocks nothing. */
  predicate IsNext(order: seq<U32>, msgno: U32)
  {
    order == [] || order[0] == msgno
  }

  function HeldFor(held: map<U32, seq<Message>>, msgno: U32): seq<Message>
  {
    if msgno in held then held[msgno] else []
  }

  predicate Completes(ms: seq<Message>)
  {
    exists i :: 0 <= i < |ms| && ms[i].kind.CompletesReply()
  }

  datatype Released = Released(order: seq<U32>, held: map<U32, seq<Message>>, out: seq<Message>)

  /** The loop of `reply_finished`: release what waits behind a finished exchange, and so on down the queue. */
  function Release(order: seq<U32>, held: map<U32, seq<Message>>): Released
    decreases |order|
  {
    if order == [] || order[0] !in held then Released(order, held, [])
    else
      var group := held[order[0]];
      var rest := held - {order[0]};
      if !Completes(group) then Released(order, rest, group)
      else
        var r := Release(order[1..], rest);
        Released(r.order, r.held, group + r.out)
  }

  /** The order once the exchange at its front is finished. */
  function Popped(order: seq<U32>, msgno: U32): seq<U32>
  {
    if order != [] && order[0] == msgno then order[1..] else order
  }

  /** `Session::send`, as far as order is concerned: the buffer afterwards and what is enqueued. */
  function Submit(b: Buffer, r: Request): (Buffer, seq<Message>)
  {
    var m := Numbered(b.nextAnsno, r);
    var next := Recount(b.nextAnsno, r);
    if m.kind.IsReply() && !IsNext(b.order, m.msgno) then
      (Buffer(b.order, b.held[m.msgno := HeldFor(b.held, m.msgno) + [m]], next), [])
    else if !m.kind.CompletesReply() then (Buffer(b.order, b.held, next), [m])
    else
      var rel := Release(Popped(b.order, m.msgno), b.held);
      (Buffer(rel.order, rel.held, next), [m] + rel.out)
  }

  /** A message of this end's own is never held back. */
  lemma {:induction false} MessagesPass(b: Buffer, msgno: U32, payload: Bytes)
    ensures Submit(b, Request(Msg, msgno, None, payload)).1 == [Message(Msg, msgno, None, payload)]
  {
  }

  lemma {:induction false} ReleaseNone(order: seq<U32>, held: map<U32, seq<Message>>)
    requires order == [] || order[0] !in held
    ensures Release(order, held) == Released(order, held, [])
  {
  }

  /** One turn of the release loop. */
  lemma {:induction false} ReleaseStep(order: seq<U32>, held: map<U32, seq<Message>>)
    requires order != [] && order[0] in held
    ensures
      var group := held[order[0]];
      var r := Release(if Completes(group) then order[1..] else order, held - {order[0]});
      Release(order, held) == Released(r.order, r.held, group + r.out)
  {
    assert held[order[0]] + [] == held[order[0]];
  }

  // ---- the in-order specification ----------------------------------------------------

  /** One received message and the replies its handler has produced so far. */
  datatype Exchange = Exchange(msgno: U32, group: seq<Message>) {
    predicate Answered() { Completes(group) }
  }

  /** What an end that kept handlers waiting for their turn would have written. */
  function InOrder(xs: seq<Exchange>): seq<Message>
  {
    if xs == [] then []
    else xs[0].group + if xs[0].Answered() then InOrder(xs[1..]) else []
  }

  /**
   * A channel with its history: the exchanges opened so far in arrival order, split before the
   * first that is not yet answered, and everything enqueued.
   */
  datatype Log = Log(b: Buffer, done: seq<Exchange>, live: seq<Exchange>, out: seq<Message>) {
    function Exchanges(): seq<Exchange> { done + live }
  }

  datatype Step =
    | Arrive(msgno: U32)              // a MSG is received
    | Ask(r: Request)                 // this end sends a MSG of its own
    | Reply(i: nat, r: Request)       // a handler adds to the answer of exchange `live[i]`

  /** The handlers' contract, and the peer's: one exchange per unanswered number, one proper answer each. */
  ghost predicate Allowed(l: Log, step: Step)
  {
    match step
    case Arrive(msgno) => msgno !in l.b.order
    case Ask(r) => r.kind.Msg?
    case Reply(i, r) =>
      && i < |l.live| && !l.live[i].Answered() && r.msgno == l.live[i].msgno
      && r.kind.IsReply() && r.ansno.None?
      && (r.kind.Rpy? || r.kind.Err? ==> l.live[i].group == [])
      && |l.live[i].group| <= MAX_ANS_NO
  }

  /** The answered exchanges at the front, and the rest. */
  function Gone(xs: seq<Exchange>): seq<Exchange>
  {
    if xs == [] || !xs[0].Answered() then [] else [xs[0]] + Gone(xs[1..])
  }

  function Left(xs: seq<Exchange>): seq<Exchange>
  {
    if xs == [] || !xs[0].Answered() then xs else Left(xs[1..])
  }

  function Extended(xs: seq<Exchange>, i: nat, m: Message): seq<Exchange>
    requires i < |xs|
  {
    xs[i := xs[i].(group := xs[i].group + [m])]
  }

  function Next(l: Log, step: Step): Log
    requires step.Reply? ==> step.i < |l.live|
  {
    match step
    case Arrive(msgno) => l.(b := l.b.(order := l.b.order + [msgno]), live := l.live + [Exchange(msgno, [])])
    case Ask(r) =>
      var (b, out) := Submit(l.b, r);
      l.(b := b, out := l.out + out)
    case Reply(i, r) =>
      var (b, out) := Submit(l.b, r);
      var xs := Extended(l.live, i, Numbered(l.b.nextAnsno, r));
      Log(b, l.done + Gone(xs), Left(xs), l.out + out)
  }

  /** The history only grows: an arrival is added at the end, a reply to its own exchange. */
  lemma {:induction false} StepHistory(l: Log, step: Step)
    requires Allowed(l, step)
    ensures step.Arrive? ==> Next(l, step).Exchanges() == l.Exchanges() + [Exchange(step.msgno, [])]
    ensures step.Ask? ==> Next(l, step).Exchanges() == l.Exchanges()
    ensures step.Reply? ==>
      Next(l, step).Exchanges() == Extended(l.Exchanges(), |l.done| + step.i, Numbered(l.b.nextAnsno, step.r))
  {
    hide Submit, Ordered, Numbered, Recount, Exchange.Answered, Completes;
    if step.Reply? {
      var m := Numbered(l.b.nextAnsno, step.r);
      GoneThenLeft(Extended(l.live, step.i, m));
      assert l.done + Extended(l.live, step.i, m) == Extended(l.Exchanges(), |l.done| + step.i, m);
    }
  }

  lemma {:induction false} GoneThenLeft(xs: seq<Exchange>)
    ensures Gone(xs) + Left(xs) == xs
    ensures AllAnswered(Gone(xs))
    ensures Left(xs) == [] || !Left(xs)[0].Answered()
  {
    if xs != [] && xs[0].Answered() {
      GoneThenLeft(xs[1..]);
    }
  }

  // ---- the invariant -----------------------------------------------------------------

  ghost predicate Distinct(live: seq<Exchange>)
  {
    forall i, j :: 0 <= i < j < |live| ==> live[i].msgno != live[j].msgno
  }

  ghost predicate Numbers(order: seq<U32>, live: seq<Exchange>)
  {
    |order| == |live| && forall i :: 0 <= i < |live| ==> order[i] == live[i].msgno
  }

  /** The replies of exchanges that have to wait, by message number. */
  function HeldOf(waiting: seq<Exchange>): map<U32, seq<Message>>
  {
    if waiting == [] then map[]
    else
      var rest := HeldOf(waiting[1..]);
      if waiting[0].group == [] then rest else rest[waiting[0].msgno := waiting[0].group]
  }

  /** The buffer knows the open exchanges in order, and holds exactly the replies of all but the first. */
  ghost predicate Ordered(b: Buffer, live: seq<Exchange>)
  {
    && Numbers(b.order, live) && Distinct(live)
    && b.held == HeldOf(if live == [] then [] else live[1..])
    && (live != [] ==> !live[0].Answered())
  }

  ghost predicate AllAnswered(xs: seq<Exchange>)
  {
    forall i :: 0 <= i < |xs| ==> xs[i].Answered()
  }

  ghost predicate AllReplies(ms: seq<Message>)
  {
    forall i :: 0 <= i < |ms| ==> ms[i].kind.IsReply()
  }

  ghost predicate OnlyReplies(xs: seq<Exchange>)
  {
    forall i :: 0 <= i < |xs| ==> AllReplies(xs[i].group)
  }

  function RepliesOf(ms: seq<Message>): seq<Message>
  {
    if ms == [] then []
    else RepliesOf(ms[..|ms| - 1]) + if ms[|ms| - 1].kind.IsReply() then [ms[|ms| - 1]] else []
  }

  /** The buffer is in step with the specification. */
  ghost predicate InStep(l: Log)
  {
    && Ordered(l.b, l.live)
    && OnlyReplies(l.live)
    && AllAnswered(l.done)
    && RepliesOf(l.out) == InOrder(l.Exchanges())
  }

  // ---- releasing ---------------------------------------------------------------------

  lemma {:induction false} HeldOnlyForWaiting(waiting: seq<Exchange>, m: U32)
    requires forall i :: 0 <= i < |waiting| ==> waiting[i].msgno != m
    ensures m !in HeldOf(waiting)
  {
    if waiting != [] {
      HeldOnlyForWaiting(waiting[1..], m);
    }
  }

  lemma {:induction false} HeldWithout(live: seq<Exchange>)
    requires live != [] && Distinct(live)
    ensures HeldOf(live) - {live[0].msgno} == HeldOf(live[1..])
    ensures HeldFor(HeldOf(live), live[0].msgno) == live[0].group
    ensures live[0].msgno in HeldOf(live) <==> live[0].group != []
  {
    HeldOnlyForWaiting(live[1..], live[0].msgno);
  }

  /** Releasing writes the answers that are ready, in arrival order, and keeps exactly the others. */
  lemma {:induction false} ReleaseInOrder(order: seq<U32>, live: seq<Exchange>, next: map<U32, U32>)
    requires Numbers(order, live) && Distinct(live)
    ensures
      var r := Release(order, HeldOf(live));
      r.out == InOrder(live) && Ordered(Buffer(r.order, r.held, next), Left(live))
    decreases |live|
  {
    if live != [] {
      HeldWithout(live);
      if live[0].Answered() {
        ReleaseInOrder(order[1..], live[1..], next);
      }
    }
  }

  // ---- how one more reply changes the buffer -----------------------------------------

  lemma {:induction false} CompletesSnoc(g: seq<Message>, m: Message)
    ensures Completes(g + [m]) <==> Completes(g) || m.kind.CompletesReply()
  {
    assert (g + [m])[|g|] == m;
    if Completes(g) {
      var i :| 0 <= i < |g| && g[i].kind.CompletesReply();
      assert (g + [m])[i] == g[i];
    }
  }

  lemma {:induction false} HeldArrival(waiting: seq<Exchange>, x: Exchange)
    requires x.group == []
    ensures HeldOf(waiting + [x]) == HeldOf(waiting)
  {
    if waiting != [] {
      assert (waiting + [x])[0] == waiting[0] && (waiting + [x])[1..] == waiting[1..] + [x];
      HeldArrival(waiting[1..], x);
    }
  }

  /** A reply that has to wait joins what is held for its exchange, and nothing else. */
  lemma {:induction false} HeldLonger(waiting: seq<Exchange>, j: nat, m: Message)
    requires j < |waiting| && waiting[j].msgno == m.msgno && Distinct(waiting)
    ensures HeldOf(Extended(waiting, j, m)) == HeldOf(waiting)[m.msgno := HeldFor(HeldOf(waiting), m.msgno) + [m]]
  {
    if j == 0 {
      HeldWithout(waiting);
      assert Extended(waiting, 0, m)[1..] == waiting[1..];
    } else {
      assert Extended(waiting, j, m)[1..] == Extended(waiting[1..], j - 1, m);
      HeldLonger(waiting[1..], j - 1, m);
    }
  }

  lemma {:induction false} OrderedArrival(b: Buffer, live: seq<Exchange>, msgno: U32)
    requires Ordered(b, live) && msgno !in b.order
    ensures Ordered(b.(order := b.order + [msgno]), live + [Exchange(msgno, [])])
  {
    forall i | 0 <= i < |live|
      ensures live[i].msgno != msgno
    {
      assert live[i].msgno == b.order[i];
    }
    if live != [] {
      assert (live + [Exchange(msgno, [])])[1..] == live[1..] + [Exchange(msgno, [])];
      HeldArrival(live[1..], Exchange(msgno, []));
    }
  }

  lemma {:induction false} BehindOrdered(b: Buffer, live: seq<Exchange>, j: nat, r: Request)
    requires Ordered(b, live) && 0 < j < |live| && live[j].msgno == r.msgno && r.kind.IsReply()
    ensures Submit(b, r).1 == []
    ensures Ordered(Submit(b, r).0, Extended(live, j, Numbered(b.nextAnsno, r)))
  {
    var m := Numbered(b.nextAnsno, r);
    assert live[0].msgno == b.order[0];
    HeldLonger(live[1..], j - 1, m);
    assert Extended(live, j, m)[1..] == Extended(live[1..], j - 1, m);
  }

  lemma {:induction false} AnswerOrdered(b: Buffer, live: seq<Exchange>, r: Request)
    requires Ordered(b, live) && live != [] && live[0].msgno == r.msgno && r.kind.Ans?
    ensures Submit(b, r).1 == [Numbered(b.nextAnsno, r)]
    ensures Ordered(Submit(b, r).0, Extended(live, 0, Numbered(b.nextAnsno, r)))
  {
    CompletesSnoc(live[0].group, Numbered(b.nextAnsno, r));
    assert Extended(live, 0, Numbered(b.nextAnsno, r))[1..] == live[1..];
  }

  /** Completing the answer at the front writes it and everything that was ready behind it. */
  lemma {:induction false} LastOrdered(b: Buffer, live: seq<Exchange>, r: Request)
    requires Ordered(b, live) && live != [] && live[0].msgno == r.msgno && r.kind.CompletesReply()
    ensures Submit(b, r).1 == [Numbered(b.nextAnsno, r)] + InOrder(live[1..])
    ensures Ordered(Submit(b, r).0, Left(live[1..]))
  {
    ReleaseInOrder(b.order[1..], live[1..], Recount(b.nextAnsno, r));
  }

  /** What the specification writes more when exchange `j` gets one more reply, the first being unanswered. */
  lemma {:induction false} SpecGains(live: seq<Exchange>, j: nat, m: Message)
    requires j < |live| && !live[0].Answered() && m.kind.IsReply()
    ensures
      var xs := Extended(live, j, m);
      && InOrder(xs) == InOrder(live) + (if j > 0 then [] else if m.kind.Ans? then [m] else [m] + InOrder(live[1..]))
      && Left(xs) == (if j == 0 && m.kind.CompletesReply() then Left(live[1..]) else xs)
  {
    CompletesSnoc(live[0].group, m);
    if j == 0 {
      assert Extended(live, 0, m)[1..] == live[1..];
    }
  }

  /** A reply keeps the buffer ordered and enqueues exactly what the specification gains. */
  lemma {:induction false} ReplyOrdered(b: Buffer, live: seq<Exchange>, j: nat, r: Request)
    requires Ordered(b, live) && j < |live| && live[j].msgno == r.msgno && r.kind.IsReply()
    ensures
      var xs := Extended(live, j, Numbered(b.nextAnsno, r));
      Ordered(Submit(b, r).0, Left(xs)) && InOrder(xs) == InOrder(live) + Submit(b, r).1
  {
    SpecGains(live, j, Numbered(b.nextAnsno, r));
    if j > 0 {
      BehindOrdered(b, live, j, r);
    } else if r.kind.Ans? {
      AnswerOrdered(b, live, r);
    } else {
      LastOrdered(b, live, r);
    }
  }

  function GroupsOf(done: seq<Exchange>): seq<Message>
  {
    if done == [] then [] else done[0].group + GroupsOf(done[1..])
  }

  /** Answered exchanges at the front are written in full and are otherwise out of the way. */
  lemma {:induction false} DonePrefix(done: seq<Exchange>, live: seq<Exchange>)
    requires AllAnswered(done)
    ensures InOrder(done + live) == GroupsOf(done) + InOrder(live)
  {
    if done == [] {
      assert done + live == live;
    } else {
      assert (done + live)[0] == done[0] && (done + live)[1..] == done[1..] + live;
      DonePrefix(done[1..], live);
    }
  }

  lemma {:induction false} RepliesAppend(a: seq<Message>, b: seq<Message>)
    requires AllReplies(b)
    ensures RepliesOf(a + b) == RepliesOf(a) + b
    decreases |b|
  {
    if b == [] {
      assert a + b == a;
    } else {
      var n := |b| - 1;
      assert (a + b)[..|a + b| - 1] == a + b[..n] && (a + b)[|a + b| - 1] == b[n];
      RepliesAppend(a, b[..n]);
      assert b[..n] + [b[n]] == b;
    }
  }

  lemma {:induction false} InOrderReplies(xs: seq<Exchange>)
    requires OnlyReplies(xs)
    ensures AllReplies(InOrder(xs))
  {
    if xs != [] {
      InOrderReplies(xs[1..]);
    }
  }

  // ---- every step keeps the buffer in step -------------------------------------------

  function Start(): Log
  {
    Log(Buffer([], map[], map[]), [], [], [])
  }

  lemma {:induction false} GainIsReplies(a: seq<Message>, out: seq<Message>)
    requires AllReplies(a + out)
    ensures AllReplies(out)
  {
    forall i | 0 <= i < |out|
      ensures out[i].kind.IsReply()
    {
      assert (a + out)[|a| + i] == out[i];
    }
  }

  /** The replies written are the specification's, when the buffer enqueues what the open exchanges gain. */
  lemma {:induction false} WritesInOrder(l: Log, xs: seq<Exchange>, out: seq<Message>)
    requires InStep(l) && AllReplies(InOrder(xs)) && InOrder(xs) == InOrder(l.live) + out
    ensures RepliesOf(l.out + out) == InOrder(l.done + xs)
  {
    hide Ordered, OnlyReplies, InOrder, RepliesOf, GroupsOf, AllReplies, AllAnswered;
    GainIsReplies(InOrder(l.live), out);
    RepliesAppend(l.out, out);
    DonePrefix(l.done, l.live);
    DonePrefix(l.done, xs);
    Associate(GroupsOf(l.done), InOrder(l.live), out);
  }

  lemma {:induction false} ReplyWrites(l: Log, i: nat, r: Request)
    requires InStep(l) && Allowed(l, Reply(i, r))
    ensures
      var xs := Extended(l.live, i, Numbered(l.b.nextAnsno, r));
      && OnlyReplies(xs)
      && RepliesOf(l.out + Submit(l.b, r).1) == InOrder(l.done + xs)
  {
    var xs := Extended(l.live, i, Numbered(l.b.nextAnsno, r));
    InOrderReplies(xs);
    ReplyOrdered(l.b, l.live, i, r);
    WritesInOrder(l, xs, Submit(l.b, r).1);
  }

  /** Moving answered exchanges from the front of the open ones to the finished ones changes nothing else. */
  lemma {:induction false} Retire(b: Buffer, done: seq<Exchange>, xs: seq<Exchange>, out: seq<Message>)
    requires Ordered(b, Left(xs)) && OnlyReplies(xs) && AllAnswered(done) && RepliesOf(out) == InOrder(done + xs)
    ensures InStep(Log(b, done + Gone(xs), Left(xs), out))
  {
    GoneThenLeft(xs);
    assert (done + Gone(xs)) + Left(xs) == done + xs;
    OnlyRepliesLeft(xs);
  }

  lemma {:induction false} ReplyKeeps(l: Log, i: nat, r: Request)
    requires InStep(l) && Allowed(l, Reply(i, r))
    ensures InStep(Next(l, Reply(i, r)))
  {
    ReplyOrdered(l.b, l.live, i, r);
    ReplyWrites(l, i, r);
    Retire(Submit(l.b, r).0, l.done, Extended(l.live, i, Numbered(l.b.nextAnsno, r)), l.out + Submit(l.b, r).1);
  }

  lemma {:induction false} OnlyRepliesLeft(xs: seq<Exchange>)
    requires OnlyReplies(xs)
    ensures OnlyReplies(Left(xs))
  {
    if xs != [] && xs[0].Answered() {
      OnlyRepliesLeft(xs[1..]);
    }
  }

  lemma {:induction false} ArriveKeeps(l: Log, msgno: U32)
    requires InStep(l) && Allowed(l, Arrive(msgno))
    ensures InStep(Next(l, Arrive(msgno)))
  {
    var x := Exchange(msgno, []);
    OrderedArrival(l.b, l.live, msgno);
    assert InOrder(l.live + [x]) == InOrder(l.live);
    InOrderReplies(l.live + [x]);
    WritesInOrder(l, l.live + [x], []);
    assert l.out + [] == l.out;
  }

  lemma {:induction false} StepKeeps(l: Log, step: Step)
    requires InStep(l) && Allowed(l, step)
    ensures InStep(Next(l, step))
  {
    match step
    case Arrive(msgno) => ArriveKeeps(l, msgno);
    case Ask(r) =>
      var l' := Next(l, step);
      assert l'.out[..|l'.out| - 1] == l.out;
    case Reply(i, r) => ReplyKeeps(l, i, r);
  }

  // ---- answer numbers ----------------------------------------------------------------

  /** The shape of an answer: ANS numbered 0, 1, 2, ... and then its NUL, or a single RPY or ERR. */
  ghost predicate Proper(g: seq<Message>)
  {
    && (forall j :: 0 <= j < |g| && g[j].kind.Ans? ==> g[j].ansno == Some(j))
    && (forall j :: 0 <= j < |g| && !g[j].kind.Ans? ==> j == |g| - 1 && g[j].kind.CompletesReply() && g[j].ansno == None)
    && (forall j :: 0 <= j < |g| && (g[j].kind.Rpy? || g[j].kind.Err?) ==> |g| == 1)
  }

  ghost predicate AllProper(xs: seq<Exchange>)
  {
    forall i :: 0 <= i < |xs| ==> Proper(xs[i].group)
  }

  /** Exchange `i` is still being answered, under message number `m`. */
  ghost predicate Open(xs: seq<Exchange>, i: int, m: U32)
  {
    0 <= i < |xs| && !xs[i].Answered() && xs[i].msgno == m
  }

  /** The answer counters stand where the unfinished answers have got to. */
  ghost predicate CountsMatch(next: map<U32, U32>, live: seq<Exchange>)
  {
    && (forall i, m :: Open(live, i, m) ==> AnswersSoFar(next, m) == |live[i].group|)
    && (forall m :: m in next ==> next[m] > 0 && exists i :: Open(live, i, m))
  }

  lemma {:induction false} ArriveCounts(b: Buffer, live: seq<Exchange>, msgno: U32)
    requires Numbers(b.order, live) && CountsMatch(b.nextAnsno, live) && msgno !in b.order
    ensures CountsMatch(b.nextAnsno, live + [Exchange(msgno, [])])
  {
    var xs := live + [Exchange(msgno, [])];
    forall m | m in b.nextAnsno
      ensures m != msgno
    {
      var j :| Open(live, j, m);
      assert b.order[j] == m;
    }
    forall i, m | Open(xs, i, m)
      ensures AnswersSoFar(b.nextAnsno, m) == |xs[i].group|
    {
      if i < |live| {
        assert Open(live, i, m);
      } else {
        assert msgno !in b.nextAnsno;
      }
    }
    forall m | m in b.nextAnsno
      ensures exists i :: Open(xs, i, m)
    {
      var i :| Open(live, i, m);
      assert Open(xs, i, m);
    }
  }

  lemma {:induction false} ProperSnoc(g: seq<Message>, m: Message)
    requires Proper(g) && !Completes(g) && m.kind.IsReply()
    requires m.kind.Ans? ==> m.ansno == Some(|g|)
    requires !m.kind.Ans? ==> m.ansno == None
    requires m.kind.Rpy? || m.kind.Err? ==> g == []
    ensures Proper(g + [m])
  {
    forall j | 0 <= j < |g|
      ensures g[j].kind.Ans?
    {
      assert !g[j].kind.CompletesReply();
    }
  }

  lemma {:induction false} ReplyCounts(next: map<U32, U32>, live: seq<Exchange>, i: nat, r: Request, j: int, n: U32)
    requires Distinct(live) && CountsMatch(next, live) && Open(live, i, r.msgno)
    requires r.kind.IsReply() && r.ansno.None? && |live[i].group| <= MAX_ANS_NO
    requires Open(Extended(live, i, Numbered(next, r)), j, n)
    ensures AnswersSoFar(Recount(next, r), n) == |Extended(live, i, Numbered(next, r))[j].group|
  {
    CompletesSnoc(live[i].group, Numbered(next, r));
    if j != i {
      assert Open(live, j, n);
    }
  }

  lemma {:induction false} ReplyCounters(next: map<U32, U32>, live: seq<Exchange>, i: nat, r: Request, n: U32)
    requires CountsMatch(next, live) && Open(live, i, r.msgno) && n in Recount(next, r)
    requires r.kind.IsReply() && r.ansno.None? && |live[i].group| <= MAX_ANS_NO
    requires r.kind.Rpy? || r.kind.Err? ==> live[i].group == []
    ensures Recount(next, r)[n] > 0 && exists j :: Open(Extended(live, i, Numbered(next, r)), j, n)
  {
    var xs := Extended(live, i, Numbered(next, r));
    CompletesSnoc(live[i].group, Numbered(next, r));
    if n == r.msgno {
      assert Open(xs, i, n);
    } else {
      var j :| Open(live, j, n);
      assert Open(xs, j, n);
    }
  }

  lemma {:induction false} ReplyCountsMatch(next: map<U32, U32>, live: seq<Exchange>, i: nat, r: Request)
    requires Distinct(live) && CountsMatch(next, live) && Open(live, i, r.msgno)
    requires r.kind.IsReply() && r.ansno.None? && |live[i].group| <= MAX_ANS_NO
    requires r.kind.Rpy? || r.kind.Err? ==> live[i].group == []
    ensures CountsMatch(Recount(next, r), Extended(live, i, Numbered(next, r)))
  {
    var xs := Extended(live, i, Numbered(next, r));
    forall j, n | Open(xs, j, n)
      ensures AnswersSoFar(Recount(next, r), n) == |xs[j].group|
    {
      ReplyCounts(next, live, i, r, j, n);
    }
    forall n | n in Recount(next, r)
      ensures Recount(next, r)[n] > 0 && exists j :: Open(xs, j, n)
    {
      ReplyCounters(next, live, i, r, n);
    }
  }

  /** Answered exchanges leaving the front take no counter with them. */
  lemma {:induction false} CountsLeft(next: map<U32, U32>, xs: seq<Exchange>)
    requires CountsMatch(next, xs)
    ensures CountsMatch(next, Left(xs))
  {
    if xs != [] && xs[0].Answered() {
      var rest := xs[1..];
      forall i, m | Open(rest, i, m)
        ensures AnswersSoFar(next, m) == |rest[i].group|
      {
        assert Open(xs, i + 1, m);
      }
      forall m | m in next
        ensures exists i :: Open(rest, i, m)
      {
        var i :| Open(xs, i, m);
        assert Open(rest, i - 1, m);
      }
      CountsLeft(next, rest);
    }
  }

  lemma {:induction false} StepNumbers(l: Log, step: Step)
    requires InStep(l) && AllProper(l.Exchanges()) && CountsMatch(l.b.nextAnsno, l.live) && Allowed(l, step)
    ensures AllProper(Next(l, step).Exchanges()) && CountsMatch(Next(l, step).b.nextAnsno, Next(l, step).live)
  {
    hide Release, OnlyReplies, InOrder, RepliesOf, HeldOf;
    StepHistory(l, step);
    match step
    case Arrive(msgno) => ArriveCounts(l.b, l.live, msgno);
    case Ask(_) =>
    case Reply(i, r) =>
      assert Open(l.live, i, r.msgno) && l.Exchanges()[|l.done| + i] == l.live[i];
      ProperSnoc(l.live[i].group, Numbered(l.b.nextAnsno, r));
      ReplyCountsMatch(l.b.nextAnsno, l.live, i, r);
      CountsLeft(Recount(l.b.nextAnsno, r), Extended(l.live, i, Numbered(l.b.nextAnsno, r)));
  }

  // ---- whole runs --------------------------------------------------------------------

  ghost predicate Runs(l: Log, steps: seq<Step>, l': Log)
    decreases |steps|
  {
    if steps == [] then l == l'
    else Allowed(l, steps[0]) && Runs(Next(l, steps[0]), steps[1..], l')
  }

  lemma {:induction false} RunKeeps(l: Log, steps: seq<Step>, l': Log)
    requires InStep(l) && AllProper(l.Exchanges()) && CountsMatch(l.b.nextAnsno, l.live) && Runs(l, steps, l')
    ensures InStep(l') && AllProper(l'.Exchanges())
    decreases |steps|
  {
    if steps != [] {
      StepKeeps(l, steps[0]);
      StepNumbers(l, steps[0]);
      RunKeeps(Next(l, steps[0]), steps[1..], l');
    }
  }

  /**
   * Reply reordering refines the in-order specification. However handlers interleave, the
   * replies enqueued so far are exactly those an in-order end would have written: the complete
   * answers to the first messages, in arrival order, and then what the next one has produced.
   * Each answer is numbered properly, and once all are complete nothing is held back.
   */
  lemma {:induction false} RepliesLeaveInOrder(steps: seq<Step>, l: Log)
    requires Runs(Start(), steps, l)
    ensures RepliesOf(l.out) == InOrder(l.Exchanges())
    ensures AllProper(l.Exchanges())
    ensures AllAnswered(l.Exchanges()) ==> l.b.order == [] && l.b.held == map[]
  {
    RunKeeps(Start(), steps, l);
    if l.live != [] {
      assert l.Exchanges()[|l.done|] == l.live[0];
    }
  }
}
