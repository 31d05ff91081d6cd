/** The channel table of one end: which channels are open, who opened them, and what requests are unanswered. */
module Tables {
  import opened Octets
  import opened Frames
  import opened Channels

  datatype Role = Initiator | Listener {
    function First(): U32 { if Initiator? then 1 else 2 }

    /** Whether this role may allocate that number. */
    predicate Owns(channel: U32)
    {
      if Initiator? then channel % 2 == 1 else channel % 2 == 0 && channel != 0
    }
  }

  datatype Phase = AwaitingGreeting | Ready | Closed

  /** What a message number on channel 0 was asking for. */
  datatype Pending = Start(number: U32) | Close(number: U32)

  datatype Origin = Own | Peer

  datatype Table = Table(
    role: Role, phase: Phase,
    open: map<U32, Origin>, halfOpen: set<U32>, pending: map<U32, Pending>,
    outstanding: set<U32>, nextMsgno: U32, nextChannel: U32,
    issued: nat, granted: nat, refused: nat)

  datatype Step =
    | Greet                                     // the peer's greeting arrives
    | StartChannel(msgno: U32)                  // this end asks for a channel, under that message number
    | AcceptStart(channel: U32)                 // this end accepts a channel the peer asked for
    | CloseChannel(channel: U32, msgno: U32)    // this end asks to close one
    | AcceptClose(channel: U32)                 // this end accepts the peer's close
    | ProfileReply(msgno: U32)                  // the peer accepts a start
    | OkReply(msgno: U32)                       // the peer accepts a close
    | ErrorReply(msgno: U32)                    // the peer refuses either

  function Initial(role: Role): Table
  {
    Table(role, AwaitingGreeting, map[], {}, map[], {}, 0, role.First(), 0, 0, 0)
  }

  /** Requests use the first free message number; an end issues fewer than 2^31 - 1 starts. */
  ghost predicate Enabled(t: Table, step: Step)
  {
    && (step.StartChannel? || step.CloseChannel? ==> FirstFree(t.nextMsgno, step.msgno, t.outstanding))
    && (step.StartChannel? ==> t.issued + 1 < 0x7fff_ffff)
  }

  function Requested(t: Table, msgno: U32, p: Pending): Table
  {
    t.(pending := t.pending[msgno := p], outstanding := t.outstanding + {msgno}, nextMsgno := Succ(msgno))
  }

  /** A start that found no message number: its channel number is spent and stays half open. */
  function Stranded(t: Table): Table
  {
    var n := t.nextChannel;
    t.(nextChannel := if n + 2 < MODULUS then n + 2 else n + 2 - MODULUS, halfOpen := t.halfOpen + {n})
  }

  function Answered(t: Table, msgno: U32): Table
  {
    t.(pending := t.pending - {msgno}, outstanding := t.outstanding - {msgno})
  }

  /** `finish_close`. */
  function FinishClose(t: Table, channel: U32): Table
  {
    if channel == 0 then t.(phase := Closed, open := map[]) else t.(open := t.open - {channel})
  }

  function Next(t: Table, step: Step): Result<Table, Error>
  {
    match step
    case Greet => Ok(if t.phase.AwaitingGreeting? then t.(phase := Ready) else t)
    case StartChannel(msgno) =>
      if !t.phase.Ready? then Failed(NotReady)
      else
        var n := t.nextChannel;
        Ok(Requested(t.(nextChannel := if n + 2 < MODULUS then n + 2 else n + 2 - MODULUS,
                        halfOpen := t.halfOpen + {n}, issued := t.issued + 1),
                     msgno, Start(n)))
    case AcceptStart(channel) =>
      if channel == 0 || t.role.Owns(channel) then Failed(PeerMayNotAllocate)
      else if channel in t.open then Failed(AlreadyOpen)
      else Ok(t.(open := t.open[channel := Peer]))
    case CloseChannel(channel, msgno) =>
      if !t.phase.Ready? then Failed(NotReady)
      else if channel != 0 && channel !in t.open then Failed(NoSuchChannel(channel))
      else Ok(Requested(t, msgno, Close(channel)))
    case AcceptClose(channel) => Ok(FinishClose(t, channel))
    case ProfileReply(msgno) =>
      if msgno !in t.pending || !t.pending[msgno].Start? then Failed(UnknownMsgNo(msgno))
      else
        var n := t.pending[msgno].number;
        Ok(Answered(t, msgno).(halfOpen := t.halfOpen - {n}, open := t.open[n := Own], granted := t.granted + 1))
    case OkReply(msgno) =>
      if msgno !in t.pending || !t.pending[msgno].Close? then Failed(UnknownMsgNo(msgno))
      else Ok(FinishClose(Answered(t, msgno), t.pending[msgno].number))
    case ErrorReply(msgno) =>
      if msgno !in t.pending then Failed(UnknownMsgNo(msgno))
      else if t.pending[msgno].Start? then
        Ok(Answered(t, msgno).(halfOpen := t.halfOpen - {t.pending[msgno].number}, refused := t.refused + 1))
      else Ok(Answered(t, msgno))
  }

  /** `accept_start` takes a number exactly when the peer may allocate it and it is not open. */
  lemma {:induction false} AcceptStartIs(t: Table, channel: U32)
    ensures Next(t, AcceptStart(channel)).Ok? <==> channel != 0 && !t.role.Owns(channel) && channel !in t.open
    ensures channel == 0 || t.role.Owns(channel) ==> Next(t, AcceptStart(channel)) == Failed(PeerMayNotAllocate)
    ensures Next(t, AcceptStart(channel)).Failed? && channel != 0 && !t.role.Owns(channel) ==> Next(t, AcceptStart(channel)) == Failed(AlreadyOpen)
  {
  }

  /** The initiator's channel numbers are odd, the listener's even and not zero; a side's first is one or two. */
  lemma {:induction false} RolesSplit(channel: U32)
    ensures Initiator.Owns(channel) <==> channel % 2 == 1
    ensures Listener.Owns(channel) <==> channel % 2 == 0 && channel != 0
    ensures Initiator.First() == 1 && Listener.First() == 2
  {
  }

  lemma {:induction false} StartIs(t: Table, msgno: U32)
    requires t.phase.Ready?
    ensures Next(t, StartChannel(msgno)) == Ok(Requested(Stranded(t).(issued := t.issued + 1), msgno, Start(t.nextChannel)))
  {
  }

  // ---- the invariant -----------------------------------------------------------------

  /** The starts still unanswered, by message number. */
  function Starts(pending: map<U32, Pending>): set<U32>
  {
    set m | m in pending && pending[m].Start?
  }

  /** Numbers say who opened a channel, and zero is never among them. */
  ghost predicate OwnersRight(t: Table)
  {
    forall n :: n in t.open ==> n != 0 && (t.open[n].Own? <==> t.role.Owns(n))
  }

  /** A number this end has used for a start: of its own kind, and behind the next one. */
  ghost predicate Used(t: Table, n: U32)
  {
    t.role.Owns(n) && n < t.nextChannel
  }

  /** Channels this end opened and those it asked for have numbers it has used, no two the same. */
  ghost predicate NumbersRight(t: Table)
  {
    && t.nextChannel == t.role.First() + 2 * t.issued
    && (forall n :: n in t.open && t.open[n].Own? ==> Used(t, n))
    && (forall m :: m in t.pending && t.pending[m].Start? ==>
          Used(t, t.pending[m].number) && t.pending[m].number !in t.open)
    && (forall l, m :: l in t.pending && m in t.pending && t.pending[l].Start? && t.pending[m] == t.pending[l] ==> l == m)
  }

  ghost predicate HalfOpenRight(t: Table)
  {
    && (forall m :: m in t.pending && t.pending[m].Start? ==> t.pending[m].number in t.halfOpen)
    && (forall n :: n in t.halfOpen ==> exists m :: m in t.pending && t.pending[m] == Start(n))
  }

  ghost predicate Sound(t: Table)
  {
    && t.nextMsgno <= MAX_MSG_NO && t.issued < 0x7fff_ffff
    && t.outstanding == t.pending.Keys
    && OwnersRight(t)
    && NumbersRight(t)
    && HalfOpenRight(t)
    && t.issued == t.granted + t.refused + |Starts(t.pending)|
  }

  lemma {:induction false} StartsAdd(pending: map<U32, Pending>, m: U32, p: Pending)
    requires m !in pending
    ensures Starts(pending[m := p]) == Starts(pending) + (if p.Start? then {m} else {})
    ensures |Starts(pending[m := p])| == |Starts(pending)| + (if p.Start? then 1 else 0)
  {
    StartsWith(pending, m, p);
    assert m !in Starts(pending);
    hide Starts;
    if p.Start? {
      assert |Starts(pending) + {m}| == |Starts(pending)| + 1;
    } else {
      assert Starts(pending) + {} == Starts(pending);
    }
  }

  lemma {:induction false} StartsWith(pending: map<U32, Pending>, m: U32, p: Pending)
    requires m !in pending
    ensures Starts(pending[m := p]) == Starts(pending) + (if p.Start? then {m} else {})
  {
    if p.Start? {
      assert Starts(pending[m := p]) == Starts(pending) + {m};
    } else {
      assert Starts(pending[m := p]) == Starts(pending);
    }
  }

  lemma {:induction false} StartsRemove(pending: map<U32, Pending>, m: U32)
    requires m in pending
    ensures Starts(pending - {m}) == Starts(pending) - {m}
    ensures |Starts(pending)| == |Starts(pending - {m})| + (if pending[m].Start? then 1 else 0)
  {
    if pending[m].Start? {
      assert Starts(pending) == Starts(pending - {m}) + {m};
    } else {
      assert m !in Starts(pending);
    }
  }

  lemma {:induction false} OwnsNext(role: Role, issued: nat)
    requires role.First() + 2 * issued < MODULUS
    ensures role.Owns(role.First() + 2 * issued)
  {
  }

  lemma {:induction false} StartNumbers(t: Table, msgno: U32)
    requires NumbersRight(t) && OwnersRight(t) && t.phase.Ready? && t.issued + 1 < 0x7fff_ffff && msgno !in t.pending
    ensures NumbersRight(Next(t, StartChannel(msgno)).value)
  {
    OwnsNext(t.role, t.issued);
    var n := t.nextChannel;
    var t' := Next(t, StartChannel(msgno)).value;
    hide OwnersRight;
    assert t'.pending == t.pending[msgno := Start(n)] && t'.nextChannel == n + 2 && t'.open == t.open && t'.role == t.role;
    hide Next, Role.Owns;
    assert n !in t.open by {
      OwnOnly(t, n);
    }
  }

  /** A number not used yet is not open. */
  lemma {:induction false} OwnOnly(t: Table, n: U32)
    requires NumbersRight(t) && OwnersRight(t) && t.role.Owns(n) && n >= t.nextChannel
    ensures n !in t.open
  {
  }

  lemma {:induction false} StartHalfOpen(t: Table, msgno: U32)
    requires HalfOpenRight(t) && t.phase.Ready? && msgno !in t.pending
    ensures HalfOpenRight(Next(t, StartChannel(msgno)).value)
  {
    var n := t.nextChannel;
    var t' := Next(t, StartChannel(msgno)).value;
    assert t'.pending == t.pending[msgno := Start(n)] && t'.halfOpen == t.halfOpen + {n};
    hide Next;
    forall k | k in t'.halfOpen
      ensures exists m :: m in t'.pending && t'.pending[m] == Start(k)
    {
      if k == n {
        assert t'.pending[msgno] == Start(n);
      } else {
        var m :| m in t.pending && t.pending[m] == Start(k);
        assert t'.pending[m] == Start(k);
      }
    }
  }

  lemma {:induction false} StartSound(t: Table, msgno: U32)
    requires Sound(t) && Enabled(t, StartChannel(msgno)) && t.phase.Ready?
    ensures Sound(Next(t, StartChannel(msgno)).value)
  {
    hide NumbersRight, HalfOpenRight, Starts;
    StartsAdd(t.pending, msgno, Start(t.nextChannel));
    StartNumbers(t, msgno);
    StartHalfOpen(t, msgno);
  }

  lemma {:induction false} CloseSound(t: Table, channel: U32, msgno: U32)
    requires Sound(t) && Enabled(t, CloseChannel(channel, msgno)) && Next(t, CloseChannel(channel, msgno)).Ok?
    ensures Sound(Next(t, CloseChannel(channel, msgno)).value)
  {
    hide HalfOpenRight, Starts, OwnersRight;
    var t' := Next(t, CloseChannel(channel, msgno)).value;
    StartsAdd(t.pending, msgno, Close(channel));
    HalfOpenKept(t, t');
    assert OwnersRight(t') by {
      OwnersKept(t, t');
    }
  }

  lemma {:induction false} OwnersKept(t: Table, t': Table)
    requires OwnersRight(t) && t'.open == t.open && t'.role == t.role
    ensures OwnersRight(t')
  {
  }

  /** Half-open channels stay right when no start is asked for or answered. */
  lemma {:induction false} HalfOpenKept(t: Table, t': Table)
    requires HalfOpenRight(t) && t'.halfOpen == t.halfOpen
    requires forall m :: m in t.pending && t.pending[m].Start? ==> m in t'.pending && t'.pending[m] == t.pending[m]
    requires forall m :: m in t'.pending && t'.pending[m].Start? ==> m in t.pending && t'.pending[m] == t.pending[m]
    ensures HalfOpenRight(t')
  {
    forall n | n in t'.halfOpen
      ensures exists m :: m in t'.pending && t'.pending[m] == Start(n)
    {
      var m :| m in t.pending && t.pending[m] == Start(n);
      assert t'.pending[m] == Start(n);
    }
  }

  /** Half-open channels once a start has been answered. */
  lemma {:induction false} HalfOpenAnswered(t: Table, t': Table, msgno: U32)
    requires HalfOpenRight(t) && NumbersRight(t) && msgno in t.pending && t.pending[msgno].Start?
    requires t'.pending == t.pending - {msgno} && t'.halfOpen == t.halfOpen - {t.pending[msgno].number}
    ensures HalfOpenRight(t')
  {
    forall n | n in t'.halfOpen
      ensures exists m :: m in t'.pending && t'.pending[m] == Start(n)
    {
      var m :| m in t.pending && t.pending[m] == Start(n);
      assert t'.pending[m] == Start(n);
    }
  }

  lemma {:induction false} ReplyNumbers(t: Table, step: Step)
    requires NumbersRight(t) && (step.ProfileReply? || step.OkReply? || step.ErrorReply?) && Next(t, step).Ok?
    ensures NumbersRight(Next(t, step).value)
  {
    hide Role.Owns;
    var t' := Next(t, step).value;
    assert t'.pending == t.pending - {step.msgno} && t'.nextChannel == t.nextChannel;
  }

  lemma {:induction false} ReplyOwners(t: Table, step: Step)
    requires NumbersRight(t) && OwnersRight(t) && (step.ProfileReply? || step.OkReply? || step.ErrorReply?) && Next(t, step).Ok?
    ensures OwnersRight(Next(t, step).value)
  {
  }

  lemma {:induction false} ReplySound(t: Table, step: Step)
    requires Sound(t) && (step.ProfileReply? || step.OkReply? || step.ErrorReply?) && Next(t, step).Ok?
    ensures Sound(Next(t, step).value)
  {
    hide NumbersRight, HalfOpenRight, OwnersRight, Starts;
    StartsRemove(t.pending, step.msgno);
    ReplyNumbers(t, step);
    ReplyOwners(t, step);
    ReplyHalfOpen(t, step);
    ReplyCounts(t, step);
  }

  lemma {:induction false} ReplyHalfOpen(t: Table, step: Step)
    requires NumbersRight(t) && HalfOpenRight(t) && (step.ProfileReply? || step.OkReply? || step.ErrorReply?) && Next(t, step).Ok?
    ensures HalfOpenRight(Next(t, step).value)
  {
    hide NumbersRight, HalfOpenRight;
    var t' := Next(t, step).value;
    if t.pending[step.msgno].Start? {
      HalfOpenAnswered(t, t', step.msgno);
    } else {
      HalfOpenKept(t, t');
    }
  }

  lemma {:induction false} ReplyCounts(t: Table, step: Step)
    requires (step.ProfileReply? || step.OkReply? || step.ErrorReply?) && Next(t, step).Ok?
    ensures
      var t' := Next(t, step).value;
      && t'.pending == t.pending - {step.msgno} && t'.outstanding == t.outstanding - {step.msgno}
      && t'.issued == t.issued && t'.nextMsgno == t.nextMsgno && t'.role == t.role
      && t'.granted + t'.refused == t.granted + t.refused + if t.pending[step.msgno].Start? then 1 else 0
  {
  }

  /** Steps that neither ask for anything nor answer it. */
  lemma {:induction false} OpenSound(t: Table, step: Step)
    requires Sound(t) && (step.Greet? || step.AcceptStart? || step.AcceptClose?) && Next(t, step).Ok?
    ensures Sound(Next(t, step).value)
  {
    hide HalfOpenRight, Starts;
    HalfOpenKept(t, Next(t, step).value);
  }

  /** Every step that does not fail keeps the table sound. */
  lemma {:induction false} StepSound(t: Table, step: Step)
    requires Sound(t) && Enabled(t, step) && Next(t, step).Ok?
    ensures Sound(Next(t, step).value)
  {
    hide Sound;
    match step
    case Greet => OpenSound(t, step);
    case StartChannel(msgno) => StartSound(t, msgno);
    case AcceptStart(channel) => OpenSound(t, step);
    case CloseChannel(channel, msgno) => CloseSound(t, channel, msgno);
    case AcceptClose(channel) => OpenSound(t, step);
    case ProfileReply(_) => ReplySound(t, step);
    case OkReply(_) => ReplySound(t, step);
    case ErrorReply(_) => ReplySound(t, step);
  }

  /** Opening a channel, from either side, never replaces one that is open. */
  lemma {:induction false} OpeningIsNew(t: Table, step: Step)
    requires Sound(t) && Enabled(t, step) && Next(t, step).Ok?
    ensures step.AcceptStart? ==> step.channel !in t.open
    ensures step.ProfileReply? ==> t.pending[step.msgno].number !in t.open
    ensures !step.AcceptClose? && !step.OkReply? ==> forall n :: n in t.open ==> n in Next(t, step).value.open && Next(t, step).value.open[n] == t.open[n]
  {
  }

  ghost predicate Runs(t: Table, steps: seq<Step>, t': Table)
    decreases |steps|
  {
    if steps == [] then t == t'
    else Enabled(t, steps[0]) && Next(t, steps[0]).Ok? && Runs(Next(t, steps[0]).value, steps[1..], t')
  }

  lemma {:induction false} RunSound(t: Table, steps: seq<Step>, t': Table)
    requires Sound(t) && Runs(t, steps, t')
    ensures Sound(t')
    decreases |steps|
  {
    if steps != [] {
      StepSound(t, steps[0]);
      RunSound(Next(t, steps[0]).value, steps[1..], t');
    }
  }

  /**
   * Channel table safety. In every error-free run, against any peer: channels this end started
   * have numbers its role owns and the peer's do not, zero is never open, channel 0's
   * outstanding message numbers are exactly the unanswered requests, and every start issued is
   * granted, refused or still unanswered, no two under the same number.
   */
  lemma {:induction false} TableSafety(role: Role, steps: seq<Step>, t: Table)
    requires Runs(Initial(role), steps, t)
    ensures forall n :: n in t.open ==> n != 0 && (t.open[n].Own? <==> t.role.Owns(n))
    ensures t.outstanding == t.pending.Keys
    ensures t.issued == t.granted + t.refused + |Starts(t.pending)|
    ensures Sound(t)
  {
    RunSound(Initial(role), steps, t);
  }
}
