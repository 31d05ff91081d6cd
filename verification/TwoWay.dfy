/**
 * A channel in both directions over one connection: each way a single FIFO carries data frames
 * and, mixed with them, the SEQ frames that acknowledge the other way. Both directions are
 * shown to be runs of `Transport`, so its promises hold of the connection as a whole.
 */
module TwoWay {
  import opened Octets
  import opened Window
  import opened Frames
  import opened Flow
  import opened Transport

  /**
   * `out` carries what this end sends to the other, in frames of at most `outMax` octets; `back`
   * and `backMax` are the reverse; `toThere` and `toHere` are the wires.
   */
  datatype Line = Line(
    out: Net, outMax: U32, back: Net, backMax: U32, toThere: seq<Frame>, toHere: seq<Frame>)
  {
    /** The same line seen from the other end. */
    function Turned(): Line { Line(back, backMax, out, outMax, toHere, toThere) }
  }

  datatype Move =
    | Sends(m: Message)      // this end queues a message
    | Grows(size: U32)       // this end widens the window it offers
    | Arrives                // the first frame on the wire reaches the other end

  function DataOn(wire: seq<Frame>): seq<DataFrame>
  {
    if wire == [] then []
    else (if wire[0].Data? then [wire[0].data] else []) + DataOn(wire[1..])
  }

  function SeqsOn(wire: seq<Frame>): seq<SeqFrame>
  {
    if wire == [] then []
    else (if wire[0].Seq? then [wire[0].seqf] else []) + SeqsOn(wire[1..])
  }

  function AsSeqs(fs: seq<SeqFrame>): seq<Frame>
  {
    if fs == [] then [] else [Seq(fs[0])] + AsSeqs(fs[1..])
  }

  /** Each wire carries the data of its direction and the acknowledgements of the other. */
  ghost predicate Linked(l: Line)
  {
    && DataOn(l.toThere) == l.out.data && SeqsOn(l.toThere) == l.back.seqs
    && DataOn(l.toHere) == l.back.data && SeqsOn(l.toHere) == l.out.seqs
  }

  ghost predicate Allowed(l: Line, move: Move)
  {
    match move
    case Sends(m) => Enabled(l.out, Send(m))
    case Grows(size) => Enabled(l.back, Grow(size))
    case Arrives => l.toThere != []
  }

  /** What a move may rely on. */
  ghost predicate Ready(l: Line, move: Move)
  {
    && AllWellFormed(l.out.tx.number, l.out.queue) && AllWellFormed(l.back.tx.number, l.back.queue)
    && Allowed(l, move)
    && (move.Arrives? ==> if l.toThere[0].Data? then Enabled(l.out, DeliverData) else Enabled(l.back, DeliverSeq))
  }

  /** What a step added to the data frames in flight, and to the SEQ frames in flight. */
  function NewData(before: Net, after: Net): seq<DataFrame>
  {
    if |before.data| <= |after.data| then after.data[|before.data|..] else []
  }

  function NewSeqs(before: Net, after: Net): seq<SeqFrame>
  {
    if |before.seqs| <= |after.seqs| then after.seqs[|before.seqs|..] else []
  }

  /** One move of this end; `Turned` gives those of the other. */
  function Go(l: Line, move: Move): Result<Line, Error>
    requires Ready(l, move)
  {
    match move
    case Sends(m) =>
      var n := Transport.Next(l.out, Send(m), l.outMax);
      if n.Failed? then Failed(n.error)
      else Ok(l.(out := n.value, toThere := l.toThere + AsFrames(NewData(l.out, n.value))))
    case Grows(size) =>
      var n := Transport.Next(l.back, Grow(size), l.backMax);
      if n.Failed? then Failed(n.error) else Ok(l.(back := n.value))
    case Arrives =>
      if l.toThere[0].Data? then
        var n := Transport.Next(l.out, DeliverData, l.outMax);
        if n.Failed? then Failed(n.error)
        else Ok(l.(out := n.value, toThere := l.toThere[1..], toHere := l.toHere + AsSeqs(NewSeqs(l.out, n.value))))
      else
        var n := Transport.Next(l.back, DeliverSeq, l.backMax);
        if n.Failed? then Failed(n.error)
        else Ok(l.(back := n.value, toThere := l.toThere[1..], toHere := l.toHere + AsFrames(NewData(l.back, n.value))))
  }

  // ---- wires -------------------------------------------------------------------------

  lemma {:induction false} DataOnAppend(a: seq<Frame>, b: seq<Frame>)
    ensures DataOn(a + b) == DataOn(a) + DataOn(b)
  {
    if a == [] {
      assert a + b == b;
      assert [] + DataOn(b) == DataOn(b);
    } else {
      assert (a + b)[0] == a[0] && (a + b)[1..] == a[1..] + b;
      DataOnAppend(a[1..], b);
      Associate(if a[0].Data? then [a[0].data] else [], DataOn(a[1..]), DataOn(b));
    }
  }

  lemma {:induction false} SeqsOnAppend(a: seq<Frame>, b: seq<Frame>)
    ensures SeqsOn(a + b) == SeqsOn(a) + SeqsOn(b)
  {
    if a == [] {
      assert a + b == b;
      assert [] + SeqsOn(b) == SeqsOn(b);
    } else {
      assert (a + b)[0] == a[0] && (a + b)[1..] == a[1..] + b;
      SeqsOnAppend(a[1..], b);
      Associate(if a[0].Seq? then [a[0].seqf] else [], SeqsOn(a[1..]), SeqsOn(b));
    }
  }

  lemma {:induction false} OnAppend(a: seq<Frame>, b: seq<Frame>)
    ensures DataOn(a + b) == DataOn(a) + DataOn(b) && SeqsOn(a + b) == SeqsOn(a) + SeqsOn(b)
  {
    DataOnAppend(a, b);
    SeqsOnAppend(a, b);
  }

  lemma {:induction false} OnData(fs: seq<DataFrame>)
    ensures DataOn(AsFrames(fs)) == fs && SeqsOn(AsFrames(fs)) == []
    decreases |fs|
  {
    if fs != [] {
      var n := |fs| - 1;
      OnData(fs[..n]);
      OnAppend(AsFrames(fs[..n]), [Data(fs[n])]);
      assert fs == fs[..n] + [fs[n]];
    }
  }

  lemma {:induction false} OnSeqs(fs: seq<SeqFrame>)
    ensures SeqsOn(AsSeqs(fs)) == fs && DataOn(AsSeqs(fs)) == []
  {
    if fs != [] {
      OnSeqs(fs[1..]);
      assert AsSeqs(fs)[1..] == AsSeqs(fs[1..]);
    }
  }

  // ---- how a step of one direction shows on the wires --------------------------------

  /** A step of one direction only takes from the front of what is in flight and adds at the end. */
  lemma {:induction false} StepShape(n: Net, step: Step, maxFrameSize: U32)
    requires Enabled(n, step) && AllWellFormed(n.tx.number, n.queue) && Transport.Next(n, step, maxFrameSize).Ok?
    ensures
      var n' := Transport.Next(n, step, maxFrameSize).value;
      && n'.data == (if step.DeliverData? then n.data[1..] else n.data + NewData(n, n'))
      && n'.seqs == (if step.DeliverSeq? then n.seqs[1..] else if step.DeliverData? then n.seqs + NewSeqs(n, n') else n.seqs)
  {
    hide Flow.Flush, Accept, Acknowledge;
  }

  // ---- both directions stay runs of `Transport` --------------------------------------

  /** A run of `Transport`, and if `wide` one in which every offer is at least the initial window. */
  ghost predicate Sane(n: Net, maxFrameSize: U32, wide: bool)
  {
    (exists c :: Refines(n, c, maxFrameSize)) && (wide ==> Wide(n))
  }

  /** The wires are in step with two sound directions. */
  ghost predicate Sound(l: Line, wide: bool)
  {
    Linked(l) && Sane(l.out, l.outMax, wide) && Sane(l.back, l.backMax, wide)
  }

  lemma {:induction false} SaneWellFormed(n: Net, maxFrameSize: U32, wide: bool)
    requires Sane(n, maxFrameSize, wide)
    ensures AllWellFormed(n.tx.number, n.queue)
    ensures n.data != [] ==> Enabled(n, DeliverData)
  {
    var c :| Refines(n, c, maxFrameSize);
    hide Widening, ToCome, Wrap;
  }

  /** Frames in flight keep to the size configured at the end that sent them. */
  lemma {:induction false} SaneWithin(n: Net, maxFrameSize: U32, wide: bool)
    requires Sane(n, maxFrameSize, wide)
    ensures Within(n.data, maxFrameSize)
  {
    var c :| Refines(n, c, maxFrameSize);
    ShortWithin(n.data, maxFrameSize);
  }

  lemma {:induction false} SaneStep(n: Net, step: Step, maxFrameSize: U32, wide: bool)
    requires Sane(n, maxFrameSize, wide) && Enabled(n, step) && AllWellFormed(n.tx.number, n.queue)
    ensures Transport.Next(n, step, maxFrameSize).Ok? && Sane(Transport.Next(n, step, maxFrameSize).value, maxFrameSize, wide)
    ensures step.DeliverData? || step.DeliverSeq? ==> Measure(Transport.Next(n, step, maxFrameSize).value) < Measure(n)
    ensures Prompt(n) && !step.Grow? ==> Prompt(Transport.Next(n, step, maxFrameSize).value)
  {
    var c :| Refines(n, c, maxFrameSize);
    hide Refines, Transport.Next, Count, Measure, Enabled, Wide, Prompt;
    StepRefines(n, c, step, maxFrameSize);
    if wide {
      WideStep(n, c, step, maxFrameSize);
    }
    if Prompt(n) && !step.Grow? {
      PromptKept(n, c, step, maxFrameSize);
    }
  }

  lemma {:induction false} SoundReady(l: Line, move: Move, wide: bool)
    requires Sound(l, wide) && Allowed(l, move)
    ensures Ready(l, move)
  {
    hide Sane, AllWellFormed;
    SaneWellFormed(l.out, l.outMax, wide);
    SaneWellFormed(l.back, l.backMax, wide);
    if move.Arrives? {
      assert l.toThere[0].Data? ==> DataOn(l.toThere)[0] == l.toThere[0].data;
      assert l.toThere[0].Seq? ==> SeqsOn(l.toThere)[0] == l.toThere[0].seqf;
    }
  }

  lemma {:induction false} SendsLinked(l: Line, m: Message)
    requires Linked(l) && Ready(l, Sends(m)) && Go(l, Sends(m)).Ok?
    ensures Linked(Go(l, Sends(m)).value)
  {
    hide Transport.Next, Enabled, AllWellFormed, NewData;
    var n := Transport.Next(l.out, Send(m), l.outMax).value;
    StepShape(l.out, Send(m), l.outMax);
    OnAppend(l.toThere, AsFrames(NewData(l.out, n)));
    OnData(NewData(l.out, n));
    assert l.back.seqs + [] == l.back.seqs;
  }

  lemma {:induction false} DataLinked(l: Line)
    requires Linked(l) && Ready(l, Arrives) && l.toThere[0].Data? && Go(l, Arrives).Ok?
    ensures Linked(Go(l, Arrives).value)
  {
    hide Transport.Next, Enabled, AllWellFormed, NewSeqs;
    var n := Transport.Next(l.out, DeliverData, l.outMax).value;
    StepShape(l.out, DeliverData, l.outMax);
    OnAppend(l.toHere, AsSeqs(NewSeqs(l.out, n)));
    OnSeqs(NewSeqs(l.out, n));
    assert l.out.data[1..] == DataOn(l.toThere[1..]);
    assert [] + SeqsOn(l.toThere[1..]) == SeqsOn(l.toThere[1..]);
    assert l.back.data + [] == l.back.data;
  }

  lemma {:induction false} SeqLinked(l: Line)
    requires Linked(l) && Ready(l, Arrives) && l.toThere[0].Seq? && Go(l, Arrives).Ok?
    ensures Linked(Go(l, Arrives).value)
  {
    hide Transport.Next, Enabled, AllWellFormed, NewData;
    var n := Transport.Next(l.back, DeliverSeq, l.backMax).value;
    StepShape(l.back, DeliverSeq, l.backMax);
    OnAppend(l.toHere, AsFrames(NewData(l.back, n)));
    OnData(NewData(l.back, n));
    assert l.back.seqs[1..] == SeqsOn(l.toThere[1..]);
    assert [] + DataOn(l.toThere[1..]) == DataOn(l.toThere[1..]);
    assert l.out.seqs + [] == l.out.seqs;
  }

  /** Deliveries still possible on the whole line. */
  function Remaining(l: Line): nat { Measure(l.out) + Measure(l.back) }

  /** Every move of either end succeeds and keeps the line sound; every arrival brings the line nearer to rest. */
  lemma {:induction false} MoveSound(l: Line, move: Move, wide: bool)
    requires Sound(l, wide) && Allowed(l, move)
    ensures Ready(l, move) && Go(l, move).Ok? && Sound(Go(l, move).value, wide)
    ensures move.Arrives? ==> Remaining(Go(l, move).value) < Remaining(l)
    ensures !move.Grows? && BothPrompt(l) ==> BothPrompt(Go(l, move).value)
  {
    SoundReady(l, move, wide);
    hide Transport.Next, Sane, AllWellFormed, Measure, Enabled, Linked, Prompt;
    match move
    case Sends(m) =>
      SaneStep(l.out, Send(m), l.outMax, wide);
      SendsLinked(l, m);
    case Grows(size) =>
      SaneStep(l.back, Grow(size), l.backMax, wide);
      GrowLinked(l, size);
    case Arrives =>
      if l.toThere[0].Data? {
        SaneStep(l.out, DeliverData, l.outMax, wide);
        DataLinked(l);
      } else {
        SaneStep(l.back, DeliverSeq, l.backMax, wide);
        SeqLinked(l);
      }
  }

  /** Neither end has widened its window past what it has offered. */
  predicate BothPrompt(l: Line) { Prompt(l.out) && Prompt(l.back) }

  lemma {:induction false} GrowLinked(l: Line, size: U32)
    requires Linked(l) && Ready(l, Grows(size))
    ensures Go(l, Grows(size)).Ok? && Linked(Go(l, Grows(size)).value)
  {
  }

  lemma {:induction false} TurnedSound(l: Line, wide: bool)
    requires Sound(l, wide)
    ensures Sound(l.Turned(), wide)
  {
    hide Sane;
  }

  // ---- whole runs --------------------------------------------------------------------

  /** A move of this end, or of the other. */
  datatype Turn = Turn(here: bool, move: Move)

  function SeenBy(l: Line, t: Turn): Line { if t.here then l else l.Turned() }

  function Taken(l: Line, t: Turn): Result<Line, Error>
    requires Ready(SeenBy(l, t), t.move)
  {
    var r := Go(SeenBy(l, t), t.move);
    if r.Failed? then r else Ok(SeenBy(r.value, t))
  }

  lemma {:induction false} TurnSound(l: Line, t: Turn, wide: bool)
    requires Sound(l, wide) && Allowed(SeenBy(l, t), t.move)
    ensures Ready(SeenBy(l, t), t.move) && Taken(l, t).Ok? && Sound(Taken(l, t).value, wide)
    ensures t.move.Arrives? ==> Remaining(Taken(l, t).value) < Remaining(l)
    ensures !t.move.Grows? && BothPrompt(l) ==> BothPrompt(Taken(l, t).value)
  {
    hide Sound, Ready, Allowed, Go, Measure, Prompt;
    if t.here {
      MoveSound(l, t.move, wide);
    } else {
      TurnedSound(l, wide);
      MoveSound(l.Turned(), t.move, wide);
      TurnedSound(Go(l.Turned(), t.move).value, wide);
    }
  }

  /** Arrivals do not change what was sent. */
  lemma {:induction false} ArrivalKeepsSent(l: Line, t: Turn)
    requires Ready(SeenBy(l, t), t.move) && t.move.Arrives? && Taken(l, t).Ok?
    ensures Taken(l, t).value.out.sent == l.out.sent && Taken(l, t).value.back.sent == l.back.sent
  {
    hide Flow.Flush, Accept, Acknowledge;
  }

  ghost predicate Runs(l: Line, turns: seq<Turn>, l': Line)
    decreases |turns|
  {
    if turns == [] then l == l'
    else
      && Allowed(SeenBy(l, turns[0]), turns[0].move) && Ready(SeenBy(l, turns[0]), turns[0].move)
      && Taken(l, turns[0]).Ok?
      && Runs(Taken(l, turns[0]).value, turns[1..], l')
  }

  lemma {:induction false} RunSound(l: Line, turns: seq<Turn>, l': Line, wide: bool)
    requires Sound(l, wide) && Runs(l, turns, l')
    ensures Sound(l', wide)
    decreases |turns|
  {
    hide Sound, Ready, Allowed, Taken, SeenBy;
    if turns != [] {
      TurnSound(l, turns[0], wide);
      RunSound(Taken(l, turns[0]).value, turns[1..], l', wide);
    }
  }

  /** The configured frame sizes stay what they are. */
  lemma {:induction false} RunLimits(l: Line, turns: seq<Turn>, l': Line)
    requires Runs(l, turns, l')
    ensures l'.outMax == l.outMax && l'.backMax == l.backMax
    decreases |turns|
  {
    hide Ready, Allowed, Transport.Next;
    if turns != [] {
      RunLimits(Taken(l, turns[0]).value, turns[1..], l');
    }
  }

  /** A channel just opened at both ends, each window roomy for what the other end sends. */
  ghost predicate JustOpened(l: Line)
  {
    && Opening(l.out) && Opening(l.back)
    && Roomy(l.out.rx.window.size, l.outMax) && Roomy(l.back.rx.window.size, l.backMax)
    && l.toThere == AsSeqs(l.back.seqs) && l.toHere == AsSeqs(l.out.seqs)
  }

  /** Both windows are at least the initial one. */
  predicate BothWide(l: Line)
  {
    l.out.rx.window.size >= INITIAL_WINDOW_SIZE && l.back.rx.window.size >= INITIAL_WINDOW_SIZE
  }

  lemma {:induction false} OpeningSane(n: Net, maxFrameSize: U32, wide: bool)
    requires Opening(n) && Roomy(n.rx.window.size, maxFrameSize) && (wide ==> n.rx.window.size >= INITIAL_WINDOW_SIZE)
    ensures Sane(n, maxFrameSize, wide) && n.data == []
  {
    FreshRefines(n.rx.number, n.rx.window.size, maxFrameSize);
    assert Refines(n, StartCounts(n), maxFrameSize);
  }

  lemma {:induction false} FreshSound(l: Line, wide: bool)
    requires JustOpened(l) && (wide ==> BothWide(l))
    ensures Sound(l, wide)
  {
    hide Sane, Opening;
    OpeningSane(l.out, l.outMax, wide);
    OpeningSane(l.back, l.backMax, wide);
    OnSeqs(l.back.seqs);
    OnSeqs(l.out.seqs);
  }

  /** A direction at rest has delivered everything that was sent. */
  lemma {:induction false} RestDelivered(n: Net, maxFrameSize: U32, wide: bool)
    requires Sane(n, maxFrameSize, wide) && (wide || Prompt(n)) && n.data == [] && n.seqs == []
    ensures n.queue == [] && n.delivered == n.sent && n.rx.partial == None
  {
    var c :| Refines(n, c, maxFrameSize);
    RestWritable(n, c, maxFrameSize);
    assert n.unacked < Threshold(n.rx.window.size);
  }

  lemma {:induction false} ArrivalsBounded(l: Line, turns: seq<Turn>, l': Line, wide: bool)
    requires Sound(l, wide) && Runs(l, turns, l') && forall i :: 0 <= i < |turns| ==> turns[i].move.Arrives?
    ensures |turns| + Remaining(l') <= Remaining(l)
    ensures l'.out.sent == l.out.sent && l'.back.sent == l.back.sent
    ensures BothPrompt(l) ==> BothPrompt(l')
    decreases |turns|
  {
    hide Sound, Ready, Allowed, Taken, SeenBy, Remaining, BothPrompt;
    if turns != [] {
      var t := turns[0];
      TurnSound(l, t, wide);
      ArrivalKeepsSent(l, t);
      ArrivalsBounded(Taken(l, t).value, turns[1..], l', wide);
    }
  }

  /**
   * A whole connection: from any state reached by any moves of both ends, frames arrive in any
   * interleaving of the two wires for at most `Remaining` arrivals; while a wire holds a frame,
   * its arrival succeeds; and when both wires are empty each end has received exactly the
   * messages the other sent, in order, and nothing is left queued at either. Each end has its own
   * limit on frames, which every frame in flight keeps to, and its own window.
   */
  lemma {:induction false} BothWaysDelivered(start: Line, before: seq<Turn>, l: Line, arrivals: seq<Turn>, l': Line)
    requires JustOpened(start) && Runs(start, before, l) && Runs(l, arrivals, l')
    requires BothWide(start) || BothPrompt(l)
    requires forall i :: 0 <= i < |arrivals| ==> arrivals[i].move.Arrives?
    ensures |arrivals| <= Remaining(l)
    ensures forall t: Turn :: t.move.Arrives? && SeenBy(l', t).toThere != [] ==>
      Ready(SeenBy(l', t), t.move) && Taken(l', t).Ok?
    ensures Within(DataOn(l'.toThere), start.outMax) && Within(DataOn(l'.toHere), start.backMax)
    ensures l'.toThere == [] && l'.toHere == [] ==>
      && l'.out.delivered == l.out.sent && l'.out.queue == []
      && l'.back.delivered == l.back.sent && l'.back.queue == []
  {
    hide Ready, Taken, Remaining, Sane, Prompt;
    var wide := BothWide(start);
    FreshSound(start, wide);
    RunSound(start, before, l, wide);
    ArrivalsBounded(l, arrivals, l', wide);
    RunSound(l, arrivals, l', wide);
    RunLimits(start, before, l);
    RunLimits(l, arrivals, l');
    SaneWithin(l'.out, l'.outMax, wide);
    SaneWithin(l'.back, l'.backMax, wide);
    forall t: Turn | t.move.Arrives? && SeenBy(l', t).toThere != []
      ensures Ready(SeenBy(l', t), t.move) && Taken(l', t).Ok?
    {
      TurnSound(l', t, wide);
    }
    if l'.toThere == [] && l'.toHere == [] {
      RestDelivered(l'.out, l'.outMax, wide);
      RestDelivered(l'.back, l'.backMax, wide);
    }
  }
}
