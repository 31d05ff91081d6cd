/**
 * The receive ledger of a channel, against any peer: whatever frames arrive and however the
 * window is resized, sequence number, window base and unacknowledged octets add up.
 */
module Ledgers {
  import opened Octets
  import opened Window
  import opened Frames
  import opened Flow

  /** A receiver with what it has accepted, counted without bound, and every SEQ it has sent. */
  datatype Book = Book(rx: Receiver, unacked: U32, accepted: nat, seqs: seq<SeqFrame>, acks: seq<nat>)

  datatype Entry =
    | Arrival(f: DataFrame)
    | Resize(size: U32)

  function Opened(number: U32, size: U32): Book
  {
    Book(Receiver(number, Window(0, size), 0, None), 0, 0, [], [])
  }

  /** One entry; `acks` notes how many octets had been accepted when each SEQ went out. */
  function Next(b: Book, e: Entry): Result<Book, Error>
    requires e.Arrival? ==> |e.f.payload| <= MAX_FRAME_SIZE
  {
    match e
    case Resize(size) => Ok(b.(rx := b.rx.(window := b.rx.window.Resized(size))))
    case Arrival(f) =>
      var (k, _) := TakeFrame(b.rx, b.unacked, f);
      if k.outcome.Failed? then Failed(k.outcome.error)
      else
        var accepted := b.accepted + |f.payload|;
        match k.outcome.value
        case None => Ok(Book(k.rx, k.unacked, accepted, b.seqs, b.acks))
        case Some(s) => Ok(Book(k.rx, k.unacked, accepted, b.seqs + [s], b.acks + [accepted]))
  }

  /** Expected sequence number = window base + unacknowledged octets, and each SEQ says how far it had got. */
  ghost predicate Balanced(b: Book)
  {
    && b.rx.expected == Wrap(b.accepted)
    && b.unacked <= b.accepted && b.rx.window.base == Wrap(b.accepted - b.unacked)
    && |b.acks| == |b.seqs|
    && forall i :: 0 <= i < |b.seqs| ==> b.seqs[i].ackno == Wrap(b.acks[i]) && b.acks[i] <= b.accepted
  }

  lemma {:induction false} AcceptLedger(rx: Receiver, f: DataFrame, accepted: nat, unacked: U32)
    requires |f.payload| <= MAX_FRAME_SIZE && Accept(rx, f).outcome.Ok?
    requires rx.expected == Wrap(accepted) && unacked <= accepted && rx.window.base == Wrap(accepted - unacked)
    ensures unacked + |f.payload| <= rx.window.size
    ensures Accept(rx, f).rx.expected == Wrap(accepted + |f.payload|) && Accept(rx, f).rx.window == rx.window
  {
    AcceptsRefines(accepted - unacked, accepted, rx.window.size, |f.payload|);
    AdvanceRefines(accepted, |f.payload|);
  }

  lemma {:induction false} AcknowledgeLedger(rx: Receiver, unacked: U32, octets: U32, base: nat)
    requires unacked + octets < MODULUS && rx.window.base == Wrap(base) && Acknowledge(rx, unacked, octets).outcome.Ok?
    ensures
      var k := Acknowledge(rx, unacked, octets);
      && k.rx.expected == rx.expected
      && k.unacked <= unacked + octets
      && k.rx.window.base == Wrap(base + unacked + octets - k.unacked)
      && (k.outcome.value.Some? ==> k.unacked == 0 && k.outcome.value.value.ackno == Wrap(base + unacked + octets))
  {
    AdvanceRefines(base, unacked + octets);
  }

  lemma {:induction false} EntryBalances(b: Book, e: Entry)
    requires Balanced(b) && (e.Arrival? ==> |e.f.payload| <= MAX_FRAME_SIZE) && Next(b, e).Ok?
    ensures Balanced(Next(b, e).value)
  {
    hide Accept, Acknowledge, Wrap;
    if e.Arrival? {
      AcceptLedger(b.rx, e.f, b.accepted, b.unacked);
      AcknowledgeLedger(Accept(b.rx, e.f).rx, b.unacked, |e.f.payload|, b.accepted - b.unacked);
    }
  }

  ghost predicate Runs(b: Book, es: seq<Entry>, b': Book)
    decreases |es|
  {
    if es == [] then b == b'
    else
      && (es[0].Arrival? ==> |es[0].f.payload| <= MAX_FRAME_SIZE)
      && Next(b, es[0]).Ok? && Runs(Next(b, es[0]).value, es[1..], b')
  }

  lemma {:induction false} RunBalances(b: Book, es: seq<Entry>, b': Book)
    requires Balanced(b) && Runs(b, es, b')
    ensures Balanced(b')
    decreases |es|
  {
    if es != [] {
      EntryBalances(b, es[0]);
      RunBalances(Next(b, es[0]).value, es[1..], b');
    }
  }

  /**
   * Receive ledger: in every error-free run, against any peer, the expected sequence number is
   * the window base plus the unacknowledged octets modulo 2^32, both stand for the octets
   * accepted so far, and each SEQ sent acknowledges exactly the octets accepted when it was sent.
   */
  lemma {:induction false} LedgerBalances(number: U32, size: U32, es: seq<Entry>, b: Book)
    requires Runs(Opened(number, size), es, b)
    ensures b.rx.expected == Advance(b.rx.window.base, b.unacked)
    ensures b.rx.expected == Wrap(b.accepted)
    ensures |b.acks| == |b.seqs| && forall i :: 0 <= i < |b.seqs| ==> b.seqs[i].ackno == Wrap(b.acks[i])
  {
    RunBalances(Opened(number, size), es, b);
    AdvanceRefines(b.accepted - b.unacked, b.unacked);
  }
}
