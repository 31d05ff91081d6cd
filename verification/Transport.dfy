/**
 * One direction of a channel as a step system: a sending end, a receiving end, a FIFO of data
 * frames one way and a FIFO of SEQ frames the other. The sender cuts messages to the window it
 * was last offered, the receiver checks 32-bit sequence numbers and reopens the window.
 *
 * `Counts` is the same traffic counted without bound; `Refines` is the invariant that ties the
 * two together and carries every theorem below.
 */
module Transport {
  import opened Octets
  import opened Window
  import opened Frames
  import opened Flow

  datatype Net = Net(
    tx: Sender, queue: seq<Message>,                // sending end
    data: seq<DataFrame>, seqs: seq<SeqFrame>,      // in flight
    rx: Receiver, unacked: U32,                     // receiving end
    sent: seq<Message>, delivered: seq<Message>)    // history: handed to one end, out of the other

  datatype Step =
    | Send(m: Message)      // the application queues a message, and the queue is flushed
    | Grow(size: U32)       // the receiving application widens its window
    | DeliverData           // the first data frame in flight reaches the receiver
    | DeliverSeq            // the first SEQ in flight reaches the sender

  /** What the step may assume: a well-formed message, a window that never shrinks, a frame to deliver. */
  ghost predicate Enabled(n: Net, step: Step)
  {
    match step
    case Send(m) => WellFormed(n.tx.number, m)
    case Grow(size) => n.rx.window.size <= size <= MAX_FRAME_SIZE
    case DeliverData => n.data != [] && |n.data[0].payload| <= MAX_FRAME_SIZE
    case DeliverSeq => n.seqs != []
  }

  function FlushQueue(n: Net, maxFrameSize: U32): Net
    requires AllWellFormed(n.tx.number, n.queue)
  {
    var r := Flush(n.tx, n.queue, maxFrameSize);
    n.(tx := r.tx, queue := r.queue, data := n.data + r.frames)
  }

  /** `handle_data`: accept the frame, charge its octets, and perhaps answer with a SEQ. */
  function Receive(n: Net): Result<Net, Error>
    requires n.data != [] && |n.data[0].payload| <= MAX_FRAME_SIZE
  {
    var f := n.data[0];
    var a := Accept(n.rx, f);
    if a.outcome.Failed? then Failed(a.outcome.error)
    else
      var k := Acknowledge(a.rx, n.unacked, |f.payload|);
      if k.outcome.Failed? then Failed(k.outcome.error)
      else Ok(n.(
                data := n.data[1..],
                rx := k.rx,
                unacked := k.unacked,
                seqs := n.seqs + (if k.outcome.value.Some? then [k.outcome.value.value] else []),
                delivered := n.delivered + (if a.outcome.value.Some? then [a.outcome.value.value] else [])))
  }

  function Next(n: Net, step: Step, maxFrameSize: U32): Result<Net, Error>
    requires Enabled(n, step) && AllWellFormed(n.tx.number, n.queue)
  {
    match step
    case Send(m) =>
      Ok(FlushQueue(n.(queue := n.queue + [m], sent := n.sent + [m]), maxFrameSize))
    case Grow(size) => Ok(n.(rx := n.rx.(window := n.rx.window.Resized(size))))
    case DeliverData => Receive(n)
    case DeliverSeq => Ok(FlushQueue(n.(tx := ApplySeq(n.tx, n.seqs[0]), seqs := n.seqs[1..]), maxFrameSize))
  }

  // ---- unbounded counters ------------------------------------------------------------

  /** Octets sent and received, the octet each window starts at, and what each SEQ acknowledges. */
  datatype Counts = Counts(sent: nat, received: nat, sendBase: nat, recvBase: nat, acks: seq<nat>)

  function Load(fs: seq<DataFrame>): nat
  {
    if fs == [] then 0 else |fs[0].payload| + Load(fs[1..])
  }

  /** Payload octets of a list of messages. */
  function Volume(ms: seq<Message>): nat
  {
    if ms == [] then 0 else Volume(ms[..|ms| - 1]) + |ms[|ms| - 1].payload|
  }

  /** How a step moves the unbounded counters. */
  function Count(n: Net, c: Counts, step: Step, maxFrameSize: U32): Counts
    requires Enabled(n, step) && AllWellFormed(n.tx.number, n.queue) && |c.acks| == |n.seqs|
  {
    match step
    case Send(m) => c.(sent := c.sent + Load(Flush(n.tx, n.queue + [m], maxFrameSize).frames))
    case Grow(_) => c
    case DeliverData =>
      var received := c.received + |n.data[0].payload|;
      if received < c.recvBase + Threshold(n.rx.window.size) then c.(received := received)
      else c.(received := received, recvBase := received, acks := c.acks + [received])
    case DeliverSeq =>
      c.(sent := c.sent + Load(Flush(ApplySeq(n.tx, n.seqs[0]), n.queue, maxFrameSize).frames),
         sendBase := c.acks[0], acks := c.acks[1..])
  }

  // ---- the invariant -----------------------------------------------------------------

  /** `fs` carry the octets from count `lo` on, in order and without gaps. */
  ghost predicate Contiguous(fs: seq<DataFrame>, lo: nat)
  {
    fs != [] ==>
      && fs[0].seqno == Wrap(lo)
      && |fs[0].payload| <= MAX_FRAME_SIZE
      && Contiguous(fs[1..], lo + |fs[0].payload|)
  }

  /**
   * How far a sender that was offered `size` octets may have gone: it starts at the initial
   * window whatever the receiver has in mind.
   */
  function Reach(size: U32): U32 { if size < INITIAL_WINDOW_SIZE then INITIAL_WINDOW_SIZE else size }

  /**
   * When a receiver's window takes whatever a sender with frames of at most `maxFrameSize` octets
   * sends: it is no smaller than the initial window, or it has room for one more frame whenever
   * the octets not yet acknowledged are below the threshold.
   */
  predicate Roomy(size: U32, maxFrameSize: U32)
  {
    size >= INITIAL_WINDOW_SIZE || ChunkLimit(maxFrameSize) + Threshold(size) <= size + 1
  }

  lemma {:induction false} RoomyGrows(size: U32, newSize: U32, maxFrameSize: U32)
    requires Roomy(size, maxFrameSize) && size <= newSize
    ensures Roomy(newSize, maxFrameSize) && Threshold(size) <= Threshold(newSize)
  {
  }

  /** The windows offered, oldest first, only ever move right, and end at what is offered now. */
  ghost predicate Widening(base: nat, size: U32, acks: seq<nat>, seqs: seq<SeqFrame>, lastBase: nat, lastSize: U32)
    requires |acks| == |seqs|
    decreases |acks|
  {
    if acks == [] then base == lastBase && size <= Reach(lastSize)
    else
      && base <= acks[0] && size <= Reach(seqs[0].window) && seqs[0].window <= MAX_FRAME_SIZE
      && seqs[0].ackno == Wrap(acks[0])
      && Widening(acks[0], seqs[0].window, acks[1..], seqs[1..], lastBase, lastSize)
  }

  /**
   * The messages that will still come out of the receiver, given what it has reassembled, the
   * frames in flight and the queue behind them; `None` if some fragment would be interleaved.
   */
  function ToCome(partial: Option<Message>, fs: seq<DataFrame>, queue: seq<Message>): Option<seq<Message>>
    decreases |fs|
  {
    if fs == [] then
      if partial.None? then Some(queue)
      else if queue == [] || queue[0].payload == [] || partial.value.(payload := queue[0].payload) != queue[0] then None
      else Some([queue[0].(payload := partial.value.payload + queue[0].payload)] + queue[1..])
    else if partial.Some? && !partial.value.Matches(fs[0]) then None
    else if fs[0].more then ToCome(Some(Joined(partial, fs[0])), fs[1..], queue)
    else
      var rest := ToCome(None, fs[1..], queue);
      if rest.None? then None else Some([Joined(partial, fs[0])] + rest.value)
  }

  /** The 32-bit state is the unbounded state modulo 2^32, and the protocol's promises hold of the latter. */
  ghost predicate Refines(n: Net, c: Counts, maxFrameSize: U32)
  {
    && Flowing(n, c, maxFrameSize)
    // a queue left standing means the window is used up
    && (n.queue != [] ==> c.sent >= c.sendBase + n.tx.window.size)
  }

  /** All of the invariant but the last clause, which `flush` restores. */
  ghost predicate Flowing(n: Net, c: Counts, maxFrameSize: U32)
  {
    && |c.acks| == |n.seqs|
    && n.tx.number == n.rx.number <= MAX_CHANNEL_NO
    && AllWellFormed(n.tx.number, n.queue)
    && Counted(n, c)
    && Offered(n, c)
    && Kept(n, c)
    && Roomy(n.rx.window.size, maxFrameSize) && Short(n.data, ChunkLimit(maxFrameSize))
  }

  /** No frame carries more than `limit` octets. */
  ghost predicate Short(fs: seq<DataFrame>, limit: U32)
  {
    forall i :: 0 <= i < |fs| ==> |fs[i].payload| <= limit
  }

  lemma {:induction false} ShortWithin(fs: seq<DataFrame>, maxFrameSize: U32)
    requires Short(fs, ChunkLimit(maxFrameSize))
    ensures Within(fs, maxFrameSize)
  {
  }

  /** Each 32-bit counter is its unbounded count, and the frames in flight lie between the two ends' counts. */
  ghost predicate Counted(n: Net, c: Counts)
  {
    && At(n.tx, c.sent, c.sendBase)
    && n.rx.expected == Wrap(c.received) && n.rx.window.base == Wrap(c.recvBase)
    && Contiguous(n.data, c.received) && c.sent == c.received + Load(n.data)
  }

  /** The sender's counters: `sent` octets written, within reach of a window that starts at octet `base`. */
  ghost predicate At(tx: Sender, sent: nat, base: nat)
  {
    tx.next == Wrap(sent) && tx.window.base == Wrap(base) && base <= sent <= base + Reach(tx.window.size)
  }

  /** Windows on offer only widen, and what is not yet acknowledged stays below the threshold. */
  ghost predicate Offered(n: Net, c: Counts)
    requires |c.acks| == |n.seqs|
  {
    && n.rx.window.size <= MAX_FRAME_SIZE
    && Widening(c.sendBase, n.tx.window.size, c.acks, n.seqs, c.recvBase, n.rx.window.size)
    && c.received == c.recvBase + n.unacked
    && n.unacked < Threshold(n.rx.window.size)
  }

  /** No octet is lost, repeated or reordered: what came out and what is to come make up what was sent. */
  ghost predicate Kept(n: Net, c: Counts)
  {
    && c.received == Volume(n.delivered) + (if n.rx.partial.Some? then |n.rx.partial.value.payload| else 0)
    && ToCome(n.rx.partial, n.data, n.queue).Some?
    && n.sent == n.delivered + ToCome(n.rx.partial, n.data, n.queue).value
  }

  /** A channel just opened, the receiver offering `size` octets. */
  function Fresh(number: U32, size: U32): Net
  {
    Net(Sender(number, Window(0, INITIAL_WINDOW_SIZE), 0), [], [], [],
        Receiver(number, Window(0, size), 0, None), 0, [], [])
  }

  /** Channel 0, whose wider window is announced right away. */
  function Announced(number: U32, size: U32): Net
  {
    Fresh(number, size).(seqs := [SeqFrame(number, 0, size)])
  }

  const ZERO: Counts := Counts(0, 0, 0, 0, [])

  lemma {:induction false} FreshRefines(number: U32, size: U32, maxFrameSize: U32)
    requires number <= MAX_CHANNEL_NO && size <= MAX_FRAME_SIZE && Roomy(size, maxFrameSize)
    ensures Refines(Fresh(number, size), ZERO, maxFrameSize)
    ensures size > INITIAL_WINDOW_SIZE ==> Refines(Announced(number, size), ZERO.(acks := [0]), maxFrameSize)
  {
    var n := Announced(number, size);
    assert Widening(0, size, [0][1..], n.seqs[1..], 0, size);
  }

  // ---- every step keeps the invariant ------------------------------------------------

  lemma {:induction false} FlushCounted(n: Net, c: Counts, maxFrameSize: U32)
    requires Counted(n, c) && AllWellFormed(n.tx.number, n.queue)
    ensures Counted(FlushQueue(n, maxFrameSize), c.(sent := c.sent + Load(Flush(n.tx, n.queue, maxFrameSize).frames)))
  {
    hide Flush, Contiguous, Load, Wrap;
    var r := Flush(n.tx, n.queue, maxFrameSize);
    assert At(r.tx, c.sent + Load(r.frames), c.sendBase) by {
      FlushFlow(n.tx, n.queue, maxFrameSize, c.sent, c.sendBase);
    }
    assert Contiguous(n.data + r.frames, c.received) by {
      FlushContiguous(n.tx, n.queue, maxFrameSize, c.sent, c.sendBase);
      ContiguousAppend(n.data, r.frames, c.received);
    }
    LoadAppend(n.data, r.frames);
  }

  /** Flushing restores the whole invariant after a message was queued or the window moved. */
  lemma {:induction false} FlushRefines(n: Net, c: Counts, maxFrameSize: U32)
    requires Flowing(n, c, maxFrameSize)
    ensures Refines(FlushQueue(n, maxFrameSize), c.(sent := c.sent + Load(Flush(n.tx, n.queue, maxFrameSize).frames)), maxFrameSize)
    ensures Work(FlushQueue(n, maxFrameSize).queue) + |FlushQueue(n, maxFrameSize).data| <= Work(n.queue) + |n.data|
  {
    FlushCounted(n, c, maxFrameSize);
    FlushFlow(n.tx, n.queue, maxFrameSize, c.sent, c.sendBase);
    FlushWork(n.tx, n.queue, maxFrameSize, c.sent, c.sendBase);
    FlushKeeps(n.tx, n.queue, maxFrameSize);
    FlushShort(n.tx, n.queue, maxFrameSize);
    FlushContentBehind(n.tx, n.queue, maxFrameSize, n.rx.partial, n.data);
  }

  lemma {:induction false} SendRefines(n: Net, c: Counts, m: Message, maxFrameSize: U32)
    requires Refines(n, c, maxFrameSize) && WellFormed(n.tx.number, m)
    ensures Refines(Next(n, Send(m), maxFrameSize).value, Count(n, c, Send(m), maxFrameSize), maxFrameSize)
  {
    var n' := n.(queue := n.queue + [m], sent := n.sent + [m]);
    QueuedLast(n.rx.partial, n.data, n.queue, m);
    FlushRefines(n', c, maxFrameSize);
  }

  /** Applying a SEQ: the window moves right, so what was within it still is. */
  lemma {:induction false} ApplySeqFlowing(n: Net, c: Counts, maxFrameSize: U32)
    requires Refines(n, c, maxFrameSize) && n.seqs != []
    ensures Flowing(n.(tx := ApplySeq(n.tx, n.seqs[0]), seqs := n.seqs[1..]),
                    c.(sendBase := c.acks[0], acks := c.acks[1..]), maxFrameSize)
  {
    RightEdge(c.acks[0], n.seqs[0].window, c.acks[1..], n.seqs[1..], c.recvBase, n.rx.window.size);
  }

  lemma {:induction false} DeliverSeqRefines(n: Net, c: Counts, maxFrameSize: U32)
    requires Refines(n, c, maxFrameSize) && n.seqs != []
    ensures Refines(Next(n, DeliverSeq, maxFrameSize).value, Count(n, c, DeliverSeq, maxFrameSize), maxFrameSize)
    ensures Measure(Next(n, DeliverSeq, maxFrameSize).value) < Measure(n)
  {
    ApplySeqFlowing(n, c, maxFrameSize);
    var n' := n.(tx := ApplySeq(n.tx, n.seqs[0]), seqs := n.seqs[1..]);
    FlushRefines(n', c.(sendBase := c.acks[0], acks := c.acks[1..]), maxFrameSize);
  }

  /** What `accept` does with the next frame in flight: never an error, and the octet count moves on. */
  lemma {:induction false} AcceptRefines(n: Net, c: Counts, maxFrameSize: U32)
    requires Refines(n, c, maxFrameSize) && n.data != []
    ensures |n.data[0].payload| <= MAX_FRAME_SIZE
    ensures c.received + |n.data[0].payload| <= c.recvBase + n.rx.window.size
    ensures
      var a := Accept(n.rx, n.data[0]);
      && a.outcome.Ok?
      && a.rx == n.rx.(expected := Wrap(c.received + |n.data[0].payload|), partial := a.rx.partial)
      && a.rx.partial == (if n.data[0].more then Some(Joined(n.rx.partial, n.data[0])) else None)
      && a.outcome.value == (if n.data[0].more then None else Some(Joined(n.rx.partial, n.data[0])))
  {
    RightEdge(c.sendBase, n.tx.window.size, c.acks, n.seqs, c.recvBase, n.rx.window.size);
    AcceptsRefines(c.recvBase, c.received, n.rx.window.size, |n.data[0].payload|);
    AdvanceRefines(c.received, |n.data[0].payload|);
  }

  /** What `acknowledge` does with it: a SEQ for exactly the octets accepted so far, or a count still below the threshold. */
  lemma {:induction false} AcknowledgeRefines(rx: Receiver, unacked: U32, octets: U32, base: nat)
    requires rx.number <= MAX_CHANNEL_NO && rx.window.base == Wrap(base)
    requires rx.window.size <= MAX_FRAME_SIZE && unacked + octets <= rx.window.size
    ensures
      var k := Acknowledge(rx, unacked, octets);
      && k.outcome.Ok?
      && if base + unacked + octets < base + Threshold(rx.window.size) then
           k == Acknowledged(rx, unacked + octets, Ok(None)) && k.unacked < Threshold(rx.window.size)
         else
           && k.rx == rx.(window := Window(Wrap(base + unacked + octets), rx.window.size))
           && k.unacked == 0
           && k.outcome.value == Some(SeqFrame(rx.number, Wrap(base + unacked + octets), rx.window.size))
  {
    AdvanceRefines(base, unacked + octets);
  }

  /** The state after the next data frame has been received, written out on unbounded counters. */
  function Received(n: Net, c: Counts): Net
    requires n.data != [] && c.recvBase <= c.received
  {
    var f := n.data[0];
    var received := c.received + |f.payload|;
    var quiet := received < c.recvBase + Threshold(n.rx.window.size);
    n.(data := n.data[1..],
       rx := Receiver(n.rx.number,
                      if quiet then n.rx.window else Window(Wrap(received), n.rx.window.size),
                      Wrap(received),
                      if f.more then Some(Joined(n.rx.partial, f)) else None),
       unacked := if quiet then received - c.recvBase else 0,
       seqs := if quiet then n.seqs else n.seqs + [SeqFrame(n.rx.number, Wrap(received), n.rx.window.size)],
       delivered := if f.more then n.delivered else n.delivered + [Joined(n.rx.partial, f)])
  }

  lemma {:induction false} ReceiveIs(n: Net, c: Counts, maxFrameSize: U32)
    requires Refines(n, c, maxFrameSize) && Enabled(n, DeliverData)
    ensures Receive(n) == Ok(Received(n, c))
  {
    hide Accept, Acknowledge, ToCome, Contiguous, Widening, Load, Volume, Wrap, Joined;
    AcceptRefines(n, c, maxFrameSize);
    RightEdge(c.sendBase, n.tx.window.size, c.acks, n.seqs, c.recvBase, n.rx.window.size);
    AcknowledgeRefines(Accept(n.rx, n.data[0]).rx, n.unacked, |n.data[0].payload|, c.recvBase);
    assert n.seqs + [] == n.seqs && n.delivered + [] == n.delivered;
  }

  lemma {:induction false} ReceivedCounted(n: Net, c: Counts, maxFrameSize: U32)
    requires Refines(n, c, maxFrameSize) && Enabled(n, DeliverData)
    ensures Counted(Received(n, c), Count(n, c, DeliverData, maxFrameSize))
  {
  }

  lemma {:induction false} ReceivedOffered(n: Net, c: Counts, maxFrameSize: U32)
    requires Refines(n, c, maxFrameSize) && Enabled(n, DeliverData)
    ensures |Received(n, c).seqs| == |Count(n, c, DeliverData, maxFrameSize).acks|
    ensures Offered(Received(n, c), Count(n, c, DeliverData, maxFrameSize))
  {
    var n' := Received(n, c);
    if n'.seqs != n.seqs {
      WideningSnoc(c.sendBase, n.tx.window.size, c.acks, n.seqs, c.recvBase, n.rx.window.size,
                   c.received + |n.data[0].payload|, n'.seqs[|n.seqs|]);
    }
  }

  /** Accepting a frame moves its octets from what is to come into what the receiver holds. */
  lemma {:induction false} ReceivedKept(n: Net, c: Counts, maxFrameSize: U32)
    requires Refines(n, c, maxFrameSize) && Enabled(n, DeliverData)
    ensures Kept(Received(n, c), Count(n, c, DeliverData, maxFrameSize))
  {
    var m := Joined(n.rx.partial, n.data[0]);
    if !n.data[0].more {
      assert (n.delivered + [m])[..|n.delivered|] == n.delivered;
      var rest := ToCome(None, n.data[1..], n.queue).value;
      assert n.delivered + ([m] + rest) == (n.delivered + [m]) + rest;
    }
  }

  lemma {:induction false} DeliverDataRefines(n: Net, c: Counts, maxFrameSize: U32)
    requires Refines(n, c, maxFrameSize) && Enabled(n, DeliverData)
    ensures Receive(n).Ok?
    ensures Refines(Receive(n).value, Count(n, c, DeliverData, maxFrameSize), maxFrameSize)
    ensures Measure(Receive(n).value) < Measure(n)
  {
    ReceiveIs(n, c, maxFrameSize);
    ReceivedCounted(n, c, maxFrameSize);
    ReceivedOffered(n, c, maxFrameSize);
    ReceivedKept(n, c, maxFrameSize);
  }

  /** Deliveries still possible: at most one per frame that can still be sent or received, and one SEQ for each. */
  function Measure(n: Net): nat
  {
    2 * (Work(n.queue) + |n.data|) + |n.seqs|
  }

  /** Every step succeeds and keeps the 32-bit state in step with the unbounded counters. */
  lemma {:induction false} StepRefines(n: Net, c: Counts, step: Step, maxFrameSize: U32)
    requires Refines(n, c, maxFrameSize) && Enabled(n, step)
    ensures Next(n, step, maxFrameSize).Ok?
    ensures Refines(Next(n, step, maxFrameSize).value, Count(n, c, step, maxFrameSize), maxFrameSize)
    ensures step.DeliverData? || step.DeliverSeq? ==> Measure(Next(n, step, maxFrameSize).value) < Measure(n)
  {
    match step
    case Send(m) => SendRefines(n, c, m, maxFrameSize);
    case Grow(size) =>
      WideningGrow(c.sendBase, n.tx.window.size, c.acks, n.seqs, c.recvBase, n.rx.window.size, size);
      RoomyGrows(n.rx.window.size, size, maxFrameSize);
    case DeliverData => DeliverDataRefines(n, c, maxFrameSize);
    case DeliverSeq => DeliverSeqRefines(n, c, maxFrameSize);
  }

  // ---- whole runs --------------------------------------------------------------------

  /** `n'` is reached from `n` by the enabled steps `steps`, none of which reports an error. */
  ghost predicate Runs(n: Net, steps: seq<Step>, maxFrameSize: U32, n': Net)
    decreases |steps|
  {
    if steps == [] then n == n'
    else
      && Enabled(n, steps[0]) && AllWellFormed(n.tx.number, n.queue)
      && Next(n, steps[0], maxFrameSize).Ok?
      && Runs(Next(n, steps[0], maxFrameSize).value, steps[1..], maxFrameSize, n')
  }

  /** A channel that has just opened at both ends; a window wider than the initial one may be announced. */
  ghost predicate Opening(n: Net)
  {
    var number, size := n.rx.number, n.rx.window.size;
    && number <= MAX_CHANNEL_NO && size <= MAX_FRAME_SIZE
    && (n == Fresh(number, size) || (size > INITIAL_WINDOW_SIZE && n == Announced(number, size)))
  }

  /** `n` is reached from a channel opened with a window of `size` octets. */
  ghost predicate Reachable(n: Net, size: U32, maxFrameSize: U32)
  {
    exists start, steps :: Opening(start) && start.rx.window.size == size && Runs(start, steps, maxFrameSize, n)
  }

  lemma {:induction false} RunRefines(n: Net, c: Counts, steps: seq<Step>, maxFrameSize: U32, n': Net)
    requires Refines(n, c, maxFrameSize) && Runs(n, steps, maxFrameSize, n')
    ensures exists c' :: Refines(n', c', maxFrameSize)
    decreases |steps|
  {
    hide Refines, Next, Enabled, Count;
    if steps != [] {
      StepRefines(n, c, steps[0], maxFrameSize);
      CountsEnough(n, c, maxFrameSize);
      RunRefines(Next(n, steps[0], maxFrameSize).value, Count(n, c, steps[0], maxFrameSize),
                 steps[1..], maxFrameSize, n');
    }
  }

  lemma {:induction false} CountsEnough(n: Net, c: Counts, maxFrameSize: U32)
    requires Refines(n, c, maxFrameSize)
    ensures AllWellFormed(n.tx.number, n.queue) && |c.acks| == |n.seqs|
  {
  }

  function StartCounts(n: Net): Counts { if n.seqs == [] then ZERO else ZERO.(acks := [0]) }

  lemma {:induction false} ReachableRefines(n: Net, size: U32, maxFrameSize: U32) returns (c: Counts)
    requires Reachable(n, size, maxFrameSize) && Roomy(size, maxFrameSize)
    ensures Refines(n, c, maxFrameSize)
  {
    var start, steps :| Opening(start) && start.rx.window.size == size && Runs(start, steps, maxFrameSize, n);
    FreshRefines(start.rx.number, size, maxFrameSize);
    RunRefines(start, StartCounts(start), steps, maxFrameSize, n);
    c :| Refines(n, c, maxFrameSize);
  }

  lemma {:induction false} RunsJoin(a: Net, s: seq<Step>, b: Net, t: seq<Step>, c: Net, maxFrameSize: U32)
    requires Runs(a, s, maxFrameSize, b) && Runs(b, t, maxFrameSize, c)
    ensures Runs(a, s + t, maxFrameSize, c)
    decreases |s|
  {
    if s == [] {
      assert s + t == t;
    } else {
      assert (s + t)[0] == s[0] && (s + t)[1..] == s[1..] + t;
      RunsJoin(Next(a, s[0], maxFrameSize).value, s[1..], b, t, c, maxFrameSize);
    }
  }

  lemma {:induction false} ReachableOn(n: Net, size: U32, steps: seq<Step>, n': Net, maxFrameSize: U32)
    requires Reachable(n, size, maxFrameSize) && Runs(n, steps, maxFrameSize, n')
    ensures Reachable(n', size, maxFrameSize)
  {
    var start, before :| Opening(start) && start.rx.window.size == size && Runs(start, before, maxFrameSize, n);
    RunsJoin(start, before, n, steps, n', maxFrameSize);
  }

  // ---- safety: exactly the roomy windows ---------------------------------------------

  /**
   * Flow-control safety, past any number of wraps: with a roomy window, in every reachable state
   * the 32-bit counters are the unbounded octet counts modulo 2^32, and no step that can be taken
   * reports an error; in particular `accept` never sees a wrong sequence number, an octet outside
   * the window or an interleaved fragment.
   */
  lemma {:induction false} FlowControlSafety(n: Net, size: U32, step: Step, maxFrameSize: U32)
    requires Reachable(n, size, maxFrameSize) && Roomy(size, maxFrameSize)
    ensures exists c :: Refines(n, c, maxFrameSize)
    ensures AllWellFormed(n.tx.number, n.queue)
    ensures Enabled(n, step) ==> Next(n, step, maxFrameSize).Ok?
  {
    var c := ReachableRefines(n, size, maxFrameSize);
    if Enabled(n, step) {
      StepRefines(n, c, step, maxFrameSize);
    }
  }

  /** A message that fits window and frame goes out as one frame. */
  lemma {:induction false} SendWhole(n: Net, m: Message, maxFrameSize: U32)
    requires n.queue == [] && WellFormed(n.tx.number, m)
    requires |m.payload| <= n.tx.Writable() && |m.payload| <= ChunkLimit(maxFrameSize)
    ensures
      var f := DataFrame(m.kind, n.tx.number, m.msgno, false, n.tx.next, m.ansno, m.payload);
      && Enabled(n, Send(m))
      && Next(n, Send(m), maxFrameSize)
         == Ok(n.(tx := n.tx.(next := Advance(n.tx.next, |m.payload|)), data := n.data + [f], sent := n.sent + [m]))
  {
    var queue := [] + [m];
    assert queue[0] == m && queue[1..] == [];
    FlushStep(n.tx, queue, maxFrameSize);
    var e := Emit(n.tx, m, maxFrameSize).value;
    FlushIdle(e.tx, [], maxFrameSize);
    if m.payload != [] {
      var k := |m.payload|;
      assert m.payload[..k] == m.payload && m.payload[k..] == [];
      var limit := ChunkLimit(maxFrameSize);
      assert Min(limit, k) == k;
      assert Chunks(n.tx.number, m, Advance(n.tx.next, k), limit, m.payload[k..], false) == [];
      var fs := Chunks(n.tx.number, m, n.tx.next, limit, m.payload, false);
      assert fs == [DataFrame(m.kind, n.tx.number, m.msgno, false, n.tx.next, m.ansno, m.payload)];
    }
    assert e.frames + [] == e.frames && n.queue + [m] == queue;
  }

  function Blank(length: nat): (p: Bytes)
    ensures |p| == length
  {
    seq(length, _ => 0)
  }

  /** Octets just below the threshold, and then a frame the window has no room for. */
  function Teaser(size: U32): Message { Message(Msg, 0, None, Blank(Threshold(size) - 1)) }

  function Overrun(size: U32): Message
    requires size + 2 >= Threshold(size)
  {
    Message(Msg, 1, None, Blank(size + 2 - Threshold(size)))
  }

  /** What the receiver makes of two frames of which the first is not acknowledged and the second does not fit. */
  lemma {:induction false} SecondRefused(n: Net, size: U32, a: DataFrame, b: DataFrame)
    requires n.data == [a, b] && n.rx == Receiver(n.rx.number, Window(0, size), 0, None) && n.unacked == 0
    requires a.seqno == 0 && !a.more && |a.payload| == Threshold(size) - 1 <= size
    requires b.seqno == |a.payload| && |a.payload| + |b.payload| == size + 1 <= INITIAL_WINDOW_SIZE
    ensures
      && Enabled(n, DeliverData) && Receive(n).Ok?
      && var n' := Receive(n).value;
      && n'.queue == n.queue && n'.tx == n.tx
      && Enabled(n', DeliverData) && Receive(n') == Failed(OutsideWindow(b.seqno, |b.payload|, size))
  {
    assert n.data[1..] == [b];
  }

  /**
   * A window that is not roomy can be overrun: a message of one octet less than the threshold is
   * accepted but not acknowledged, and the next message does not fit, although the sender keeps to
   * the initial window.
   */
  lemma {:induction false} TightWindowFails(number: U32, size: U32, maxFrameSize: U32) returns (n: Net)
    requires number <= MAX_CHANNEL_NO && size <= MAX_FRAME_SIZE && !Roomy(size, maxFrameSize)
    ensures Reachable(n, size, maxFrameSize) && AllWellFormed(n.tx.number, n.queue) && Enabled(n, DeliverData)
    ensures Receive(n).Failed? && Receive(n).error.OutsideWindow?
  {
    var n0 := Fresh(number, size);
    var m1, m2 := Teaser(size), Overrun(size);
    SendWhole(n0, m1, maxFrameSize);
    var n1 := Next(n0, Send(m1), maxFrameSize).value;
    SendWhole(n1, m2, maxFrameSize);
    var n2 := Next(n1, Send(m2), maxFrameSize).value;
    SecondRefused(n2, size, n2.data[0], n2.data[1]);
    n := Receive(n2).value;
    var steps := [Send(m1), Send(m2), DeliverData];
    TwoSent(n0, m1, n1, m2, n2, n, maxFrameSize);
    assert Opening(n0) && n0.rx.window.size == size && Runs(n0, steps, maxFrameSize, n);
  }

  lemma {:induction false} TwoSent(n0: Net, m1: Message, n1: Net, m2: Message, n2: Net, n: Net, maxFrameSize: U32)
    requires n0.queue == [] && n1.queue == [] && n2.queue == []
    requires Enabled(n0, Send(m1)) && Next(n0, Send(m1), maxFrameSize) == Ok(n1)
    requires Enabled(n1, Send(m2)) && Next(n1, Send(m2), maxFrameSize) == Ok(n2)
    requires Enabled(n2, DeliverData) && Receive(n2) == Ok(n)
    ensures Runs(n0, [Send(m1), Send(m2), DeliverData], maxFrameSize, n)
  {
    hide Flush, Enabled, Receive;
    var steps := [Send(m1), Send(m2), DeliverData];
    assert steps[1..] == [Send(m2), DeliverData] && steps[1..][1..] == [DeliverData] && steps[1..][1..][1..] == [];
    assert Runs(n2, [DeliverData], maxFrameSize, n);
    assert Runs(n1, [Send(m2), DeliverData], maxFrameSize, n);
  }

  ghost predicate NeverFails(size: U32, maxFrameSize: U32)
  {
    forall n, step :: Reachable(n, size, maxFrameSize) && Enabled(n, step) ==>
      AllWellFormed(n.tx.number, n.queue) && Next(n, step, maxFrameSize).Ok?
  }

  /** No reachable step fails if and only if the window is roomy. */
  lemma {:induction false} SafetyExactly(size: U32, maxFrameSize: U32)
    requires size <= MAX_FRAME_SIZE
    ensures NeverFails(size, maxFrameSize) <==> Roomy(size, maxFrameSize)
  {
    hide Reachable, Enabled, Next, Roomy;
    if Roomy(size, maxFrameSize) {
      forall n, step | Reachable(n, size, maxFrameSize) && Enabled(n, step)
        ensures AllWellFormed(n.tx.number, n.queue) && Next(n, step, maxFrameSize).Ok?
      {
        FlowControlSafety(n, size, step, maxFrameSize);
      }
    } else {
      var n := TightWindowFails(0, size, maxFrameSize);
      DeliverDataNext(n, maxFrameSize);
    }
  }

  lemma {:induction false} DeliverDataNext(n: Net, maxFrameSize: U32)
    requires AllWellFormed(n.tx.number, n.queue) && Enabled(n, DeliverData)
    ensures Next(n, DeliverData, maxFrameSize) == Receive(n)
  {
  }

  /**
   * A window resized while frames are in flight, to whatever size: the next frame is accepted if
   * and only if it fits behind the octets not yet acknowledged.
   */
  lemma {:induction false} ResizedExactly(n: Net, size: U32, maxFrameSize: U32, newSize: U32)
    requires Reachable(n, size, maxFrameSize) && Roomy(size, maxFrameSize) && n.data != []
    ensures |n.data[0].payload| <= MAX_FRAME_SIZE
    ensures Accept(n.rx.(window := n.rx.window.Resized(newSize)), n.data[0]).outcome.Ok?
            <==> n.unacked + |n.data[0].payload| <= newSize
  {
    var c := ReachableRefines(n, size, maxFrameSize);
    AcceptRefines(n, c, maxFrameSize);
    AcceptsRefines(c.recvBase, c.received, newSize, |n.data[0].payload|);
  }

  // ---- liveness: exactly the windows that are not widened too fast -------------------

  /** The window last offered to the sender, applied or still in flight. */
  function LastOffer(n: Net): U32
  {
    if n.seqs == [] then n.tx.window.size else n.seqs[|n.seqs| - 1].window
  }

  /** The sender's last offer is enough to bring the receiver to its threshold. */
  predicate Prompt(n: Net) { Threshold(n.rx.window.size) <= LastOffer(n) }

  /** Every offer is at least the initial window. */
  ghost predicate Wide(n: Net)
  {
    && n.tx.window.size >= INITIAL_WINDOW_SIZE && n.rx.window.size >= INITIAL_WINDOW_SIZE
    && forall i :: 0 <= i < |n.seqs| ==> n.seqs[i].window >= INITIAL_WINDOW_SIZE
  }

  /** A channel opened with at least the initial window stays wide, and a wide one is prompt. */
  lemma {:induction false} WideStep(n: Net, c: Counts, step: Step, maxFrameSize: U32)
    requires Refines(n, c, maxFrameSize) && Enabled(n, step) && Wide(n)
    ensures AllWellFormed(n.tx.number, n.queue) && Next(n, step, maxFrameSize).Ok? && Wide(Next(n, step, maxFrameSize).value)
  {
    StepRefines(n, c, step, maxFrameSize);
    StepOffers(n, c, step, maxFrameSize);
  }

  /** What a step does to the windows on offer. */
  lemma {:induction false} StepOffers(n: Net, c: Counts, step: Step, maxFrameSize: U32)
    requires Refines(n, c, maxFrameSize) && Enabled(n, step)
    ensures AllWellFormed(n.tx.number, n.queue) && Next(n, step, maxFrameSize).Ok?
    ensures
      var n' := Next(n, step, maxFrameSize).value;
      match step
      case Send(_) => n'.tx.window == n.tx.window && n'.seqs == n.seqs && n'.rx == n.rx
      case Grow(size) => n'.tx == n.tx && n'.seqs == n.seqs && n'.rx.window.size == size
      case DeliverSeq => n'.tx.window.size == n.seqs[0].window && n'.seqs == n.seqs[1..] && n'.rx == n.rx
      case DeliverData =>
        && n'.tx == n.tx && n'.rx.window.size == n.rx.window.size
        && (n'.seqs == n.seqs
            || (|n'.seqs| == |n.seqs| + 1 && n'.seqs[..|n.seqs|] == n.seqs && n'.seqs[|n.seqs|].window == n.rx.window.size))
  {
    match step
    case Send(m) => FlushKeeps(n.tx, n.queue + [m], maxFrameSize);
    case Grow(_) =>
    case DeliverSeq => FlushKeeps(ApplySeq(n.tx, n.seqs[0]), n.queue, maxFrameSize);
    case DeliverData => ReceiveIs(n, c, maxFrameSize);
  }

  lemma {:induction false} RunWide(n: Net, c: Counts, steps: seq<Step>, maxFrameSize: U32, n': Net)
    requires Refines(n, c, maxFrameSize) && Runs(n, steps, maxFrameSize, n') && Wide(n)
    ensures Wide(n')
    decreases |steps|
  {
    hide Refines, Next, Enabled, Count, Wide;
    if steps != [] {
      StepRefines(n, c, steps[0], maxFrameSize);
      CountsEnough(n, c, maxFrameSize);
      WideStep(n, c, steps[0], maxFrameSize);
      RunWide(Next(n, steps[0], maxFrameSize).value, Count(n, c, steps[0], maxFrameSize), steps[1..], maxFrameSize, n');
    }
  }

  lemma {:induction false} ReachableWide(n: Net, size: U32, maxFrameSize: U32)
    requires Reachable(n, size, maxFrameSize) && size >= INITIAL_WINDOW_SIZE
    ensures Wide(n) && Prompt(n)
  {
    var start, steps :| Opening(start) && start.rx.window.size == size && Runs(start, steps, maxFrameSize, n);
    FreshRefines(start.rx.number, size, maxFrameSize);
    RunWide(start, StartCounts(start), steps, maxFrameSize, n);
  }

  /** A fresh channel is prompt, and every step keeps it so, as long as the window is not widened past what was offered. */
  lemma {:induction false} PromptKept(n: Net, c: Counts, step: Step, maxFrameSize: U32)
    requires Refines(n, c, maxFrameSize) && Enabled(n, step) && Prompt(n)
    requires step.Grow? ==> Threshold(step.size) <= LastOffer(n)
    ensures AllWellFormed(n.tx.number, n.queue) && Next(n, step, maxFrameSize).Ok? && Prompt(Next(n, step, maxFrameSize).value)
  {
    StepOffers(n, c, step, maxFrameSize);
    ThresholdFits(n.rx.window.size, maxFrameSize);
  }

  lemma {:induction false} ThresholdFits(size: U32, maxFrameSize: U32)
    requires Roomy(size, maxFrameSize)
    ensures Threshold(size) <= size
  {
  }

  lemma {:induction false} OpeningPrompt(n: Net)
    requires Opening(n)
    ensures Prompt(n)
  {
  }

  /**
   * No deadlock: with nothing in flight a prompt channel has room to write, so nothing is queued;
   * opened with at least the initial window it always is prompt, and has more than 2048 octets.
   */
  lemma {:induction false} NoDeadlock(n: Net, size: U32, maxFrameSize: U32)
    requires Reachable(n, size, maxFrameSize) && Roomy(size, maxFrameSize) && n.data == [] && n.seqs == []
    requires size >= INITIAL_WINDOW_SIZE || Prompt(n)
    ensures n.tx.Writable() > 0 && n.queue == []
    ensures size >= INITIAL_WINDOW_SIZE ==> n.tx.Writable() > 2048
  {
    var c := ReachableRefines(n, size, maxFrameSize);
    if size >= INITIAL_WINDOW_SIZE {
      ReachableWide(n, size, maxFrameSize);
    }
    RestWritable(n, c, maxFrameSize);
  }

  lemma {:induction false} RestWritable(n: Net, c: Counts, maxFrameSize: U32)
    requires Refines(n, c, maxFrameSize) && n.data == [] && n.seqs == []
    ensures n.tx.Writable() == if n.unacked < n.tx.window.size then n.tx.window.size - n.unacked else 0
    ensures n.queue != [] ==> n.tx.Writable() == 0
    ensures n.queue == [] ==> n.delivered == n.sent && n.rx.partial == None
  {
    RemainingRefines(c.sendBase, c.sent, n.tx.window.size);
  }

  /** A run of deliveries alone takes no more steps than `Measure` says, whatever the interleaving. */
  lemma {:induction false} DeliveriesBounded(n: Net, c: Counts, steps: seq<Step>, maxFrameSize: U32, n': Net)
    requires Refines(n, c, maxFrameSize) && Runs(n, steps, maxFrameSize, n')
    requires forall i :: 0 <= i < |steps| ==> steps[i].DeliverData? || steps[i].DeliverSeq?
    ensures |steps| + Measure(n') <= Measure(n)
    ensures n'.sent == n.sent && (Prompt(n) ==> Prompt(n'))
    decreases |steps|
  {
    hide Refines, Count, Prompt, Measure;
    if steps != [] {
      StepRefines(n, c, steps[0], maxFrameSize);
      CountsEnough(n, c, maxFrameSize);
      if Prompt(n) {
        PromptKept(n, c, steps[0], maxFrameSize);
      }
      DeliveriesBounded(Next(n, steps[0], maxFrameSize).value, Count(n, c, steps[0], maxFrameSize),
                        steps[1..], maxFrameSize, n');
    }
  }

  /**
   * Delivery with termination. From any reachable state, deliveries in any interleaving stop
   * after at most `Measure` steps; while anything is in flight the next one succeeds; and when
   * nothing is, the queue is empty and the receiver has exactly the messages sent, in order.
   */
  lemma {:induction false} Delivery(n: Net, size: U32, steps: seq<Step>, n': Net, maxFrameSize: U32)
    requires Reachable(n, size, maxFrameSize) && Roomy(size, maxFrameSize) && Runs(n, steps, maxFrameSize, n')
    requires size >= INITIAL_WINDOW_SIZE || Prompt(n)
    requires forall i :: 0 <= i < |steps| ==> steps[i].DeliverData? || steps[i].DeliverSeq?
    ensures |steps| <= Measure(n)
    ensures n'.data != [] ==> Enabled(n', DeliverData) && Receive(n').Ok?
    ensures n'.data == [] && n'.seqs == [] ==> n'.queue == [] && n'.delivered == n.sent && n'.rx.partial == None
  {
    var c := ReachableRefines(n, size, maxFrameSize);
    DeliveriesBounded(n, c, steps, maxFrameSize, n');
    ReachableOn(n, size, steps, n', maxFrameSize);
    var c' := ReachableRefines(n', size, maxFrameSize);
    if n'.data != [] {
      StepRefines(n', c', DeliverData, maxFrameSize);
    } else if n'.seqs == [] {
      NoDeadlock(n', size, maxFrameSize);
      RestWritable(n', c', maxFrameSize);
    }
  }

  /** Everything in flight is data that will not bring the receiver to its threshold, and more is queued behind it. */
  ghost predicate Doomed(n: Net, c: Counts)
  {
    n.queue != [] && n.seqs == [] && c.sent < c.recvBase + Threshold(n.rx.window.size)
  }

  lemma {:induction false} DoomedRuns(n: Net, c: Counts, maxFrameSize: U32) returns (steps: seq<Step>, n': Net)
    requires Refines(n, c, maxFrameSize) && Doomed(n, c)
    ensures Runs(n, steps, maxFrameSize, n') && n'.data == [] && n'.seqs == [] && n'.queue != []
    ensures forall i :: 0 <= i < |steps| ==> steps[i] == DeliverData
    decreases |n.data|
  {
    if n.data == [] {
      steps, n' := [], n;
    } else {
      StepRefines(n, c, DeliverData, maxFrameSize);
      ReceiveIs(n, c, maxFrameSize);
      var next := Receive(n).value;
      var rest;
      rest, n' := DoomedRuns(next, Count(n, c, DeliverData, maxFrameSize), maxFrameSize);
      steps := [DeliverData] + rest;
      assert steps[1..] == rest;
    }
  }

  /**
   * Why promptness: at rest, a channel that is not prompt comes to a stop. A message that does not
   * fit what was offered is cut, everything in flight arrives, and no acknowledgement will ever
   * reopen the window. With `Delivery`, a channel at rest delivers every message it is given if
   * and only if it is prompt.
   */
  lemma {:induction false} NotPromptDeadlocks(n: Net, size: U32, maxFrameSize: U32, m: Message) returns (steps: seq<Step>, n': Net)
    requires Reachable(n, size, maxFrameSize) && Roomy(size, maxFrameSize) && n.data == [] && n.seqs == [] && n.queue == []
    requires !Prompt(n) && WellFormed(n.tx.number, m) && |m.payload| > n.tx.Writable()
    ensures Runs(n, steps, maxFrameSize, n') && n'.data == [] && n'.seqs == [] && n'.queue != []
    ensures steps != [] && steps[0] == Send(m) && forall i :: 1 <= i < |steps| ==> steps[i] == DeliverData
  {
    var c := ReachableRefines(n, size, maxFrameSize);
    StepRefines(n, c, Send(m), maxFrameSize);
    var next, c' := Next(n, Send(m), maxFrameSize).value, Count(n, c, Send(m), maxFrameSize);
    SendStops(n, c, m, maxFrameSize);
    var rest;
    rest, n' := DoomedRuns(next, c', maxFrameSize);
    steps := [Send(m)] + rest;
    assert steps[1..] == rest;
  }

  lemma {:induction false} SendStops(n: Net, c: Counts, m: Message, maxFrameSize: U32)
    requires Refines(n, c, maxFrameSize) && n.data == [] && n.seqs == [] && n.queue == []
    requires !Prompt(n) && WellFormed(n.tx.number, m) && |m.payload| > n.tx.Writable()
    ensures Doomed(Next(n, Send(m), maxFrameSize).value, Count(n, c, Send(m), maxFrameSize))
  {
    var queue := n.queue + [m];
    assert queue == [m] && queue[1..] == [];
    RestWritable(n, c, maxFrameSize);
    if n.tx.Writable() == 0 {
      FlushIdle(n.tx, queue, maxFrameSize);
    } else {
      FlushStep(n.tx, queue, maxFrameSize);
      EmitFlow(n.tx, m, maxFrameSize, c.sent, c.sendBase);
      var e := Emit(n.tx, m, maxFrameSize).value;
      FlushIdle(e.tx, Behind(queue, e.remaining), maxFrameSize);
      assert e.frames + [] == e.frames;
    }
  }

  ghost predicate NoGrowth(steps: seq<Step>) { forall i :: 0 <= i < |steps| ==> !steps[i].Grow? }

  /** Whatever is sent from here on, the channel comes to rest only with an empty queue. */
  ghost predicate NeverStops(n: Net, maxFrameSize: U32)
  {
    forall steps, n' :: Runs(n, steps, maxFrameSize, n') && NoGrowth(steps) && n'.data == [] && n'.seqs == [] ==> n'.queue == []
  }

  lemma {:induction false} RunPrompt(n: Net, c: Counts, steps: seq<Step>, maxFrameSize: U32, n': Net)
    requires Refines(n, c, maxFrameSize) && Runs(n, steps, maxFrameSize, n') && NoGrowth(steps) && Prompt(n)
    ensures Prompt(n')
    decreases |steps|
  {
    hide Refines, Next, Enabled, Count, Prompt;
    if steps != [] {
      StepRefines(n, c, steps[0], maxFrameSize);
      CountsEnough(n, c, maxFrameSize);
      PromptKept(n, c, steps[0], maxFrameSize);
      RunPrompt(Next(n, steps[0], maxFrameSize).value, Count(n, c, steps[0], maxFrameSize), steps[1..], maxFrameSize, n');
    }
  }

  /** A channel at rest never stops short if and only if it is prompt. */
  lemma {:induction false} LivenessExactly(n: Net, size: U32, maxFrameSize: U32)
    requires Reachable(n, size, maxFrameSize) && Roomy(size, maxFrameSize) && n.data == [] && n.seqs == []
    ensures NeverStops(n, maxFrameSize) <==> Prompt(n)
  {
    hide Reachable, Prompt, Roomy, Refines;
    var c := ReachableRefines(n, size, maxFrameSize);
    if Prompt(n) {
      forall steps, n' | Runs(n, steps, maxFrameSize, n') && NoGrowth(steps) && n'.data == [] && n'.seqs == []
        ensures n'.queue == []
      {
        RunPrompt(n, c, steps, maxFrameSize, n');
        ReachableOn(n, size, steps, n', maxFrameSize);
        NoDeadlock(n', size, maxFrameSize);
      }
    } else if n.queue != [] {
      assert Runs(n, [], maxFrameSize, n);
    } else {
      NumberInRange(n, c, maxFrameSize);
      var steps, n' := NotPromptDeadlocks(n, size, maxFrameSize, Message(Msg, 0, None, Blank(n.tx.Writable() + 1)));
      assert NoGrowth(steps);
    }
  }

  lemma {:induction false} NumberInRange(n: Net, c: Counts, maxFrameSize: U32)
    requires Refines(n, c, maxFrameSize)
    ensures n.tx.number <= MAX_CHANNEL_NO
  {
  }

  // ---- one message through `emit` ----------------------------------------------------

  lemma {:induction false} LoadNone()
    ensures Load([]) == 0
  {
  }

  lemma {:induction false} LoadAppend(a: seq<DataFrame>, b: seq<DataFrame>)
    ensures Load(a + b) == Load(a) + Load(b)
  {
    if a == [] {
      assert a + b == b;
    } else {
      assert (a + b)[0] == a[0] && (a + b)[1..] == a[1..] + b;
      LoadAppend(a[1..], b);
    }
  }

  lemma {:induction false} ContiguousAppend(a: seq<DataFrame>, b: seq<DataFrame>, lo: nat)
    requires Contiguous(a, lo) && Contiguous(b, lo + Load(a))
    ensures Contiguous(a + b, lo)
  {
    if a == [] {
      assert a + b == b;
    } else {
      assert (a + b)[0] == a[0] && (a + b)[1..] == a[1..] + b;
      ContiguousAppend(a[1..], b, lo + |a[0].payload|);
    }
  }

  /** The pieces of a message number its octets without gaps, and there are no more pieces than octets. */
  lemma {:induction false} ChunksContiguous(number: U32, m: Message, lo: nat, limit: U32, body: Bytes, behind: bool)
    requires 1 <= limit <= MAX_FRAME_SIZE
    ensures
      var fs := Chunks(number, m, Wrap(lo), limit, body, behind);
      Contiguous(fs, lo) && Load(fs) == |body| && |fs| <= |body|
    decreases |body|
  {
    if body != [] {
      var take := Min(limit, |body|);
      AdvanceRefines(lo, take);
      ChunksContiguous(number, m, lo + take, limit, body[take..], behind);
    }
  }

  /** What the receiver makes of the pieces: the whole body, added to what it already had. */
  lemma {:induction false} ChunksReassemble(
    number: U32, m: Message, seqno: U32, limit: U32, body: Bytes, behind: bool,
    partial: Option<Message>, fs: seq<DataFrame>, queue: seq<Message>)
    requires limit >= 1 && body != []
    requires partial.Some? ==> partial.value.(payload := m.payload) == m
    ensures
      var joined := m.(payload := (if partial.Some? then partial.value.payload else []) + body);
      var got := ToCome(partial, Chunks(number, m, seqno, limit, body, behind) + fs, queue);
      if behind then got == ToCome(Some(joined), fs, queue)
      else
        var rest := ToCome(None, fs, queue);
        got == if rest.None? then None else Some([joined] + rest.value)
    decreases |body|
  {
    var take := Min(limit, |body|);
    var all := Chunks(number, m, seqno, limit, body, behind);
    var tail := Chunks(number, m, Advance(seqno, take), limit, body[take..], behind);
    var soFar := Joined(partial, all[0]);
    assert (all + fs)[0] == all[0] && (all + fs)[1..] == tail + fs;
    if take < |body| {
      ChunksReassemble(number, m, Advance(seqno, take), limit, body[take..], behind, Some(soFar), fs, queue);
      assert soFar.payload + body[take..] == (if partial.Some? then partial.value.payload else []) + body;
    } else {
      assert body[..take] == body;
      assert tail + fs == fs;
    }
  }

  // ---- a whole queue through `flush` -------------------------------------------------

  /** Queued octets and queued messages: what flushing can still turn into frames. */
  function Work(queue: seq<Message>): nat
  {
    if queue == [] then 0 else |queue[0].payload| + 1 + Work(queue[1..])
  }

  /** `emit` on unbounded counters: it stays inside the window, and holds something back only when the window is full. */
  lemma {:induction false} EmitFlow(tx: Sender, m: Message, maxFrameSize: U32, sent: nat, base: nat)
    requires WellFormed(tx.number, m) && (m.payload == [] || tx.Writable() != 0)
    requires At(tx, sent, base)
    ensures
      var r := Emit(tx, m, maxFrameSize);
      && r.Ok?
      && var e := r.value; var hi := sent + Load(e.frames);
      && Load(e.frames) + |e.remaining| == |m.payload|
      && e.tx == tx.(next := Wrap(hi)) && At(e.tx, hi, base)
      && Contiguous(e.frames, sent)
      && (e.remaining != [] ==> hi >= base + tx.window.size)
      && |e.frames| + |e.remaining| <= |m.payload| + (if m.payload == [] then 1 else 0)
  {
    RemainingRefines(base, sent, tx.window.size);
    if m.payload != [] {
      var cut := Min(tx.Writable(), |m.payload|);
      AdvanceRefines(sent, cut);
      ChunksContiguous(tx.number, m, sent, ChunkLimit(maxFrameSize), m.payload[..cut], m.payload[cut..] != []);
    } else {
      var e := Emit(tx, m, maxFrameSize).value;
      assert e.frames[1..] == [];
    }
  }

  /** What `flush` leaves behind: the window respected, and used up if anything is still queued. */
  ghost predicate Written(r: Flushed, sent: nat, base: nat)
  {
    var hi := sent + Load(r.frames);
    At(r.tx, hi, base) && (r.queue != [] ==> hi >= base + r.tx.window.size)
  }

  lemma {:induction false} WrittenAfter(fs: seq<DataFrame>, r: Flushed, sent: nat, base: nat)
    requires Written(r, sent + Load(fs), base)
    ensures Written(r.(frames := fs + r.frames), sent, base)
  {
    LoadAppend(fs, r.frames);
  }

  /** `flush` never writes past the window, and leaves something queued only when the window is full. */
  lemma {:induction false} FlushFlow(tx: Sender, queue: seq<Message>, maxFrameSize: U32, sent: nat, base: nat)
    requires AllWellFormed(tx.number, queue) && At(tx, sent, base)
    ensures Written(Flush(tx, queue, maxFrameSize), sent, base)
    decreases |queue|
  {
    hide Emit, Contiguous, Wrap, Load;
    if queue == [] {
      LoadNone();
    } else if tx.Writable() == 0 && queue[0].payload != [] {
      LoadNone();
      RemainingRefines(base, sent, tx.window.size);
    } else {
      assert WellFormed(tx.number, queue[0]);
      EmitFlow(tx, queue[0], maxFrameSize, sent, base);
      var e := Emit(tx, queue[0], maxFrameSize).value;
      if e.remaining == [] {
        FlushFlow(e.tx, queue[1..], maxFrameSize, sent + Load(e.frames), base);
        WrittenAfter(e.frames, Flush(e.tx, queue[1..], maxFrameSize), sent, base);
      }
    }
  }

  lemma {:induction false} FlushShort(tx: Sender, queue: seq<Message>, maxFrameSize: U32)
    requires AllWellFormed(tx.number, queue)
    ensures Short(Flush(tx, queue, maxFrameSize).frames, ChunkLimit(maxFrameSize))
  {
    FlushCut(tx, queue, maxFrameSize);
  }

  /** The frames `flush` writes continue the octet count without a gap. */
  lemma {:induction false} FlushContiguous(tx: Sender, queue: seq<Message>, maxFrameSize: U32, sent: nat, base: nat)
    requires AllWellFormed(tx.number, queue) && At(tx, sent, base)
    ensures Contiguous(Flush(tx, queue, maxFrameSize).frames, sent)
    decreases |queue|
  {
    hide Emit;
    if queue == [] || (tx.Writable() == 0 && queue[0].payload != []) {
    } else {
      assert WellFormed(tx.number, queue[0]);
      EmitFlow(tx, queue[0], maxFrameSize, sent, base);
      var e := Emit(tx, queue[0], maxFrameSize).value;
      if e.remaining == [] {
        FlushContiguous(e.tx, queue[1..], maxFrameSize, sent + Load(e.frames), base);
        ContiguousAppend(e.frames, Flush(e.tx, queue[1..], maxFrameSize).frames, sent);
      }
    }
  }

  /** Every frame `flush` produces costs at least one unit of the work that was queued. */
  lemma {:induction false} FlushWork(tx: Sender, queue: seq<Message>, maxFrameSize: U32, sent: nat, base: nat)
    requires AllWellFormed(tx.number, queue)
    requires At(tx, sent, base)
    ensures var r := Flush(tx, queue, maxFrameSize); Work(r.queue) + |r.frames| <= Work(queue)
    decreases |queue|
  {
    hide Emit;
    if queue == [] || (tx.Writable() == 0 && queue[0].payload != []) {
    } else {
      assert WellFormed(tx.number, queue[0]);
      EmitFlow(tx, queue[0], maxFrameSize, sent, base);
      var e := Emit(tx, queue[0], maxFrameSize).value;
      if e.remaining == [] {
        FlushWork(e.tx, queue[1..], maxFrameSize, sent + Load(e.frames), base);
      } else {
        assert ([queue[0].(payload := e.remaining)] + queue[1..])[1..] == queue[1..];
      }
    }
  }

  /** One message through `emit`, seen by the receiver: the message itself, in front of what follows. */
  lemma {:induction false} EmitContent(
    tx: Sender, m: Message, maxFrameSize: U32, partial: Option<Message>, fs: seq<DataFrame>, queue: seq<Message>)
    requires WellFormed(tx.number, m) && (m.payload == [] || tx.Writable() != 0)
    requires partial.Some? ==> m.payload != [] && partial.value.(payload := m.payload) == m
    ensures
      var e := Emit(tx, m, maxFrameSize).value;
      var whole := m.(payload := (if partial.Some? then partial.value.payload else []) + m.payload);
      if e.remaining == [] then
        var rest := ToCome(None, fs, queue);
        ToCome(partial, e.frames + fs, queue) == if rest.None? then None else Some([whole] + rest.value)
      else
        ToCome(partial, e.frames, [m.(payload := e.remaining)] + queue) == Some([whole] + queue)
  {
    var e := Emit(tx, m, maxFrameSize).value;
    var cut := |m.payload| - |e.remaining|;
    var limit := ChunkLimit(maxFrameSize);
    if m.payload == [] {
      assert (e.frames + fs)[0] == e.frames[0] && (e.frames + fs)[1..] == fs;
    } else if e.remaining == [] {
      assert m.payload[..cut] == m.payload;
      ChunksReassemble(tx.number, m, tx.next, limit, m.payload, false, partial, fs, queue);
    } else {
      var left := [m.(payload := e.remaining)] + queue;
      ChunksReassemble(tx.number, m, tx.next, limit, m.payload[..cut], true, partial, [], left);
      var had := if partial.Some? then partial.value.payload else [];
      assert e.frames + [] == e.frames && left[1..] == queue;
      assert (had + m.payload[..cut]) + e.remaining == had + m.payload;
    }
  }

  /** `flush` only moves octets from the queue onto the wire: what is to come stays the same. */
  lemma {:induction false} FlushContent(tx: Sender, queue: seq<Message>, maxFrameSize: U32, partial: Option<Message>)
    requires AllWellFormed(tx.number, queue)
    requires ToCome(partial, [], queue).Some?
    ensures
      var r := Flush(tx, queue, maxFrameSize);
      ToCome(partial, r.frames, r.queue) == ToCome(partial, [], queue)
    decreases |queue|
  {
    if queue == [] || (tx.Writable() == 0 && queue[0].payload != []) {
    } else {
      assert WellFormed(tx.number, queue[0]);
      assert queue == [queue[0]] + queue[1..];
      assert [] + queue[0].payload == queue[0].payload;
      var e := Emit(tx, queue[0], maxFrameSize).value;
      if e.remaining != [] {
        EmitContent(tx, queue[0], maxFrameSize, partial, [], queue[1..]);
      } else {
        var r := Flush(e.tx, queue[1..], maxFrameSize);
        FlushContent(e.tx, queue[1..], maxFrameSize, None);
        EmitContent(tx, queue[0], maxFrameSize, partial, r.frames, r.queue);
      }
    }
  }

  /** The same behind frames already in flight. */
  lemma {:induction false} FlushContentBehind(
    tx: Sender, queue: seq<Message>, maxFrameSize: U32, partial: Option<Message>, fs: seq<DataFrame>)
    requires AllWellFormed(tx.number, queue)
    requires ToCome(partial, fs, queue).Some?
    ensures
      var r := Flush(tx, queue, maxFrameSize);
      ToCome(partial, fs + r.frames, r.queue) == ToCome(partial, fs, queue)
    decreases |fs|
  {
    var r := Flush(tx, queue, maxFrameSize);
    if fs == [] {
      assert fs + r.frames == r.frames;
      FlushContent(tx, queue, maxFrameSize, partial);
    } else {
      assert (fs + r.frames)[0] == fs[0] && (fs + r.frames)[1..] == fs[1..] + r.frames;
      FlushContentBehind(tx, queue, maxFrameSize, if fs[0].more then Some(Joined(partial, fs[0])) else None, fs[1..]);
    }
  }

  /** A message queued last comes out last. */
  lemma {:induction false} QueuedLast(partial: Option<Message>, fs: seq<DataFrame>, queue: seq<Message>, m: Message)
    requires ToCome(partial, fs, queue).Some?
    ensures ToCome(partial, fs, queue + [m]) == Some(ToCome(partial, fs, queue).value + [m])
    decreases |fs|
  {
    if fs == [] {
      if partial.Some? {
        var first := queue[0].(payload := partial.value.payload + queue[0].payload);
        assert (queue + [m])[1..] == queue[1..] + [m];
        assert [first] + (queue[1..] + [m]) == ([first] + queue[1..]) + [m];
      }
    } else {
      QueuedLast(if fs[0].more then Some(Joined(partial, fs[0])) else None, fs[1..], queue, m);
      if !fs[0].more {
        var rest := ToCome(None, fs[1..], queue).value;
        assert [Joined(partial, fs[0])] + (rest + [m]) == ([Joined(partial, fs[0])] + rest) + [m];
      }
    }
  }

  // ---- windows on offer --------------------------------------------------------------

  /** The sender's right edge never passes the receiver's. */
  lemma {:induction false} RightEdge(base: nat, size: U32, acks: seq<nat>, seqs: seq<SeqFrame>, lastBase: nat, lastSize: U32)
    requires |acks| == |seqs| && Widening(base, size, acks, seqs, lastBase, lastSize)
    ensures base <= lastBase && size <= Reach(lastSize)
    decreases |acks|
  {
    if acks != [] {
      RightEdge(acks[0], seqs[0].window, acks[1..], seqs[1..], lastBase, lastSize);
    }
  }

  lemma {:induction false} WideningGrow(
    base: nat, size: U32, acks: seq<nat>, seqs: seq<SeqFrame>, lastBase: nat, lastSize: U32, newSize: U32)
    requires |acks| == |seqs| && Widening(base, size, acks, seqs, lastBase, lastSize) && lastSize <= newSize
    ensures Widening(base, size, acks, seqs, lastBase, newSize)
    decreases |acks|
  {
    if acks != [] {
      WideningGrow(acks[0], seqs[0].window, acks[1..], seqs[1..], lastBase, lastSize, newSize);
    }
  }

  lemma {:induction false} WideningSnoc(
    base: nat, size: U32, acks: seq<nat>, seqs: seq<SeqFrame>, lastBase: nat, lastSize: U32, ack: nat, s: SeqFrame)
    requires |acks| == |seqs| && Widening(base, size, acks, seqs, lastBase, lastSize)
    requires lastBase <= ack && s.ackno == Wrap(ack) && s.window == lastSize <= MAX_FRAME_SIZE
    ensures Widening(base, size, acks + [ack], seqs + [s], ack, lastSize)
    decreases |acks|
  {
    if acks == [] {
      assert (acks + [ack])[1..] == [] && (seqs + [s])[1..] == [];
    } else {
      assert (acks + [ack])[1..] == acks[1..] + [ack] && (seqs + [s])[1..] == seqs[1..] + [s];
      WideningSnoc(acks[0], seqs[0].window, acks[1..], seqs[1..], lastBase, lastSize, ack, s);
    }
  }
}
