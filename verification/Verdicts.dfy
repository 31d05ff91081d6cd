/**
 * What one end makes of single frames and requests, whatever its peer or its application does:
 * each verdict of `Flow` and `Replies` said over again in plain numbers, errors included.
 */
module Verdicts {
  import opened Octets
  import opened Window
  import opened Frames
  import opened Flow
  import opened Replies

  /** What arrives may only continue the message that is being reassembled. */
  predicate Continues(partial: Option<Message>, f: DataFrame)
  {
    partial.None? || (partial.value.kind == f.kind && partial.value.msgno == f.msgno && partial.value.ansno == f.ansno)
  }

  function Earlier(partial: Option<Message>): Bytes { if partial.Some? then partial.value.payload else [] }

  /**
   * A receiver that has accepted `count` octets and offers `size` from octet `base` on. It takes a
   * frame if and only if it carries the next octet, ends within the offer and continues the
   * message begun; it names the first of these that fails.
   */
  lemma {:induction false} AcceptExactly(rx: Receiver, f: DataFrame, base: nat, count: nat)
    requires rx.window.base == Wrap(base) && rx.expected == Wrap(count) && base <= count < base + 0x1_0000_0000
    requires |f.payload| <= 2_147_483_647
    ensures
      var (len, size) := (|f.payload|, rx.window.size);
      var r := Accept(rx, f);
      if f.seqno != count % 0x1_0000_0000 then r == Accepted(rx, Failed(UnexpectedSeqNo(f.seqno, count % 0x1_0000_0000)))
      else if count + len > base + size then r == Accepted(rx, Failed(OutsideWindow(f.seqno, len, (base + size) % 0x1_0000_0000)))
      else
        && r.rx.number == rx.number && r.rx.window == rx.window && r.rx.expected == (count + len) % 0x1_0000_0000
        && if !Continues(rx.partial, f) then r.outcome == Failed(InterleavedFragment) && r.rx.partial == None
           else
             var m := Message(f.kind, f.msgno, f.ansno, Earlier(rx.partial) + f.payload);
             if f.more then r.outcome == Ok(None) && r.rx.partial == Some(m) else r.outcome == Ok(Some(m)) && r.rx.partial == None
  {
    hide Wrap;
    WrapIsRemainder(count);
    WrapIsRemainder(count + |f.payload|);
    WrapIsRemainder(base + rx.window.size);
    AdvanceRefines(count, |f.payload|);
    AdvanceRefines(base, rx.window.size);
    AcceptsRefines(base, count, rx.window.size, |f.payload|);
  }

  /**
   * A SEQ is sent as soon as the octets not yet acknowledged, counted up to 2^32 - 1, are half of
   * the window offered or 2048 of them, and not before; it moves the window past exactly these.
   */
  lemma {:induction false} AcknowledgeExactly(rx: Receiver, unacked: U32, octets: U32, base: nat)
    requires rx.window.base == Wrap(base)
    ensures
      var (k, size) := (Acknowledge(rx, unacked, octets), rx.window.size);
      var due := if unacked + octets < 0x1_0000_0000 then unacked + octets else 0xffff_ffff;
      var moved := rx.(window := Window((base + due) % 0x1_0000_0000, size));
      if due == 0 || (due < size / 2 && due < 2048) then k == Acknowledged(rx, due, Ok(None))
      else if rx.number > 2_147_483_647 then k == Acknowledged(moved, due, Failed(ValueOutOfRange(Field.Channel)))
      else if size > 2_147_483_647 then k == Acknowledged(moved, due, Failed(ValueOutOfRange(WindowSize)))
      else k == Acknowledged(moved, 0, Ok(Some(SeqFrame(rx.number, (base + due) % 0x1_0000_0000, size))))
  {
    hide Wrap;
    var due := Min(unacked + octets, MAX_SEQ_NO);
    WrapIsRemainder(base + due);
    AdvanceRefines(base, due);
  }

  /** Why a message cannot be written: the first reason that applies, or none. */
  lemma {:induction false} EmitFails(tx: Sender, m: Message, maxFrameSize: U32)
    ensures
      var r := Emit(tx, m, maxFrameSize);
      if m.kind.Ans? != m.ansno.Some? then r == Failed(MissingField(AnsNo))
      else if m.payload != [] && tx.Writable() == 0 then r == Failed(ChannelStalled)
      else if tx.number > 2_147_483_647 then r == Failed(ValueOutOfRange(Field.Channel))
      else if m.msgno > 2_147_483_647 then r == Failed(ValueOutOfRange(MsgNo))
      else if m.ansno.Some? && m.ansno.value > 2_147_483_647 then r == Failed(ValueOutOfRange(AnsNo))
      else r.Ok?
  {
  }

  /** An end that has recorded no message to answer writes every reply at once and holds nothing back. */
  lemma {:induction false} UnrecordedPass(b: Buffer, q: Request)
    requires b.order == [] && q.kind != Msg
    ensures Submit(b, q).1 == [Numbered(b.nextAnsno, q)] && Submit(b, q).0.held == b.held && Submit(b, q).0.order == []
  {
    ReleaseNone([], b.held);
    assert [Numbered(b.nextAnsno, q)] + [] == [Numbered(b.nextAnsno, q)];
  }

  /** Otherwise a reply goes out now exactly when it answers the message whose turn it is. */
  lemma {:induction false} TurnsDecide(b: Buffer, q: Request)
    requires b.order != [] && q.kind != Msg
    ensures q.msgno != b.order[0] ==> Submit(b, q).1 == [] && Submit(b, q).0.order == b.order
    ensures q.msgno == b.order[0] ==> Submit(b, q).1 != [] && Submit(b, q).1[0] == Numbered(b.nextAnsno, q)
    ensures q.msgno == b.order[0] && q.kind == Ans ==> Submit(b, q).1 == [Numbered(b.nextAnsno, q)] && Submit(b, q).0.order == b.order
  {
  }
}
