/**
 * Sequence numbers modulo 2^32 and the sliding window over them, together with the
 * statements that tie each modular operation to the unbounded octet count it stands for.
 */
module Window {
  import opened Octets

  const INITIAL_WINDOW_SIZE: U32 := 4096

  /** The 32-bit counter that represents an unbounded octet count: its remainder modulo 2^32. */
  function Wrap(count: nat): (s: U32)
  {
    if count < MODULUS then count else Wrap(count - MODULUS)
  }

  /** `SeqNo::advance`: wrapping addition. */
  function Advance(s: U32, octets: U32): U32
  {
    var sum := s + octets;
    if sum < MODULUS then sum else sum - MODULUS
  }

  /** `SeqNo::distance_from`: wrapping subtraction. */
  function Distance(s: U32, base: U32): U32
  {
    if s >= base then s - base else s - base + MODULUS
  }

  datatype Window = Window(base: U32, size: U32) {
    function Limit(): U32 { Advance(base, size) }

    /** Whether `len` octets starting at `seqno` fall entirely inside the window. */
    predicate Accepts(seqno: U32, len: U32)
    {
      Distance(seqno, base) + len <= size
    }

    /** Octets that may still be written when `next` is the next to go out. */
    function Remaining(next: U32): U32
    {
      var used := Distance(next, base);
      if used < size then size - used else 0
    }

    function Updated(ackno: U32, newSize: U32): Window { Window(ackno, newSize) }

    function Consumed(octets: U32): Window { Window(Advance(base, octets), size) }

    function Resized(newSize: U32): Window { Window(base, newSize) }
  }

  // ---- modular counters stand for unbounded ones -----------------------------------

  lemma {:induction false} WrapIsRemainder(count: nat)
    ensures Wrap(count) == count % 0x1_0000_0000
  {
    if count >= MODULUS {
      WrapIsRemainder(count - MODULUS);
    }
  }

  /** Advancing a wrapped count is wrapping the advanced count. */
  lemma {:induction false} AdvanceRefines(count: nat, octets: U32)
    ensures Advance(Wrap(count), octets) == Wrap(count + octets)
  {
    if count >= MODULUS {
      AdvanceRefines(count - MODULUS, octets);
    }
  }

  /** The distance between two wrapped counts is the true difference while it fits 32 bits. */
  lemma {:induction false} DistanceRefines(base: nat, count: nat)
    requires base <= count < base + MODULUS
    ensures Distance(Wrap(count), Wrap(base)) == count - base
  {
    AdvanceRefines(base, count - base);
  }

  /** `accepts` decides the question on unbounded counts, wherever the wrap falls. */
  lemma {:induction false} AcceptsRefines(base: nat, seqno: nat, size: U32, len: U32)
    requires base <= seqno < base + MODULUS
    ensures Window(Wrap(base), size).Accepts(Wrap(seqno), len) <==> seqno + len <= base + size
  {
    DistanceRefines(base, seqno);
  }

  /** `remaining` is the room left up to the right edge, measured on unbounded counts; none once the edge is passed. */
  lemma {:induction false} RemainingRefines(base: nat, next: nat, size: U32)
    requires base <= next < base + MODULUS
    ensures Window(Wrap(base), size).Remaining(Wrap(next)) == if next < base + size then base + size - next else 0
  {
    DistanceRefines(base, next);
  }
}
