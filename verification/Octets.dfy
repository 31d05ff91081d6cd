/** Machine words, octets and the little shared vocabulary of the model. */
module Octets {
  const MODULUS: int := 0x1_0000_0000

  type Octet = x: int | 0 <= x < 256

  /** A 32-bit unsigned counter. */
  type U32 = x: int | 0 <= x < 0x1_0000_0000

  type Bytes = seq<Octet>

  datatype Option<+T> = None | Some(value: T)

  datatype Result<+T, +E> = Ok(value: T) | Failed(error: E)

  function Min(a: int, b: int): (m: int)
    ensures m <= a && m <= b && (m == a || m == b)
  {
    if a < b then a else b
  }

  function Power10(k: nat): nat { if k == 0 then 1 else 10 * Power10(k - 1) }

  /** Concatenation of a list of octet strings, in order. */
  function Flatten(parts: seq<Bytes>): Bytes
  {
    if parts == [] then [] else parts[0] + Flatten(parts[1..])
  }

  lemma {:induction false} FlattenAppend(a: seq<Bytes>, b: seq<Bytes>)
    ensures Flatten(a + b) == Flatten(a) + Flatten(b)
  {
    if a == [] {
      assert a + b == b;
    } else {
      assert (a + b)[0] == a[0] && (a + b)[1..] == a[1..] + b;
      FlattenAppend(a[1..], b);
    }
  }

  lemma {:induction false} Associate<T>(a: seq<T>, b: seq<T>, c: seq<T>)
    ensures (a + b) + c == a + (b + c)
  {
  }

  lemma {:induction false} FlattenFront(first: Bytes, parts: seq<Bytes>, tail: Bytes)
    ensures Flatten([first] + parts) + tail == first + (Flatten(parts) + tail)
  {
    assert ([first] + parts)[1..] == parts;
    Associate(first, Flatten(parts), tail);
  }
}
