/** Values shared by the medium and the MAC layer: the optional, result and
    outcome wrappers, the loosely typed field values of a raw message, the
    packet that the MAC layer queues and the medium carries, and Python's
    `list.remove`, which both use. */
module Packets {

  datatype Option<T> = None | Some(value: T)

  datatype Result<T, E> = Ok(value: T) | Err(error: E)

  /** The result of an operation that returns nothing but may raise. */
  datatype Outcome<E> = Pass | Fail(error: E)

  /** A field value of a message dictionary. The application may put any of
      these under any key; validation decides which shapes are acceptable. */
  datatype Dyn = NoneValue | IntValue(i: int) | StrValue(s: string) | ListValue(items: seq<Dyn>)

  datatype Mode = Broadcast | Multicast | Unicast

  /** A packet that passed validation, or an ACK built by the MAC layer.
      The receiver list keeps whatever values the application put in it. */
  datatype Packet = Packet(sender: string, receivers: seq<Dyn>, mode: Mode, payload: string)

  /** The reserved payload that marks an acknowledgement. */
  const AckPayload: string := "ACK"

  predicate IsAck(p: Packet) {
    p.payload == AckPayload
  }

  /** The index of the first element of `s` equal to `x`. */
  function FirstIndex<T(==)>(s: seq<T>, x: T): (i: nat)
    requires x in s
    ensures i < |s| && s[i] == x && x !in s[..i]
  {
    if s[0] == x then 0
    else
      var j := FirstIndex(s[1..], x);
      assert s[..j + 1] == [s[0]] + s[1..][..j];
      j + 1
  }

  /** Python's `list.remove`: the first element equal to `x` leaves, and the
      others keep their order. Python raises when `x` is absent; every
      caller here has checked membership, and the absent case is the
      identity. */
  function RemoveFirst<T(==)>(s: seq<T>, x: T): (r: seq<T>)
    ensures x !in s ==> r == s
    ensures x in s ==> |r| == |s| - 1 && multiset(r) == multiset(s) - multiset{x}
    ensures forall q :: q in r ==> q in s
    ensures forall q :: q in s && q != x ==> q in r
  {
    if s == [] then []
    else if s[0] == x then
      assert s == [s[0]] + s[1..];
      s[1..]
    else
      var t := RemoveFirst(s[1..], x);
      assert s == [s[0]] + s[1..];
      [s[0]] + t
  }

  /** `RemoveFirst` takes out exactly the first occurrence of `x`: what
      stands before it and what stands after it are kept, in order. */
  lemma {:induction false} RemoveFirstSplices<T>(s: seq<T>, x: T)
    requires x in s
    ensures RemoveFirst(s, x) == s[..FirstIndex(s, x)] + s[FirstIndex(s, x) + 1..]
  {
    if s[0] != x {
      assert x in s[1..];
      RemoveFirstSplices(s[1..], x);
      var j := FirstIndex(s[1..], x);
      assert s[..j + 1] == [s[0]] + s[1..][..j];
      assert s[j + 2..] == s[1..][j + 1..];
    }
  }
}
