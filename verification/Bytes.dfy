/** Bytes, and the plain memory write the flash driver is measured against. */
module Bytes {
  type byte = bv8

  /** What storing data at address at does to an ordinary memory. */
  function Overwrite<T>(mem: seq<T>, at: nat, data: seq<T>): (r: seq<T>)
    requires at + |data| <= |mem|
    ensures |r| == |mem|
  {
    mem[..at] + data + mem[at + |data|..]
  }

  lemma OverwriteTake<T>(mem: seq<T>, at: nat, data: seq<T>)
    requires at + |data| <= |mem|
    ensures Overwrite(mem, at, data)[..at] == mem[..at]
    ensures Overwrite(mem, at, data)[..at + |data|] == mem[..at] + data
    ensures Overwrite(mem, at, data)[at + |data|..] == mem[at + |data|..]
  {}

  /** The concatenation of the pieces, in order. */
  function Concat<T>(pieces: seq<seq<T>>): seq<T> {
    if pieces == [] then [] else pieces[0] + Concat(pieces[1..])
  }

  lemma {:induction false} ConcatAppend<T>(a: seq<seq<T>>, b: seq<seq<T>>)
    ensures Concat(a + b) == Concat(a) + Concat(b)
  {
    if a == [] {
      assert a + b == b;
    } else {
      assert (a + b)[1..] == a[1..] + b;
      ConcatAppend(a[1..], b);
    }
  }

  lemma ConcatSnoc<T>(a: seq<seq<T>>, last: seq<T>)
    ensures Concat(a + [last]) == Concat(a) + last
  {
    ConcatAppend(a, [last]);
    assert Concat([last]) == last + [];
  }
}
