/** Lists of tasks, each named by a number. */
module Queues {
  ghost predicate Distinct<T>(q: seq<T>) {
    forall i, j :: 0 <= i < j < |q| ==> q[i] != q[j]
  }

  /** list_del of an entry that may or may not be in the list. */
  function Without(q: seq<nat>, id: nat): (r: seq<nat>)
    ensures |r| <= |q|
  {
    if q == [] then [] else (if q[0] == id then [] else [q[0]]) + Without(q[1..], id)
  }

  lemma {:induction false} WithoutIn(q: seq<nat>, id: nat, x: nat)
    ensures x in Without(q, id) <==> x in q && x != id
  {
    if q != [] {
      WithoutIn(q[1..], id, x);
    }
  }

  lemma {:induction false} WithoutDistinct(q: seq<nat>, id: nat)
    requires Distinct(q)
    ensures Distinct(Without(q, id))
  {
    if q != [] {
      WithoutDistinct(q[1..], id);
      WithoutIn(q[1..], id, q[0]);
    }
  }

  lemma {:induction false} WithoutAbsent(q: seq<nat>, id: nat)
    requires id !in q
    ensures Without(q, id) == q
  {
    if q != [] {
      WithoutAbsent(q[1..], id);
    }
  }

  lemma {:induction false} WithoutAt(q: seq<nat>, k: nat)
    requires Distinct(q) && k < |q|
    ensures Without(q, q[k]) == q[..k] + q[k + 1..]
  {
    if k == 0 {
      WithoutAbsent(q[1..], q[0]);
    } else {
      WithoutAt(q[1..], k - 1);
      assert q[1..][..k - 1] == q[1..k];
    }
  }
}
