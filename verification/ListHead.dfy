/**
 include/wk/list.h: the circular doubly linked list that every kernel structure embeds.

 A ring is the sequence of nodes met by following next once around. A list with the head h and the
 entries s is the ring [h] + s; any rotation of a ring is a ring too.
 */
module Lists {
  import Queues

  class ListHead {
    var next: ListHead
    var prev: ListHead

    /** LIST_HEAD_INIT: a node starts linked to itself. */
    constructor ()
      ensures next == this && prev == this
    {
      next := this;
      prev := this;
    }
  }

  ghost predicate Ring(r: seq<ListHead>)
    reads r
  {
    && r != [] && Queues.Distinct(r)
    && (forall i :: 0 < i < |r| ==> r[i].prev == r[i - 1])
    && (forall i :: 0 <= i < |r| - 1 ==> r[i].next == r[i + 1])
    && r[0].prev == r[|r| - 1] && r[|r| - 1].next == r[0]
  }

  /** The ring with the entries of s put in behind its k-th node. */
  ghost function InsertBehind<T>(r: seq<T>, k: nat, s: seq<T>): seq<T>
    requires k < |r|
  {
    r[..k + 1] + s + r[k + 1..]
  }

  ghost function Without<T>(r: seq<T>, k: nat): seq<T>
    requires k < |r|
  {
    r[..k] + r[k + 1..]
  }

  /** next and prev are inverse all around a ring, and lead around it in as many steps as it has nodes. */
  lemma RingLinks(r: seq<ListHead>, i: nat)
    requires Ring(r) && i < |r|
    ensures r[i].next in r && r[i].prev in r
    ensures r[i].next.prev == r[i] && r[i].prev.next == r[i]
    ensures r[i].next == r[if i + 1 == |r| then 0 else i + 1]
    ensures r[i].prev == r[if i == 0 then |r| - 1 else i - 1]
  {
    if i + 1 < |r| {
      assert r[i].next == r[i + 1] && r[i + 1].prev == r[i];
    }
    if 0 < i {
      assert r[i].prev == r[i - 1] && r[i - 1].next == r[i];
    }
  }

  /** Walking next from a node can be done in one way only: list_for_each_entry meets just the entries. */
  lemma RingUnique(r: seq<ListHead>, q: seq<ListHead>)
    requires Ring(r) && Ring(q) && r[0] == q[0]
    ensures r == q
  {
    var n := if |r| < |q| then |r| else |q|;
    SameWalk(r, q, n);
    var i, j := if n == |r| then 0 else n, if n == |q| then 0 else n;
    RingLinks(r, n - 1);
    RingLinks(q, n - 1);
    DistinctIndex(if n == |r| then q else r, if n == |r| then j else i);
  }

  lemma DistinctIndex<T>(s: seq<T>, i: nat)
    requires Queues.Distinct(s) && i < |s| && s[i] == s[0]
    ensures i == 0
  {}

  lemma {:induction false} SameWalk(r: seq<ListHead>, q: seq<ListHead>, n: nat)
    requires Ring(r) && Ring(q) && r[0] == q[0] && 0 < n <= |r| && n <= |q|
    ensures forall i :: 0 <= i < n ==> r[i] == q[i]
  {
    if n > 1 {
      SameWalk(r, q, n - 1);
      assert r[n - 2].next == r[n - 1] && q[n - 2].next == q[n - 1];
    }
  }

  /** A ring may be read from any of its nodes. */
  lemma RotateRing(r: seq<ListHead>, k: nat)
    requires Ring(r) && k < |r|
    ensures Ring(r[k..] + r[..k])
  {}

  /** list_empty, list_is_last and list_is_singular test what their names say. */
  predicate ListEmpty(head: ListHead)
    reads head
  {
    head.next == head
  }

  predicate ListIsLast(list: ListHead, head: ListHead)
    reads list
  {
    list.next == head
  }

  predicate ListIsSingular(head: ListHead)
    reads head
  {
    !ListEmpty(head) && head.next == head.prev
  }

  lemma ListTests(head: ListHead, s: seq<ListHead>)
    requires Ring([head] + s)
    ensures ListEmpty(head) <==> s == []
    ensures ListIsSingular(head) <==> |s| == 1
    ensures forall k :: 0 <= k < |s| ==> (ListIsLast(s[k], head) <==> k == |s| - 1)
  {
    var r := [head] + s;
    assert head == r[0];
    forall k | 0 <= k < |s|
      ensures s[k] == r[k + 1] && (ListIsLast(s[k], head) <==> k == |s| - 1)
    {
      if k < |s| - 1 {
        assert r[k + 1].next == r[k + 2] != r[0];
      }
    }
    if |s| > 1 {
      assert r[0].next == r[1] != r[|r| - 1] == r[0].prev;
    }
  }

  /** INIT_LIST_HEAD */
  method InitListHead(list: ListHead)
    modifies list
    ensures Ring([list])
  {
    list.next := list;
    list.prev := list;
  }

  lemma DistinctInsert<T>(r: seq<T>, k: nat, s: seq<T>)
    requires Queues.Distinct(r) && Queues.Distinct(s) && k < |r| && forall x :: x in s ==> x !in r
    ensures Queues.Distinct(InsertBehind(r, k, s))
  {
    var q := InsertBehind(r, k, s);
    forall i, j | 0 <= i < j < |q| ensures q[i] != q[j] {
      var a, b := i - k - 1, j - k - 1;
      if 0 <= a < |s| && !(0 <= b < |s|) {
        assert s[a] !in r && q[j] in r;
      } else if !(0 <= a < |s|) && 0 <= b < |s| {
        assert s[b] !in r && q[i] in r;
      }
    }
  }

  /** __list_add: puts entry between the k-th node of a ring and the next one. */
  method LinkBetween(entry: ListHead, prev: ListHead, next: ListHead, ghost r: seq<ListHead>, ghost k: nat)
    requires Ring(r) && k < |r| && r[k] == prev && prev.next == next && entry !in r
    modifies entry, prev, next
    ensures Ring(InsertBehind(r, k, [entry]))
  {
    RingLinks(r, k);
    DistinctInsert(r, k, [entry]);
    next.prev := entry;
    entry.next := next;
    entry.prev := prev;
    prev.next := entry;
    ghost var q := InsertBehind(r, k, [entry]);
    forall i | 0 < i < |q| ensures q[i].prev == q[i - 1] {
      assert i == k + 1 || q[i] == r[if i <= k then i else i - 1];
      assert i == k + 2 || q[i - 1] == r[if i - 1 <= k then i - 1 else i - 2];
    }
    forall i | 0 <= i < |q| - 1 ensures q[i].next == q[i + 1] {
      assert i == k + 1 || q[i] == r[if i <= k then i else i - 1];
      assert i == k || q[i + 1] == r[if i + 1 <= k then i + 1 else i];
    }
  }

  /** list_add: insertion behind the k-th node of a ring. */
  method ListAdd(entry: ListHead, head: ListHead, ghost r: seq<ListHead>, ghost k: nat)
    requires Ring(r) && k < |r| && r[k] == head && entry !in r
    modifies entry, head, head.next
    ensures Ring(InsertBehind(r, k, [entry]))
  {
    LinkBetween(entry, head, head.next, r, k);
  }

  /** list_add_tail: insertion before the k-th node of a ring. Before a list head that is the end of the list. */
  method ListAddTail(entry: ListHead, head: ListHead, ghost r: seq<ListHead>, ghost k: nat)
    requires Ring(r) && k < |r| && r[k] == head && entry !in r
    modifies entry, head, head.prev
    ensures Ring(if k == 0 then r + [entry] else InsertBehind(r, k - 1, [entry]))
  {
    RingLinks(r, k);
    LinkBetween(entry, head.prev, head, r, if k == 0 then |r| - 1 else k - 1);
    assert k == 0 ==> InsertBehind(r, |r| - 1, [entry]) == r + [entry];
  }

  /** list_del takes the k-th node out and links it to itself. On a node that is alone it changes nothing. */
  method ListDel(entry: ListHead, ghost r: seq<ListHead>, ghost k: nat)
    requires Ring(r) && k < |r| && r[k] == entry
    modifies entry, entry.prev, entry.next
    ensures Ring([entry])
    ensures |r| > 1 ==> Ring(Without(r, k))
    ensures |r| == 1 ==> entry.next == old(entry.next) && entry.prev == old(entry.prev)
  {
    RingLinks(r, k);
    var prev, next := entry.prev, entry.next;
    next.prev := prev;
    prev.next := next;
    entry.next := entry;
    entry.prev := entry;
    ghost var q := Without(r, k);
    WithoutDistinct(r, k);
    forall i | 0 < i < |q| ensures q[i].prev == q[i - 1] {
      WithoutAt(r, k, i);
      WithoutAt(r, k, i - 1);
    }
    forall i | 0 <= i < |q| - 1 ensures q[i].next == q[i + 1] {
      WithoutAt(r, k, i);
      WithoutAt(r, k, i + 1);
    }
    if |r| > 1 {
      WithoutAt(r, k, 0);
      WithoutAt(r, k, |q| - 1);
    }
  }

  lemma WithoutAt<T>(r: seq<T>, k: nat, i: nat)
    requires k < |r| && i < |r| - 1
    ensures Without(r, k)[i] == r[if i < k then i else i + 1]
  {}

  lemma WithoutDistinct<T>(r: seq<T>, k: nat)
    requires Queues.Distinct(r) && k < |r|
    ensures Queues.Distinct(Without(r, k)) && r[k] !in Without(r, k)
  {
    forall i | 0 <= i < |r| - 1 ensures Without(r, k)[i] == r[if i < k then i else i + 1] {
      WithoutAt(r, k, i);
    }
  }

  lemma ListEnds(list: ListHead, s: seq<ListHead>)
    requires Ring([list] + s) && s != []
    ensures list.next == s[0] && list.prev == s[|s| - 1] && Queues.Distinct(s) && list !in s
    ensures forall i :: 0 < i < |s| ==> s[i].prev == s[i - 1]
    ensures forall i :: 0 <= i < |s| - 1 ==> s[i].next == s[i + 1]
  {
    var q := [list] + s;
    assert q[1] == s[0] && q[|s|] == s[|s| - 1];
    assert forall i :: 0 <= i < |s| ==> s[i] == q[i + 1];
  }

  /** __list_splice: the entries s of a list move between the k-th node of another ring and the next one. */
  method SpliceBetween(list: ListHead, prev: ListHead, next: ListHead,
                       ghost s: seq<ListHead>, ghost r: seq<ListHead>, ghost k: nat)
    requires Ring([list] + s) && s != [] && Ring(r) && k < |r| && r[k] == prev && prev.next == next
    requires list !in r && forall x :: x in s ==> x !in r
    modifies list.next, list.prev, prev, next
    ensures Ring(InsertBehind(r, k, s))
    ensures list.next == old(list.next) && list.prev == old(list.prev)
  {
    ListEnds(list, s);
    RingLinks(r, k);
    var first, last := list.next, list.prev;
    assert first in s && last in s && prev in r && next in r;
    first.prev := prev;
    prev.next := first;
    last.next := next;
    next.prev := last;
    ghost var q := InsertBehind(r, k, s);
    DistinctInsert(r, k, s);
    forall i | 0 < i < |q| ensures q[i].prev == q[i - 1] {
      InsertedAt(r, k, s, i);
      InsertedAt(r, k, s, i - 1);
    }
    forall i | 0 <= i < |q| - 1 ensures q[i].next == q[i + 1] {
      InsertedAt(r, k, s, i);
      InsertedAt(r, k, s, i + 1);
    }
  }

  lemma InsertedAt<T>(r: seq<T>, k: nat, s: seq<T>, i: nat)
    requires k < |r| && i < |r| + |s|
    ensures InsertBehind(r, k, s)[i] == if i <= k then r[i] else if i <= k + |s| then s[i - k - 1] else r[i - |s|]
  {}

  /** list_splice: the entries s of a list move behind the k-th node of another ring. */
  method ListSplice(list: ListHead, head: ListHead, ghost s: seq<ListHead>, ghost r: seq<ListHead>, ghost k: nat)
    requires Ring([list] + s) && Ring(r) && k < |r| && r[k] == head
    requires list !in r && forall x :: x in s ==> x !in r
    modifies list.next, list.prev, head, head.next
    ensures Ring(InsertBehind(r, k, s))
    ensures list.next == old(list.next) && list.prev == old(list.prev)
  {
    ListTests(list, s);
    if !ListEmpty(list) {
      SpliceBetween(list, head, head.next, s, r, k);
    } else {
      assert InsertBehind(r, k, s) == r;
    }
  }

  /** list_splice_tail_init: the entries s of a list move to the end of another list, and the list is emptied. */
  method ListSpliceTailInit(list: ListHead, head: ListHead, ghost s: seq<ListHead>, ghost b: seq<ListHead>)
    requires Ring([list] + s) && Ring([head] + b)
    requires list !in [head] + b && forall x :: x in s ==> x !in [head] + b
    modifies list, list.next, list.prev, head, head.prev
    ensures Ring([head] + b + s) && Ring([list])
  {
    ListTests(list, s);
    ghost var r := [head] + b;
    RingLinks(r, 0);
    if !ListEmpty(list) {
      ListEnds(list, s);
      SpliceBetween(list, head.prev, head, s, r, |b|);
      assert InsertBehind(r, |b|, s) == r + s;
      InitListHead(list);
    } else {
      assert r + s == r;
    }
  }

  /**
   list_cut_position: the entries of head up to entry, which may be the head itself, move to list. An empty head
   leaves list as it is, and so does a head with a single other entry.
   */
  method ListCutPosition(list: ListHead, head: ListHead, entry: ListHead, ghost s: seq<ListHead>, ghost k: nat)
    requires Ring([head] + s) && list !in [head] + s
    requires |s| > 1 || entry in [head] + s ==> k <= |s| && entry == ([head] + s)[k]
    modifies list, head, head.next, entry, entry.next
    ensures s != [] && entry in [head] + s ==> Ring([list] + s[..k]) && Ring([head] + s[k..])
    ensures s == [] || entry !in [head] + s ==>
              Ring([head] + s) && list.next == old(list.next) && list.prev == old(list.prev)
  {
    ListTests(head, s);
    if ListEmpty(head) {
      return;
    }
    ListEnds(head, s);
    if ListIsSingular(head) && head.next != entry && head != entry {
      return;
    }
    if entry == head {
      InitListHead(list);
      assert [list] + s[..0] == [list];
    } else {
      CutBehind(list, head, entry, s, k);
    }
  }

  /** __list_cut_position */
  method CutBehind(list: ListHead, head: ListHead, entry: ListHead, ghost s: seq<ListHead>, ghost k: nat)
    requires Ring([head] + s) && 0 < k <= |s| && entry == s[k - 1]
    requires list !in [head] + s
    modifies list, head, head.next, entry, entry.next
    ensures Ring([list] + s[..k]) && Ring([head] + s[k..])
  {
    ListEnds(head, s);
    RingLinks([head] + s, k);
    var newFirst := entry.next;
    FrontRing(list, head, entry, s, k);
    head.next := newFirst;
    newFirst.prev := head;
    ghost var q := [head] + s[k..];
    forall i | 0 < i < |q| ensures q[i].prev == q[i - 1] {
      assert q[i] == s[k + i - 1] && (i > 1 ==> q[i - 1] == s[k + i - 2]);
    }
    forall i | 0 <= i < |q| - 1 ensures q[i].next == q[i + 1] {
      assert q[i + 1] == s[k + i] && (i > 0 ==> q[i] == s[k + i - 1]);
    }
  }

  lemma RingTail(head: ListHead, s: seq<ListHead>)
    requires Ring([head] + s)
    ensures head !in s && Queues.Distinct(s) && (forall i :: 0 < i < |s| ==> s[i].prev == s[i - 1])
    ensures forall i :: 0 <= i < |s| - 1 ==> s[i].next == s[i + 1]
  {
    var r := [head] + s;
    assert forall i :: 0 <= i < |s| ==> s[i] == r[i + 1];
  }

  /** The front of the list closes around the new head. */
  method FrontRing(list: ListHead, head: ListHead, entry: ListHead, ghost s: seq<ListHead>, ghost k: nat)
    requires Ring([head] + s) && 0 < k <= |s| && entry == s[k - 1] && head.next == s[0]
    requires list !in [head] + s
    modifies list, head.next, entry
    ensures Ring([list] + s[..k]) && head.next == old(head.next) && (k > 1 ==> entry.prev == old(entry.prev))
  {
    RingTail(head, s);
    list.next := head.next;
    list.next.prev := list;
    list.prev := entry;
    entry.next := list;
    ghost var p := [list] + s[..k];
    forall i | 0 < i < |p| ensures p[i].prev == p[i - 1] {
      assert p[i] == s[i - 1] && (i > 1 ==> p[i - 1] == s[i - 2]);
    }
    forall i | 0 <= i < |p| - 1 ensures p[i].next == p[i + 1] {
      assert p[i + 1] == s[i] && (i > 0 ==> p[i] == s[i - 1]);
    }
  }
}
