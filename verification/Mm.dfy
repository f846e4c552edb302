/**
 mm/mm.c and mm/mm_init.c: the block allocator with its headers in the pool itself. Addresses inside the
 pool are counted in blocks; one more header stands for the words right behind the pool.
 */
module Mm {
  import opened Lists
  import opened MmRuns
  import opened Words

  class Header {
    var pid: nat
    var size: nat
    var blockNum: nat
    var flag: nat
    const list: ListHead

    constructor (list: ListHead)
      ensures this.list == list
    {
      this.list := list;
    }
  }

  ghost predicate Matches(h: Header, r: Run)
    reads h
  {
    match r
    case Free => h.pid == 0 && h.size == 0 && h.blockNum == 0 && h.flag == 0
    case Live(num, pid, size, flag) => h.pid == pid && h.size == size && h.blockNum == num && h.flag == flag
  }

  ghost function Members(r: seq<ListHead>): set<ListHead> {
    set x | x in r
  }

  /** Where a pool starts, and how many blocks it has. */
  datatype Memory = Memory(start: nat, blocks: nat)

  /** check_mm_pool for a memory from one address up to another. */
  function CheckMmPool(memStart: Word, memEnd: Word): Memory {
    var start := if memStart % 4 != 0 then (memStart + 4 - memStart % 4) % U32 else memStart;
    Memory(start, (memEnd + U32 - start) % U32 / 128)
  }

  /** The pool starts at the first word of the memory, and has all blocks that fit. */
  lemma CheckMmPoolIs(memStart: Word, memEnd: Word)
    requires memStart + 3 <= memEnd
    ensures var m := CheckMmPool(memStart, memEnd);
            && m.start % 4 == 0 && m.start - 4 < memStart <= m.start
            && m.start + 128 * m.blocks <= memEnd < m.start + 128 * (m.blocks + 1)
  {
    var m := CheckMmPool(memStart, memEnd);
    assert m.start <= memEnd;
    assert (memEnd + U32 - m.start) % U32 == memEnd - m.start;
  }

  /** A word of '*'. */
  const FILLED: nat := 0x2A2A_2A2A

  class Pool {
    const start: nat
    const hdr: seq<Header>
    const head: ListHead
    // what lies at the address that a word filled with '*' stands for
    const wild: ListHead
    // list_entry: which block a node belongs to
    const owner: map<ListHead, nat>
    ghost var runs: seq<Run>

    /** The memory that the pool is laid over. */
    constructor (start: nat, hdr: seq<Header>, head: ListHead, owner: map<ListHead, nat>, wild: ListHead)
      ensures this.start == start && this.hdr == hdr && this.head == head && this.owner == owner
    {
      this.start, this.hdr, this.head, this.owner, this.wild := start, hdr, head, owner, wild;
      runs := [];
    }

    ghost function N(): nat
      requires hdr != []
    {
      |hdr| - 1
    }

    ghost predicate Layout() {
      && |hdr| >= 2
      && (forall i, j :: 0 <= i < j < |hdr| ==> hdr[i] != hdr[j] && hdr[i].list != hdr[j].list)
      && (forall i :: 0 <= i < |hdr| ==> hdr[i].list != head && hdr[i].list in owner && owner[hdr[i].list] == i)
    }

    ghost function Lists(): set<ListHead> {
      {head} + set i | 0 <= i < |hdr| :: hdr[i].list
    }

    /** The nodes of the headers at the starts of runs that begin at the block at. */
    ghost function Nodes(rs: seq<Run>, at: nat): (s: seq<ListHead>)
      requires at + Blocks(rs) < |hdr|
      ensures |s| == |rs|
    {
      seq(|rs|, i requires 0 <= i < |rs| => hdr[at + Start(rs, i)].list)
    }

    ghost predicate Matched(rs: seq<Run>, at: nat)
      requires at + Blocks(rs) < |hdr|
      reads hdr
    {
      forall i :: 0 <= i < |rs| ==> Matches(hdr[at + Start(rs, i)], rs[i])
    }

    /** The nodes of the blocks from, .., to - 1. */
    ghost function BlockNodes(from: nat, to: nat): (s: seq<ListHead>)
      requires from <= to <= |hdr|
    {
      seq(to - from, i requires 0 <= i < to - from => hdr[from + i].list)
    }

    ghost function HeaderSet(from: nat, to: nat): set<Header>
      requires from <= to <= |hdr|
    {
      set i | from <= i < to :: hdr[i]
    }

    ghost function NodeSet(from: nat, to: nat): set<ListHead>
      requires from <= to <= |hdr|
    {
      set i | from <= i < to :: hdr[i].list
    }

    /** The header list is linked in address order, tiles the pool, and its headers say what the runs are. */
    ghost predicate Valid()
      reads this, hdr, Lists()
    {
      ValidAs(runs)
    }

    ghost predicate ValidAs(rs: seq<Run>)
      reads hdr, Lists()
    {
      && Layout() && WellFormed(rs) && Blocks(rs) == N()
      && Matched(rs, 0) && Ring([head] + Nodes(rs, 0))
    }

    lemma NodesAppend(a: seq<Run>, b: seq<Run>, at: nat, mid: nat)
      requires mid == at + Blocks(a) && mid + Blocks(b) < |hdr|
      ensures Blocks(a + b) == Blocks(a) + Blocks(b)
      ensures Nodes(a + b, at) == Nodes(a, at) + Nodes(b, mid)
    {
      BlocksAppend(a, b);
      forall i | 0 <= i < |a + b|
        ensures Nodes(a + b, at)[i] == (Nodes(a, at) + Nodes(b, mid))[i]
      {
        StartAppend(a, b, i);
      }
    }

    lemma MatchedAppend(a: seq<Run>, b: seq<Run>, at: nat, mid: nat)
      requires mid == at + Blocks(a) && mid + Blocks(b) < |hdr|
      ensures Blocks(a + b) == Blocks(a) + Blocks(b)
      ensures Matched(a + b, at) <==> Matched(a, at) && Matched(b, mid)
    {
      BlocksAppend(a, b);
      forall i | 0 <= i < |a + b|
        ensures at + Start(a + b, i) == if i < |a| then at + Start(a, i) else mid + Start(b, i - |a|)
      {
        StartAppend(a, b, i);
      }
      if Matched(a + b, at) {
        forall i | 0 <= i < |a| ensures Matches(hdr[at + Start(a, i)], a[i]) {
          assert Matches(hdr[at + Start(a + b, i)], (a + b)[i]);
        }
        forall i | 0 <= i < |b| ensures Matches(hdr[mid + Start(b, i)], b[i]) {
          assert Matches(hdr[at + Start(a + b, |a| + i)], (a + b)[|a| + i]);
        }
      }
    }

    /** The header nodes of runs belong to blocks inside their extent. */
    lemma NodesInside(rs: seq<Run>, at: nat)
      requires Layout() && WellFormed(rs) && at + Blocks(rs) < |hdr|
      ensures forall x :: x in Nodes(rs, at) ==> x in owner && at <= owner[x] < at + Blocks(rs)
      ensures forall i :: 0 <= i < |rs| ==> at <= at + Start(rs, i) < at + Blocks(rs)
    {
      forall i | 0 <= i < |rs| ensures Start(rs, i) < Blocks(rs) && owner[Nodes(rs, at)[i]] == at + Start(rs, i) {
        StartsAscend(rs, i, |rs|);
      }
    }

    lemma NodesOfFrees(n: nat, at: nat)
      requires at + n < |hdr|
      ensures Blocks(Frees(n)) == n && Nodes(Frees(n), at) == BlockNodes(at, at + n)
      ensures Matched(Frees(n), at) <==> forall b :: at <= b < at + n ==> Matches(hdr[b], Free)
    {
      BlocksFrees(n);
      forall i | 0 <= i < n ensures Start(Frees(n), i) == i {
        BlocksFrees(i);
        assert Frees(n)[..i] == Frees(i);
      }
      if Matched(Frees(n), at) {
        forall b | at <= b < at + n ensures Matches(hdr[b], Free) {
          assert Matches(hdr[at + Start(Frees(n), b - at)], Frees(n)[b - at]);
        }
      }
    }

    lemma NodesOfOne(r: Run, at: nat)
      requires at + Span(r) < |hdr|
      ensures Blocks([r]) == Span(r) && Nodes([r], at) == [hdr[at].list]
      ensures Matched([r], at) <==> Matches(hdr[at], r)
    {
      BlocksOne(r);
      assert Start([r], 0) == 0;
      assert Matched([r], at) ==> Matches(hdr[at + Start([r], 0)], [r][0]);
    }

    lemma BlockNodesIn(from: nat, addr: nat, to: nat)
      requires Layout() && from <= addr < to <= |hdr|
      ensures hdr[addr].list !in BlockNodes(from, addr)
      ensures forall x :: x in BlockNodes(from, addr) ==> x in NodeSet(from, to)
      ensures BlockNodes(from, addr) + [hdr[addr].list] == BlockNodes(from, addr + 1)
    {
      var done := BlockNodes(from, addr);
      assert forall i :: 0 <= i < |done| ==> done[i] == hdr[from + i].list;
    }

    /**
     __mm_init: makes the blocks from, .., to - 1 free blocks on the list of headNew. Another ring q and
     the headers of the runs before and behind those blocks are left alone.
     */
    method MmInit(from: nat, to: nat, headNew: ListHead, ghost q: seq<ListHead>, ghost a: seq<Run>, ghost c: seq<Run>)
      requires Layout() && from <= to <= N() && Ring([headNew]) && Ring(q)
      requires forall i :: 0 <= i < |hdr| ==> hdr[i].list != headNew
      requires headNew !in q && forall x :: x in q ==> x !in NodeSet(from, to)
      requires Beside(a, c, from, to)
      modifies headNew, NodeSet(from, to), HeaderSet(from, to)
      ensures Ring([headNew] + BlockNodes(from, to)) && Ring(q)
      ensures Beside(a, c, from, to)
      ensures forall b :: from <= b < to ==> Matches(hdr[b], Free)
    {
      var addr := from;
      assert [headNew] + BlockNodes(from, from) == [headNew];
      while addr < to
        invariant from <= addr <= to && Ring(q) && Beside(a, c, from, to)
        invariant Ring([headNew] + BlockNodes(from, addr))
        invariant forall b :: from <= b < addr ==> Matches(hdr[b], Free)
      {
        ClearHeader(from, addr, to, headNew, q, a, c);
        AddBlock(from, addr, to, headNew, q);
        addr := addr + 1;
      }
    }

    /** The runs a end at the block from, the runs c start at the block to, and their headers say so. */
    ghost predicate Beside(a: seq<Run>, c: seq<Run>, from: nat, to: nat)
      reads hdr
    {
      && from == Blocks(a) && from <= to && to + Blocks(c) < |hdr|
      && WellFormed(a) && WellFormed(c) && Matched(a, 0) && Matched(c, to)
    }

    method ClearHeader(ghost from: nat, addr: nat, ghost to: nat, ghost headNew: ListHead, ghost q: seq<ListHead>,
                       ghost a: seq<Run>, ghost c: seq<Run>)
      requires Layout() && from <= addr < to <= N() && Ring(q) && Ring([headNew] + BlockNodes(from, addr))
      requires Beside(a, c, from, to)
      requires forall b :: from <= b < addr ==> Matches(hdr[b], Free)
      modifies HeaderSet(from, to)
      ensures Ring(q) && Ring([headNew] + BlockNodes(from, addr))
      ensures Beside(a, c, from, to)
      ensures forall b :: from <= b <= addr ==> Matches(hdr[b], Free)
    {
      var list := hdr[addr];
      list.pid := 0;
      list.size := 0;
      list.blockNum := 0;
      list.flag := 0;
      NodesInside(a, 0);
      NodesInside(c, to);
    }

    method AddBlock(ghost from: nat, addr: nat, ghost to: nat, headNew: ListHead, ghost q: seq<ListHead>)
      requires Layout() && from <= addr < to <= N() && Ring([headNew] + BlockNodes(from, addr)) && Ring(q)
      requires forall i :: 0 <= i < |hdr| ==> hdr[i].list != headNew
      requires headNew !in q && forall x :: x in q ==> x !in NodeSet(from, to)
      modifies headNew, NodeSet(from, to)
      ensures Ring([headNew] + BlockNodes(from, addr + 1)) && Ring(q)
    {
      ghost var r, node := [headNew] + BlockNodes(from, addr), hdr[addr].list;
      BlockNodesIn(from, addr, to);
      assert r[0] == headNew && node !in r && node in NodeSet(from, to);
      assert forall x :: x in q ==> x !in r && x != node;
      InitListHead(hdr[addr].list);
      RingLinks(r, 0);
      ListAddTail(hdr[addr].list, headNew, r, 0);
      assert r + [node] == [headNew] + BlockNodes(from, addr + 1);
    }

    /** A pool seen as the runs before the block p, the runs from there to the block e, and the rest. */
    lemma Split(a: seq<Run>, b: seq<Run>, c: seq<Run>, p: nat, e: nat)
      requires Layout() && p == Blocks(a) && e == p + Blocks(b) && e + Blocks(c) == N()
      ensures Blocks(a + b + c) == N()
      ensures Nodes(a + b + c, 0) == Nodes(a, 0) + Nodes(b, p) + Nodes(c, e)
      ensures Matched(a + b + c, 0) <==> Matched(a, 0) && Matched(b, p) && Matched(c, e)
    {
      NodesAppend(a, b, 0, p);
      NodesAppend(a + b, c, 0, e);
      MatchedAppend(a, b, 0, p);
      MatchedAppend(a + b, c, 0, e);
    }

    /** Putting the pieces of a pool together again. */
    lemma Assemble(a: seq<Run>, m: seq<Run>, c: seq<Run>, b: nat, e: nat)
      requires Layout() && Beside(a, c, b, e) && e == b + Blocks(m) && e + Blocks(c) == N()
      requires WellFormed(m) && Matched(m, b)
      requires Ring([head] + Nodes(a, 0) + Nodes(m, b) + Nodes(c, e))
      ensures ValidAs(a + m + c)
    {
      JoinRing(a, m, c, b, e);
      JoinHeaders(a, m, c, b, e);
      WellFormedParts(a, m, c);
    }

    lemma JoinRing(a: seq<Run>, m: seq<Run>, c: seq<Run>, b: nat, e: nat)
      requires Layout() && b == Blocks(a) && e == b + Blocks(m) && e + Blocks(c) == N()
      requires Ring([head] + Nodes(a, 0) + Nodes(m, b) + Nodes(c, e))
      ensures Blocks(a + m + c) == N() && Ring([head] + Nodes(a + m + c, 0))
    {
      Split(a, m, c, b, e);
      Regroup([head], Nodes(a, 0), Nodes(m, b), Nodes(c, e));
    }

    lemma JoinHeaders(a: seq<Run>, m: seq<Run>, c: seq<Run>, b: nat, e: nat)
      requires Layout() && Beside(a, c, b, e) && e == b + Blocks(m) && e + Blocks(c) == N() && Matched(m, b)
      ensures Blocks(a + m + c) == N() && Matched(a + m + c, 0)
    {
      Split(a, m, c, b, e);
    }

    lemma NodesListed(rs: seq<Run>, at: nat)
      requires Layout() && WellFormed(rs) && at + Blocks(rs) <= N()
      ensures Members(Nodes(rs, at)) <= Lists()
    {
      forall i | 0 <= i < |rs| ensures Nodes(rs, at)[i] in Lists() {
        assert Nodes(rs, at)[i] == hdr[at + Start(rs, i)].list;
      }
    }

    lemma FreeSetup(p: seq<ListHead>, x: ListHead, q: seq<ListHead>, b: nat, e: nat)
      returns (r: seq<ListHead>, k: nat)
      requires Layout() && b < e <= N() && x == hdr[b].list
      requires Members(p) <= Lists() && Members(q) <= Lists()
      requires forall y :: y in p || y in q ==> y !in NodeSet(b, e)
      ensures r == [head] + p + [x] + q && 0 < k < |r| && r[k] == x
      ensures r[..k] == [head] + p && r[k + 1..] == q
      ensures Members(r) <= Lists() && Members(Without(r, k)) !! NodeSet(b, e)
    {
      r, k := [head] + p + [x] + q, |p| + 1;
      assert Without(r, k) == [head] + p + q;
      assert forall y :: y in r <==> y == head || y in p || y == x || y in q;
      assert forall y :: y in p ==> y in Members(p);
      assert forall y :: y in q ==> y in Members(q);
    }

    method SpliceBlocks(headNew: ListHead, headMain: ListHead, ghost own: seq<ListHead>, ghost r: seq<ListHead>,
                        ghost k: nat,
                        ghost a: seq<Run>, ghost c: seq<Run>, ghost b: nat, ghost e: nat)
      returns (status: int)
      requires Layout() && b <= e <= N() && Beside(a, c, b, e) && forall i :: b <= i < e ==> Matches(hdr[i], Free)
      requires 0 < k < |r| && Ring([headNew] + own) && Ring(Without(r, k)) && own != [] && r[k - 1] == headMain
      requires headNew !in Without(r, k) && Members(own) !! Members(Without(r, k))
      modifies Members(r), Members(own)
      ensures status == 0 && Beside(a, c, b, e) && forall i :: b <= i < e ==> Matches(hdr[i], Free)
      ensures Ring(r[..k] + own + r[k + 1..])
    {
      ghost var q := Without(r, k);
      assert q[k - 1] == headMain;
      ListTests(headNew, own);
      ListEnds(headNew, own);
      RingLinks(q, k - 1);
      if ListEmpty(headNew) {
        return -1;
      }
      forall x | x in own ensures x !in q {
        assert x in Members(own) && x !in Members(q);
      }
      ListSplice(headNew, headMain, own, q, k - 1);
      assert InsertBehind(q, k - 1, own) == r[..k] + own + r[k + 1..];
      return 0;
    }

    /** The pool around one run, which covers the blocks b, .., e - 1. */
    lemma Around(a: seq<Run>, r: Run, c: seq<Run>, b: nat, e: nat)
      requires Valid() && runs == a + [r] + c && b == Blocks(a) && e == b + Span(r)
      ensures b < e && e + Blocks(c) == N() && WellFormed(a) && WellFormed([r]) && WellFormed(c)
      ensures Matched(a, 0) && Matches(hdr[b], r) && Matched(c, e)
      ensures Nodes(runs, 0) == Nodes(a, 0) + [hdr[b].list] + Nodes(c, e)
    {
      Extents(a, [r], c);
      BlocksOne(r);
      WellFormedParts(a, [r], c);
      NodesOfOne(r, b);
      Split(a, [r], c, b, e);
      assert [r][0] == r;
    }

    /** Nodes and headers outside the extent of runs do not belong to them. */
    lemma Outside(rs: seq<Run>, at: nat, from: nat, to: nat)
      requires Layout() && WellFormed(rs) && at + Blocks(rs) <= N() && from <= to <= N()
      requires at + Blocks(rs) <= from || to <= at
      ensures forall x :: x in Nodes(rs, at) ==> x !in NodeSet(from, to) && x != head
      ensures forall i :: 0 <= i < |rs| ==> hdr[at + Start(rs, i)] !in HeaderSet(from, to)
    {
      NodesInside(rs, at);
      forall i | 0 <= i < |rs|
        ensures Nodes(rs, at)[i] !in NodeSet(from, to) && hdr[at + Start(rs, i)] !in HeaderSet(from, to)
      {
        assert Nodes(rs, at)[i] == hdr[at + Start(rs, i)].list;
      }
    }

    /** The second half of __mm_free: re-initialises the blocks of a run on a list of their own, and splices them in. */
    method Reinit(b: nat, n: nat, headMain: ListHead, ghost e: nat, ghost r: seq<ListHead>, ghost k: nat,
                  ghost a: seq<Run>, ghost c: seq<Run>) returns (status: int)
      requires Layout() && b < e <= N() && n == e - b && Beside(a, c, b, e)
      requires 0 < k < |r| && Ring(Without(r, k)) && r[k - 1] == headMain
      requires Members(Without(r, k)) !! NodeSet(b, e)
      modifies Members(r), NodeSet(b, e), HeaderSet(b, e)
      ensures status == 0 && Beside(a, c, b, e)
      ensures Ring(r[..k] + BlockNodes(b, e) + r[k + 1..])
      ensures forall i :: b <= i < e ==> Matches(hdr[i], Free)
    {
      ghost var q, own := Without(r, k), BlockNodes(b, e);
      ReinitSets(b, e, r, k);
      var headNew := new ListHead();
      MmInit(b, b + n, headNew, q, a, c);
      status := SpliceBlocks(headNew, headMain, own, r, k, a, c, b, e);
    }

    /** The blocks' own nodes are apart from the ring without the run's node. */
    lemma ReinitSets(b: nat, e: nat, r: seq<ListHead>, k: nat)
      requires b < e <= |hdr| && k < |r| && Members(Without(r, k)) !! NodeSet(b, e)
      ensures Members(BlockNodes(b, e)) <= NodeSet(b, e) && BlockNodes(b, e) != []
      ensures Members(Without(r, k)) <= Members(r) && Members(BlockNodes(b, e)) !! Members(Without(r, k))
      ensures forall x :: x in Without(r, k) ==> x !in NodeSet(b, e)
    {
      forall x | x in BlockNodes(b, e) ensures x in NodeSet(b, e) {
        var i :| 0 <= i < e - b && BlockNodes(b, e)[i] == x;
        assert hdr[b + i].list == x;
      }
      forall x | x in Without(r, k) ensures x in Members(r) && x !in NodeSet(b, e) {
        assert x in Members(Without(r, k));
      }
    }

    /** __mm_free of the node of a run that covers the blocks b, .., e - 1. */
    method Resplit(b: nat, ghost e: nat, ghost p: seq<ListHead>, ghost q: seq<ListHead>, ghost a: seq<Run>,
                   ghost c: seq<Run>)
      returns (status: int)
      requires Layout() && b < e <= N() && hdr[b].blockNum == e - b
      requires Ring([head] + p + [hdr[b].list] + q) && Beside(a, c, b, e)
      requires Members(p) <= Lists() && Members(q) <= Lists()
      requires forall y :: y in p || y in q ==> y !in NodeSet(b, e)
      modifies Lists(), HeaderSet(b, e)
      ensures status == 0 && Beside(a, c, b, e)
      ensures Ring([head] + p + BlockNodes(b, e) + q)
      ensures forall i :: b <= i < e ==> Matches(hdr[i], Free)
    {
      ghost var r, k := FreeSetup(p, hdr[b].list, q, b, e);
      RingLinks(r, k);
      var headMain, n := hdr[b].list.prev, hdr[b].blockNum;
      ListDel(hdr[b].list, r, k);
      status := Reinit(b, n, headMain, e, r, k, a, c);
    }

    method FreeBlocks(b: nat, ghost e: nat, ghost a: seq<Run>, ghost r: Run, ghost c: seq<Run>) returns (status: int)
      requires Valid() && r.Live? && runs == a + [r] + c && b == Blocks(a) && e == b + r.num
      modifies Lists(), HeaderSet(0, N())
      ensures status == 0 && e + Blocks(c) == N() && Beside(a, c, b, e)
      ensures Ring([head] + Nodes(a, 0) + BlockNodes(b, e) + Nodes(c, e))
      ensures forall i :: b <= i < e ==> Matches(hdr[i], Free)
    {
      RingAround(a, r, c, b, e);
      Outside(a, 0, b, e);
      Outside(c, e, b, e);
      NodesListed(a, 0);
      NodesListed(c, e);
      assert HeaderSet(b, e) <= HeaderSet(0, N());
      status := Resplit(b, e, Nodes(a, 0), Nodes(c, e), a, c);
    }

    lemma AssembleFrees(a: seq<Run>, n: nat, c: seq<Run>, b: nat, e: nat)
      requires Layout() && Beside(a, c, b, e) && e == b + n && e + Blocks(c) == N()
      requires Ring([head] + Nodes(a, 0) + BlockNodes(b, e) + Nodes(c, e))
      requires forall i :: b <= i < e ==> Matches(hdr[i], Free)
      ensures ValidAs(a + Frees(n) + c)
    {
      NodesOfFrees(n, b);
      Assemble(a, Frees(n), c, b, e);
    }

    ghost method SetRuns(rs: seq<Run>)
      requires ValidAs(rs)
      modifies `runs
      ensures Valid() && runs == rs
    {
      runs := rs;
    }

    /** __mm_free of the run that starts at the block b. */
    method MmFree(b: nat, ghost a: seq<Run>, ghost r: Run, ghost c: seq<Run>) returns (status: int)
      requires Valid() && r.Live? && runs == a + [r] + c && b == Blocks(a)
      modifies `runs, Lists(), HeaderSet(0, N())
      ensures Valid() && status == 0
      ensures runs == a + Frees(r.num) + c
    {
      ghost var e := b + r.num;
      status := FreeBlocks(b, e, a, r, c);
      AssembleFrees(a, r.num, c, b, e);
      SetRuns(a + Frees(r.num) + c);
    }

    /** Where list_for_each_entry stands when it has passed i headers. */
    ghost function Cursor(rs: seq<Run>, i: nat): ListHead
      requires Blocks(rs) < |hdr| && i <= |rs|
    {
      if i == |rs| then head else hdr[Start(rs, i)].list
    }

    lemma Walk(i: nat)
      requires Valid() && i < |runs|
      ensures var c := Cursor(runs, i);
              && c != head && c in owner && owner[c] == Start(runs, i)
              && Matches(hdr[Start(runs, i)], runs[i]) && c.next == Cursor(runs, i + 1)
              && Cursor(runs, i + 1).prev == c
    {
      var r := [head] + Nodes(runs, 0);
      assert r[i + 1] == hdr[Start(runs, i)].list;
      RingLinks(r, i + 1);
      if i + 1 < |runs| {
        assert r[i + 2] == Cursor(runs, i + 1);
      }
    }

    lemma WalkEnd(rs: seq<Run>, i: nat)
      requires Layout() && Blocks(rs) < |hdr| && i <= |rs|
      ensures Cursor(rs, i) == head <==> i == |rs|
    {}

    lemma WalkStart()
      requires Valid()
      ensures head.next == Cursor(runs, 0)
    {
      var r := [head] + Nodes(runs, 0);
      assert r[0] == head;
      RingLinks(r, 0);
      if 0 < |runs| {
        assert r[1] == Cursor(runs, 0);
      }
    }

    method ReadHeader(cursor: ListHead, ghost i: nat) returns (b: nat, next: ListHead)
      requires Valid() && i < |runs| && cursor == Cursor(runs, i)
      ensures cursor != head && b == Start(runs, i) && b < N() && Matches(hdr[b], runs[i]) && hdr[b].list == cursor
      ensures Valid() && cursor.next == next == Cursor(runs, i + 1)
    {
      Walk(i);
      StartsAscend(runs, i, |runs|);
      b := owner[cursor];
      next := cursor.next;
    }

    /**
     One turn of the walk: a free block is counted, and may complete the place; any other run starts the count anew.
     */
    method ScanTurn(size: nat, cursor: ListHead, ghost i: nat, count: nat)
      returns (found: bool, b: nat, num: nat, next: ListHead)
      requires Valid() && i < |runs| && cursor == Cursor(runs, i) && Scan(runs, i, count, Need(size))
      ensures Valid() && next == Cursor(runs, i + 1)
      ensures !found ==> Scan(runs, i + 1, num, Need(size))
      ensures found ==> num == Need(size) <= i + 1 && FirstFit(runs, num, i + 1 - num) && b == Start(runs, i + 1 - num)
    {
      var at;
      at, next := ReadHeader(cursor, i);
      ScanStep(runs, i, count, Need(size));
      found, b, num := false, 0, 0;
      if hdr[at].blockNum == 0 {
        num := count + 1;
        NeedLeast(size, num);
        if size <= 128 * num - HEADER {
          found, b := true, at - (num - 1);
        }
      }
    }

    /** The walk of __find_block: first fit over the header list. */
    method ScanBlocks(size: nat) returns (found: bool, b: nat, num: nat, ghost k: nat)
      requires Valid()
      ensures !found ==> FirstFit(runs, Need(size), -1)
      ensures found ==> FirstFit(runs, Need(size), k) && b == Start(runs, k) && num == Need(size)
    {
      ghost var i := 0;
      WalkStart();
      ScanStart(runs, Need(size));
      var cursor := head.next;
      num, b, k, found := 0, 0, 0, false;
      while cursor != head
        invariant i <= |runs| && cursor == Cursor(runs, i)
        invariant Scan(runs, i, num, Need(size))
        decreases |runs| - i
      {
        found, b, num, cursor := ScanTurn(size, cursor, i, num);
        if found {
          k := i + 1 - num;
          return;
        }
        i := i + 1;
      }
      WalkEnd(runs, i);
      ScanEnd(runs, num, Need(size));
    }

    /** __find_block: the header of the run found gets its size in blocks. */
    method FindBlock(size: nat)
      returns (found: bool, b: nat, ghost n: nat, ghost e: nat, ghost a: seq<Run>, ghost c: seq<Run>)
      requires Valid()
      modifies HeaderSet(0, N())
      ensures n == Need(size)
      ensures !found ==> Valid() && FirstFit(runs, n, -1)
      ensures found ==>
                && runs == a + Frees(n) + c && FirstFit(runs, n, |a|) && e == b + n && e + Blocks(c) == N()
                && Beside(a, c, b, e) && hdr[b].blockNum == n
                && Ring([head] + Nodes(a, 0) + BlockNodes(b, e) + Nodes(c, e))
    {
      var num;
      ghost var k;
      found, b, num, k := ScanBlocks(size);
      n, e, a, c := Need(size), b + num, [], [];
      if found {
        a, c := runs[..k], runs[k + num..];
        FitSplit(runs, k, num);
        AroundFit(a, num, c, b, e);
        MarkBlock(b, num, e, a, c, [head] + Nodes(a, 0) + BlockNodes(b, e) + Nodes(c, e));
      }
    }

    lemma AroundFit(a: seq<Run>, n: nat, c: seq<Run>, b: nat, e: nat)
      requires Valid() && runs == a + Frees(n) + c && b == Blocks(a) && e == b + n && n > 0
      ensures b < e && e + Blocks(c) == N() && Beside(a, c, b, e)
      ensures Ring([head] + Nodes(a, 0) + BlockNodes(b, e) + Nodes(c, e))
    {
      BlocksFrees(n);
      Extents(a, Frees(n), c);
      NodesOfFrees(n, b);
      Split(a, Frees(n), c, b, e);
      WellFormedParts(a, Frees(n), c);
      Regroup([head], Nodes(a, 0), BlockNodes(b, e), Nodes(c, e));
    }

    lemma Alone(h: seq<ListHead>, x: seq<ListHead>, y: seq<ListHead>, z: seq<ListHead>)
      requires x == [] && z == []
      ensures h + x + y + z == h + y
    {}

    lemma Regroup(h: seq<ListHead>, x: seq<ListHead>, y: seq<ListHead>, z: seq<ListHead>)
      ensures h + (x + y + z) == h + x + y + z
    {}

    method MarkBlock(b: nat, num: nat, ghost e: nat, ghost a: seq<Run>, ghost c: seq<Run>, ghost r: seq<ListHead>)
      requires Layout() && b < e <= N() && Beside(a, c, b, e) && Ring(r)
      modifies HeaderSet(0, N())
      ensures Beside(a, c, b, e) && Ring(r) && hdr[b].blockNum == num
    {
      NodesInside(a, 0);
      NodesInside(c, e);
      hdr[b].blockNum := num;
    }

    method FillHeader(b: nat, size: nat, flag: nat, pid: nat, ghost num: nat,
                      ghost e: nat, ghost a: seq<Run>, ghost c: seq<Run>, ghost r: seq<ListHead>)
      returns (end: nat)
      requires Layout() && b < e <= N() && e == b + num && Beside(a, c, b, e) && Ring(r) && hdr[b].blockNum == num
      modifies HeaderSet(0, N())
      ensures Beside(a, c, b, e) && Ring(r) && Matches(hdr[b], Live(num, pid, size, flag)) && end == e
    {
      NodesInside(a, 0);
      NodesInside(c, e);
      hdr[b].pid := pid;
      hdr[b].size := size;
      hdr[b].flag := flag;
      end := b + hdr[b].blockNum;
    }

    /** Links node i of a ring directly to node j, or to a node that is not in the ring at all. */
    method LinkAcross(x: ListHead, y: ListHead, ghost r: seq<ListHead>, ghost i: nat, ghost j: nat)
      requires Ring(r) && i < j <= |r| && r[i] == x && (j < |r| ==> r[j] == y)
      modifies x, y
      ensures x.next == y
      ensures j < |r| ==> Ring(r[..i + 1] + r[j..])
    {
      x.next := y;
      y.prev := x;
      if j < |r| {
        ghost var q, d := r[..i + 1] + r[j..], j - i - 1;
        forall k | 0 < k < |q| ensures q[k].prev == q[k - 1] {
          assert q[k] == r[if k <= i then k else k + d] && q[k - 1] == r[if k - 1 <= i then k - 1 else k - 1 + d];
        }
        forall k | 0 <= k < |q| - 1 ensures q[k].next == q[k + 1] {
          assert q[k] == r[if k <= i then k else k + d] && q[k + 1] == r[if k + 1 <= i then k + 1 else k + 1 + d];
        }
      }
    }

    /**
     The links __mm_alloc sets: from the header of the run to the header at its end, whatever is there. The
     list stays a ring if that is another run's header, that is, if the run ends before the pool does.
     */
    method LinkRun(b: nat, e: nat, ghost a: seq<Run>, ghost live: Run, ghost c: seq<Run>)
      requires Layout() && b < e && e + Blocks(c) == N() && Beside(a, c, b, e) && Matches(hdr[b], live)
      requires Ring([head] + Nodes(a, 0) + BlockNodes(b, e) + Nodes(c, e))
      modifies Lists()
      ensures Beside(a, c, b, e) && Matches(hdr[b], live)
      ensures e < N() ==> Ring([head] + Nodes(a, 0) + [hdr[b].list] + Nodes(c, e))
      ensures hdr[b].list.next == hdr[e].list
    {
      ghost var r, i, j := LinkSetup(b, e, a, c);
      LinkAcross(hdr[b].list, hdr[e].list, r, i, j);
    }

    lemma LinkSetup(b: nat, e: nat, a: seq<Run>, c: seq<Run>) returns (r: seq<ListHead>, i: nat, j: nat)
      requires Layout() && b < e && e + Blocks(c) == N() && Blocks(a) == b && WellFormed(c)
      ensures r == [head] + Nodes(a, 0) + BlockNodes(b, e) + Nodes(c, e)
      ensures i < j <= |r| && r[i] == hdr[b].list
      ensures (j < |r| <==> e < N()) && (j < |r| ==> r[j] == hdr[e].list)
      ensures r[..i + 1] + r[j..] == [head] + Nodes(a, 0) + [hdr[b].list] + Nodes(c, e)
    {
      var p, own, q := Nodes(a, 0), BlockNodes(b, e), Nodes(c, e);
      r, i, j := Joined(p, own, q);
      assert own[0] == hdr[b].list;
      if c != [] {
        StartsAscend(c, 0, |c|);
        assert Start(c, 0) == 0 && q[0] == hdr[e].list;
      }
    }

    lemma Joined(p: seq<ListHead>, own: seq<ListHead>, q: seq<ListHead>) returns (r: seq<ListHead>, i: nat, j: nat)
      requires own != []
      ensures r == [head] + p + own + q && i < j <= |r| && j == |r| - |q|
      ensures r[i] == own[0] && (q != [] ==> r[j] == q[0])
      ensures r[..i + 1] + r[j..] == [head] + p + [own[0]] + q
    {
      r, i, j := [head] + p + own + q, |p| + 1, |p| + 1 + |own|;
      assert r[..i + 1] == [head] + p + [own[0]] && r[j..] == q;
    }

    /** The address behind the header of the block b. */
    function Payload(b: nat): nat {
      start + 128 * b + HEADER
    }

    /** The run at b ends with the pool, and its header is linked to the one behind, which is in no list. */
    ghost predicate Severed(b: nat)
      reads hdr, Lists()
    {
      b < |hdr| - 1 && hdr[b].list.next == hdr[|hdr| - 1].list
    }

    /** What is left of the header list after an allocation of the blocks b, .., e - 1. */
    ghost predicate Linked(b: nat, e: nat)
      requires hdr != []
      reads this, hdr, Lists()
    {
      if e < N() then Valid() else Severed(b)
    }

    /**
     __mm_alloc: the first place that is large enough becomes one run. The pool stays valid exactly if that
     run ends before the pool does.
     */
    method MmAlloc(size: nat, flag: nat, pid: nat) returns (addr: nat, ghost k: nat)
      requires Valid() && start > 0
      modifies `runs, Lists(), HeaderSet(0, N())
      ensures addr == 0 ==> FirstFit(runs, Need(size), -1) && Valid() && runs == old(runs)
      ensures addr != 0 ==>
                && FirstFit(old(runs), Need(size), k) && addr == Payload(Start(old(runs), k))
                && runs == Allocated(old(runs), k, Need(size), Live(Need(size), pid, size, flag))
                && (Valid() <==> Start(old(runs), k) + Need(size) < N())
                && Linked(Start(old(runs), k), Start(old(runs), k) + Need(size))
    {
      var found, b;
      ghost var n, e, a, c;
      found, b, n, e, a, c := FindBlock(size);
      k := |a|;
      if !found {
        return 0, k;
      }
      ghost var live := Live(n, pid, size, flag);
      AllocatedParts(a, n, c, live);
      var end := FillHeader(b, size, flag, pid, n, e, a, c, [head] + Nodes(a, 0) + BlockNodes(b, e) + Nodes(c, e));
      FinishAlloc(b, end, a, live, c);
      assert old(runs)[..k] == a;
      return Payload(b), k;
    }

    method FinishAlloc(b: nat, e: nat, ghost a: seq<Run>, ghost live: Run, ghost c: seq<Run>)
      requires Layout() && live.Live? && live.num == Need(live.size) && e == b + live.num && e + Blocks(c) == N()
      requires Beside(a, c, b, e) && Matches(hdr[b], live)
      requires Ring([head] + Nodes(a, 0) + BlockNodes(b, e) + Nodes(c, e))
      modifies `runs, Lists()
      ensures runs == a + [live] + c
      ensures (Valid() <==> e < N()) && Linked(b, e)
    {
      LinkRun(b, e, a, live, c);
      Conclude(b, e, a, live, c);
    }

    ghost method Conclude(b: nat, e: nat, a: seq<Run>, live: Run, c: seq<Run>)
      requires Layout() && live.Live? && live.num == Need(live.size) && e == b + live.num
      requires Beside(a, c, b, e) && Matches(hdr[b], live) && e + Blocks(c) == N()
      requires e < N() ==> Ring([head] + Nodes(a, 0) + [hdr[b].list] + Nodes(c, e))
      requires hdr[b].list.next == hdr[e].list
      modifies `runs
      ensures runs == a + [live] + c
      ensures (Valid() <==> e < N()) && Linked(b, e)
    {
      NodesOfOne(live, b);
      if e < N() {
        Assemble(a, [live], c, b, e);
        SetRuns(a + [live] + c);
      } else {
        runs := a + [live] + c;
        if Valid() {
          LastClosesRing(a, live, c, b, e);
          assert false;
        }
      }
    }

    /** A run that ends with the pool has to be linked to the list head. */
    lemma LastClosesRing(a: seq<Run>, live: Run, c: seq<Run>, b: nat, e: nat)
      requires ValidAs(a + [live] + c) && live.Live? && e == b + live.num == N() && b == Blocks(a)
      ensures hdr[b].list.next == head
    {
      Extents(a, [live], c);
      WellFormedParts(a, [live], c);
      NodesOfOne(live, b);
      Split(a, [live], c, b, e);
      NodesInside(c, e);
      var r := [head] + Nodes(a + [live] + c, 0);
      assert c == [] && r[|a| + 1] == hdr[b].list;
      RingLinks(r, |r| - 1);
    }

    /** wk_alloc brackets __mm_alloc. */
    method WkAlloc(size: nat, flag: nat, pid: nat) returns (addr: nat, ghost k: nat)
      requires Valid() && start > 0
      modifies `runs, Lists(), HeaderSet(0, N())
      ensures addr == 0 ==> FirstFit(runs, Need(size), -1) && Valid() && runs == old(runs)
      ensures addr != 0 ==>
                && FirstFit(old(runs), Need(size), k) && addr == Payload(Start(old(runs), k))
                && runs == Allocated(old(runs), k, Need(size), Live(Need(size), pid, size, flag))
                && (Valid() <==> Start(old(runs), k) + Need(size) < N())
                && Linked(Start(old(runs), k), Start(old(runs), k) + Need(size))
    {
      addr, k := MmAlloc(size, flag, pid);
    }

    /** wk_free */
    method WkFree(addr: nat, ghost k: nat) returns (status: int)
      requires Valid() && start > 0
      requires addr == 0 || (k < |runs| && runs[k].Live? && addr == Payload(Start(runs, k)))
      modifies `runs, Lists(), HeaderSet(0, N())
      ensures Valid()
      ensures addr == 0 ==> status == -1 && runs == old(runs)
      ensures addr != 0 ==> status == 0 && runs == FreedAt(old(runs), k)
    {
      if addr == 0 {
        return -1;
      }
      assert runs == runs[..k] + [runs[k]] + runs[k + 1..];
      status := MmFree((addr - HEADER - start) / 128, runs[..k], runs[k], runs[k + 1..]);
    }

    method ReadRun(cursor: ListHead, ghost a: seq<Run>, ghost r: Run, ghost c: seq<Run>)
      returns (b: nat, next: ListHead, tag: nat)
      requires Valid() && runs == a + [r] + c && cursor == Cursor(runs, |a|)
      ensures Valid() && b == Blocks(a) && b < N() && tag == (if r.Live? then r.pid else 0) && (r.Live? ==> r.num > 0)
      ensures hdr[b].list.next == next == Cursor(runs, |a| + 1)
    {
      StartOf(a, r, c);
      b, next := ReadHeader(cursor, |a|);
      tag := hdr[b].pid;
    }

    /** One turn of the loop of wk_free_by_pid: from the header that cursor is at to the next one to look at. */
    method FreeIfTagged(cursor: ListHead, pid: nat, ghost a: seq<Run>, ghost r: Run, ghost c: seq<Run>)
      returns (next: ListHead)
      requires Valid() && pid != 0 && runs == a + [r] + c && cursor == Cursor(runs, |a|)
      modifies `runs, Lists(), HeaderSet(0, N())
      ensures Valid() && runs == a + FreedRun(r, pid) + c && next == Cursor(runs, |a| + |FreedRun(r, pid)|)
    {
      var b, tag;
      b, next, tag := ReadRun(cursor, a, r, c);
      assert FreedRun(r, pid) == if tag == pid then Frees(r.num) else [r];
      if tag == pid {
        next := FreeAndGoOn(b, a, r, c);
      }
    }

    /** The tagged case: frees the run, and finds the header behind it again. */
    method FreeAndGoOn(b: nat, ghost a: seq<Run>, ghost r: Run, ghost c: seq<Run>) returns (next: ListHead)
      requires Valid() && r.Live? && r.num > 0 && runs == a + [r] + c && b == Blocks(a)
      requires b < N() && hdr[b].list.next == Cursor(runs, |a| + 1)
      modifies `runs, Lists(), HeaderSet(0, N())
      ensures Valid() && runs == a + Frees(r.num) + c && next == Cursor(runs, |a| + r.num)
    {
      var save := hdr[b].list.next;
      CursorShift(a, r, c, |a| + r.num);
      var _ := MmFree(b, a, r, c);
      next := StepBack(save, |a| + r.num);
    }

    /** The cursor is taken back to the last of the blocks spliced in, and then moves on to where it was going. */
    method StepBack(save: ListHead, ghost i: nat) returns (next: ListHead)
      requires Valid() && 0 < i <= |runs| && save == Cursor(runs, i)
      ensures Valid() && next == Cursor(runs, i)
    {
      Walk(i - 1);
      var last := save.prev;
      next := last.next;
    }

    lemma StartOf(a: seq<Run>, r: Run, c: seq<Run>)
      ensures (a + [r] + c)[|a|] == r && Start(a + [r] + c, |a|) == Blocks(a)
    {
      assert (a + [r] + c)[..|a|] == a;
    }

    /** The header behind a run is the header behind the blocks it is split into. */
    lemma CursorShift(a: seq<Run>, r: Run, c: seq<Run>, i: nat)
      requires r.Live? && i == |a| + r.num && Blocks(a + [r] + c) < |hdr|
      ensures Blocks(a + Frees(r.num) + c) == Blocks(a + [r] + c)
      ensures Cursor(a + Frees(r.num) + c, i) == Cursor(a + [r] + c, |a| + 1)
    {
      var p, q := a + [r] + c, a + Frees(r.num) + c;
      LiveEffect(a, r, c);
      BlocksOne(r);
      BlocksFrees(r.num);
      BlocksAppend(a, [r]);
      BlocksAppend(a, Frees(r.num));
      assert p[..|a| + 1] == a + [r] && q[..i] == a + Frees(r.num);
    }

    /** One turn of the walk, with what is done and what is still to be looked at. */
    method FreeTurn(cursor: ListHead, pid: nat, ghost a: seq<Run>, ghost rest: seq<Run>, ghost goal: seq<Run>)
      returns (next: ListHead, ghost a': seq<Run>, ghost rest': seq<Run>)
      requires Valid() && pid != 0 && runs == a + rest && goal == a + FreedByPid(rest, pid)
      requires cursor == Cursor(runs, |a|) && cursor != head
      modifies `runs, Lists(), HeaderSet(0, N())
      ensures Valid() && runs == a' + rest' && goal == a' + FreedByPid(rest', pid)
      ensures next == Cursor(runs, |a'|) && |rest'| < |rest|
    {
      WalkEnd(runs, |a|);
      FreedStep(a, rest, pid);
      next := FreeIfTagged(cursor, pid, a, rest[0], rest[1..]);
      a', rest' := a + FreedRun(rest[0], pid), rest[1..];
    }

    /** wk_free_by_pid: the walk goes on behind the blocks it has just spliced in. */
    method WkFreeByPid(pid: nat)
      requires Valid()
      modifies `runs, Lists(), HeaderSet(0, N())
      ensures Valid()
      ensures runs == if pid == 0 then old(runs) else FreedByPid(old(runs), pid)
    {
      if pid == 0 {
        return;
      }
      ghost var a, rest, goal := [], runs, FreedByPid(runs, pid);
      WalkStart();
      var cursor := head.next;
      while cursor != head
        invariant Valid() && runs == a + rest && goal == a + FreedByPid(rest, pid)
        invariant cursor == Cursor(runs, |a|)
        decreases |rest|
      {
        cursor, a, rest := FreeTurn(cursor, pid, a, rest, goal);
      }
      WalkEnd(runs, |a|);
    }

    method ScribbleHeader(i: nat, ghost a: seq<Run>, ghost r: Run, ghost c: seq<Run>, ghost b: nat, ghost e: nat,
                          ghost q: seq<ListHead>)
      requires Layout() && b < i < e <= N()
      requires if e < N() then Beside(a, c, b, e) && Matches(hdr[b], r) && Ring(q) && hdr[i].list !in q else Severed(b)
      modifies hdr[i], hdr[i].list
      ensures if e < N() then Beside(a, c, b, e) && Matches(hdr[b], r) && Ring(q) else Severed(b)
    {
      if e < N() {
        NodesInside(a, 0);
        NodesInside(c, e);
      }
      FillHeaderAt(i);
    }

    /** Whoever holds a run may overwrite the headers inside it. The pool never looks at them. */
    method Scribble(i: nat, ghost a: seq<Run>, ghost r: Run, ghost c: seq<Run>, ghost b: nat, ghost e: nat)
      requires Layout() && r.Live? && runs == a + [r] + c && b == Blocks(a) && e == b + r.num && b < i < e <= N()
      requires Linked(b, e)
      modifies hdr[i], hdr[i].list
      ensures Linked(b, e)
    {
      ghost var q := [];
      if e < N() {
        OpenRun(i, a, r, c, b, e);
        q := [head] + Nodes(a, 0) + [hdr[b].list] + Nodes(c, e);
      }
      ScribbleHeader(i, a, r, c, b, e, q);
      if e < N() {
        CloseRun(a, r, c, b, e);
      }
    }

    lemma OpenRun(i: nat, a: seq<Run>, r: Run, c: seq<Run>, b: nat, e: nat)
      requires Valid() && r.Live? && runs == a + [r] + c && b == Blocks(a) && e == b + r.num && b < i < e <= N()
      ensures Beside(a, c, b, e) && Matches(hdr[b], r) && e + Blocks(c) == N() && r.num == Need(r.size)
      ensures Ring([head] + Nodes(a, 0) + [hdr[b].list] + Nodes(c, e))
      ensures hdr[i].list !in [head] + Nodes(a, 0) + [hdr[b].list] + Nodes(c, e)
    {
      RingAround(a, r, c, b, e);
      NotListed(i, a, 0);
      NotListed(i, c, e);
    }

    lemma RingAround(a: seq<Run>, r: Run, c: seq<Run>, b: nat, e: nat)
      requires Valid() && r.Live? && runs == a + [r] + c && b == Blocks(a) && e == b + r.num
      ensures b < e <= N() && Beside(a, c, b, e) && Matches(hdr[b], r) && e + Blocks(c) == N() && r.num == Need(r.size)
      ensures Ring([head] + Nodes(a, 0) + [hdr[b].list] + Nodes(c, e))
    {
      Around(a, r, c, b, e);
      assert [r][0] == r;
      RingParts([hdr[b].list], a, c, e);
    }

    lemma RingParts(m: seq<ListHead>, a: seq<Run>, c: seq<Run>, e: nat)
      requires Layout() && Blocks(a) <= N() && e + Blocks(c) == N() && Blocks(runs) == N()
      requires Ring([head] + Nodes(runs, 0)) && Nodes(runs, 0) == Nodes(a, 0) + m + Nodes(c, e)
      ensures Ring([head] + Nodes(a, 0) + m + Nodes(c, e))
    {
      assert [head] + Nodes(a, 0) + m + Nodes(c, e) == [head] + Nodes(runs, 0);
    }

    lemma NotListed(i: nat, rs: seq<Run>, at: nat)
      requires Layout() && i <= N() && WellFormed(rs) && at + Blocks(rs) < |hdr| && !(at <= i < at + Blocks(rs))
      ensures hdr[i].list !in Nodes(rs, at)
    {
      NodesInside(rs, at);
    }

    lemma CloseRun(a: seq<Run>, r: Run, c: seq<Run>, b: nat, e: nat)
      requires Layout() && r.Live? && r.num == Need(r.size) && runs == a + [r] + c && e == b + r.num
               && e + Blocks(c) == N()
      requires Beside(a, c, b, e) && Matches(hdr[b], r)
      requires Ring([head] + Nodes(a, 0) + [hdr[b].list] + Nodes(c, e))
      ensures Valid()
    {
      NodesOfOne(r, b);
      Assemble(a, [r], c, b, e);
    }

    /** The memset of stack_alloc, as far as it reaches headers: those inside the run that covers b, .., e - 1. */
    method Memset(b: nat, e: nat, ghost a: seq<Run>, ghost r: Run, ghost c: seq<Run>)
      requires Layout() && r.Live? && runs == a + [r] + c && b == Blocks(a) && e == b + r.num && b < e <= N()
      requires Linked(b, e)
      modifies Lists(), HeaderSet(0, N())
      ensures Linked(b, e)
    {
      var i := b + 1;
      while i < e
        invariant b < i <= e && Linked(b, e)
      {
        Scribble(i, a, r, c, b, e);
        i := i + 1;
      }
    }

    /**
     stack_alloc returns the last word of the stack. If there is no room the source goes on with the address
     NULL, and returns that word of it: it fills memory from address 0 on. The pool survives that if it ends before
     the first header, and does not if it goes past it. In between, the header is filled in part, and nothing is
     promised.
     */
    method StackAlloc(size: nat) returns (top: nat, ghost k: nat)
      requires Valid() && SmallPool(start, N()) && size < 0x1_0000_0000
      modifies `runs, Lists(), HeaderSet(0, N())
      ensures size % 4 != 0 ==> Valid() && top == 0 && runs == old(runs)
      ensures size % 4 == 0 && FirstFit(old(runs), Need(size), -1) ==>
                && runs == old(runs) && top == LastWord(0, size)
                && (size <= start ==> Valid()) && (size >= start + HEADER ==> !Valid())
      ensures size % 4 == 0 && !FirstFit(old(runs), Need(size), -1) ==>
                var live := Live(Need(size), 0, size, 0);
                && FirstFit(old(runs), Need(size), k) && runs == Allocated(old(runs), k, Need(size), live)
                && (Valid() <==> Start(old(runs), k) + Need(size) < N())
                && top == StackTop(start, Placed(Start(old(runs), k), live))
    {
      if size % 4 != 0 {
        return 0, 0;
      }
      var addr;
      addr, k := AllocOrFill(size);
      top := LastWord(addr, size);
    }

    method AllocOrFill(size: nat) returns (addr: nat, ghost k: nat)
      requires Valid() && SmallPool(start, N())
      modifies `runs, Lists(), HeaderSet(0, N())
      ensures addr == 0 ==>
                && FirstFit(old(runs), Need(size), -1) && runs == old(runs)
                && (size <= start ==> Valid()) && (size >= start + HEADER ==> !Valid())
      ensures addr != 0 ==>
                && !FirstFit(old(runs), Need(size), -1) && FirstFit(old(runs), Need(size), k)
                && (Valid() <==> Start(old(runs), k) + Need(size) < N())
                && addr == Payload(Start(old(runs), k))
                && runs == Allocated(old(runs), k, Need(size), Live(Need(size), 0, size, 0))
    {
      addr, k := AllocFilled(size);
      if addr != 0 {
        FitHere(old(runs), Need(size), k);
      } else {
        FillFromZero(size);
      }
    }

    /** memset(NULL, '*', size), as far as it reaches headers. */
    method FillFromZero(size: nat)
      requires Valid() && SmallPool(start, N())
      modifies Lists(), HeaderSet(0, N())
      ensures (size <= start ==> Valid()) && (size >= start + HEADER ==> !Valid())
    {
      if size > start {
        FillHeaders(size);
      }
    }

    method FillHeaders(size: nat)
      requires Valid() && start < size && SmallPool(start, N())
      modifies Lists(), HeaderSet(0, N())
      ensures !Valid()
    {
      var i := 0;
      while i + 1 < |hdr| && start + 128 * i < size
        invariant i < |hdr| && (i > 0 ==> hdr[0].blockNum == FILLED)
        decreases |hdr| - i
      {
        FillHeaderAt(i);
        i := i + 1;
      }
      FilledIsInvalid();
    }

    method FillHeaderAt(i: nat)
      requires Layout() && i < |hdr|
      modifies hdr[i], hdr[i].list
      ensures hdr[i].blockNum == FILLED
    {
      hdr[i].pid, hdr[i].size, hdr[i].blockNum, hdr[i].flag := FILLED, FILLED, FILLED, 0x2A;
      hdr[i].list.next, hdr[i].list.prev := wild, wild;
    }

    /** No run is as long as a word of '*' says. */
    lemma FilledIsInvalid()
      requires Layout() && SmallPool(start, N()) && hdr[0].blockNum == FILLED
      ensures !Valid()
    {
      if Valid() {
        FirstHeader();
        assert false;
      }
    }

    lemma FirstHeader()
      requires Valid()
      ensures runs != [] && Matches(hdr[0], runs[0]) && Span(runs[0]) <= N()
    {
      StartNext(runs, 0);
      StartsAscend(runs, 0, |runs|);
    }

    method AllocFilled(size: nat) returns (addr: nat, ghost k: nat)
      requires Valid() && start > 0
      modifies `runs, Lists(), HeaderSet(0, N())
      ensures addr == 0 ==> FirstFit(runs, Need(size), -1) && Valid() && runs == old(runs)
      ensures addr != 0 ==>
                && FirstFit(old(runs), Need(size), k) && addr == Payload(Start(old(runs), k))
                && runs == Allocated(old(runs), k, Need(size), Live(Need(size), 0, size, 0))
                && (Valid() <==> Start(old(runs), k) + Need(size) < N())
    {
      addr, k := WkAlloc(size, 0, 0);
      if addr != 0 {
        ghost var live := Live(Need(size), 0, size, 0);
        ghost var b := AllocatedExtent(old(runs), k, Need(size), live);
        FillRun(addr, size, b, old(runs)[..k], live, old(runs)[k + Need(size)..]);
      }
    }

    /** memset of a new run, which may be the last one of the pool. */
    method FillRun(addr: nat, size: nat, ghost at: nat, ghost a: seq<Run>, ghost r: Run, ghost c: seq<Run>)
      requires Layout() && r.Live? && r.num == Need(size) == Need(r.size) && runs == a + [r] + c
      requires Blocks(runs) == N() && at == Blocks(a) && addr == Payload(at) && Linked(at, at + Need(size))
      modifies Lists(), HeaderSet(0, N())
      ensures Valid() <==> at + Need(size) < N()
    {
      var b := (addr - HEADER - start) / 128;
      var e := b + Need(size);
      Extents(a, [r], c);
      BlocksOne(r);
      Memset(b, e, a, r, c);
      if e == N() && Valid() {
        LastClosesRing(a, r, c, b, e);
        assert false;
      }
    }

    /** stack_free, given the last word of the stack as stack_alloc returned it. */
    method StackFree(size: nat, top: nat, ghost k: nat) returns (status: int)
      requires Valid() && start > 0 && SmallPool(start, N())
      requires size % 4 == 0 && top >= size && top != 0 ==>
                 k < |runs| && runs[k].Live? && runs[k].size == size && top == Payload(Start(runs, k)) + size - 4
      modifies `runs, Lists(), HeaderSet(0, N())
      ensures Valid()
      ensures if size % 4 == 0 && top >= size && top != 0 then status == 0 && runs == FreedAt(old(runs), k)
              else status == -1 && runs == old(runs)
    {
      if size % 4 != 0 {
        return -1;
      }
      if top == 0 {
        return -1;
      }
      if top < size {
        return -1;
      }
      status := WkFree(top - size + 4, k);
    }

    /** What idle_task_handle does with a closed task: the stack goes, and then everything tagged with its pid. */
    method Reap(size: nat, top: nat, pid: nat, ghost k: nat)
      requires Valid() && start > 0 && SmallPool(start, N()) && pid != 0
      requires size % 4 == 0 && 0 < top && size <= top
      requires k < |runs| && runs[k].Live? && runs[k].size == size && top == Payload(Start(runs, k)) + size - 4
      modifies `runs, Lists(), HeaderSet(0, N())
      ensures Valid()
      ensures runs == FreedByPid(FreedAt(old(runs), k), pid)
    {
      var _ := StackFree(size, top, k);
      WkFreeByPid(pid);
    }

    /** mm_pool_init: the memory becomes free blocks, unless the pool in it is smaller than 20 kB. */
    method MmPoolInit(memStart: Word, memEnd: Word) returns (rc: int)
      requires hdr != [] && Memory(start, N()) == CheckMmPool(memStart, memEnd) && (N() > 0 ==> Layout())
      modifies this, Lists(), HeaderSet(0, N())
      ensures rc == if 128 * N() < 1024 * 20 then -1 else 0
      ensures rc == 0 ==> Valid() && runs == Frees(N())
    {
      if 128 * (|hdr| - 1) < 1024 * 20 {
        return -1;
      }
      InitListHead(head);
      FormatPool();
      BlocksFrees(0);
      AssembleFrees([], N(), [], 0, N());
      assert [] + Frees(N()) + [] == Frees(N());
      SetRuns(Frees(N()));
      return 0;
    }

    method FormatPool()
      requires Layout() && N() > 0 && Ring([head])
      modifies Lists(), HeaderSet(0, N())
      ensures Ring([head] + Nodes([], 0) + BlockNodes(0, N()) + Nodes([], N())) && Beside([], [], 0, N())
      ensures forall i :: 0 <= i < N() ==> Matches(hdr[i], Free)
    {
      var other := new ListHead();
      BlocksFrees(0);
      MmInit(0, |hdr| - 1, head, [other], [], []);
      Alone([head], Nodes([], 0), BlockNodes(0, N()), Nodes([], N()));
    }
  }
}
