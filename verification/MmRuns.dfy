/**
 The block allocator of mm/mm.c on values. The pool is a sequence of runs that tile it from its first
 block on: a free block is a run of its own, and an allocation is a run of as many blocks as it needs.
 */
module MmRuns {
  const HEADER: nat := 24

  datatype Run = Free | Live(num: nat, pid: nat, size: nat, flag: nat)

  /** A live run and the block it starts at. */
  datatype Placed = Placed(at: nat, run: Run)

  function Span(r: Run): nat {
    match r
    case Free => 1
    case Live(num, _, _, _) => num
  }

  /** The number of blocks that runs cover. */
  function Blocks(runs: seq<Run>): nat {
    if runs == [] then 0 else Span(runs[0]) + Blocks(runs[1..])
  }

  /** The block where the k-th run starts. */
  function Start(runs: seq<Run>, k: nat): (b: nat)
    requires k <= |runs|
    ensures b <= Blocks(runs)
  {
    BlocksAppend(runs[..k], runs[k..]);
    assert runs[..k] + runs[k..] == runs;
    Blocks(runs[..k])
  }

  /** The fewest blocks that hold a header and size bytes. */
  function Need(size: nat): (n: nat)
    ensures n >= 1 && size <= 128 * n - HEADER && (n > 1 ==> size > 128 * (n - 1) - HEADER)
  {
    (size + HEADER + 127) / 128
  }

  ghost predicate WellFormed(runs: seq<Run>) {
    forall i :: 0 <= i < |runs| && runs[i].Live? ==> runs[i].num == Need(runs[i].size)
  }

  function Frees(n: nat): (s: seq<Run>)
    ensures |s| == n && forall i :: 0 <= i < n ==> s[i] == Free
  {
    seq(n, _ => Free)
  }

  lemma {:induction false} BlocksAppend(a: seq<Run>, b: seq<Run>)
    ensures Blocks(a + b) == Blocks(a) + Blocks(b)
  {
    if a == [] {
      assert a + b == b;
    } else {
      assert (a + b)[1..] == a[1..] + b;
      BlocksAppend(a[1..], b);
    }
  }

  lemma {:induction false} BlocksFrees(n: nat)
    ensures Blocks(Frees(n)) == n
  {
    if n > 0 {
      assert Frees(n)[1..] == Frees(n - 1);
      BlocksFrees(n - 1);
    }
  }

  lemma BlocksOne(r: Run)
    ensures Blocks([r]) == Span(r)
  {
    assert Blocks([r]) == Span(r) + Blocks([]);
  }

  lemma StartNext(runs: seq<Run>, k: nat)
    requires k < |runs|
    ensures Start(runs, k + 1) == Start(runs, k) + Span(runs[k])
  {
    assert runs[..k + 1] == runs[..k] + [runs[k]];
    BlocksAppend(runs[..k], [runs[k]]);
    BlocksOne(runs[k]);
  }

  /** Runs of live allocations hold at least a block, so the starts go up, and by at least one a run. */
  lemma {:induction false} StartsAscend(runs: seq<Run>, j: nat, k: nat)
    requires WellFormed(runs) && j <= k <= |runs|
    ensures Start(runs, j) + (k - j) <= Start(runs, k) <= Blocks(runs)
    ensures j < k ==> Start(runs, j) + Span(runs[j]) <= Start(runs, k)
    decreases k - j
  {
    if j < k {
      StartNext(runs, j);
      StartsAscend(runs, j + 1, k);
    } else {
      BlocksAppend(runs[..k], runs[k..]);
      assert runs[..k] + runs[k..] == runs;
    }
  }

  lemma StartAppend(a: seq<Run>, b: seq<Run>, i: nat)
    requires i <= |a + b|
    ensures Start(a + b, i) == if i <= |a| then Start(a, i) else Blocks(a) + Start(b, i - |a|)
  {
    if i <= |a| {
      assert (a + b)[..i] == a[..i];
    } else {
      assert (a + b)[..i] == a + b[..i - |a|];
      BlocksAppend(a, b[..i - |a|]);
    }
  }

  lemma Extents(a: seq<Run>, b: seq<Run>, c: seq<Run>)
    ensures Blocks(a + b + c) == Blocks(a) + Blocks(b) + Blocks(c)
  {
    BlocksAppend(a + b, c);
    BlocksAppend(a, b);
  }

  /** The live runs with their places, for runs that start at the block at. */
  function Lives(runs: seq<Run>, at: nat): seq<Placed>
    decreases |runs|
  {
    if runs == [] then []
    else (if runs[0].Live? then [Placed(at, runs[0])] else []) + Lives(runs[1..], at + Span(runs[0]))
  }

  lemma {:induction false} LivesAppend(a: seq<Run>, b: seq<Run>, at: nat)
    ensures Lives(a + b, at) == Lives(a, at) + Lives(b, at + Blocks(a))
    decreases |a|
  {
    if a == [] {
      assert a + b == b;
    } else {
      assert (a + b)[1..] == a[1..] + b;
      LivesAppend(a[1..], b, at + Span(a[0]));
    }
  }

  lemma {:induction false} LivesFrees(n: nat, at: nat)
    ensures Lives(Frees(n), at) == []
    decreases n
  {
    if n > 0 {
      assert Frees(n)[1..] == Frees(n - 1);
      LivesFrees(n - 1, at + 1);
    }
  }

  lemma LivesOne(r: Run, at: nat)
    ensures Lives([r], at) == if r.Live? then [Placed(at, r)] else []
  {
    assert Lives([r], at) == (if r.Live? then [Placed(at, r)] else []) + Lives([], at + Span(r));
  }

  lemma LivesMiddle(a: seq<Run>, b: seq<Run>, c: seq<Run>)
    ensures Lives(a + b + c, 0) == Lives(a, 0) + Lives(b, Blocks(a)) + Lives(c, Blocks(a) + Blocks(b))
  {
    LivesAppend(a + b, c, 0);
    LivesAppend(a, b, 0);
    BlocksAppend(a, b);
  }

  function FreeCount(runs: seq<Run>): nat {
    if runs == [] then 0 else (if runs[0].Free? then 1 else 0) + FreeCount(runs[1..])
  }

  function LiveBlocks(lives: seq<Placed>): nat {
    if lives == [] then 0 else Span(lives[0].run) + LiveBlocks(lives[1..])
  }

  /** Free blocks and the blocks of live runs add up to the pool. */
  lemma {:induction false} BlocksConserved(runs: seq<Run>, at: nat)
    ensures FreeCount(runs) + LiveBlocks(Lives(runs, at)) == Blocks(runs)
    decreases |runs|
  {
    if runs != [] {
      var rest := Lives(runs[1..], at + Span(runs[0]));
      BlocksConserved(runs[1..], at + Span(runs[0]));
      if runs[0].Live? {
        assert Lives(runs, at) == [Placed(at, runs[0])] + rest;
        assert ([Placed(at, runs[0])] + rest)[1..] == rest;
      } else {
        assert Lives(runs, at) == rest;
      }
    }
  }

  /** A live run lies inside the extent of the runs it belongs to. */
  lemma {:induction false} LivesInside(runs: seq<Run>, at: nat, j: nat)
    requires j < |Lives(runs, at)|
    ensures var p := Lives(runs, at)[j];
            at <= p.at && p.at + Span(p.run) <= at + Blocks(runs) && p.run in runs && p.run.Live?
    decreases |runs|
  {
    var rest := Lives(runs[1..], at + Span(runs[0]));
    assert forall x :: x in runs[1..] ==> x in runs;
    if runs[0].Live? {
      assert Lives(runs, at) == [Placed(at, runs[0])] + rest;
      if j > 0 {
        assert Lives(runs, at)[j] == rest[j - 1];
        LivesInside(runs[1..], at + Span(runs[0]), j - 1);
      }
    } else {
      assert Lives(runs, at) == rest;
      LivesInside(runs[1..], at + Span(runs[0]), j);
    }
  }

  /** Live runs lie one behind the other, so no two payloads share a byte. */
  lemma {:induction false} LivesDisjoint(runs: seq<Run>, at: nat, i: nat, j: nat)
    requires i < j < |Lives(runs, at)|
    ensures var lives := Lives(runs, at); lives[i].at + Span(lives[i].run) <= lives[j].at
    decreases |runs|
  {
    var rest := Lives(runs[1..], at + Span(runs[0]));
    if runs[0].Live? {
      assert Lives(runs, at) == [Placed(at, runs[0])] + rest;
      if i == 0 {
        LivesInside(runs[1..], at + Span(runs[0]), j - 1);
      } else {
        LivesDisjoint(runs[1..], at + Span(runs[0]), i - 1, j - 1);
      }
    } else {
      assert Lives(runs, at) == rest;
      LivesDisjoint(runs[1..], at + Span(runs[0]), i, j);
    }
  }

  // ---------- allocation

  ghost predicate FitAt(runs: seq<Run>, k: nat, n: nat) {
    k + n <= |runs| && forall i :: k <= i < k + n ==> runs[i] == Free
  }

  /** Index of the first place for n consecutive free blocks, or -1: where first fit goes. */
  ghost predicate FirstFit(runs: seq<Run>, n: nat, k: int) {
    if k < 0 then k == -1 && forall i: nat :: !FitAt(runs, i, n)
    else FitAt(runs, k, n) && forall i: nat :: i < k ==> !FitAt(runs, i, n)
  }

  /**
   The state of the scan of __find_block in front of run i: the last num runs are free, the run before
   them is not, and no place for need blocks has been passed.
   */
  ghost predicate Scan(runs: seq<Run>, i: nat, num: nat, need: nat) {
    && num <= i <= |runs| && num < need
    && FitAt(runs, i - num, num) && Start(runs, i - num) + num == Start(runs, i)
    && (num < i ==> runs[i - num - 1].Live?)
    && (forall j: nat :: j + need <= i ==> !FitAt(runs, j, need))
  }

  lemma ScanStart(runs: seq<Run>, need: nat)
    requires need > 0
    ensures Scan(runs, 0, 0, need)
  {}

  lemma ScanStep(runs: seq<Run>, i: nat, num: nat, need: nat)
    requires Scan(runs, i, num, need) && i < |runs|
    ensures runs[i].Live? ==> Scan(runs, i + 1, 0, need)
    ensures runs[i].Free? && num + 1 < need ==> Scan(runs, i + 1, num + 1, need)
    ensures runs[i].Free? && num + 1 == need ==>
              FirstFit(runs, need, i + 1 - need) && Start(runs, i + 1 - need) == Start(runs, i) - num
  {
    StartNext(runs, i);
    forall j: nat | j + need == i + 1 && (runs[i].Live? || num + 1 < need)
      ensures !FitAt(runs, j, need)
    {
      if runs[i].Free? {
        assert runs[i - num - 1].Live? && j <= i - num - 1 < j + need;
      } else {
        assert j <= i < j + need;
      }
    }
  }

  lemma ScanEnd(runs: seq<Run>, num: nat, need: nat)
    requires Scan(runs, |runs|, num, need)
    ensures FirstFit(runs, need, -1)
  {}

  lemma NeedLeast(size: nat, n: nat)
    ensures n >= 1 && size <= 128 * n - HEADER <==> n >= Need(size)
  {}

  function Allocated(runs: seq<Run>, k: nat, n: nat, live: Run): seq<Run>
    requires k + n <= |runs|
  {
    runs[..k] + [live] + runs[k + n..]
  }

  lemma AllocatedParts(a: seq<Run>, n: nat, c: seq<Run>, live: Run)
    ensures Allocated(a + Frees(n) + c, |a|, n, live) == a + [live] + c
  {
    var runs := a + Frees(n) + c;
    assert runs[..|a|] == a && runs[|a| + n..] == c;
  }

  lemma AllocatedExtent(runs: seq<Run>, k: nat, n: nat, live: Run) returns (at: nat)
    requires FitAt(runs, k, n) && live.Live? && live.num == n
    ensures Allocated(runs, k, n, live) == runs[..k] + [live] + runs[k + n..]
    ensures Blocks(Allocated(runs, k, n, live)) == Blocks(runs) && Blocks(runs[..k]) == Start(runs, k) == at
  {
    FitSplit(runs, k, n);
    LiveEffect(runs[..k], live, runs[k + n..]);
    return Start(runs, k);
  }

  lemma FitSplit(runs: seq<Run>, k: nat, n: nat)
    requires FitAt(runs, k, n)
    ensures runs == runs[..k] + Frees(n) + runs[k + n..]
  {
    assert runs == runs[..k] + runs[k..k + n] + runs[k + n..];
    assert runs[k..k + n] == Frees(n);
  }

  /** Exchanging the middle part of the runs for another of the same extent. */
  lemma SwapEffect(a: seq<Run>, b: seq<Run>, b': seq<Run>, c: seq<Run>)
    requires Blocks(b) == Blocks(b')
    ensures Blocks(a + b' + c) == Blocks(a + b + c)
    ensures Lives(a + b + c, 0) == Lives(a, 0) + Lives(b, Blocks(a)) + Lives(c, Blocks(a) + Blocks(b))
    ensures Lives(a + b' + c, 0) == Lives(a, 0) + Lives(b', Blocks(a)) + Lives(c, Blocks(a) + Blocks(b))
  {
    Extents(a, b, c);
    Extents(a, b', c);
    LivesMiddle(a, b, c);
    LivesMiddle(a, b', c);
  }

  /**
   An allocation adds one live run, a release takes it out, and no other live run moves. Before or
   after, the pool has the same extent.
   */
  lemma LiveEffect(a: seq<Run>, live: Run, c: seq<Run>)
    requires live.Live?
    ensures Blocks(a + [live] + c) == Blocks(a + Frees(live.num) + c)
    ensures Lives(a + [live] + c, 0) == Lives(a, 0) + [Placed(Blocks(a), live)] + Lives(c, Blocks(a) + live.num)
    ensures Lives(a + Frees(live.num) + c, 0) == Lives(a, 0) + Lives(c, Blocks(a) + live.num)
  {
    BlocksOne(live);
    BlocksFrees(live.num);
    SwapEffect(a, [live], Frees(live.num), c);
    LivesFrees(live.num, Blocks(a));
    LivesOne(live, Blocks(a));
    assert Lives(a, 0) + [] == Lives(a, 0);
  }

  lemma WellFormedParts(a: seq<Run>, b: seq<Run>, c: seq<Run>)
    ensures WellFormed(a + b + c) <==> WellFormed(a) && WellFormed(b) && WellFormed(c)
  {
    var r := a + b + c;
    assert forall i :: 0 <= i < |a| ==> r[i] == a[i];
    assert forall i :: 0 <= i < |b| ==> r[|a| + i] == b[i];
    assert forall i :: 0 <= i < |c| ==> r[|a| + |b| + i] == c[i];
    if WellFormed(r) {
      forall i | 0 <= i < |b| && b[i].Live? ensures b[i].num == Need(b[i].size) {
        assert r[|a| + i].num == Need(r[|a| + i].size);
      }
      forall i | 0 <= i < |c| && c[i].Live? ensures c[i].num == Need(c[i].size) {
        assert r[|a| + |b| + i].num == Need(r[|a| + |b| + i].size);
      }
    }
  }

  // ---------- release

  function FreedAt(runs: seq<Run>, k: nat): seq<Run>
    requires k < |runs|
  {
    runs[..k] + Frees(Span(runs[k])) + runs[k + 1..]
  }

  /** Releasing what was just allocated gives the pool back as it was. */
  lemma FreeUndoesAlloc(runs: seq<Run>, k: nat, n: nat, live: Run)
    requires FitAt(runs, k, n) && live.Live? && live.num == n
    ensures FreedAt(Allocated(runs, k, n, live), k) == runs
  {
    FitSplit(runs, k, n);
    var runs' := Allocated(runs, k, n, live);
    assert runs'[..k] == runs[..k] && runs'[k + 1..] == runs[k + n..] && runs'[k] == live;
  }

  /** The pool after every run with the tag pid has been released. */
  function FreedByPid(runs: seq<Run>, pid: nat): seq<Run> {
    if runs == [] then []
    else (if runs[0].Live? && runs[0].pid == pid then Frees(runs[0].num) else [runs[0]]) + FreedByPid(runs[1..], pid)
  }

  function Untagged(lives: seq<Placed>, pid: nat): seq<Placed> {
    if lives == [] then []
    else (if lives[0].run.Live? && lives[0].run.pid == pid then [] else [lives[0]]) + Untagged(lives[1..], pid)
  }

  /** Releasing by pid takes exactly the runs with that tag out, wherever they are. */
  lemma {:induction false} FreeByPidEffect(runs: seq<Run>, pid: nat, at: nat)
    requires WellFormed(runs)
    ensures WellFormed(FreedByPid(runs, pid)) && Blocks(FreedByPid(runs, pid)) == Blocks(runs)
    ensures Lives(FreedByPid(runs, pid), at) == Untagged(Lives(runs, at), pid)
    decreases |runs|
  {
    if runs != [] {
      var r, rest, at' := runs[0], runs[1..], at + Span(runs[0]);
      FreeByPidEffect(rest, pid, at');
      var own := if r.Live? && r.pid == pid then Frees(r.num) else [r];
      BlocksAppend(own, FreedByPid(rest, pid));
      LivesAppend(own, FreedByPid(rest, pid), at);
      BlocksOne(r);
      LivesOne(r, at);
      if r.Live? && r.pid == pid {
        BlocksFrees(r.num);
        LivesFrees(r.num, at);
      }
      if r.Live? {
        assert Lives(runs, at) == [Placed(at, r)] + Lives(rest, at');
        assert ([Placed(at, r)] + Lives(rest, at'))[1..] == Lives(rest, at');
      } else {
        assert Lives(runs, at) == Lives(rest, at');
      }
    }
  }

  function FreedRun(r: Run, pid: nat): seq<Run> {
    if r.Live? && r.pid == pid then Frees(r.num) else [r]
  }

  /** The walk of wk_free_by_pid: a is done, rest is still to be looked at. */
  lemma FreedStep(a: seq<Run>, rest: seq<Run>, pid: nat)
    requires rest != []
    ensures a + rest == a + [rest[0]] + rest[1..]
    ensures a + FreedByPid(rest, pid) == (a + FreedRun(rest[0], pid)) + FreedByPid(rest[1..], pid)
  {}

  // ---------- every run of the allocator

  datatype Op = AllocOp(size: nat, flag: nat, pid: nat) | FreeOp(k: nat) | FreePidOp(pid: nat)

  /** One call. An allocation that ends with the pool is none: it leaves no header list for the next call. */
  ghost predicate Step(rs: seq<Run>, op: Op, rs': seq<Run>) {
    match op
    case AllocOp(size, flag, pid) =>
      var n := Need(size);
      (FirstFit(rs, n, -1) && rs' == rs)
      || (exists k: nat ::
            && FirstFit(rs, n, k) && Start(rs, k) + n < Blocks(rs)
            && rs' == Allocated(rs, k, n, Live(n, pid, size, flag)))
    case FreeOp(k) => k < |rs| && rs[k].Live? && rs' == FreedAt(rs, k)
    case FreePidOp(pid) => pid != 0 && rs' == FreedByPid(rs, pid)
  }

  ghost predicate Behavior(states: seq<seq<Run>>, ops: seq<Op>) {
    |states| == |ops| + 1 && forall i :: 0 <= i < |ops| ==> Step(states[i], ops[i], states[i + 1])
  }

  /**
   In every state of every run of allocations and releases, none of which ends with the pool, the runs tile the pool
   exactly, each is as large as its size needs, and free and live blocks add up to the pool.
   */
  lemma {:induction false} AlwaysTiled(states: seq<seq<Run>>, ops: seq<Op>, blocks: nat, i: nat)
    requires Behavior(states, ops) && states[0] == Frees(blocks) && i < |states|
    ensures WellFormed(states[i]) && Blocks(states[i]) == blocks
    ensures FreeCount(states[i]) + LiveBlocks(Lives(states[i], 0)) == blocks
  {
    if i == 0 {
      BlocksFrees(blocks);
    } else {
      AlwaysTiled(states, ops, blocks, i - 1);
      StepKeepsTiling(states[i - 1], ops[i - 1], states[i]);
    }
    BlocksConserved(states[i], 0);
  }

  lemma StepKeepsTiling(rs: seq<Run>, op: Op, rs': seq<Run>)
    requires WellFormed(rs) && Step(rs, op, rs')
    ensures WellFormed(rs') && Blocks(rs') == Blocks(rs)
  {
    match op
    case AllocOp(size, flag, pid) =>
      var n := Need(size);
      if rs' != rs {
        var k: nat :|
          && FirstFit(rs, n, k) && Start(rs, k) + n < Blocks(rs)
          && rs' == Allocated(rs, k, n, Live(n, pid, size, flag));
        AllocatedWell(rs, k, Live(n, pid, size, flag));
      }
    case FreeOp(k) =>
      FreedOne(rs, rs[..k], rs[k], rs[k + 1..]);
    case FreePidOp(pid) =>
      FreeByPidEffect(rs, pid, 0);
  }

  lemma FreedOne(rs: seq<Run>, a: seq<Run>, live: Run, c: seq<Run>)
    requires WellFormed(rs) && rs == a + [live] + c && live.Live?
    ensures WellFormed(a + Frees(live.num) + c) && Blocks(a + Frees(live.num) + c) == Blocks(rs)
  {
    LiveEffect(a, live, c);
    WellFormedParts(a, [live], c);
    WellFormedParts(a, Frees(live.num), c);
  }

  lemma AllocatedWell(rs: seq<Run>, k: nat, live: Run)
    requires WellFormed(rs) && live.Live? && live.num == Need(live.size) && FitAt(rs, k, live.num)
    ensures WellFormed(Allocated(rs, k, live.num, live)) && Blocks(Allocated(rs, k, live.num, live)) == Blocks(rs)
  {
    SwapOne(rs, rs[..k], live, rs[k + live.num..], k);
  }

  lemma SwapOne(rs: seq<Run>, a: seq<Run>, live: Run, c: seq<Run>, k: nat)
    requires WellFormed(rs) && live.Live? && live.num == Need(live.size) && FitAt(rs, k, live.num)
    requires a == rs[..k] && c == rs[k + live.num..]
    ensures WellFormed(a + [live] + c) && Blocks(a + [live] + c) == Blocks(rs)
  {
    FitSplit(rs, k, live.num);
    LiveEffect(a, live, c);
    WellFormedParts(a, Frees(live.num), c);
    WellFormedParts(a, [live], c);
  }

  /** The place that first fit finds, if any, ends before the pool does. */
  ghost predicate EndsInside(rs: seq<Run>, size: nat) {
    forall k: nat :: FirstFit(rs, Need(size), k) ==> Start(rs, k) + Need(size) < Blocks(rs)
  }

  lemma FitIsOne(rs: seq<Run>, n: nat, k: nat, j: int)
    requires FirstFit(rs, n, k) && FirstFit(rs, n, j)
    ensures j == k
  {
    assert FitAt(rs, k, n);
  }

  lemma FitHere(rs: seq<Run>, n: nat, k: nat)
    requires FirstFit(rs, n, k)
    ensures !FirstFit(rs, n, -1)
  {
    assert FitAt(rs, k, n);
  }

  /** An allocation is a step of a run if and only if its place ends before the pool does. */
  lemma AllocStepIff(rs: seq<Run>, size: nat, flag: nat, pid: nat, k: nat)
    requires FirstFit(rs, Need(size), k)
    ensures Step(rs, AllocOp(size, flag, pid), Allocated(rs, k, Need(size), Live(Need(size), pid, size, flag)))
            <==> EndsInside(rs, size)
    ensures EndsInside(rs, size) <==> Start(rs, k) + Need(size) < Blocks(rs)
  {
    forall j: int | FirstFit(rs, Need(size), j) ensures j == k {
      FitIsOne(rs, Need(size), k, j);
    }
  }

  /** In a pool of free blocks, it is the request for all of them that does not end inside, and no other. */
  lemma WholePoolIff(blocks: nat, size: nat)
    ensures EndsInside(Frees(blocks), size) <==> Need(size) != blocks
    ensures blocks > 0 ==> Need(128 * blocks - HEADER) == blocks
  {
    var rs := Frees(blocks);
    BlocksFrees(blocks);
    if Need(size) <= blocks {
      assert FirstFit(rs, Need(size), 0) && Start(rs, 0) == 0;
      AllocStepIff(rs, size, 0, 0, 0);
    }
  }

  // ---------- stacks and pids

  /** kernel/pid.c: the pid of a task comes from the address of its stack, relative to the pool, times 4 in 32 bits. */
  function PidAlloc(addr: nat, poolStart: nat): nat {
    if addr > poolStart + HEADER then (addr - poolStart - HEADER) * 4 % 0x1_0000_0000 else 0
  }

  /** The last word of a stack, in 32 bits. */
  function LastWord(addr: nat, size: nat): nat {
    (addr + size + 0x1_0000_0000 - 4) % 0x1_0000_0000
  }

  /** What stack_alloc returns for a run: stacks grow down, so it is the last word of the payload. */
  function StackTop(poolStart: nat, p: Placed): nat
    requires p.run.Live?
  {
    LastWord(poolStart + 128 * p.at + HEADER, p.run.size)
  }

  /** The pool lies in the 32-bit address space, and its size times 4 fits 32 bits. */
  ghost predicate SmallPool(poolStart: nat, blocks: nat) {
    4 <= poolStart && poolStart + 128 * blocks < 0x1_0000_0000 && 128 * blocks * 4 < 0x1_0000_0000
  }

  lemma StackTopInside(runs: seq<Run>, poolStart: nat, i: nat)
    requires WellFormed(runs) && SmallPool(poolStart, Blocks(runs)) && i < |Lives(runs, 0)|
    ensures var p := Lives(runs, 0)[i];
            && p.run.Live?
            && StackTop(poolStart, p) == poolStart + 128 * p.at + HEADER + p.run.size - 4
            && poolStart + 128 * p.at + 20 <= StackTop(poolStart, p) < poolStart + 128 * (p.at + Span(p.run))
            && p.at + Span(p.run) <= Blocks(runs)
  {
    LivesInside(runs, 0, i);
    var p := Lives(runs, 0)[i];
    var k :| 0 <= k < |runs| && runs[k] == p.run;
    assert runs[k].num == Need(runs[k].size);
  }

  /**
   Tasks that are alive at the same time have different pids, and none has the pid 0 if its stack is larger than a
   word.
   */
  lemma PidsDistinct(runs: seq<Run>, poolStart: nat, i: nat, j: nat)
    requires WellFormed(runs) && SmallPool(poolStart, Blocks(runs)) && i < j < |Lives(runs, 0)|
    requires Lives(runs, 0)[i].run.Live? && Lives(runs, 0)[j].run.Live?
    requires Lives(runs, 0)[i].run.size > 4
    ensures var p, q := Lives(runs, 0)[i], Lives(runs, 0)[j];
            var pid, pid' := PidAlloc(StackTop(poolStart, p), poolStart), PidAlloc(StackTop(poolStart, q), poolStart);
            pid != 0 && pid' != 0 && pid != pid'
  {
    StackTopInside(runs, poolStart, i);
    StackTopInside(runs, poolStart, j);
    LivesDisjoint(runs, 0, i, j);
    var p, q := Lives(runs, 0)[i], Lives(runs, 0)[j];
    var x, y := StackTop(poolStart, p) - poolStart - HEADER, StackTop(poolStart, q) - poolStart - HEADER;
    assert 0 < x < y && y * 4 < 0x1_0000_0000;
    assert x * 4 % 0x1_0000_0000 == x * 4 && y * 4 % 0x1_0000_0000 == y * 4;
  }

  /** Reaping a task: its stack and everything tagged with its pid leaves the live runs, and nothing else does. */
  lemma ReapEffect(a: seq<Run>, stack: Run, c: seq<Run>, pid: nat)
    requires stack.Live? && WellFormed(a + [stack] + c)
    ensures var runs, runs' := a + [stack] + c, FreedByPid(a + Frees(stack.num) + c, pid);
            && WellFormed(runs') && Blocks(runs') == Blocks(runs)
            && Lives(runs, 0) == Lives(a, 0) + [Placed(Blocks(a), stack)] + Lives(c, Blocks(a) + stack.num)
            && Lives(runs', 0) == Untagged(Lives(a, 0) + Lives(c, Blocks(a) + stack.num), pid)
  {
    LiveEffect(a, stack, c);
    WellFormedParts(a, [stack], c);
    WellFormedParts(a, Frees(stack.num), c);
    FreeByPidEffect(a + Frees(stack.num) + c, pid, 0);
  }
}
