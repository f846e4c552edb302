/**
 The memory of tasks: a stack, a pid made from its address, and everything tagged with that pid belong together
 over whole runs, so that reaping a task takes its own memory and nothing of another.
 */
module TaskMemory {
  import opened MmRuns

  /** What a task that has not been reaped owns. Its struct is one of the runs tagged with its pid. */
  datatype Owner = Owner(stack: Placed, pid: nat)

  datatype Memory = Memory(runs: seq<Run>, tasks: seq<Owner>)

  // ---------- single operations

  ghost predicate Full(rs: seq<Run>, size: nat) {
    FirstFit(rs, Need(size), -1)
  }

  /** First fit places a run p, which ends before the pool does. */
  ghost predicate Allocates(rs: seq<Run>, size: nat, flag: nat, pid: nat, rs': seq<Run>, p: Placed) {
    && p.run == Live(Need(size), pid, size, flag) && p.at + Need(size) < Blocks(rs)
    && exists k: nat ::
         FirstFit(rs, Need(size), k) && p.at == Start(rs, k) && rs' == Allocated(rs, k, Need(size), p.run)
  }

  /** The run p is released. */
  ghost predicate Releases(rs: seq<Run>, p: Placed, rs': seq<Run>) {
    p.run.Live? && exists k: nat :: k < |rs| && rs[k] == p.run && Start(rs, k) == p.at && rs' == FreedAt(rs, k)
  }

  lemma AllocatesOne(rs: seq<Run>, size: nat, flag: nat, pid: nat, rs': seq<Run>, p: Placed)
    requires WellFormed(rs) && Allocates(rs, size, flag, pid, rs', p)
    ensures WellFormed(rs') && Blocks(rs') == Blocks(rs)
    ensures forall q :: q in Lives(rs', 0) <==> q in Lives(rs, 0) || q == p
    ensures p !in Lives(rs, 0)
  {
    var n := Need(size);
    var k: nat :| FirstFit(rs, n, k) && p.at == Start(rs, k) && rs' == Allocated(rs, k, n, p.run);
    var a, c := rs[..k], rs[k + n..];
    FitSplit(rs, k, n);
    SwapOne(rs, a, p.run, c, k);
    InAndOut(a, p, c);
  }

  /** The live runs with p and without it. */
  lemma InAndOut(a: seq<Run>, p: Placed, c: seq<Run>)
    requires p.run.Live? && p.run.num > 0 && p.at == Blocks(a)
    ensures forall q :: q in Lives(a + [p.run] + c, 0) <==> q in Lives(a + Frees(p.run.num) + c, 0) || q == p
    ensures p !in Lives(a + Frees(p.run.num) + c, 0)
  {
    LiveEffect(a, p.run, c);
    NotAround(a, p, c);
  }

  /** No live run before or behind a place is at that place. */
  lemma NotAround(a: seq<Run>, p: Placed, c: seq<Run>)
    requires p.run.Live? && p.run.num > 0 && p.at == Blocks(a)
    ensures p !in Lives(a, 0) && p !in Lives(c, p.at + p.run.num)
  {
    if p in Lives(a, 0) {
      var i :| 0 <= i < |Lives(a, 0)| && Lives(a, 0)[i] == p;
      LivesInside(a, 0, i);
    }
    if p in Lives(c, p.at + p.run.num) {
      var i :| 0 <= i < |Lives(c, p.at + p.run.num)| && Lives(c, p.at + p.run.num)[i] == p;
      LivesInside(c, p.at + p.run.num, i);
    }
  }

  lemma ReleasesOne(rs: seq<Run>, p: Placed, rs': seq<Run>)
    requires WellFormed(rs) && Releases(rs, p, rs')
    ensures WellFormed(rs') && Blocks(rs') == Blocks(rs)
    ensures forall q :: q in Lives(rs', 0) <==> q in Lives(rs, 0) && q != p
    ensures p in Lives(rs, 0)
  {
    var k: nat :| k < |rs| && rs[k] == p.run && Start(rs, k) == p.at && rs' == FreedAt(rs, k);
    var a, c := rs[..k], rs[k + 1..];
    SplitAt(rs, k);
    InAndOut(a, p, c);
    StepKeepsTiling(rs, FreeOp(k), rs');
  }

  lemma SplitAt(rs: seq<Run>, k: nat)
    requires WellFormed(rs) && k < |rs| && rs[k].Live?
    ensures rs == rs[..k] + [rs[k]] + rs[k + 1..] && rs[k].num > 0
            && FreedAt(rs, k) == rs[..k] + Frees(rs[k].num) + rs[k + 1..]
  {}

  lemma {:induction false} UntaggedIn(lives: seq<Placed>, pid: nat)
    ensures forall q :: q in Untagged(lives, pid) <==> q in lives && !(q.run.Live? && q.run.pid == pid)
  {
    if lives != [] {
      UntaggedIn(lives[1..], pid);
    }
  }

  // ---------- steps

  datatype Op =
    | Create(size: nat, structSize: nat)
    | Take(size: nat, flag: nat, t: nat)
    | TakeUntagged(size: nat, flag: nat)
    | Drop(p: Placed)
    | Reap(t: nat)

  function Pid(start: nat, stack: Placed): nat
    requires stack.run.Live?
  {
    PidAlloc(StackTop(start, stack), start)
  }

  /** task_create comes to its end. */
  ghost predicate Creates(start: nat, m: Memory, size: nat, structSize: nat, m': Memory) {
    exists mid, stack, block ::
      && size % 4 == 0 && Allocates(m.runs, size, 0, 0, mid, stack) && Pid(start, stack) != 0
      && Allocates(mid, structSize, 0, Pid(start, stack), m'.runs, block)
      && m'.tasks == m.tasks + [Owner(stack, Pid(start, stack))]
  }

  /**
   One of its three steps fails. The stack is given back if there is one. Without one there is no pid either, and
   nothing to give back, as long as the size is neither 0 nor above the start of the pool: `NoStack`.
   */
  ghost predicate CreateFails(start: nat, m: Memory, size: nat, structSize: nat, m': Memory) {
    && m'.tasks == m.tasks
    && (|| ((size % 4 != 0 || (0 < size <= start && Full(m.runs, size))) && m'.runs == m.runs)
        || exists mid, stack ::
             && Allocates(m.runs, size, 0, 0, mid, stack) && (Pid(start, stack) == 0 || Full(mid, structSize))
             && Releases(mid, stack, m'.runs))
  }

  /** stack_free's tests on an address: whether it goes on to free what is there. */
  predicate GivesBack(size: nat, top: nat) {
    size % 4 == 0 && top != 0 && top >= size
  }

  /**
   A failed stack_alloc returns the last word of a stack at address 0. Giving that back frees nothing if and only if
   there is a size. There is no pid for it if and only if it is not behind the first header of the pool, or as far
   behind it as 32 bits drop.
   */
  lemma NoStack(start: nat, size: nat)
    requires size % 4 == 0 && size < 0x1_0000_0000 && start + HEADER < 0xFFFF_FFFC
    ensures GivesBack(size, LastWord(0, size)) <==> size == 0
    ensures PidAlloc(LastWord(0, size), start) == 0 <==>
              0 < size <= start + HEADER + 4 || (LastWord(0, size) - start - HEADER) % 0x4000_0000 == 0
  {
    var top := LastWord(0, size);
    assert top == if size == 0 then 0xFFFF_FFFC else size - 4;
    if top > start + HEADER {
      TimesFour(top - start - HEADER);
    }
  }

  lemma TimesFour(x: nat)
    ensures x * 4 % 0x1_0000_0000 == 0 <==> x % 0x4000_0000 == 0
  {
    var q, r := x / 0x4000_0000, x % 0x4000_0000;
    assert x * 4 == q * 0x1_0000_0000 + r * 4;
  }

  /** With no size and a pool at 0x2000_0000, a task that got no stack gets a pid, and gives back what it has not. */
  lemma NoStackNoSize()
    ensures var top := LastWord(0, 0); PidAlloc(top, 0x2000_0000) != 0 && GivesBack(0, top)
  {}

  ghost predicate Step(start: nat, m: Memory, op: Op, m': Memory) {
    match op
    case Create(size, structSize) =>
      Creates(start, m, size, structSize, m') || CreateFails(start, m, size, structSize, m')
    case Take(size, flag, t) =>
      && t < |m.tasks| && m'.tasks == m.tasks
      && (m'.runs == m.runs || exists p :: Allocates(m.runs, size, flag, m.tasks[t].pid, m'.runs, p))
    case TakeUntagged(size, flag) =>
      m'.tasks == m.tasks && (m'.runs == m.runs || exists p :: Allocates(m.runs, size, flag, 0, m'.runs, p))
    case Drop(p) =>
      m'.tasks == m.tasks && (forall t :: 0 <= t < |m.tasks| ==> m.tasks[t].stack != p) && Releases(m.runs, p, m'.runs)
    case Reap(t) =>
      && t < |m.tasks| && m'.tasks == m.tasks[..t] + m.tasks[t + 1..]
      && exists mid :: Releases(m.runs, m.tasks[t].stack, mid) && m'.runs == FreedByPid(mid, m.tasks[t].pid)
  }

  // ---------- the invariant

  ghost predicate OwnerOk(start: nat, runs: seq<Run>, o: Owner) {
    o.stack in Lives(runs, 0) && o.stack.run.Live? && o.stack.run.pid == 0 && o.pid == Pid(start, o.stack) != 0
  }

  ghost predicate Inv(start: nat, m: Memory) {
    && WellFormed(m.runs) && SmallPool(start, Blocks(m.runs))
    && (forall t :: 0 <= t < |m.tasks| ==> OwnerOk(start, m.runs, m.tasks[t]))
    && (forall t, u :: 0 <= t < u < |m.tasks| ==> m.tasks[t].stack != m.tasks[u].stack)
    && (forall p :: p in Lives(m.runs, 0) && p.run.Live? && p.run.pid != 0 ==> Owned(m.tasks, p.run.pid))
  }

  ghost predicate Owned(tasks: seq<Owner>, pid: nat) {
    exists t :: 0 <= t < |tasks| && tasks[t].pid == pid
  }

  /** Different stacks give different pids, unless one of them is too short to give any. */
  lemma PidsDiffer(start: nat, runs: seq<Run>, p: Placed, q: Placed)
    requires WellFormed(runs) && SmallPool(start, Blocks(runs)) && p in Lives(runs, 0) && q in Lives(runs, 0) && p != q
    ensures p.run.Live? && q.run.Live?
    ensures Pid(start, p) != 0 && Pid(start, q) != 0 ==> Pid(start, p) != Pid(start, q)
  {
    var i :| 0 <= i < |Lives(runs, 0)| && Lives(runs, 0)[i] == p;
    var j :| 0 <= j < |Lives(runs, 0)| && Lives(runs, 0)[j] == q;
    StackTopInside(runs, start, i);
    StackTopInside(runs, start, j);
    if i < j {
      LivesDisjoint(runs, 0, i, j);
      TopsDiffer(start, StackTop(start, p), StackTop(start, q));
    } else {
      LivesDisjoint(runs, 0, j, i);
      TopsDiffer(start, StackTop(start, q), StackTop(start, p));
    }
  }

  lemma TopsDiffer(start: nat, x: nat, y: nat)
    requires x < y < start + 0x4000_0000
    ensures PidAlloc(x, start) != 0 && PidAlloc(y, start) != 0 ==> PidAlloc(x, start) != PidAlloc(y, start)
  {
    var a, b := x - start - HEADER, y - start - HEADER;
    if a > 0 {
      assert a * 4 % 0x1_0000_0000 == a * 4 && b * 4 % 0x1_0000_0000 == b * 4;
    }
  }

  lemma OwnersDiffer(start: nat, m: Memory, t: nat, u: nat)
    requires Inv(start, m) && t < |m.tasks| && u < |m.tasks| && t != u
    ensures m.tasks[t].pid != m.tasks[u].pid && m.tasks[t].stack != m.tasks[u].stack
  {
    assert OwnerOk(start, m.runs, m.tasks[t]) && OwnerOk(start, m.runs, m.tasks[u]);
    PidsDiffer(start, m.runs, m.tasks[t].stack, m.tasks[u].stack);
  }

  /** A run with a tag that somebody owns, or none, is added. */
  lemma AddKeeps(start: nat, m: Memory, m': Memory, p: Placed)
    requires Inv(start, m) && m'.tasks == m.tasks && WellFormed(m'.runs) && Blocks(m'.runs) == Blocks(m.runs)
    requires forall q :: q in Lives(m'.runs, 0) <==> q in Lives(m.runs, 0) || q == p
    requires p.run.Live? && (p.run.pid == 0 || Owned(m.tasks, p.run.pid))
    ensures Inv(start, m')
  {
    forall t | 0 <= t < |m'.tasks| ensures OwnerOk(start, m'.runs, m'.tasks[t]) {
      assert OwnerOk(start, m.runs, m.tasks[t]);
    }
  }

  lemma DropKeeps(start: nat, m: Memory, m': Memory, p: Placed)
    requires Inv(start, m) && m'.tasks == m.tasks && WellFormed(m'.runs) && Blocks(m'.runs) == Blocks(m.runs)
    requires forall q :: q in Lives(m'.runs, 0) <==> q in Lives(m.runs, 0) && q != p
    requires forall t :: 0 <= t < |m.tasks| ==> m.tasks[t].stack != p
    ensures Inv(start, m')
  {
    forall t | 0 <= t < |m'.tasks| ensures OwnerOk(start, m'.runs, m'.tasks[t]) {
      assert OwnerOk(start, m.runs, m.tasks[t]);
    }
  }

  /** The new stack gives the new task its pid. */
  lemma OwnerKeeps(start: nat, m: Memory, stack: Placed)
    requires Inv(start, m) && stack in Lives(m.runs, 0) && stack.run.Live? && stack.run.pid == 0
             && Pid(start, stack) != 0
    requires forall t :: 0 <= t < |m.tasks| ==> m.tasks[t].stack != stack
    ensures Inv(start, m.(tasks := m.tasks + [Owner(stack, Pid(start, stack))]))
  {
    var tasks := m.tasks + [Owner(stack, Pid(start, stack))];
    forall t | 0 <= t < |tasks| ensures OwnerOk(start, m.runs, tasks[t]) {
      assert t < |m.tasks| ==> OwnerOk(start, m.runs, m.tasks[t]);
    }
    forall p | p in Lives(m.runs, 0) && p.run.Live? && p.run.pid != 0 ensures Owned(tasks, p.run.pid) {
      var t :| 0 <= t < |m.tasks| && m.tasks[t].pid == p.run.pid;
      assert tasks[t].pid == p.run.pid;
    }
  }

  lemma CreateKeeps(start: nat, m: Memory, size: nat, structSize: nat, m': Memory)
    requires Inv(start, m) && Creates(start, m, size, structSize, m')
    ensures Inv(start, m')
  {
    var mid, stack, block :|
      && size % 4 == 0 && Allocates(m.runs, size, 0, 0, mid, stack) && Pid(start, stack) != 0
      && Allocates(mid, structSize, 0, Pid(start, stack), m'.runs, block)
      && m'.tasks == m.tasks + [Owner(stack, Pid(start, stack))];
    AllocatesOne(m.runs, size, 0, 0, mid, stack);
    AddKeeps(start, m, m.(runs := mid), stack);
    NewStack(start, m, stack);
    OwnerKeeps(start, m.(runs := mid), stack);
    AllocatesOne(mid, structSize, 0, Pid(start, stack), m'.runs, block);
    assert m'.tasks[|m.tasks|].pid == Pid(start, stack);
    AddKeeps(start, Memory(mid, m'.tasks), m', block);
  }

  lemma NewStack(start: nat, m: Memory, stack: Placed)
    requires Inv(start, m) && stack !in Lives(m.runs, 0)
    ensures forall t :: 0 <= t < |m.tasks| ==> m.tasks[t].stack != stack
  {
    forall t | 0 <= t < |m.tasks| ensures m.tasks[t].stack != stack {
      assert OwnerOk(start, m.runs, m.tasks[t]);
    }
  }

  /** A creation that fails leaves the live runs as they were. */
  lemma FailKeeps(start: nat, m: Memory, size: nat, structSize: nat, m': Memory)
    requires Inv(start, m) && CreateFails(start, m, size, structSize, m')
    ensures Inv(start, m') && forall q :: q in Lives(m'.runs, 0) <==> q in Lives(m.runs, 0)
  {
    if m'.runs != m.runs {
      var mid, stack :| && Allocates(m.runs, size, 0, 0, mid, stack)
        && (Pid(start, stack) == 0 || Full(mid, structSize))
                        && Releases(mid, stack, m'.runs);
      AllocatesOne(m.runs, size, 0, 0, mid, stack);
      AddKeeps(start, m, m.(runs := mid), stack);
      NewStack(start, m, stack);
      ReleasesOne(mid, stack, m'.runs);
      DropKeeps(start, m.(runs := mid), m', stack);
    }
  }

  /** Reaping a task takes its stack and the runs with its tag, and no other. */
  lemma ReapTakes(start: nat, m: Memory, t: nat, m': Memory)
    requires Inv(start, m) && Step(start, m, Reap(t), m')
    ensures WellFormed(m'.runs) && Blocks(m'.runs) == Blocks(m.runs)
    ensures forall q :: q in Lives(m'.runs, 0) <==>
                          q in Lives(m.runs, 0) && q != m.tasks[t].stack
                            && !(q.run.Live? && q.run.pid == m.tasks[t].pid)
  {
    var mid :| Releases(m.runs, m.tasks[t].stack, mid) && m'.runs == FreedByPid(mid, m.tasks[t].pid);
    ReleasesOne(m.runs, m.tasks[t].stack, mid);
    FreeByPidEffect(mid, m.tasks[t].pid, 0);
    UntaggedIn(Lives(mid, 0), m.tasks[t].pid);
  }

  /**
   Nothing of another task goes: its stack stays, and so does every run with its tag. Nothing of the reaped task is
   left.
   */
  lemma ReapTakesOwn(start: nat, m: Memory, t: nat, m': Memory)
    requires Inv(start, m) && Step(start, m, Reap(t), m')
    ensures ReapsOwn(m, t, m')
  {
    ReapTakes(start, m, t, m');
    assert OwnerOk(start, m.runs, m.tasks[t]);
    forall u | 0 <= u < |m.tasks| && u != t ensures Untouched(m, m', m.tasks[u]) {
      assert OwnerOk(start, m.runs, m.tasks[u]);
      OwnersDiffer(start, m, t, u);
    }
  }

  /** And what belongs together still does. */
  lemma ReapKeeps(start: nat, m: Memory, t: nat, m': Memory)
    requires Inv(start, m) && Step(start, m, Reap(t), m')
    ensures Inv(start, m')
  {
    ReapTakes(start, m, t, m');
    forall i | 0 <= i < |m'.tasks| ensures OwnerOk(start, m'.runs, m'.tasks[i]) {
      var u := if i < t then i else i + 1;
      assert m'.tasks[i] == m.tasks[u];
      assert OwnerOk(start, m.runs, m.tasks[u]) && OwnerOk(start, m.runs, m.tasks[t]);
      OwnersDiffer(start, m, t, u);
    }
    OthersDiffer(m.tasks, t);
    forall q | q in Lives(m'.runs, 0) && q.run.Live? && q.run.pid != 0 ensures Owned(m'.tasks, q.run.pid) {
      OtherOwner(m.tasks, t, q.run.pid);
    }
  }

  lemma OthersDiffer(tasks: seq<Owner>, t: nat)
    requires t < |tasks| && forall i, j :: 0 <= i < j < |tasks| ==> tasks[i].stack != tasks[j].stack
    ensures var others := tasks[..t] + tasks[t + 1..];
            forall i, j :: 0 <= i < j < |others| ==> others[i].stack != others[j].stack
  {
    var others := tasks[..t] + tasks[t + 1..];
    forall i | 0 <= i < |others| ensures others[i] == tasks[if i < t then i else i + 1] {}
  }

  lemma OtherOwner(tasks: seq<Owner>, t: nat, pid: nat)
    requires t < |tasks| && Owned(tasks, pid) && pid != tasks[t].pid
    ensures Owned(tasks[..t] + tasks[t + 1..], pid)
  {
    var u :| 0 <= u < |tasks| && tasks[u].pid == pid;
    assert (tasks[..t] + tasks[t + 1..])[if u < t then u else u - 1] == tasks[u];
  }

  ghost predicate ReapsOwn(m: Memory, t: nat, m': Memory) {
    && t < |m.tasks| && m.tasks[t].stack !in Lives(m'.runs, 0)
    && (forall q :: q in Lives(m'.runs, 0) && q.run.Live? ==> q.run.pid != m.tasks[t].pid)
    && forall u :: 0 <= u < |m.tasks| && u != t ==> Untouched(m, m', m.tasks[u])
  }

  ghost predicate Untouched(m: Memory, m': Memory, o: Owner) {
    && o.stack in Lives(m'.runs, 0)
    && forall q :: q in Lives(m.runs, 0) && q.run.Live? && q.run.pid == o.pid ==> q in Lives(m'.runs, 0)
  }

  lemma StepKeeps(start: nat, m: Memory, op: Op, m': Memory)
    requires Inv(start, m) && Step(start, m, op, m')
    ensures Inv(start, m')
  {
    match op
    case Create(size, structSize) =>
      if Creates(start, m, size, structSize, m') {
        CreateKeeps(start, m, size, structSize, m');
      } else {
        FailKeeps(start, m, size, structSize, m');
      }
    case Take(size, flag, t) =>
      if m'.runs != m.runs {
        var p :| Allocates(m.runs, size, flag, m.tasks[t].pid, m'.runs, p);
        AllocatesOne(m.runs, size, flag, m.tasks[t].pid, m'.runs, p);
        AddKeeps(start, m, m', p);
      }
    case TakeUntagged(size, flag) =>
      if m'.runs != m.runs {
        var p :| Allocates(m.runs, size, flag, 0, m'.runs, p);
        AllocatesOne(m.runs, size, flag, 0, m'.runs, p);
        AddKeeps(start, m, m', p);
      }
    case Drop(p) =>
      ReleasesOne(m.runs, p, m'.runs);
      DropKeeps(start, m, m', p);
    case Reap(t) => ReapKeeps(start, m, t, m');
  }

  ghost predicate Behavior(start: nat, states: seq<Memory>, ops: seq<Op>) {
    |states| == |ops| + 1 && forall i :: 0 <= i < |ops| ==> Step(start, states[i], ops[i], states[i + 1])
  }

  lemma {:induction false} RunKeeps(start: nat, blocks: nat, states: seq<Memory>, ops: seq<Op>, i: nat)
    requires SmallPool(start, blocks) && Behavior(start, states, ops) && states[0] == Memory(Frees(blocks), [])
             && i < |states|
    ensures Inv(start, states[i])
  {
    if i == 0 {
      BlocksFrees(blocks);
      LivesFrees(blocks, 0);
    } else {
      RunKeeps(start, blocks, states, ops, i - 1);
      StepKeeps(start, states[i - 1], ops[i - 1], states[i]);
    }
  }

  /**
   Over every run from an empty pool: the tasks have different pids, each made from the stack that the task owns,
   and a step that reaps a task takes its stack and the runs with its tag, while all that is another's stays.
   */
  lemma TasksKeepTheirOwn(start: nat, blocks: nat, states: seq<Memory>, ops: seq<Op>, i: nat)
    requires SmallPool(start, blocks) && Behavior(start, states, ops) && states[0] == Memory(Frees(blocks), [])
             && i < |states|
    ensures Inv(start, states[i])
    ensures forall t, u :: 0 <= t < u < |states[i].tasks| ==> states[i].tasks[t].pid != states[i].tasks[u].pid
    ensures i < |ops| && ops[i].Reap? ==> ReapsOwn(states[i], ops[i].t, states[i + 1])
  {
    RunKeeps(start, blocks, states, ops, i);
    forall t, u | 0 <= t < u < |states[i].tasks| ensures states[i].tasks[t].pid != states[i].tasks[u].pid {
      OwnersDiffer(start, states[i], t, u);
    }
    if i < |ops| && ops[i].Reap? {
      ReapTakesOwn(start, states[i], ops[i].t, states[i + 1]);
    }
  }
}
