/** States that runs from the start of the system reach: a broken time slice, and two sends that nobody gets. */
module Scenarios {
  import opened Queues
  import opened Bitmap
  import ReadyTable
  import opened Tasks
  import opened Scheduling
  import opened RoundRobin
  import opened Semaphore
  import opened Sends
  import Slicing
  import Sleeping
  import Timers

  function AfterInit(): Kernel {
    Kernel([], ReadyTable.InitFlat(32), [], Timers.State(0, [], 0, []), -1, 0)
  }

  ghost predicate Reachable(k: Kernel, idle: nat) {
    exists ops :: Behavior(AfterInit(), ops, idle) && Run(AfterInit(), ops, idle) == k
  }

  lemma {:induction false} OneMore(k: Kernel, ops: seq<Op>, op: Op, idle: nat)
    requires Behavior(k, ops, idle) && Allowed(Run(k, ops, idle), op, idle)
    ensures Behavior(k, ops + [op], idle) && Run(k, ops + [op], idle) == Step(Run(k, ops, idle), op)
    decreases |ops|
  {
    if ops == [] {
      assert [] + [op] == [op] && [op][1..] == [];
    } else {
      assert (ops + [op])[1..] == ops[1..] + [op];
      OneMore(Step(k, ops[0]), ops[1..], op, idle);
    }
  }

  lemma Reached(k: Kernel, op: Op, idle: nat)
    requires Reachable(k, idle) && Inv(k, idle) && Allowed(k, op, idle)
    ensures Reachable(Step(k, op), idle) && Inv(Step(k, op), idle)
  {
    var ops :| Behavior(AfterInit(), ops, idle) && Run(AfterInit(), ops, idle) == k;
    OneMore(AfterInit(), ops, op, idle);
    StepKeeps(k, op, idle);
  }

  /** A task as it is created. In the runs below, task 0 is the idle task, and 1 and 2 share the priority 5. */
  function New(prio: Priority, slice: nat): Task {
    Task(Suspend, prio, slice, slice, false, 0)
  }

  /** The lists when five holds the ready ones of 1 and 2. */
  function Lists(five: seq<nat>, last: seq<nat>): seq<seq<nat>> {
    ReadyTable.NoTasks(32)[5 := five][31 := last]
  }

  lemma Created() returns (k: Kernel)
    ensures Reachable(k, 0) && Inv(k, 0)
    ensures k == AfterInit().(tasks := [New(31, 1000), New(5, 10), New(5, 10)])
  {
    k := AfterInit();
    assert Behavior(k, [], 0) && Run(k, [], 0) == k;
    InitOk(0);
    k := MadeOne(k, 31, 1000);
    k := MadeOne(k, 5, 10);
    k := MadeOne(k, 5, 10);
  }

  lemma MadeOne(k: Kernel, prio: Priority, slice: nat) returns (r: Kernel)
    requires Reachable(k, 0) && Inv(k, 0) && 1 <= slice <= Timers.U32_MAX
    ensures Reachable(r, 0) && Inv(r, 0) && r == k.(tasks := k.tasks + [New(prio, slice)])
  {
    Reached(k, Create(prio, slice), 0);
    r := Step(k, Create(prio, slice));
  }

  lemma MadeReady() returns (k: Kernel)
    ensures Reachable(k, 0) && Inv(k, 0) && k.current == -1 && k.nest == 0
    ensures k.tasks == [New(31, 1000).(status := Ready), New(5, 10).(status := Ready),
                        New(5, 10).(status := Ready)]
    ensures k.ready.lists == Lists([1, 2], [0]) && k.closed == [] && k.clock == AfterInit().clock
  {
    k := Created();
    ListsAre([], []);
    k := Joins(k, 0);
    assert [] + [0] == [0];
    ListsAre([], [0]);
    k := Joins(k, 1);
    assert [] + [1] == [1];
    ListsAre([1], [0]);
    k := Joins(k, 2);
    assert [1] + [2] == [1, 2];
  }

  /** task_ready before sch_start. */
  lemma Joins(k: Kernel, id: nat) returns (r: Kernel)
    requires Reachable(k, 0) && Inv(k, 0) && Has(k, id) && k.tasks[id].status == Suspend && k.current == -1
    ensures Reachable(r, 0) && Inv(r, 0)
    ensures var p := k.tasks[id].prio;
            && r.ready.lists == k.ready.lists[p := k.ready.lists[p] + [id]]
            && r == k.(ready := r.ready, tasks := k.tasks[id := k.tasks[id].(status := Ready)])
  {
    Reached(k, MakeReady(id), 0);
    r := Step(k, MakeReady(id));
  }

  lemma ListsAre(five: seq<nat>, last: seq<nat>)
    ensures Lists(five, last)[5] == five && Lists(five, last)[31] == last
    ensures Lists([], []) == ReadyTable.NoTasks(32)
    ensures forall l: seq<nat> :: Lists(five, last)[5 := l] == Lists(l, last)
    ensures forall l: seq<nat> :: Lists(five, last)[31 := l] == Lists(five, l)
  {}

  /** With list 5 not empty, its first task is chosen. */
  lemma FiveFirst(k: Kernel, five: seq<nat>)
    requires Marks(k.ready.group, k.ready.lists) && ListsOk(k.tasks, k.ready.lists)
    requires k.ready.lists == Lists(five, [0]) && five != []
    ensures Lowest(k.ready.lists) == 5 && NextTask(k) == five[0] && Has(k, NextTask(k))
  {
    assert ListOk(k.tasks, 5, k.ready.lists[5]) && five[0] in k.ready.lists[5];
    NextIs(k, five[0]);
    LowestIs(k.ready.lists, 5);
  }

  /** The system at work: 1 is running, and 2 waits behind it. */
  lemma Booted() returns (k: Kernel)
    ensures Reachable(k, 0) && Inv(k, 0) && Settled(k) && k.current == 1 && k.nest == 0
    ensures k.tasks == [New(31, 1000).(status := Ready), New(5, 10).(status := Running),
                        New(5, 10).(status := Ready)]
    ensures k.ready.lists == Lists([1, 2], [0]) && k.closed == [] && k.clock == AfterInit().clock
  {
    var r := MadeReady();
    FiveFirst(r, [1, 2]);
    Reached(r, Start, 0);
    SchStartSettles(r, 0);
    k := Step(r, Start);
  }

  // ---------- a broken slice

  lemma {:induction false} NoTimersQuiet(k: Kernel, n: nat)
    requires k.clock.queue == []
    ensures Quiet(k) && QuietFor(k, n)
    decreases n
  {
    if n > 0 {
      Sleeping.BeatClock(k);
      NoTimersQuiet(Beat(k), n - 1);
    }
  }

  /** The running task x yields to y, which is behind it in the list. */
  lemma Yielded(k: Kernel, x: nat, y: nat) returns (r: Kernel)
    requires Inv(k, 0) && Settled(k) && k.current == x && k.nest == 0 && x != y && Has(k, x) && Has(k, y)
    requires k.ready.lists == Lists([x, y], [0]) && k.tasks[x].prio == 5 && k.tasks[y].status == Ready
    ensures r == Step(k, Yield) && AtWork(r, 0) && r.current == y && r.ready.lists == Lists([y, x], [0])
    ensures r.tasks == k.tasks[x := k.tasks[x].(status := Ready)][y := k.tasks[y].(status := Running)]
    ensures r.clock == k.clock
  {
    r := Step(k, Yield);
    var m := Rotated(k, x, y);
    Handed(m, x, y);
    SwitchSettles(m, 0);
    assert r == Switch(m);
  }

  /** switch_task hands over from x, which is behind y now. */
  lemma Handed(m: Kernel, x: nat, y: nat)
    requires Inv(m, 0) && m.current == x && m.nest == 0 && x != y && Has(m, x) && Has(m, y)
    requires m.ready.lists == Lists([y, x], [0]) && m.tasks[x].status == Running && m.tasks[y].status == Ready
    ensures Switch(m).current == y && Switch(m).ready == m.ready && Switch(m).clock == m.clock
    ensures Switch(m).nest == m.nest
    ensures Switch(m).tasks == m.tasks[x := m.tasks[x].(status := Ready)][y := m.tasks[y].(status := Running)]
  {
    FiveFirst(m, [y, x]);
    assert Switch(m) == SwitchTo(m, y);
    var a := m.tasks[y := m.tasks[y].(status := Running)][x := m.tasks[x].(status := Ready)];
    assert a == m.tasks[x := m.tasks[x].(status := Ready)][y := m.tasks[y].(status := Running)];
  }

  lemma Rotated(k: Kernel, x: nat, y: nat) returns (m: Kernel)
    requires Inv(k, 0) && k.ready.lists == Lists([x, y], [0]) && x != y && Has(k, x)
    requires k.tasks[x].prio == 5 && k.tasks[x].status == Running
    ensures m == Rotate(k, x) && Inv(m, 0) && m.ready.lists == Lists([y, x], [0])
  {
    m := Rotate(k, x);
    RotateKeeps(k, x, 0);
    ListsAre([x, y], [0]);
    ReadyTable.TwoLeft(x, y);
    assert [y] + [x] == [y, x];
  }

  /**
   A run from the start: after one tick, task 1 yields with 9 of its 10 ticks left. It is then ready behind 2
   with a broken slice, and the next 20 ticks do not give both their 10.
   */
  lemma BrokenSlice() returns (k: Kernel)
    ensures Reachable(k, 0) && AtWork(k, 0) && Top(k) == [2, 1] && InRange(k, Top(k))
    ensures k.tasks[1].rem == 9 && k.tasks[1].init == 10 && k.tasks[2].rem == 10
    ensures k.clock.queue == []
    ensures var window := Slicing.SumInit(Turns(k, 0));
            QuietFor(k, window) && exists i :: 0 <= i < 2 && CpuTicks(k, window, Top(k)[i]) != k.tasks[Top(k)[i]].init
  {
    var t := Ticked();
    Reached(t, Yield, 0);
    k := Yielded(t, 1, 2);
    Unfair(k);
  }

  /** One tick after the start. */
  lemma Ticked() returns (t: Kernel)
    ensures Reachable(t, 0) && Inv(t, 0) && Settled(t) && t.current == 1 && t.nest == 0 && t.clock.queue == []
    ensures t.ready.lists == Lists([1, 2], [0]) && |t.tasks| == 3
    ensures t.tasks[1] == New(5, 10).(status := Running, rem := 9) && t.tasks[2] == New(5, 10).(status := Ready)
  {
    var b := Booted();
    NoTimersQuiet(b, 0);
    QuietBeat(b, 0);
    Reached(b, Tick, 0);
    t := Step(b, Tick);
  }

  lemma Unfair(k: Kernel)
    requires AtWork(k, 0) && k.ready.lists == Lists([2, 1], [0]) && k.clock.queue == [] && |k.tasks| == 3
    requires k.tasks[1].rem != k.tasks[1].init
    ensures Top(k) == [2, 1] && InRange(k, Top(k))
    ensures var window := Slicing.SumInit(Turns(k, 0));
            QuietFor(k, window) && exists i :: 0 <= i < 2 && CpuTicks(k, window, Top(k)[i]) != k.tasks[Top(k)[i]].init
  {
    FiveFirst(k, [2, 1]);
    ListsAre([2, 1], [0]);
    TopInRange(k, 0);
    NoTimersQuiet(k, Slicing.SumInit(Turns(k, 0)));
    KernelFairIff(k, 0);
    assert k.tasks[Top(k)[1]].rem != k.tasks[Top(k)[1]].init;
  }

  // ---------- sends that nobody gets

  /** What task 1's get with one tick to wait does to the tasks, up to the switch. */
  lemma Hung(b: Kernel) returns (t: Kernel)
    requires Inv(b, 0) && b.current == 1 && b.clock == AfterInit().clock && |b.tasks| == 3
    requires b.tasks[1] == New(5, 10).(status := Running) && b.ready.lists == Lists([1, 2], [0])
    ensures t == StartTimer(TaskHang(b, 1), 1, 1) && Inv(t, 0)
    ensures t.tasks == b.tasks[1 := New(5, 10).(status := Wait, timerTick := 1)]
    ensures t.ready.lists == Lists([2], [0]) && t.current == 1 && t.nest == b.nest
    ensures t.clock == Timers.State(0, [Timers.Entry(1, 1, 5, 0)], 1, [])
  {
    var h := TaskHang(b, 1);
    HangKeeps(b, 1, 0);
    ListsAre([1, 2], [0]);
    ReadyTable.TwoLeft(1, 2);
    assert h.tasks == b.tasks[1 := New(5, 10).(status := Wait)];
    StartTimerKeeps(h, 1, 1, 0);
    FirstTimer(h.clock);
    t := StartTimer(h, 1, 1);
  }

  lemma FirstTimer(c: Timers.State)
    requires c == Timers.State(0, [], 0, [])
    ensures Timers.Start(c, 1, 1, 5) == Timers.State(0, [Timers.Entry(1, 1, 5, 0)], 1, [])
  {}

  ghost predicate OneWaits(s: Sem) {
    && SemInv(s, 0, 0) && s.queue == [Waiter(1, 5, 0)] && s.count == s.sends == s.grants == 0
    && s.k.current == 2 && s.k.nest == 0 && Settled(s.k) && s.k.ready.lists == Lists([2], [0])
    && |s.k.tasks| == 3 && s.k.tasks[1] == New(5, 10).(status := Wait, timerTick := 1)
    && s.k.tasks[2] == New(5, 10).(status := Running)
    && s.k.clock == Timers.State(0, [Timers.Entry(1, 1, 5, 0)], 1, [])
  }

  /** Task 1 gets with one tick to wait and blocks; 2 runs. */
  lemma Blocked(b: Kernel) returns (s: Sem)
    requires Inv(b, 0) && b.current == 1 && b.nest == 0 && b.clock == AfterInit().clock && |b.tasks| == 3
    requires b.tasks[1] == New(5, 10).(status := Running) && b.tasks[2] == New(5, 10).(status := Ready)
    requires b.ready.lists == Lists([1, 2], [0])
    ensures Allows(SemAlloc(b, 0), GetTimeoutOp(1), 0) && s == GetTimeout(SemAlloc(b, 0), 1) && OneWaits(s)
  {
    s := GetTimeout(SemAlloc(b, 0), 1);
    GetTimeoutKeeps(SemAlloc(b, 0), 1, 0, 0);
    var t := Hung(b);
    FiveFirst(t, [2]);
    SwitchSettles(t, 0);
    assert s.k == Switch(t);
  }

  /** The tick at which the timer fires: 1 is ready again behind 2, with its flag set. */
  lemma Expired(k: Kernel) returns (r: Kernel)
    requires Inv(k, 0) && Settled(k) && k.current == 2 && k.nest == 0 && |k.tasks| == 3
             && k.ready.lists == Lists([2], [0])
    requires k.tasks[1] == New(5, 10).(status := Wait, timerTick := 1)
             && k.tasks[2] == New(5, 10).(status := Running)
    requires k.clock == Timers.State(0, [Timers.Entry(1, 1, 5, 0)], 1, [])
    ensures r == Beat(k) && Inv(r, 0) && Settled(r) && r.current == 2 && r.nest == 0 && |r.tasks| == 3
    ensures r.ready.lists == Lists([2, 1], [0]) && r.tasks[2].status == Running && r.tasks[2].prio == 5
    ensures r.tasks[1] == New(5, 10).(status := Ready, timerTick := 1, timedOut := true)
  {
    BeatKeeps(k, 0);
    BeatSettles(k, 0);
    r := Beat(k);
    var m := k.(clock := k.clock.(now := 1));
    SliceKeeps(m, 0);
    var n := Slice(m);
    DueTaskWaits(n, 0);
    Requeued(n.(clock := Timers.Check(n.clock)));
  }

  /** timeout of task 1 while 2 runs. */
  lemma Requeued(k: Kernel)
    requires Inv(k, 0) && k.current == 2 && k.nest == 0 && |k.tasks| == 3 && k.ready.lists == Lists([2], [0])
    requires k.tasks[1] == New(5, 10).(status := Wait, timerTick := 1) && k.tasks[2].status == Running
    requires k.clock.queue == []
    ensures var r := Timeout(k, 1);
            && r.current == 2 && r.nest == 0 && |r.tasks| == 3 && r.ready.lists == Lists([2, 1], [0])
            && r.tasks[1] == New(5, 10).(status := Ready, timerTick := 1, timedOut := true)
            && r.tasks[2].status == Running && r.tasks[2].prio == k.tasks[2].prio
  {
    var f := k.(tasks := k.tasks[1 := k.tasks[1].(timedOut := true)]);
    FieldsKeep(k, 1, f.tasks[1], 0);
    NotListed(f, 1);
    ListsAre([2], [0]);
    assert [2] + [1] == [2, 1];
    AddReadyKeeps(f, 1, 0);
    FiveFirst(AddReady(f, 1), [2, 1]);
  }

  /** The send takes 1 off the queue; 2 goes on. */
  lemma SentToOne(s: Sem) returns (r: Sem)
    requires ReadyToLose(s)
    ensures r == Send(s) && SemInv(r, 0, 0) && r.queue == [] && r.count == r.grants == 0 && r.sends == 1
    ensures r.k.current == 2 && r.k.nest == 0 && |r.k.tasks| == 3 && Settled(r.k)
            && r.k.ready.lists == Lists([2, 1], [0])
    ensures r.k.tasks[1] == s.k.tasks[1] && r.k.tasks[2].status == Running && r.k.tasks[2].prio == s.k.tasks[2].prio
  {
    r := Send(s);
    SendKeeps(s, 0, 0);
    var m := ResumedOne(s.k);
    FiveFirst(m, [2, 1]);
    SwitchSettles(m, 0);
    assert r.k == Switch(m);
  }

  /** task_resume of 1 while it is ready: it stays behind 2. */
  lemma ResumedOne(k: Kernel) returns (m: Kernel)
    requires Inv(k, 0) && k.current == 2 && |k.tasks| == 3 && k.ready.lists == Lists([2, 1], [0])
    requires k.tasks[1] == New(5, 10).(status := Ready, timerTick := 1, timedOut := true)
    ensures m == TaskResume(k, 1) && Inv(m, 0) && m.tasks == k.tasks && m.ready.lists == Lists([2, 1], [0])
    ensures m.current == 2 && m.nest == k.nest
  {
    m := TaskResume(k, 1);
    ResumeKeeps(k, 1, 0);
    ResumeOfReady(k, 1);
    ListsAre([2, 1], [0]);
    OneOfTwo(2, 1);
    assert [2] + [1] == [2, 1];
  }

  lemma ResumeOfReady(k: Kernel, id: nat)
    requires Has(k, id) && k.tasks[id].status == Ready
    ensures var m, p := TaskResume(k, id), k.tasks[id].prio;
            && m.tasks == k.tasks && m.current == k.current && m.nest == k.nest
            && m.ready.lists == k.ready.lists[p := Without(k.ready.lists[p], id) + [id]]
  {
    SameTask(k.tasks, id);
  }

  lemma SameTask(tasks: seq<Task>, id: nat)
    requires id < |tasks| && tasks[id].status == Ready
    ensures tasks[id := tasks[id].(status := Wait)][id := tasks[id].(status := Wait).(status := Ready)] == tasks
  {}

  lemma OneOfTwo(x: nat, y: nat)
    requires x != y
    ensures Without([x, y], y) == [x]
  {
    assert [x, y][1..] == [y] && [y][1..] == [];
    assert Without([y], y) == [];
  }

  /**
   A run with a lost send: task 1 waits for one tick; the tick makes it ready again, but 2 goes on running. Now a
   send comes. It takes 1 off the queue and raises no count, and when 1 runs again it returns -ETIMEDOUT.
   */
  lemma LostSend() returns (k: Kernel, before: Sem, after: Sem)
    ensures Reachable(k, 0) && SemBehavior(SemAlloc(k, 0), [GetTimeoutOp(1), Around(Tick)], 0)
    ensures before == SemRun(SemAlloc(k, 0), [GetTimeoutOp(1), Around(Tick)], 0) && SemInv(before, 0, 0)
    ensures before.queue != [] && Swallowed(before)
    ensures SemBehavior(Send(before), [Around(Yield)], 0) && after == SemRun(Send(before), [Around(Yield)], 0)
    ensures Calling(after, 0) && after.k.current == before.queue[0].id && ReturnsTimedOut(after)
    ensures after.count == 0 && after.queue == [] && after.sends == 1 && after.grants == 0
  {
    k := Booted();
    before := LostBefore(k);
    SwallowedIff(before, 0, 0);
    after := LostAfter(before);
  }

  /** What the run is like when the send comes. */
  ghost predicate ReadyToLose(s: Sem) {
    && SemInv(s, 0, 0) && s.queue == [Waiter(1, 5, 0)] && s.count == s.sends == s.grants == 0
    && s.k.current == 2 && s.k.nest == 0 && |s.k.tasks| == 3 && s.k.ready.lists == Lists([2, 1], [0])
    && s.k.tasks[1] == New(5, 10).(status := Ready, timerTick := 1, timedOut := true)
    && s.k.tasks[2].status == Running && s.k.tasks[2].prio == 5
  }

  lemma LostBefore(k: Kernel) returns (before: Sem)
    requires Inv(k, 0) && k.current == 1 && k.nest == 0 && k.clock == AfterInit().clock && |k.tasks| == 3
    requires k.tasks[1] == New(5, 10).(status := Running) && k.tasks[2] == New(5, 10).(status := Ready)
    requires k.ready.lists == Lists([1, 2], [0])
    ensures SemBehavior(SemAlloc(k, 0), [GetTimeoutOp(1), Around(Tick)], 0)
    ensures before == SemRun(SemAlloc(k, 0), [GetTimeoutOp(1), Around(Tick)], 0) && ReadyToLose(before)
  {
    var s := Blocked(k);
    before := TickedOut(s);
    TwoSteps(SemAlloc(k, 0), GetTimeoutOp(1), Around(Tick), 0);
  }

  lemma TickedOut(s: Sem) returns (r: Sem)
    requires OneWaits(s)
    ensures Allows(s, Around(Tick), 0) && r == SemStep(s, Around(Tick), 0) && ReadyToLose(r)
  {
    SemStepKeeps(s, Around(Tick), 0, 0);
    r := SemStep(s, Around(Tick), 0);
    var e := Expired(s.k);
    assert r.k == e;
  }

  lemma LostAfter(before: Sem) returns (after: Sem)
    requires ReadyToLose(before)
    ensures SemBehavior(Send(before), [Around(Yield)], 0) && after == SemRun(Send(before), [Around(Yield)], 0)
    ensures Calling(after, 0) && after.k.current == 1 && ReturnsTimedOut(after)
    ensures after.count == 0 && after.queue == [] && after.sends == 1 && after.grants == 0
  {
    var sent := SentToOne(before);
    var y := Yielded(sent.k, 2, 1);
    OneStep(sent, Around(Yield), 0);
    after := sent.(k := y);
  }

  lemma OneStep(s: Sem, a: SemOp, idle: nat)
    requires Allows(s, a, idle)
    ensures SemBehavior(s, [a], idle) && SemRun(s, [a], idle) == SemStep(s, a, idle)
  {
    assert [a][1..] == [];
  }

  lemma TwoSteps(s: Sem, a: SemOp, b: SemOp, idle: nat)
    requires Allows(s, a, idle) && Allows(SemStep(s, a, idle), b, idle)
    ensures SemBehavior(s, [a, b], idle) && SemRun(s, [a, b], idle) == SemStep(SemStep(s, a, idle), b, idle)
  {
    OneStep(SemStep(s, a, idle), b, idle);
    assert [a, b][1..] == [b];
  }

  /**
   A get that does not want to wait, and the next send, which nobody gets although the caller has not taken
   anything.
   */
  lemma SwallowedSend() returns (k: Kernel, before: Sem)
    ensures Reachable(k, 0) && SemBehavior(SemAlloc(k, 0), [GetTimeoutOp(0)], 0)
    ensures before == SemRun(SemAlloc(k, 0), [GetTimeoutOp(0)], 0) && SemInv(before, 0, 0)
    ensures before.queue != [] && before.queue[0].id == before.k.current && Swallowed(before)
    ensures Send(before).count == 0 && Send(before).grants == 0 && Send(before).queue == []
  {
    k := Booted();
    var z := SemAlloc(k, 0);
    OneStep(z, GetTimeoutOp(0), 0);
    SemStepKeeps(z, GetTimeoutOp(0), 0, 0);
    before := GetTimeout(z, 0);
    SwallowedIff(before, 0, 0);
  }
}
