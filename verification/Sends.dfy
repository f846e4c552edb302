/** What becomes of a semaphore send over whole runs: who gets it, and when nobody does. */
module Sends {
  import opened Tasks
  import opened Scheduling
  import opened Semaphore
  import Timers

  // ---------- what other tasks cannot do to a task

  ghost predicate Disarmed(k: Kernel, id: nat) {
    Has(k, id) && Timers.At(k.clock.queue, id, -1)
  }

  /** A task whose timer is not armed keeps it so, and its flag as it is. */
  ghost predicate FlagKept(k: Kernel, r: Kernel, id: nat) {
    Disarmed(k, id) ==> Disarmed(r, id) && r.tasks[id].timedOut == k.tasks[id].timedOut
  }

  predicate Listed(k: Kernel, id: nat) {
    Has(k, id) && OnCpu(k.tasks[id].status)
  }

  /** A task that is ready or running stays so. */
  ghost predicate ReadyKept(k: Kernel, r: Kernel, id: nat) {
    Listed(k, id) ==> Listed(r, id)
  }

  lemma SwitchKept(k: Kernel, id: nat)
    ensures FlagKept(k, Switch(k), id) && ReadyKept(k, Switch(k), id)
  {}

  lemma StopKept(k: Kernel, z: nat, id: nat)
    ensures FlagKept(k, StopTimer(k, z), id) && ReadyKept(k, StopTimer(k, z), id)
  {
    RemovedIn(k.clock.queue, z);
    var r := Timers.Removed(k.clock.queue, z);
    forall i | 0 <= i < |r| ensures r[i] in k.clock.queue {}
  }

  lemma HangKept(k: Kernel, z: nat, id: nat)
    requires Has(k, z)
    ensures FlagKept(k, TaskHang(k, z), id) && (z != id ==> ReadyKept(k, TaskHang(k, z), id))
  {
    if OnCpu(k.tasks[z].status) {
      StopKept(DelReady(WithStatus(k, z, Wait), z), z, id);
    }
  }

  lemma StartKept(k: Kernel, z: nat, tick: nat, id: nat)
    requires Has(k, z) && z != id && tick <= Timers.U32_MAX
    ensures FlagKept(k, StartTimer(k, z, tick), id) && ReadyKept(k, StartTimer(k, z, tick), id)
  {
    StopKept(k, z, id);
    var q := Timers.Removed(k.clock.queue, z);
    var e := Timers.Entry(z, Timers.Deadline(k.clock.now, tick), k.tasks[z].prio, k.clock.arrivals);
    var p := Timers.Place(q, k.clock.now, e);
    var r := Timers.Inserted(q, k.clock.now, e);
    forall i | 0 <= i < |r| ensures r[i] == if i < p then q[i] else if i == p then e else q[i - 1] {}
  }

  lemma ResumeKept(k: Kernel, z: nat, id: nat)
    requires Has(k, z)
    ensures FlagKept(k, TaskResume(k, z), id) && ReadyKept(k, TaskResume(k, z), id)
  {
    StopKept(ListDel(WithStatus(k, z, Wait), z), z, id);
  }

  lemma DelKept(k: Kernel, z: nat, id: nat)
    requires Has(k, z)
    ensures FlagKept(k, TaskDel(k, z), id) && (z != id ==> ReadyKept(k, TaskDel(k, z), id))
  {
    var r := if OnCpu(k.tasks[z].status) then DelReady(k, z) else k;
    StopKept(WithStatus(r, z, Close), z, id);
  }

  lemma YieldKept(k: Kernel, id: nat)
    ensures FlagKept(k, TaskYield(k), id) && ReadyKept(k, TaskYield(k), id)
  {
    if Has(k, k.current) {
      SwitchKept(Rotate(k, k.current), id);
    }
  }

  lemma SliceKept(k: Kernel, id: nat)
    ensures FlagKept(k, Slice(k), id) && ReadyKept(k, Slice(k), id)
  {
    if Has(k, k.current) && k.tasks[k.current].rem == 1 {
      YieldKept(k.(tasks := k.tasks[k.current := k.tasks[k.current].(rem := k.tasks[k.current].init)]), id);
    }
  }

  lemma ExpireKept(k: Kernel, id: nat)
    ensures FlagKept(k, Expire(k), id) && ReadyKept(k, Expire(k), id)
  {
    var r := k.(clock := Timers.Check(k.clock));
    if r.clock != k.clock && Has(r, k.clock.queue[0].id) {
      TimeoutKept(r, k.clock.queue[0].id, id);
    }
  }

  lemma TimeoutKept(k: Kernel, z: nat, id: nat)
    requires Has(k, z)
    ensures (z != id ==> FlagKept(k, Timeout(k, z), id)) && ReadyKept(k, Timeout(k, z), id)
  {
    SwitchKept(AddReady(ListDel(k.(tasks := k.tasks[z := k.tasks[z].(timedOut := true)]), z), z), id);
  }

  lemma BeatKept(k: Kernel, id: nat)
    ensures FlagKept(k, Beat(k), id) && ReadyKept(k, Beat(k), id)
  {
    var r := k.(clock := k.clock.(now := Timers.NextTick(k.clock.now)));
    SliceKept(r, id);
    ExpireKept(Slice(r), id);
  }

  lemma SleepKept(k: Kernel, tick: nat, id: nat)
    requires tick <= Timers.U32_MAX && k.current != id
    ensures FlagKept(k, TaskSleep(k, tick), id) && ReadyKept(k, TaskSleep(k, tick), id)
  {
    var c := k.current;
    if tick != 0 && Has(k, c) && OnCpu(k.tasks[c].status) {
      var h := TaskHang(k, c);
      HangKept(k, c, id);
      StartKept(h, c, tick, id);
      SwitchKept(StartTimer(h, c, tick), id);
    }
  }

  lemma ExitKept(k: Kernel, id: nat)
    ensures FlagKept(k, TaskExit(k), id) && (k.current != id ==> ReadyKept(k, TaskExit(k), id))
  {
    if Has(k, k.current) {
      DelKept(k, k.current, id);
      SwitchKept(TaskDel(k, k.current), id);
    }
  }

  lemma ReapKept(k: Kernel, id: nat, idle: nat)
    requires Inv(k, idle) && k.closed != []
    ensures FlagKept(k, Reap(k), id) && ReadyKept(k, Reap(k), id)
  {
    ReapKeeps(k, idle);
  }

  /** A call that the task itself makes, and that sets its timer or clears its flag. */
  predicate OwnStep(k: Kernel, op: Op, id: nat) {
    k.current == id && (op.Sleep? || op.WakeUp?)
  }

  /** A step that takes the task off the ready lists. */
  predicate TakesAway(k: Kernel, op: Op, id: nat) {
    op == Hang(id) || op == Delete(id) || (k.current == id && (op.Sleep? || op.Exit?))
  }

  /** No step of another task arms the timer of a task or touches its flag. */
  lemma StepKept(k: Kernel, op: Op, id: nat, idle: nat)
    requires Inv(k, idle) && Allowed(k, op, idle)
    ensures !OwnStep(k, op, id) ==> FlagKept(k, Step(k, op), id)
    ensures !TakesAway(k, op, id) ==> ReadyKept(k, Step(k, op), id)
  {
    match op
    case MakeReady(z) => SwitchKept(AddReady(k, z), id);
    case Hang(z) => HangKept(k, z, id);
    case Resume(z) => ResumeKept(k, z, id);
    case Sleep(tick) =>
      if k.current != id {
        SleepKept(k, tick, id);
      }
    case Yield => YieldKept(k, id);
    case Delete(z) => DelKept(k, z, id);
    case Exit => ExitKept(k, id);
    case Reschedule => SwitchKept(k, id);
    case Tick => BeatKept(k, id);
    case Unlock => SwitchKept(k.(nest := 0), id);
    case ReapOne => ReapKept(k, id, idle);
    case _ => OtherKept(k, op, id, idle);
  }

  lemma OtherKept(k: Kernel, op: Op, id: nat, idle: nat)
    requires Inv(k, idle) && Allowed(k, op, idle) && (op.Create? || op.Start? || op.WakeUp? || op.Lock?)
    ensures !OwnStep(k, op, id) ==> FlagKept(k, Step(k, op), id)
    ensures ReadyKept(k, Step(k, op), id)
  {}

  // ---------- the same for the calls of the semaphore

  /** The task gets, sleeps, or returns from a wait. */
  predicate OwnCall(s: Sem, op: SemOp, id: nat) {
    match op
    case SendOp => false
    case Around(o) => OwnStep(s.k, o, id)
    case _ => s.k.current == id
  }

  /** The task blocks, or is taken away. */
  predicate Blocks(s: Sem, op: SemOp, id: nat) {
    match op
    case GetOp => s.k.current == id
    case GetTimeoutOp(_) => s.k.current == id
    case Around(o) => TakesAway(s.k, o, id)
    case _ => false
  }

  lemma GetKept(s: Sem, id: nat)
    requires Has(s.k, s.k.current) && s.k.current != id
    ensures FlagKept(s.k, Get(s).k, id) && ReadyKept(s.k, Get(s).k, id)
  {
    HangKept(s.k, s.k.current, id);
    SwitchKept(TaskHang(s.k, s.k.current), id);
  }

  lemma GetTimeoutKept(s: Sem, tick: nat, id: nat)
    requires Has(s.k, s.k.current) && s.k.current != id && tick <= Timers.U32_MAX
    ensures FlagKept(s.k, GetTimeout(s, tick).k, id) && ReadyKept(s.k, GetTimeout(s, tick).k, id)
  {
    var h := TaskHang(s.k, s.k.current);
    HangKept(s.k, s.k.current, id);
    StartKept(h, s.k.current, tick, id);
    SwitchKept(StartTimer(h, s.k.current, tick), id);
  }

  lemma SendKept(s: Sem, id: nat)
    requires s.queue != [] ==> Has(s.k, s.queue[0].id)
    ensures FlagKept(s.k, Send(s).k, id) && ReadyKept(s.k, Send(s).k, id)
  {
    if s.queue != [] {
      ResumeKept(s.k, s.queue[0].id, id);
      SwitchKept(TaskResume(s.k, s.queue[0].id), id);
    } else {
      SwitchKept(s.k, id);
    }
  }

  lemma SemStepKept(s: Sem, op: SemOp, id: nat, initial: nat, idle: nat)
    requires SemInv(s, initial, idle) && Allows(s, op, idle)
    ensures !OwnCall(s, op, id) ==> FlagKept(s.k, SemStep(s, op, idle).k, id)
    ensures !Blocks(s, op, id) ==> ReadyKept(s.k, SemStep(s, op, idle).k, id)
  {
    match op
    case GetOp =>
      if s.k.current != id {
        GetKept(s, id);
      }
    case GetTimeoutOp(tick) =>
      if s.k.current != id {
        GetTimeoutKept(s, tick, id);
      }
    case ReturnOp =>
    case SendOp => SendKept(s, id);
    case Around(o) => StepKept(s.k, o, id, idle);
  }

  /** During the run the task does not get, sleep or return. */
  ghost predicate Silent(s: Sem, ops: seq<SemOp>, id: nat, idle: nat)
    requires SemBehavior(s, ops, idle)
    decreases |ops|
  {
    ops != [] ==> !OwnCall(s, ops[0], id) && Silent(SemStep(s, ops[0], idle), ops[1..], id, idle)
  }

  /** During the run the task does not block, and is not hung or deleted. */
  ghost predicate Unblocked(s: Sem, ops: seq<SemOp>, id: nat, idle: nat)
    requires SemBehavior(s, ops, idle)
    decreases |ops|
  {
    ops != [] ==> !Blocks(s, ops[0], id) && Unblocked(SemStep(s, ops[0], idle), ops[1..], id, idle)
  }

  lemma {:induction false} SilentKeepsFlag(s: Sem, ops: seq<SemOp>, id: nat, initial: nat, idle: nat)
    requires SemInv(s, initial, idle) && SemBehavior(s, ops, idle) && Silent(s, ops, id, idle)
    ensures FlagKept(s.k, SemRun(s, ops, idle).k, id)
    decreases |ops|
  {
    if ops != [] {
      SemStepKept(s, ops[0], id, initial, idle);
      SemStepKeeps(s, ops[0], initial, idle);
      SilentKeepsFlag(SemStep(s, ops[0], idle), ops[1..], id, initial, idle);
    }
  }

  lemma {:induction false} UnblockedStaysReady(s: Sem, ops: seq<SemOp>, id: nat, initial: nat, idle: nat)
    requires SemInv(s, initial, idle) && SemBehavior(s, ops, idle) && Unblocked(s, ops, id, idle)
    ensures ReadyKept(s.k, SemRun(s, ops, idle).k, id)
    decreases |ops|
  {
    if ops != [] {
      SemStepKept(s, ops[0], id, initial, idle);
      SemStepKeeps(s, ops[0], initial, idle);
      UnblockedStaysReady(SemStep(s, ops[0], idle), ops[1..], id, initial, idle);
    }
  }

  // ---------- what a send decides

  /**
   The waiter that a send takes off the queue returns -ETIMEDOUT if and only if its time was up when the send
   came, whatever happens until it runs again and returns; the send is spent on it in either case.
   */
  lemma SendDecides(s: Sem, ops: seq<SemOp>, initial: nat, idle: nat)
    requires SemInv(s, initial, idle) && s.queue != []
    requires SemBehavior(Send(s), ops, idle) && Silent(Send(s), ops, s.queue[0].id, idle)
    requires SemRun(Send(s), ops, idle).k.current == s.queue[0].id
    ensures Send(s).dequeued == s.dequeued + 1 && Send(s).count == s.count == 0
    ensures var r := SemRun(Send(s), ops, idle);
            Has(r.k, r.k.current) && (ReturnsTimedOut(r) <==> s.k.tasks[s.queue[0].id].timedOut)
  {
    SendReaches(s, initial, idle);
    SendKeeps(s, initial, idle);
    SilentKeepsFlag(Send(s), ops, s.queue[0].id, initial, idle);
  }

  /** A send is swallowed if it raises no count and makes no blocked task ready. */
  ghost predicate Swallowed(s: Sem)
    requires s.queue != [] ==> Has(s.k, s.queue[0].id)
  {
    && Send(s).count == s.count
    && forall x :: Listed(Send(s).k, x) ==> Listed(s.k, x)
  }

  /** Exactly then, in every reachable state: the first waiter is not blocked any more. */
  lemma SwallowedIff(s: Sem, initial: nat, idle: nat)
    requires SemInv(s, initial, idle)
    ensures s.queue != [] ==> Has(s.k, s.queue[0].id)
    ensures Swallowed(s) <==> s.queue != [] && OnCpu(s.k.tasks[s.queue[0].id].status)
  {
    if s.queue != [] {
      var id := s.queue[0].id;
      SendReaches(s, initial, idle);
      forall x | Listed(Send(s).k, x) && x != id ensures Listed(s.k, x) {
        NewlyListed(s, x, initial, idle);
      }
      assert Listed(Send(s).k, id);
    }
  }

  /** A send makes nobody ready but the first waiter. */
  lemma NewlyListed(s: Sem, x: nat, initial: nat, idle: nat)
    requires SemInv(s, initial, idle) && s.queue != [] && x != s.queue[0].id && Listed(Send(s).k, x)
    ensures Listed(s.k, x)
  {
    var r := TaskResume(s.k, s.queue[0].id);
    ResumeKeeps(s.k, s.queue[0].id, idle);
    NextIs(r, s.queue[0].id);
    assert Has(s.k, x) ==> r.tasks[x] == s.k.tasks[x];
    SwitchLists(r, x);
  }

  lemma SwitchLists(k: Kernel, x: nat)
    requires Listed(Switch(k), x) && (k.nest == 0 && Has(k, NextTask(k)) ==> OnCpu(k.tasks[NextTask(k)].status))
    ensures Listed(k, x)
  {}

  /**
   Over every run of a semaphore: the next send is swallowed if and only if the first waiter is not blocked any
   more.
   */
  lemma SendSwallowedIff(k: Kernel, initial: nat, ops: seq<SemOp>, idle: nat)
    requires Inv(k, idle) && k.current >= 0 && initial <= 255 && SemBehavior(SemAlloc(k, initial), ops, idle)
    ensures var s := SemRun(SemAlloc(k, initial), ops, idle);
            && (s.queue != [] ==> Has(s.k, s.queue[0].id))
            && (Swallowed(s) <==> s.queue != [] && OnCpu(s.k.tasks[s.queue[0].id].status))
  {
    SemRunKeeps(SemAlloc(k, initial), ops, initial, idle);
    SwallowedIff(SemRun(SemAlloc(k, initial), ops, idle), initial, idle);
  }

  /**
   A task that is queued but not blocked swallows the send that reaches it, whatever happened since it was last
   blocked.
   */
  lemma ReadyWaiterSwallows(s: Sem, ops: seq<SemOp>, id: nat, initial: nat, idle: nat)
    requires SemInv(s, initial, idle) && Listed(s.k, id)
    requires SemBehavior(s, ops, idle) && Unblocked(s, ops, id, idle)
    requires var r := SemRun(s, ops, idle); r.queue != [] && r.queue[0].id == id
    ensures var r := SemRun(s, ops, idle);
            Has(r.k, id) && Swallowed(r) && Send(r).dequeued == r.dequeued + 1 && Send(r).queue == r.queue[1..]
  {
    UnblockedStaysReady(s, ops, id, initial, idle);
    SemRunKeeps(s, ops, initial, idle);
    SwallowedIff(SemRun(s, ops, idle), initial, idle);
  }

  /**
   A get with no time to wait leaves its caller in the queue although it goes on running: as long as it does not
   block, the send that reaches it there is swallowed, however many waiters were ahead of it and whatever happens
   before.
   */
  lemma ZeroTimeoutSwallows(s: Sem, ops: seq<SemOp>, initial: nat, idle: nat)
    requires SemInv(s, initial, idle) && Calling(s, idle) && s.count == 0
    requires SemBehavior(GetTimeout(s, 0), ops, idle) && Unblocked(GetTimeout(s, 0), ops, s.k.current, idle)
    ensures exists w :: w in GetTimeout(s, 0).queue && w.id == s.k.current
    ensures GetTimeout(s, 0).k == s.k
    ensures var r := SemRun(GetTimeout(s, 0), ops, idle);
            r.queue != [] && r.queue[0].id == s.k.current ==> Has(r.k, s.k.current) && Swallowed(r)
  {
    var t, r := GetTimeout(s, 0), SemRun(GetTimeout(s, 0), ops, idle);
    EnqueuedIn(s, s.k.current);
    GetTimeoutKeeps(s, 0, initial, idle);
    if r.queue != [] && r.queue[0].id == s.k.current {
      ReadyWaiterSwallows(t, ops, s.k.current, initial, idle);
    }
  }
}
