/**
 What each call of the semaphore does to the count and the queue, and what it is to the scheduler: a run of the
 semaphore is a run of scheduler calls.
 */
module Counting {
  import opened Tasks
  import opened Scheduling
  import opened Semaphore
  import opened Effects
  import opened Sends
  import Timers

  // ---------- single calls

  /** The caller gets one, at once. */
  predicate Takes(s: Sem, op: SemOp)
    requires Has(s.k, s.k.current)
  {
    s.count > 0 && (op.GetTimeoutOp? || (op.GetOp? && s.k.tasks[s.k.current].prio != 31))
  }

  /** The caller joins the queue. */
  predicate Joins(s: Sem, op: SemOp)
    requires Has(s.k, s.k.current)
  {
    s.count == 0 && (op.GetTimeoutOp? || (op.GetOp? && s.k.tasks[s.k.current].prio != 31))
  }

  predicate GivesUp(s: Sem, op: SemOp)
    requires Has(s.k, s.k.current)
  {
    op.ReturnOp? && s.k.tasks[s.k.current].timedOut
  }

  ghost predicate WaitsAfter(s: Sem, op: SemOp, w: Waiter)
    requires Has(s.k, s.k.current)
  {
    var c := s.k.current;
    if Joins(s, op) then (w in s.queue && w.id != c) || w == Waiter(c, s.k.tasks[c].prio, s.arrivals)
    else if GivesUp(s, op) then w in s.queue && w.id != c
    else if op.SendOp? && s.queue != [] then w in s.queue[1..]
    else w in s.queue
  }

  function CountAfter(s: Sem, op: SemOp): int
    requires Has(s.k, s.k.current)
  {
    if Takes(s, op) then s.count - 1 else if op.SendOp? && s.queue == [] then (s.count + 1) % 256 else s.count
  }

  /**
   Each call takes one, gives one, or leaves the count, and does to the queue what it is for. The order of the queue
   follows from that, as the invariant holds afterwards.
   */
  lemma CallEffect(s: Sem, op: SemOp, initial: nat, idle: nat)
    requires SemInv(s, initial, idle) && Allows(s, op, idle)
    ensures SemInv(SemStep(s, op, idle), initial, idle)
    ensures var r := SemStep(s, op, idle);
            && r.count == CountAfter(s, op) && r.grants == s.grants + (if Takes(s, op) then 1 else 0)
            && r.sends == s.sends + (if op.SendOp? then 1 else 0)
            && r.dequeued == s.dequeued + (if op.SendOp? && s.queue != [] then 1 else 0)
            && r.wraps == s.wraps + (if op.SendOp? && s.count == 255 then 1 else 0)
    ensures forall w :: w in SemStep(s, op, idle).queue <==> WaitsAfter(s, op, w)
  {
    SemStepKeeps(s, op, initial, idle);
    if Joins(s, op) {
      JoinEffect(s, s.k.current);
    } else if GivesUp(s, op) {
      ReturnLeaves(s, initial, idle);
    }
  }

  lemma JoinEffect(s: Sem, id: nat)
    requires Has(s.k, id)
    ensures forall v :: v in Enqueue(s, id).queue <==>
                          (v in s.queue && v.id != id) || v == Waiter(id, s.k.tasks[id].prio, s.arrivals)
  {
    var w, q := Waiter(id, s.k.tasks[id].prio, s.arrivals), Unqueued(s.queue, id);
    UnqueuedIs(s.queue, id);
    assert q == q[..QueuePlace(q, w.prio)] + q[QueuePlace(q, w.prio)..];
  }

  lemma {:induction false} UnqueuedIs(q: seq<Waiter>, id: nat)
    ensures forall w :: w in Unqueued(q, id) <==> w in q && w.id != id
  {
    if q != [] {
      UnqueuedIs(q[1..], id);
    }
  }

  // ---------- what a call is to the scheduler

  /**
   A blocking get is task_hang and switch_task, a timed one is task_sleep, a return is the end of task_sleep, and a send
   is task_resume of the first waiter and switch_task.
   */
  function KernelCalls(s: Sem, op: SemOp): seq<Op>
    requires Has(s.k, s.k.current)
  {
    match op
    case GetOp => if Joins(s, op) then [Hang(s.k.current), Reschedule] else []
    case GetTimeoutOp(tick) => if Joins(s, op) then [Sleep(tick)] else []
    case ReturnOp => [WakeUp]
    case SendOp => if s.queue != [] then [Resume(s.queue[0].id), Reschedule] else [Reschedule]
    case Around(o) => [o]
  }

  lemma RunOne(k: Kernel, op: Op, idle: nat)
    requires Allowed(k, op, idle)
    ensures Behavior(k, [op], idle) && Run(k, [op], idle) == Step(k, op)
  {
    assert [op][1..] == [];
  }

  lemma RunTwo(k: Kernel, op: Op, next: Op, idle: nat)
    requires Allowed(k, op, idle) && Allowed(Step(k, op), next, idle)
    ensures Behavior(k, [op, next], idle) && Run(k, [op, next], idle) == Step(Step(k, op), next)
  {
    RunOne(Step(k, op), next, idle);
    assert [op, next][1..] == [next];
  }

  lemma CallsKernel(s: Sem, op: SemOp, initial: nat, idle: nat)
    requires SemInv(s, initial, idle) && Allows(s, op, idle)
    ensures Behavior(s.k, KernelCalls(s, op), idle)
    ensures Run(s.k, KernelCalls(s, op), idle) == SemStep(s, op, idle).k
  {
    match op
    case GetOp =>
      if Joins(s, op) {
        RunTwo(s.k, Hang(s.k.current), Reschedule, idle);
      }
    case GetTimeoutOp(tick) =>
      if Joins(s, op) {
        RunOne(s.k, Sleep(tick), idle);
      }
    case ReturnOp => RunOne(s.k, WakeUp, idle);
    case SendOp =>
      if s.queue != [] {
        RunTwo(s.k, Resume(s.queue[0].id), Reschedule, idle);
      } else {
        RunOne(s.k, Reschedule, idle);
      }
    case Around(o) => RunOne(s.k, o, idle);
  }

  ghost function AllCalls(s: Sem, ops: seq<SemOp>, initial: nat, idle: nat): seq<Op>
    requires SemInv(s, initial, idle) && SemBehavior(s, ops, idle)
    decreases |ops|
  {
    if ops == [] then []
    else
      SemStepKeeps(s, ops[0], initial, idle);
      KernelCalls(s, ops[0]) + AllCalls(SemStep(s, ops[0], idle), ops[1..], initial, idle)
  }

  lemma {:induction false} RunsOn(k: Kernel, a: seq<Op>, b: seq<Op>, idle: nat)
    requires Behavior(k, a, idle) && Behavior(Run(k, a, idle), b, idle)
    ensures Behavior(k, a + b, idle) && Run(k, a + b, idle) == Run(Run(k, a, idle), b, idle)
    decreases |a|
  {
    if a == [] {
      assert a + b == b;
    } else {
      assert (a + b)[0] == a[0] && (a + b)[1..] == a[1..] + b;
      RunsOn(Step(k, a[0]), a[1..], b, idle);
    }
  }

  /** So all that holds of the runs of the scheduler holds of those of a semaphore. */
  lemma {:induction false} RunsKernel(s: Sem, ops: seq<SemOp>, initial: nat, idle: nat)
    requires SemInv(s, initial, idle) && SemBehavior(s, ops, idle)
    ensures Behavior(s.k, AllCalls(s, ops, initial, idle), idle)
    ensures Run(s.k, AllCalls(s, ops, initial, idle), idle) == SemRun(s, ops, idle).k
    decreases |ops|
  {
    if ops != [] {
      var r := SemStep(s, ops[0], idle);
      CallsKernel(s, ops[0], initial, idle);
      SemStepKeeps(s, ops[0], initial, idle);
      RunsKernel(r, ops[1..], initial, idle);
      RunsOn(s.k, KernelCalls(s, ops[0]), AllCalls(r, ops[1..], initial, idle), idle);
    }
  }

  // ---------- gets over runs

  /** How many calls of the run get one at once. */
  ghost function Taken(s: Sem, ops: seq<SemOp>, initial: nat, idle: nat): nat
    requires SemInv(s, initial, idle) && SemBehavior(s, ops, idle)
    decreases |ops|
  {
    if ops == [] then 0
    else
      SemStepKeeps(s, ops[0], initial, idle);
      (if Takes(s, ops[0]) then 1 else 0) + Taken(SemStep(s, ops[0], idle), ops[1..], initial, idle)
  }

  /** Without a send, every get that does not wait lowers the count by one, and nothing else moves it. */
  lemma {:induction false} GetsLower(s: Sem, ops: seq<SemOp>, initial: nat, idle: nat)
    requires SemInv(s, initial, idle) && SemBehavior(s, ops, idle) && SendOp !in ops
    ensures var r := SemRun(s, ops, idle);
            && r.count == s.count - Taken(s, ops, initial, idle) && r.grants == s.grants + Taken(s, ops, initial, idle)
            && r.dequeued == s.dequeued && r.sends == s.sends
    decreases |ops|
  {
    if ops != [] {
      CallEffect(s, ops[0], initial, idle);
      GetsLower(SemStep(s, ops[0], idle), ops[1..], initial, idle);
    }
  }

  // ---------- a flag that is gone

  /** The timer of the task does not fire in the run. */
  predicate NoAlarm(k: Kernel, ops: seq<Op>, x: nat, idle: nat)
    requires Behavior(k, ops, idle)
    decreases |ops|
  {
    ops != [] ==> !FiresFor(k, ops[0], x) && NoAlarm(Step(k, ops[0]), ops[1..], x, idle)
  }

  lemma {:induction false} FlagStaysClear(k: Kernel, ops: seq<Op>, x: nat, idle: nat)
    requires Inv(k, idle) && Behavior(k, ops, idle) && Has(k, x) && !k.tasks[x].timedOut && NoAlarm(k, ops, x, idle)
    ensures Has(Run(k, ops, idle), x) && !Run(k, ops, idle).tasks[x].timedOut
    decreases |ops|
  {
    if ops != [] {
      StepTasks(k, ops[0], x, idle);
      StepKeeps(k, ops[0], idle);
      FlagStaysClear(Step(k, ops[0]), ops[1..], x, idle);
    }
  }

  /**
   A task that has slept and is back returns 0 from a later timed get, whatever happens in between, if a send serves it
   before its time is up.
   */
  lemma ServedInTime(s: Sem, pre: seq<SemOp>, post: seq<SemOp>, initial: nat, idle: nat)
    requires SemInv(s, initial, idle) && Allows(s, Around(WakeUp), idle)
    requires var back := SemStep(s, Around(WakeUp), idle);
             && SemInv(back, initial, idle) && SemBehavior(back, pre, idle)
             && Behavior(back.k, AllCalls(back, pre, initial, idle), idle)
             && NoAlarm(back.k, AllCalls(back, pre, initial, idle), s.k.current, idle)
    requires var t := SemRun(SemStep(s, Around(WakeUp), idle), pre, idle);
             && t.queue != [] && t.queue[0].id == s.k.current && Has(t.k, t.queue[0].id)
             && SemBehavior(Send(t), post, idle) && Silent(Send(t), post, s.k.current, idle)
             && SemRun(Send(t), post, idle).k.current == s.k.current
    ensures var t := SemRun(SemStep(s, Around(WakeUp), idle), pre, idle);
            var r := SemRun(Send(t), post, idle);
            Has(r.k, r.k.current) && !ReturnsTimedOut(r)
  {
    var back := SemStep(s, Around(WakeUp), idle);
    WakeUpClears(s.k, idle);
    RunsKernel(back, pre, initial, idle);
    FlagStaysClear(back.k, AllCalls(back, pre, initial, idle), s.k.current, idle);
    SemRunKeeps(back, pre, initial, idle);
    SendDecides(SemRun(back, pre, idle), post, initial, idle);
  }
}
