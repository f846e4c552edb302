/** kernel/sem.c on top of the scheduler: a counter, a queue ordered by priority, and what becomes of every send. */
module Semaphore {
  import opened Tasks
  import opened Scheduling
  import Timers

  /** A task in sem->wait_list. The arrival number says in which order tasks were queued. */
  datatype Waiter = Waiter(id: nat, prio: nat, arrival: nat)

  /**
   The semaphore with the scheduler it blocks tasks on. The counters sends, grants, dequeued and wraps only keep
   account: of sends, of gets that found the count positive, of waiters taken off the queue by a send, and of sends
   that found the 8-bit count full.
   */
  datatype Sem = Sem(k: Kernel, count: nat, queue: seq<Waiter>, arrivals: nat,
                     sends: nat, grants: nat, dequeued: nat, wraps: nat)

  // ---------- the wait queue

  /** The queue goes by non-increasing priority number, and by arrival among equals. */
  predicate Precedes(a: Waiter, b: Waiter) {
    a.prio > b.prio || (a.prio == b.prio && a.arrival < b.arrival)
  }

  ghost predicate InOrder(q: seq<Waiter>) {
    forall i, j :: 0 <= i < j < |q| ==> Precedes(q[i], q[j])
  }

  ghost predicate QueuedOnce(q: seq<Waiter>) {
    forall i, j :: 0 <= i < j < |q| ==> q[i].id != q[j].id
  }

  /** list_del of the wait node of a task that may or may not be queued. */
  function Unqueued(q: seq<Waiter>, id: nat): (r: seq<Waiter>)
  {
    if q == [] then [] else (if q[0].id == id then [] else [q[0]]) + Unqueued(q[1..], id)
  }

  /** The loop of __sem_get stops at the first entry with a smaller priority number. */
  function QueuePlace(q: seq<Waiter>, prio: nat): (k: nat)
    ensures k <= |q| && (forall i :: 0 <= i < k ==> q[i].prio >= prio) && (k < |q| ==> q[k].prio < prio)
  {
    if q != [] && q[0].prio >= prio then 1 + QueuePlace(q[1..], prio) else 0
  }

  function Queued(q: seq<Waiter>, w: Waiter): seq<Waiter> {
    q[..QueuePlace(q, w.prio)] + [w] + q[QueuePlace(q, w.prio)..]
  }

  // ---------- the calls

  /** __sem_get */
  function Enqueue(s: Sem, id: nat): Sem
    requires Has(s.k, id)
  {
    s.(queue := Queued(Unqueued(s.queue, id), Waiter(id, s.k.tasks[id].prio, s.arrivals)), arrivals := s.arrivals + 1)
  }

  /** sem_get of the running task; those of the lowest priority return at once. */
  function Get(s: Sem): Sem
    requires Has(s.k, s.k.current)
  {
    var c := s.k.current;
    if s.k.tasks[c].prio == 31 then s
    else if s.count > 0 then s.(count := s.count - 1, grants := s.grants + 1)
    else Enqueue(s, c).(k := Switch(TaskHang(s.k, c)))
  }

  /** sem_get_timeout of the running task, up to its return with 0 or -EBUSY, or the moment when it is switched off. */
  function GetTimeout(s: Sem, tick: nat): Sem
    requires Has(s.k, s.k.current) && tick <= Timers.U32_MAX
  {
    var c := s.k.current;
    if s.count > 0 then s.(count := s.count - 1, grants := s.grants + 1)
    else if tick == 0 then Enqueue(s, c)
    else Enqueue(s, c).(k := Switch(StartTimer(TaskHang(s.k, c), c, tick)))
  }

  /** The rest of sem_get_timeout, when the task runs again: with the flag set it leaves the queue. */
  function Return(s: Sem): Sem
    requires Has(s.k, s.k.current)
  {
    var c := s.k.current;
    if s.k.tasks[c].timedOut
    then s.(k := s.k.(tasks := s.k.tasks[c := s.k.tasks[c].(timedOut := false)]), queue := Unqueued(s.queue, c))
    else s
  }

  /** What it returns: -ETIMEDOUT, or 0. */
  predicate ReturnsTimedOut(s: Sem)
    requires Has(s.k, s.k.current)
  {
    s.k.tasks[s.k.current].timedOut
  }

  /** sem_send with num == 1 */
  function Send(s: Sem): Sem
    requires s.queue != [] ==> Has(s.k, s.queue[0].id)
  {
    var r := if s.queue != [] then WakeFirst(s) else Post(s);
    r.(k := Switch(r.k))
  }

  function WakeFirst(s: Sem): Sem
    requires s.queue != [] && Has(s.k, s.queue[0].id)
  {
    s.(queue := s.queue[1..], k := TaskResume(s.k, s.queue[0].id), sends := s.sends + 1, dequeued := s.dequeued + 1)
  }

  function Post(s: Sem): Sem {
    if s.count == 255 then s.(count := 0, sends := s.sends + 1, wraps := s.wraps + 1)
    else s.(count := s.count + 1, sends := s.sends + 1)
  }

  // ---------- the invariant

  ghost predicate QueueOk(k: Kernel, q: seq<Waiter>, arrivals: nat) {
    && InOrder(q) && QueuedOnce(q)
    && forall i :: 0 <= i < |q| ==> Alive(k, q[i].id) && q[i].prio == k.tasks[q[i].id].prio && q[i].arrival < arrivals
  }

  /** initial is the count that sem_alloc was given. */
  ghost predicate SemInv(s: Sem, initial: nat, idle: nat) {
    && Inv(s.k, idle) && s.k.current >= 0
    && QueueOk(s.k, s.queue, s.arrivals)
    && (s.count > 0 ==> s.queue == [])
    && s.count <= 255 && initial + s.sends == s.count + s.grants + s.dequeued + 256 * s.wraps
  }

  lemma {:induction false} UnqueuedKeeps(k: Kernel, q: seq<Waiter>, arrivals: nat, id: nat)
    requires QueueOk(k, q, arrivals)
    ensures QueueOk(k, Unqueued(q, id), arrivals)
    ensures forall w :: w in Unqueued(q, id) ==> w in q && w.id != id
  {
    if q != [] {
      UnqueuedKeeps(k, q[1..], arrivals, id);
      var r := Unqueued(q[1..], id);
      forall i | 0 <= i < |r| ensures Precedes(q[0], r[i]) && r[i].id != q[0].id {
        assert r[i] in q[1..];
      }
    }
  }

  lemma QueuedKeeps(k: Kernel, q: seq<Waiter>, arrivals: nat, id: nat)
    requires QueueOk(k, q, arrivals) && Alive(k, id) && forall w :: w in q ==> w.id != id
    ensures QueueOk(k, Queued(q, Waiter(id, k.tasks[id].prio, arrivals)), arrivals + 1)
  {
    var w := Waiter(id, k.tasks[id].prio, arrivals);
    var p := QueuePlace(q, w.prio);
    var r := Queued(q, w);
    forall i | 0 <= i < |q| ensures if i < p then Precedes(q[i], w) else Precedes(w, q[i]) {
      assert p < i ==> Precedes(q[p], q[i]);
    }
    QueuedInOrder(q, p, w);
  }

  lemma QueuedInOrder(q: seq<Waiter>, p: nat, w: Waiter)
    requires InOrder(q) && QueuedOnce(q) && p <= |q| && (forall x :: x in q ==> x.id != w.id)
    requires forall i :: 0 <= i < p ==> Precedes(q[i], w)
    requires forall i :: p <= i < |q| ==> Precedes(w, q[i])
    ensures InOrder(q[..p] + [w] + q[p..]) && QueuedOnce(q[..p] + [w] + q[p..])
  {}

  // ---------- what the scheduler does to a waiter

  /** No task disappears, and none is closed. */
  ghost predicate Keeps(k: Kernel, r: Kernel) {
    |k.tasks| <= |r.tasks| && forall x :: 0 <= x < |k.tasks| ==> Same(k.tasks[x], r.tasks[x])
  }

  predicate Same(t: Task, u: Task) {
    u.prio == t.prio && (t.status != Close && t.status != Freed ==> u.status != Close && u.status != Freed)
  }

  lemma SwitchSame(k: Kernel)
    ensures Keeps(k, Switch(k))
  {}

  lemma HangSame(k: Kernel, id: nat)
    requires Has(k, id)
    ensures Keeps(k, TaskHang(k, id))
  {}

  lemma StartTimerSame(k: Kernel, id: nat, tick: nat)
    requires Has(k, id) && tick <= Timers.U32_MAX
    ensures Keeps(k, StartTimer(k, id, tick))
  {}

  lemma ResumeSame(k: Kernel, id: nat)
    requires Has(k, id)
    ensures Keeps(k, TaskResume(k, id))
  {}

  lemma QueueCarries(k: Kernel, r: Kernel, q: seq<Waiter>, arrivals: nat)
    requires QueueOk(k, q, arrivals) && Keeps(k, r)
    ensures QueueOk(r, q, arrivals)
  {
    forall i | 0 <= i < |q| ensures Alive(r, q[i].id) && q[i].prio == r.tasks[q[i].id].prio && q[i].arrival < arrivals {
      assert Same(k.tasks[q[i].id], r.tasks[q[i].id]);
    }
  }

  // ---------- the calls keep the invariant

  /** The running task calls, and is not the idle task. */
  predicate Calling(s: Sem, idle: nat) {
    Has(s.k, s.k.current) && s.k.tasks[s.k.current].status == Running && s.k.current != idle
  }

  lemma EnqueueKeeps(s: Sem, id: nat, idle: nat)
    requires QueueOk(s.k, s.queue, s.arrivals) && Alive(s.k, id)
    ensures QueueOk(s.k, Enqueue(s, id).queue, Enqueue(s, id).arrivals)
  {
    UnqueuedKeeps(s.k, s.queue, s.arrivals, id);
    QueuedKeeps(s.k, Unqueued(s.queue, id), s.arrivals, id);
  }

  lemma GetKeeps(s: Sem, initial: nat, idle: nat)
    requires SemInv(s, initial, idle) && Calling(s, idle)
    ensures SemInv(Get(s), initial, idle)
  {
    var c := s.k.current;
    if s.k.tasks[c].prio != 31 && s.count == 0 {
      var h := TaskHang(s.k, c);
      HangKeeps(s.k, c, idle);
      SwitchSettles(h, idle);
      EnqueueKeeps(s, c, idle);
      HangSame(s.k, c);
      QueueCarries(s.k, h, Enqueue(s, c).queue, s.arrivals + 1);
      SwitchSame(h);
      QueueCarries(h, Switch(h), Enqueue(s, c).queue, s.arrivals + 1);
    }
  }

  lemma GetTimeoutKeeps(s: Sem, tick: nat, initial: nat, idle: nat)
    requires SemInv(s, initial, idle) && Calling(s, idle) && tick <= Timers.U32_MAX
    ensures SemInv(GetTimeout(s, tick), initial, idle)
  {
    var c := s.k.current;
    if s.count == 0 {
      EnqueueKeeps(s, c, idle);
      if tick > 0 {
        BlockKeeps(s.k, tick, Enqueue(s, c).queue, s.arrivals + 1, idle);
      }
    }
  }

  lemma BlockKeeps(k: Kernel, tick: nat, q: seq<Waiter>, arrivals: nat, idle: nat)
    requires Inv(k, idle) && k.current >= 0 && k.current != idle && k.tasks[k.current].status == Running
    requires 0 < tick <= Timers.U32_MAX && QueueOk(k, q, arrivals)
    ensures var r := Switch(StartTimer(TaskHang(k, k.current), k.current, tick));
            Inv(r, idle) && r.current >= 0 && QueueOk(r, q, arrivals)
  {
    var c, h := k.current, TaskHang(k, k.current);
    var t := StartTimer(h, c, tick);
    HangKeeps(k, c, idle);
    StartTimerKeeps(h, c, tick, idle);
    SwitchSettles(t, idle);
    HangSame(k, c);
    QueueCarries(k, h, q, arrivals);
    StartTimerSame(h, c, tick);
    QueueCarries(h, t, q, arrivals);
    SwitchSame(t);
    QueueCarries(t, Switch(t), q, arrivals);
  }

  lemma ReturnKeeps(s: Sem, initial: nat, idle: nat)
    requires SemInv(s, initial, idle) && Calling(s, idle)
    ensures SemInv(Return(s), initial, idle)
  {
    var c := s.k.current;
    if s.k.tasks[c].timedOut {
      var t := s.k.tasks[c].(timedOut := false);
      var r := s.k.(tasks := s.k.tasks[c := t]);
      FieldsKeep(s.k, c, t, idle);
      UnqueuedKeeps(s.k, s.queue, s.arrivals, c);
      assert Keeps(s.k, r);
      QueueCarries(s.k, r, Unqueued(s.queue, c), s.arrivals);
    }
  }

  lemma SendKeeps(s: Sem, initial: nat, idle: nat)
    requires SemInv(s, initial, idle)
    ensures SemInv(Send(s), initial, idle)
  {
    if s.queue == [] {
      SwitchSettles(s.k, idle);
    } else {
      var id, rest := s.queue[0].id, s.queue[1..];
      var r := TaskResume(s.k, id);
      ResumeKeeps(s.k, id, idle);
      SwitchSettles(r, idle);
      TailOk(s.k, s.queue, s.arrivals);
      ResumeSame(s.k, id);
      QueueCarries(s.k, r, rest, s.arrivals);
      SwitchSame(r);
      QueueCarries(r, Switch(r), rest, s.arrivals);
    }
  }

  lemma TailOk(k: Kernel, q: seq<Waiter>, arrivals: nat)
    requires QueueOk(k, q, arrivals) && q != []
    ensures QueueOk(k, q[1..], arrivals)
  {}

  // ---------- runs

  /** Everything that happens around a semaphore; Around is any other step of the scheduler, a tick for instance. */
  datatype SemOp = GetOp | GetTimeoutOp(tick: nat) | ReturnOp | SendOp | Around(op: Op)

  ghost predicate Allows(s: Sem, op: SemOp, idle: nat) {
    match op
    case GetOp => Calling(s, idle)
    case GetTimeoutOp(tick) => Calling(s, idle) && tick <= Timers.U32_MAX
    case ReturnOp => Calling(s, idle)
    case SendOp => s.queue != [] ==> Has(s.k, s.queue[0].id)
    case Around(o) => Allowed(s.k, o, idle) && o != Start && forall i :: 0 <= i < |s.queue| ==>
      !Ends(s.k, o, s.queue[i].id)
  }

  /** A task must not be deleted while it is in the wait queue: task_del does not take it out. */
  predicate Ends(k: Kernel, op: Op, id: nat) {
    op == Delete(id) || (op == Exit && k.current == id)
  }

  /** Deleting a task keeps the invariant if and only if the task is not in the wait queue. */
  lemma DeleteIff(s: Sem, id: nat, initial: nat, idle: nat)
    requires SemInv(s, initial, idle) && Alive(s.k, id) && id != idle
    ensures SemInv(s.(k := TaskDel(s.k, id)), initial, idle) <==> forall i :: 0 <= i < |s.queue| ==> s.queue[i].id != id
  {
    DelKeeps(s.k, id, idle);
    forall i | 0 <= i < |s.queue| && s.queue[i].id != id
      ensures Has(TaskDel(s.k, id), s.queue[i].id)
              && TaskDel(s.k, id).tasks[s.queue[i].id] == s.k.tasks[s.queue[i].id]
    {
      DelSame(s.k, id, s.queue[i].id);
    }
  }

  function SemStep(s: Sem, op: SemOp, idle: nat): Sem
    requires Allows(s, op, idle)
  {
    match op
    case GetOp => Get(s)
    case GetTimeoutOp(tick) => GetTimeout(s, tick)
    case ReturnOp => Return(s)
    case SendOp => Send(s)
    case Around(o) => s.(k := Step(s.k, o))
  }

  lemma StepSame(k: Kernel, op: Op, x: nat, idle: nat)
    requires Inv(k, idle) && Allowed(k, op, idle) && Has(k, x) && !Ends(k, op, x)
    ensures Has(Step(k, op), x) && Same(k.tasks[x], Step(k, op).tasks[x])
  {
    match op
    case Delete(id) => DelSame(k, id, x);
    case Exit => ExitSame(k, x);
    case Sleep(tick) => SleepSame(k, tick);
    case Tick => BeatSame(k);
    case Resume(id) => ResumeSame(k, id);
    case MakeReady(id) => MakeReadySame(k, id);
    case Yield => YieldSame(k);
    case Unlock => UnlockSame(k);
    case Reschedule => SwitchSame(k);
    case ReapOne => ReapSame(k, idle);
    case Hang(id) => HangSame(k, id);
    case Start => StartSame(k);
    case Create(prio, tick) => CreateSame(k, prio, tick);
    case WakeUp => WakeUpSame(k);
    case Lock =>
  }

  lemma StartSame(k: Kernel)
    ensures Keeps(k, SchStart(k))
  {}

  lemma CreateSame(k: Kernel, prio: Priority, tick: nat)
    ensures Keeps(k, TaskCreate(k, prio, tick))
  {}

  lemma WakeUpSame(k: Kernel)
    ensures Keeps(k, AfterSleep(k))
  {}

  lemma ReapSame(k: Kernel, idle: nat)
    requires Inv(k, idle) && k.closed != []
    ensures Keeps(k, Reap(k))
  {
    ReapKeeps(k, idle);
  }

  lemma MakeReadySame(k: Kernel, id: nat)
    requires Has(k, id)
    ensures Keeps(k, TaskReady(k, id))
  {
    SwitchSame(AddReady(k, id));
  }

  lemma UnlockSame(k: Kernel)
    ensures Keeps(k, SchUnlock(k))
  {
    SwitchSame(k.(nest := 0));
  }

  lemma ExitSame(k: Kernel, x: nat)
    requires Has(k, x) && k.current != x
    ensures Has(TaskExit(k), x) && Same(k.tasks[x], TaskExit(k).tasks[x])
  {
    if Has(k, k.current) {
      DelSame(k, k.current, x);
      SwitchSame(TaskDel(k, k.current));
    }
  }

  lemma SleepSame(k: Kernel, tick: nat)
    requires tick <= Timers.U32_MAX
    ensures Keeps(k, TaskSleep(k, tick))
  {
    if tick != 0 && Has(k, k.current) {
      HangSame(k, k.current);
      StartTimerSame(TaskHang(k, k.current), k.current, tick);
      SwitchSame(StartTimer(TaskHang(k, k.current), k.current, tick));
    }
  }

  lemma DelSame(k: Kernel, id: nat, x: nat)
    requires Has(k, id) && Has(k, x) && x != id
    ensures Has(TaskDel(k, id), x) && TaskDel(k, id).tasks[x] == k.tasks[x]
  {}

  lemma YieldSame(k: Kernel)
    ensures Keeps(k, TaskYield(k))
  {
    if Has(k, k.current) {
      SwitchSame(Rotate(k, k.current));
    }
  }

  lemma BeatSame(k: Kernel)
    ensures Keeps(k, Beat(k))
  {
    var r := k.(clock := k.clock.(now := Timers.NextTick(k.clock.now)));
    SliceSame(r);
    ExpireSame(Slice(r));
  }

  lemma SliceSame(k: Kernel)
    ensures Keeps(k, Slice(k))
  {
    if Has(k, k.current) && k.tasks[k.current].rem == 1 {
      YieldSame(k.(tasks := k.tasks[k.current := k.tasks[k.current].(rem := k.tasks[k.current].init)]));
    }
  }

  lemma ExpireSame(k: Kernel)
    ensures Keeps(k, Expire(k))
  {
    var r := k.(clock := Timers.Check(k.clock));
    if r.clock != k.clock && Has(r, k.clock.queue[0].id) {
      TimeoutSame(r, k.clock.queue[0].id);
    }
  }

  lemma TimeoutSame(k: Kernel, id: nat)
    requires Has(k, id)
    ensures Keeps(k, Timeout(k, id))
  {
    var r := AddReady(ListDel(k.(tasks := k.tasks[id := k.tasks[id].(timedOut := true)]), id), id);
    assert Keeps(k, r);
    SwitchSame(r);
  }

  lemma AroundKeeps(s: Sem, op: Op, initial: nat, idle: nat)
    requires SemInv(s, initial, idle) && Allows(s, Around(op), idle)
    ensures SemInv(s.(k := Step(s.k, op)), initial, idle)
  {
    var r := Step(s.k, op);
    StepKeeps(s.k, op, idle);
    CurrentStays(s.k, op, idle);
    forall i | 0 <= i < |s.queue|
      ensures Alive(r, s.queue[i].id) && s.queue[i].prio == r.tasks[s.queue[i].id].prio
              && s.queue[i].arrival < s.arrivals
    {
      StepSame(s.k, op, s.queue[i].id, idle);
    }
  }

  /** Once there is a running task, there always is one. */
  lemma CurrentStays(k: Kernel, op: Op, idle: nat)
    requires Inv(k, idle) && Allowed(k, op, idle) && k.current >= 0
    ensures Step(k, op).current >= 0
  {
    match op
    case MakeReady(id) =>
      if k.tasks[id].status == Suspend {
        MakeReadyKeeps(k, id, idle);
      }
    case Sleep(tick) => SleepKeeps(k, tick, idle);
    case Yield => YieldKeeps(k, idle);
    case Exit => ExitKeeps(k, idle);
    case Reschedule => SwitchSettles(k, idle);
    case Tick => BeatKeeps(k, idle);
    case Unlock => UnlockKeeps(k, idle);
    case _ =>
  }

  /**
   In every reachable state the queue is in order, a positive count means that nobody waits, and the account is
   balanced.
   */
  lemma SemStepKeeps(s: Sem, op: SemOp, initial: nat, idle: nat)
    requires SemInv(s, initial, idle) && Allows(s, op, idle)
    ensures SemInv(SemStep(s, op, idle), initial, idle)
  {
    match op
    case GetOp => GetKeeps(s, initial, idle);
    case GetTimeoutOp(tick) => GetTimeoutKeeps(s, tick, initial, idle);
    case ReturnOp => ReturnKeeps(s, initial, idle);
    case SendOp => SendKeeps(s, initial, idle);
    case Around(o) => AroundKeeps(s, o, initial, idle);
  }

  ghost predicate SemBehavior(s: Sem, ops: seq<SemOp>, idle: nat)
    decreases |ops|
  {
    ops != [] ==> Allows(s, ops[0], idle) && SemBehavior(SemStep(s, ops[0], idle), ops[1..], idle)
  }

  ghost function SemRun(s: Sem, ops: seq<SemOp>, idle: nat): Sem
    requires SemBehavior(s, ops, idle)
    decreases |ops|
  {
    if ops == [] then s else SemRun(SemStep(s, ops[0], idle), ops[1..], idle)
  }

  lemma {:induction false} SemRunKeeps(s: Sem, ops: seq<SemOp>, initial: nat, idle: nat)
    requires SemInv(s, initial, idle) && SemBehavior(s, ops, idle)
    ensures SemInv(SemRun(s, ops, idle), initial, idle)
    decreases |ops|
  {
    if ops != [] {
      SemStepKeeps(s, ops[0], initial, idle);
      SemRunKeeps(SemStep(s, ops[0], idle), ops[1..], initial, idle);
    }
  }

  /** sem_alloc */
  function SemAlloc(k: Kernel, initial: nat): Sem {
    Sem(k, initial, [], 0, 0, 0, 0, 0)
  }

  /**
   Conservation: over every run the initial count and the sends are the count, the grants and the waiters that
   sends took off the queue; up to the 8 bits of the count in general, and exactly as long as no send finds the
   count at 255.
   */
  lemma Conservation(k: Kernel, initial: nat, ops: seq<SemOp>, idle: nat)
    requires Inv(k, idle) && k.current >= 0 && initial <= 255 && SemBehavior(SemAlloc(k, initial), ops, idle)
    ensures var r := SemRun(SemAlloc(k, initial), ops, idle);
            && initial + r.sends == r.count + r.grants + r.dequeued + 256 * r.wraps
            && (r.wraps == 0 <==> initial + r.sends == r.count + r.grants + r.dequeued)
            && (r.count > 0 ==> r.queue == []) && InOrder(r.queue)
  {
    SemRunKeeps(SemAlloc(k, initial), ops, initial, idle);
  }

  // ---------- what a get does for its caller

  /** A get that finds the count at 0 leaves its caller queued and waiting. */
  lemma GetBlocks(s: Sem, initial: nat, idle: nat)
    requires SemInv(s, initial, idle) && Calling(s, idle) && s.count == 0 && s.k.tasks[s.k.current].prio != 31
    ensures var r, c := Get(s), s.k.current;
            && Has(r.k, c) && r.k.tasks[c].status == Wait && r.count == 0 && r.grants == s.grants
            && exists w :: w in r.queue && w.id == c
  {
    var c := s.k.current;
    HangKeeps(s.k, c, idle);
    NotChosen(TaskHang(s.k, c), c, idle);
    EnqueuedIn(s, c);
  }

  /** A timed get does so too, and arms the timer of its caller. */
  lemma GetTimeoutBlocks(s: Sem, tick: nat, initial: nat, idle: nat)
    requires SemInv(s, initial, idle) && Calling(s, idle) && s.count == 0 && 0 < tick <= Timers.U32_MAX
    ensures var r, c := GetTimeout(s, tick), s.k.current;
            && Has(r.k, c) && r.k.tasks[c].status == Wait && Armed(r.k, c)
            && (exists e :: e in r.k.clock.queue && e.id == c && e.deadline == Timers.Deadline(s.k.clock.now, tick))
            && exists w :: w in r.queue && w.id == c
  {
    var c := s.k.current;
    var h := TaskHang(s.k, c);
    HangKeeps(s.k, c, idle);
    StartTimerKeeps(h, c, tick, idle);
    NotChosen(StartTimer(h, c, tick), c, idle);
    ArmedBy(h, c, tick);
    EnqueuedIn(s, c);
  }

  lemma ArmedBy(k: Kernel, id: nat, tick: nat)
    requires Has(k, id) && tick <= Timers.U32_MAX
    ensures Armed(StartTimer(k, id, tick), id)
    ensures var q, deadline := StartTimer(k, id, tick).clock.queue, Timers.Deadline(k.clock.now, tick);
            exists e :: e in q && e.id == id && e.deadline == deadline
  {
    var e := Timers.Entry(id, Timers.Deadline(k.clock.now, tick), k.tasks[id].prio, k.clock.arrivals);
    var q := Timers.Removed(k.clock.queue, id);
    var p := Timers.Place(q, k.clock.now, e);
    assert StartTimer(k, id, tick).clock.queue[p] == e;
  }

  lemma EnqueuedIn(s: Sem, id: nat)
    requires Has(s.k, id)
    ensures exists w :: w in Enqueue(s, id).queue && w.id == id
  {
    var w := Waiter(id, s.k.tasks[id].prio, s.arrivals);
    assert Enqueue(s, id).queue[QueuePlace(Unqueued(s.queue, id), w.prio)] == w;
  }

  /** A waiter that returns with -ETIMEDOUT has left the queue and has no flag any more: no later send goes to it. */
  lemma ReturnLeaves(s: Sem, initial: nat, idle: nat)
    requires SemInv(s, initial, idle) && Calling(s, idle) && ReturnsTimedOut(s)
    ensures var r, c := Return(s), s.k.current;
            && Has(r.k, c) && !r.k.tasks[c].timedOut && r.count == s.count
            && forall w :: w in r.queue <==> w in s.queue && w.id != c
  {
    UnqueuedKeeps(s.k, s.queue, s.arrivals, s.k.current);
    UnqueuedOnly(s.queue, s.k.current);
  }

  lemma {:induction false} UnqueuedOnly(q: seq<Waiter>, id: nat)
    ensures forall w :: w in q && w.id != id ==> w in Unqueued(q, id)
  {
    if q != [] {
      UnqueuedOnly(q[1..], id);
    }
  }

  // ---------- what a send does for a waiter

  /** A send takes the first waiter, stops its timer and makes it ready, but leaves its flag as it is. */
  lemma SendReaches(s: Sem, initial: nat, idle: nat)
    requires SemInv(s, initial, idle) && s.queue != []
    ensures var id, r := s.queue[0].id, Send(s);
            && Has(r.k, id) && OnCpu(r.k.tasks[id].status) && Timers.At(r.k.clock.queue, id, -1)
            && r.k.tasks[id].timedOut == s.k.tasks[id].timedOut && r.count == s.count == 0
            && forall w :: w in r.queue ==> w.id != id && Precedes(s.queue[0], w)
  {
    var id := s.queue[0].id;
    var r := TaskResume(s.k, id);
    TimersStop(s.k.tasks, s.k.clock.queue, id);
    ResumeKeeps(s.k, id, idle);
    assert OnCpu(r.tasks[id].status) && r.tasks[id].timedOut == s.k.tasks[id].timedOut;
    SwitchFlags(r, id);
    forall w | w in s.queue[1..] ensures w.id != id && Precedes(s.queue[0], w) {
      var i :| 0 <= i < |s.queue[1..]| && s.queue[1..][i] == w;
      assert s.queue[i + 1] == w;
    }
  }

  lemma SwitchFlags(k: Kernel, id: nat)
    requires Has(k, id) && OnCpu(k.tasks[id].status)
    ensures OnCpu(Switch(k).tasks[id].status) && Switch(k).tasks[id].timedOut == k.tasks[id].timedOut
    ensures Switch(k).clock == k.clock
  {}
}
