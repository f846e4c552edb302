/**
 What each call does to every task, field by field, and to the lists: so nothing happens that a call is not there for.
 */
module Effects {
  import opened Queues
  import opened Tasks
  import opened Scheduling
  import opened Ordering
  import opened Sleeping
  import Timers

  // ---------- what a step leaves of a task

  /** The tick fires the timer of the task. */
  predicate FiresFor(k: Kernel, op: Op, x: nat)
    requires Callable(k, op)
  {
    var was, now := k.clock.fired, Step(k, op).clock.fired;
    |now| == |was| + 1 && now[|was|].id == x
  }

  /** Only a tick charges, and only the task that runs; whoever has used up the slice gets a new one. */
  function RemAfter(k: Kernel, op: Op, x: nat): int
    requires Has(k, x)
  {
    var t := k.tasks[x];
    if op != Tick || k.current != x then t.rem else if t.rem == 1 then t.init else t.rem - 1
  }

  /** The flag is set when the timer fires, and goes when the sleeper is back. */
  predicate FlagAfter(k: Kernel, op: Op, x: nat)
    requires Callable(k, op) && Has(k, x)
  {
    FiresFor(k, op, x) || (k.tasks[x].timedOut && !(op == WakeUp && k.current == x))
  }

  /** The task really goes to sleep. */
  predicate Sleeps(k: Kernel, op: Op, x: nat)
    requires Has(k, x)
  {
    op.Sleep? && op.tick != 0 && k.current == x && OnCpu(k.tasks[x].status)
  }

  /** The state of a task, with ready and running taken for one. */
  function Life(s: Status): Status {
    if s == Running then Ready else s
  }

  function LifeAfter(k: Kernel, op: Op, x: nat): Status
    requires Callable(k, op) && Has(k, x)
  {
    var s := Life(k.tasks[x].status);
    match op
    case MakeReady(id) => if id == x then Ready else s
    case Resume(id) => if id == x then Ready else s
    case Hang(id) => if id == x && s == Ready then Wait else s
    case Sleep(_) => if Sleeps(k, op, x) then Wait else s
    case Delete(id) => if id == x then Close else s
    case Exit => if k.current == x then Close else s
    case ReapOne => if k.closed != [] && k.closed[0] == x then Freed else s
    case Tick => if FiresFor(k, op, x) then Ready else s
    case _ => s
  }

  /** A task after a step; task_create and __task_create are about a task that is not there yet. */
  ghost predicate TaskAfter(k: Kernel, op: Op, x: nat, t: Task)
    requires Callable(k, op) && Has(k, x)
  {
    var u := k.tasks[x];
    && t.prio == u.prio && t.init == u.init && t.rem == RemAfter(k, op, x)
    && t.timedOut == FlagAfter(k, op, x) && t.timerTick == (if Sleeps(k, op, x) then op.tick else u.timerTick)
    && Life(t.status) == LifeAfter(k, op, x)
  }

  /** A task that only changes between ready and running, if at all. */
  ghost predicate SameTask(u: Task, t: Task) {
    t == u.(status := t.status) && Life(t.status) == Life(u.status)
  }

  lemma SwitchTasks(k: Kernel, x: nat, idle: nat)
    requires Inv(k, idle) && k.current >= 0 && Has(k, x)
    ensures Has(Switch(k), x) && SameTask(k.tasks[x], Switch(k).tasks[x])
    ensures Switch(k).clock == k.clock && Switch(k).closed == k.closed && Switch(k).nest == k.nest
  {
    NextIs(k, idle);
  }

  /** The task has paid for a tick, if it runs. */
  function Charged(k: Kernel, x: nat): Task
    requires Has(k, x) && (k.current == x ==> k.tasks[x].rem >= 1)
  {
    k.tasks[x].(rem := RemAfter(k, Tick, x))
  }

  lemma SliceTasks(k: Kernel, x: nat, idle: nat)
    requires Inv(k, idle) && k.current >= 0 && Has(k, x)
    ensures Has(Slice(k), x) && SameTask(Charged(k, x), Slice(k).tasks[x])
    ensures Slice(k).clock == k.clock && Slice(k).closed == k.closed && Slice(k).nest == k.nest
    ensures |Slice(k).tasks| == |k.tasks|
  {
    var t := k.tasks[k.current];
    var u := t.(rem := if t.rem == 1 then t.init else t.rem - 1);
    var r := k.(tasks := k.tasks[k.current := u]);
    FieldsKeep(k, k.current, u, idle);
    if t.rem == 1 && t.status == Running {
      RotateKeeps(r, r.current, idle);
      SwitchTasks(Rotate(r, r.current), x, idle);
    }
  }

  /** The timer list has fired its first timer, and nothing else. */
  lemma CheckFires(s: Timers.State)
    requires s.now <= Timers.U64_MAX
    ensures if Timers.Check(s) == s then true
            else s.queue != [] && |Timers.Check(s).fired| == |s.fired| + 1
                 && Timers.Check(s).fired[|s.fired|].id == s.queue[0].id
  {}

  predicate FiredIn(k: Kernel, r: Kernel, x: nat) {
    |r.clock.fired| == |k.clock.fired| + 1 && r.clock.fired[|k.clock.fired|].id == x
  }

  lemma ExpireTasks(k: Kernel, x: nat, idle: nat)
    requires Inv(k, idle) && k.current >= 0 && Has(k, x)
    ensures Has(Expire(k), x) && |Expire(k).tasks| == |k.tasks|
    ensures Expire(k).closed == k.closed && Expire(k).nest == k.nest
    ensures !FiredIn(k, Expire(k), x) ==> SameTask(k.tasks[x], Expire(k).tasks[x])
    ensures FiredIn(k, Expire(k), x) ==>
              SameTask(k.tasks[x].(timedOut := true, status := Ready), Expire(k).tasks[x])
  {
    var r := k.(clock := Timers.Check(k.clock));
    CheckFires(k.clock);
    if r.clock != k.clock {
      ExpireIs(k, idle);
      TimeoutTasks(r, k.clock.queue[0].id, x, idle);
    }
  }

  /** A tick that finds a timer due is a timeout of the task that it belongs to. */
  lemma ExpireIs(k: Kernel, idle: nat)
    requires Inv(k, idle) && Timers.Check(k.clock) != k.clock
    ensures k.clock.queue != [] && Has(k, k.clock.queue[0].id)
    ensures var r, id := k.(clock := Timers.Check(k.clock)), k.clock.queue[0].id;
            && Expire(k) == Timeout(r, id) && Inv(r, idle)
            && r.tasks[id].status == Wait && Timers.At(r.clock.queue, id, -1)
  {
    DueTaskWaits(k, idle);
  }

  lemma TimeoutTasks(k: Kernel, id: nat, x: nat, idle: nat)
    requires Inv(k, idle) && k.current >= 0 && Has(k, id) && Has(k, x)
    requires k.tasks[id].status == Wait && Timers.At(k.clock.queue, id, -1)
    ensures Has(Timeout(k, id), x) && |Timeout(k, id).tasks| == |k.tasks| && Timeout(k, id).clock == k.clock
    ensures Timeout(k, id).closed == k.closed && Timeout(k, id).nest == k.nest
    ensures SameTask(if x == id then k.tasks[x].(timedOut := true, status := Ready) else k.tasks[x],
                     Timeout(k, id).tasks[x])
  {
    var f := k.(tasks := k.tasks[id := k.tasks[id].(timedOut := true)]);
    FieldsKeep(k, id, f.tasks[id], idle);
    NotListed(f, id);
    AddReadyKeeps(f, id, idle);
    SwitchTasks(AddReady(f, id), x, idle);
  }

  lemma BeatTasks(k: Kernel, x: nat, idle: nat)
    requires Inv(k, idle) && k.current >= 0 && Has(k, x)
    ensures Has(Beat(k), x) && TaskAfter(k, Tick, x, Beat(k).tasks[x])
    ensures Beat(k).closed == k.closed && Beat(k).nest == k.nest && |Beat(k).tasks| == |k.tasks|
  {
    var r := k.(clock := k.clock.(now := Timers.NextTick(k.clock.now)));
    SliceKeeps(r, idle);
    SliceTasks(r, x, idle);
    ExpireTasks(Slice(r), x, idle);
  }

  lemma HangTasks(k: Kernel, id: nat, x: nat)
    requires Has(k, id) && Has(k, x)
    ensures Has(TaskHang(k, id), x) && |TaskHang(k, id).tasks| == |k.tasks|
    ensures TaskHang(k, id).tasks[x]
            == if x == id && OnCpu(k.tasks[x].status) then k.tasks[x].(status := Wait) else k.tasks[x]
    ensures TaskHang(k, id).closed == k.closed && TaskHang(k, id).nest == k.nest
    ensures TaskHang(k, id).clock.fired == k.clock.fired && TaskHang(k, id).current == k.current
  {}

  lemma SleepTasks(k: Kernel, tick: nat, x: nat, idle: nat)
    requires Inv(k, idle) && Allowed(k, Sleep(tick), idle) && Has(k, x)
    ensures Has(TaskSleep(k, tick), x) && TaskAfter(k, Sleep(tick), x, TaskSleep(k, tick).tasks[x])
    ensures TaskSleep(k, tick).closed == k.closed && TaskSleep(k, tick).nest == k.nest
    ensures |TaskSleep(k, tick).tasks| == |k.tasks|
  {
    var c := k.current;
    if Sleeps(k, Sleep(tick), c) {
      var t := StartTimer(TaskHang(k, c), c, tick);
      SleptTasks(k, tick, x);
      HangKeeps(k, c, idle);
      StartTimerKeeps(TaskHang(k, c), c, tick, idle);
      SwitchTasks(t, x, idle);
    }
  }

  /** Hung, with the timer started, and not yet switched. */
  lemma SleptTasks(k: Kernel, tick: nat, x: nat)
    requires Has(k, x) && Has(k, k.current) && OnCpu(k.tasks[k.current].status) && 0 < tick <= Timers.U32_MAX
    ensures var t := StartTimer(TaskHang(k, k.current), k.current, tick);
            && Has(t, x) && |t.tasks| == |k.tasks| && t.closed == k.closed && t.nest == k.nest
            && t.clock.fired == k.clock.fired && t.current == k.current
            && t.tasks[x] == if x == k.current then k.tasks[x].(status := Wait, timerTick := tick) else k.tasks[x]
  {
    HangTasks(k, k.current, x);
    ArmedTasks(TaskHang(k, k.current), k.current, tick, x);
  }

  lemma ArmedTasks(k: Kernel, id: nat, tick: nat, x: nat)
    requires Has(k, id) && Has(k, x) && tick <= Timers.U32_MAX
    ensures Has(StartTimer(k, id, tick), x) && |StartTimer(k, id, tick).tasks| == |k.tasks|
    ensures StartTimer(k, id, tick).tasks[x] == if x == id then k.tasks[x].(timerTick := tick) else k.tasks[x]
    ensures StartTimer(k, id, tick).closed == k.closed && StartTimer(k, id, tick).nest == k.nest
    ensures StartTimer(k, id, tick).clock.fired == k.clock.fired
  {}

  lemma DelTasks(k: Kernel, id: nat, x: nat)
    requires Has(k, id) && Has(k, x)
    ensures Has(TaskDel(k, id), x) && |TaskDel(k, id).tasks| == |k.tasks|
    ensures TaskDel(k, id).tasks[x] == if x == id then k.tasks[x].(status := Close) else k.tasks[x]
    ensures TaskDel(k, id).closed == k.closed + [id] && TaskDel(k, id).nest == k.nest
    ensures TaskDel(k, id).clock.fired == k.clock.fired
  {}

  lemma ExitTasks(k: Kernel, x: nat, idle: nat)
    requires Inv(k, idle) && Allowed(k, Exit, idle) && Has(k, x)
    ensures Has(TaskExit(k), x) && TaskAfter(k, Exit, x, TaskExit(k).tasks[x])
    ensures TaskExit(k).closed == k.closed + [k.current] && TaskExit(k).nest == k.nest
    ensures |TaskExit(k).tasks| == |k.tasks|
  {
    var d := TaskDel(k, k.current);
    DelTasks(k, k.current, x);
    DelKeeps(k, k.current, idle);
    SwitchTasks(d, x, idle);
  }

  lemma ReadyTasks(k: Kernel, id: nat, x: nat, idle: nat)
    requires Inv(k, idle) && Allowed(k, MakeReady(id), idle) && Has(k, x)
    ensures Has(TaskReady(k, id), x) && TaskAfter(k, MakeReady(id), x, TaskReady(k, id).tasks[x])
    ensures TaskReady(k, id).closed == k.closed && TaskReady(k, id).nest == k.nest
    ensures |TaskReady(k, id).tasks| == |k.tasks|
  {
    if !OnCpu(k.tasks[id].status) {
      AddReadyKeeps(k, id, idle);
      if k.current >= 0 {
        SwitchTasks(AddReady(k, id), x, idle);
      }
    }
  }

  lemma YieldTasks(k: Kernel, x: nat, idle: nat)
    requires Inv(k, idle) && k.current >= 0 && Has(k, x)
    ensures Has(TaskYield(k), x) && SameTask(k.tasks[x], TaskYield(k).tasks[x])
    ensures TaskYield(k).closed == k.closed && TaskYield(k).nest == k.nest && TaskYield(k).clock == k.clock
    ensures |TaskYield(k).tasks| == |k.tasks|
  {
    if k.tasks[k.current].status == Running {
      RotateKeeps(k, k.current, idle);
      SwitchTasks(Rotate(k, k.current), x, idle);
    }
  }

  /** sch_unlock and switch_task */
  lemma UnlockTasks(k: Kernel, x: nat, idle: nat)
    requires Inv(k, idle) && k.current >= 0 && Has(k, x)
    ensures Has(SchUnlock(k), x) && SameTask(k.tasks[x], SchUnlock(k).tasks[x])
    ensures SchUnlock(k).closed == k.closed && SchUnlock(k).clock == k.clock && |SchUnlock(k).tasks| == |k.tasks|
  {
    if k.nest == 1 {
      SwitchTasks(k.(nest := 0), x, idle);
    }
  }

  /** The idle task takes the first one off the close list. */
  lemma ReapTasks(k: Kernel, x: nat, idle: nat)
    requires Inv(k, idle) && k.closed != [] && Has(k, x)
    ensures Has(Reap(k), x) && TaskAfter(k, ReapOne, x, Reap(k).tasks[x])
    ensures Reap(k).closed == k.closed[1..] && Reap(k).nest == k.nest && |Reap(k).tasks| == |k.tasks|
  {
    ReapKeeps(k, idle);
  }

  /** sch_start */
  lemma StartTasks(k: Kernel, x: nat, idle: nat)
    requires Inv(k, idle) && Allowed(k, Start, idle) && Has(k, x)
    ensures Has(SchStart(k), x) && SameTask(k.tasks[x], SchStart(k).tasks[x])
    ensures SchStart(k).closed == k.closed && SchStart(k).nest == k.nest && |SchStart(k).tasks| == |k.tasks|
  {
    NextIs(k, idle);
  }

  lemma ResumeTasks(k: Kernel, id: nat, x: nat)
    requires Has(k, id) && Has(k, x)
    ensures Has(TaskResume(k, id), x) && |TaskResume(k, id).tasks| == |k.tasks|
    ensures TaskResume(k, id).tasks[x] == if x == id then k.tasks[x].(status := Ready) else k.tasks[x]
    ensures TaskResume(k, id).closed == k.closed && TaskResume(k, id).nest == k.nest
    ensures TaskResume(k, id).clock.fired == k.clock.fired
  {}

  lemma OwnTasks(k: Kernel, op: Op, x: nat)
    requires Callable(k, op) && (op.Create? || op.WakeUp? || op.Lock?) && Has(k, x)
    ensures Has(Step(k, op), x) && TaskAfter(k, op, x, Step(k, op).tasks[x])
  {}

  /** The step leaves of the task what the call is there for. */
  ghost predicate Leaves(k: Kernel, op: Op, x: nat)
    requires Callable(k, op) && Has(k, x)
  {
    Has(Step(k, op), x) && TaskAfter(k, op, x, Step(k, op).tasks[x])
  }

  /** The step leaves the rest alone, but for what it is there for. */
  ghost predicate Rest(k: Kernel, op: Op)
    requires Callable(k, op)
  {
    var r := Step(k, op);
    r.closed == ClosedAfter(k, op) && r.nest == NestAfter(k, op)
    && |r.tasks| == |k.tasks| + if op.Create? then 1 else 0
  }

  lemma ReadyStep(k: Kernel, id: nat, x: nat, idle: nat)
    requires Inv(k, idle) && Allowed(k, MakeReady(id), idle) && Has(k, x)
    ensures Leaves(k, MakeReady(id), x) && Rest(k, MakeReady(id))
  {
    ReadyTasks(k, id, x, idle);
  }

  lemma HangStep(k: Kernel, id: nat, x: nat)
    requires Has(k, id) && Has(k, x)
    ensures Leaves(k, Hang(id), x) && Rest(k, Hang(id))
  {
    HangTasks(k, id, x);
  }

  lemma ResumeStep(k: Kernel, id: nat, x: nat)
    requires Has(k, id) && Has(k, x)
    ensures Leaves(k, Resume(id), x) && Rest(k, Resume(id))
  {
    ResumeTasks(k, id, x);
  }

  lemma DeleteStep(k: Kernel, id: nat, x: nat)
    requires Has(k, id) && Has(k, x)
    ensures Leaves(k, Delete(id), x) && Rest(k, Delete(id))
  {
    DelTasks(k, id, x);
  }

  lemma SwitchStep(k: Kernel, op: Op, x: nat, idle: nat)
    requires Inv(k, idle) && Allowed(k, op, idle) && Has(k, x)
    requires op.Yield? || op.Reschedule? || op.Start?
    ensures Leaves(k, op, x) && Rest(k, op)
  {
    match op
    case Yield => YieldTasks(k, x, idle);
    case Reschedule => SwitchTasks(k, x, idle);
    case Start => StartTasks(k, x, idle);
  }

  /** What each call does to each task that is there. */
  lemma StepTasks(k: Kernel, op: Op, x: nat, idle: nat)
    requires Inv(k, idle) && Allowed(k, op, idle) && Has(k, x)
    ensures Has(Step(k, op), x) && TaskAfter(k, op, x, Step(k, op).tasks[x])
  {
    OnlyTicksFire(k, op);
    assert Leaves(k, op, x) by {
      match op
      case Sleep(tick) => SleepTasks(k, tick, x, idle);
      case Exit => ExitTasks(k, x, idle);
      case Tick => BeatTasks(k, x, idle);
      case ReapOne => ReapTasks(k, x, idle);
      case Create(_, _) => OwnTasks(k, op, x);
      case WakeUp => OwnTasks(k, op, x);
      case Lock => OwnTasks(k, op, x);
      case MakeReady(id) => ReadyStep(k, id, x, idle);
      case Hang(id) => HangStep(k, id, x);
      case Resume(id) => ResumeStep(k, id, x);
      case Delete(id) => DeleteStep(k, id, x);
      case Unlock => UnlockTasks(k, x, idle);
      case _ => SwitchStep(k, op, x, idle);
    }
  }

  // ---------- what a step leaves of the rest

  function ClosedAfter(k: Kernel, op: Op): seq<nat> {
    match op
    case Delete(id) => k.closed + [id]
    case Exit => if k.current >= 0 then k.closed + [k.current] else k.closed
    case ReapOne => if k.closed != [] then k.closed[1..] else []
    case _ => k.closed
  }

  /** The depth of locking counts in 32 bits. */
  function NestAfter(k: Kernel, op: Op): int {
    match op
    case Lock => (k.nest + 1) % 0x1_0000_0000
    case Unlock => (k.nest - 1) % 0x1_0000_0000
    case _ => k.nest
  }

  /**
   The close list, the depth of locking, and the number of tasks, of which a new one is suspended with a whole slice.
   */
  lemma StepRest(k: Kernel, op: Op, idle: nat)
    requires Inv(k, idle) && Allowed(k, op, idle) && k.nest <= Timers.U32_MAX
    ensures Step(k, op).closed == ClosedAfter(k, op) && Step(k, op).nest == NestAfter(k, op)
    ensures |Step(k, op).tasks| == |k.tasks| + if op.Create? then 1 else 0
    ensures op.Create? ==> Step(k, op).tasks[|k.tasks|] == Task(Suspend, op.prio, op.tick, op.tick, false, 0)
  {
    assert Rest(k, op) by {
      match op
      case MakeReady(id) => ReadyStep(k, id, id, idle);
      case Hang(id) => HangStep(k, id, id);
      case Resume(id) => ResumeStep(k, id, id);
      case Delete(id) => DeleteStep(k, id, id);
      case Sleep(tick) => SleepTasks(k, tick, k.current, idle);
      case Exit => ExitTasks(k, k.current, idle);
      case Tick => BeatTasks(k, k.current, idle);
      case Create(_, _) =>
      case WakeUp =>
      case Lock =>
      case Unlock => UnlockTasks(k, k.current, idle);
      case ReapOne => FirstReaped(k, idle);
      case _ => SwitchStep(k, op, if op == Start then idle else k.current, idle);
    }
  }

  lemma FirstReaped(k: Kernel, idle: nat)
    requires Inv(k, idle) && k.closed != []
    ensures Rest(k, ReapOne)
  {
    ReapKeeps(k, idle);
    ReapTasks(k, k.closed[0], idle);
  }

  /** Who runs only changes in calls that come to a switch_task, and in sch_start. */
  lemma StepCurrent(k: Kernel, op: Op, idle: nat)
    requires Inv(k, idle) && Allowed(k, op, idle)
    ensures op.Start? || (Has(k, k.current) && Switches(k, op)) || Step(k, op).current == k.current
  {
    if op == Tick && !Switches(k, op) {
      BeatCurrent(k, idle);
    }
  }

  lemma BeatCurrent(k: Kernel, idle: nat)
    requires Inv(k, idle) && k.current >= 0 && !Switches(k, Tick)
    ensures Beat(k).current == k.current
  {
    var r := k.(clock := k.clock.(now := Timers.NextTick(k.clock.now)));
    SliceKeeps(r, idle);
    SliceCurrent(r);
    ExpireCurrent(Slice(r));
    assert k.nest == 0 ==> !Scheduling.SliceEnds(r) && |Expire(Slice(r)).clock.fired| <= |k.clock.fired|;
  }

  lemma SliceCurrent(k: Kernel)
    requires Has(k, k.current) && k.tasks[k.current].rem >= 1
    ensures Slice(k).nest == k.nest && Slice(k).clock == k.clock
    ensures k.nest != 0 || !Scheduling.SliceEnds(k) ==> Slice(k).current == k.current
  {}

  lemma ExpireCurrent(k: Kernel)
    ensures k.nest != 0 || |Expire(k).clock.fired| <= |k.clock.fired| ==> Expire(k).current == k.current
  {
    CheckFires(k.clock);
  }

  // ---------- who goes behind whom

  /** The steps that put a task at the end of the list of its priority. */
  predicate GoesLast(k: Kernel, op: Op, x: nat)
    requires Callable(k, op) && Has(k, x)
  {
    match op
    case MakeReady(id) => id == x && !OnCpu(k.tasks[x].status)
    case Resume(id) => id == x
    case Yield => k.current == x && k.tasks[x].status == Running
    case Tick => (k.current == x && k.tasks[x].status == Running && k.tasks[x].rem == 1) || FiresFor(k, op, x)
    case _ => false
  }

  lemma Requeued(k: Kernel, x: nat, y: nat)
    requires ListsOk(k.tasks, k.ready.lists) && Has(k, x) && Has(k, y) && x != y
    requires OnCpu(k.tasks[y].status) && k.tasks[y].prio == k.tasks[x].prio
    ensures Ahead(Without(k.ready.lists[k.tasks[x].prio], x) + [x], y, x)
  {
    var l := k.ready.lists[k.tasks[x].prio];
    assert ListOk(k.tasks, k.tasks[x].prio, l);
    WithoutIn(l, x, y);
    AppendAhead(Without(l, x), x, y, x);
  }

  lemma YieldLast(k: Kernel, x: nat, y: nat)
    requires ListsOk(k.tasks, k.ready.lists) && Has(k, x) && Has(k, y) && x != y && k.current == x
    requires k.tasks[x].status == Running && OnCpu(k.tasks[y].status) && k.tasks[y].prio == k.tasks[x].prio
    ensures Ahead(TaskYield(k).ready.lists[k.tasks[x].prio], y, x)
  {
    var p := k.tasks[x].prio;
    assert ListOk(k.tasks, p, k.ready.lists[p]);
    Requeued(k, x, y);
    SwitchFollows(Rotate(k, x));
  }

  lemma ResumeLast(k: Kernel, x: nat, y: nat)
    requires ListsOk(k.tasks, k.ready.lists) && Has(k, x) && Has(k, y) && x != y
    requires OnCpu(k.tasks[y].status) && k.tasks[y].prio == k.tasks[x].prio
    ensures Ahead(TaskResume(k, x).ready.lists[k.tasks[x].prio], y, x)
  {
    Requeued(k, x, y);
    assert TaskResume(k, x).ready.lists == Rotate(k, x).ready.lists;
  }

  /** At the end of its slice. */
  lemma SliceLast(k: Kernel, x: nat, y: nat, idle: nat)
    requires Inv(k, idle) && Has(k, x) && Has(k, y) && x != y && k.current == x
    requires k.tasks[x].status == Running && k.tasks[x].rem == 1
    requires OnCpu(k.tasks[y].status) && k.tasks[y].prio == k.tasks[x].prio
    ensures Ahead(Slice(k).ready.lists[k.tasks[x].prio], y, x)
  {
    var t := k.tasks[x];
    FieldsKeep(k, x, t.(rem := t.init), idle);
    YieldLast(k.(tasks := k.tasks[x := t.(rem := t.init)]), x, y);
  }

  /** When its timer fires. */
  lemma ExpireLast(k: Kernel, x: nat, y: nat, idle: nat)
    requires Inv(k, idle) && k.current >= 0 && FiredIn(k, Expire(k), x)
    requires Has(k, x) && Has(k, y) && OnCpu(k.tasks[y].status) && k.tasks[y].prio == k.tasks[x].prio
    ensures Ahead(Expire(k).ready.lists[k.tasks[x].prio], y, x)
  {
    FiredFirst(k, x);
    ExpireIs(k, idle);
    TimeoutLists(k.(clock := Timers.Check(k.clock)), x);
    assert ListOk(k.tasks, k.tasks[x].prio, k.ready.lists[k.tasks[x].prio]);
    AppendAhead(k.ready.lists[k.tasks[x].prio], x, y, x);
  }

  lemma FiredFirst(k: Kernel, x: nat)
    requires FiredIn(k, Expire(k), x)
    ensures Timers.Check(k.clock) != k.clock && k.clock.queue[0].id == x
  {
    CheckFires(k.clock);
    ExpireClock(k);
  }

  /** timeout appends the task to the list of its priority. */
  lemma TimeoutLists(k: Kernel, x: nat)
    requires ListsOk(k.tasks, k.ready.lists) && Has(k, x) && !OnCpu(k.tasks[x].status)
    ensures Timeout(k, x).ready.lists[k.tasks[x].prio] == k.ready.lists[k.tasks[x].prio] + [x]
  {
    var f := k.(tasks := k.tasks[x := k.tasks[x].(timedOut := true)]);
    ListsSame(k.tasks, k.ready.lists, x, f.tasks[x]);
    NotListed(f, x);
    SwitchFollows(AddReady(f, x));
  }

  lemma BeatLast(k: Kernel, x: nat, y: nat, idle: nat)
    requires Inv(k, idle) && k.current >= 0 && Has(k, x) && Has(k, y) && x != y && GoesLast(k, Tick, x)
    requires OnCpu(k.tasks[y].status) && k.tasks[y].prio == k.tasks[x].prio
    ensures Ahead(Beat(k).ready.lists[k.tasks[x].prio], y, x)
  {
    var r := k.(clock := k.clock.(now := Timers.NextTick(k.clock.now)));
    SliceKeeps(r, idle);
    SliceTasks(r, x, idle);
    SliceTasks(r, y, idle);
    if FiresFor(k, Tick, x) {
      ExpireLast(Slice(r), x, y, idle);
    } else {
      SliceLast(r, x, y, idle);
      ExpireFollows(Slice(r), y, x, idle);
      BeatKeeps(k, idle);
      BeatTasks(k, x, idle);
      WhereListed(Beat(k), x);
    }
  }

  /**
   Whoever becomes ready, yields, or has used up a slice while running, is then behind every task of the same priority
   that was ready before, at any depth of locking.
   */
  lemma StepLast(k: Kernel, op: Op, x: nat, y: nat, idle: nat)
    requires Inv(k, idle) && Allowed(k, op, idle) && Has(k, x) && Has(k, y) && x != y && GoesLast(k, op, x)
    requires OnCpu(k.tasks[y].status) && k.tasks[y].prio == k.tasks[x].prio
    ensures Ahead(Step(k, op).ready.lists[k.tasks[x].prio], y, x)
  {
    match op
    case MakeReady(id) => NewcomerIsLast(k, x, y, idle);
    case Resume(id) => ResumeLast(k, x, y);
    case Yield => YieldLast(k, x, y);
    case Tick => BeatLast(k, x, y, idle);
  }

  // ---------- over runs

  /** How many of the steps are ticks that find the task running. */
  function Ticked(k: Kernel, ops: seq<Op>, x: nat, idle: nat): nat
    requires Behavior(k, ops, idle)
    decreases |ops|
  {
    if ops == [] then 0
    else (if ops[0] == Tick && k.current == x then 1 else 0) + Ticked(Step(k, ops[0]), ops[1..], x, idle)
  }

  /**
   Over every run, a task pays for exactly the ticks that find it running: they are what has gone from its slice, and
   whole slices.
   */
  lemma {:induction false} RunCharges(k: Kernel, ops: seq<Op>, x: nat, idle: nat) returns (slices: nat)
    requires Inv(k, idle) && Behavior(k, ops, idle) && Has(k, x)
    ensures Has(Run(k, ops, idle), x) && Run(k, ops, idle).tasks[x].init == k.tasks[x].init
    ensures k.tasks[x].rem + slices * k.tasks[x].init == Ticked(k, ops, x, idle) + Run(k, ops, idle).tasks[x].rem
    decreases |ops|
  {
    slices := 0;
    if ops != [] {
      var s, init := Step(k, ops[0]), k.tasks[x].init;
      StepKeeps(k, ops[0], idle);
      StepTasks(k, ops[0], x, idle);
      slices := RunCharges(s, ops[1..], x, idle);
      if ops[0] == Tick && k.current == x && k.tasks[x].rem == 1 {
        assert (slices + 1) * init == slices * init + init;
        slices := slices + 1;
      }
    }
  }

  /** A sleeper that is back has no flag, whether its time was up or somebody resumed it. */
  lemma WakeUpClears(k: Kernel, idle: nat)
    requires Inv(k, idle) && k.current >= 0
    ensures Step(k, WakeUp) == k.(tasks := k.tasks[k.current := k.tasks[k.current].(timedOut := false)])
  {
    var r, c := Step(k, WakeUp), k.current;
    StepTasks(k, WakeUp, c, idle);
    assert !k.tasks[c].timedOut ==> k.tasks[c].(timedOut := false) == k.tasks[c];
  }
}
