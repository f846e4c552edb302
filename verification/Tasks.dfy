/** kernel/sch.c, kernel/task.c and kernel/clk.c on values: the task state machine and its invariant. */
module Tasks {
  import opened Queues
  import opened Bitmap
  import opened ReadyTable
  import Timers

  // ---------- the state

  /** The states of enum task_status_t, and that of a task whose memory the idle task has taken back. */
  datatype Status = Suspend | Ready | Running | Wait | Close | Freed

  type Priority = p: nat | p < 32 witness 31

  /** struct task_struct_t: the fields that the scheduler works on, with timedOut for flag == -ETIMEDOUT. */
  datatype Task = Task(status: Status, prio: Priority, init: nat, rem: nat, timedOut: bool, timerTick: nat)

  /** MAX_PRIORITY is 32. */
  type Lists = f: Flat | |f.lists| == 32 witness Flat(seq(32, _ => []), 0)

  /** current is -1 before sch_start, and nest is scheduler_lock_nest. */
  datatype Kernel = Kernel(tasks: seq<Task>, ready: Lists, closed: seq<nat>, clock: Clock, current: int, nest: nat)

  type Clock = s: Timers.State | s.now <= Timers.U64_MAX witness Timers.State(0, [], 0, [])

  predicate OnCpu(s: Status) {
    s == Ready || s == Running
  }

  predicate Has(k: Kernel, id: int) {
    0 <= id < |k.tasks|
  }

  // ---------- steps that the calls are made of

  function WithStatus(k: Kernel, id: nat, s: Status): Kernel
    requires Has(k, id)
  {
    k.(tasks := k.tasks[id := k.tasks[id].(status := s)])
  }

  /** add_task_to_ready_list */
  function AddReady(k: Kernel, id: nat): Kernel
    requires Has(k, id)
  {
    WithStatus(k, id, Ready).(ready := AddFlat(k.ready, k.tasks[id].prio, id))
  }

  /** del_task_to_ready_list */
  function DelReady(k: Kernel, id: nat): Kernel
    requires Has(k, id)
  {
    k.(ready := DelFlat(k.ready, k.tasks[id].prio, id))
  }

  /** list_del of task->list, which says nothing to the bitmap. */
  function ListDel(k: Kernel, id: nat): Kernel
    requires Has(k, id)
  {
    var p := k.tasks[id].prio;
    k.(ready := Flat(k.ready.lists[p := Without(k.ready.lists[p], id)], k.ready.group))
  }

  /** timer_stop of the task's timer. */
  function StopTimer(k: Kernel, id: nat): Kernel {
    k.(clock := Timers.Stop(k.clock, id))
  }

  /** timer_ctrl and timer_start of the task's timer, whose priority is that of the task. */
  function StartTimer(k: Kernel, id: nat, tick: nat): Kernel
    requires Has(k, id) && tick <= Timers.U32_MAX
  {
    k.(tasks := k.tasks[id := k.tasks[id].(timerTick := tick)],
       clock := Timers.Start(k.clock, id, tick, k.tasks[id].prio))
  }

  /** The task that switch_task goes to, or -1 where the bitmap is empty, which the invariant excludes. */
  function NextTask(k: Kernel): int {
    if k.ready.group == 0 || k.ready.lists[First(k.ready.group)] == [] then -1
    else k.ready.lists[First(k.ready.group)][0]
  }

  /** switch_task */
  function Switch(k: Kernel): Kernel {
    if k.nest != 0 || !Has(k, NextTask(k)) then k else SwitchTo(k, NextTask(k))
  }

  function SwitchTo(k: Kernel, to: nat): Kernel
    requires Has(k, to)
  {
    var r := WithStatus(k, to, Running);
    if to == k.current then r
    else if Has(k, k.current)
      && r.tasks[k.current].status == Running then WithStatus(r, k.current, Ready).(current := to)
    else r.(current := to)
  }

  // ---------- the calls

  /** __task_create */
  function TaskCreate(k: Kernel, prio: Priority, tick: nat): Kernel {
    k.(tasks := k.tasks + [Task(Suspend, prio, tick, tick, false, 0)])
  }

  /** sch_start */
  function SchStart(k: Kernel): Kernel {
    if Has(k, NextTask(k)) then WithStatus(k, NextTask(k), Running).(current := NextTask(k)) else k
  }

  function TaskReady(k: Kernel, id: nat): Kernel
    requires Has(k, id)
  {
    if OnCpu(k.tasks[id].status) then k
    else if k.current >= 0 then Switch(AddReady(k, id))
    else AddReady(k, id)
  }

  function TaskHang(k: Kernel, id: nat): Kernel
    requires Has(k, id)
  {
    if OnCpu(k.tasks[id].status) then StopTimer(DelReady(WithStatus(k, id, Wait), id), id) else k
  }

  function TaskResume(k: Kernel, id: nat): Kernel
    requires Has(k, id)
  {
    AddReady(StopTimer(ListDel(WithStatus(k, id, Wait), id), id), id)
  }

  /** task_sleep, up to the moment when the task runs again. */
  function TaskSleep(k: Kernel, tick: nat): Kernel
    requires tick <= Timers.U32_MAX
  {
    if tick == 0 || !Has(k, k.current) || !OnCpu(k.tasks[k.current].status) then k
    else Switch(StartTimer(TaskHang(k, k.current), k.current, tick))
  }

  /** The end of task_sleep, when the task runs again: the flag that timeout has set goes. */
  function AfterSleep(k: Kernel): Kernel {
    if Has(k, k.current) && k.tasks[k.current].timedOut
    then k.(tasks := k.tasks[k.current := k.tasks[k.current].(timedOut := false)]) else k
  }

  function TaskYield(k: Kernel): Kernel {
    if Has(k, k.current) && k.tasks[k.current].status == Running && k.current in k.ready.lists[k.tasks[k.current].prio]
    then Switch(Rotate(k, k.current)) else k
  }

  /** The current task goes to the end of its list. */
  function Rotate(k: Kernel, id: nat): Kernel
    requires Has(k, id)
  {
    var p := k.tasks[id].prio;
    k.(ready := Flat(k.ready.lists[p := Without(k.ready.lists[p], id) + [id]], k.ready.group))
  }

  function TaskDel(k: Kernel, id: nat): Kernel
    requires Has(k, id)
  {
    var r := if OnCpu(k.tasks[id].status) then DelReady(k, id) else k;
    var s := StopTimer(WithStatus(r, id, Close), id);
    s.(closed := s.closed + [id])
  }

  /** task_exit */
  function TaskExit(k: Kernel): Kernel {
    if Has(k, k.current) then Switch(TaskDel(k, k.current)) else k
  }

  /** timeout, the function that a task's timer calls. */
  function Timeout(k: Kernel, id: nat): Kernel
    requires Has(k, id)
  {
    Switch(AddReady(ListDel(k.(tasks := k.tasks[id := k.tasks[id].(timedOut := true)]), id), id))
  }

  /** The time slice of the current task. */
  function Slice(k: Kernel): Kernel {
    if !Has(k, k.current) then k
    else
      var t := k.tasks[k.current];
      if t.rem == 1 then TaskYield(k.(tasks := k.tasks[k.current := t.(rem := t.init)]))
      else k.(tasks := k.tasks[k.current := t.(rem := if t.rem == 0 then Timers.U32_MAX else t.rem - 1)])
  }

  /** timer_check with the timeout function of the timer it finds due. */
  function Expire(k: Kernel): Kernel {
    var r := k.(clock := Timers.Check(k.clock));
    if |r.clock.fired| > |k.clock.fired| && Has(r, r.clock.fired[|k.clock.fired|].id)
    then Timeout(r, r.clock.fired[|k.clock.fired|].id) else r
  }

  /** system_beat_processing */
  function Beat(k: Kernel): Kernel {
    Expire(Slice(k.(clock := k.clock.(now := Timers.NextTick(k.clock.now)))))
  }

  /** sch_lock: the nesting depth is an unsigned word. */
  function SchLock(k: Kernel): Kernel {
    k.(nest := if k.nest == Timers.U32_MAX then 0 else k.nest + 1)
  }

  /** sch_unlock: with the scheduler unlocked, the depth wraps and locks it. */
  function SchUnlock(k: Kernel): Kernel {
    if k.nest == 0 then k.(nest := Timers.U32_MAX)
    else if k.nest == 1 then Switch(k.(nest := 0))
    else k.(nest := k.nest - 1)
  }

  /** The idle task takes the first closed task off its list and frees its memory. */
  function Reap(k: Kernel): Kernel {
    if k.closed == [] then k
    else if Has(k, k.closed[0]) then WithStatus(k, k.closed[0], Freed).(closed := k.closed[1..])
    else k.(closed := k.closed[1..])
  }
}
