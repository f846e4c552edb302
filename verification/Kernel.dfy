/** kernel/sch.c, kernel/task.c and kernel/clk.c in place, proved against the functions of Tasks. */
module Kernel {
  import opened Queues
  import opened Bitmap
  import opened ReadyTable
  import opened Tasks
  import opened TimerList
  import opened Scheduling
  import Timers

  /** struct task_struct_t, with the place of the task among those created as its address. */
  class TaskStruct {
    const id: nat
    const currentPriority: Priority
    const initTick: nat
    const timer: TimerStruct
    var status: Status
    var remainingTick: nat
    var timedOut: bool

    /** __task_create */
    constructor (id: nat, priority: Priority, tick: nat)
      ensures Value() == Task(Suspend, priority, tick, tick, false, 0)
      ensures this.id == id == timer.id && timer.priority == priority && fresh(timer)
    {
      timer := new TimerStruct(id, priority, 0);
      this.id, currentPriority, initTick, remainingTick := id, priority, tick, tick;
      status, timedOut := Suspend, false;
    }

    ghost function Value(): Task
      reads this, timer
    {
      Task(status, currentPriority, initTick, remainingTick, timedOut, timer.initTick)
    }
  }

  ghost function TimersOf(tasks: seq<TaskStruct>): set<TimerStruct> {
    set i | 0 <= i < |tasks| :: tasks[i].timer
  }

  ghost function Values(tasks: seq<TaskStruct>): (v: seq<Task>)
    reads tasks, TimersOf(tasks)
    ensures |v| == |tasks| && forall i :: 0 <= i < |v| ==> v[i] == tasks[i].Value()
  {
    seq(|tasks|, i requires 0 <= i < |tasks| reads tasks, TimersOf(tasks) => tasks[i].Value())
  }

  /** The globals of the scheduler. */
  class System {
    const timeouts: Timeouts
    var tasks: seq<TaskStruct>
    var lists: seq<seq<nat>>
    var group: bv32
    var closed: seq<nat>
    var current: int
    var nest: nat

    ghost predicate Valid()
      reads this, tasks, timeouts
    {
      && |lists| == 32 && timeouts.Valid()
      && (forall i :: 0 <= i < |tasks| ==>
           tasks[i].id == i && tasks[i].timer.id == i && tasks[i].timer.priority == tasks[i].currentPriority)
      && (forall u :: u in timeouts.list ==> u in TimersOf(tasks))
    }

    ghost function Abs(): Tasks.Kernel
      reads this, tasks, TimersOf(tasks), timeouts, timeouts.list
      requires Valid()
    {
      Tasks.Kernel(Values(tasks), Flat(lists, group), closed, timeouts.Abs(), current, nest)
    }

    /** sch_init */
    constructor ()
      ensures Valid() && fresh(timeouts)
      ensures Abs() == Tasks.Kernel([], Flat(NoTasks(32), 0), [], Timers.State(0, [], 0, []), -1, 0)
    {
      timeouts := new Timeouts();
      tasks, lists, group, closed, current, nest := [], NoTasks(32), 0, [], -1, 0;
    }

    ghost predicate Known(task: TaskStruct)
      reads this
    {
      task.id < |tasks| && tasks[task.id] == task
    }

    method SetStatus(task: TaskStruct, s: Status)
      requires Valid() && Known(task)
      modifies task`status
      ensures Valid() && Abs() == WithStatus(old(Abs()), task.id, s)
    {
      task.status := s;
      assert Abs().tasks == WithStatus(old(Abs()), task.id, s).tasks;
    }

    method SetLists(p: Priority, list: seq<nat>, g: bv32)
      requires Valid()
      modifies this`lists, this`group
      ensures Valid() && Abs() == old(Abs()).(ready := Flat(old(lists)[p := list], g))
    {
      lists := lists[p := list];
      group := g;
    }

    /** add_task_to_ready_list */
    method AddTaskToReadyList(task: TaskStruct)
      requires Valid() && Known(task)
      modifies this`lists, this`group, task`status
      ensures Valid() && Abs() == AddReady(old(Abs()), task.id)
    {
      var p := task.currentPriority;
      SetStatus(task, Ready);
      SetLists(p, lists[p] + [task.id], group | Mask(p));
    }

    /** del_task_to_ready_list */
    method DelTaskToReadyList(task: TaskStruct)
      requires Valid() && Known(task)
      modifies this`lists, this`group
      ensures Valid() && Abs() == DelReady(old(Abs()), task.id)
    {
      var p := task.currentPriority;
      var list := Without(lists[p], task.id);
      if list == [] {
        SetLists(p, list, group & !Mask(p));
      } else {
        SetLists(p, list, group);
      }
    }

    /** list_del of the list node of a task that is in a ready list, or in none. */
    method ListDelTask(task: TaskStruct)
      requires Valid() && Known(task)
      modifies this`lists, this`group
      ensures Valid() && Abs() == ListDel(old(Abs()), task.id)
    {
      var p := task.currentPriority;
      SetLists(p, Without(lists[p], task.id), group);
    }

    method StopTaskTimer(task: TaskStruct)
      requires Valid() && Known(task)
      modifies timeouts`list
      ensures Valid() && Abs() == StopTimer(old(Abs()), task.id)
    {
      timeouts.TimerStop(task.timer);
    }

    method SetTimerTick(task: TaskStruct, tick: nat)
      requires Valid() && Known(task) && tick <= Timers.U32_MAX
      modifies task.timer`initTick
      ensures Valid() && task.timer.initTick == tick
      ensures Abs() == old(Abs()).(tasks := old(Abs()).tasks[task.id := old(Abs()).tasks[task.id].(timerTick := tick)])
    {
      timeouts.TimerCtrl(task.timer, tick);
      assert Abs().tasks == old(Abs()).tasks[task.id := old(Abs()).tasks[task.id].(timerTick := tick)];
    }

    /** timer_ctrl and timer_start */
    method StartTaskTimer(task: TaskStruct, tick: nat)
      requires Valid() && Known(task) && 0 < tick <= Timers.U32_MAX
      modifies timeouts`list, timeouts`arrivals, task.timer
      ensures Valid() && Abs() == StartTimer(old(Abs()), task.id, tick)
    {
      SetTimerTick(task, tick);
      timeouts.TimerStart(task.timer);
    }

    method FirstReady() returns (to: int)
      requires Valid()
      ensures Valid() && to == NextTask(Abs())
    {
      to := -1;
      if group != 0 && lists[First(group)] != [] {
        to := lists[First(group)][0];
      }
    }

    /** switch_task */
    method SwitchTask()
      requires Valid()
      modifies this`current, tasks
      ensures Valid() && Abs() == Switch(old(Abs()))
    {
      ghost var k := Abs();
      if nest == 0 {
        var to := FirstReady();
        assert Abs() == k && (0 <= to < |tasks| <==> Has(k, NextTask(k)));
        if 0 <= to < |tasks| {
          SwitchToTask(tasks[to]);
        }
      }
    }

    method SwitchToTask(task: TaskStruct)
      requires Valid() && Known(task)
      modifies this`current, tasks
      ensures Valid() && Abs() == SwitchTo(old(Abs()), task.id)
    {
      SetStatus(task, Running);
      if task.id != current {
        if 0 <= current < |tasks| && tasks[current].status == Running {
          SetStatus(tasks[current], Ready);
        }
        current := task.id;
      }
    }

    /** sch_start */
    method Start()
      requires Valid()
      modifies this`current, tasks
      ensures Valid() && Abs() == SchStart(old(Abs()))
    {
      var to := FirstReady();
      if 0 <= to < |tasks| {
        SetStatus(tasks[to], Running);
        current := to;
      }
    }

    method TaskReady(task: TaskStruct)
      requires Valid() && Known(task)
      modifies this`lists, this`group, this`current, tasks
      ensures Valid() && Abs() == Tasks.TaskReady(old(Abs()), task.id)
    {
      if task.status == Ready || task.status == Running {
        return;
      }
      AddTaskToReadyList(task);
      if current >= 0 {
        SwitchTask();
      }
    }

    method TaskHang(task: TaskStruct) returns (rc: int)
      requires Valid() && Known(task)
      modifies this`lists, this`group, task`status, timeouts`list
      ensures Valid() && Abs() == Tasks.TaskHang(old(Abs()), task.id)
      ensures rc == if OnCpu(old(task.status)) then 0 else -1
    {
      if task.status != Ready && task.status != Running {
        return -1;
      }
      SetStatus(task, Wait);
      DelTaskToReadyList(task);
      StopTaskTimer(task);
      return 0;
    }

    method TaskResume(task: TaskStruct) returns (rc: int)
      requires Valid() && Known(task)
      modifies this`lists, this`group, task`status, timeouts`list
      ensures Valid() && Abs() == Tasks.TaskResume(old(Abs()), task.id) && rc == 0
    {
      if task.status != Wait {
        SetStatus(task, Wait);
      }
      ListDelTask(task);
      StopTaskTimer(task);
      AddTaskToReadyList(task);
      return 0;
    }

    /** task_sleep, up to the moment when the task runs again. */
    method TaskSleep(tick: nat) returns (rc: int)
      requires Valid() && tick <= Timers.U32_MAX
      modifies this`lists, this`group, this`current, tasks, TimersOf(tasks), timeouts
      ensures Valid() && Abs() == Tasks.TaskSleep(old(Abs()), tick)
      ensures rc == 0 || (rc == -1 && Abs() == old(Abs()))
      ensures rc == 0 <==> tick != 0 && 0 <= old(current) < |tasks| && OnCpu(old(Abs()).tasks[old(current)].status)
      ensures forall idle :: Inv(old(Abs()), idle) && 0 <= old(current) && old(current) != idle ==>
                               (rc == 0 <==> WentToSleep(old(Abs()), Abs()))
    {
      forall idle | Inv(Abs(), idle) && 0 <= current && current != idle
        ensures tick != 0 && OnCpu(Abs().tasks[current].status) <==> WentToSleep(Abs(), Tasks.TaskSleep(Abs(), tick))
      {
        SleepsIff(Abs(), tick, idle);
      }
      if tick == 0 || !(0 <= current < |tasks|) {
        return -1;
      }
      var task := tasks[current];
      rc := TaskHang(task);
      if rc != 0 {
        return rc;
      }
      StartTaskTimer(task, tick);
      SwitchTask();
    }

    /** The end of task_sleep. */
    method AfterTaskSleep() returns (rc: int)
      requires Valid()
      modifies tasks
      ensures Valid() && Abs() == AfterSleep(old(Abs())) && rc == 0
    {
      if 0 <= current < |tasks| && tasks[current].timedOut {
        SetTimedOut(tasks[current], false);
      }
      return 0;
    }

    method TaskYieldCpu() returns (rc: int)
      requires Valid()
      modifies this`lists, this`group, this`current, tasks
      ensures Valid() && Abs() == TaskYield(old(Abs())) && rc == 0
    {
      if 0 <= current < |tasks| && tasks[current].status == Running
         && current in lists[tasks[current].currentPriority] {
        var p := tasks[current].currentPriority;
        SetLists(p, Without(lists[p], current) + [current], group);
        SwitchTask();
      }
      return 0;
    }

    method TaskDelete(task: TaskStruct)
      requires Valid() && Known(task)
      modifies this`lists, this`group, this`closed, task`status, timeouts`list
      ensures Valid() && Abs() == TaskDel(old(Abs()), task.id)
    {
      if task.status == Ready || task.status == Running {
        DelTaskToReadyList(task);
      }
      SetStatus(task, Close);
      StopTaskTimer(task);
      AddToCloseList(task.id);
    }

    method AddToCloseList(id: nat)
      requires Valid()
      modifies this`closed
      ensures Valid() && Abs() == old(Abs()).(closed := old(Abs()).closed + [id])
    {
      closed := closed + [id];
    }

    method TaskExit()
      requires Valid()
      modifies this`lists, this`group, this`closed, this`current, tasks, timeouts`list
      ensures Valid() && Abs() == Tasks.TaskExit(old(Abs()))
    {
      if 0 <= current < |tasks| {
        TaskDelete(tasks[current]);
        SwitchTask();
      }
    }

    /** task->flag becomes -ETIMEDOUT, or 0. */
    method SetTimedOut(task: TaskStruct, b: bool)
      requires Valid() && Known(task)
      modifies task`timedOut
      ensures Valid()
      ensures Abs() == old(Abs()).(tasks := old(Abs()).tasks[task.id := old(Abs()).tasks[task.id].(timedOut := b)])
    {
      task.timedOut := b;
      assert Abs().tasks == old(Abs()).tasks[task.id := old(Abs()).tasks[task.id].(timedOut := b)];
    }

    /** timeout, the function that a task's timer calls. */
    method TimeoutOf(task: TaskStruct)
      requires Valid() && Known(task)
      modifies this`lists, this`group, this`current, tasks
      ensures Valid() && Abs() == Timeout(old(Abs()), task.id)
    {
      SetTimedOut(task, true);
      ListDelTask(task);
      AddTaskToReadyList(task);
      SwitchTask();
    }

    method SetRemaining(task: TaskStruct, rem: nat)
      requires Valid() && Known(task)
      modifies task`remainingTick
      ensures Valid() && task.remainingTick == rem
      ensures Abs() == old(Abs()).(tasks := old(Abs()).tasks[task.id := old(Abs()).tasks[task.id].(rem := rem)])
    {
      task.remainingTick := rem;
      assert Abs().tasks == old(Abs()).tasks[task.id := old(Abs()).tasks[task.id].(rem := rem)];
    }

    /** The part of system_beat_processing about the running task. */
    method SliceTick()
      requires Valid()
      modifies this`lists, this`group, this`current, tasks
      ensures Valid() && Abs() == Slice(old(Abs()))
    {
      if !(0 <= current < |tasks|) {
        return;
      }
      var task := tasks[current];
      if task.remainingTick == 1 {
        SetRemaining(task, task.initTick);
        var rc := TaskYieldCpu();
      } else {
        SetRemaining(task, if task.remainingTick == 0 then Timers.U32_MAX else task.remainingTick - 1);
      }
    }

    method PopDue() returns (due: int)
      requires Valid()
      modifies timeouts`list, timeouts`fired
      ensures Valid() && Abs() == old(Abs()).(clock := Timers.Check(old(Abs()).clock))
      ensures var was, now := old(Abs()).clock.fired, Abs().clock.fired;
              if |now| > |was| then due == now[|was|].id else due == -1
    {
      var popped := timeouts.TimerCheck();
      due := if popped == [] then -1 else popped[0].id;
    }

    /** timer_check, with the call of the timeout function. */
    method TimerCheck()
      requires Valid()
      modifies this`lists, this`group, this`current, tasks, timeouts`list, timeouts`fired
      ensures Valid() && Abs() == Expire(old(Abs()))
    {
      var due := PopDue();
      if 0 <= due < |tasks| {
        TimeoutOf(tasks[due]);
      }
    }

    method NextRunTick()
      requires Valid()
      modifies timeouts`runTick
      ensures Valid()
      ensures Abs() == old(Abs()).(clock := old(Abs()).clock.(now := Timers.NextTick(old(Abs()).clock.now)))
    {
      timeouts.Beat();
    }

    /** system_beat_processing */
    method SystemBeat()
      requires Valid()
      modifies this`lists, this`group, this`current, tasks, timeouts
      ensures Valid() && Abs() == Beat(old(Abs()))
    {
      NextRunTick();
      SliceTick();
      TimerCheck();
    }

    method LockScheduler()
      requires Valid()
      modifies this`nest
      ensures Valid() && Abs() == SchLock(old(Abs()))
    {
      SetNest(if nest == Timers.U32_MAX then 0 else nest + 1);
    }

    method SetNest(n: nat)
      requires Valid()
      modifies this`nest
      ensures Valid() && nest == n && Abs() == old(Abs()).(nest := n)
    {
      nest := n;
    }

    method UnlockScheduler()
      requires Valid()
      modifies this`nest, this`current, tasks
      ensures Valid() && Abs() == SchUnlock(old(Abs()))
    {
      SetNest(if nest == 0 then Timers.U32_MAX else nest - 1);
      if nest == 0 {
        SwitchTask();
      }
    }

    /** One turn of idle_task_handle, but for the memory. */
    method ReapClosed()
      requires Valid()
      modifies this`closed, tasks
      ensures Valid() && Abs() == Reap(old(Abs()))
    {
      if closed != [] {
        var id := closed[0];
        closed := closed[1..];
        if id < |tasks| {
          SetStatus(tasks[id], Freed);
        }
      }
    }

    /** __task_create */
    method CreateTask(prio: nat, tick: nat) returns (rc: int)
      requires Valid()
      modifies this`tasks
      ensures Valid() && Abs() == if prio < 32 then TaskCreate(old(Abs()), prio, tick) else old(Abs())
      ensures rc == (if prio < 32 then 0 else -22)
    {
      if prio >= 32 {
        return -22;
      }
      var task := new TaskStruct(|tasks|, prio, tick);
      AddTask(task);
      return 0;
    }

    method AddTask(task: TaskStruct)
      requires Valid() && task.id == |tasks| == task.timer.id && task.timer.priority == task.currentPriority
      modifies this`tasks
      ensures Valid() && Abs() == old(Abs()).(tasks := old(Abs()).tasks + [task.Value()])
    {
      ghost var was := tasks;
      tasks := tasks + [task];
      assert Values(tasks) == Values(was) + [task.Value()];
      forall u | u in timeouts.list ensures u in TimersOf(tasks) {
        var i :| 0 <= i < |was| && was[i].timer == u;
        assert tasks[i].timer == u;
      }
    }
  }
}
