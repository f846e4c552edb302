/** What every reachable state of the scheduler keeps, and what switch_task then guarantees. */
module Scheduling {
  import opened Queues
  import opened Bitmap
  import opened ReadyTable
  import opened Tasks
  import Timers

  // ---------- the invariant

  /** The list of priority p holds the ready and running tasks of that priority, each once. */
  ghost predicate ListOk(tasks: seq<Task>, p: nat, l: seq<nat>) {
    Distinct(l) && forall x: nat :: x in l <==> x < |tasks| && tasks[x].prio == p && OnCpu(tasks[x].status)
  }

  ghost predicate ListsOk(tasks: seq<Task>, lists: seq<seq<nat>>) {
    |lists| == 32 && forall p :: 0 <= p < 32 ==> ListOk(tasks, p, lists[p])
  }

  /** The close list holds the closed tasks that have not been reaped, each once. */
  ghost predicate ClosedOk(tasks: seq<Task>, closed: seq<nat>) {
    Distinct(closed) && forall x: nat :: x in closed <==> x < |tasks| && tasks[x].status == Close
  }

  /** Only waiting tasks have an armed timer, and only one. */
  ghost predicate TimersOk(tasks: seq<Task>, queue: seq<Timers.Entry>) {
    Timers.UniqueIds(queue) && forall i :: 0 <= i < |queue| ==>
      queue[i].id < |tasks| && tasks[queue[i].id].status == Wait
  }

  ghost predicate RunningOk(tasks: seq<Task>, current: int) {
    -1 <= current < |tasks| && forall x :: 0 <= x < |tasks| && tasks[x].status == Running ==> x == current
  }

  ghost predicate SlicesOk(tasks: seq<Task>) {
    forall x :: 0 <= x < |tasks| ==> 1 <= tasks[x].rem <= tasks[x].init <= Timers.U32_MAX
  }

  /** The idle task never blocks. */
  ghost predicate IdleOk(tasks: seq<Task>, idle: nat) {
    idle < |tasks| && tasks[idle].prio == 31 && OnCpu(tasks[idle].status)
  }

  ghost predicate Inv(k: Kernel, idle: nat) {
    && Marks(k.ready.group, k.ready.lists) && ListsOk(k.tasks, k.ready.lists)
    && ClosedOk(k.tasks, k.closed) && TimersOk(k.tasks, k.clock.queue)
    && RunningOk(k.tasks, k.current) && SlicesOk(k.tasks)
    && (k.current >= 0 ==> IdleOk(k.tasks, idle))
  }

  /** The current task is the first one of the lowest-numbered list that is not empty, and it alone is running. */
  ghost predicate Settled(k: Kernel) {
    && Lowest(k.ready.lists) < 32 && k.ready.lists[Lowest(k.ready.lists)] != []
    && k.current == k.ready.lists[Lowest(k.ready.lists)][0] && Has(k, k.current)
    && forall x :: 0 <= x < |k.tasks| ==> (k.tasks[x].status == Running <==> x == k.current)
  }

  // ---------- one task changes

  /** The task keeps its priority, and is still on the CPU's lists, or still not. */
  lemma ListsSame(tasks: seq<Task>, lists: seq<seq<nat>>, id: nat, t: Task)
    requires ListsOk(tasks, lists) && id < |tasks|
    requires t.prio == tasks[id].prio && OnCpu(t.status) == OnCpu(tasks[id].status)
    ensures ListsOk(tasks[id := t], lists)
  {
    forall p | 0 <= p < 32 ensures ListOk(tasks[id := t], p, lists[p]) {
      assert ListOk(tasks, p, lists[p]);
    }
  }

  lemma ListsAdd(tasks: seq<Task>, lists: seq<seq<nat>>, id: nat, t: Task)
    requires ListsOk(tasks, lists) && id < |tasks|
    requires t.prio == tasks[id].prio && OnCpu(t.status) && !OnCpu(tasks[id].status)
    ensures ListsOk(tasks[id := t], lists[t.prio := lists[t.prio] + [id]])
  {
    var ls := lists[t.prio := lists[t.prio] + [id]];
    forall p | 0 <= p < 32 ensures ListOk(tasks[id := t], p, ls[p]) {
      assert ListOk(tasks, p, lists[p]);
    }
  }

  lemma ListsDel(tasks: seq<Task>, lists: seq<seq<nat>>, id: nat, t: Task)
    requires ListsOk(tasks, lists) && id < |tasks|
    requires t.prio == tasks[id].prio && !OnCpu(t.status)
    ensures ListsOk(tasks[id := t], lists[t.prio := Without(lists[t.prio], id)])
  {
    var ls := lists[t.prio := Without(lists[t.prio], id)];
    forall p | 0 <= p < 32 ensures ListOk(tasks[id := t], p, ls[p]) {
      assert ListOk(tasks, p, lists[p]);
      if p == t.prio {
        WithoutDistinct(lists[p], id);
        forall x: nat ensures x in ls[p] <==> x in lists[p] && x != id {
          WithoutIn(lists[p], id, x);
        }
      }
    }
  }

  lemma TimersKeep(tasks: seq<Task>, queue: seq<Timers.Entry>, id: nat, t: Task)
    requires TimersOk(tasks, queue) && id < |tasks|
    requires tasks[id].status != Wait || t.status == Wait || Timers.At(queue, id, -1)
    ensures TimersOk(tasks[id := t], queue)
  {}

  lemma TimersStop(tasks: seq<Task>, queue: seq<Timers.Entry>, id: nat)
    requires TimersOk(tasks, queue)
    ensures TimersOk(tasks, Timers.Removed(queue, id)) && Timers.At(Timers.Removed(queue, id), id, -1)
  {
    var r := Timers.Removed(queue, id);
    RemovedUnique(queue, id);
    RemovedIn(queue, id);
    forall i | 0 <= i < |r| ensures r[i].id != id && r[i].id < |tasks| && tasks[r[i].id].status == Wait {
      assert r[i] in r;
      var k :| 0 <= k < |queue| && queue[k] == r[i];
    }
  }

  lemma {:induction false} RemovedUnique(queue: seq<Timers.Entry>, id: nat)
    requires Timers.UniqueIds(queue)
    ensures Timers.UniqueIds(Timers.Removed(queue, id))
  {
    if queue != [] {
      RemovedUnique(queue[1..], id);
      RemovedIn(queue[1..], id);
      UniquePrepend(queue[0], Timers.Removed(queue[1..], id));
    }
  }

  lemma UniquePrepend(e: Timers.Entry, r: seq<Timers.Entry>)
    requires Timers.UniqueIds(r) && forall x :: x in r ==> x.id != e.id
    ensures Timers.UniqueIds([e] + r)
  {}

  lemma {:induction false} RemovedIn(queue: seq<Timers.Entry>, id: nat)
    ensures forall e :: e in Timers.Removed(queue, id) ==> e in queue && e.id != id
  {
    if queue != [] {
      RemovedIn(queue[1..], id);
    }
  }

  // ---------- steps keep the invariant

  /** A task that is neither on the CPU's lists nor closed, and whose timer is not armed, becomes ready. */
  lemma AddReadyKeeps(k: Kernel, id: nat, idle: nat)
    requires Inv(k, idle) && Has(k, id)
    requires k.tasks[id].status == Suspend || (k.tasks[id].status == Wait && Timers.At(k.clock.queue, id, -1))
    ensures Inv(AddReady(k, id), idle)
  {
    var t := k.tasks[id].(status := Ready);
    AddFlatMarks(k.ready, t.prio, id);
    ListsAdd(k.tasks, k.ready.lists, id, t);
    TimersKeep(k.tasks, k.clock.queue, id, t);
  }

  lemma StopTimerKeeps(k: Kernel, id: nat, idle: nat)
    requires Inv(k, idle)
    ensures Inv(StopTimer(k, id), idle) && Timers.At(StopTimer(k, id).clock.queue, id, -1)
  {
    TimersStop(k.tasks, k.clock.queue, id);
  }

  /** del_task_to_ready_list, together with the change of the status around it. */
  lemma DelReadyKeeps(k: Kernel, id: nat, idle: nat)
    requires Inv(k, idle) && Has(k, id) && OnCpu(k.tasks[id].status) && id != idle
    ensures Inv(WithStatus(DelReady(k, id), id, Wait), idle)
    ensures WithStatus(DelReady(k, id), id, Wait) == DelReady(WithStatus(k, id, Wait), id)
  {
    var t := k.tasks[id].(status := Wait);
    assert ListOk(k.tasks, t.prio, k.ready.lists[t.prio]);
    DelFlatMarks(k.ready, t.prio, id);
    ListsDel(k.tasks, k.ready.lists, id, t);
    TimersKeep(k.tasks, k.clock.queue, id, t);
  }

  /** A change of a task that leaves its status and priority alone. */
  lemma FieldsKeep(k: Kernel, id: nat, t: Task, idle: nat)
    requires Inv(k, idle) && Has(k, id) && t.status == k.tasks[id].status && t.prio == k.tasks[id].prio
    requires 1 <= t.rem <= t.init <= Timers.U32_MAX
    ensures Inv(k.(tasks := k.tasks[id := t]), idle)
  {
    ListsSame(k.tasks, k.ready.lists, id, t);
    TimersKeep(k.tasks, k.clock.queue, id, t);
  }

  lemma {:induction false} InsertedKeeps(tasks: seq<Task>, queue: seq<Timers.Entry>, now: nat, e: Timers.Entry)
    requires TimersOk(tasks, queue) && now <= Timers.U64_MAX && e.id < |tasks| && tasks[e.id].status == Wait
    requires Timers.At(queue, e.id, -1)
    ensures TimersOk(tasks, Timers.Inserted(queue, now, e))
  {}

  lemma StartTimerKeeps(k: Kernel, id: nat, tick: nat, idle: nat)
    requires Inv(k, idle) && Has(k, id) && k.tasks[id].status == Wait && tick <= Timers.U32_MAX
    ensures Inv(StartTimer(k, id, tick), idle)
  {
    var e := Timers.Entry(id, Timers.Deadline(k.clock.now, tick), k.tasks[id].prio, k.clock.arrivals);
    FieldsKeep(k, id, k.tasks[id].(timerTick := tick), idle);
    var r := k.(tasks := k.tasks[id := k.tasks[id].(timerTick := tick)]);
    TimersStop(r.tasks, k.clock.queue, id);
    InsertedKeeps(r.tasks, Timers.Removed(k.clock.queue, id), k.clock.now, e);
  }

  // ---------- switch_task

  /** With some task ready, the bitmap leads to the first task of the lowest-numbered list that is not empty. */
  lemma NextIs(k: Kernel, id: nat)
    requires Marks(k.ready.group, k.ready.lists) && ListsOk(k.tasks, k.ready.lists)
    requires Has(k, id) && OnCpu(k.tasks[id].status)
    ensures Lowest(k.ready.lists) <= k.tasks[id].prio && k.ready.lists[Lowest(k.ready.lists)] != []
    ensures NextTask(k) == k.ready.lists[Lowest(k.ready.lists)][0]
    ensures Has(k, NextTask(k)) && OnCpu(k.tasks[NextTask(k)].status)
  {
    var p, lists := k.tasks[id].prio, k.ready.lists;
    assert ListOk(k.tasks, p, lists[p]);
    assert NonEmpty(lists, p);
    MarksLowest(k.ready.group, lists);
    LowestLeast(lists, p);
    assert ListOk(k.tasks, Lowest(lists), lists[Lowest(lists)]);
    assert lists[Lowest(lists)][0] in lists[Lowest(lists)];
  }

  lemma {:induction false} LowestLeast(lists: seq<seq<nat>>, p: nat)
    requires NonEmpty(lists, p)
    ensures Lowest(lists) <= p
  {
    if p > 0 {
      assert NonEmpty(lists[1..], p - 1);
      LowestLeast(lists[1..], p - 1);
    }
  }

  /** Ready and running may be exchanged: the lists do not notice. */
  lemma StatusKeeps(k: Kernel, id: nat, s: Status)
    requires ListsOk(k.tasks, k.ready.lists) && ClosedOk(k.tasks, k.closed) && TimersOk(k.tasks, k.clock.queue)
    requires SlicesOk(k.tasks) && Has(k, id) && OnCpu(k.tasks[id].status) && OnCpu(s)
    ensures var r := WithStatus(k, id, s);
            && ListsOk(r.tasks, k.ready.lists) && ClosedOk(r.tasks, k.closed) && TimersOk(r.tasks, k.clock.queue)
            && SlicesOk(r.tasks)
  {
    ListsSame(k.tasks, k.ready.lists, id, k.tasks[id].(status := s));
    TimersKeep(k.tasks, k.clock.queue, id, k.tasks[id].(status := s));
  }

  lemma SwitchToKeeps(k: Kernel, to: nat, idle: nat)
    requires Inv(k, idle) && Has(k, to) && OnCpu(k.tasks[to].status) && k.current >= 0
    ensures Inv(SwitchTo(k, to), idle) && SwitchTo(k, to).ready == k.ready && SwitchTo(k, to).current == to
    ensures forall x :: 0 <= x < |k.tasks| ==> (SwitchTo(k, to).tasks[x].status == Running <==> x == to)
  {
    StatusKeeps(k, to, Running);
    var r := WithStatus(k, to, Running);
    if to != k.current && r.tasks[k.current].status == Running {
      StatusKeeps(r, k.current, Ready);
    }
  }

  /**
   switch_task keeps the invariant. With the scheduler unlocked, the current task is then the first one of
   the lowest-numbered list that is not empty, and the only one running.
   */
  lemma SwitchSettles(k: Kernel, idle: nat)
    requires Inv(k, idle) && k.current >= 0
    ensures Inv(Switch(k), idle) && Switch(k).current >= 0
    ensures if k.nest == 0 then Settled(Switch(k)) else Switch(k) == k
  {
    NextIs(k, idle);
    SwitchToKeeps(k, NextTask(k), idle);
  }

  /** switch_task leaves a task that is not ready as it is. */
  lemma NotChosen(k: Kernel, c: nat, idle: nat)
    requires Inv(k, idle) && k.current >= 0 && Has(k, c) && !OnCpu(k.tasks[c].status)
    ensures Has(Switch(k), c) && Switch(k).tasks[c] == k.tasks[c] && Switch(k).clock == k.clock
            && (k.nest == 0 ==> Switch(k).current != c)
  {
    NextIs(k, idle);
  }

  /** sch_start */
  lemma SchStartSettles(k: Kernel, idle: nat)
    requires Inv(k, idle) && k.current == -1 && IdleOk(k.tasks, idle)
    ensures Inv(SchStart(k), idle) && Settled(SchStart(k))
  {
    NextIs(k, idle);
    StatusKeeps(k, NextTask(k), Running);
  }

  // ---------- the calls keep the invariant

  lemma RotateKeeps(k: Kernel, id: nat, idle: nat)
    requires Inv(k, idle) && Has(k, id) && OnCpu(k.tasks[id].status)
    ensures Inv(Rotate(k, id), idle)
  {
    var p := k.tasks[id].prio;
    var l := k.ready.lists[p];
    assert ListOk(k.tasks, p, l);
    MarksKeep(k.ready.group, k.ready.lists, p, Without(l, id) + [id]);
    ListsRotate(k.tasks, k.ready.lists, id);
  }

  lemma ListsRotate(tasks: seq<Task>, lists: seq<seq<nat>>, id: nat)
    requires ListsOk(tasks, lists) && id < |tasks| && OnCpu(tasks[id].status)
    ensures var p := tasks[id].prio; ListsOk(tasks, lists[p := Without(lists[p], id) + [id]])
  {
    var ls := lists[tasks[id].prio := Without(lists[tasks[id].prio], id) + [id]];
    forall p | 0 <= p < 32 ensures ListOk(tasks, p, ls[p]) {
      assert ListOk(tasks, p, lists[p]);
      if p == tasks[id].prio {
        WithoutDistinct(lists[p], id);
        forall x: nat ensures x in Without(lists[p], id) <==> x in lists[p] && x != id {
          WithoutIn(lists[p], id, x);
        }
      }
    }
  }

  lemma YieldKeeps(k: Kernel, idle: nat)
    requires Inv(k, idle) && k.current >= 0
    ensures Inv(TaskYield(k), idle) && TaskYield(k).current >= 0
  {
    if k.tasks[k.current].status == Running {
      RotateKeeps(k, k.current, idle);
      SwitchSettles(Rotate(k, k.current), idle);
    }
  }

  /** The task is in no ready list. */
  ghost predicate Unlisted(k: Kernel, id: nat) {
    forall p :: 0 <= p < 32 ==> id !in k.ready.lists[p]
  }

  /** The task is in the ready list of its priority, once, and in no other. */
  ghost predicate ListedOnce(k: Kernel, id: nat)
    requires Has(k, id)
  {
    && Distinct(k.ready.lists[k.tasks[id].prio])
    && forall p :: 0 <= p < 32 ==> (id in k.ready.lists[p] <==> p == k.tasks[id].prio)
  }

  lemma WhereListed(k: Kernel, id: nat)
    requires ListsOk(k.tasks, k.ready.lists) && Has(k, id)
    ensures if OnCpu(k.tasks[id].status) then ListedOnce(k, id) else Unlisted(k, id)
  {
    forall p | 0 <= p < 32
      ensures Distinct(k.ready.lists[p])
      ensures id in k.ready.lists[p] <==> p == k.tasks[id].prio && OnCpu(k.tasks[id].status)
    {
      assert ListOk(k.tasks, p, k.ready.lists[p]);
    }
  }

  lemma HangKeeps(k: Kernel, id: nat, idle: nat)
    requires Inv(k, idle) && Has(k, id) && id != idle
    ensures Inv(TaskHang(k, id), idle)
    ensures OnCpu(k.tasks[id].status) ==>
              var r := TaskHang(k, id);
              r.tasks[id].status == Wait && Timers.At(r.clock.queue, id, -1) && Unlisted(r, id)
  {
    if OnCpu(k.tasks[id].status) {
      DelReadyKeeps(k, id, idle);
      StopTimerKeeps(DelReady(WithStatus(k, id, Wait), id), id, idle);
      WhereListed(TaskHang(k, id), id);
    }
  }

  lemma SleepKeeps(k: Kernel, tick: nat, idle: nat)
    requires Inv(k, idle) && k.current >= 0 && k.current != idle && tick <= Timers.U32_MAX
    ensures Inv(TaskSleep(k, tick), idle) && TaskSleep(k, tick).current >= 0
    ensures tick != 0 && OnCpu(k.tasks[k.current].status) ==>
              var r, c := TaskSleep(k, tick), k.current;
              Has(r, c) && r.tasks[c].status == Wait && Armed(r, c) && Unlisted(r, c)
  {
    var c := k.current;
    if tick != 0 && OnCpu(k.tasks[c].status) {
      var t := StartTimer(TaskHang(k, c), c, tick);
      HangKeeps(k, c, idle);
      StartTimerKeeps(TaskHang(k, c), c, tick, idle);
      SwitchSettles(t, idle);
      NotChosen(t, c, idle);
      StartArms(TaskHang(k, c), c, tick);
      WhereListed(Switch(t), c);
    }
  }

  /** The task that called has gone to sleep: it was on a ready list, and now waits with its timer armed. */
  ghost predicate WentToSleep(k: Kernel, r: Kernel) {
    Has(k, k.current) && OnCpu(k.tasks[k.current].status)
    && Has(r, k.current) && r.tasks[k.current].status == Wait && Armed(r, k.current)
  }

  lemma SleepsIff(k: Kernel, tick: nat, idle: nat)
    requires Inv(k, idle) && k.current >= 0 && k.current != idle && tick <= Timers.U32_MAX
    ensures tick != 0 && OnCpu(k.tasks[k.current].status) <==> WentToSleep(k, TaskSleep(k, tick))
  {
    SleepKeeps(k, tick, idle);
  }

  lemma StartArms(k: Kernel, id: nat, tick: nat)
    requires Has(k, id) && tick <= Timers.U32_MAX
    ensures Armed(StartTimer(k, id, tick), id)
  {
    var e := Timers.Entry(id, Timers.Deadline(k.clock.now, tick), k.tasks[id].prio, k.clock.arrivals);
    var p := Timers.Place(Timers.Removed(k.clock.queue, id), k.clock.now, e);
    assert StartTimer(k, id, tick).clock.queue[p] == e;
  }

  lemma WakeUpKeeps(k: Kernel, idle: nat)
    requires Inv(k, idle) && k.current >= 0
    ensures Inv(AfterSleep(k), idle) && AfterSleep(k).current >= 0
  {
    FieldsKeep(k, k.current, k.tasks[k.current].(timedOut := false), idle);
  }

  /** task_resume of a task in any state but closed: also one that is ready stays in exactly one list. */
  lemma ResumeKeeps(k: Kernel, id: nat, idle: nat)
    requires Inv(k, idle) && Has(k, id) && k.tasks[id].status != Close && k.tasks[id].status != Freed
    ensures Inv(TaskResume(k, id), idle)
    ensures var r := TaskResume(k, id);
            Has(r, id) && r.tasks[id].status == Ready && Timers.At(r.clock.queue, id, -1) && ListedOnce(r, id)
  {
    if OnCpu(k.tasks[id].status) {
      ResumeReady(k, id, idle);
    } else {
      ResumeWaiting(k, id, idle);
    }
    TimersStop(k.tasks, k.clock.queue, id);
    WhereListed(TaskResume(k, id), id);
  }

  lemma ResumeWaiting(k: Kernel, id: nat, idle: nat)
    requires Inv(k, idle) && Has(k, id) && (k.tasks[id].status == Wait || k.tasks[id].status == Suspend)
    ensures Inv(TaskResume(k, id), idle)
  {
    var w := WithStatus(k, id, Wait);
    ListsSame(k.tasks, k.ready.lists, id, w.tasks[id]);
    TimersKeep(k.tasks, k.clock.queue, id, w.tasks[id]);
    NotListed(w, id);
    StopTimerKeeps(w, id, idle);
    AddReadyKeeps(StopTimer(w, id), id, idle);
  }

  /** list_del of a task that is in no ready list changes nothing. */
  lemma NotListed(k: Kernel, id: nat)
    requires ListsOk(k.tasks, k.ready.lists) && Has(k, id) && !OnCpu(k.tasks[id].status)
    ensures ListDel(k, id) == k
  {
    var p := k.tasks[id].prio;
    assert ListOk(k.tasks, p, k.ready.lists[p]);
    WithoutAbsent(k.ready.lists[p], id);
  }

  lemma ResumeReady(k: Kernel, id: nat, idle: nat)
    requires Inv(k, idle) && Has(k, id) && OnCpu(k.tasks[id].status)
    ensures Inv(TaskResume(k, id), idle)
  {
    var p, t := k.tasks[id].prio, k.tasks[id].(status := Ready);
    var l := Without(k.ready.lists[p], id) + [id];
    MarksAdd(k.ready.group, k.ready.lists, p, l);
    ListsRotate(k.tasks, k.ready.lists, id);
    ListsSame(k.tasks, k.ready.lists[p := l], id, t);
    TimersStop(k.tasks, k.clock.queue, id);
    TimersKeep(k.tasks, Timers.Removed(k.clock.queue, id), id, t);
    var r := TaskResume(k, id);
    assert r.tasks == k.tasks[id := t];
    assert r.ready.lists == k.ready.lists[p := l];
  }

  lemma DelStays(k: Kernel, id: nat, idle: nat)
    requires Inv(k, idle) && Has(k, id) && id != idle && k.tasks[id].status != Close && k.tasks[id].status != Freed
    ensures Inv(TaskDel(k, id), idle)
  {
    var r := if OnCpu(k.tasks[id].status) then WithStatus(DelReady(k, id), id, Wait) else k;
    if OnCpu(k.tasks[id].status) {
      DelReadyKeeps(k, id, idle);
    }
    StopTimerKeeps(r, id, idle);
    CloseKeeps(StopTimer(r, id), id, idle);
    assert TaskDel(k, id) == Closed(StopTimer(r, id), id);
  }

  lemma DelKeeps(k: Kernel, id: nat, idle: nat)
    requires Inv(k, idle) && Has(k, id) && id != idle && k.tasks[id].status != Close && k.tasks[id].status != Freed
    ensures Inv(TaskDel(k, id), idle)
    ensures var r := TaskDel(k, id);
            && Has(r, id) && r.tasks[id].status == Close && id in r.closed
            && Timers.At(r.clock.queue, id, -1) && Unlisted(r, id)
  {
    DelStays(k, id, idle);
    TimersStop(k.tasks, k.clock.queue, id);
    WhereListed(TaskDel(k, id), id);
  }

  function Closed(k: Kernel, id: nat): Kernel
    requires Has(k, id)
  {
    WithStatus(k, id, Close).(closed := k.closed + [id])
  }

  lemma CloseKeeps(k: Kernel, id: nat, idle: nat)
    requires Inv(k, idle) && Has(k, id) && (k.tasks[id].status == Wait || k.tasks[id].status == Suspend)
    requires Timers.At(k.clock.queue, id, -1)
    ensures Inv(Closed(k, id), idle)
  {
    var t := k.tasks[id].(status := Close);
    ListsSame(k.tasks, k.ready.lists, id, t);
    TimersKeep(k.tasks, k.clock.queue, id, t);
  }

  lemma ExitKeeps(k: Kernel, idle: nat)
    requires Inv(k, idle) && k.current >= 0 && k.current != idle
    requires k.tasks[k.current].status != Close && k.tasks[k.current].status != Freed
    ensures Inv(TaskExit(k), idle) && TaskExit(k).current >= 0
  {
    DelKeeps(k, k.current, idle);
    SwitchSettles(TaskDel(k, k.current), idle);
  }

  lemma CreateKeeps(k: Kernel, prio: Priority, tick: nat, idle: nat)
    requires Inv(k, idle) && 1 <= tick <= Timers.U32_MAX
    ensures Inv(TaskCreate(k, prio, tick), idle)
  {
    var r := TaskCreate(k, prio, tick);
    forall p | 0 <= p < 32 ensures ListOk(r.tasks, p, k.ready.lists[p]) {
      assert ListOk(k.tasks, p, k.ready.lists[p]);
    }
  }

  lemma ReapKeeps(k: Kernel, idle: nat)
    requires Inv(k, idle) && k.closed != []
    ensures Has(k, k.closed[0]) && k.tasks[k.closed[0]].status == Close
    ensures Inv(Reap(k), idle)
  {
    var id := k.closed[0];
    assert id in k.closed;
    ListsSame(k.tasks, k.ready.lists, id, k.tasks[id].(status := Freed));
    TimersKeep(k.tasks, k.clock.queue, id, k.tasks[id].(status := Freed));
    forall x: nat ensures x in k.closed[1..] <==> x in k.closed && x != id {}
  }

  // ---------- the tick

  lemma SliceKeeps(k: Kernel, idle: nat)
    requires Inv(k, idle) && k.current >= 0
    ensures Inv(Slice(k), idle) && Slice(k).current >= 0 && Slice(k).clock == k.clock
  {
    var t := k.tasks[k.current];
    var u := t.(rem := if t.rem == 1 then t.init else t.rem - 1);
    FieldsKeep(k, k.current, u, idle);
    if t.rem == 1 {
      YieldKeeps(k.(tasks := k.tasks[k.current := u]), idle);
    }
  }

  /** The timer that timer_check finds due belongs to a waiting task: the check in timeout never fails. */
  lemma DueTaskWaits(k: Kernel, idle: nat)
    requires Inv(k, idle) && Timers.Check(k.clock) != k.clock
    ensures var id := k.clock.queue[0].id;
            && Has(k, id) && k.tasks[id].status == Wait
            && Expire(k) == Timeout(k.(clock := Timers.Check(k.clock)), id)
  {}

  lemma TimeoutKeeps(k: Kernel, id: nat, idle: nat)
    requires Inv(k, idle) && k.current >= 0
    requires Has(k, id) && k.tasks[id].status == Wait && Timers.At(k.clock.queue, id, -1)
    ensures Inv(Timeout(k, id), idle) && Timeout(k, id).current >= 0
  {
    var r := k.(tasks := k.tasks[id := k.tasks[id].(timedOut := true)]);
    FieldsKeep(k, id, r.tasks[id], idle);
    NotListed(r, id);
    AddReadyKeeps(r, id, idle);
    SwitchSettles(AddReady(r, id), idle);
  }

  lemma ExpireKeeps(k: Kernel, idle: nat)
    requires Inv(k, idle) && k.current >= 0
    ensures Inv(Expire(k), idle) && Expire(k).current >= 0
  {
    var r := k.(clock := Timers.Check(k.clock));
    assert Inv(r, idle);
    if r.clock != k.clock {
      DueTaskWaits(k, idle);
      TimeoutKeeps(r, k.clock.queue[0].id, idle);
    }
  }

  lemma BeatKeeps(k: Kernel, idle: nat)
    requires Inv(k, idle) && k.current >= 0
    ensures Inv(Beat(k), idle) && Beat(k).current >= 0
  {
    var r := k.(clock := k.clock.(now := Timers.NextTick(k.clock.now)));
    SliceKeeps(r, idle);
    ExpireKeeps(Slice(r), idle);
  }

  // ---------- runs

  datatype Op =
    | Create(prio: Priority, tick: nat)
    | Start
    | MakeReady(id: nat)
    | Hang(id: nat)
    | Resume(id: nat)
    | Sleep(tick: nat)
    | WakeUp
    | Yield
    | Delete(id: nat)
    | Exit
    | Reschedule
    | Tick
    | Lock
    | Unlock
    | ReapOne

  /** The task that a call is about exists, and ticks are 32 bits wide. */
  predicate Callable(k: Kernel, op: Op) {
    match op
    case MakeReady(id) => Has(k, id)
    case Hang(id) => Has(k, id)
    case Resume(id) => Has(k, id)
    case Delete(id) => Has(k, id)
    case Sleep(tick) => tick <= Timers.U32_MAX
    case _ => true
  }

  function Step(k: Kernel, op: Op): Kernel
    requires Callable(k, op)
  {
    match op
    case Create(prio, tick) => TaskCreate(k, prio, tick)
    case Start => SchStart(k)
    case MakeReady(id) => TaskReady(k, id)
    case Hang(id) => TaskHang(k, id)
    case Resume(id) => TaskResume(k, id)
    case Sleep(tick) => TaskSleep(k, tick)
    case WakeUp => AfterSleep(k)
    case Yield => TaskYield(k)
    case Delete(id) => TaskDel(k, id)
    case Exit => TaskExit(k)
    case Reschedule => Switch(k)
    case Tick => Beat(k)
    case Lock => SchLock(k)
    case Unlock => SchUnlock(k)
    case ReapOne => Reap(k)
  }

  predicate Alive(k: Kernel, id: int) {
    Has(k, id) && k.tasks[id].status != Close && k.tasks[id].status != Freed
  }

  /**
   What callers keep to: the idle task does not block or end, task_ready is for suspended tasks (it refuses those that
   are ready), deleted tasks are left alone, and what the running task does happens after sch_start.
   */
  predicate Allowed(k: Kernel, op: Op, idle: nat) {
    && Callable(k, op)
    && match op
       case Create(_, tick) => 1 <= tick <= Timers.U32_MAX
       case Start => k.current == -1 && Has(k, idle) && k.tasks[idle].prio == 31 && OnCpu(k.tasks[idle].status)
       case MakeReady(id) => k.tasks[id].status == Suspend || OnCpu(k.tasks[id].status)
       case Hang(id) => id != idle
       case Resume(id) => Alive(k, id)
       case Sleep(_) => k.current >= 0 && k.current != idle
       case Delete(id) => id != idle && Alive(k, id)
       case Exit => k.current >= 0 && k.current != idle && Alive(k, k.current)
       case Lock => true
       case ReapOne => k.closed != []
       case _ => k.current >= 0
  }

  lemma MakeReadyKeeps(k: Kernel, id: nat, idle: nat)
    requires Inv(k, idle) && Has(k, id)
    requires k.tasks[id].status == Suspend || (k.tasks[id].status == Wait && Timers.At(k.clock.queue, id, -1))
    ensures Inv(TaskReady(k, id), idle) && (k.current >= 0 ==> TaskReady(k, id).current >= 0)
  {
    AddReadyKeeps(k, id, idle);
    if k.current >= 0 {
      SwitchSettles(AddReady(k, id), idle);
    }
  }

  lemma UnlockKeeps(k: Kernel, idle: nat)
    requires Inv(k, idle) && k.current >= 0
    ensures Inv(SchUnlock(k), idle) && SchUnlock(k).current >= 0
  {
    if k.nest == 1 {
      SwitchSettles(k.(nest := 0), idle);
    }
  }

  /** Every step of a run keeps the invariant. */
  lemma StepKeeps(k: Kernel, op: Op, idle: nat)
    requires Inv(k, idle) && Allowed(k, op, idle)
    ensures Inv(Step(k, op), idle)
  {
    match op
    case Create(prio, tick) => CreateKeeps(k, prio, tick, idle);
    case Start => SchStartSettles(k, idle);
    case MakeReady(id) =>
      if k.tasks[id].status == Suspend {
        MakeReadyKeeps(k, id, idle);
      }
    case Hang(id) => HangKeeps(k, id, idle);
    case Resume(id) => ResumeKeeps(k, id, idle);
    case Sleep(tick) => SleepKeeps(k, tick, idle);
    case WakeUp => WakeUpKeeps(k, idle);
    case Yield => YieldKeeps(k, idle);
    case Delete(id) => DelKeeps(k, id, idle);
    case Exit => ExitKeeps(k, idle);
    case Reschedule => SwitchSettles(k, idle);
    case Tick => BeatKeeps(k, idle);
    case Lock =>
    case Unlock => UnlockKeeps(k, idle);
    case ReapOne => ReapKeeps(k, idle);
  }

  predicate Behavior(k: Kernel, ops: seq<Op>, idle: nat)
    decreases |ops|
  {
    ops != [] ==> Allowed(k, ops[0], idle) && Behavior(Step(k, ops[0]), ops[1..], idle)
  }

  function Run(k: Kernel, ops: seq<Op>, idle: nat): Kernel
    requires Behavior(k, ops, idle)
    decreases |ops|
  {
    if ops == [] then k else Run(Step(k, ops[0]), ops[1..], idle)
  }

  /** In every reachable state the invariant holds. */
  lemma {:induction false} RunKeeps(k: Kernel, ops: seq<Op>, idle: nat)
    requires Inv(k, idle) && Behavior(k, ops, idle)
    ensures Inv(Run(k, ops, idle), idle)
    decreases |ops|
  {
    if ops != [] {
      StepKeeps(k, ops[0], idle);
      RunKeeps(Step(k, ops[0]), ops[1..], idle);
    }
  }

  /** After sch_init, before any task exists. */
  lemma InitOk(idle: nat)
    ensures Inv(Kernel([], Flat(NoTasks(32), 0), [], Timers.State(0, [], 0, []), -1, 0), idle)
  {
    InitMarked(32);
  }

  // ---------- who runs

  /** These leave the choice of the next task to a later switch_task, or there is no scheduling yet. */
  predicate Defers(op: Op) {
    op.Hang? || op.Resume? || op.Delete? || op.Lock? || op.Start?
  }

  /** These come to a switch_task with the scheduler unlocked, the last sch_unlock among them. */
  predicate Switches(k: Kernel, op: Op)
    requires Callable(k, op) && Has(k, k.current)
  {
    var t := k.tasks[k.current];
    match op
    case MakeReady(id) => k.nest == 0 && k.tasks[id].status == Suspend
    case Sleep(tick) => k.nest == 0 && tick != 0 && OnCpu(t.status)
    case Yield => k.nest == 0 && t.status == Running
    case Exit | Reschedule => k.nest == 0
    case Unlock => k.nest == 1
    case Tick => k.nest == 0 && (SliceEnds(k) || Fires(k))
    case _ => false
  }

  /** The next tick finds a timer due. */
  predicate Fires(k: Kernel) {
    |Beat(k).clock.fired| > |k.clock.fired|
  }

  /**
   A call that comes to switch_task leaves the first task of the lowest list running, whatever was before. While the
   scheduler is unlocked, so does every other call that does not defer the choice, if it was so before.
   */
  lemma StepSettles(k: Kernel, op: Op, idle: nat)
    requires Inv(k, idle) && Allowed(k, op, idle) && Has(k, k.current)
    requires Switches(k, op) || (k.nest == 0 && Settled(k) && !Defers(op))
    ensures Settled(Step(k, op))
  {
    match op
    case MakeReady(id) =>
      if k.tasks[id].status == Suspend {
        AddReadyKeeps(k, id, idle);
        SwitchSettles(AddReady(k, id), idle);
      }
    case Sleep(tick) => SleepSettles(k, tick, idle);
    case Yield =>
      WhereListed(k, k.current);
      RotateKeeps(k, k.current, idle);
      SwitchSettles(Rotate(k, k.current), idle);
    case Exit =>
      DelKeeps(k, k.current, idle);
      SwitchSettles(TaskDel(k, k.current), idle);
    case Unlock => UnlockSettles(k, idle);
    case Reschedule => SwitchSettles(k, idle);
    case Tick => BeatSettles(k, idle);
    case ReapOne => ReapKeeps(k, idle);
    case _ =>
  }

  lemma UnlockSettles(k: Kernel, idle: nat)
    requires Inv(k, idle) && k.current >= 0 && (k.nest == 1 || (k.nest == 0 && Settled(k)))
    ensures Settled(SchUnlock(k))
  {
    if k.nest == 1 {
      SwitchSettles(k.(nest := 0), idle);
    }
  }

  lemma SleepSettles(k: Kernel, tick: nat, idle: nat)
    requires Inv(k, idle) && k.current >= 0 && k.current != idle && tick <= Timers.U32_MAX && k.nest == 0
    requires Settled(k) || (tick != 0 && OnCpu(k.tasks[k.current].status))
    ensures Settled(TaskSleep(k, tick))
  {
    if tick != 0 {
      HangKeeps(k, k.current, idle);
      StartTimerKeeps(TaskHang(k, k.current), k.current, tick, idle);
      SwitchSettles(StartTimer(TaskHang(k, k.current), k.current, tick), idle);
    }
  }

  lemma BeatSettles(k: Kernel, idle: nat)
    requires Inv(k, idle) && k.nest == 0 && Has(k, k.current) && (Settled(k) || SliceEnds(k) || Fires(k))
    ensures Settled(Beat(k))
  {
    var r := k.(clock := k.clock.(now := Timers.NextTick(k.clock.now)));
    SliceKeeps(r, idle);
    SliceSettles(r, idle);
    ExpireSettles(Slice(r), idle);
  }

  predicate SliceEnds(k: Kernel)
    requires Has(k, k.current)
  {
    k.tasks[k.current].status == Running && k.tasks[k.current].rem == 1
  }

  lemma SliceSettles(k: Kernel, idle: nat)
    requires Inv(k, idle) && k.nest == 0 && Has(k, k.current)
    ensures Slice(k).nest == 0 && (Settled(k) || SliceEnds(k) ==> Settled(Slice(k)))
  {
    var t := k.tasks[k.current];
    var u := t.(rem := if t.rem == 1 then t.init else t.rem - 1);
    var r := k.(tasks := k.tasks[k.current := u]);
    FieldsKeep(k, k.current, u, idle);
    if SliceEnds(k) {
      WhereListed(r, r.current);
      RotateKeeps(r, r.current, idle);
      SwitchSettles(Rotate(r, r.current), idle);
    }
  }

  lemma ExpireSettles(k: Kernel, idle: nat)
    requires Inv(k, idle) && k.current >= 0 && k.nest == 0
    requires Settled(k) || |Expire(k).clock.fired| > |k.clock.fired|
    ensures Settled(Expire(k))
  {
    var r := k.(clock := Timers.Check(k.clock));
    assert Inv(r, idle);
    if r.clock != k.clock {
      var id := k.clock.queue[0].id;
      DueTaskWaits(k, idle);
      var f := r.(tasks := r.tasks[id := r.tasks[id].(timedOut := true)]);
      FieldsKeep(r, id, f.tasks[id], idle);
      NotListed(f, id);
      AddReadyKeeps(f, id, idle);
      SwitchSettles(AddReady(f, id), idle);
    }
  }

  // ---------- the limits of the calls

  ghost predicate Armed(k: Kernel, id: nat) {
    exists i :: 0 <= i < |k.clock.queue| && k.clock.queue[i].id == id
  }

  /**
   task_ready neither stops the timer nor looks for a closed task: it keeps the invariant if and only if the
   task is not closed, and not waiting with its timer armed.
   */
  lemma TaskReadyIff(k: Kernel, id: nat, idle: nat)
    requires Inv(k, idle) && Has(k, id) && k.tasks[id].status != Freed
    ensures Inv(TaskReady(k, id), idle) <==> k.tasks[id].status != Close && !Armed(k, id)
  {
    var s := k.tasks[id].status;
    if s == Suspend || (s == Wait && !Armed(k, id)) {
      MakeReadyKeeps(k, id, idle);
    } else if !OnCpu(s) {
      ReadyBreaks(k, id, idle);
    }
  }

  lemma ReadyBreaks(k: Kernel, id: nat, idle: nat)
    requires Inv(k, idle) && Has(k, id) && (k.tasks[id].status == Close || (k.tasks[id].status == Wait && Armed(k, id)))
    ensures !Inv(TaskReady(k, id), idle)
  {
    var a, r := AddReady(k, id), TaskReady(k, id);
    SwitchOnCpu(a, id);
    assert r == a || r == Switch(a);
    if k.tasks[id].status == Close {
      assert id in r.closed;
    } else {
      var i :| 0 <= i < |k.clock.queue| && k.clock.queue[i].id == id;
      assert r.clock.queue[i].id == id;
    }
  }

  /** switch_task only exchanges ready and running. */
  lemma SwitchOnCpu(k: Kernel, id: nat)
    requires Has(k, id) && OnCpu(k.tasks[id].status)
    ensures Has(Switch(k), id) && OnCpu(Switch(k).tasks[id].status)
    ensures Switch(k).clock == k.clock && Switch(k).closed == k.closed
  {}

  /** Locking and unlocking again is one switch_task, or nothing inside another lock. */
  lemma LockUnlock(k: Kernel)
    requires k.nest < Timers.U32_MAX
    ensures SchUnlock(SchLock(k)) == if k.nest == 0 then Switch(k) else k
  {
    assert SchLock(k).(nest := k.nest) == k;
  }

  /** sch_unlock takes one off the depth if and only if there is one to take off: the depth is unsigned. */
  lemma UnlockIff(k: Kernel)
    requires k.nest <= Timers.U32_MAX
    ensures SchUnlock(k).nest < k.nest <==> k.nest > 0
    ensures k.nest > 0 ==> SchUnlock(k).nest == k.nest - 1
    ensures k.nest == 0 ==> SchUnlock(k) == k.(nest := Timers.U32_MAX)
  {}

  /** While the scheduler is locked, no step but lock and unlock changes the depth or who runs. */
  lemma LockedStep(k: Kernel, op: Op, idle: nat)
    requires Inv(k, idle) && Allowed(k, op, idle) && k.nest != 0 && k.current >= 0 && op != Lock && op != Unlock
    ensures Step(k, op).nest == k.nest && Step(k, op).current == k.current
  {
    if op == Tick {
      LockedBeat(k);
    }
  }

  lemma LockedBeat(k: Kernel)
    requires k.nest != 0
    ensures Beat(k).nest == k.nest && Beat(k).current == k.current
  {
    var r := k.(clock := k.clock.(now := Timers.NextTick(k.clock.now)));
    assert Slice(r).nest == k.nest && Slice(r).current == k.current;
  }

  predicate LeavesLock(ops: seq<Op>) {
    forall i :: 0 <= i < |ops| ==> ops[i] != Lock && ops[i] != Unlock
  }

  lemma {:induction false} LockedRun(k: Kernel, ops: seq<Op>, idle: nat)
    requires Inv(k, idle) && Behavior(k, ops, idle) && k.nest != 0 && k.current >= 0 && LeavesLock(ops)
    ensures Run(k, ops, idle).current == k.current && Run(k, ops, idle).nest == k.nest
    decreases |ops|
  {
    if ops != [] {
      LockedStep(k, ops[0], idle);
      StepKeeps(k, ops[0], idle);
      LockedRun(Step(k, ops[0]), ops[1..], idle);
    }
  }

  /** Unlocking an unlocked scheduler locks it: whatever happens, until the next lock or unlock the same task runs. */
  lemma UnlockTooOften(k: Kernel, ops: seq<Op>, idle: nat)
    requires Inv(k, idle) && k.current >= 0 && k.nest == 0
    requires Behavior(SchUnlock(k), ops, idle) && LeavesLock(ops)
    ensures Run(SchUnlock(k), ops, idle).current == k.current && Run(SchUnlock(k), ops, idle).nest == Timers.U32_MAX
  {
    UnlockKeeps(k, idle);
    LockedRun(SchUnlock(k), ops, idle);
  }
}
