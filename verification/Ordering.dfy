/**
 Within a priority, nobody overtakes: who came to the ready list first stays ahead until it goes to the end itself.
 */
module Ordering {
  import opened Queues
  import opened Tasks
  import opened Scheduling
  import Timers

  ghost predicate Ahead(l: seq<nat>, x: nat, y: nat) {
    exists i, j :: 0 <= i < j < |l| && l[i] == x && l[j] == y
  }

  lemma {:induction false} WithoutAhead(l: seq<nat>, z: nat, x: nat, y: nat)
    requires Ahead(l, x, y) && z != x && z != y
    ensures Ahead(Without(l, z), x, y)
  {
    var i, j :| 0 <= i < j < |l| && l[i] == x && l[j] == y;
    var r := Without(l[1..], z);
    if i > 0 {
      assert l[1..][i - 1] == x && l[1..][j - 1] == y;
      WithoutAhead(l[1..], z, x, y);
      AheadBehind([l[0]], r, x, y);
      AheadBehind([], r, x, y);
    } else {
      assert l[1..][j - 1] == y;
      WithoutIn(l[1..], z, y);
      var k :| 0 <= k < |r| && r[k] == y;
      assert ([x] + r)[0] == x && ([x] + r)[k + 1] == y;
    }
  }

  lemma AheadBehind(a: seq<nat>, r: seq<nat>, x: nat, y: nat)
    requires Ahead(r, x, y)
    ensures Ahead(a + r, x, y)
  {
    var i, j :| 0 <= i < j < |r| && r[i] == x && r[j] == y;
    assert (a + r)[|a| + i] == x && (a + r)[|a| + j] == y;
  }

  lemma AppendAhead(l: seq<nat>, z: nat, x: nat, y: nat)
    requires Ahead(l, x, y) || (x in l && z == y)
    ensures Ahead(l + [z], x, y)
  {
    if Ahead(l, x, y) {
      var i, j :| 0 <= i < j < |l| && l[i] == x && l[j] == y;
      assert (l + [z])[i] == x && (l + [z])[j] == y;
    } else {
      var i :| 0 <= i < |l| && l[i] == x;
      assert (l + [z])[i] == x && (l + [z])[|l|] == y;
    }
  }

  /** Moving another task to the end of the list, or y itself, leaves x ahead of y. */
  lemma RequeuedAhead(l: seq<nat>, z: nat, x: nat, y: nat)
    requires Ahead(l, x, y) && z != x
    ensures Ahead(Without(l, z) + [z], x, y)
  {
    if z != y {
      WithoutAhead(l, z, x, y);
    } else {
      var i :| 0 <= i < |l| && l[i] == x;
      WithoutIn(l, z, x);
    }
    AppendAhead(Without(l, z), z, x, y);
  }

  // ---------- steps

  /** In the list of each priority, x stays ahead of y for as long as y is in it. */
  ghost predicate Follows(a: seq<seq<nat>>, b: seq<seq<nat>>, x: nat, y: nat) {
    |a| == |b| && forall p :: 0 <= p < |a| && Ahead(a[p], x, y) && y in b[p] ==> Ahead(b[p], x, y)
  }

  lemma AddFollows(k: Kernel, z: nat, x: nat, y: nat)
    requires Has(k, z)
    ensures Follows(k.ready.lists, AddReady(k, z).ready.lists, x, y)
  {
    var l := k.ready.lists[k.tasks[z].prio];
    if Ahead(l, x, y) {
      AppendAhead(l, z, x, y);
    }
  }

  lemma DelFollows(k: Kernel, z: nat, x: nat, y: nat)
    requires Has(k, z) && z != x
    ensures Follows(k.ready.lists, DelReady(k, z).ready.lists, x, y)
  {
    var l := k.ready.lists[k.tasks[z].prio];
    WithoutIn(l, z, y);
    if Ahead(l, x, y) && z != y {
      WithoutAhead(l, z, x, y);
    }
  }

  lemma RotateFollows(k: Kernel, z: nat, x: nat, y: nat)
    requires Has(k, z) && z != x
    ensures Follows(k.ready.lists, Rotate(k, z).ready.lists, x, y)
  {
    var l := k.ready.lists[k.tasks[z].prio];
    if Ahead(l, x, y) {
      RequeuedAhead(l, z, x, y);
    }
  }

  lemma SwitchFollows(k: Kernel)
    ensures Switch(k).ready == k.ready
  {}

  lemma ResumeFollows(k: Kernel, z: nat, x: nat, y: nat)
    requires Has(k, z) && z != x
    ensures Follows(k.ready.lists, TaskResume(k, z).ready.lists, x, y)
  {
    var p := k.tasks[z].prio;
    RotateFollows(k, z, x, y);
    assert TaskResume(k, z).ready.lists == Rotate(k, z).ready.lists;
  }

  lemma YieldFollows(k: Kernel, x: nat, y: nat)
    requires k.current != x
    ensures Follows(k.ready.lists, TaskYield(k).ready.lists, x, y)
  {
    if Has(k, k.current) {
      RotateFollows(k, k.current, x, y);
      SwitchFollows(Rotate(k, k.current));
    }
  }

  /** The steps that take x out of its list, or to the end of it. */
  predicate GivesWay(k: Kernel, op: Op, x: nat) {
    match op
    case Hang(id) => id == x
    case Resume(id) => id == x
    case Delete(id) => id == x
    case Sleep(_) => k.current == x
    case Exit => k.current == x
    case Yield => k.current == x
    case Tick => k.current == x && Has(k, x) && k.tasks[x].rem == 1
    case _ => false
  }

  lemma SliceFollows(k: Kernel, x: nat, y: nat)
    requires !GivesWay(k, Tick, x)
    ensures Follows(k.ready.lists, Slice(k).ready.lists, x, y)
  {
    if Has(k, k.current) && k.tasks[k.current].rem == 1 {
      var t := k.tasks[k.current];
      YieldFollows(k.(tasks := k.tasks[k.current := t.(rem := t.init)]), x, y);
    }
  }

  /** A timeout changes the lists only by appending a task that was in none. */
  lemma ExpireFollows(k: Kernel, x: nat, y: nat, idle: nat)
    requires Inv(k, idle)
    ensures Follows(k.ready.lists, Expire(k).ready.lists, x, y)
  {
    var r := k.(clock := Timers.Check(k.clock));
    if r.clock != k.clock {
      var id := k.clock.queue[0].id;
      DueTaskWaits(k, idle);
      var f := r.(tasks := r.tasks[id := r.tasks[id].(timedOut := true)]);
      assert Inv(r, idle);
      FieldsKeep(r, id, f.tasks[id], idle);
      NotListed(f, id);
      AddFollows(f, id, x, y);
      SwitchFollows(AddReady(f, id));
    }
  }

  /** The end of a slice takes nobody out of a list. */
  lemma SliceListed(k: Kernel, y: nat)
    ensures forall p :: 0 <= p < 32 && y in k.ready.lists[p] ==> y in Slice(k).ready.lists[p]
  {
    if Has(k, k.current) && k.tasks[k.current].rem == 1 {
      var t := k.tasks[k.current];
      var r := k.(tasks := k.tasks[k.current := t.(rem := t.init)]);
      WithoutIn(r.ready.lists[t.prio], r.current, y);
      SwitchFollows(Rotate(r, r.current));
    }
  }

  lemma BeatFollows(k: Kernel, x: nat, y: nat, idle: nat)
    requires Inv(k, idle) && k.current >= 0 && !GivesWay(k, Tick, x)
    ensures Follows(k.ready.lists, Beat(k).ready.lists, x, y)
  {
    var r := k.(clock := k.clock.(now := Timers.NextTick(k.clock.now)));
    SliceKeeps(r, idle);
    SliceFollows(r, x, y);
    SliceListed(r, y);
    ExpireFollows(Slice(r), x, y, idle);
    Chained(r.ready.lists, Slice(r).ready.lists, Beat(k).ready.lists, x, y);
  }

  lemma Chained(a: seq<seq<nat>>, b: seq<seq<nat>>, c: seq<seq<nat>>, x: nat, y: nat)
    requires Follows(a, b, x, y) && Follows(b, c, x, y) && forall p :: 0 <= p < |a| && y in a[p] ==> y in b[p]
    ensures Follows(a, c, x, y)
  {}

  lemma SleepFollows(k: Kernel, tick: nat, x: nat, y: nat)
    requires tick <= Timers.U32_MAX && k.current != x
    ensures Follows(k.ready.lists, TaskSleep(k, tick).ready.lists, x, y)
  {
    if tick != 0 && Has(k, k.current) && OnCpu(k.tasks[k.current].status) {
      HangFollows(k, k.current, x, y);
      SwitchFollows(StartTimer(TaskHang(k, k.current), k.current, tick));
    }
  }

  lemma HangFollows(k: Kernel, z: nat, x: nat, y: nat)
    requires Has(k, z) && z != x
    ensures Follows(k.ready.lists, TaskHang(k, z).ready.lists, x, y)
  {
    DelFollows(WithStatus(k, z, Wait), z, x, y);
  }

  lemma DeleteFollows(k: Kernel, z: nat, x: nat, y: nat)
    requires Has(k, z) && z != x
    ensures Follows(k.ready.lists, TaskDel(k, z).ready.lists, x, y)
  {
    DelFollows(k, z, x, y);
  }

  /**
   In every step of the scheduler, a task stays ahead of those behind it, unless it goes away or to the end itself.
   */
  lemma StepFollows(k: Kernel, op: Op, x: nat, y: nat, idle: nat)
    requires Inv(k, idle) && Allowed(k, op, idle) && !GivesWay(k, op, x)
    ensures Follows(k.ready.lists, Step(k, op).ready.lists, x, y)
  {
    match op
    case MakeReady(id) =>
      AddFollows(k, id, x, y);
      SwitchFollows(AddReady(k, id));
    case Hang(id) => HangFollows(k, id, x, y);
    case Resume(id) => ResumeFollows(k, id, x, y);
    case Sleep(tick) => SleepFollows(k, tick, x, y);
    case Yield => YieldFollows(k, x, y);
    case Delete(id) => DeleteFollows(k, id, x, y);
    case Exit =>
      DeleteFollows(k, k.current, x, y);
      SwitchFollows(TaskDel(k, k.current));
    case Tick => BeatFollows(k, x, y, idle);
    case _ => SameLists(k, op);
  }

  lemma SameLists(k: Kernel, op: Op)
    requires Callable(k, op)
             && (op.Create? || op.Start? || op.WakeUp? || op.Reschedule? || op.Lock? || op.Unlock? || op.ReapOne?)
    ensures Step(k, op).ready == k.ready
  {}

  /** A task that becomes ready comes behind all that are ready at its priority. */
  lemma NewcomerIsLast(k: Kernel, id: nat, x: nat, idle: nat)
    requires Inv(k, idle) && Has(k, id) && !OnCpu(k.tasks[id].status)
    requires Has(k, x) && OnCpu(k.tasks[x].status) && k.tasks[x].prio == k.tasks[id].prio
    ensures Ahead(TaskReady(k, id).ready.lists[k.tasks[id].prio], x, id)
    ensures Ahead(TaskResume(k, id).ready.lists[k.tasks[id].prio], x, id)
  {
    var p := k.tasks[id].prio;
    var l := k.ready.lists[p];
    assert ListOk(k.tasks, p, l);
    AppendAhead(l, id, x, id);
    SwitchFollows(AddReady(k, id));
    WithoutAbsent(l, id);
  }

  /** x goes neither away nor to the end during the run, and y is ready at priority p all the time. */
  ghost predicate BothStay(k: Kernel, ops: seq<Op>, idle: nat, p: nat, x: nat, y: nat)
    requires Behavior(k, ops, idle) && p < 32
    decreases |ops|
  {
    && y in k.ready.lists[p]
    && (ops != [] ==> !GivesWay(k, ops[0], x) && BothStay(Step(k, ops[0]), ops[1..], idle, p, x, y))
  }

  /** So over any such run y does not overtake x. */
  lemma {:induction false} NobodyOvertakes(k: Kernel, ops: seq<Op>, idle: nat, p: nat, x: nat, y: nat)
    requires Inv(k, idle) && Behavior(k, ops, idle) && p < 32
    requires Ahead(k.ready.lists[p], x, y) && BothStay(k, ops, idle, p, x, y)
    ensures Ahead(Run(k, ops, idle).ready.lists[p], x, y)
    decreases |ops|
  {
    if ops != [] {
      StepKeeps(k, ops[0], idle);
      StepFollows(k, ops[0], x, y, idle);
      NobodyOvertakes(Step(k, ops[0]), ops[1..], idle, p, x, y);
    }
  }
}
