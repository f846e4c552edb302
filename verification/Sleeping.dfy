/**
 The scheduler's clock runs as the timeout list does: so a sleeping task waits until its deadline, and no tick less.
 */
module Sleeping {
  import opened Tasks
  import opened Scheduling
  import Timers

  /** What a call means for the timeout list. */
  function Events(k: Kernel, op: Op): seq<Timers.Event>
    requires Callable(k, op)
  {
    match op
    case Hang(id) => if OnCpu(k.tasks[id].status) then [Timers.StopEv(id)] else []
    case Resume(id) => [Timers.StopEv(id)]
    case Delete(id) => [Timers.StopEv(id)]
    case Exit => if Has(k, k.current) then [Timers.StopEv(k.current)] else []
    case Sleep(tick) =>
      if tick == 0 || !Has(k, k.current) || !OnCpu(k.tasks[k.current].status) then []
      else [Timers.StopEv(k.current), Timers.StartEv(k.current, tick, k.tasks[k.current].prio)]
    case Tick => [Timers.TickEv]
    case _ => []
  }

  function AllEvents(k: Kernel, ops: seq<Op>, idle: nat): seq<Timers.Event>
    requires Behavior(k, ops, idle)
    decreases |ops|
  {
    if ops == [] then [] else Events(k, ops[0]) + AllEvents(Step(k, ops[0]), ops[1..], idle)
  }

  lemma StepClock(k: Kernel, op: Op)
    requires Callable(k, op)
    ensures Timers.RunOk(k.clock, Events(k, op)) && Timers.Run(k.clock, Events(k, op)) == Step(k, op).clock
  {
    match op
    case Sleep(tick) =>
      if Events(k, op) != [] {
        SleepClock(k, tick);
      }
    case Tick =>
      BeatClock(k);
      OneEvent(k.clock, Timers.TickEv);
    case Hang(id) =>
      OneEvent(k.clock, Timers.StopEv(id));
    case Resume(id) =>
      OneEvent(k.clock, Timers.StopEv(id));
    case Delete(id) =>
      OneEvent(k.clock, Timers.StopEv(id));
    case Exit =>
      if Has(k, k.current) {
        OneEvent(k.clock, Timers.StopEv(k.current));
        SwitchClock(TaskDel(k, k.current));
      }
    case _ => OtherClock(k, op);
  }

  lemma OtherClock(k: Kernel, op: Op)
    requires Callable(k, op)
    requires || op.Create? || op.Start? || op.WakeUp? || op.MakeReady? || op.Yield?
             || op.Reschedule? || op.Lock? || op.Unlock? || op.ReapOne?
    ensures Step(k, op).clock == k.clock
  {}

  lemma BeatClock(k: Kernel)
    ensures Beat(k).clock == Timers.Tick(k.clock)
  {
    var r := k.(clock := k.clock.(now := Timers.NextTick(k.clock.now)));
    assert Slice(r).clock == r.clock;
    ExpireClock(Slice(r));
  }

  lemma ExpireClock(k: Kernel)
    ensures Expire(k).clock == Timers.Check(k.clock)
  {}

  lemma SleepClock(k: Kernel, tick: nat)
    requires 0 < tick <= Timers.U32_MAX && Has(k, k.current) && OnCpu(k.tasks[k.current].status)
    ensures Timers.RunOk(k.clock, Events(k, Sleep(tick)))
    ensures Timers.Run(k.clock, Events(k, Sleep(tick))) == TaskSleep(k, tick).clock
  {
    var evs, c := Events(k, Sleep(tick)), k.current;
    var h, stopped := TaskHang(k, c), Timers.Stop(k.clock, c);
    assert h.clock == stopped && h.tasks[c].prio == k.tasks[c].prio;
    OneEvent(stopped, evs[1]);
    assert evs[1..] == [evs[1]];
    SwitchClock(StartTimer(h, c, tick));
  }

  lemma OneEvent(s: Timers.State, ev: Timers.Event)
    requires s.now <= Timers.U64_MAX && (ev.StartEv? ==> ev.init <= Timers.U32_MAX)
    ensures Timers.RunOk(s, [ev]) && Timers.Run(s, [ev]) == Timers.Apply(s, ev)
  {
    assert [ev][1..] == [];
  }

  lemma SwitchClock(k: Kernel)
    ensures Switch(k).clock == k.clock
  {}

  lemma {:induction false} RunAppend(s: Timers.State, a: seq<Timers.Event>, b: seq<Timers.Event>)
    requires Timers.RunOk(s, a) && Timers.RunOk(Timers.Run(s, a), b)
    ensures Timers.RunOk(s, a + b) && Timers.Run(s, a + b) == Timers.Run(Timers.Run(s, a), b)
    decreases |a|
  {
    if a == [] {
      assert a + b == b;
    } else {
      assert (a + b)[1..] == a[1..] + b;
      RunAppend(Timers.Apply(s, a[0]), a[1..], b);
    }
  }

  /**
   Over any run of the scheduler, the clock and its timers go through the run of the timeout list that the calls
   make.
   */
  lemma {:induction false} ClockRuns(k: Kernel, ops: seq<Op>, idle: nat)
    requires Behavior(k, ops, idle)
    ensures Timers.RunOk(k.clock, AllEvents(k, ops, idle))
    ensures Timers.Run(k.clock, AllEvents(k, ops, idle)) == Run(k, ops, idle).clock
    decreases |ops|
  {
    if ops != [] {
      StepClock(k, ops[0]);
      ClockRuns(Step(k, ops[0]), ops[1..], idle);
      RunAppend(k.clock, Events(k, ops[0]), AllEvents(Step(k, ops[0]), ops[1..], idle));
    }
  }

  /** What a sleeping task's timer looks like in the list. */
  function Alarm(k: Kernel, id: nat, tick: nat): Timers.Entry
    requires Has(k, id) && tick <= Timers.U32_MAX
  {
    Timers.Entry(id, Timers.Deadline(k.clock.now, tick), k.tasks[id].prio, k.clock.arrivals)
  }

  /** task_sleep leaves the calling task waiting, with a timer for the ticks it asked for, and somebody else running. */
  lemma SleepArms(k: Kernel, tick: nat, idle: nat)
    requires Inv(k, idle) && k.current >= 0 && k.current != idle && OnCpu(k.tasks[k.current].status)
    requires 0 < tick <= Timers.U32_MAX
    ensures var r, c := TaskSleep(k, tick), k.current;
            && Has(r, c) && r.tasks[c].status == Wait && Alarm(k, c, tick) in r.clock.queue
            && (k.nest == 0 ==> Settled(r) && r.current != c)
  {
    var c, h := k.current, TaskHang(k, k.current);
    HangKeeps(k, c, idle);
    StartTimerKeeps(h, c, tick, idle);
    SwitchSettles(StartTimer(h, c, tick), idle);
    StepClock(k, Sleep(tick));
    InInserted(Timers.Removed(Timers.Removed(k.clock.queue, c), c), k.clock.now, Alarm(k, c, tick));
    NotChosen(StartTimer(h, c, tick), c, idle);
  }

  lemma InInserted(q: seq<Timers.Entry>, now: nat, e: Timers.Entry)
    requires now <= Timers.U64_MAX
    ensures e in Timers.Inserted(q, now, e)
  {}

  /**
   A task whose timer is armed is waiting, and still waits after any run in which nobody resumes, hangs or deletes
   it, as long as its deadline is ahead.
   */
  lemma SleeperWaits(k: Kernel, ops: seq<Op>, idle: nat, m: nat, e: Timers.Entry)
    requires Inv(k, idle) && Behavior(k, ops, idle)
    requires Timers.Inv(k.clock, m) && e in k.clock.queue
    requires Timers.RunOk(k.clock, AllEvents(k, ops, idle)) && Timers.Regular(k.clock, AllEvents(k, ops, idle), m)
    requires Timers.LeavesAlone(AllEvents(k, ops, idle), e.id) && Run(k, ops, idle).clock.now < e.deadline
    ensures e in Run(k, ops, idle).clock.queue
    ensures Has(Run(k, ops, idle), e.id) && Run(k, ops, idle).tasks[e.id].status == Wait
  {
    ClockRuns(k, ops, idle);
    Timers.WaitsUntilDue(k.clock, AllEvents(k, ops, idle), m, e);
    RunKeeps(k, ops, idle);
    var q := Run(k, ops, idle).clock.queue;
    var i :| 0 <= i < |q| && q[i] == e;
  }

  /** The tick at which a timer fires makes its task ready, with the flag that tells it so. */
  lemma FiredIsReady(k: Kernel, idle: nat)
    requires Inv(k, idle) && k.current >= 0 && |Beat(k).clock.fired| != |k.clock.fired|
    ensures |Beat(k).clock.fired| == |k.clock.fired| + 1
    ensures var f := Beat(k).clock.fired[|k.clock.fired|]; f.at == Beat(k).clock.now && Woken(Beat(k), f.id)
  {
    var r := k.(clock := k.clock.(now := Timers.NextTick(k.clock.now)));
    SliceKeeps(r, idle);
    ExpireWakes(Slice(r), idle);
  }

  predicate Woken(k: Kernel, id: nat) {
    Has(k, id) && OnCpu(k.tasks[id].status) && k.tasks[id].timedOut
  }

  lemma ExpireWakes(k: Kernel, idle: nat)
    requires Inv(k, idle) && k.current >= 0 && Timers.Check(k.clock) != k.clock
    ensures Expire(k).clock == Timers.Check(k.clock)
    ensures Expire(k).clock.fired[|k.clock.fired|].at == k.clock.now
    ensures Woken(Expire(k), Expire(k).clock.fired[|k.clock.fired|].id)
  {
    var id, r := k.clock.queue[0].id, k.(clock := Timers.Check(k.clock));
    DueTaskWaits(k, idle);
    TimeoutWakes(r, id);
  }

  lemma TimeoutWakes(k: Kernel, id: nat)
    requires Has(k, id)
    ensures Woken(Timeout(k, id), id) && Timeout(k, id).clock == k.clock
  {
    var r := AddReady(ListDel(k.(tasks := k.tasks[id := k.tasks[id].(timedOut := true)]), id), id);
    assert Woken(r, id);
    SwitchWakes(r, id);
    SwitchClock(r);
  }

  /** switch_task only exchanges ready and running. */
  lemma SwitchWakes(k: Kernel, id: nat)
    requires Woken(k, id)
    ensures Woken(Switch(k), id)
  {}

  /** Whatever fired in a run, its task was ready right after the tick at which it fired. */
  lemma {:induction false} WakeupAt(k: Kernel, ops: seq<Op>, idle: nat, f: Timers.Fired) returns (n: nat)
    requires Inv(k, idle) && Behavior(k, ops, idle) && f in Run(k, ops, idle).clock.fired && f !in k.clock.fired
    ensures n < |ops| && ops[n] == Tick && Behavior(k, ops[..n + 1], idle)
    ensures var r := Run(k, ops[..n + 1], idle); r.clock.now == f.at && Woken(r, f.id)
    decreases |ops|
  {
    var s := Step(k, ops[0]);
    StepKeeps(k, ops[0], idle);
    if f in s.clock.fired {
      StepFires(k, ops[0], idle, f);
      n := 0;
      assert ops[..1][1..] == [];
    } else {
      n := WakeupAt(s, ops[1..], idle, f);
      n := n + 1;
      assert ops[..n + 1][1..] == ops[1..][..n];
    }
  }

  lemma StepFires(k: Kernel, op: Op, idle: nat, f: Timers.Fired)
    requires Inv(k, idle) && Allowed(k, op, idle) && f in Step(k, op).clock.fired && f !in k.clock.fired
    ensures op == Tick && f.at == Step(k, op).clock.now && Woken(Step(k, op), f.id)
  {
    OnlyTicksFire(k, op);
    BeatClock(k);
    FiredIsReady(k, idle);
  }

  lemma OnlyTicksFire(k: Kernel, op: Op)
    requires Callable(k, op)
    ensures op != Tick ==> Step(k, op).clock.fired == k.clock.fired
  {
    StepClock(k, op);
    if op != Tick {
      NoTick(k.clock, Events(k, op));
    }
  }

  lemma {:induction false} NoTick(s: Timers.State, evs: seq<Timers.Event>)
    requires Timers.RunOk(s, evs) && Timers.TickEv !in evs
    ensures Timers.Run(s, evs).fired == s.fired
    decreases |evs|
  {
    if evs != [] {
      NoTick(Timers.Apply(s, evs[0]), evs[1..]);
    }
  }

  /** Nothing has fired in the future. */
  ghost predicate Past(s: Timers.State) {
    forall f :: f in s.fired ==> f.at <= s.now
  }

  lemma {:induction false} PastKeeps(s: Timers.State, evs: seq<Timers.Event>, m: nat)
    requires Timers.Inv(s, m) && Timers.RunOk(s, evs) && Timers.Regular(s, evs, m) && Past(s)
    ensures Past(Timers.Run(s, evs))
    decreases |evs|
  {
    if evs != [] {
      Timers.ApplyKeepsInv(s, evs[0], m);
      if evs[0] == Timers.TickEv {
        Timers.TickKeepsInv(s, m);
      }
      PastKeeps(Timers.Apply(s, evs[0]), evs[1..], m);
    }
  }

  /** The conditions of a timing promise: all timers keep away from the wrap, and nobody touches that of the task. */
  ghost predicate Undisturbed(k: Kernel, ops: seq<Op>, idle: nat, m: nat, id: nat)
    requires Behavior(k, ops, idle)
  {
    && Timers.RunOk(k.clock, AllEvents(k, ops, idle)) && Timers.Regular(k.clock, AllEvents(k, ops, idle), m)
    && Timers.LeavesAlone(AllEvents(k, ops, idle), id)
  }

  /**
   A sleeping task that is left alone becomes ready at its deadline D or as many ticks later as there are timers ahead
   of it then, provided the run goes on for so long.
   */
  lemma SleeperWakes(k: Kernel, pre: seq<Op>, post: seq<Op>, idle: nat, m: nat, e: Timers.Entry)
    returns (ahead: nat, n: nat)
    requires Inv(k, idle) && Timers.Inv(k.clock, m) && Past(k.clock) && e in k.clock.queue
    requires Behavior(k, pre, idle) && Undisturbed(k, pre, idle, m, e.id)
    requires var due := Run(k, pre, idle);
             && due.clock.now == e.deadline - 1 && post != [] && post[0] == Tick
             && Behavior(due, post, idle) && Undisturbed(due, post, idle, m, e.id)
             && forall i :: 0 <= i < |due.clock.queue| && due.clock.queue[i] == e ==>
                              i < Timers.Ticks(AllEvents(due, post, idle))
    ensures var due := Run(k, pre, idle);
            && ahead < |due.clock.queue| && due.clock.queue[ahead] == e
            && n < |post| && Behavior(due, post[..n + 1], idle)
            && Woken(Run(due, post[..n + 1], idle), e.id)
            && e.deadline <= Run(due, post[..n + 1], idle).clock.now <= e.deadline + ahead
  {
    var due := Run(k, pre, idle);
    ClockRuns(k, pre, idle);
    ClockRuns(due, post, idle);
    PastKeeps(k.clock, AllEvents(k, pre, idle), m);
    RunKeeps(k, pre, idle);
    var rest := AllEvents(Step(due, post[0]), post[1..], idle);
    assert AllEvents(due, post, idle) == [Timers.TickEv] + rest;
    var f;
    ahead, f := Timers.FiresOnTime(k.clock, AllEvents(k, pre, idle), rest, m, e);
    n := WakeupAt(due, post, idle, f);
  }
}
