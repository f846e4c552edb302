/** The ticks of the kernel are those of the round-robin queue, as long as no timer fires. */
module RoundRobin {
  import opened Queues
  import opened Bitmap
  import opened Tasks
  import opened Scheduling
  import Slicing
  import Timers

  ghost predicate InRange(k: Kernel, l: seq<nat>) {
    forall i :: 0 <= i < |l| ==> Has(k, l[i])
  }

  /** The time slices of the tasks in a list. */
  ghost function TurnsOf(k: Kernel, l: seq<nat>): (q: seq<Slicing.Turn>)
    requires InRange(k, l)
    ensures |q| == |l|
    ensures forall i :: 0 <= i < |q| ==> q[i] == Slicing.Turn(l[i], k.tasks[l[i]].rem, k.tasks[l[i]].init)
  {
    seq(|l|, i requires 0 <= i < |l| => Slicing.Turn(l[i], k.tasks[l[i]].rem, k.tasks[l[i]].init))
  }

  ghost function Top(k: Kernel): seq<nat>
    requires Lowest(k.ready.lists) < 32
  {
    k.ready.lists[Lowest(k.ready.lists)]
  }

  /** What holds while the scheduler is at work: unlocked, and right after a switch_task. */
  ghost predicate AtWork(k: Kernel, idle: nat) {
    Inv(k, idle) && Settled(k) && k.nest == 0
  }

  lemma TopInRange(k: Kernel, idle: nat)
    requires AtWork(k, idle)
    ensures InRange(k, Top(k)) && Distinct(Top(k)) && Top(k) != [] && Top(k)[0] == k.current
    ensures forall x: nat :: x in Top(k) ==> k.tasks[x].prio == Lowest(k.ready.lists)
  {
    assert ListOk(k.tasks, Lowest(k.ready.lists), Top(k));
    forall i | 0 <= i < |Top(k)| ensures Has(k, Top(k)[i]) {
      assert Top(k)[i] in Top(k);
    }
  }

  ghost function Turns(k: Kernel, idle: nat): seq<Slicing.Turn>
    requires AtWork(k, idle)
  {
    TopInRange(k, idle);
    TurnsOf(k, Top(k))
  }

  /** The tick fires no timer. */
  predicate Quiet(k: Kernel) {
    var clock := k.clock.(now := Timers.NextTick(k.clock.now));
    Timers.Check(clock) == clock
  }

  // ---------- one tick

  /** The current task, with the tick paid for. */
  function Paid(k: Kernel): Kernel
    requires Has(k, k.current) && k.tasks[k.current].rem >= 1
  {
    var t := k.tasks[k.current];
    k.(tasks := k.tasks[k.current := t.(rem := if t.rem == 1 then t.init else t.rem - 1)],
       clock := k.clock.(now := Timers.NextTick(k.clock.now)))
  }

  lemma QuietBeat(k: Kernel, idle: nat)
    requires AtWork(k, idle) && Quiet(k)
    ensures Beat(k) == if k.tasks[k.current].rem == 1 then Switch(Rotate(Paid(k), k.current)) else Paid(k)
    ensures AtWork(Beat(k), idle)
  {
    BeatKeeps(k, idle);
    BeatSettles(k, idle);
    TopInRange(k, idle);
    var r := k.(clock := k.clock.(now := Timers.NextTick(k.clock.now)));
    assert Slice(r).clock == r.clock;
    assert Expire(Slice(r)) == Slice(r);
  }

  lemma {:induction false} LowestSame(lists: seq<seq<nat>>, p: nat, l: seq<nat>)
    requires p < |lists| && lists[p] != [] && l != []
    ensures Lowest(lists[p := l]) == Lowest(lists)
  {
    if p > 0 && lists[0] == [] {
      assert lists[p := l][1..] == lists[1..][p - 1 := l];
      LowestSame(lists[1..], p - 1, l);
    }
  }

  /** A switch leaves lists and slices alone. */
  lemma SwitchKeepsTurns(k: Kernel, l: seq<nat>)
    requires InRange(k, l)
    ensures InRange(Switch(k), l) && TurnsOf(Switch(k), l) == TurnsOf(k, l) && Switch(k).ready == k.ready
  {
    forall i | 0 <= i < |l|
      ensures Has(Switch(k), l[i])
              && TurnsOf(k, l)[i] == Slicing.Turn(l[i], Switch(k).tasks[l[i]].rem, Switch(k).tasks[l[i]].init) {
    }
  }

  /** The turns after the tick, but for the order. */
  lemma PaidTurns(k: Kernel, idle: nat)
    requires AtWork(k, idle)
    ensures InRange(k, Top(k)) && InRange(Paid(k), Top(k)) && Top(k) != []
    ensures var q, t := TurnsOf(k, Top(k)), k.tasks[k.current];
            TurnsOf(Paid(k), Top(k)) == q[0 := q[0].(rem := if t.rem == 1 then t.init else t.rem - 1)]
  {
    TopInRange(k, idle);
  }

  lemma RotatedTurns(k: Kernel, l: seq<nat>)
    requires InRange(k, l) && l != []
    ensures InRange(k, l[1..] + [l[0]])
    ensures TurnsOf(k, l[1..] + [l[0]]) == TurnsOf(k, l)[1..] + [TurnsOf(k, l)[0]]
  {}

  lemma RotateTop(k: Kernel, idle: nat)
    requires AtWork(k, idle)
    ensures var l := Top(k);
            && l != [] && Rotate(Paid(k), k.current).ready.lists ==
               k.ready.lists[Lowest(k.ready.lists) := l[1..] + [l[0]]]
  {
    TopInRange(k, idle);
    var l := Top(k);
    WithoutAt(l, 0);
    assert l[..0] + l[1..] == l[1..];
    assert k.current in l;
  }

  lemma SliceEnds(k: Kernel, idle: nat)
    requires AtWork(k, idle) && Quiet(k) && k.tasks[k.current].rem == 1
    ensures AtWork(Beat(k), idle) && Turns(Beat(k), idle) == Slicing.Tick(Turns(k, idle))
  {
    QuietBeat(k, idle);
    PaidTurns(k, idle);
    RotateTop(k, idle);
    var l, r, q := Top(k), Rotate(Paid(k), k.current), TurnsOf(k, Top(k));
    var m := l[1..] + [l[0]];
    LowestSame(k.ready.lists, Lowest(k.ready.lists), m);
    RotatedTurns(Paid(k), l);
    SwitchKeepsTurns(r, m);
    assert Top(Beat(k)) == m;
    assert TurnsOf(r, m) == TurnsOf(Paid(k), m);
    assert q[0].rem == 1 && TurnsOf(Paid(k), l)[0] == Slicing.Fresh(q[0]);
    assert TurnsOf(Paid(k), l)[1..] == q[1..];
  }

  lemma SliceGoesOn(k: Kernel, idle: nat)
    requires AtWork(k, idle) && Quiet(k) && k.tasks[k.current].rem != 1
    ensures AtWork(Beat(k), idle) && Turns(Beat(k), idle) == Slicing.Tick(Turns(k, idle))
  {
    QuietBeat(k, idle);
    PaidTurns(k, idle);
    TopInRange(k, idle);
    var q, paid := TurnsOf(k, Top(k)), TurnsOf(Paid(k), Top(k));
    assert Top(Beat(k)) == Top(k);
    FirstOnly(q, paid[0]);
  }

  lemma FirstOnly(q: seq<Slicing.Turn>, t: Slicing.Turn)
    requires q != []
    ensures q[0 := t] == [t] + q[1..]
  {}

  /** Without a timer firing, a beat of the kernel is a tick of the queue. */
  lemma BeatIsTick(k: Kernel, idle: nat)
    requires AtWork(k, idle) && Quiet(k)
    ensures AtWork(Beat(k), idle) && Turns(Beat(k), idle) == Slicing.Tick(Turns(k, idle))
  {
    if k.tasks[k.current].rem == 1 {
      SliceEnds(k, idle);
    } else {
      SliceGoesOn(k, idle);
    }
  }

  // ---------- runs of ticks

  function Beats(k: Kernel, n: nat): Kernel
    decreases n
  {
    if n == 0 then k else Beats(Beat(k), n - 1)
  }

  /** No timer fires in the next n ticks. */
  predicate QuietFor(k: Kernel, n: nat)
    decreases n
  {
    n > 0 ==> Quiet(k) && QuietFor(Beat(k), n - 1)
  }

  /** How many of the next n ticks find the task running. */
  function CpuTicks(k: Kernel, n: nat, id: nat): nat
    decreases n
  {
    if n == 0 then 0 else (if k.current == id then 1 else 0) + CpuTicks(Beat(k), n - 1, id)
  }

  lemma {:induction false} BeatsAreTicks(k: Kernel, n: nat, id: nat, idle: nat)
    requires AtWork(k, idle) && QuietFor(k, n)
    ensures AtWork(Beats(k, n), idle) && Turns(k, idle) != []
    ensures Turns(Beats(k, n), idle) == Slicing.Ticks(Turns(k, idle), n)
    ensures CpuTicks(k, n, id) == Slicing.Got(Turns(k, idle), n, id)
    decreases n
  {
    TopInRange(k, idle);
    if n > 0 {
      BeatIsTick(k, idle);
      BeatsAreTicks(Beat(k), n - 1, id, idle);
    }
  }

  lemma TurnsValid(k: Kernel, idle: nat)
    requires AtWork(k, idle)
    ensures Slicing.Valid(Turns(k, idle)) && |Turns(k, idle)| == |Top(k)|
    ensures forall i :: 0 <= i < |Top(k)| ==> Turns(k, idle)[i].id == Top(k)[i]
    ensures InRange(k, Top(k)) && forall i :: 0 <= i < |Top(k)| ==> Turns(k, idle)[i].init == k.tasks[Top(k)[i]].init
  {
    TopInRange(k, idle);
  }

  /**
   Fair time slicing in the kernel: over a window of all the slices of the running priority, without a timer firing,
   each of its tasks runs for exactly its own slice, if and only if all but the current one have a whole slice left.
   */
  lemma KernelFairIff(k: Kernel, idle: nat)
    requires AtWork(k, idle) && QuietFor(k, Slicing.SumInit(Turns(k, idle)))
    ensures InRange(k, Top(k))
    ensures var window := Slicing.SumInit(Turns(k, idle));
            (forall i :: 0 <= i < |Top(k)| ==> CpuTicks(k, window, Top(k)[i]) == k.tasks[Top(k)[i]].init)
            <==> forall i :: 1 <= i < |Top(k)| ==> k.tasks[Top(k)[i]].rem == k.tasks[Top(k)[i]].init
  {
    TurnsValid(k, idle);
    var q, window := Turns(k, idle), Slicing.SumInit(Turns(k, idle));
    Slicing.FairIff(q);
    forall i | 0 <= i < |q| ensures CpuTicks(k, window, Top(k)[i]) == Slicing.Got(q, window, q[i].id) {
      BeatsAreTicks(k, window, Top(k)[i], idle);
    }
    assert Slicing.OthersFresh(q) <==> forall i :: 1 <= i < |Top(k)| ==>
             k.tasks[Top(k)[i]].rem == k.tasks[Top(k)[i]].init;
  }

  /** Ticks alone keep it so: once all but the current task have whole slices, every later window is fair as well. */
  lemma StaysFair(k: Kernel, n: nat, idle: nat)
    requires AtWork(k, idle) && QuietFor(k, n) && Slicing.OthersFresh(Turns(k, idle))
    ensures AtWork(Beats(k, n), idle) && Slicing.OthersFresh(Turns(Beats(k, n), idle))
  {
    TurnsValid(k, idle);
    BeatsAreTicks(k, n, 0, idle);
    Slicing.StaysFresh(Turns(k, idle), n);
  }
}
