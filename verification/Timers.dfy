/** kernel/timer.c on values: tick arithmetic, the ordered timeout list, and what runs of it promise. */
module Timers {
  const U64_MAX: nat := 0xFFFF_FFFF_FFFF_FFFF
  const U32_MAX: nat := 0xFFFF_FFFF

  // ---------- tick arithmetic

  /** The step of run_tick in system_beat_processing. */
  function NextTick(run: nat): nat {
    if run < U64_MAX then run + 1 else 0
  }

  /** The deadline that timer_start computes. */
  function Deadline(run: nat, init: nat): (d: nat)
    requires run <= U64_MAX && init <= U32_MAX
  {
    if U64_MAX - run >= init then run + init else init - (U64_MAX - run)
  }

  /** get_lave_tick: a deadline in the past counts as one behind the wrap, unless that would be too far away. */
  function LaveTick(timeout: nat, run: nat): nat
    requires run <= U64_MAX
  {
    if timeout >= run then timeout - run
    else if U64_MAX - run + timeout > U32_MAX then 0 else U64_MAX - run + timeout
  }

  function TickAfter(run: nat, n: nat): (t: nat)
    requires run <= U64_MAX
    ensures t <= U64_MAX
  {
    if n == 0 then run else NextTick(TickAfter(run, n - 1))
  }

  /** Whether the deadline lies behind the wrap of run_tick. */
  predicate Wraps(run: nat, init: nat) {
    run + init > U64_MAX
  }

  function TicksToZero(run: nat, init: nat): nat {
    if Wraps(run, init) then init + 1 else init
  }

  lemma {:induction false} TickAfterIs(run: nat, n: nat)
    requires run <= U64_MAX && n <= U32_MAX + 1
    ensures TickAfter(run, n) == if run + n <= U64_MAX then run + n else run + n - U64_MAX - 1
  {
    if n > 0 {
      TickAfterIs(run, n - 1);
    }
  }

  /**
   After timer_start the remaining time is init, it falls by one with every tick but the one that wraps, and
   it reaches 0 for the first time after init ticks, or init + 1 if the deadline lies behind the wrap.
   */
  lemma LaveTickCountsDown(run: nat, init: nat, n: nat)
    requires run <= U64_MAX && 1 <= init <= U32_MAX && n <= TicksToZero(run, init)
    ensures LaveTick(Deadline(run, init), run) == init
    ensures LaveTick(Deadline(run, init), TickAfter(run, n)) == 0 <==> n == TicksToZero(run, init)
    ensures n > 0 ==>
              LaveTick(Deadline(run, init), TickAfter(run, n)) ==
              LaveTick(Deadline(run, init), TickAfter(run, n - 1)) - (if TickAfter(run, n - 1) == U64_MAX then 0 else 1)
  {
    TickAfterIs(run, n);
    if n > 0 {
      TickAfterIs(run, n - 1);
    }
  }

  // ---------- the timeout list

  /** A started timer. The arrival number says in which order timers were started. */
  datatype Entry = Entry(id: nat, deadline: nat, prio: nat, arrival: nat)

  /** The order the list is to keep: by deadline, then priority, then arrival. */
  predicate Before(a: Entry, b: Entry) {
    a.deadline < b.deadline
    || (a.deadline == b.deadline && (a.prio < b.prio || (a.prio == b.prio && a.arrival < b.arrival)))
  }

  ghost predicate Sorted(q: seq<Entry>) {
    forall i, j :: 0 <= i < j < |q| ==> Before(q[i], q[j])
  }

  ghost predicate UniqueIds(q: seq<Entry>) {
    forall i, j :: 0 <= i < j < |q| ==> q[i].id != q[j].id
  }

  /** list_del of a timer that may or may not be started. */
  function Removed(q: seq<Entry>, id: nat): seq<Entry> {
    if q == [] then [] else (if q[0].id == id then [] else [q[0]]) + Removed(q[1..], id)
  }

  /** The condition under which the loop of timer_start goes past an entry. */
  predicate Passes(x: Entry, now: nat, e: Entry)
    requires now <= U64_MAX
  {
    var tickList, tickNew := LaveTick(x.deadline, now), LaveTick(e.deadline, now);
    tickList < tickNew || (tickList == tickNew && x.prio <= e.prio)
  }

  /** How many entries timer_start goes past. */
  function Place(q: seq<Entry>, now: nat, e: Entry): (k: nat)
    requires now <= U64_MAX
    ensures k <= |q| && (forall i :: 0 <= i < k ==> Passes(q[i], now, e)) && (k < |q| ==> !Passes(q[k], now, e))
  {
    if q != [] && Passes(q[0], now, e) then 1 + Place(q[1..], now, e) else 0
  }

  lemma PlaceIs(q: seq<Entry>, now: nat, e: Entry, k: nat)
    requires now <= U64_MAX && k <= |q|
    requires (forall i :: 0 <= i < k ==> Passes(q[i], now, e)) && (k < |q| ==> !Passes(q[k], now, e))
    ensures Place(q, now, e) == k
  {}

  function Inserted(q: seq<Entry>, now: nat, e: Entry): seq<Entry>
    requires now <= U64_MAX
  {
    q[..Place(q, now, e)] + [e] + q[Place(q, now, e)..]
  }

  lemma {:induction false} RemovedAbsent(q: seq<Entry>, id: nat)
    requires forall i :: 0 <= i < |q| ==> q[i].id != id
    ensures Removed(q, id) == q
  {
    if q != [] {
      RemovedAbsent(q[1..], id);
    }
  }

  lemma {:induction false} RemovedAt(q: seq<Entry>, id: nat, k: nat)
    requires k < |q| && q[k].id == id && forall i :: 0 <= i < |q| && i != k ==> q[i].id != id
    ensures Removed(q, id) == q[..k] + q[k + 1..]
  {
    if k == 0 {
      RemovedAbsent(q[1..], id);
    } else {
      RemovedAt(q[1..], id, k - 1);
      assert q[1..][..k - 1] == q[1..k];
    }
  }

  /** Where the timer id is in the list, or -1. */
  ghost predicate At(q: seq<Entry>, id: nat, k: int) {
    if k < 0 then forall i :: 0 <= i < |q| ==> q[i].id != id
    else k < |q| && q[k].id == id
  }

  lemma FindTimer(q: seq<Entry>, id: nat) returns (k: int)
    ensures At(q, id, k)
  {
    if i :| 0 <= i < |q| && q[i].id == id {
      k := i;
    } else {
      k := -1;
    }
  }

  /** Taking a timer out keeps the list in order, and its entries distinct. */
  lemma RemovedKeeps(q: seq<Entry>, id: nat, k: int)
    requires UniqueIds(q) && Sorted(q) && At(q, id, k)
    ensures Removed(q, id) == if k < 0 then q else q[..k] + q[k + 1..]
    ensures UniqueIds(Removed(q, id)) && Sorted(Removed(q, id)) && At(Removed(q, id), id, -1)
  {
    if k < 0 {
      RemovedAbsent(q, id);
    } else {
      RemovedAt(q, id, k);
    }
  }

  /**
   Nothing wraps: deadlines fit into 64 bits, and none is so long overdue that it looks like one behind the
   wrap.
   */
  ghost predicate NoWrap(q: seq<Entry>, now: nat) {
    now <= U64_MAX && forall i :: 0 <= i < |q| ==> q[i].deadline <= U64_MAX && now < q[i].deadline + (U64_MAX - U32_MAX)
  }

  lemma LaveIsDistance(q: seq<Entry>, now: nat, i: nat)
    requires NoWrap(q, now) && i < |q|
    ensures LaveTick(q[i].deadline, now) == if q[i].deadline <= now then 0 else q[i].deadline - now
  {}

  /**
   Insertion by remaining ticks, where all overdue timers look the same, still keeps the list sorted by
   deadline, priority and arrival, as long as the new timer is not due at once.
   */
  lemma InsertedSorted(q: seq<Entry>, now: nat, e: Entry)
    requires Sorted(q) && NoWrap(q, now) && now < e.deadline <= U64_MAX
    requires forall i :: 0 <= i < |q| ==> q[i].arrival < e.arrival
    ensures Sorted(Inserted(q, now, e))
    ensures forall i :: 0 <= i < |q| && q[i].deadline <= now ==> i < Place(q, now, e)
  {
    var k := Place(q, now, e);
    forall i | 0 <= i < |q|
      ensures if i < k then Before(q[i], e) else Before(e, q[i])
      ensures q[i].deadline <= now ==> i < k
    {
      LaveIsDistance(q, now, i);
      if k < |q| {
        LaveIsDistance(q, now, k);
        assert k < i ==> Before(q[k], q[i]);
      }
    }
    SortedInsert(q, k, e);
  }

  lemma SortedInsert(q: seq<Entry>, k: nat, e: Entry)
    requires Sorted(q) && k <= |q|
    requires forall i :: 0 <= i < k ==> Before(q[i], e)
    requires forall i :: k <= i < |q| ==> Before(e, q[i])
    ensures Sorted(q[..k] + [e] + q[k..])
  {}

  // ---------- runs

  datatype Fired = Fired(id: nat, deadline: nat, at: nat)

  datatype State = State(now: nat, queue: seq<Entry>, arrivals: nat, fired: seq<Fired>)

  datatype Event = StartEv(id: nat, init: nat, prio: nat) | StopEv(id: nat) | TickEv

  function Insertion(s: State, e: Entry): State
    requires s.now <= U64_MAX
  {
    s.(queue := Inserted(s.queue, s.now, e), arrivals := s.arrivals + 1)
  }

  /** timer_start */
  function Start(s: State, id: nat, init: nat, prio: nat): State
    requires s.now <= U64_MAX && init <= U32_MAX
  {
    Insertion(Stop(s, id), Entry(id, Deadline(s.now, init), prio, s.arrivals))
  }

  /** timer_stop */
  function Stop(s: State, id: nat): State {
    s.(queue := Removed(s.queue, id))
  }

  /** timer_check: fires the first timer if it is due, and no other. */
  function Check(s: State): State
    requires s.now <= U64_MAX
  {
    if s.queue == [] || LaveTick(s.queue[0].deadline, s.now) != 0 then s
    else s.(queue := s.queue[1..], fired := s.fired + [Fired(s.queue[0].id, s.queue[0].deadline, s.now)])
  }

  function Tick(s: State): State
    requires s.now <= U64_MAX
  {
    Check(s.(now := NextTick(s.now)))
  }

  function Apply(s: State, ev: Event): State
    requires s.now <= U64_MAX && (ev.StartEv? ==> ev.init <= U32_MAX)
  {
    match ev
    case StartEv(id, init, prio) => Start(s, id, init, prio)
    case StopEv(id) => Stop(s, id)
    case TickEv => Tick(s)
  }

  /**
   What holds between ticks when there are m timers. An overdue timer at position i has been overdue for so
   short that it will fire within the m ticks after its deadline.
   */
  ghost predicate Inv(s: State, m: nat) {
    && s.now <= U64_MAX && m <= U32_MAX + 1
    && Sorted(s.queue) && UniqueIds(s.queue)
    && forall i :: 0 <= i < |s.queue| ==> EntryOk(s.queue[i], i, s.now, s.arrivals, m)
  }

  ghost predicate EntryOk(e: Entry, i: nat, now: nat, arrivals: nat, m: nat) {
    e.id < m && e.arrival < arrivals && e.deadline <= U64_MAX && (e.deadline <= now ==> now - e.deadline + i + 2 <= m)
  }

  /** Timers 0, .., m - 1 exist, they are started with at least one tick, and neither deadlines nor run_tick wrap. */
  ghost predicate EventOk(s: State, ev: Event, m: nat) {
    match ev
    case StartEv(id, init, _) => id < m && 1 <= init <= U32_MAX && s.now + init <= U64_MAX
    case StopEv(id) => true
    case TickEv => s.now < U64_MAX
  }

  lemma InvNoWrap(s: State, m: nat)
    requires Inv(s, m)
    ensures NoWrap(s.queue, s.now)
    ensures s.now < U64_MAX ==> NoWrap(s.queue, s.now + 1)
  {
    forall i | 0 <= i < |s.queue|
      ensures s.queue[i].deadline <= U64_MAX && s.now + 1 < s.queue[i].deadline + (U64_MAX - U32_MAX)
    {
      assert EntryOk(s.queue[i], i, s.now, s.arrivals, m);
    }
  }

  /** Distinct ids below m make at most m entries. */
  lemma Pigeonhole(q: seq<Entry>, m: nat)
    requires UniqueIds(q) && forall i :: 0 <= i < |q| ==> q[i].id < m
    ensures |q| <= m
  {
    IdSetSize(q);
    SubsetSize(IdSet(q), Below(m));
  }

  ghost function Below(m: nat): (s: set<nat>)
    ensures |s| == m && forall x: nat :: x in s <==> x < m
  {
    if m == 0 then {} else Below(m - 1) + {m - 1}
  }

  ghost function IdSet(q: seq<Entry>): set<nat> {
    set i | 0 <= i < |q| :: q[i].id
  }

  lemma {:induction false} IdSetSize(q: seq<Entry>)
    requires UniqueIds(q)
    ensures |IdSet(q)| == |q|
  {
    if q != [] {
      var n := |q| - 1;
      IdSetSize(q[..n]);
      assert IdSet(q) == IdSet(q[..n]) + {q[n].id};
    }
  }

  lemma {:induction false} SubsetSize(a: set<nat>, b: set<nat>)
    requires a <= b
    ensures |a| <= |b|
  {
    if a != {} {
      var x :| x in a;
      SubsetSize(a - {x}, b - {x});
    }
  }

  lemma StopKeepsInv(s: State, id: nat, m: nat)
    requires Inv(s, m)
    ensures Inv(Stop(s, id), m) && At(Stop(s, id).queue, id, -1)
  {
    var k := FindTimer(s.queue, id);
    RemovedKeeps(s.queue, id, k);
    var q := Removed(s.queue, id);
    forall i | 0 <= i < |q| ensures EntryOk(q[i], i, s.now, s.arrivals, m) {
      assert EntryOk(s.queue[if k < 0 || i < k then i else i + 1], if k < 0 || i < k then i
             else i + 1, s.now, s.arrivals, m);
    }
  }

  lemma StartKeepsInv(s: State, id: nat, init: nat, prio: nat, m: nat)
    requires Inv(s, m) && id < m && 1 <= init <= U32_MAX && s.now + init <= U64_MAX
    ensures Inv(Start(s, id, init, prio), m)
  {
    var t, e := Stop(s, id), Entry(id, s.now + init, prio, s.arrivals);
    StopKeepsInv(s, id, m);
    StartIsInsert(s, id, init, prio);
    InsertKeepsInv(t, e, m);
  }

  lemma StartIsInsert(s: State, id: nat, init: nat, prio: nat)
    requires s.now + init <= U64_MAX && init <= U32_MAX
    ensures Start(s, id, init, prio) == Insertion(Stop(s, id), Entry(id, s.now + init, prio, s.arrivals))
  {}

  lemma InsertKeepsInv(s: State, e: Entry, m: nat)
    requires Inv(s, m) && At(s.queue, e.id, -1)
    requires e.id < m && e.arrival == s.arrivals && s.now < e.deadline <= U64_MAX
    ensures Inv(Insertion(s, e), m)
  {
    InvNoWrap(s, m);
    assert forall i :: 0 <= i < |s.queue| ==> EntryOk(s.queue[i], i, s.now, s.arrivals, m);
    InsertedSorted(s.queue, s.now, e);
    InsertedEntries(s.queue, Place(s.queue, s.now, e), e, s.now, s.arrivals, m);
  }

  lemma InsertedEntries(q: seq<Entry>, k: nat, e: Entry, now: nat, arrivals: nat, m: nat)
    requires k <= |q| && UniqueIds(q) && At(q, e.id, -1)
    requires forall i :: 0 <= i < |q| ==> EntryOk(q[i], i, now, arrivals, m)
    requires forall i :: 0 <= i < |q| && q[i].deadline <= now ==> i < k
    requires e.id < m && e.arrival == arrivals && now < e.deadline <= U64_MAX
    ensures var r := q[..k] + [e] + q[k..];
            UniqueIds(r) && forall i :: 0 <= i < |r| ==> EntryOk(r[i], i, now, arrivals + 1, m)
  {
    var r := q[..k] + [e] + q[k..];
    forall i | 0 <= i < |r| ensures EntryOk(r[i], i, now, arrivals + 1, m) {
      if i < k {
        assert r[i] == q[i] && EntryOk(q[i], i, now, arrivals, m);
      } else if i > k {
        assert r[i] == q[i - 1] && EntryOk(q[i - 1], i - 1, now, arrivals, m);
      }
    }
    forall i, j | 0 <= i < j < |r| ensures r[i].id != r[j].id {
      assert i == k || r[i] == q[if i < k then i else i - 1];
      assert j == k || r[j] == q[if j < k then j else j - 1];
    }
  }

  lemma TickKeepsInv(s: State, m: nat)
    requires Inv(s, m) && s.now < U64_MAX
    ensures Inv(Tick(s), m) && Tick(s).now == s.now + 1
    ensures Tick(s) == if s.queue != [] && s.queue[0].deadline <= s.now + 1
                       then s.(now := s.now + 1, queue := s.queue[1..],
                               fired := s.fired + [Fired(s.queue[0].id, s.queue[0].deadline, s.now + 1)])
                       else s.(now := s.now + 1)
  {
    InvNoWrap(s, m);
    var q, t := s.queue, Tick(s);
    assert forall i :: 0 <= i < |q| ==> EntryOk(q[i], i, s.now, s.arrivals, m);
    Pigeonhole(q, m);
    if q != [] {
      LaveIsDistance(q, s.now + 1, 0);
    }
    forall i | 0 <= i < |t.queue| ensures EntryOk(t.queue[i], i, t.now, t.arrivals, m) {
      if t.queue == q {
        assert i > 0 ==> Before(q[0], q[i]);
      } else {
        assert t.queue[i] == q[i + 1];
      }
    }
  }

  /** The list stays ordered by deadline, priority and arrival, and no timer is forgotten, in every step. */
  lemma ApplyKeepsInv(s: State, ev: Event, m: nat)
    requires Inv(s, m) && EventOk(s, ev, m)
    ensures Inv(Apply(s, ev), m)
  {
    match ev
    case StartEv(id, init, prio) => StartKeepsInv(s, id, init, prio, m);
    case StopEv(id) => StopKeepsInv(s, id, m);
    case TickEv => TickKeepsInv(s, m);
  }

  function Run(s: State, evs: seq<Event>): State
    requires RunOk(s, evs)
    decreases |evs|
  {
    if evs == [] then s else Run(Apply(s, evs[0]), evs[1..])
  }

  /** The events of a run can be carried out: start times are 32 bits wide, and run_tick 64. */
  ghost predicate RunOk(s: State, evs: seq<Event>)
    decreases |evs|
  {
    evs != [] ==>
      && s.now <= U64_MAX && (evs[0].StartEv? ==> evs[0].init <= U32_MAX)
      && RunOk(Apply(s, evs[0]), evs[1..])
  }

  /** A run of at most m timers that stays away from the wrap. */
  ghost predicate Regular(s: State, evs: seq<Event>, m: nat)
    requires RunOk(s, evs)
    decreases |evs|
  {
    evs != [] ==> EventOk(s, evs[0], m) && Regular(Apply(s, evs[0]), evs[1..], m)
  }

  lemma {:induction false} RunKeepsInv(s: State, evs: seq<Event>, m: nat)
    requires Inv(s, m) && RunOk(s, evs) && Regular(s, evs, m)
    ensures Inv(Run(s, evs), m)
    decreases |evs|
  {
    if evs != [] {
      ApplyKeepsInv(s, evs[0], m);
      RunKeepsInv(Apply(s, evs[0]), evs[1..], m);
    }
  }

  /** The events neither start nor stop the timer x. */
  predicate LeavesAlone(evs: seq<Event>, x: nat) {
    forall i :: 0 <= i < |evs| ==> evs[i] == TickEv || evs[i].id != x
  }

  function Ticks(evs: seq<Event>): nat {
    if evs == [] then 0 else (if evs[0] == TickEv then 1 else 0) + Ticks(evs[1..])
  }

  /** What an event that is not a tick does to the place of another timer. */
  lemma OtherEvent(s: State, ev: Event, m: nat, e: Entry, i: nat) returns (j: nat)
    requires Inv(s, m) && EventOk(s, ev, m) && ev != TickEv && ev.id != e.id && i < |s.queue| && s.queue[i] == e
    ensures var t := Apply(s, ev);
            && j < |t.queue| && t.queue[j] == e && t.now == s.now && t.fired == s.fired
            && (e.deadline <= s.now ==> j <= i)
  {
    j := RemovedPlace(s.queue, ev.id, e, i);
    if ev.StartEv? {
      j := StartedPlace(s, ev.id, ev.init, ev.prio, m, e, j);
    }
  }

  lemma RemovedPlace(q: seq<Entry>, id: nat, e: Entry, i: nat) returns (j: nat)
    requires UniqueIds(q) && Sorted(q) && id != e.id && i < |q| && q[i] == e
    ensures j < |Removed(q, id)| && Removed(q, id)[j] == e && j <= i
  {
    var k := FindTimer(q, id);
    RemovedKeeps(q, id, k);
    if 0 <= k < i {
      assert (q[..k] + q[k + 1..])[i - 1] == q[i];
      j := i - 1;
    } else {
      assert k >= 0 ==> (q[..k] + q[k + 1..])[i] == q[i];
      j := i;
    }
  }

  lemma StartedPlace(s: State, id: nat, init: nat, prio: nat, m: nat, e: Entry, i: nat) returns (j: nat)
    requires Inv(s, m) && 1 <= init <= U32_MAX && s.now + init <= U64_MAX && i < |Stop(s, id).queue|
             && Stop(s, id).queue[i] == e
    ensures var q := Start(s, id, init, prio).queue; j < |q| && q[j] == e && (e.deadline <= s.now ==> j == i)
  {
    StopKeepsInv(s, id, m);
    StartIsInsert(s, id, init, prio);
    j := InsertedPlace(Stop(s, id), Entry(id, s.now + init, prio, s.arrivals), m, e, i);
  }

  lemma InsertedPlace(s: State, n: Entry, m: nat, e: Entry, i: nat) returns (j: nat)
    requires Inv(s, m) && i < |s.queue| && s.queue[i] == e
    requires s.now < n.deadline <= U64_MAX && n.arrival == s.arrivals
    ensures var q := Inserted(s.queue, s.now, n); j < |q| && q[j] == e && (e.deadline <= s.now ==> j == i)
  {
    InvNoWrap(s, m);
    assert forall i :: 0 <= i < |s.queue| ==> EntryOk(s.queue[i], i, s.now, s.arrivals, m);
    InsertedSorted(s.queue, s.now, n);
    j := if i < Place(s.queue, s.now, n) then i else i + 1;
  }

  /** A timer that is left alone is still waiting as long as its deadline is ahead: it never fires early. */
  lemma {:induction false} WaitsUntilDue(s: State, evs: seq<Event>, m: nat, e: Entry)
    requires Inv(s, m) && RunOk(s, evs) && Regular(s, evs, m) && LeavesAlone(evs, e.id)
    requires e in s.queue && Run(s, evs).now < e.deadline
    ensures e in Run(s, evs).queue
    ensures forall f :: f in Run(s, evs).fired && f !in s.fired ==> f.id != e.id
    decreases |evs|
  {
    if evs != [] {
      var ev, t, i := evs[0], Apply(s, evs[0]), IndexOf(s.queue, e);
      ApplyKeepsInv(s, ev, m);
      NowGrows(t, evs[1..], m);
      if ev == TickEv {
        TickKeepsInv(s, m);
        assert s.queue[0] != e ==> i > 0;
        assert t.queue == s.queue || t.queue[i - 1] == e;
        assert UniqueIds(s.queue);
      } else {
        var j := OtherEvent(s, ev, m, e, i);
      }
      WaitsUntilDue(t, evs[1..], m, e);
    }
  }

  ghost function IndexOf(q: seq<Entry>, e: Entry): (i: nat)
    requires e in q
    ensures i < |q| && q[i] == e
  {
    var i :| 0 <= i < |q| && q[i] == e;
    i
  }

  lemma {:induction false} NowGrows(s: State, evs: seq<Event>, m: nat)
    requires Inv(s, m) && RunOk(s, evs) && Regular(s, evs, m)
    ensures Run(s, evs).now == s.now + Ticks(evs)
    decreases |evs|
  {
    if evs != [] {
      ApplyKeepsInv(s, evs[0], m);
      NowGrows(Apply(s, evs[0]), evs[1..], m);
      if evs[0] == TickEv {
        TickKeepsInv(s, m);
      }
    }
  }

  lemma {:induction false} FiredGrows(s: State, evs: seq<Event>, f: Fired)
    requires RunOk(s, evs) && f in s.fired
    ensures f in Run(s, evs).fired
    decreases |evs|
  {
    if evs != [] {
      FiredGrows(Apply(s, evs[0]), evs[1..], f);
    }
  }

  /** An overdue timer with i others ahead of it fires within i + 1 ticks: nobody overtakes it any more. */
  lemma {:induction false} OverdueFires(s: State, evs: seq<Event>, m: nat, e: Entry, i: nat) returns (f: Fired)
    requires Inv(s, m) && RunOk(s, evs) && Regular(s, evs, m) && LeavesAlone(evs, e.id)
    requires i < |s.queue| && s.queue[i] == e && e.deadline <= s.now && Ticks(evs) >= i + 1
    ensures f in Run(s, evs).fired && f.id == e.id && f.deadline == e.deadline && s.now < f.at <= s.now + i + 1
    decreases |evs|
  {
    var ev, t := evs[0], Apply(s, evs[0]);
    ApplyKeepsInv(s, ev, m);
    if ev == TickEv {
      TickKeepsInv(s, m);
      assert i > 0 ==> Before(s.queue[0], s.queue[i]);
      if i == 0 {
        f := Fired(e.id, e.deadline, s.now + 1);
        FiredGrows(t, evs[1..], f);
      } else {
        f := OverdueFires(t, evs[1..], m, e, i - 1);
      }
    } else {
      var j := OtherEvent(s, ev, m, e, i);
      f := OverdueFires(t, evs[1..], m, e, j);
    }
  }

  /**
   The timing promise: if a started timer is left alone, it is in the list when run_tick is about to reach
   its deadline D, and with k timers ahead of it then, it fires at one of the ticks D, .., D + k.
   */
  lemma FiresOnTime(s: State, pre: seq<Event>, post: seq<Event>, m: nat, e: Entry) returns (k: nat, f: Fired)
    requires Inv(s, m) && RunOk(s, pre) && Regular(s, pre, m) && e in s.queue
    requires LeavesAlone(pre, e.id) && LeavesAlone(post, e.id) && Run(s, pre).now == e.deadline - 1
    requires var due := Run(s, pre);
             && RunOk(due, [TickEv] + post) && Regular(due, [TickEv] + post, m)
             && forall i :: 0 <= i < |due.queue| && due.queue[i] == e ==> i <= Ticks(post)
    ensures var due := Run(s, pre);
            && k < |due.queue| && due.queue[k] == e
            && f in Run(due, [TickEv] + post).fired && f.id == e.id && e.deadline <= f.at <= e.deadline + k
  {
    WaitsUntilDue(s, pre, m, e);
    RunKeepsInv(s, pre, m);
    var due := Run(s, pre);
    k := IndexOf(due.queue, e);
    TickKeepsInv(due, m);
    assert k > 0 ==> Before(due.queue[0], due.queue[k]);
    assert ([TickEv] + post)[1..] == post;
    if k == 0 {
      f := Fired(e.id, e.deadline, e.deadline);
      FiredGrows(Tick(due), post, f);
    } else {
      f := OverdueFires(Tick(due), post, m, e, k - 1);
    }
  }
}
