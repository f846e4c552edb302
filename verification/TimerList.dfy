/** kernel/timer.c in place: system_timer_list, run_tick and the calls that change them. */
module TimerList {
  import opened Timers

  /** struct timer_struct_t, as far as the list uses it. The arrival number is only counted for the proofs. */
  class TimerStruct {
    const id: nat
    const priority: nat
    var initTick: nat
    var timeoutTick: nat
    ghost var arrival: nat

    /** timer_init */
    constructor (id: nat, priority: nat, tick: nat)
      ensures this.id == id && this.priority == priority && initTick == tick
    {
      this.id, this.priority, initTick, timeoutTick := id, priority, tick, 0;
    }

    ghost function Entry(): Entry
      reads this
    {
      Timers.Entry(id, timeoutTick, priority, arrival)
    }
  }

  ghost function Entries(list: seq<TimerStruct>): (q: seq<Entry>)
    reads list
    ensures |q| == |list| && forall i :: 0 <= i < |q| ==> q[i] == list[i].Entry()
  {
    seq(|list|, i requires 0 <= i < |list| reads list => list[i].Entry())
  }

  lemma EntriesInsert(list: seq<TimerStruct>, timer: TimerStruct, k: nat)
    requires k <= |list|
    ensures Entries(list[..k] + [timer] + list[k..]) == Entries(list)[..k] + [timer.Entry()] + Entries(list)[k..]
  {}

  class Timeouts {
    var runTick: nat
    var list: seq<TimerStruct>
    ghost var arrivals: nat
    ghost var fired: seq<Fired>

    ghost predicate Valid()
      reads this
    {
      runTick <= U64_MAX && forall i, j :: 0 <= i < j < |list| ==> list[i] != list[j]
    }

    /** The state that Timers speaks about. */
    ghost function Abs(): State
      reads this, list
    {
      State(runTick, Entries(list), arrivals, fired)
    }

    constructor ()
      ensures Valid() && Abs() == State(0, [], 0, [])
    {
      runTick, list, arrivals, fired := 0, [], 0, [];
    }

    /** get_lave_tick */
    method GetLaveTick(timer: TimerStruct) returns (lave: nat)
      requires Valid()
      ensures lave == LaveTick(timer.timeoutTick, runTick)
    {
      if timer.timeoutTick >= runTick {
        return timer.timeoutTick - runTick;
      }
      lave := U64_MAX - runTick + timer.timeoutTick;
      if lave > U32_MAX {
        lave := 0;
      }
    }

    method Find(timer: TimerStruct) returns (k: nat)
      ensures k <= |list| && timer !in list[..k] && (k < |list| ==> list[k] == timer)
    {
      k := 0;
      while k < |list| && list[k] != timer
        invariant k <= |list| && timer !in list[..k]
      {
        k := k + 1;
      }
    }

    /** timer_remove, timer_stop and timer_delete: list_del does nothing to a timer that is not in the list. */
    method TimerStop(timer: TimerStruct)
      requires Valid() && IdsAgree(timer)
      modifies this`list
      ensures Valid() && timer !in list && (forall u :: u in list ==> u in old(list))
      ensures Abs() == Stop(old(Abs()), timer.id)
    {
      var k := Find(timer);
      ghost var q := Entries(list);
      if k < |list| {
        RemovedAt(q, timer.id, k);
        list := list[..k] + list[k + 1..];
      } else {
        RemovedAbsent(q, timer.id);
      }
    }

    /** timer_start */
    method TimerStart(timer: TimerStruct)
      requires Valid() && IdsAgree(timer) && 0 < timer.initTick <= U32_MAX
      modifies this`list, this`arrivals, timer`timeoutTick, timer`arrival
      ensures Valid() && timer in list && forall u :: u in list ==> u == timer || u in old(list)
      ensures Abs() == Start(old(Abs()), timer.id, timer.initTick, timer.priority)
    {
      TimerStop(timer);
      SetDeadline(timer);
      AddInOrder(timer);
    }

    method SetDeadline(timer: TimerStruct)
      requires Valid() && timer !in list && timer.initTick <= U32_MAX
      modifies timer`timeoutTick, timer`arrival
      ensures timer.Entry() == Timers.Entry(timer.id, Deadline(runTick, timer.initTick), timer.priority, arrivals)
      ensures Abs() == old(Abs())
    {
      if U64_MAX - runTick >= timer.initTick {
        timer.timeoutTick := runTick + timer.initTick;
      } else {
        timer.timeoutTick := timer.initTick - (U64_MAX - runTick);
      }
      timer.arrival := arrivals;
    }

    method AddInOrder(timer: TimerStruct)
      requires Valid() && timer !in list
      modifies this`list, this`arrivals
      ensures Valid() && timer in list && forall u :: u in list ==> u == timer || u in old(list)
      ensures Abs() == Insertion(old(Abs()), timer.Entry())
    {
      var k := FindPlace(timer);
      EntriesInsert(list, timer, k);
      list := list[..k] + [timer] + list[k..];
      arrivals := arrivals + 1;
    }

    /** The loop of timer_start. */
    method FindPlace(timer: TimerStruct) returns (k: nat)
      requires Valid()
      ensures k == Place(Entries(list), runTick, timer.Entry())
    {
      ghost var q, e := Entries(list), timer.Entry();
      k := 0;
      while k < |list|
        invariant k <= |list| && forall i :: 0 <= i < k ==> Passes(q[i], runTick, e)
      {
        var past := GoesPast(list[k], timer);
        if !past {
          break;
        }
        k := k + 1;
      }
      PlaceIs(q, runTick, e, k);
    }

    method GoesPast(x: TimerStruct, timer: TimerStruct) returns (past: bool)
      requires Valid()
      ensures past == Passes(x.Entry(), runTick, timer.Entry())
    {
      var tickList := GetLaveTick(x);
      var tickNew := GetLaveTick(timer);
      past := tickList < tickNew || (tickList == tickNew && x.priority <= timer.priority);
    }

    /** timer_ctrl with CMD_TIMER_SET_TICK: a started timer keeps its deadline. */
    method TimerCtrl(timer: TimerStruct, tick: nat)
      requires tick <= U32_MAX
      modifies timer`initTick
      ensures timer.initTick == tick && Abs() == old(Abs())
    {
      timer.initTick := tick;
    }

    /** The step of run_tick in system_beat_processing. */
    method Beat()
      requires Valid()
      modifies this`runTick
      ensures Valid() && runTick == NextTick(old(runTick))
    {
      if runTick < U64_MAX {
        runTick := runTick + 1;
      } else {
        runTick := 0;
      }
    }

    /** timer_check up to the call of the timeout function, which is left to the caller. */
    method TimerCheck() returns (due: seq<TimerStruct>)
      requires Valid()
      modifies this`list, this`fired
      ensures Valid() && (forall u :: u in list ==> u in old(list))
      ensures Abs() == Check(old(Abs()))
      ensures due == if old(Abs()) == Check(old(Abs())) then [] else [old(list)[0]]
    {
      due := [];
      if |list| > 0 {
        var lave := GetLaveTick(list[0]);
        if lave == 0 {
          due := [list[0]];
          fired := fired + [Fired(list[0].id, list[0].timeoutTick, runTick)];
          list := list[1..];
        }
      }
    }

    /** Timers are told apart by their ids. */
    ghost predicate IdsAgree(timer: TimerStruct)
      reads this
    {
      forall u :: u in list && u.id == timer.id ==> u == timer
    }
  }
}
