/** kernel/sem.c in place: the sem_t object and its calls, on top of the scheduler object. */
module SemObject {
  import opened Tasks
  import opened Semaphore
  import Kernel
  import Timers

  lemma {:induction false} UnqueuedIn(q: seq<Waiter>, id: nat)
    ensures forall w :: w in Unqueued(q, id) ==> w in q
  {
    if q != [] {
      UnqueuedIn(q[1..], id);
    }
  }

  lemma PlaceIs(q: seq<Waiter>, prio: nat, k: nat)
    requires k <= |q| && (forall i :: 0 <= i < k ==> q[i].prio >= prio) && (k < |q| ==> q[k].prio < prio)
    ensures QueuePlace(q, prio) == k
  {}

  /** The numbers behind count and waitList only serve the proofs; the arrival numbers stand in the queue itself. */
  class SemT {
    const sys: Kernel.System
    var count: nat
    var waitList: seq<Waiter>
    var arrivals: nat
    ghost var sends: nat
    ghost var grants: nat
    ghost var dequeued: nat
    ghost var wraps: nat

    ghost predicate Valid()
      reads this, sys, sys.tasks, sys.timeouts
    {
      && sys.Valid() && 0 <= sys.current < |sys.tasks| && count <= 255
      && forall w :: w in waitList ==> w.id < |sys.tasks|
    }

    ghost function Abs(): Sem
      requires Valid()
      reads this, sys, sys.tasks, sys.timeouts, sys.timeouts.list, Kernel.TimersOf(sys.tasks)
    {
      Sem(sys.Abs(), count, waitList, arrivals, sends, grants, dequeued, wraps)
    }

    /** sem_alloc */
    constructor (sys: Kernel.System, initial: nat)
      requires sys.Valid() && 0 <= sys.current < |sys.tasks| && initial <= 255
      ensures Valid() && this.sys == sys && Abs() == SemAlloc(sys.Abs(), initial)
    {
      this.sys, count, waitList := sys, initial, [];
      arrivals, sends, grants, dequeued, wraps := 0, 0, 0, 0, 0;
    }

    /** The loop of __sem_get. */
    method FindPlace(prio: nat) returns (k: nat)
      ensures k == QueuePlace(waitList, prio)
    {
      k := 0;
      while k < |waitList|
        invariant k <= |waitList| && forall i :: 0 <= i < k ==> waitList[i].prio >= prio
      {
        if prio > waitList[k].prio {
          break;
        }
        k := k + 1;
      }
      PlaceIs(waitList, prio, k);
    }

    /** __sem_get */
    method EnqueueCurrent()
      requires Valid()
      modifies this`waitList, this`arrivals
      ensures Valid() && Abs() == Enqueue(old(Abs()), sys.current)
    {
      var task := sys.tasks[sys.current];
      Requeue(Waiter(task.id, task.currentPriority, arrivals));
      arrivals := arrivals + 1;
    }

    /** Out of the queue, if it is there, and in again at its place. */
    method Requeue(w: Waiter)
      modifies this`waitList
      ensures waitList == Queued(Unqueued(old(waitList), w.id), w)
      ensures forall v :: v in waitList ==> v in old(waitList) || v == w
    {
      UnqueuedIn(waitList, w.id);
      waitList := Unqueued(waitList, w.id);
      var k := FindPlace(w.prio);
      waitList := waitList[..k] + [w] + waitList[k..];
    }

    method TakeOne()
      requires Valid() && count > 0
      modifies this`count, this`grants
      ensures Valid() && Abs() == old(Abs()).(count := old(count) - 1, grants := old(grants) + 1)
    {
      count := count - 1;
      grants := grants + 1;
    }

    method SemGet()
      requires Valid()
      modifies this`count, this`waitList, this`arrivals, this`grants
      modifies sys`lists, sys`group, sys`current, sys.tasks, sys.timeouts
      ensures Valid() && Abs() == Get(old(Abs()))
    {
      var task := sys.tasks[sys.current];
      if task.currentPriority == 31 {
        return;
      }
      if count > 0 {
        TakeOne();
      } else {
        EnqueueCurrent();
        Block(task);
      }
    }

    /** task_hang and switch_task */
    method Block(task: Kernel.TaskStruct)
      requires Valid() && sys.Known(task)
      modifies sys`lists, sys`group, sys`current, sys.tasks, sys.timeouts
      ensures Valid() && Abs() == old(Abs()).(k := Switch(TaskHang(old(Abs()).k, task.id)))
    {
      var rc := sys.TaskHang(task);
      sys.SwitchTask();
    }

    /** sem_get_timeout, up to its return or the moment when the task is switched off; -16 is -EBUSY. */
    method SemGetTimeout(timedout: nat) returns (rc: int)
      requires Valid() && timedout <= Timers.U32_MAX
      modifies this`count, this`waitList, this`arrivals, this`grants
      modifies sys`lists, sys`group, sys`current, sys.tasks, sys.timeouts, Kernel.TimersOf(sys.tasks)
      ensures Valid() && Abs() == GetTimeout(old(Abs()), timedout)
      ensures rc == if old(count) == 0 && timedout == 0 then -16 else 0
    {
      var task := sys.tasks[sys.current];
      if count > 0 {
        TakeOne();
        return 0;
      }
      EnqueueCurrent();
      if timedout == 0 {
        return -16;
      }
      BlockFor(task, timedout);
      return 0;
    }

    /** task_hang, timer_ctrl, timer_start and switch_task */
    method BlockFor(task: Kernel.TaskStruct, tick: nat)
      requires Valid() && sys.Known(task) && 0 < tick <= Timers.U32_MAX
      modifies sys`lists, sys`group, sys`current, sys.tasks, sys.timeouts, Kernel.TimersOf(sys.tasks)
      ensures Valid() && Abs() == old(Abs()).(k := Switch(StartTimer(TaskHang(old(Abs()).k, task.id), task.id, tick)))
    {
      HangFor(task, tick);
      Reschedule();
    }

    method HangFor(task: Kernel.TaskStruct, tick: nat)
      requires Valid() && sys.Known(task) && 0 < tick <= Timers.U32_MAX
      modifies sys`lists, sys`group, sys.tasks, sys.timeouts, Kernel.TimersOf(sys.tasks)
      ensures Valid() && sys.tasks == old(sys.tasks)
      ensures Abs() == old(Abs()).(k := StartTimer(TaskHang(old(Abs()).k, task.id), task.id, tick))
    {
      var rc := sys.TaskHang(task);
      sys.StartTaskTimer(task, tick);
    }

    /** The end of sem_get_timeout, when its task runs again; -110 is -ETIMEDOUT. */
    method AfterWaiting() returns (rc: int)
      requires Valid()
      modifies this`waitList, sys.tasks
      ensures Valid() && Abs() == Return(old(Abs())) && rc == if ReturnsTimedOut(old(Abs())) then -110 else 0
    {
      var task := sys.tasks[sys.current];
      if task.timedOut {
        sys.SetTimedOut(task, false);
        UnqueuedIn(waitList, task.id);
        waitList := Unqueued(waitList, task.id);
        return -110;
      }
      return 0;
    }

    /** sem_send with num == 1: the count has 8 bits. */
    method SemSend()
      requires Valid()
      modifies this`count, this`waitList, this`sends, this`dequeued, this`wraps
      modifies sys`lists, sys`group, sys`current, sys.tasks, sys.timeouts
      ensures Valid() && Abs() == Send(old(Abs()))
    {
      assert waitList != [] ==> waitList[0] in waitList;
      if waitList != [] {
        ResumeFirst();
      } else {
        CountUp();
      }
      Reschedule();
    }

    method ResumeFirst()
      requires Valid() && waitList != [] && waitList[0].id < |sys.tasks|
      modifies this`waitList, this`sends, this`dequeued
      modifies sys`lists, sys`group, sys.tasks, sys.timeouts
      ensures Valid() && Abs() == WakeFirst(old(Abs()))
    {
      var task := sys.tasks[waitList[0].id];
      Unlink();
      var rc := sys.TaskResume(task);
    }

    method Unlink()
      requires Valid() && waitList != []
      modifies this`waitList, this`sends, this`dequeued
      ensures Valid() && waitList == old(waitList)[1..]
      ensures sends == old(sends) + 1 && dequeued == old(dequeued) + 1
    {
      waitList := waitList[1..];
      sends, dequeued := sends + 1, dequeued + 1;
    }

    method CountUp()
      requires Valid()
      modifies this`count, this`sends, this`wraps
      ensures Valid() && Abs() == Post(old(Abs()))
    {
      sends := sends + 1;
      if count == 255 {
        count := 0;
        wraps := wraps + 1;
      } else {
        count := count + 1;
      }
    }

    method Reschedule()
      requires Valid()
      modifies sys`current, sys.tasks
      ensures Valid() && Abs() == old(Abs()).(k := Switch(old(Abs()).k))
    {
      sys.SwitchTask();
    }
  }
}
