/** The scheduler and the semaphores on the kernel's own structures, updated in place.

    A method that switches tasks ends with the code of the task it switched to: that task leaves the
    calls it was suspended in, and its own code goes on from there. */
module Kernel {
  import opened Config
  import opened Sched

  /** struct task; `frames` stands for the part of its stack that holds saved interrupt flags. */
  class Thread {
    var status: Status
    var priority: nat
    var ticks: nat
    var elapsed: nat
    var frames: seq<bool>

    /** task_init and task_init_stack. */
    constructor (priority: nat)
      ensures Val() == Task(Ready, priority, priority, 0, [true])
    {
      this.status, this.priority, this.ticks, elapsed, frames := Ready, priority, priority, 0, [true];
    }

    ghost function Val(): Task
      reads this
    {
      Task(status, priority, ticks, elapsed, frames)
    }
  }

  /** struct semaphore, with its history. */
  class Semaphore {
    var value: nat
    var waitQueue: seq<nat>
    ghost var initial: nat
    ghost var ups: nat
    ghost var passed: nat
    ghost var waited: seq<nat>
    ghost var granted: seq<nat>

    /** semaphore_init. */
    constructor (value: nat)
      ensures Val() == Sem(value, [], value, 0, 0, [], [])
    {
      this.value, waitQueue := value, [];
      initial, ups, passed, waited, granted := value, 0, 0, [], [];
    }

    ghost function Val(): Sem
      reads this
    {
      Sem(value, waitQueue, initial, ups, passed, waited, granted)
    }

    /** A unit is taken. */
    method Take()
      requires value > 0
      modifies this
      ensures Val() == old(Val()).(value := old(value) - 1, passed := old(passed) + 1)
    {
      value := value - 1;
      passed := passed + 1;
    }

    /** list_add_tail on the wait queue. */
    method Join(t: nat)
      modifies this
      ensures Val() == JoinQueue(old(Val()), t)
    {
      waitQueue := waitQueue + [t];
      waited := waited + [t];
    }

    /** The effect of an up on the semaphore itself: a unit more, or the first waiter released. */
    method Release() returns (t: nat, found: bool)
      modifies this
      ensures Val() == ReleaseHead(old(Val()))
      ensures found <==> old(waitQueue) != []
      ensures found ==> t == old(waitQueue)[0]
    {
      ups := ups + 1;
      if waitQueue == [] {
        value := value + 1;
        return 0, false;
      }
      t, found := waitQueue[0], true;
      granted := granted + [t];
      waitQueue := waitQueue[1..];
    }
  }

  class Scheduler {
    var threads: seq<Thread>
    var ready: seq<nat>
    var current: nat
    var idle: nat
    var sems: seq<Semaphore>
    var ticks: nat
    var intr: bool

    ghost predicate Footprint()
      reads this`threads, this`sems
    {
      && (forall i, j :: 0 <= i < j < |threads| ==> threads[i] != threads[j])
      && (forall i, j :: 0 <= i < j < |sems| ==> sems[i] != sems[j])
    }

    ghost function Tasks(): (r: seq<Task>)
      reads this`threads, threads
      ensures |r| == |threads|
    {
      var ts := threads;
      seq(|ts|, i requires 0 <= i < |ts| reads ts => ts[i].Val())
    }

    ghost function SemVals(): (r: seq<Sem>)
      reads this`sems, sems
      ensures |r| == |sems|
    {
      var ss := sems;
      seq(|ss|, i requires 0 <= i < |ss| reads ss => ss[i].Val())
    }

    ghost function Now(): State
      reads this, threads, sems
    {
      State(Tasks(), ready, current, idle, SemVals(), ticks, intr)
    }

    // ----- single writes

    method SetStatus(t: nat, status: Status)
      requires Footprint() && t < |threads|
      modifies threads
      ensures Now() == Marked(old(Now()), t, status)
    {
      threads[t].status := status;
      assert Tasks() == old(Tasks())[t := threads[t].Val()];
    }

    method SetTicks(t: nat, n: nat)
      requires Footprint() && t < |threads|
      modifies threads
      ensures Now() == Sliced(old(Now()), t, n)
    {
      threads[t].ticks := n;
      assert Tasks() == old(Tasks())[t := threads[t].Val()];
    }

    method SetElapsed(t: nat, n: nat)
      requires Footprint() && t < |threads|
      modifies threads
      ensures Now() == old(Now()).(tasks := With(old(Tasks()), t, old(Tasks())[t].(elapsed := n)))
    {
      threads[t].elapsed := n;
      assert Tasks() == old(Tasks())[t := threads[t].Val()];
    }

    method SetFrames(t: nat, frames: seq<bool>)
      requires Footprint() && t < |threads|
      modifies threads
      ensures Now() == old(Now()).(tasks := With(old(Tasks()), t, old(Tasks())[t].(frames := frames)))
      ensures threads[t].frames == frames
    {
      threads[t].frames := frames;
      assert Tasks() == old(Tasks())[t := threads[t].Val()];
    }

    /** intr_set_status: the flag is set, and what it was is returned. */
    method IntrSetStatus(on: bool) returns (was: bool)
      modifies this`intr
      ensures Now() == old(Now()).(intr := on) && was == old(intr)
    {
      was := intr;
      intr := on;
    }

    /** intr_lock: interrupts go off and the flag that was found stays in the caller's frame. */
    method IntrLock()
      requires Footprint() && current < |threads|
      modifies this`intr, threads
      ensures Now() == Locked(old(Now()))
    {
      SetFrames(current, threads[current].frames + [intr]);
      intr := false;
    }

    /** intr_unlock: the innermost saved flag comes back. */
    method IntrUnlock()
      requires Footprint() && current < |threads| && threads[current].frames != []
      modifies this`intr, threads
      ensures Now() == Unlocked(old(Now())) && |threads[current].frames| < |old(threads[current].frames)|
    {
      var frames := threads[current].frames;
      intr := frames[|frames| - 1];
      SetFrames(current, frames[..|frames| - 1]);
    }

    /** The task that runs returns from every call it was in. */
    method Unwind()
      requires Footprint() && current < |threads|
      modifies this`intr, threads
      ensures Now() == Resume(old(Now()))
    {
      hide Resume, Unlocked;
      while threads[current].frames != []
        invariant Footprint() && current < |threads| && Resume(Now()) == Resume(old(Now()))
        decreases |threads[current].frames|
      {
        ResumeAfterUnlock(Now());
        IntrUnlock();
      }
      ResumeAtBase(Now());
    }

    // ----- the scheduler

    /** task_push. */
    method TaskPush(t: nat)
      modifies this`ready
      ensures Now() == Pushed(old(Now()), t)
    {
      ready := ready + [t];
    }

    /** task_unpark, early return included. */
    method TaskUnpark(t: nat)
      requires Footprint() && t < |threads|
      modifies this`ready, this`intr, threads
      ensures Now() == Unpark(old(Now()), t)
    {
      var flag := IntrSetStatus(false);
      if threads[t].status == Ready {
        return;
      }
      TaskPush(t);
      SetStatus(t, Ready);
      var off := IntrSetStatus(flag);
    }

    /** The start of __task_schedule: a task that still runs takes its place at the end of the list. */
    method RequeueCurrent()
      requires Footprint() && current < |threads|
      modifies this`ready, threads
      ensures Now() == Requeue(old(Now()))
    {
      RequeueInSteps(Now());
      if threads[current].status == Running {
        TaskPush(current);
        SetTicks(current, threads[current].priority);
        SetStatus(current, Ready);
      }
    }

    /** The end of __task_schedule: the head of the list runs. */
    method SwitchToNext()
      requires Footprint() && ready != [] && ready[0] < |threads|
      modifies this`ready, this`current, this`intr, threads
      ensures Now() == Resume(PopNext(old(Now())))
    {
      hide Resume;
      ghost var s0 := Now();
      PopInSteps(s0);
      var next := ready[0];
      ready := ready[1..];
      current := next;
      assert Now() == s0.(ready := s0.ready[1..], current := s0.ready[0]);
      SetStatus(next, Running);
      Unwind();
    }

    /** __task_schedule. */
    method TaskSchedule()
      requires Footprint() && Switchable(Now()) && !intr
      modifies this`ready, this`current, this`intr, threads
      ensures Now() == Schedule(old(Now()))
    {
      ghost var s0 := Now();
      SwitchableRange(s0);
      RequeueKeeps(s0);
      WakeIdleKeeps(Requeue(s0));
      SwitchableRange(WakeIdle(Requeue(s0)));
      hide Switchable, Resume, PopNext, Requeue, Unpark;
      RequeueCurrent();
      if ready == [] {
        TaskUnpark(idle);
      }
      assert Now() == WakeIdle(Requeue(s0));
      assert ready[0] in ready;
      SwitchToNext();
    }

    /** What the timer handler counts before it looks at the slice: the global ticks and the task's own. */
    method CountTick()
      requires Footprint() && Inv(Now())
      modifies this`ticks, threads
      ensures Footprint() && Now() == Count(old(Now()))
    {
      ticks := (ticks + 1) % WORD;
      SetElapsed(current, (threads[current].elapsed + 1) % WORD);
    }

    /** __task_schedule_handler. */
    method TimerHandler()
      requires Footprint() && Inv(Now()) && intr
      modifies this`ready, this`current, this`intr, this`ticks, threads
      ensures Now() == Tick(old(Now()))
    {
      ghost var s0 := Now();
      CountKeeps(s0);
      CountTick();
      assert Tasks()[current].ticks == s0.tasks[current].ticks;
      hide Shared, Schedule, Leave, Locked, Switchable, Scheduler.SemVals;
      if threads[current].ticks != 0 {
        SetTicks(current, threads[current].ticks - 1);
      } else {
        LeaveBlocked(Count(s0), Running, [true]);
        LeaveInSteps(Count(s0), Running);
        IntrLock();
        TaskSchedule();
      }
    }

    /** task_yield. */
    method TaskYield()
      requires Footprint() && Inv(Now())
      modifies this`ready, this`current, this`intr, threads
      ensures Now() == Yield(old(Now()))
    {
      ghost var s0 := Now();
      YieldSwitchable(s0);
      LeaveInSteps(s0, Ready);
      hide Shared, Schedule, Switchable;
      IntrLock();
      TaskPush(current);
      SetStatus(current, Ready);
      assert Now() == Leave(s0, Ready, [s0.intr]).(ready := s0.ready + [s0.current]);
      TaskSchedule();
    }

    /** task_park, possibly from inside another call that has saved a flag. */
    method TaskPark()
      requires Footprint() && current < |threads|
      requires Switchable(Leave(Now(), Blocked, threads[current].frames + [intr]))
      modifies this`ready, this`current, this`intr, threads
      ensures Now() == Schedule(Leave(old(Now()), Blocked, old(threads[current].frames) + [old(intr)]))
      ensures old(threads[current].frames) == [] ==> Now() == Park(old(Now()))
    {
      hide Switchable, Schedule;
      assert threads[current].frames == [] ==> threads[current].frames + [intr] == [intr];
      LeaveInSteps(Now(), Blocked);
      IntrLock();
      SetStatus(current, Blocked);
      TaskSchedule();
    }

    /** kthread_create with its memory at hand. */
    method KthreadCreate(priority: nat) returns (t: nat)
      requires Footprint()
      modifies this`threads, this`ready
      ensures Footprint() && t == |old(threads)| && Now() == Create(old(Now()), priority)
    {
      var thread := new Thread(priority);
      t := |threads|;
      ghost var tasks0 := Tasks();
      threads := threads + [thread];
      TaskPush(t);
      assert Tasks() == tasks0 + [thread.Val()];
    }

    // ----- semaphores

    /** A unit is taken from semaphore i. */
    method Take(i: nat)
      requires Footprint() && i < |sems| && sems[i].value > 0
      modifies sems
      ensures Now() == Took(old(Now()), i)
    {
      sems[i].Take();
      assert SemVals() == old(SemVals())[i := sems[i].Val()];
    }

    /** The current task goes to the end of the wait queue of semaphore i. */
    method Join(i: nat)
      requires Footprint() && i < |sems|
      modifies sems
      ensures Now() == Joined(old(Now()), i)
    {
      sems[i].Join(current);
      assert SemVals() == old(SemVals())[i := sems[i].Val()];
    }

    /** The branch of semaphore_down_nint for a semaphore without units. */
    method JoinAndPark(i: nat)
      requires Footprint() && i < |sems| && current < |threads|
      requires var s := Joined(Now(), i);
               s.current < |s.tasks| && Switchable(Leave(s, Blocked, s.tasks[s.current].frames + [s.intr]))
      modifies this`ready, this`current, this`intr, threads, sems
      ensures var s := Joined(old(Now()), i);
              Now() == Schedule(Leave(s, Blocked, s.tasks[s.current].frames + [s.intr]))
    {
      hide Switchable, Schedule, Leave, Joined;
      Join(i);
      TaskPark();
    }

    /** semaphore_down_nint. */
    method SemaphoreDown(i: nat)
      requires Footprint() && Inv(Now()) && i < |sems| && current != idle
      modifies this`ready, this`current, this`intr, threads, sems
      ensures Now() == Down(old(Now()), i)
    {
      DownInSteps(Now(), i);
      assert SemVals()[i].value == sems[i].value;
      hide Inv, Switchable, Schedule, Leave, Locked, Resume, Down, Joined, Took;
      IntrLock();
      if sems[i].value > 0 {
        Take(i);
        Unwind();
      } else {
        JoinAndPark(i);
      }
    }

    /** The effect of an up on semaphore i itself. */
    method Release(i: nat) returns (t: nat, found: bool)
      requires Footprint() && i < |sems|
      modifies sems
      ensures Now() == Released(old(Now()), i)
      ensures found <==> old(SemVals())[i].queue != []
      ensures found ==> t == old(SemVals())[i].queue[0]
    {
      t, found := sems[i].Release();
      assert SemVals() == old(SemVals())[i := sems[i].Val()];
    }

    /** semaphore_up_nint. */
    method SemaphoreUp(i: nat)
      requires Footprint() && Inv(Now()) && i < |sems|
      modifies this`ready, this`intr, threads, sems
      ensures Now() == Up(old(Now()), i) && intr == old(intr)
    {
      UpInSteps(Now(), i);
      hide Inv, Unpark, Up, Released, Scheduler.Tasks, Scheduler.SemVals;
      var flag := IntrSetStatus(false);
      var t, found := Release(i);
      if found {
        TaskUnpark(t);
      }
      var off := IntrSetStatus(flag);
    }
  }

  // ----- the single writes, as values

  ghost function Marked(s: State, t: nat, status: Status): State {
    s.(tasks := With(s.tasks, t, Get(s.tasks, t).(status := status)))
  }

  ghost function Sliced(s: State, t: nat, n: nat): State {
    s.(tasks := With(s.tasks, t, Get(s.tasks, t).(ticks := n)))
  }

  ghost function Pushed(s: State, t: nat): State {
    s.(ready := s.ready + [t])
  }

  ghost function Locked(s: State): State {
    var cur := Get(s.tasks, s.current);
    s.(intr := false, tasks := With(s.tasks, s.current, cur.(frames := cur.frames + [s.intr])))
  }

  ghost function Unlocked(s: State): State
    requires s.current < |s.tasks| && s.tasks[s.current].frames != []
  {
    var frames := s.tasks[s.current].frames;
    var n := |frames| - 1;
    s.(tasks := With(s.tasks, s.current, s.tasks[s.current].(frames := frames[..n])), intr := frames[n])
  }

  lemma WithTwice(tasks: seq<Task>, t: nat, a: Task, b: Task)
    ensures With(With(tasks, t, a), t, b) == With(tasks, t, b)
    ensures t < |tasks| && b == tasks[t] ==> With(tasks, t, b) == tasks
  {
  }

  lemma ResumeAfterUnlock(s: State)
    requires s.current < |s.tasks| && s.tasks[s.current].frames != []
    ensures Resume(Unlocked(s)) == Resume(s)
  {
    WithTwice(s.tasks, s.current, Unlocked(s).tasks[s.current], s.tasks[s.current].(frames := []));
  }

  lemma ResumeAtBase(s: State)
    requires s.current < |s.tasks| && s.tasks[s.current].frames == []
    ensures Resume(s) == s
  {
    WithTwice(s.tasks, s.current, s.tasks[s.current], s.tasks[s.current]);
  }

  lemma RequeueInSteps(s: State)
    requires s.current < |s.tasks|
    ensures s.tasks[s.current].status == Running ==>
              Marked(Sliced(Pushed(s, s.current), s.current, s.tasks[s.current].priority), s.current, Ready)
              == Requeue(s)
    ensures s.tasks[s.current].status != Running ==> Requeue(s) == s
  {
    var cur := s.tasks[s.current];
    WithTwice(s.tasks, s.current, cur.(ticks := cur.priority), cur.(status := Ready, ticks := cur.priority));
  }

  lemma PopInSteps(s: State)
    requires s.ready != []
    ensures Marked(s.(ready := s.ready[1..], current := s.ready[0]), s.ready[0], Running) == PopNext(s)
  {
  }

  lemma LeaveInSteps(s: State, status: Status)
    requires s.current < |s.tasks|
    ensures var left := Leave(s, status, s.tasks[s.current].frames + [s.intr]);
            && Marked(Locked(s), s.current, status) == left
            && Marked(Pushed(Locked(s), s.current), s.current, status) == left.(ready := s.ready + [s.current])
            && (status == s.tasks[s.current].status ==> Locked(s) == left)
    ensures s.tasks[s.current].frames == [] ==> s.tasks[s.current].frames + [s.intr] == [s.intr]
  {
    var cur := s.tasks[s.current];
    WithTwice(s.tasks, s.current, Locked(s).tasks[s.current], cur.(status := status, frames := cur.frames + [s.intr]));
  }

  lemma SwitchableRange(s: State)
    requires Switchable(s)
    ensures s.current < |s.tasks| && s.idle < |s.tasks| && forall t :: t in s.ready ==> t < |s.tasks|
  {
    assert forall t :: t in s.ready ==> Is(s.tasks, t, Ready);
  }

  ghost function Took(s: State, i: nat): State
    requires i < |s.sems| && s.sems[i].value > 0
  {
    s.(sems := s.sems[i := s.sems[i].(value := s.sems[i].value - 1, passed := s.sems[i].passed + 1)])
  }

  ghost function Joined(s: State, i: nat): State
    requires i < |s.sems|
  {
    s.(sems := s.sems[i := JoinQueue(s.sems[i], s.current)])
  }

  /** semaphore_down_nint on the state that its intr_lock leaves. */
  lemma DownInSteps(s: State, i: nat)
    requires Inv(s) && i < |s.sems| && s.current != s.idle
    ensures Locked(s).sems == s.sems && s.current < |s.tasks|
    ensures var joined := Joined(Locked(s), i);
            && joined.current < |joined.tasks|
            && var left := Leave(joined, Blocked, joined.tasks[joined.current].frames + [joined.intr]);
            s.sems[i].value == 0 ==> Switchable(left) && Schedule(left) == Down(s, i)
    ensures s.sems[i].value > 0 ==> Resume(Took(Locked(s), i)) == Down(s, i)
  {
    assert s.current < |s.tasks|;
    hide Schedule, Shared, Switchable;
    var cur := s.tasks[s.current];
    var locked := Locked(s).tasks[s.current];
    assert locked == cur.(frames := [s.intr]);
    if s.sems[i].value > 0 {
      WithTwice(s.tasks, s.current, locked, cur);
    } else {
      JoinKeeps(s, i);
      assert [s.intr] + [false] == [s.intr, false];
      WithTwice(s.tasks, s.current, locked, locked.(status := Blocked, frames := [s.intr, false]));
    }
  }

  ghost function Released(s: State, i: nat): State
    requires i < |s.sems|
  {
    s.(sems := s.sems[i := ReleaseHead(s.sems[i])])
  }

  /** semaphore_up_nint on the state with interrupts off. */
  lemma UpInSteps(s: State, i: nat)
    requires Inv(s) && i < |s.sems|
    ensures var released := Released(s.(intr := false), i);
            var queue := s.sems[i].queue;
            && (queue == [] ==> released.(intr := s.intr) == Up(s, i))
            && (queue != [] ==> queue[0] < |s.tasks| && |released.tasks| == |s.tasks|
                                && Unpark(released, queue[0]).(intr := s.intr) == Up(s, i))
  {
    if s.sems[i].queue != [] {
      assert Waits(s.sems, i, s.sems[i].queue[0]);
    }
  }
}
