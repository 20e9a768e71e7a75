/** Whole runs of the scheduler: any interleaving of timer and device interrupts, yields, parks,
    semaphore operations and task creations. */
module SchedRuns {
  import opened Sequences
  import opened Sched

  datatype Event =
    | TimerTick | YieldCpu | ParkCpu | SemDown(i: nat) | SemUp(i: nat) | DeviceIrq(i: nat)
    | NewTask(priority: nat) | SetIntr(on: bool)

  /** Interrupts are delivered only while they are enabled, and the idle task only parks. */
  predicate Enabled(s: State, e: Event) {
    match e
    case TimerTick => s.intr
    case SemDown(i) => i < |s.sems| && s.current != s.idle
    case SemUp(i) => i < |s.sems|
    case DeviceIrq(i) => s.intr && i < |s.sems|
    case _ => true
  }

  function Apply(s: State, e: Event): State {
    match e
    case TimerTick => Tick(s)
    case YieldCpu => Yield(s)
    case ParkCpu => Park(s)
    case SemDown(i) => Down(s, i)
    case SemUp(i) => Up(s, i)
    case DeviceIrq(i) => Up(s, i)
    case NewTask(priority) => Create(s, priority)
    case SetIntr(on) => s.(intr := on)
  }

  ghost predicate Run(states: seq<State>, events: seq<Event>) {
    && |states| == |events| + 1
    && forall i :: 0 <= i < |events| ==> Enabled(states[i], events[i]) && states[i + 1] == Apply(states[i], events[i])
  }

  /** The state that init_kthread leaves: kmain runs, idle is ready. */
  lemma BootStateOk(kmain: Task, idle: Task, sems: seq<Sem>)
    requires kmain.status == Running && kmain.frames == [] && kmain.ticks <= kmain.priority
    requires idle.status == Ready && idle.frames != [] && idle.ticks <= idle.priority
    requires forall i :: 0 <= i < |sems| ==> sems[i] == Sem(sems[i].value, [], sems[i].value, 0, 0, [], [])
    ensures Inv(State([kmain, idle], [1], 0, 1, sems, 0, false))
  {
  }

  lemma StepKeepsInv(s: State, e: Event)
    requires Inv(s) && Enabled(s, e)
    ensures Inv(Apply(s, e))
  {
    match e {
      case TimerTick => TickKeeps(s);
      case YieldCpu => YieldKeeps(s);
      case ParkCpu => ParkKeeps(s);
      case SemDown(i) => DownKeeps(s, i);
      case SemUp(i) => UpKeeps(s, i);
      case DeviceIrq(i) => UpKeeps(s, i);
      case NewTask(priority) => CreateKeeps(s, priority);
      case SetIntr(on) =>
    }
  }

  lemma {:induction false} RunKeepsInv(states: seq<State>, events: seq<Event>, n: nat)
    requires Run(states, events) && Inv(states[0]) && n < |states|
    ensures Inv(states[n])
  {
    if n > 0 {
      RunKeepsInv(states, events, n - 1);
      StepKeepsInv(states[n - 1], events[n - 1]);
    }
  }

  /** In every reachable state exactly one task runs and it is current; the ready tasks are those on
      the ready list; and a task's single list node is linked at most once, over the ready list and
      all wait queues together. */
  lemma Partition(states: seq<State>, events: seq<Event>, n: nat, t: nat)
    requires Run(states, events) && Inv(states[0]) && n < |states| && t < |states[n].tasks|
    ensures var s := states[n];
            && (s.tasks[t].status == Running <==> t == s.current)
            && (s.tasks[t].status == Ready <==> t in s.ready)
            && NoDup(s.ready)
            && (forall i: nat :: Waits(s.sems, i, t) ==>
                  s.tasks[t].status == Blocked && t !in s.ready && NoDup(s.sems[i].queue))
            && (forall i: nat, j: nat :: Waits(s.sems, i, t) && Waits(s.sems, j, t) ==> i == j)
            && s.tasks[t].ticks <= s.tasks[t].priority
  {
    RunKeepsInv(states, events, n);
    var s := states[n];
    assert Is(s.tasks, t, s.tasks[t].status);
    assert t in s.ready <==> Is(s.tasks, t, Ready);
    forall i: nat | Waits(s.sems, i, t)
      ensures s.tasks[t].status == Blocked && NoDup(s.sems[i].queue)
    {
      assert Is(s.tasks, t, Blocked);
    }
  }

  // ----- the interrupt flag

  /** task_unpark restores its caller's interrupt flag exactly when the task is not ready already or
      interrupts were off to begin with. */
  lemma UnparkRestoresFlagIff(s: State, t: nat)
    ensures Unpark(s, t).intr == s.intr <==> Get(s.tasks, t).status != Ready || !s.intr
  {
  }

  /** So whoever wakes a blocked task twice, with interrupts on, goes on with interrupts off, and no timer
      or device interrupt comes any more until somebody turns them on. */
  lemma WakingTwiceMasks(s: State, t: nat, i: nat)
    requires s.intr && t < |s.tasks| && s.tasks[t].status == Blocked
    ensures var (once, twice) := (Unpark(s, t), Unpark(Unpark(s, t), t));
            && once.intr && Enabled(once, TimerTick) && once.ready == twice.ready
            && !twice.intr && !Enabled(twice, TimerTick) && !Enabled(twice, DeviceIrq(i))
  {
    UnparkRestoresFlagIff(s, t);
    UnparkRestoresFlagIff(Unpark(s, t), t);
  }

  /** The early return is never taken: neither by the scheduler waking idle nor by a semaphore. */
  lemma UnparkNeverReturnsEarly(s: State, i: nat)
    requires Inv(s) && i < |s.sems| && s.sems[i].queue != []
    ensures Get(s.tasks, s.sems[i].queue[0]).status != Ready
  {
    UpKeeps(s, i);
  }

  /** What scheduling does when somebody else is ready: the head of the list runs with the flag it had
      left with, a preempted task goes to the end of the list with a full slice, and no other task is
      touched. */
  lemma ScheduleEffect(s: State)
    requires Switchable(s)
    requires s.ready != []
    ensures var s' := Schedule(s);
            && s'.current == s.ready[0] && s'.current < |s.tasks| == |s'.tasks|
            && s'.ready == s.ready[1..] + (if s.tasks[s.current].status == Running then [s.current] else [])
            && (forall t :: 0 <= t < |s.tasks| && t != s.current ==> s'.tasks[t].ticks == s.tasks[t].ticks)
            && (forall t :: 0 <= t < |s.tasks| ==> s'.tasks[t].priority == s.tasks[t].priority)
            && (s.tasks[s.current].status == Running ==> s'.tasks[s.current].ticks == s.tasks[s.current].priority)
            && (forall t :: 0 <= t < |s.tasks| && t != s'.current ==> s'.tasks[t].frames == s.tasks[t].frames)
            && s'.intr == s.tasks[s'.current].frames[0]
            && s.tasks[s'.current].frames != []
  {
    assert s.ready[0] in s.ready && Is(s.tasks, s.ready[0], Ready);
    var r := Requeue(s);
    assert r.ready == s.ready + (if s.tasks[s.current].status == Running then [s.current] else []);
    assert WakeIdle(r) == r && r.ready[0] == s.ready[0];
    assert r.ready[1..] == s.ready[1..] + (if s.tasks[s.current].status == Running then [s.current] else []);
  }

  /** When nobody else is ready, either the task that was running goes on or idle does. */
  lemma ScheduleAlone(s: State)
    requires Switchable(s) && s.ready == []
    ensures var s' := Schedule(s);
            && s'.current == (if s.tasks[s.current].status == Running then s.current else s.idle)
            && |s'.tasks| == |s.tasks|
            && (forall t :: 0 <= t < |s.tasks| && t != s'.current ==> s'.tasks[t].frames == s.tasks[t].frames)
            && s.tasks[s'.current].frames != [] && s'.intr == s.tasks[s'.current].frames[0]
  {
    if s.tasks[s.current].status != Running {
      EmptyMeansIdleBlocked(s);
      assert WakeIdle(Requeue(s)).ready == [s.idle];
    } else {
      assert Requeue(s).ready == [s.current];
    }
  }

  lemma ScheduleFlags(s: State)
    requires Switchable(s)
    ensures var s' := Schedule(s);
            && s'.current < |s.tasks| == |s'.tasks|
            && (forall t :: 0 <= t < |s.tasks| && t != s'.current ==> s'.tasks[t].frames == s.tasks[t].frames)
            && s.tasks[s'.current].frames != [] && s'.intr == s.tasks[s'.current].frames[0]
  {
    if s.ready == [] {
      ScheduleAlone(s);
    } else {
      ScheduleEffect(s);
    }
  }

  /** The task that keeps running keeps its flag, a task that stops running puts its flag away, a task
      that starts running takes its flag out, and nobody else's is touched. */
  ghost predicate FlagsMoved(s: State, s': State) {
    && s.current < |s.tasks| <= |s'.tasks| && s'.current < |s.tasks|
    && (s'.current == s.current ==> s'.intr == s.intr)
    && (s'.current != s.current ==>
          && s'.tasks[s.current].frames != [] && s'.tasks[s.current].frames[0] == s.intr
          && s.tasks[s'.current].frames != [] && s'.intr == s.tasks[s'.current].frames[0])
    && (forall t :: 0 <= t < |s.tasks| && t != s.current && t != s'.current ==> s'.tasks[t].frames == s.tasks[t].frames)
  }

  lemma SwitchMovesFlags(s: State, s1: State)
    requires Switchable(s1) && s1.current == s.current && |s1.tasks| == |s.tasks| && s.current < |s.tasks|
    requires s1.tasks[s.current].frames[0] == s.intr
    requires forall t :: 0 <= t < |s.tasks| && t != s.current ==> s1.tasks[t].frames == s.tasks[t].frames
    ensures FlagsMoved(s, Schedule(s1))
  {
    hide Schedule, Shared;
    ScheduleFlags(s1);
  }

  lemma StepFlags(s: State, e: Event)
    requires Inv(s) && Enabled(s, e) && !e.SetIntr?
    ensures FlagsMoved(s, Apply(s, e))
  {
    hide Schedule, ReadyOk, QueuesOk, SemOk;
    match e {
      case TimerTick =>
        if s.tasks[s.current].ticks == 0 {
          CountKeeps(s);
          LeaveBlocked(Count(s), Running, [true]);
          SwitchMovesFlags(s, Leave(Count(s), Running, [true]));
        }
      case YieldCpu =>
        YieldSwitchable(s);
        SwitchMovesFlags(s, Leave(s, Ready, [s.intr]).(ready := s.ready + [s.current]));
      case ParkCpu =>
        LeaveBlocked(s, Blocked, [s.intr]);
        SwitchMovesFlags(s, Leave(s, Blocked, [s.intr]));
      case SemDown(i) =>
        if s.sems[i].value == 0 {
          JoinKeeps(s, i);
          SwitchMovesFlags(s, Leave(s.(sems := s.sems[i := JoinQueue(s.sems[i], s.current)]), Blocked,
                                    [s.intr, false]));
        }
      case SemUp(i) => UpKeeps(s, i);
      case DeviceIrq(i) => UpKeeps(s, i);
      case NewTask(priority) =>
    }
  }

  /** Every call that gives up the processor, and every preemption, returns with the interrupt flag
      that the task had when it left, whatever ran in between. */
  lemma FlagRestored(states: seq<State>, events: seq<Event>, i: nat, j: nat, t: nat)
    requires Run(states, events) && Inv(states[0]) && i < j < |states|
    requires states[i].current == t == states[j].current && !events[i].SetIntr?
    requires forall m :: i < m < j ==> states[m].current != t
    ensures states[j].intr == states[i].intr
  {
    RunKeepsInv(states, events, i);
    StepFlags(states[i], events[i]);
    if j > i + 1 {
      FlagWaits(states, events, i + 1, j, t);
    }
  }

  lemma {:induction false} FlagWaits(states: seq<State>, events: seq<Event>, i: nat, j: nat, t: nat)
    requires Run(states, events) && Inv(states[0]) && i < j < |states|
    requires t < |states[i].tasks| && states[i].tasks[t].frames != [] && states[j].current == t
    requires forall m :: i <= m < j ==> states[m].current != t
    ensures states[j].intr == states[i].tasks[t].frames[0]
    decreases j - i
  {
    RunKeepsInv(states, events, i);
    if !events[i].SetIntr? {
      StepFlags(states[i], events[i]);
    }
    if j > i + 1 {
      FlagWaits(states, events, i + 1, j, t);
    }
  }

  // ----- bounded waiting

  /** The timer interrupts that the tasks of q may use up before they are through. */
  function TicksAhead(tasks: seq<Task>, q: seq<nat>): nat {
    if q == [] then 0 else Get(tasks, q[0]).ticks + 1 + TicksAhead(tasks, q[1..])
  }

  /** How long the task at position i of the ready list may still have to wait. */
  function Wait(s: State, i: nat): nat
    requires i <= |s.ready|
  {
    Get(s.tasks, s.current).ticks + 1 + TicksAhead(s.tasks, s.ready[..i])
  }

  lemma {:induction false} TicksAheadFrame(tasks: seq<Task>, tasks': seq<Task>, q: seq<nat>)
    requires forall t :: t in q ==> Get(tasks', t).ticks == Get(tasks, t).ticks
    ensures TicksAhead(tasks', q) == TicksAhead(tasks, q)
  {
    if q != [] {
      assert q[0] in q;
      TicksAheadFrame(tasks, tasks', q[1..]);
    }
  }

  /** A switch costs the tasks ahead the current task's remaining slice. */
  lemma SwitchProgress(s: State, s1: State, i: nat)
    requires Inv(s) && i < |s.ready| && Switchable(s1)
    requires s1.current == s.current && s.ready <= s1.ready && |s1.tasks| == |s.tasks|
    requires forall t :: 0 <= t < |s.tasks| && t != s.current ==> s1.tasks[t].ticks == s.tasks[t].ticks
    ensures var s' := Schedule(s1);
            if i == 0 then s'.current == s.ready[0]
            else
              && i - 1 < |s'.ready| && s'.ready[i - 1] == s.ready[i]
              && Wait(s', i - 1) + s.tasks[s.current].ticks + 1 == Wait(s, i)
  {
    ScheduleEffect(s1);
    var s' := Schedule(s1);
    assert s1.ready[0] == s.ready[0];
    if i > 0 {
      var q := s.ready[1..i];
      assert s'.ready[..i - 1] == q && s.ready[..i][1..] == q && s.ready[..i][0] == s.ready[0];
      assert !Is(s.tasks, s.current, Ready) && s.current !in s.ready;
      forall t | t in q + [s.ready[0]]
        ensures Get(s'.tasks, t).ticks == Get(s.tasks, t).ticks
      {
        assert t in s.ready;
        assert Is(s.tasks, t, Ready);
      }
      assert s.ready[0] in q + [s.ready[0]];
      assert forall t :: t in q ==> t in q + [s.ready[0]];
      TicksAheadFrame(s.tasks, s'.tasks, q);
    }
  }

  /** One step brings the task at position i of the ready list no further from running, and a timer
      interrupt brings it nearer. */
  lemma StepProgress(s: State, e: Event, i: nat) returns (i': nat)
    requires Inv(s) && Enabled(s, e) && i < |s.ready|
    ensures var s' := Apply(s, e);
            || s'.current == s.ready[i]
            || (&& i' < |s'.ready| && s'.ready[i'] == s.ready[i]
                && Wait(s', i') + (if e.TimerTick? then 1 else 0) <= Wait(s, i))
  {
    hide Schedule, QueuesOk, SemOk;
    i' := i;
    var s' := Apply(s, e);
    match e {
      case TimerTick =>
        if s.tasks[s.current].ticks == 0 {
          CountKeeps(s);
          LeaveBlocked(Count(s), Running, [true]);
          SwitchProgress(s, Leave(Count(s), Running, [true]), i);
          i' := if i > 0 then i - 1 else i;
        } else {
          NotAhead(s, i);
          TicksAheadFrame(s.tasks, s'.tasks, s.ready[..i]);
        }
      case YieldCpu =>
        YieldSwitchable(s);
        SwitchProgress(s, Leave(s, Ready, [s.intr]).(ready := s.ready + [s.current]), i);
        i' := if i > 0 then i - 1 else i;
      case ParkCpu =>
        LeaveBlocked(s, Blocked, [s.intr]);
        SwitchProgress(s, Leave(s, Blocked, [s.intr]), i);
        i' := if i > 0 then i - 1 else i;
      case SemDown(j) =>
        if s.sems[j].value == 0 {
          JoinKeeps(s, j);
          SwitchProgress(s, Leave(s.(sems := s.sems[j := JoinQueue(s.sems[j], s.current)]), Blocked, [s.intr, false]),
                         i);
          i' := if i > 0 then i - 1 else i;
        }
      case SemUp(j) => PushProgress(s, s', i);
      case DeviceIrq(j) => PushProgress(s, s', i);
      case NewTask(priority) =>
        InRange(s, i);
        PushProgress(s, s', i);
      case SetIntr(on) =>
    }
  }

  lemma NotAhead(s: State, i: nat)
    requires Inv(s) && i < |s.ready|
    ensures s.current !in s.ready[..i]
  {
    assert !Is(s.tasks, s.current, Ready);
  }

  lemma InRange(s: State, i: nat)
    requires Inv(s) && i < |s.ready|
    ensures forall t :: t in s.ready ==> t < |s.tasks|
  {
    assert forall t :: t in s.ready ==> Is(s.tasks, t, Ready);
  }

  /** A push at the end of the ready list delays nobody who is on it. */
  lemma PushProgress(s: State, s': State, i: nat)
    requires Inv(s) && i < |s.ready| && s.ready <= s'.ready && s'.current == s.current
    requires forall t :: 0 <= t < |s.tasks| ==> Get(s'.tasks, t).ticks == Get(s.tasks, t).ticks
    ensures i < |s'.ready| && s'.ready[i] == s.ready[i] && Wait(s', i) == Wait(s, i)
  {
    InRange(s, i);
    assert s'.ready[..i] == s.ready[..i];
    assert forall t :: t in s.ready[..i] ==> t in s.ready;
    TicksAheadFrame(s.tasks, s'.tasks, s.ready[..i]);
  }

  function Ticks(events: seq<Event>): nat {
    if events == [] then 0 else Ticks(events[..|events| - 1]) + if events[|events| - 1].TimerTick? then 1 else 0
  }

  /** Over every run, a ready task becomes current before as many timer interrupts have passed as its
      waiting time said, whatever yields, parks, wakes and creations come between. */
  lemma BoundedWaiting(states: seq<State>, events: seq<Event>, i: nat, n: nat)
    requires Run(states, events) && Inv(states[0]) && i < |states[0].ready| && n <= |events|
    requires Ticks(events[..n]) >= Wait(states[0], i)
    ensures exists m :: 0 < m <= n && states[m].current == states[0].ready[i]
  {
    if forall m :: 0 < m <= n ==> states[m].current != states[0].ready[i] {
      var i' := StillWaiting(states, events, i, n);
    }
  }

  lemma {:induction false} StillWaiting(states: seq<State>, events: seq<Event>, i: nat, n: nat) returns (i': nat)
    requires Run(states, events) && Inv(states[0]) && i < |states[0].ready| && n <= |events|
    requires forall m :: 0 < m <= n ==> states[m].current != states[0].ready[i]
    ensures i' < |states[n].ready| && states[n].ready[i'] == states[0].ready[i]
    ensures Wait(states[n], i') + Ticks(events[..n]) <= Wait(states[0], i)
  {
    i' := i;
    if n > 0 {
      var j := StillWaiting(states, events, i, n - 1);
      RunKeepsInv(states, events, n - 1);
      i' := StepProgress(states[n - 1], events[n - 1], j);
      assert events[..n][..n - 1] == events[..n - 1];
    }
  }

  // ----- semaphores

  /** Over every run: a semaphore with units has no waiters, no unit is lost or made up, and the
      waiters that were released are, in order, the first ones whose downs blocked. */
  lemma SemaphoreLaws(states: seq<State>, events: seq<Event>, i: nat, n: nat)
    requires Run(states, events) && Inv(states[0]) && n < |states| && i < |states[n].sems|
    ensures var sem := states[n].sems[i];
            && (sem.value > 0 ==> sem.queue == [])
            && sem.initial + sem.ups == sem.value + sem.passed + |sem.granted|
            && sem.granted <= sem.waited && sem.waited == sem.granted + sem.queue
  {
    RunKeepsInv(states, events, n);
    assert SemOk(states[n].sems[i]);
  }

  /** The history is only ever extended, and by the right tasks: a blocking down appends its caller, an
      up releases the longest waiting task and makes it ready. */
  lemma SemaphoreSteps(s: State, e: Event, i: nat)
    requires Inv(s) && Enabled(s, e) && i < |s.sems|
    ensures |Apply(s, e).sems| == |s.sems|
    ensures var (a, b) := (s.sems[i], Apply(s, e).sems[i]);
            && b.initial == a.initial
            && b.ups == a.ups + (if e == SemUp(i) || e == DeviceIrq(i) then 1 else 0)
            && b.waited == a.waited + (if e == SemDown(i) && a.value == 0 then [s.current] else [])
            && b.granted == a.granted
                            + (if (e == SemUp(i) || e == DeviceIrq(i)) && a.queue != [] then [a.queue[0]] else [])
    ensures (e == SemUp(i) || e == DeviceIrq(i)) && s.sems[i].queue != [] ==> s.sems[i].queue[0] in Apply(s, e).ready
  {
    hide Schedule, QueuesOk, SemOk, ReadyOk;
    match e {
      case TimerTick =>
        CountKeeps(s);
        if s.tasks[s.current].ticks == 0 {
          LeaveBlocked(Count(s), Running, [true]);
          ScheduleKeeps(Leave(Count(s), Running, [true]));
        }
      case YieldCpu =>
        YieldSwitchable(s);
        ScheduleKeeps(Leave(s, Ready, [s.intr]).(ready := s.ready + [s.current]));
      case ParkCpu =>
        LeaveBlocked(s, Blocked, [s.intr]);
        ScheduleKeeps(Leave(s, Blocked, [s.intr]));
      case SemDown(j) =>
        if s.sems[j].value == 0 {
          JoinKeeps(s, j);
          ScheduleKeeps(Leave(s.(sems := s.sems[j := JoinQueue(s.sems[j], s.current)]), Blocked, [s.intr, false]));
        }
      case SemUp(j) => UpKeeps(s, j);
      case DeviceIrq(j) => UpKeeps(s, j);
      case NewTask(priority) =>
      case SetIntr(on) =>
    }
  }
}
