/** The round-robin scheduler and the interrupt-masked semaphores, as operations on values.

    Every operation runs with interrupts off from its first effect to the switch, so it is one step.
    A task has a single list node, which the ready list and all wait queues share; the lists are
    sequences of task ids.
 */
module Sched {
  import opened Config
  import opened Sequences

  datatype Status = Running | Ready | Blocked

  /** A task.  `frames` models its stack while it is switched out: the interrupt flags that the
      calls it is suspended in will restore, outermost first. */
  datatype Task = Task(status: Status, priority: nat, ticks: nat, elapsed: nat, frames: seq<bool>)

  /** A semaphore with its history: the initial value, the number of ups, of downs that passed at
      once, and the tasks whose downs blocked and those that an up released, in order. */
  datatype Sem = Sem(value: nat, queue: seq<nat>, initial: nat, ups: nat, passed: nat, waited: seq<nat>,
                     granted: seq<nat>)

  datatype State = State(tasks: seq<Task>, ready: seq<nat>, current: nat, idle: nat, sems: seq<Sem>, ticks: nat,
                         intr: bool)

  // ----- operations (tasks and semaphores that do not exist are left alone)

  function With(tasks: seq<Task>, t: nat, task: Task): (r: seq<Task>)
    ensures |r| == |tasks|
  {
    if t < |tasks| then tasks[t := task] else tasks
  }

  function Get(tasks: seq<Task>, t: nat): Task {
    if t < |tasks| then tasks[t] else Task(Blocked, 0, 0, 0, [])
  }

  /** task_push and marking the task ready. */
  function Enqueue(s: State, t: nat): State {
    s.(tasks := With(s.tasks, t, Get(s.tasks, t).(status := Ready)), ready := s.ready + [t])
  }

  /** task_unpark: a task that is ready already is left alone, but then the early return leaves
      interrupts off. */
  function Unpark(s: State, t: nat): State {
    if Get(s.tasks, t).status == Ready then s.(intr := false) else Enqueue(s, t)
  }

  /** The first part of __task_schedule: a task that is still running goes to the end of the ready
      list with a fresh time slice. */
  function Requeue(s: State): State {
    var cur := Get(s.tasks, s.current);
    if cur.status == Running then
      s.(tasks := With(s.tasks, s.current, cur.(status := Ready, ticks := cur.priority)),
        ready := s.ready + [s.current])
    else s
  }

  /** The second part: idle is woken if nobody is ready. */
  function WakeIdle(s: State): State {
    if s.ready == [] then Unpark(s, s.idle) else s
  }

  /** The third part: the head of the ready list runs. */
  function PopNext(s: State): State {
    if s.ready == [] then s
    else
      var next := s.ready[0];
      s.(tasks := With(s.tasks, next, Get(s.tasks, next).(status := Running)), ready := s.ready[1..], current := next)
  }

  /** The task that runs returns from the calls it was suspended in, each of them setting the interrupt
      flag back to what it had found. */
  function Resume(s: State): State {
    var cur := Get(s.tasks, s.current);
    s.(tasks := With(s.tasks, s.current, cur.(frames := [])),
       intr := if cur.frames == [] then s.intr else cur.frames[0])
  }

  /** __task_schedule and all that follows up to the next task's own code. */
  function Schedule(s: State): State {
    Resume(PopNext(WakeIdle(Requeue(s))))
  }

  /** The current task enters the scheduler: what its calls will restore is on its stack, and
      interrupts are off. */
  function Leave(s: State, status: Status, frames: seq<bool>): State {
    s.(tasks := With(s.tasks, s.current, Get(s.tasks, s.current).(status := status, frames := frames)), intr := false)
  }

  /** __task_schedule_handler, up to the switch. */
  function Count(s: State): State {
    var cur := Get(s.tasks, s.current);
    s.(tasks := With(s.tasks, s.current, cur.(elapsed := (cur.elapsed + 1) % WORD)), ticks := (s.ticks + 1) % WORD)
  }

  function Tick(s: State): State {
    var cur := Get(s.tasks, s.current);
    var s1 := Count(s);
    if cur.ticks != 0 then s1.(tasks := With(s1.tasks, s.current, Get(s1.tasks, s.current).(ticks := cur.ticks - 1)))
    else Schedule(Leave(s1, Running, [true]))
  }

  function Yield(s: State): State {
    Schedule(Leave(s, Ready, [s.intr]).(ready := s.ready + [s.current]))
  }

  function Park(s: State): State {
    Schedule(Leave(s, Blocked, [s.intr]))
  }

  function JoinQueue(sem: Sem, t: nat): Sem {
    sem.(queue := sem.queue + [t], waited := sem.waited + [t])
  }

  function ReleaseHead(sem: Sem): Sem {
    if sem.queue == [] then sem.(value := sem.value + 1, ups := sem.ups + 1)
    else sem.(queue := sem.queue[1..], ups := sem.ups + 1, granted := sem.granted + [sem.queue[0]])
  }

  /** semaphore_down_nint by the current task. */
  function Down(s: State, i: nat): State {
    if i >= |s.sems| then s
    else if s.sems[i].value > 0 then
      s.(sems := s.sems[i := s.sems[i].(value := s.sems[i].value - 1, passed := s.sems[i].passed + 1)])
    else
      Schedule(Leave(s.(sems := s.sems[i := JoinQueue(s.sems[i], s.current)]), Blocked, [s.intr, false]))
  }

  /** semaphore_up_nint; its own unlock comes last, so the flag is what it was. */
  function Up(s: State, i: nat): State {
    if i >= |s.sems| then s
    else
      var s1 := s.(sems := s.sems[i := ReleaseHead(s.sems[i])]);
      if s.sems[i].queue == [] then s1 else Unpark(s1, s.sems[i].queue[0]).(intr := s.intr)
  }

  /** kthread_create that found its memory: the new task starts with interrupts on. */
  function Create(s: State, priority: nat): State {
    s.(tasks := s.tasks + [Task(Ready, priority, priority, 0, [true])], ready := s.ready + [|s.tasks|])
  }

  // ----- the invariant

  ghost predicate Is(tasks: seq<Task>, t: nat, status: Status) {
    t < |tasks| && tasks[t].status == status
  }

  /** The ready list holds exactly the ready tasks, each once. */
  ghost predicate ReadyOk(tasks: seq<Task>, ready: seq<nat>) {
    NoDup(ready) && forall t :: t in ready <==> Is(tasks, t, Ready)
  }

  ghost predicate Waits(sems: seq<Sem>, i: nat, t: nat) {
    i < |sems| && t in sems[i].queue
  }

  /** Waiting tasks are blocked, on one queue, once, and idle never waits. */
  ghost predicate QueuesOk(tasks: seq<Task>, sems: seq<Sem>, idle: nat) {
    && (forall i :: 0 <= i < |sems| ==> NoDup(sems[i].queue))
    && (forall i, t :: Waits(sems, i, t) ==> Is(tasks, t, Blocked) && t != idle)
    && (forall i, j, t :: Waits(sems, i, t) && Waits(sems, j, t) ==> i == j)
  }

  /** A semaphore never has both units and waiters, loses no unit, and serves its waiters in order. */
  ghost predicate SemOk(sem: Sem) {
    && (sem.value > 0 ==> sem.queue == [])
    && sem.initial + sem.ups == sem.value + sem.passed + |sem.granted|
    && sem.waited == sem.granted + sem.queue
  }

  /** At most the current task runs, slices are within priority, and every task that is switched out
      has something to return to. */
  ghost predicate TasksOk(tasks: seq<Task>, current: nat, idle: nat) {
    && current < |tasks| && idle < |tasks|
    && (forall t :: Is(tasks, t, Running) ==> t == current)
    && (forall t :: 0 <= t < |tasks| ==> tasks[t].ticks <= tasks[t].priority)
    && (forall t :: 0 <= t < |tasks| && t != current ==> tasks[t].frames != [])
  }

  ghost predicate Shared(s: State) {
    && TasksOk(s.tasks, s.current, s.idle)
    && ReadyOk(s.tasks, s.ready)
    && QueuesOk(s.tasks, s.sems, s.idle)
    && forall i :: 0 <= i < |s.sems| ==> SemOk(s.sems[i])
  }

  /** Between steps: exactly the current task runs, and it is inside no call. */
  ghost predicate Inv(s: State) {
    Shared(s) && s.tasks[s.current].status == Running && s.tasks[s.current].frames == []
  }

  /** At the entry of the scheduler: the current task, whatever its status, has left its frames. */
  ghost predicate Switchable(s: State) {
    Shared(s) && s.tasks[s.current].frames != []
  }

  // ----- one task or one queue changes

  lemma OneTaskChanged(tasks: seq<Task>, c: nat, task: Task)
    requires c < |tasks|
    ensures forall t, st :: Is(With(tasks, c, task), t, st) <==> if t == c then task.status == st else Is(tasks, t, st)
  {
  }

  lemma NoDupAppend(q: seq<nat>, t: nat)
    requires NoDup(q) && t !in q
    ensures NoDup(q + [t])
    ensures forall u :: u in q + [t] <==> u in q || u == t
  {
  }

  lemma NoDupTail(q: seq<nat>)
    requires NoDup(q) && q != []
    ensures NoDup(q[1..])
    ensures forall u :: u in q[1..] <==> u in q && u != q[0]
  {
    assert q == [q[0]] + q[1..];
  }

  /** A task that changes status without being, or becoming, blocked leaves the queues right. */
  lemma QueuesKept(tasks: seq<Task>, tasks': seq<Task>, sems: seq<Sem>, idle: nat)
    requires QueuesOk(tasks, sems, idle)
    requires forall t :: Is(tasks, t, Blocked) ==> Is(tasks', t, Blocked)
    ensures QueuesOk(tasks', sems, idle)
  {
  }

  // ----- the scheduler keeps the invariant

  lemma RequeueKeeps(s: State)
    requires Switchable(s)
    ensures Switchable(Requeue(s)) && Requeue(s).tasks[s.current].status != Running
    ensures Requeue(s).current == s.current && Requeue(s).idle == s.idle && Requeue(s).intr == s.intr
              && Requeue(s).sems == s.sems
  {
    var cur := s.tasks[s.current];
    if cur.status == Running {
      OneTaskChanged(s.tasks, s.current, cur.(status := Ready, ticks := cur.priority));
      assert Is(s.tasks, s.current, Running);
      NoDupAppend(s.ready, s.current);
      QueuesKept(s.tasks, Requeue(s).tasks, s.sems, s.idle);
    }
  }

  /** If nobody is ready when the scheduler looks, idle is blocked and on no queue, so waking it
      really puts it on the ready list, and the flag is not touched. */
  lemma EmptyMeansIdleBlocked(s: State)
    requires Switchable(s) && s.tasks[s.current].status != Running && s.ready == []
    ensures s.tasks[s.idle].status == Blocked && forall i :: !Waits(s.sems, i, s.idle)
    ensures Unpark(s, s.idle).ready == [s.idle] && Unpark(s, s.idle).intr == s.intr
  {
    assert !Is(s.tasks, s.idle, Ready) && !Is(s.tasks, s.idle, Running);
  }

  lemma WakeIdleKeeps(s: State)
    requires Switchable(s) && s.tasks[s.current].status != Running
    ensures var w := WakeIdle(s);
            && Switchable(w) && w.tasks[w.current].status != Running && w.ready != []
            && w.current == s.current && w.idle == s.idle && w.intr == s.intr && w.sems == s.sems
  {
    if s.ready == [] {
      EmptyMeansIdleBlocked(s);
      var w := WakeIdle(s);
      OneTaskChanged(s.tasks, s.idle, s.tasks[s.idle].(status := Ready));
      assert w.ready == [s.idle];
      forall i, t | Waits(s.sems, i, t)
        ensures Is(w.tasks, t, Blocked) && t != s.idle
      {
      }
    }
  }

  lemma PopNextKeeps(s: State)
    requires Switchable(s) && s.tasks[s.current].status != Running && s.ready != []
    ensures var p := PopNext(s);
            && Shared(p) && p.tasks[p.current].status == Running && p.tasks[p.current].frames != []
            && (forall t :: 0 <= t < |p.tasks| ==> p.tasks[t].frames != [])
            && p.idle == s.idle && p.intr == s.intr && p.sems == s.sems
  {
    var next := s.ready[0];
    assert next in s.ready && Is(s.tasks, next, Ready);
    OneTaskChanged(s.tasks, next, s.tasks[next].(status := Running));
    NoDupTail(s.ready);
    QueuesKept(s.tasks, PopNext(s).tasks, s.sems, s.idle);
  }

  lemma ResumeKeeps(s: State)
    requires Shared(s) && s.tasks[s.current].status == Running && s.tasks[s.current].frames != []
    ensures Inv(Resume(s))
    ensures Resume(s).intr == s.tasks[s.current].frames[0] && Resume(s).sems == s.sems && Resume(s).idle == s.idle
  {
    OneTaskChanged(s.tasks, s.current, s.tasks[s.current].(frames := []));
    QueuesKept(s.tasks, Resume(s).tasks, s.sems, s.idle);
  }

  lemma ScheduleKeeps(s: State)
    requires Switchable(s)
    ensures Inv(Schedule(s)) && Schedule(s).sems == s.sems && Schedule(s).idle == s.idle
  {
    hide Inv, Switchable, Shared;
    RequeueKeeps(s);
    WakeIdleKeeps(Requeue(s));
    PopNextKeeps(WakeIdle(Requeue(s)));
    ResumeKeeps(PopNext(WakeIdle(Requeue(s))));
  }

  // ----- every step keeps the invariant

  lemma LeaveBlocked(s: State, status: Status, frames: seq<bool>)
    requires Shared(s) && s.tasks[s.current].status == Running && frames != [] && status != Ready
    ensures Switchable(Leave(s, status, frames))
  {
    OneTaskChanged(s.tasks, s.current, s.tasks[s.current].(status := status, frames := frames));
    assert Is(s.tasks, s.current, Running);
    QueuesKept(s.tasks, Leave(s, status, frames).tasks, s.sems, s.idle);
  }

  lemma YieldSwitchable(s: State)
    requires Inv(s)
    ensures Switchable(Leave(s, Ready, [s.intr]).(ready := s.ready + [s.current]))
  {
    OneTaskChanged(s.tasks, s.current, s.tasks[s.current].(status := Ready, frames := [s.intr]));
    assert Is(s.tasks, s.current, Running);
    NoDupAppend(s.ready, s.current);
    QueuesKept(s.tasks, Leave(s, Ready, [s.intr]).tasks, s.sems, s.idle);
  }

  lemma YieldKeeps(s: State)
    requires Inv(s)
    ensures Inv(Yield(s))
  {
    YieldSwitchable(s);
    ScheduleKeeps(Leave(s, Ready, [s.intr]).(ready := s.ready + [s.current]));
  }

  lemma ParkKeeps(s: State)
    requires Inv(s)
    ensures Inv(Park(s))
  {
    LeaveBlocked(s, Blocked, [s.intr]);
    ScheduleKeeps(Leave(s, Blocked, [s.intr]));
  }

  lemma CountKeeps(s: State)
    requires Inv(s)
    ensures Inv(Count(s))
  {
    var cur := s.tasks[s.current];
    OneTaskChanged(s.tasks, s.current, cur.(elapsed := (cur.elapsed + 1) % WORD));
    QueuesKept(s.tasks, Count(s).tasks, s.sems, s.idle);
  }

  lemma TickKeeps(s: State)
    requires Inv(s)
    ensures Inv(Tick(s))
  {
    CountKeeps(s);
    var s1 := Count(s);
    if s.tasks[s.current].ticks == 0 {
      LeaveBlocked(s1, Running, [true]);
      ScheduleKeeps(Leave(s1, Running, [true]));
    } else {
      OneTaskChanged(s1.tasks, s.current, s1.tasks[s.current].(ticks := s.tasks[s.current].ticks - 1));
      QueuesKept(s1.tasks, Tick(s).tasks, s.sems, s.idle);
    }
  }

  /** Joining a wait queue: the task's node was on no list. */
  lemma JoinKeeps(s: State, i: nat)
    requires Inv(s) && i < |s.sems| && s.sems[i].value == 0 && s.current != s.idle
    ensures Switchable(Leave(s.(sems := s.sems[i := JoinQueue(s.sems[i], s.current)]), Blocked, [s.intr, false]))
  {
    var sems' := s.sems[i := JoinQueue(s.sems[i], s.current)];
    var s1 := Leave(s.(sems := sems'), Blocked, [s.intr, false]);
    OneTaskChanged(s.tasks, s.current, s.tasks[s.current].(status := Blocked, frames := [s.intr, false]));
    assert Is(s.tasks, s.current, Running);
    assert !Waits(s.sems, i, s.current);
    NoDupAppend(s.sems[i].queue, s.current);
    assert forall j, t :: Waits(sems', j, t) <==> Waits(s.sems, j, t) || (j == i && t == s.current);
    assert SemOk(sems'[i]) by {
      assert SemOk(s.sems[i]);
    }
    assert QueuesOk(s1.tasks, sems', s.idle);
  }

  lemma DownKeeps(s: State, i: nat)
    requires Inv(s) && i < |s.sems| && s.current != s.idle
    ensures Inv(Down(s, i))
  {
    if s.sems[i].value > 0 {
      assert forall j, t :: Waits(Down(s, i).sems, j, t) <==> Waits(s.sems, j, t);
    } else {
      JoinKeeps(s, i);
      ScheduleKeeps(Leave(s.(sems := s.sems[i := JoinQueue(s.sems[i], s.current)]), Blocked, [s.intr, false]));
    }
  }

  lemma UpKeeps(s: State, i: nat)
    requires Inv(s) && i < |s.sems|
    ensures Inv(Up(s, i)) && Up(s, i).intr == s.intr
    ensures s.sems[i].queue != [] ==> Get(s.tasks, s.sems[i].queue[0]).status == Blocked
  {
    var sem := s.sems[i];
    var sems' := s.sems[i := ReleaseHead(sem)];
    assert SemOk(ReleaseHead(sem)) by {
      assert SemOk(sem);
    }
    if sem.queue == [] {
      assert forall j, t :: Waits(sems', j, t) <==> Waits(s.sems, j, t);
    } else {
      var t := sem.queue[0];
      assert Waits(s.sems, i, t) && Is(s.tasks, t, Blocked);
      NoDupTail(sem.queue);
      assert forall j, u :: Waits(sems', j, u) <==> Waits(s.sems, j, u) && !(j == i && u == t);
      OneTaskChanged(s.tasks, t, s.tasks[t].(status := Ready));
      NoDupAppend(s.ready, t);
      assert QueuesOk(Up(s, i).tasks, sems', s.idle);
    }
  }

  lemma CreateKeeps(s: State, priority: nat)
    requires Inv(s)
    ensures Inv(Create(s, priority))
  {
    var n := |s.tasks|;
    var s' := Create(s, priority);
    assert forall t, st :: Is(s'.tasks, t, st) <==> if t == n then st == Ready else Is(s.tasks, t, st);
    assert !Is(s.tasks, n, Ready);
    NoDupAppend(s.ready, n);
    QueuesKept(s.tasks, s'.tasks, s.sems, s.idle);
  }
}
