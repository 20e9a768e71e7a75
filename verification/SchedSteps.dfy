/** What each step of the scheduler does to every task, and what follows over whole runs: a task keeps the
    processor for its slice, and one that yields, is preempted or is new runs again. */
module SchedSteps {
  import opened Config
  import opened Sequences
  import opened Sched
  import opened SchedRuns

  /** The current task leaves the processor as `left`, the queue q of tasks is served, and its head runs with
      the interrupt flag that it had put away.  No other task changes. */
  ghost predicate HandsOver(s: State, left: Task, q: seq<nat>, s': State) {
    && q != [] && q[0] < |s.tasks| == |s'.tasks| && s'.current == q[0] && s'.ready == q[1..] && s'.idle == s.idle
    && (forall t :: 0 <= t < |s.tasks| && t != q[0] ==> s'.tasks[t] == if t == s.current then left else s.tasks[t])
    && var next := if q[0] == s.current then left else s.tasks[q[0]];
       && s'.tasks[q[0]] == next.(status := Running, frames := [])
       && next.frames != [] && s'.intr == next.frames[0]
  }

  /** The queue that is served when the current task does not stay on it: idle's turn comes last. */
  function OthersOr(ready: seq<nat>, idle: nat): (q: seq<nat>)
    ensures q != []
  {
    if ready == [] then [idle] else ready
  }

  /** A task that was running goes last with a full slice; one that is blocked or queued already stays as
      it is. */
  lemma ScheduleHandsOver(s: State)
    requires Switchable(s)
    ensures var (cur, s') := (s.tasks[s.current], Schedule(s));
            && s'.sems == s.sems && s'.ticks == s.ticks
            && if cur.status == Running then
                 HandsOver(s, cur.(status := Ready, ticks := cur.priority), s.ready + [s.current], s')
               else HandsOver(s, cur, OthersOr(s.ready, s.idle), s')
  {
    ReadyTasksExist(s);
    var cur := s.tasks[s.current];
    if cur.status != Running && s.ready == [] {
      EmptyMeansIdleBlocked(s);
      HeadRuns(s, cur, WakeIdle(s));
    } else {
      var q := Requeue(s).ready;
      assert WakeIdle(Requeue(s)) == Requeue(s) && (q[0] == s.current || q[0] in s.ready);
      hide Shared;
      HeadRuns(s, if cur.status == Running then cur.(status := Ready, ticks := cur.priority) else cur, Requeue(s));
    }
  }

  /** The end of a switch, from the state r that is s with the queue as it is to be served. */
  lemma HeadRuns(s: State, left: Task, r: State)
    requires r.ready != [] && r.ready[0] < |r.tasks| == |s.tasks| && r.idle == s.idle
    requires forall t :: 0 <= t < |s.tasks| ==>
               var task := if t == s.current then left else s.tasks[t];
               r.tasks[t] == if t == r.ready[0] then task.(status := r.tasks[t].status) else task
    requires r.tasks[r.ready[0]].frames != []
    ensures HandsOver(s, left, r.ready, Resume(PopNext(r)))
    ensures Resume(PopNext(r)).sems == r.sems && Resume(PopNext(r)).ticks == r.ticks
  {
  }

  lemma ReadyTasksExist(s: State)
    requires Switchable(s)
    ensures s.current < |s.tasks| && s.idle < |s.tasks|
    ensures forall t :: t in s.ready ==> t < |s.tasks| && s.tasks[t].status == Ready
    ensures forall t :: 0 <= t < |s.tasks| && (t in s.ready || t == s.idle) ==> s.tasks[t].frames != []
  {
    assert forall t :: t in s.ready ==> Is(s.tasks, t, Ready);
  }

  // ----- the steps

  /** task_yield: the caller stays ready, with what is left of its slice, behind all that were ready. */
  lemma YieldEffect(s: State)
    requires Inv(s)
    ensures var s' := Yield(s);
            && s'.sems == s.sems && s'.ticks == s.ticks
            && HandsOver(s, s.tasks[s.current].(status := Ready, frames := [s.intr]), s.ready + [s.current], s')
  {
    YieldSwitchable(s);
    hide Schedule, Shared, Switchable;
    ScheduleHandsOver(Leave(s, Ready, [s.intr]).(ready := s.ready + [s.current]));
  }

  /** If nobody else is ready, nothing happens. */
  lemma YieldAlone(s: State)
    requires Inv(s) && s.ready == []
    ensures Yield(s) == s
  {
    YieldEffect(s);
    hide Yield, HandsOver, Shared;
    assert HandsOver(s, s.tasks[s.current].(status := Ready, frames := [s.intr]), [s.current], Yield(s));
    SameAgain(s, Yield(s));
  }

  lemma SameAgain(s: State, s': State)
    requires Inv(s) && s'.sems == s.sems && s'.ticks == s.ticks && s.ready == []
    requires HandsOver(s, s.tasks[s.current].(status := Ready, frames := [s.intr]), [s.current], s')
    ensures s' == s
  {
    assert s'.tasks == s.tasks;
  }

  /** task_park: the caller is blocked and on no list. */
  lemma ParkEffect(s: State)
    requires Inv(s)
    ensures var s' := Park(s);
            && s'.sems == s.sems && s'.ticks == s.ticks
            && HandsOver(s, s.tasks[s.current].(status := Blocked, frames := [s.intr]), OthersOr(s.ready, s.idle), s')
  {
    LeaveBlocked(s, Blocked, [s.intr]);
    hide Schedule, Shared, Switchable;
    ScheduleHandsOver(Leave(s, Blocked, [s.intr]));
  }

  /** So it does not run, except that idle, when nobody is ready, runs on as if nothing had happened. */
  lemma ParkedSleeps(s: State)
    requires Inv(s)
    ensures var s' := Park(s);
            if s.current == s.idle && s.ready == [] then s' == s
            else
              && s'.current != s.current && s.current !in s'.ready && s.current < |s'.tasks|
              && s'.tasks[s.current].status == Blocked && s'.tasks[s.current].frames == [s.intr]
  {
    ParkEffect(s);
    NotOnList(s);
    hide Park;
    if s.current == s.idle && s.ready == [] {
      assert Park(s).tasks == s.tasks;
    }
  }

  /** A timer interrupt is counted; within the slice it only uses one tick up, and after that the task goes
      last, with a full slice. */
  lemma TickEffect(s: State)
    requires Inv(s)
    ensures var (cur, s') := (s.tasks[s.current].(elapsed := (s.tasks[s.current].elapsed + 1) % WORD), Tick(s));
            && s'.sems == s.sems && s'.ticks == (s.ticks + 1) % WORD
            && if cur.ticks > 0 then
                 s' == s.(tasks := s.tasks[s.current := cur.(ticks := cur.ticks - 1)], ticks := s'.ticks)
               else
                 HandsOver(s, cur.(status := Ready, ticks := cur.priority, frames := [true]), s.ready + [s.current],
                           s')
  {
    if s.tasks[s.current].ticks == 0 {
      CountKeeps(s);
      LeaveBlocked(Count(s), Running, [true]);
      hide Schedule, Shared, Switchable;
      ScheduleHandsOver(Leave(Count(s), Running, [true]));
    }
  }

  /** semaphore_down_nint: a unit is taken, and the caller goes on; without units the caller is blocked, last
      in the semaphore's queue, inside two calls that have put a flag away. */
  lemma DownEffect(s: State, i: nat)
    requires Inv(s) && i < |s.sems| && s.current != s.idle
    ensures var (sem, s') := (s.sems[i], Down(s, i));
            if sem.value > 0 then
              s' == s.(sems := s.sems[i := Sem(sem.value - 1, sem.queue, sem.initial, sem.ups, sem.passed + 1,
                                               sem.waited, sem.granted)])
            else
              && s'.sems == s.sems[i := Sem(0, sem.queue + [s.current], sem.initial, sem.ups, sem.passed,
                                            sem.waited + [s.current], sem.granted)]
              && s'.ticks == s.ticks
              && HandsOver(s, s.tasks[s.current].(status := Blocked, frames := [s.intr, false]),
                           OthersOr(s.ready, s.idle), s')
  {
    if s.sems[i].value == 0 {
      JoinKeeps(s, i);
      hide Schedule, Shared, Switchable;
      ScheduleHandsOver(Leave(s.(sems := s.sems[i := JoinQueue(s.sems[i], s.current)]), Blocked, [s.intr, false]));
    }
  }

  /** semaphore_up_nint: a unit more if nobody waits, otherwise the longest waiting task leaves the queue and
      becomes ready, behind all that are; the caller goes on, its flag as it was. */
  lemma UpEffect(s: State, i: nat)
    requires Inv(s) && i < |s.sems|
    ensures var (sem, s') := (s.sems[i], Up(s, i));
            if sem.queue == [] then
              s' == s.(sems := s.sems[i := Sem(sem.value + 1, [], sem.initial, sem.ups + 1, sem.passed, sem.waited,
                                               sem.granted)])
            else
              var t := sem.queue[0];
              && t < |s.tasks| && s.tasks[t].status == Blocked
              && s' == s.(tasks := s.tasks[t := s.tasks[t].(status := Ready)], ready := s.ready + [t],
                          sems := s.sems[i := Sem(sem.value, sem.queue[1..], sem.initial, sem.ups + 1, sem.passed,
                                                  sem.waited, sem.granted + [t])])
  {
    UpKeeps(s, i);
    if s.sems[i].queue != [] {
      assert Waits(s.sems, i, s.sems[i].queue[0]);
    }
  }

  /** task_unpark of a blocked task makes it ready, behind all that are, and changes nothing else; of a task
      that is ready already, it only leaves interrupts off. */
  lemma UnparkEffect(s: State, t: nat)
    requires t < |s.tasks|
    ensures s.tasks[t].status != Ready ==>
              Unpark(s, t) == s.(tasks := s.tasks[t := s.tasks[t].(status := Ready)], ready := s.ready + [t])
    ensures s.tasks[t].status == Ready ==> Unpark(s, t) == s.(intr := false)
  {
  }

  /** kthread_create: one task more, ready behind all that are, with a full slice of its priority, and
      interrupts on when it starts. */
  lemma CreateEffect(s: State, priority: nat)
    ensures var (t, s') := (|s.tasks|, Create(s, priority));
            && |s'.tasks| == t + 1 && s'.ready == s.ready + [t]
            && s'.tasks[t] == Task(Ready, priority, priority, 0, [true])
            && s' == s.(tasks := s.tasks + [s'.tasks[t]], ready := s'.ready)
  {
  }

  // ----- the slice of the task that runs

  /** The current task gives up the processor itself. */
  predicate GivesUp(s: State, e: Event) {
    e == YieldCpu || e == ParkCpu || (e.SemDown? && e.i < |s.sems| && s.sems[e.i].value == 0)
  }

  /** As long as it does not, and has ticks left, a step leaves it running, and only a timer interrupt uses
      its slice up, by one tick. */
  lemma RunnerGoesOn(s: State, e: Event)
    requires Inv(s) && Enabled(s, e) && !GivesUp(s, e) && (e == TimerTick ==> s.tasks[s.current].ticks > 0)
    ensures var s' := Apply(s, e);
            && s'.current == s.current < |s.tasks| <= |s'.tasks|
            && s'.tasks[s.current].priority == s.tasks[s.current].priority
            && s'.tasks[s.current].ticks + (if e == TimerTick then 1 else 0) == s.tasks[s.current].ticks
  {
    match e {
      case TimerTick => TickEffect(s);
      case SemDown(i) => DownEffect(s, i);
      case SemUp(i) => UpEffect(s, i);
      case DeviceIrq(i) => UpEffect(s, i);
      case NewTask(priority) => CreateEffect(s, priority);
      case _ =>
    }
  }

  /** Over every run, a task that does not give up the processor keeps it for as many timer interrupts as
      its slice has ticks left, and each of them uses up one. */
  lemma {:induction false} SliceIsKept(states: seq<State>, events: seq<Event>, n: nat)
    requires Run(states, events) && Inv(states[0]) && n <= |events|
    requires forall m :: 0 <= m < n ==> !GivesUp(states[m], events[m])
    requires states[0].current < |states[0].tasks|
    requires Ticks(events[..n]) <= states[0].tasks[states[0].current].ticks
    ensures var (s, s') := (states[0], states[n]);
            && s'.current == s.current < |s'.tasks|
            && s'.tasks[s.current].priority == s.tasks[s.current].priority
            && s'.tasks[s.current].ticks + Ticks(events[..n]) == s.tasks[s.current].ticks
  {
    if n > 0 {
      assert events[..n][..n - 1] == events[..n - 1];
      SliceIsKept(states, events, n - 1);
      RunKeepsInv(states, events, n - 1);
      hide Apply, GivesUp, Inv;
      RunnerGoesOn(states[n - 1], events[n - 1]);
    }
  }

  /** The next timer interrupt preempts it: whoever is first on the ready list runs, and the task goes last
      with a full slice; if nobody is ready, it goes on with a full slice. */
  lemma SliceEnds(states: seq<State>, events: seq<Event>, n: nat)
    requires Run(states, events) && Inv(states[0]) && n < |events|
    requires forall m :: 0 <= m < n ==> !GivesUp(states[m], events[m])
    requires states[0].current < |states[0].tasks| && events[n] == TimerTick
    requires Ticks(events[..n]) == states[0].tasks[states[0].current].ticks
    ensures var (t, s, s') := (states[0].current, states[n], states[n + 1]);
            && s'.current == (if s.ready == [] then t else s.ready[0])
            && s'.ready == (if s.ready == [] then [] else s.ready[1..] + [t])
            && t < |s'.tasks| && s'.tasks[t].ticks == s'.tasks[t].priority == states[0].tasks[t].priority
  {
    SliceIsKept(states, events, n);
    RunKeepsInv(states, events, n);
    hide Tick, Inv, Shared;
    TickEffect(states[n]);
  }

  // ----- tasks that do not run

  /** What a task keeps while it does not run. */
  ghost predicate Asleep(tasks: seq<Task>, t: nat, as0: Task) {
    t < |tasks| && tasks[t] == as0.(status := tasks[t].status)
  }

  /** A task that does not run before a step sleeps through it, or it takes up what it had put away, with its
      slice as it was. */
  lemma SleeperStep(s: State, e: Event, t: nat)
    requires Inv(s) && Enabled(s, e) && t < |s.tasks| && t != s.current
    ensures var s' := Apply(s, e);
            && t < |s'.tasks|
            && if s'.current == t then
                 && s.tasks[t].frames != [] && s'.intr == s.tasks[t].frames[0]
                 && s'.tasks[t] == s.tasks[t].(status := Running, frames := [])
               else s'.tasks[t] == s.tasks[t].(status := s'.tasks[t].status)
  {
    match e {
      case TimerTick => TickEffect(s);
      case YieldCpu => YieldEffect(s);
      case ParkCpu => ParkEffect(s);
      case SemDown(i) => DownEffect(s, i);
      case SemUp(i) => UpEffect(s, i);
      case DeviceIrq(i) => UpEffect(s, i);
      case NewTask(priority) => CreateEffect(s, priority);
      case SetIntr(on) =>
    }
  }

  lemma {:induction false} SleepsUntil(states: seq<State>, events: seq<Event>, i: nat, j: nat, t: nat)
    requires Run(states, events) && Inv(states[0]) && i <= j < |states| && t < |states[i].tasks|
    requires forall m :: i <= m <= j ==> states[m].current != t
    ensures Asleep(states[j].tasks, t, states[i].tasks[t])
    decreases j
  {
    hide Apply, Inv, Enabled, Run;
    if i < j {
      Lengths(states, events);
      RunStep(states, events, j - 1);
      SleepsUntil(states, events, i, j - 1, t);
      RunKeepsInv(states, events, j - 1);
      var before := states[j - 1];
      assert before.current != t;
      hide Asleep;
      SleepsOn(before, events[j - 1], t, states[i].tasks[t]);
    }
  }

  lemma SleepsOn(s: State, e: Event, t: nat, as0: Task)
    requires Inv(s) && Enabled(s, e) && t != s.current && Asleep(s.tasks, t, as0) && Apply(s, e).current != t
    ensures Asleep(Apply(s, e).tasks, t, as0)
  {
    hide Apply, Inv, Enabled;
    SleeperStep(s, e, t);
  }

  /** Whenever a task starts to run, it has the flag, the priority and the slice with which it stopped or was
      made. */
  lemma WakesAsItWas(states: seq<State>, events: seq<Event>, i: nat, j: nat, t: nat)
    requires Run(states, events) && Inv(states[0]) && i < j < |states| && t < |states[i].tasks|
    requires states[j].current == t && forall m :: i <= m < j ==> states[m].current != t
    ensures t < |states[j].tasks| && states[i].tasks[t].frames != []
    ensures states[j].tasks[t] == states[i].tasks[t].(status := Running, frames := [])
    ensures states[j].intr == states[i].tasks[t].frames[0]
  {
    hide Apply, Inv, Enabled, Run, Asleep;
    Lengths(states, events);
    RunStep(states, events, j - 1);
    var before := states[j - 1];
    assert before.current != t;
    SleepsUntil(states, events, i, j - 1, t);
    RunKeepsInv(states, events, j - 1);
    TakesUp(before, events[j - 1], t, states[i].tasks[t]);
  }

  lemma Lengths(states: seq<State>, events: seq<Event>)
    requires Run(states, events)
    ensures |states| == |events| + 1
  {
  }

  lemma RunStep(states: seq<State>, events: seq<Event>, n: nat)
    requires Run(states, events) && n < |events|
    ensures |states| == |events| + 1 && Enabled(states[n], events[n]) && states[n + 1] == Apply(states[n], events[n])
  {
  }

  lemma TakesUp(s: State, e: Event, t: nat, as0: Task)
    requires Inv(s) && Enabled(s, e) && t != s.current && Asleep(s.tasks, t, as0) && Apply(s, e).current == t
    ensures t < |Apply(s, e).tasks| && Apply(s, e).tasks[t] == as0.(status := Running, frames := [])
    ensures as0.frames != [] && Apply(s, e).intr == as0.frames[0]
  {
    hide Apply, Inv, Enabled;
    SleeperStep(s, e, t);
  }

  /** A new task first runs with interrupts on and a full slice of its priority. */
  lemma NewTaskStarts(states: seq<State>, events: seq<Event>, i: nat, j: nat, priority: nat)
    requires Run(states, events) && Inv(states[0]) && i < j < |states| && events[i] == NewTask(priority)
    requires states[j].current == |states[i].tasks|
    requires forall m :: i < m < j ==> states[m].current != |states[i].tasks|
    ensures var t := |states[i].tasks|;
            && states[j].intr && t < |states[j].tasks|
            && states[j].tasks[t] == Task(Running, priority, priority, 0, [])
  {
    CreateEffect(states[i], priority);
    RunKeepsInv(states, events, i);
    assert states[i + 1].current == states[i].current < |states[i].tasks|;
    WakesAsItWas(states, events, i + 1, j, |states[i].tasks|);
  }

  // ----- tasks that run again

  /** BoundedWaiting from any point of a run. */
  lemma RunsWithin(states: seq<State>, events: seq<Event>, k: nat, i: nat, n: nat)
    requires Run(states, events) && Inv(states[0]) && k <= n <= |events| && i < |states[k].ready|
    requires Ticks(events[k..n]) >= Wait(states[k], i)
    ensures exists m :: k < m <= n && states[m].current == states[k].ready[i]
  {
    RunKeepsInv(states, events, k);
    var (states', events') := (states[k..], events[k..]);
    assert events'[..n - k] == events[k..n];
    hide Inv, Wait, Enabled, Apply;
    BoundedWaiting(states', events', i, n - k);
    var m :| 0 < m <= n - k && states'[m].current == states'[0].ready[i];
    assert states[k + m] == states'[m];
  }

  /** The first time from k on that t runs. */
  lemma {:induction false} FirstTime(states: seq<State>, k: nat, t: nat, n: nat) returns (m: nat)
    requires k <= n < |states| && states[n].current == t
    ensures k <= m <= n && states[m].current == t && forall j :: k <= j < m ==> states[j].current != t
    decreases n - k
  {
    m := k;
    if states[k].current != t {
      m := FirstTime(states, k + 1, t, n);
    }
  }

  /** A task that yields while somebody else is ready makes way for the first of them, and runs again, if
      timer interrupts come, just as it was: what is left of its slice and its interrupt flag included. */
  lemma YielderRunsAgain(states: seq<State>, events: seq<Event>, k: nat, n: nat) returns (m: nat)
    requires Run(states, events) && Inv(states[0]) && k < n <= |events| && events[k] == YieldCpu
    requires states[k].ready != [] && |states[k + 1].ready| > 0
    requires Ticks(events[k + 1..n]) >= Wait(states[k + 1], |states[k + 1].ready| - 1)
    ensures states[k + 1].current == states[k].ready[0] != states[k].current
    ensures k + 1 < m <= n && states[m].current == states[k].current
    ensures var t := states[k].current;
            && t < |states[k].tasks| && t < |states[m].tasks|
            && states[m].tasks[t] == states[k].tasks[t] && states[m].intr == states[k].intr
  {
    RunKeepsInv(states, events, k);
    NotOnList(states[k]);
    var t, q := states[k].current, states[k].ready;
    assert t < |states[k].tasks| && states[k].tasks[t].status == Running && states[k].tasks[t].frames == [];
    hide Inv, Wait, Yield, Enabled;
    YieldEffect(states[k]);
    assert states[k + 1].ready == q[1..] + [t];
    RunsWithin(states, events, k + 1, |q| - 1, n);
    var last :| k + 1 < last <= n && states[last].current == t;
    m := FirstTime(states, k + 1, t, last);
    hide Run;
    WakesAsItWas(states, events, k + 1, m, t);
  }

  lemma NotOnList(s: State)
    requires Inv(s)
    ensures s.current !in s.ready
  {
    assert !Is(s.tasks, s.current, Ready);
  }

  /** A new task runs, if timer interrupts come, and starts as NewTaskStarts says. */
  lemma NewTaskRuns(states: seq<State>, events: seq<Event>, k: nat, n: nat, priority: nat) returns (m: nat)
    requires Run(states, events) && Inv(states[0]) && k < n <= |events| && events[k] == NewTask(priority)
    requires |states[k].ready| < |states[k + 1].ready|
    requires Ticks(events[k + 1..n]) >= Wait(states[k + 1], |states[k].ready|)
    ensures k + 1 < m <= n && states[m].current == |states[k].tasks| < |states[m].tasks|
    ensures states[m].intr && states[m].tasks[|states[k].tasks|] == Task(Running, priority, priority, 0, [])
  {
    RunKeepsInv(states, events, k);
    var t := |states[k].tasks|;
    CreateEffect(states[k], priority);
    assert states[k + 1].ready[|states[k].ready|] == t && states[k + 1].current < t;
    hide Inv, Wait, Create, Enabled;
    RunsWithin(states, events, k + 1, |states[k].ready|, n);
    var last :| k + 1 < last <= n && states[last].current == t;
    m := FirstTime(states, k + 1, t, last);
    NewTaskStarts(states, events, k, m, priority);
  }
}
