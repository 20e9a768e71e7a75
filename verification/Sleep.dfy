/** task_sleep_ticks: waiting on a 32-bit tick counter that may wrap. */
module Sleep {
  import opened Config
  import opened Sched
  import opened SchedRuns

  /** What a 32-bit counter shows of n. */
  function Low(n: nat): (r: nat)
    ensures r < WORD
    ensures n < WORD ==> r == n
    ensures WORD <= n < 2 * WORD ==> r == n - WORD
  {
    n % WORD
  }

  /** The condition on which the loop breaks, for the counter value t. */
  predicate Expired(now: nat, end: nat, t: nat) {
    if end < now then t < now && t >= end else t >= end
  }

  /** With fewer than 2^32 ticks elapsed, the break condition holds only when the requested number has
      passed.  If now + ticks overflows it then holds until the counter is back where it was; if not,
      it holds until the counter wraps, and a task that was not looking before then sleeps on. */
  lemma ExpiredIff(now: nat, ticks: nat, elapsed: nat)
    requires now < WORD && ticks < WORD && elapsed < WORD
    ensures Expired(now, Low(now + ticks), Low(now + elapsed))
       <==> ticks <= elapsed && (now + ticks < WORD ==> now + elapsed < WORD)
  {
    hide Low;
  }

  // ----- the counter over a run

  lemma StepTicks(s: State, e: Event)
    requires Inv(s) && Enabled(s, e)
    ensures Apply(s, e).ticks == if e.TimerTick? then Low(s.ticks + 1) else s.ticks
  {
    hide Inv;
  }

  lemma SuccWraps(n: nat)
    ensures Low(Low(n) + 1) == Low(n + 1)
  {
  }

  lemma {:induction false} TicksOverRun(states: seq<State>, events: seq<Event>, m: nat, n: nat)
    requires Run(states, events) && Inv(states[0]) && m <= n < |states| && states[m].ticks < WORD
    ensures states[n].ticks == Low(states[m].ticks + Ticks(events[m..n]))
  {
    hide Low, Inv, Apply, Enabled;
    if m < n {
      TicksOverRun(states, events, m, n - 1);
      RunKeepsInv(states, events, n - 1);
      StepTicks(states[n - 1], events[n - 1]);
      assert events[m..n][..n - m - 1] == events[m..n - 1];
      SuccWraps(states[m].ticks + Ticks(events[m..n - 1]));
    }
  }

  /** No early wake: a task that starts to sleep in state m leaves its loop in state n only if the timer
      has ticked often enough in between, whatever else happened, and exactly then unless the counter
      has wrapped past an end that had not. */
  lemma NoEarlyWake(states: seq<State>, events: seq<Event>, m: nat, n: nat, ticks: nat)
    requires Run(states, events) && Inv(states[0]) && m <= n < |states|
    requires states[m].ticks < WORD && ticks < WORD && Ticks(events[m..n]) < WORD
    ensures var (now, elapsed) := (states[m].ticks, Ticks(events[m..n]));
            && (Expired(now, Low(now + ticks), states[n].ticks)
                <==> ticks <= elapsed && (now + ticks < WORD ==> now + elapsed < WORD))
  {
    hide Low, Inv, Apply, Enabled;
    TicksOverRun(states, events, m, n);
    ExpiredIff(states[m].ticks, ticks, Ticks(events[m..n]));
  }

  /** The loop of task_sleep_ticks; elapsed[k] is the number of ticks that have passed when it reads the
      counter for the k-th time.  It yields as often as the task is not to be woken yet. */
  method SleepTicks(now: nat, ticks: nat, elapsed: seq<nat>) returns (turns: nat)
    requires now < WORD && ticks < WORD
    requires forall k :: 0 <= k < |elapsed| ==> elapsed[k] < WORD
    ensures turns <= |elapsed|
    ensures forall k :: 0 <= k < turns ==> elapsed[k] < ticks || (now + ticks < WORD && WORD <= now + elapsed[k])
    ensures turns < |elapsed| ==> ticks <= elapsed[turns] && (now + ticks < WORD ==> now + elapsed[turns] < WORD)
  {
    hide Low;
    var end := Low(now + ticks);
    turns := 0;
    while turns < |elapsed|
      invariant turns <= |elapsed|
      invariant forall k :: 0 <= k < turns ==> elapsed[k] < ticks || (now + ticks < WORD && WORD <= now + elapsed[k])
    {
      var counter := Low(now + elapsed[turns]);
      ExpiredIff(now, ticks, elapsed[turns]);
      if end < now {
        if counter < now && counter >= end {
          break;
        }
      } else {
        if counter >= end {
          break;
        }
      }
      turns := turns + 1;
    }
  }
}
