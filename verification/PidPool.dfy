/** Process ids: the least free bit of a bitmap of 1024. */
module PidPool {
  import opened Sequences
  import opened Bitmap

  const PID_BITMAP_SIZE: nat := 128
  const PID_COUNT: nat := 1024

  class Pool {
    const pids: Bits

    constructor ()
      ensures Valid() && fresh(pids) && fresh(pids.data) && Live() == {}
    {
      pids := new Bits(PID_BITMAP_SIZE);
    }

    ghost predicate Valid() {
      pids.Valid() && pids.data.Length == PID_BITMAP_SIZE
    }

    /** The pids in use. */
    ghost function Live(): set<nat>
      requires Valid()
      reads pids.data
    {
      set p: nat | p < PID_COUNT && pids.Values()[p]
    }

    /** pidpool_alloc: the least pid not in use, or -1 when all are. */
    method Alloc() returns (r: int)
      requires Valid()
      modifies pids.data
      ensures AllocStep(old(Live()), r, Live())
    {
      r := pids.Alloc(1);
      ghost var bits := old(pids.Values());
      if r == NPOS {
        forall p: nat | p < PID_COUNT
          ensures p in old(Live())
        {
          assert !RunAt(bits, p, 1, false);
        }
      } else {
        assert RunAt(bits, r, 1, false);
        assert !bits[r] && r !in old(Live());
        forall p: nat | p < r
          ensures p in old(Live())
        {
          assert !RunAt(bits, p, 1, false);
        }
      }
    }

    /** pidpool_free. */
    method Free(pid: nat)
      requires Valid() && pid < PID_COUNT
      modifies pids.data
      ensures Live() == old(Live()) - {pid}
    {
      pids.Set(pid, false);
    }
  }

  /** Allocation takes the least pid not in use and fails exactly when all of them are. */
  ghost predicate AllocStep(live: set<nat>, r: int, live': set<nat>) {
    && (r == NPOS <==> forall p: nat :: p < PID_COUNT ==> p in live)
    && (r == NPOS ==> live' == live)
    && (r != NPOS ==>
          && 0 <= r < PID_COUNT && r !in live && live' == live + {r}
          && forall p: nat :: p < r ==> p in live)
  }

  // ----- runs

  datatype Op = Alloc(result: int) | Free(pid: nat)

  /** The pool's set, and the pids its clients hold, in order of allocation. */
  datatype State = State(live: set<nat>, held: seq<nat>)

  ghost function View(pool: Pool, held: seq<nat>): State
    requires pool.Valid()
    reads pool.pids.data
  {
    State(pool.Live(), held)
  }

  /** pidpool_alloc and pidpool_free make steps. */
  method AllocMakesStep(pool: Pool, ghost held: seq<nat>) returns (r: int)
    requires pool.Valid()
    modifies pool.pids.data
    ensures Step(old(View(pool, held)), Alloc(r), View(pool, if r >= 0 then held + [r] else held))
  {
    r := pool.Alloc();
  }

  method FreeMakesStep(pool: Pool, pid: nat, ghost held: seq<nat>)
    requires pool.Valid() && pid < PID_COUNT && pid in held
    modifies pool.pids.data
    ensures Step(old(View(pool, held)), Free(pid), View(pool, Without(held, pid)))
  {
    pool.Free(pid);
  }

  ghost predicate Step(s: State, op: Op, s': State) {
    match op
    case Alloc(r) => AllocStep(s.live, r, s'.live) && s'.held == if r >= 0 then s.held + [r] else s.held
    case Free(p) => p in s.held && p < PID_COUNT && s'.live == s.live - {p} && s'.held == Without(s.held, p)
  }

  /** Live pids are distinct, and the pool knows exactly them. */
  ghost predicate Inv(s: State) {
    NoDup(s.held) && s.live == set p | p in s.held
  }

  lemma {:induction false} RunKeepsInv(states: seq<State>, ops: seq<Op>, i: nat)
    requires |states| == |ops| + 1 && forall j :: 0 <= j < |ops| ==> Step(states[j], ops[j], states[j + 1])
    requires states[0] == State({}, []) && i < |states|
    ensures Inv(states[i])
  {
    if i > 0 {
      RunKeepsInv(states, ops, i - 1);
      assert Step(states[i - 1], ops[i - 1], states[i]);
      if ops[i - 1].Free? {
        WithoutContents(states[i - 1].held, ops[i - 1].pid);
      }
    }
  }

  /** Over any run an allocated pid is the least number no client holds, and allocation fails
      exactly when clients hold all 1024. */
  lemma AllocOverRuns(states: seq<State>, ops: seq<Op>, i: nat)
    requires |states| == |ops| + 1 && forall j :: 0 <= j < |ops| ==> Step(states[j], ops[j], states[j + 1])
    requires states[0] == State({}, []) && i < |ops| && ops[i].Alloc?
    ensures ops[i].result == NPOS <==> |states[i].held| == PID_COUNT
    ensures ops[i].result != NPOS ==>
              && 0 <= ops[i].result < PID_COUNT && ops[i].result !in states[i].held
              && forall p: nat :: p < ops[i].result ==> p in states[i].held
  {
    RunKeepsInv(states, ops, i);
    PidsInRange(states, ops, i);
    assert Step(states[i], ops[i], states[i + 1]);
    HoldingAll(states[i].held, PID_COUNT);
    assert forall p :: p in states[i].live <==> p in states[i].held;
  }

  lemma {:induction false} PidsInRange(states: seq<State>, ops: seq<Op>, i: nat)
    requires |states| == |ops| + 1 && forall j :: 0 <= j < |ops| ==> Step(states[j], ops[j], states[j + 1])
    requires states[0] == State({}, []) && i < |states|
    ensures forall p :: p in states[i].held ==> p < PID_COUNT
  {
    if i > 0 {
      PidsInRange(states, ops, i - 1);
      RunKeepsInv(states, ops, i - 1);
      assert Step(states[i - 1], ops[i - 1], states[i]);
      if ops[i - 1].Free? {
        WithoutContents(states[i - 1].held, ops[i - 1].pid);
      }
    }
  }

  /** NoDup numbers below n fill the range exactly when there are n of them. */
  lemma {:induction false} HoldingAll(held: seq<nat>, n: nat)
    requires NoDup(held) && forall p :: p in held ==> p < n
    ensures |held| == n <==> forall p: nat :: p < n ==> p in held
    ensures |held| <= n
    decreases n
  {
    assert held != [] ==> held[0] in held;
    if n > 0 {
      if n - 1 in held {
        WithoutContents(held, n - 1);
        HoldingAll(Without(held, n - 1), n - 1);
        if |held| == n {
          forall p: nat | p < n
            ensures p in held
          {
            assert p < n - 1 ==> p in Without(held, n - 1);
          }
        }
      } else {
        HoldingAll(held, n - 1);
      }
    }
  }
}
