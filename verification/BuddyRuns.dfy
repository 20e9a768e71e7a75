/** Whole runs of the buddy allocator.

    A state is the allocator's fields plus the blocks its clients hold.  A step is a call of
    buddy_alloc_page or buddy_free_page, constrained only by what module Buddy proves of the two
    methods (AllocDone, FreeDone and the invariant), and by the rule that clients free what they hold.
 */
module BuddyRuns {
  import opened BitOps
  import opened BuddyBlocks
  import opened BuddyState
  import opened Buddy
  import opened Wrappers

  datatype Op = Alloc(zone: nat, order: nat, result: Option<nat>) | Free(page: nat, order: nat)

  datatype State = State(pages: seq<Page>, zones: seq<ZoneVal>, live: set<Block>)

  ghost function FreeSet(s: State): set<nat> {
    PagesOf(BlocksIn(s.pages))
  }

  ghost predicate Step(s: State, op: Op, s': State) {
    && StateOk(s'.pages, s'.zones, 3, 0, 0)
    && match op
       case Alloc(t, k, r) =>
         && t < 3 && k <= MAX_ORDER
         && AllocDone(s.pages, s.zones, t, k, r, s'.pages, s'.zones)
         && s'.live == if r.Some? then s.live + {Block(r.value, k)} else s.live
       case Free(p, k) =>
         && k <= MAX_ORDER && (Aligned(p, k) ==> Block(p, k) in s.live)
         && FreeDone(s.pages, s.zones, Block(p, k), s'.pages, s'.zones)
         && s'.live == if Aligned(p, k) then s.live - {Block(p, k)} else s.live
  }

  ghost function View(a: Allocator, live: set<Block>): State
    reads a.pages, a.zones
    requires a.Shape()
  {
    State(a.pages[..], a.ZoneVals(), live)
  }

  /** buddy_alloc_page makes a step. */
  method AllocStep(a: Allocator, t: nat, order: nat, ghost live: set<Block>) returns (r: Option<nat>)
    requires a.Valid(3) && t < 3 && order <= MAX_ORDER
    modifies a.pages, a.zones
    ensures a.Valid(3)
    ensures Step(old(View(a, live)), Alloc(t, order, r),
                 View(a, if r.Some? then live + {Block(r.value, order)} else live))
  {
    hide StateOk, AllocDone;
    r := a.AllocPage(t, order, 3);
  }

  /** buddy_free_page makes a step: in a reachable state, its preconditions follow from the caller's
      holding the block. */
  method FreeStep(a: Allocator, page: nat, order: nat, ghost live: set<Block>, ghost usable: set<nat>)
    requires a.Valid(3) && Inv(View(a, live), usable) && page < a.pages.Length && order <= MAX_ORDER
    requires if Aligned(page, order) then Block(page, order) in live
             else !a.pages[page].reserved && !a.pages[page].buddy
    modifies a.pages, a.zones
    ensures a.Valid(3)
    ensures Step(old(View(a, live)), Free(page, order),
                 View(a, if Aligned(page, order) then live - {Block(page, order)} else live))
  {
    ghost var s := View(a, live);
    if Aligned(page, order) {
      HeldBlockMayBeFreed(s, usable, Block(page, order));
    }
    hide StateOk, FreeDone, Inv, Releasable, Aligned;
    a.FreePage(page, order, 3);
  }

  ghost predicate Run(states: seq<State>, ops: seq<Op>) {
    |states| == |ops| + 1 && forall i :: 0 <= i < |ops| ==> Step(states[i], ops[i], states[i + 1])
  }

  /** Conservation and separation: free pages and outstanding blocks partition the usable pages, and
      outstanding blocks are aligned and never overlap. */
  ghost predicate Inv(s: State, usable: set<nat>) {
    && StateOk(s.pages, s.zones, 3, 0, 0)
    && (forall p :: 0 <= p < |s.pages| ==> s.pages[p].zoneType == ZoneOf(p))
    && usable == Usable(s.pages)
    && Outstanding(s.live)
    && FreeSet(s) + PagesOf(s.live) == usable
    && FreeSet(s) !! PagesOf(s.live)
  }

  ghost predicate Outstanding(live: set<Block>) {
    PairwiseDisjoint(live) && forall b :: b in live ==> Wf(b)
  }

  /** The state that init_zone leaves, with nothing handed out, satisfies the invariant. */
  lemma InitialInv(s: State)
    requires StateOk(s.pages, s.zones, 3, 0, 0) && s.live == {}
    requires forall p :: 0 <= p < |s.pages| ==> s.pages[p].zoneType == ZoneOf(p)
    requires FreeSet(s) == Usable(s.pages)
    ensures Inv(s, Usable(s.pages))
  {
  }

  lemma AttributesKept(pages: seq<Page>, pages': seq<Page>)
    requires SameAttributes(pages, pages')
    ensures Usable(pages) == Usable(pages')
  {
  }

  lemma StepKeepsInv(s: State, op: Op, s': State, usable: set<nat>)
    requires Inv(s, usable) && Step(s, op, s')
    ensures Inv(s', usable)
  {
    hide StateOk, FreeRun, FreedAreas, AllocatedAreas, PagesOf, BlocksIn;
    AttributesKept(s.pages, s'.pages);
    match op {
      case Alloc(t, k, r) =>
        if r.Some? {
          AddOutstanding(s.live, FreeSet(s), s.pages, t, Block(r.value, k));
        }
      case Free(p, k) =>
        if Aligned(p, k) {
          RemoveFromDisjoint(s.live, Block(p, k));
        }
    }
  }

  lemma AddOutstanding(live: set<Block>, free: set<nat>, pages: seq<Page>, t: nat, b: Block)
    requires Outstanding(live) && free == PagesOf(BlocksIn(pages)) && free !! PagesOf(live)
    requires FreeRun(pages, t, b.order, b)
    ensures Outstanding(live + {b}) && PagesOf(live + {b}) == PagesOf(live) + Pages(b)
    ensures Pages(b) <= free && b !in live
  {
    assert In(b.start, b);
    forall c | c in live
      ensures Disjoint(b, c)
    {
      var p := if b.start <= c.start then c.start else b.start;
      assert In(p, c) ==> p in PagesOf(live);
      assert In(p, b) ==> p in free;
    }
    assert b in live + {b};
    assert forall p :: In(p, b) ==> p in PagesOf(live + {b});
  }

  /** The invariant holds at every point of every run. */
  lemma {:induction false} RunKeepsInv(states: seq<State>, ops: seq<Op>, usable: set<nat>, i: nat)
    requires Run(states, ops) && Inv(states[0], usable) && i < |states|
    ensures Inv(states[i], usable)
  {
    if i > 0 {
      RunKeepsInv(states, ops, usable, i - 1);
      StepKeepsInv(states[i - 1], ops[i - 1], states[i], usable);
    }
  }

  /** In every reachable state a client may free any block it holds: the preconditions of
      buddy_free_page are met. */
  lemma HeldBlockMayBeFreed(s: State, usable: set<nat>, b: Block)
    requires Inv(s, usable) && b in s.live
    ensures Releasable(s.pages, b) && b.start < |s.pages|
    ensures !s.pages[b.start].reserved && !s.pages[b.start].buddy
  {
    assert forall p: nat :: In(p, b) ==> p in PagesOf(s.live) && p in usable;
    assert In(b.start, b) && In(b.start + Pow2(b.order) - 1, b);
    StartNotFree(s.pages, b.start);
  }

  /** What alloc hands out overlaps no block already handed out. */
  lemma NewBlockIsSeparate(s: State, op: Op, s': State, usable: set<nat>, b: Block)
    requires Inv(s, usable) && Step(s, op, s') && op.Alloc? && op.result.Some? && b in s.live
    ensures Disjoint(Block(op.result.value, op.order), b)
    ensures Pages(Block(op.result.value, op.order)) <= usable
  {
    AddOutstanding(s.live, FreeSet(s), s.pages, op.zone, Block(op.result.value, op.order));
    StepKeepsInv(s, op, s', usable);
    assert b in s'.live && Block(op.result.value, op.order) in s'.live;
  }

  /** Completeness over runs: allocation fails exactly when every aligned run of that order in the
      zone holds a page that is unusable or in somebody's hands. */
  lemma AllocFailsIff(s: State, op: Op, s': State, usable: set<nat>)
    requires Inv(s, usable) && Step(s, op, s') && op.Alloc?
    ensures op.result == None <==>
              forall b :: Wf(b) && b.order == op.order && ZoneOf(b.start) == op.zone ==>
                exists p :: In(p, b) && (p !in usable || p in PagesOf(s.live))
  {
    hide StateOk, PagesOf, BlocksIn, Usable, AllocatedAreas, SameAttributes, Releasable;
    forall b | Wf(b) && b.order == op.order && ZoneOf(b.start) == op.zone
      ensures !FreeRun(s.pages, op.zone, op.order, b) <==>
                exists p :: In(p, b) && (p !in usable || p in PagesOf(s.live))
    {
      if p :| In(p, b) && (p !in usable || p in PagesOf(s.live)) {
        assert p !in FreeSet(s);
      }
      if !FreeRun(s.pages, op.zone, op.order, b) {
        var p :| b.start <= p < b.start + Pow2(b.order) && In(p, b) && p !in FreeSet(s);
      }
    }
  }

  /** Canonical form over runs: runs that end with the same pages free end with the same blocks free,
      whatever was allocated and freed in between and in whichever order. */
  lemma SameFreePagesSameBlocks(states: seq<State>, ops: seq<Op>, usable: set<nat>,
                                states': seq<State>, ops': seq<Op>, usable': set<nat>)
    requires Run(states, ops) && Inv(states[0], usable) && Run(states', ops') && Inv(states'[0], usable')
    requires FreeSet(states[|ops|]) == FreeSet(states'[|ops'|])
    ensures BlocksIn(states[|ops|].pages) == BlocksIn(states'[|ops'|].pages)
  {
    RunKeepsInv(states, ops, usable, |ops|);
    RunKeepsInv(states', ops', usable', |ops'|);
    FreeBlocksAreCanonical(states[|ops|].pages, states[|ops|].zones, 3);
    FreeBlocksAreCanonical(states'[|ops'|].pages, states'[|ops'|].zones, 3);
  }

  /** A run that returns everything restores the blocks that initialisation made. */
  lemma AllReturned(states: seq<State>, ops: seq<Op>, usable: set<nat>)
    requires Run(states, ops) && Inv(states[0], usable) && states[|ops|].live == {}
    ensures BlocksIn(states[|ops|].pages) == Canonical(usable)
  {
    hide Canonical, Usable, BlocksIn, PagesOf;
    RunKeepsInv(states, ops, usable, |ops|);
    NothingHeld(states[|ops|], usable);
    FreeBlocksAreCanonical(states[|ops|].pages, states[|ops|].zones, 3);
  }

  lemma NothingHeld(s: State, usable: set<nat>)
    requires Inv(s, usable) && s.live == {}
    ensures FreeSet(s) == usable
  {
    hide StateOk, Usable, BlocksIn;
    assert PagesOf({}) == {};
  }

  lemma HeldBlocksAreAligned(s: State, usable: set<nat>)
    requires Inv(s, usable)
    ensures forall b :: b in s.live ==> Wf(b)
  {
  }

  /** Frees of two held blocks commute. */
  lemma FreesCommute(s: State, a: Block, b: Block, s1: State, s2: State, t1: State, t2: State, usable: set<nat>)
    requires Inv(s, usable) && a in s.live && b in s.live && a != b
    requires Step(s, Free(a.start, a.order), s1) && Step(s1, Free(b.start, b.order), s2)
    requires Step(s, Free(b.start, b.order), t1) && Step(t1, Free(a.start, a.order), t2)
    ensures BlocksIn(s2.pages) == BlocksIn(t2.pages) && s2.live == t2.live
  {
    hide StateOk, Inv, FreedAreas, SameAttributes, BlocksIn, PagesOf, Pages;
    assert Wf(a) && Wf(b) by {
      HeldBlocksAreAligned(s, usable);
    }
    SameFreePagesSameBlocks([s, s1, s2], [Free(a.start, a.order), Free(b.start, b.order)], usable,
                            [s, t1, t2], [Free(b.start, b.order), Free(a.start, a.order)], usable);
  }

  /** Freeing what was just allocated restores the free blocks, however far the allocation split. */
  lemma AllocThenFree(s: State, t: nat, k: nat, p: nat, s1: State, s2: State, usable: set<nat>)
    requires Inv(s, usable) && Step(s, Alloc(t, k, Some(p)), s1) && Step(s1, Free(p, k), s2)
    ensures BlocksIn(s2.pages) == BlocksIn(s.pages) && s2.live == s.live
  {
    hide StateOk, FreedAreas, AllocatedAreas, SameAttributes, BlocksIn, PagesOf, Pages, FreeRun, Releasable, Canonical,
         Aligned, Outstanding, Usable;
    assert Aligned(p, k) && FreeRun(s.pages, t, k, Block(p, k)) by {
      RunIsAligned(s.pages, t, k, Block(p, k));
    }
    AddOutstanding(s.live, FreeSet(s), s.pages, t, Block(p, k));
    assert FreeSet(s2) == FreeSet(s);
    FreeBlocksAreCanonical(s.pages, s.zones, 3);
    FreeBlocksAreCanonical(s2.pages, s2.zones, 3);
  }

  lemma RunIsAligned(pages: seq<Page>, t: nat, k: nat, b: Block)
    requires FreeRun(pages, t, k, b)
    ensures Aligned(b.start, k)
  {
  }

  /** The other way round, a block that was freed without merging is the next one of its order to be handed
      out. */
  lemma FreeThenAlloc(s: State, p: nat, k: nat, s1: State, t: nat, r: Option<nat>, s2: State)
    requires Step(s, Free(p, k), s1) && Step(s1, Alloc(t, k, r), s2) && t == ZoneOf(p) && Aligned(p, k)
    requires k == MAX_ORDER || BuddyOf(Block(p, k)) !in BlocksIn(s.pages)
    ensures r == Some(p)
  {
    hide StateOk, BlocksIn, PagesOf, Pages, SameAttributes, Aligned, Pow2;
    var b := Block(p, k);
    assert Merged(BlocksIn(s.pages), b) == b;
    assert FreedAreas(s.pages, s.zones, b, s1.zones);
    var areas := s1.zones[t].areas;
    assert areas[k].blocks[0] == p && areas[k].blocksFree > 0;
    assert FirstFit(areas, k) == k;
    FreedRunIsFree(s.pages, b, s1.pages);
  }

  lemma FreedRunIsFree(pages0: seq<Page>, b: Block, pages: seq<Page>)
    requires PagesOf(BlocksIn(pages)) == PagesOf(BlocksIn(pages0)) + Pages(b) && Wf(b)
    ensures FreeRun(pages, ZoneOf(b.start), b.order, b)
  {
    hide BlocksIn, PagesOf;
  }
}
