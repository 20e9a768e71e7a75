/** Whole runs of kmalloc and kfree, beside everybody else who uses the buddy allocator.

    A step is a call of one of the two, constrained only by what module Slab proves of the methods, or
    something that happens elsewhere.  A kfree step is one whose scan names the right cache (see
    Slab.ScanFindsOwnerIff).
 */
module SlabRuns {
  import opened Config
  import opened BitOps
  import opened Wrappers
  import opened BuddyBlocks
  import BuddyState
  import opened SlabCache
  import opened Slab

  datatype Op = KMalloc(size: nat, result: Option<nat>) | KFree(a: nat) | Elsewhere

  /** The slabs, and the pages that others have from the buddy allocator. */
  datatype State = State(slabs: System, others: set<nat>)

  /** What kmalloc and kfree do. */
  ghost predicate SlabStep(s: System, op: Op, s': System)
    requires !op.Elsewhere?
  {
    && PagesOf(s'.blocks) + s'.live.Keys == PagesOf(s.blocks) + s.live.Keys
    && match op
       case KMalloc(size, None) =>
         s'.live == s.live && s'.lists == s.lists && s'.bytes == s.bytes && SubMap(s.orders, s'.orders)
       case KMalloc(size, Some(a)) =>
         && SubMap(s.orders, s'.orders)
         && exists k :: IsOrderOf(size, k) && ObjectAt(a).page in s'.orders && s'.orders[ObjectAt(a).page] == k
              && ObjectAdded(s.live, k, ObjectAt(a), s'.live) && ObjectZeroed(s.bytes, k, ObjectAt(a), s'.bytes)
       case KFree(a) =>
         && ObjectRemoved(s.live, ObjectAt(a), s'.live) && OnlyLinkWritten(s.bytes, ObjectAt(a), s'.bytes)
         && SubMap(s'.orders, s.orders)
         && exists k :: 0 <= k < |s.lists| && PageOfAddress(a) in s.lists[k] && OwnerFirst(s.lists[k], PageOfAddress(a))
  }

  /** Others take free pages and give back pages they have; they do not write to the slabs' pages. */
  ghost predicate OthersStep(s: State, s': State) {
    && s'.slabs == s.slabs.(blocks := s'.slabs.blocks)
    && PagesOf(s'.slabs.blocks) + s'.others == PagesOf(s.slabs.blocks) + s.others
    && PagesOf(s'.slabs.blocks) !! s'.others
  }

  ghost predicate Step(s: State, op: Op, s': State) {
    && InOrder(s'.slabs)
    && if op.Elsewhere? then OthersStep(s, s') else s'.others == s.others && SlabStep(s.slabs, op, s'.slabs)
  }

  ghost function View(m: Slabs, others: set<nat>): State
    reads m, m.caches.Values, m.Memories(), m.buddy.pages
  {
    State(m.Snapshot(), others)
  }

  /** kmalloc makes a step. */
  method MallocStep(m: Slabs, size: nat, ghost others: set<nat>) returns (r: Option<nat>)
    requires m.Valid() && 2 <= size <= 1024
    modifies m, m.caches.Values, m.Memories(), m.buddy.pages, m.buddy.zones
    ensures m.Valid() && Step(old(View(m, others)), KMalloc(size, r), View(m, others))
  {
    hide SlabsOk, PagesApart, BuddyState.StateOk, LiveMap, Bytes, ObjectAdded, ObjectZeroed, IsOrderOf, PagesOf,
         InOrder, BuddyState.BlocksIn, Drawn, SubMap, Step, Slabs.Exhausted, GrownBy, Slabs.HandedOut;
    LiveKeys(m);
    ghost var s := View(m, others);
    ghost var k;
    r, k := m.KMalloc(size);
    m.SystemIsInOrder();
    LiveKeys(m);
    MallocIsStep(s, size, r, k, View(m, others));
  }

  /** kfree makes a step if and only if the scan names the right cache; what it does otherwise is
      ScanMissed. */
  method FreeStep(m: Slabs, a: nat, ghost k: nat, ghost others: set<nat>)
    requires m.Valid() && m.HandedOut(k, a) && k < |m.lists|
    modifies m, m.caches.Values, m.Memories(), m.buddy.pages, m.buddy.zones
    ensures old(OwnerFirst(m.lists[k], PageOfAddress(a))) ==> m.Valid()
    ensures Step(old(View(m, others)), KFree(a), View(m, others)) <==> old(OwnerFirst(m.lists[k], PageOfAddress(a)))
    ensures !old(OwnerFirst(m.lists[k], PageOfAddress(a))) ==>
              ScanMissed(old(m.lists), old(m.Vals()), old(m.buddy.FreePages()), k, ObjectAt(a), m.Vals(),
                         m.buddy.FreePages())
  {
    hide SlabsOk, PagesApart, BuddyState.StateOk, LiveMap, Bytes, ObjectRemoved, OnlyLinkWritten, OwnerFirst, PagesOf,
         InOrder, BuddyState.BlocksIn, ScanMissed, Returned, NamedUnlisted, PageOfAddress, OffsetOfAddress, Step;
    LiveKeys(m);
    m.HandedOutFacts(k, a);
    ghost var good, before := OwnerFirst(m.lists[k], PageOfAddress(a)), View(m, others);
    m.KFree(Some(a), k);
    if good {
      m.SystemIsInOrder();
      LiveKeys(m);
      FreeIsStep(before, a, k, View(m, others));
    } else {
      NoStep(before, a, View(m, others));
    }
  }

  lemma MallocIsStep(s: State, size: nat, r: Option<nat>, k: nat, s': State)
    requires s'.others == s.others && InOrder(s'.slabs) && SubMap(s.slabs.orders, s'.slabs.orders)
    requires PagesOf(s'.slabs.blocks) + s'.slabs.live.Keys == PagesOf(s.slabs.blocks) + s.slabs.live.Keys
    requires r.None? ==>
               s'.slabs.live == s.slabs.live && s'.slabs.lists == s.slabs.lists && s'.slabs.bytes == s.slabs.bytes
    requires r.Some? ==>
               && var x := ObjectAt(r.value);
               && IsOrderOf(size, k) && x.page in s'.slabs.orders && s'.slabs.orders[x.page] == k
               && ObjectAdded(s.slabs.live, k, x, s'.slabs.live) && ObjectZeroed(s.slabs.bytes, k, x, s'.slabs.bytes)
    ensures Step(s, KMalloc(size, r), s')
  {
    hide ObjectAdded, ObjectZeroed, InOrder, PagesOf, IsOrderOf, SubMap;
  }

  lemma FreeIsStep(s: State, a: nat, k: nat, s': State)
    requires ObjectRemoved(s.slabs.live, ObjectAt(a), s'.slabs.live)
    requires OnlyLinkWritten(s.slabs.bytes, ObjectAt(a), s'.slabs.bytes)
    requires s'.others == s.others && InOrder(s'.slabs) && SubMap(s'.slabs.orders, s.slabs.orders)
    requires PagesOf(s'.slabs.blocks) + s'.slabs.live.Keys == PagesOf(s.slabs.blocks) + s.slabs.live.Keys
    requires k < |s.slabs.lists| && PageOfAddress(a) in s.slabs.lists[k]
    requires OwnerFirst(s.slabs.lists[k], PageOfAddress(a))
    ensures Step(s, KFree(a), s')
  {
    hide ObjectRemoved, OnlyLinkWritten, InOrder, OwnerFirst, PagesOf;
  }

  lemma NoStep(s: State, a: nat, s': State)
    requires var (x, x') := (s.slabs, s'.slabs);
             !(ObjectRemoved(x.live, ObjectAt(a), x'.live) && OnlyLinkWritten(x.bytes, ObjectAt(a), x'.bytes))
    ensures !Step(s, KFree(a), s')
  {
    hide ObjectRemoved, OnlyLinkWritten, InOrder, OwnerFirst;
  }

  lemma LiveKeys(m: Slabs)
    requires m.Valid()
    ensures m.Live().Keys == m.caches.Keys
  {
  }

  /** buddy_alloc_page on somebody else's behalf is a step elsewhere. */
  method OthersAlloc(m: Slabs, t: nat, order: nat, ghost others: set<nat>) returns (r: Option<nat>)
    requires m.Valid() && t < 3 && order <= MAX_ORDER && others !! m.buddy.FreePages()
    modifies m.buddy.pages, m.buddy.zones
    ensures m.Valid()
    ensures Step(old(View(m, others)), Elsewhere,
                 View(m, others + if r.Some? then Pages(Block(r.value, order)) else {}))
  {
    hide SlabsOk, PagesApart, BuddyState.StateOk, LiveMap, Bytes, InOrder, BuddyState.BlocksIn, PagesOf, Pages,
         BuddyState.AllocDone;
    ghost var vals, pages0, zones0 := m.Vals(), m.buddy.pages[..], m.buddy.ZoneVals();
    r := m.buddy.AllocPage(t, order, 3);
    assert m.Vals() == vals;
    ApartAfterTake(pages0, zones0, t, order, r, m.buddy.pages[..], m.buddy.ZoneVals(), m.caches.Keys);
    m.SystemIsInOrder();
  }

  lemma ApartAfterTake(pages0: seq<BuddyState.Page>, zones0: seq<BuddyState.ZoneVal>, t: nat, k: nat, r: Option<nat>,
                       pages: seq<BuddyState.Page>, zones: seq<BuddyState.ZoneVal>, held: set<nat>)
    requires PagesApart(pages0, held) && BuddyState.AllocDone(pages0, zones0, t, k, r, pages, zones)
    requires forall q :: 0 <= q < |pages0| ==> pages0[q].zoneType == BuddyState.ZoneOf(q)
    ensures PagesApart(pages, held) && forall q :: 0 <= q < |pages| ==> pages[q].zoneType == BuddyState.ZoneOf(q)
    ensures var taken := if r.Some? then Pages(Block(r.value, k)) else {};
            var (free0, free) := (PagesOf(BuddyState.BlocksIn(pages0)), PagesOf(BuddyState.BlocksIn(pages)));
            taken <= free0 && free == free0 - taken
  {
    hide BuddyState.BlocksIn, PagesOf, Pages, BuddyState.AllocatedAreas, BuddyState.Releasable;
    forall q | q in held
      ensures Spare(pages, q)
    {
      assert Spare(pages0, q);
    }
    if r.Some? {
      RunIsFree(pages0, t, k, Block(r.value, k));
    }
  }

  lemma RunIsFree(pages: seq<BuddyState.Page>, t: nat, k: nat, b: Block)
    requires BuddyState.FreeRun(pages, t, k, b)
    ensures Pages(b) <= PagesOf(BuddyState.BlocksIn(pages))
  {
  }

  /** buddy_free_page of a block that somebody else has is a step elsewhere. */
  method OthersFree(m: Slabs, page: nat, order: nat, ghost others: set<nat>)
    requires m.Valid() && page < m.buddy.pages.Length && order <= MAX_ORDER
    requires !m.buddy.pages[page].buddy && BuddyState.Releasable(m.buddy.pages[..], Block(page, order))
    requires Pages(Block(page, order)) <= others && others !! m.caches.Keys && others !! m.buddy.FreePages()
    modifies m.buddy.pages, m.buddy.zones
    ensures m.Valid()
    ensures Step(old(View(m, others)), Elsewhere, View(m, others - Pages(Block(page, order))))
  {
    hide SlabsOk, PagesApart, BuddyState.StateOk, LiveMap, Bytes, InOrder, BuddyState.BlocksIn, PagesOf, Pages,
         BuddyState.FreeDone, BuddyState.Releasable, BuddyState.ZoneOf, Aligned, Step, Wf;
    ghost var b := Block(page, order);
    MayBeFreed(m.buddy.pages[..], b);
    ghost var vals, pages0, zones0 := m.Vals(), m.buddy.pages[..], m.buddy.ZoneVals();
    m.buddy.FreePage(page, order, 3);
    assert m.Vals() == vals;
    ApartAfterGive(pages0, zones0, b, m.buddy.pages[..], m.buddy.ZoneVals(), m.caches.Keys);
    m.SystemIsInOrder();
    GiveIsStep(old(View(m, others)), b, View(m, others - Pages(b)));
  }

  lemma GiveIsStep(s: State, b: Block, s': State)
    requires InOrder(s'.slabs) && s'.slabs == s.slabs.(blocks := s'.slabs.blocks)
    requires Pages(b) <= s.others && s.others !! PagesOf(s.slabs.blocks)
    requires PagesOf(s'.slabs.blocks) == PagesOf(s.slabs.blocks) + Pages(b) && s'.others == s.others - Pages(b)
    ensures Step(s, Elsewhere, s')
  {
    hide InOrder, PagesOf, Pages;
  }

  lemma MayBeFreed(pages: seq<BuddyState.Page>, b: Block)
    requires BuddyState.Releasable(pages, b) && b.start < |pages|
    ensures !pages[b.start].reserved && BuddyState.ZoneOf(b.start) < 3 && Wf(b)
  {
    assert In(b.start, b);
  }

  lemma ApartAfterGive(pages0: seq<BuddyState.Page>, zones0: seq<BuddyState.ZoneVal>, b: Block,
                       pages: seq<BuddyState.Page>, zones: seq<BuddyState.ZoneVal>, held: set<nat>)
    requires PagesApart(pages0, held) && BuddyState.FreeDone(pages0, zones0, b, pages, zones) && Wf(b)
    requires Pages(b) !! held
    requires forall q :: 0 <= q < |pages0| ==> pages0[q].zoneType == BuddyState.ZoneOf(q)
    ensures PagesApart(pages, held) && forall q :: 0 <= q < |pages| ==> pages[q].zoneType == BuddyState.ZoneOf(q)
    ensures PagesOf(BuddyState.BlocksIn(pages)) == PagesOf(BuddyState.BlocksIn(pages0)) + Pages(b)
  {
    hide BuddyState.BlocksIn, PagesOf, Pages, BuddyState.FreedAreas;
    forall q | q in held
      ensures Spare(pages, q)
    {
      assert Spare(pages0, q);
    }
  }

  ghost predicate Run(states: seq<State>, ops: seq<Op>) {
    && |states| == |ops| + 1 && StateInOrder(states[0])
    && forall i :: 0 <= i < |ops| ==> Step(states[i], ops[i], states[i + 1])
  }

  /** The slabs are in order, and no page is others' and also free or a cache's. */
  ghost predicate StateInOrder(s: State) {
    InOrder(s.slabs) && s.others !! PagesOf(s.slabs.blocks) && s.others !! s.slabs.live.Keys
  }

  /** The pages that are free, hold caches or are others'. */
  ghost function AllPages(s: State): set<nat> {
    PagesOf(s.slabs.blocks) + s.slabs.live.Keys + s.others
  }

  lemma StepConserves(s: State, op: Op, s': State)
    requires Step(s, op, s') && StateInOrder(s)
    ensures StateInOrder(s') && AllPages(s') == AllPages(s)
  {
    hide PagesOf, Coalesced, PageInOrder, Listed;
    if !op.Elsewhere? {
      hide SlabStep;
      assert PagesOf(s'.slabs.blocks) + s'.slabs.live.Keys == PagesOf(s.slabs.blocks) + s.slabs.live.Keys by {
        SameTotal(s.slabs, op, s'.slabs);
      }
    }
  }

  lemma SameTotal(s: System, op: Op, s': System)
    requires !op.Elsewhere? && SlabStep(s, op, s')
    ensures PagesOf(s'.blocks) + s'.live.Keys == PagesOf(s.blocks) + s.live.Keys
  {
  }

  /** Over every run, the free pages, the cache pages and the pages that others have are apart, and
      together they are always the same. */
  lemma {:induction false} PagesConserved(states: seq<State>, ops: seq<Op>, i: nat)
    requires Run(states, ops) && i < |states|
    ensures StateInOrder(states[i]) && AllPages(states[i]) == AllPages(states[0])
  {
    hide Step, StateInOrder, AllPages;
    if i > 0 {
      PagesConserved(states, ops, i - 1);
      StepConserves(states[i - 1], ops[i - 1], states[i]);
    }
  }

  /** After any run of kmalloc and kfree between two points where nothing is handed out and others have the
      same pages, whatever they had in between, every cache list is empty and the buddy allocator has exactly
      the free blocks it had. */
  lemma AllFreedRestoresBuddy(states: seq<State>, ops: seq<Op>)
    requires Run(states, ops)
    requires states[0].slabs.live == map[] && states[|ops|].slabs.live == map[]
    requires states[|ops|].others == states[0].others
    ensures forall k :: 0 <= k < |states[|ops|].slabs.lists| ==> states[|ops|].slabs.lists[k] == []
    ensures states[|ops|].slabs.blocks == states[0].slabs.blocks
  {
    hide PagesOf, Coalesced, Canonical, Step;
    PagesConserved(states, ops, |ops|);
    var (s, s') := (states[0], states[|ops|]);
    assert PagesOf(s.slabs.blocks) == AllPages(s) - s.others;
    assert PagesOf(s'.slabs.blocks) == AllPages(s') - s'.others;
    CanonicalForm(s.slabs.blocks);
    CanonicalForm(s'.slabs.blocks);
    var lists := s'.slabs.lists;
    forall k | 0 <= k < |lists|
      ensures lists[k] == []
    {
      assert lists[k] != [] ==> Listed(lists, lists[k][0]);
    }
  }

  lemma HeldThroughStep(s: System, op: Op, s': System, x: Object)
    requires !op.Elsewhere? && SlabStep(s, op, s') && x.page in s.live && x.off in s.live[x.page]
    requires op.KFree? ==> ObjectAt(op.a) != x
    ensures x.page in s'.live && x.off in s'.live[x.page]
  {
    hide PagesOf, InOrder, IsSlot, Pow2, OwnerFirst, ObjectZeroed, OnlyLinkWritten, IsOrderOf, PageOfAddress,
         OffsetOfAddress;
    match op {
      case KMalloc(size, None) =>
      case KMalloc(size, Some(a)) =>
      case KFree(a) =>
        var y := ObjectAt(a);
        if y.page == x.page {
          assert y.off != x.off && x.off in s.live[y.page] - {y.off};
        }
    }
  }

  /** The bytes of an object. */
  function Contents(s: System, x: Object): (r: seq<u8>)
    requires x.page in s.bytes && x.page in s.orders && x.off + Pow2(s.orders[x.page]) <= |s.bytes[x.page]|
  {
    s.bytes[x.page][x.off..x.off + Pow2(s.orders[x.page])]
  }

  ghost predicate Held(s: System, x: Object) {
    x.page in s.live && x.off in s.live[x.page]
  }

  lemma HeldFits(s: System, x: Object)
    requires InOrder(s) && Held(s, x)
    ensures x.page in s.orders && x.page in s.bytes && 1 <= s.orders[x.page] <= MAX_OBJ_ORDER
    ensures IsSlot(s.orders[x.page], x.off) && x.off + Pow2(s.orders[x.page]) <= PAGE_SIZE == |s.bytes[x.page]|
  {
    assert PageInOrder(s.orders[x.page], s.live[x.page], s.bytes[x.page]);
    SlotInPage(s.orders[x.page], x.off);
  }

  /** No other kmalloc or kfree touches a byte of an object that is handed out. */
  lemma ContentsThroughStep(s: System, op: Op, s': System, x: Object)
    requires !op.Elsewhere? && SlabStep(s, op, s') && InOrder(s) && InOrder(s') && Held(s, x)
    requires op.KFree? ==> ObjectAt(op.a) != x
    ensures Held(s', x) && x.page in s.bytes && x.page in s.orders && x.page in s'.bytes && x.page in s'.orders
    ensures s'.orders[x.page] == s.orders[x.page]
    ensures x.off + Pow2(s.orders[x.page]) <= |s.bytes[x.page]| == |s'.bytes[x.page]|
    ensures Contents(s', x) == Contents(s, x)
  {
    hide PagesOf, Coalesced, OwnerFirst, IsOrderOf, Listed, Aligned, Pow2, PageOfAddress, OffsetOfAddress, InOrder,
         IsSlot;
    HeldThroughStep(s, op, s', x);
    HeldFits(s, x);
    HeldFits(s', x);
    var k := s.orders[x.page];
    match op {
      case KMalloc(size, None) =>
      case KMalloc(size, Some(a)) =>
        var y := ObjectAt(a);
        assert y != x;
        if y.page == x.page {
          assert Held(s', y);
          HeldFits(s', y);
          SlotsApart(k, x.off, y.off);
        }
      case KFree(a) =>
        var y := ObjectAt(a);
        if y.page == x.page {
          assert Held(s, y);
          HeldFits(s, y);
          SlotsApart(k, x.off, y.off);
        }
    }
  }

  /** Over any run, the bytes of an object stay as they are until it is freed. */
  lemma {:induction false} ContentsUntilFreed(states: seq<State>, ops: seq<Op>, x: Object, i: nat, j: nat)
    requires Run(states, ops) && i <= j < |states| && Held(states[i].slabs, x)
    requires forall m :: i <= m < j && ops[m].KFree? ==> ObjectAt(ops[m].a) != x
    ensures var (s, s') := (states[i].slabs, states[j].slabs);
            && InOrder(s) && InOrder(s') && Held(s', x)
            && x.page in s.orders && x.page in s'.orders && s'.orders[x.page] == s.orders[x.page]
            && x.page in s.bytes && x.off + Pow2(s.orders[x.page]) <= |s.bytes[x.page]|
            && x.page in s'.bytes && x.off + Pow2(s'.orders[x.page]) <= |s'.bytes[x.page]|
            && Contents(s', x) == Contents(s, x)
    decreases j - i
  {
    hide InOrder, Held, Contents, SlabStep, Pow2;
    PagesConserved(states, ops, i);
    PagesConserved(states, ops, j);
    HeldFits(states[i].slabs, x);
    if i < j {
      assert Step(states[i], ops[i], states[i + 1]);
      if ops[i].Elsewhere? {
        SameObjects(states[i].slabs, states[i + 1].slabs, x);
      } else {
        ContentsThroughStep(states[i].slabs, ops[i], states[i + 1].slabs, x);
      }
      ContentsUntilFreed(states, ops, x, i + 1, j);
    }
  }

  lemma SameObjects(s: System, s': System, x: Object)
    requires s' == s.(blocks := s'.blocks) && Held(s, x) && x.page in s.bytes && x.page in s.orders
    requires x.off + Pow2(s.orders[x.page]) <= |s.bytes[x.page]|
    ensures Held(s', x) && Contents(s', x) == Contents(s, x)
  {
  }
}
