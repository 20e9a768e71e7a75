/** The buddy page allocator: freeing with eager coalescing, allocating with splitting, and the
    zone initialisation that frees every usable page. */
module Buddy {
  import opened Config
  import opened Sequences
  import opened BitOps
  import opened BuddyBlocks
  import opened BuddyState
  import opened Wrappers

  class Allocator {
    const pages: array<Page>
    const zones: seq<Zone>

    /** The zeroed page array and zones, with the given pages reserved. */
    constructor (reserved: seq<bool>)
      ensures fresh(pages) && fresh(zones) && Valid(0)
      ensures pages.Length == |reserved|
      ensures forall p :: 0 <= p < pages.Length ==> pages[p] == Page(0, 0, reserved[p], false)
      ensures forall t :: 0 <= t < 3 ==> |zones[t].areas| == MAX_ORDER + 1
    {
      pages := new Page[|reserved|](p requires 0 <= p < |reserved| => Page(0, 0, reserved[p], false));
      var dma := new Zone();
      var normal := new Zone();
      var high := new Zone();
      zones := [dma, normal, high];
      new;
      assert BlocksIn(pages[..]) == {};
    }

    ghost predicate Shape() {
      |zones| == 3 && zones[0] != zones[1] && zones[0] != zones[2] && zones[1] != zones[2]
    }

    ghost function ZoneVals(): seq<ZoneVal>
      reads zones
      requires Shape()
    {
      [ZoneVal(zones[0].areas, zones[0].pgFree), ZoneVal(zones[1].areas, zones[1].pgFree),
       ZoneVal(zones[2].areas, zones[2].pgFree)]
    }

    /** The invariant in the middle of an operation on zone t, see StateOk. */
    ghost predicate Pending(up: nat, t: nat, extra: nat)
      reads pages, zones
    {
      Shape() && StateOk(pages[..], ZoneVals(), up, t, extra)
    }

    /** The allocator's invariant, for the zones below `up` that have been initialised. */
    ghost predicate Valid(up: nat)
      reads pages, zones
    {
      Pending(up, 0, 0)
    }

    /** All three zones are up, and every page knows its zone. */
    ghost predicate Ready()
      reads pages, zones
    {
      Valid(3) && forall p :: 0 <= p < pages.Length ==> pages[p].zoneType == ZoneOf(p)
    }

    ghost function FreeBlocks(): set<Block>
      reads pages
    {
      BlocksIn(pages[..])
    }

    ghost function FreePages(): set<nat>
      reads pages
    {
      PagesOf(FreeBlocks())
    }

    /** area_add_page, with the page's order set: link at the head and mark as a free block. */
    method AreaAddPage(zone: Zone, k: nat, p: nat, ghost t: nat)
      requires Shape() && t < 3 && zone == zones[t] && k < |zone.areas| && p < pages.Length
      modifies zone`areas, pages
      ensures pages[..] == LinkPage(old(pages[..]), p, k)
      ensures ZoneVals() == WithAreas(old(ZoneVals()), t, LinkArea(old(zone.areas), k, p))
    {
      pages[p] := pages[p].(order := k);
      var area := zone.areas[k];
      zone.areas := zone.areas[k := Area([p] + area.blocks, area.blocksFree + 1)];
      pages[p] := pages[p].(buddy := true);
    }

    /** area_remove_page: unlink the page from wherever it is on the list. */
    method AreaRemovePage(zone: Zone, k: nat, p: nat, ghost t: nat)
      requires Shape() && t < 3 && zone == zones[t] && k < |zone.areas| && p < pages.Length
      requires zone.areas[k].blocksFree > 0
      modifies zone`areas, pages
      ensures pages[..] == UnlinkPage(old(pages[..]), p)
      ensures ZoneVals() == WithAreas(old(ZoneVals()), t, UnlinkArea(old(zone.areas), k, p))
    {
      var area := zone.areas[k];
      zone.areas := zone.areas[k := Area(Without(area.blocks, p), area.blocksFree - 1)];
      pages[p] := pages[p].(buddy := false);
    }

    method SetPagesFree(zone: Zone, n: nat, ghost t: nat)
      requires Shape() && t < 3 && zone == zones[t]
      modifies zone`pgFree
      ensures ZoneVals() == old(ZoneVals())[t := old(ZoneVals())[t].(pgFree := n)]
    {
      zone.pgFree := n;
    }

    /** buddy_page_to_buddy: the buddy's index, or nothing past the end of memory. */
    method PageToBuddy(p: nat, k: nat) returns (r: Option<nat>)
      requires Aligned(p, k)
      ensures r == if BuddyOf(Block(p, k)).start < pages.Length then Some(BuddyOf(Block(p, k)).start) else None
    {
      BuddyBits(Block(p, k));
      var index := Xor(p, Pow2(k));
      if index >= pages.Length {
        r := None;
      } else {
        r := Some(index);
      }
    }

    /** buddy_free_page: return a block, coalescing it with free buddies as far as possible.

        A page that is not aligned to the order is refused without effect.  Otherwise exactly the
        block's pages become free; the lists change as AreasAfterFree says. */
    method FreePage(page: nat, order: nat, ghost up: nat)
      requires Valid(up) && page < pages.Length && order <= MAX_ORDER
      requires !pages[page].reserved && !pages[page].buddy
      requires Aligned(page, order) ==> Releasable(pages[..], Block(page, order)) && ZoneOf(page) < up
      modifies pages, zones
      ensures Valid(up)
      ensures FreeDone(old(pages[..]), old(ZoneVals()), Block(page, order), pages[..], ZoneVals())
    {
      hide Coalescing, StateOk, Releasable, PagesOk, BlocksIn, PagesOf, Pages, BuddyOf, Parent, FreedAreas,
           SameAttributes, Aligned, And, Clear, Pow2, Wf, UnlinkPage, LinkPage, UnlinkArea, LinkArea, WithAreas;
      MaskTestsAlignment(page, order);
      if And(page, Pow2(order) - 1) != 0 {
        KeptAsIs(pages[..]);
        return;
      }
      ghost var b0 := Block(page, order);
      ghost var pages0, zones0 := pages[..], ZoneVals();
      ReleasableFacts(pages0, b0);
      var t := pages[page].zoneType;
      var zone := zones[t];
      CoalesceStart(pages0, zones0, b0, up, t);
      SetPagesFree(zone, zone.pgFree + Pow2(order), t);

      var p, k := page, order;
      while k < MAX_ORDER
        invariant k <= MAX_ORDER
        invariant Coalescing(pages0, zones0, b0, up, t, pages[..], ZoneVals(), Block(p, k))
      {
        ghost var pages1, zones1, b := pages[..], ZoneVals(), Block(p, k);
        CoalescingFacts(pages0, zones0, b0, up, t, pages1, zones1, b);
        var buddy := PageToBuddy(p, k);
        if buddy == None || !pages[buddy.value].buddy || pages[buddy.value].order != k {
          break;
        }
        CoalesceStep(pages0, zones0, b0, up, t, pages1, zones1, b);
        AreaRemovePage(zone, k, buddy.value, t);
        BuddyBits(b);
        p := Clear(p, Pow2(k));
        k := k + 1;
      }
      ghost var pages1, zones1, b := pages[..], ZoneVals(), Block(p, k);
      CoalescingFacts(pages0, zones0, b0, up, t, pages1, zones1, b);
      CoalesceEnd(pages0, zones0, b0, up, t, pages1, zones1, b);
      AreaAddPage(zone, k, p, t);
    }

    /** The search loop of buddy_alloc_page: the first order from `order` up with a free block. */
    method FindOrder(zone: Zone, order: nat) returns (m: nat)
      requires order <= MAX_ORDER && |zone.areas| == MAX_ORDER + 1
      ensures order <= m <= MAX_ORDER + 1 && m == FirstFit(zone.areas, order)
    {
      m := order;
      while m <= MAX_ORDER && zone.areas[m].blocksFree == 0
        invariant order <= m <= MAX_ORDER + 1
        invariant FirstFit(zone.areas, order) == FirstFit(zone.areas, m)
      {
        m := m + 1;
      }
    }

    /** The splitting loop of buddy_alloc_page: the first block of order m is taken off its list and halved
        down to the wanted order; the lower halves stay. */
    method SplitDown(zone: Zone, m: nat, order: nat, ghost t: nat, ghost up: nat) returns (p: nat)
      requires Valid(up) && t < 3 && t < up && zone == zones[t] && order <= m <= MAX_ORDER
      requires |zone.areas| == MAX_ORDER + 1 && zone.areas[m].blocksFree > 0
      modifies pages, zone`areas
      ensures Shape() && old(zone.areas[m].blocks) != []
      ensures Splitting(old(pages[..]), old(ZoneVals()), up, t, m, old(zone.areas[m].blocks[0]),
                        pages[..], ZoneVals(), Block(p, order))
    {
      hide Splitting, StateOk, UnlinkPage, LinkPage, UnlinkArea, LinkArea, WithAreas, BuddyOf, Aligned, Pow2;
      ghost var pages0, zones0 := pages[..], ZoneVals();
      SplitStart(pages0, zones0, up, t, m);
      p := zone.areas[m].blocks[0];
      var k := m;
      ghost var h := p;
      AreaRemovePage(zone, m, p, t);
      while k > order
        invariant order <= k <= m
        invariant Splitting(pages0, zones0, up, t, m, h, pages[..], ZoneVals(), Block(p, k))
      {
        SplitStep(pages0, zones0, up, t, m, h, pages[..], ZoneVals(), Block(p, k));
        SplittingFacts(pages0, zones0, up, t, m, h, pages[..], ZoneVals(), Block(p, k));
        k := k - 1;
        AreaAddPage(zone, k, p, t);
        var buddy := PageToBuddy(p, k);
        p := buddy.value;
      }
    }

    /** buddy_alloc_page: hand out a block of 2^order pages of zone t, or nothing.

        Nothing is returned exactly when no aligned run of that many pages of the zone is free. */
    method AllocPage(t: nat, order: nat, ghost up: nat) returns (r: Option<nat>)
      requires Valid(up) && t < 3 && t < up && order <= MAX_ORDER
      modifies pages, zones
      ensures Valid(up)
      ensures AllocDone(old(pages[..]), old(ZoneVals()), t, order, r, pages[..], ZoneVals())
    {
      hide Splitting, StateOk, Releasable, BlocksIn, PagesOf, Pages, AllocatedAreas, SameAttributes, FreeRun, Pow2;
      ghost var pages0, zones0 := pages[..], ZoneVals();
      AllocFacts(pages0, zones0, up, t);
      var zone := zones[t];
      var m := FindOrder(zone, order);
      if m > MAX_ORDER {
        NoListNoRun(pages0, zones0, up, t, order);
        KeptAsIs(pages[..]);
        return None;
      }
      hide FirstFit;
      ghost var h := zone.areas[m].blocks;
      var p := SplitDown(zone, m, order, t, up);
      ghost var pages1, zones1 := pages[..], ZoneVals();
      SplitEnd(pages0, zones0, up, t, order, h[0], pages1, zones1, Block(p, order));
      SetPagesFree(zone, zone.pgFree - Pow2(order), t);
      r := Some(p);
      AllocatedRunWasFree(pages0, pages1, t, Block(p, order));
    }

    /** The pages from lo to hi that are not reserved. */
    ghost function UsableFrom(lo: nat, hi: nat): set<nat>
      reads pages
    {
      set p | p in Usable(pages[..]) && lo <= p <= hi
    }

    /** The first half of __init_zone. */
    method EmptyZone(t: nat, pgStart: nat, pgEnd: nat)
      requires Shape() && t < 3 && |zones[t].areas| == MAX_ORDER + 1
      modifies zones
      ensures ZoneVals() == old(ZoneVals())[t := ZoneVal(NoBlocks(), 0)]
      ensures zones[t].pgStart == pgStart && zones[t].pgCnt == if pgStart > pgEnd then 0 else pgEnd - pgStart + 1
    {
      var zone := zones[t];
      zone.pgFree := 0;
      zone.pgCnt := if pgStart > pgEnd then 0 else pgEnd - pgStart + 1;
      zone.pgStart := pgStart;
      for i := 0 to MAX_ORDER + 1
        invariant |zone.areas| == MAX_ORDER + 1 && zone.pgFree == 0
        invariant forall j :: 0 <= j < i ==> zone.areas[j] == Area([], 0)
        invariant zone.pgStart == pgStart && zone.pgCnt == if pgStart > pgEnd then 0 else pgEnd - pgStart + 1
        invariant forall s :: 0 <= s < 3 && s != t ==> ZoneVals()[s] == old(ZoneVals())[s]
      {
        ghost var was := ZoneVals();
        zone.areas := zone.areas[i := Area([], 0)];
        assert ZoneVals() == was[t := ZoneVal(zone.areas, 0)];
      }
      assert zone.areas == NoBlocks();
    }

    /** One iteration of __init_zone's loop: the page learns its zone and, unless reserved, is freed. */
    method InitPage(t: nat, i: nat)
      requires Valid(t + 1) && t < 3 && i < pages.Length && ZoneOf(i) == t && i !in FreePages()
      modifies pages, zones
      ensures Valid(t + 1) && forall s :: t < s < 3 ==> ZoneVals()[s] == old(ZoneVals())[s]
      ensures forall p :: 0 <= p < pages.Length ==>
                && pages[p].reserved == old(pages[p].reserved)
                && pages[p].zoneType == if p == i then t else old(pages[p].zoneType)
      ensures FreePages() == old(FreePages()) + if old(pages[i].reserved) then {} else {i}
    {
      hide StateOk, PagesOk, BlocksIn, PagesOf, Releasable, FreedAreas, LinkPage;
      ghost var pages1 := pages[..];
      ZoneTypeSet(pages1, ZoneVals(), t + 1, i);
      pages[i] := pages[i].(zoneType := t);
      assert pages[..] == pages1[i := pages1[i].(zoneType := ZoneOf(i))];
      if !pages[i].reserved {
        SinglePageReleasable(pages[..], i);
        ghost var pages2, zones2 := pages[..], ZoneVals();
        FreePage(i, 0, t + 1);
        FreeLeavesOtherZones(pages2, zones2, Block(i, 0), pages[..], ZoneVals());
      }
    }

    /** __init_zone: empty the lists, then hand every page that is not reserved to the allocator. */
    method InitZone(t: nat, pgStart: nat, pgEnd: nat)
      requires Valid(t) && t < 3 && |zones[t].areas| == MAX_ORDER + 1
      requires pgStart <= pgEnd ==> pgEnd < pages.Length
      requires forall p :: pgStart <= p <= pgEnd ==> ZoneOf(p) == t
      modifies pages, zones
      ensures Valid(t + 1)
      ensures forall s :: t < s < 3 ==> ZoneVals()[s] == old(ZoneVals())[s]
      ensures forall p :: 0 <= p < pages.Length ==>
                && pages[p].reserved == old(pages[p].reserved)
                && pages[p].zoneType == if pgStart <= p <= pgEnd then t else old(pages[p].zoneType)
      ensures FreePages() == old(FreePages()) + old(UsableFrom(pgStart, pgEnd))
    {
      hide StateOk, PagesOk, BlocksIn, PagesOf, NoBlocks;
      EmptyZone(t, pgStart, pgEnd);
      ZoneComesUp(pages[..], old(ZoneVals()), t);
      FreePagesInZonesUp(pages[..], old(ZoneVals()), t);

      var i := pgStart;
      while i <= pgEnd
        invariant pgStart <= i && (i <= pgEnd + 1 || i == pgStart)
        invariant Valid(t + 1)
        invariant forall s :: t < s < 3 ==> ZoneVals()[s] == old(ZoneVals())[s]
        invariant forall p :: 0 <= p < pages.Length ==>
                    && pages[p].reserved == old(pages[p].reserved)
                    && pages[p].zoneType == if pgStart <= p < i then t else old(pages[p].zoneType)
        invariant FreePages() == old(FreePages()) + old(set p | p in UsableFrom(pgStart, pgEnd) && p < i)
      {
        InitPage(t, i);
        i := i + 1;
      }
    }

    /** init_zone: bring the three zones up, for a memory of memSize bytes.  Afterwards every page
        that is not reserved is free. */
    method InitZones(memSize: nat)
      requires Valid(0) && forall t :: 0 <= t < 3 ==> |zones[t].areas| == MAX_ORDER + 1
      requires pages.Length == memSize / PAGE_SIZE && NORMAL_START <= pages.Length
      modifies pages, zones
      ensures Ready()
      ensures forall p :: 0 <= p < pages.Length ==> pages[p].reserved == old(pages[p].reserved)
      ensures FreePages() == old(Usable(pages[..]))
      ensures FreeBlocks() == Canonical(FreePages())
    {
      hide StateOk, BlocksIn, PagesOf, Canonical;
      FreePagesInZonesUp(pages[..], ZoneVals(), 0);
      assert forall t :: 0 <= t < 3 ==> |ZoneVals()[t].areas| == |zones[t].areas|;
      InitZone(ZONE_DMA, 0, NORMAL_START - 1);
      assert |zones[1].areas| == |ZoneVals()[1].areas|;
      var top := if HIGH_START * PAGE_SIZE < memSize then HIGH_START * PAGE_SIZE else memSize;
      InitZone(ZONE_NORMAL, NORMAL_START, top / PAGE_SIZE - 1);
      assert |zones[2].areas| == |ZoneVals()[2].areas|;
      InitZone(ZONE_HIGH, HIGH_START, memSize / PAGE_SIZE - 1);
      FreeBlocksAreCanonical(pages[..], ZoneVals(), 3);
    }
  }
}
