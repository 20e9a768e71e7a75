/** The state of the buddy page allocator and what its fields mean: the page array, the zones
    with their free lists and counters, and the invariant that ties them together.

    A free list is linked through the pages themselves; here it is the sequence of the page
    indices on it, head first, with the effects that module ListHead proves of the links.
 */
module BuddyState {
  import opened Sequences
  import opened BitOps
  import opened BuddyBlocks
  import opened Wrappers

  const ZONE_DMA: nat := 0
  const ZONE_NORMAL: nat := 1
  const ZONE_HIGH: nat := 2
  const NORMAL_START: nat := 0x1000  // page index of MEM_TYPE_NORMAL_START
  const HIGH_START: nat := 0x30000   // page index of MEM_TYPE_HIGH_START

  datatype Page = Page(order: nat, zoneType: nat, reserved: bool, buddy: bool)

  /** One free list and its length counter. */
  datatype Area = Area(blocks: seq<nat>, blocksFree: nat)

  class Zone {
    var areas: seq<Area>
    var pgStart: nat
    var pgCnt: nat
    var pgFree: nat

    constructor ()
      ensures |areas| == MAX_ORDER + 1 && pgStart == pgCnt == pgFree == 0
    {
      areas, pgStart, pgCnt, pgFree := NoBlocks(), 0, 0, 0;
    }
  }

  function NoBlocks(): (r: seq<Area>)
    ensures |r| == MAX_ORDER + 1
  {
    seq(MAX_ORDER + 1, _ => Area([], 0))
  }

  // ----- what the fields mean

  function ZoneOf(p: nat): nat {
    if p < NORMAL_START then ZONE_DMA else if p < HIGH_START then ZONE_NORMAL else ZONE_HIGH
  }

  /** The pages that are not reserved. */
  ghost function Usable(pages: seq<Page>): set<nat> {
    set p | 0 <= p < |pages| && !pages[p].reserved
  }

  /** The free blocks the page flags describe. */
  ghost function BlocksIn(pages: seq<Page>): (r: set<Block>)
    ensures forall b :: b in r <==> b.start < |pages| && pages[b.start].buddy && pages[b.start].order == b.order
  {
    set p | 0 <= p < |pages| && pages[p].buddy :: Block(p, pages[p].order)
  }

  ghost predicate Lists(pages: seq<Page>, t: nat, k: nat, p: nat) {
    p < |pages| && pages[p].buddy && pages[p].order == k && ZoneOf(p) == t
  }

  /** The number of pages the counters of the lists account for. */
  function CountedPages(areas: seq<Area>): nat {
    if areas == [] then 0
    else var k := |areas| - 1; CountedPages(areas[..k]) + Shl(areas[k].blocksFree, k)
  }

  /** A free list holds exactly the zone's free blocks of its order, each once. */
  ghost predicate AreaOk(pages: seq<Page>, t: nat, k: nat, area: Area) {
    && area.blocksFree == |area.blocks|
    && NoDup(area.blocks)
    && forall p :: p in area.blocks <==> Lists(pages, t, k, p)
  }

  /** All eleven lists of a zone are right, and pg_free is the number of pages on them. */
  ghost predicate ZoneOk(pages: seq<Page>, t: nat, areas: seq<Area>, pgFree: nat) {
    && |areas| == MAX_ORDER + 1
    && (forall k :: 0 <= k <= MAX_ORDER ==> AreaOk(pages, t, k, areas[k]))
    && pgFree == CountedPages(areas)
  }

  /** Free blocks are aligned, disjoint, coalesced, inside memory and never touch a reserved page. */
  ghost predicate PagesOk(pages: seq<Page>) {
    && Coalesced(BlocksIn(pages))
    && (forall b :: b in BlocksIn(pages) ==> InMemory(pages, b))
  }

  ghost predicate InMemory(pages: seq<Page>, b: Block) {
    && b.start + Pow2(b.order) <= |pages|
    && forall p: nat | In(p, b) :: !pages[p].reserved && pages[p].zoneType == ZoneOf(p)
  }

  /** A block that is free nowhere and may be given to the allocator. */
  ghost predicate Releasable(pages: seq<Page>, b: Block) {
    && Wf(b) && InMemory(pages, b)
    && forall p: nat | In(p, b) :: p !in PagesOf(BlocksIn(pages))
  }

  /** The block that freeing b ends up with: as long as the buddy is free, the parent. */
  ghost function Merged(blocks: set<Block>, b: Block): Block
    decreases MAX_ORDER - b.order
  {
    if b.order >= MAX_ORDER || BuddyOf(b) !in blocks then b else Merged(blocks, Parent(b))
  }

  /** The block of order k around b. */
  function Ancestor(b: Block, k: nat): Block
    decreases k
  {
    if k <= b.order then b else Parent(Ancestor(b, k - 1))
  }

  /** The free lists once the buddies of b and of its ancestors below order m are unlinked. */
  function AreasAfterMerges(areas: seq<Area>, b: Block, m: nat): (r: seq<Area>)
    ensures |r| == |areas|
  {
    seq(|areas|, j requires 0 <= j < |areas| =>
      if b.order <= j < m && areas[j].blocksFree > 0 then
        Area(Without(areas[j].blocks, BuddyOf(Ancestor(b, j)).start), areas[j].blocksFree - 1)
      else areas[j])
  }

  /** The free lists after freeing b when it ends up in a block of order m. */
  function AreasAfterFree(areas: seq<Area>, b: Block, m: nat): seq<Area>
    requires m < |areas|
  {
    AreasAfterMerges(areas, b, m)[m := Area([Ancestor(b, m).start] + areas[m].blocks, areas[m].blocksFree + 1)]
  }

  /** The smallest order from k up whose list is not empty, or past the last one. */
  function FirstFit(areas: seq<Area>, k: nat): (r: nat)
    ensures k <= |areas| ==> k <= r <= |areas|
    ensures r < |areas| ==> areas[r].blocksFree > 0
    ensures forall j :: k <= j < r && j < |areas| ==> areas[j].blocksFree == 0
    decreases |areas| - k
  {
    if k >= |areas| || areas[k].blocksFree > 0 then k else FirstFit(areas, k + 1)
  }

  /** The free lists after splitting the first block of order m down to order k: each order in
      between gains the lower half, and the upper half is split on. */
  function AreasAfterAlloc(areas: seq<Area>, k: nat, m: nat): seq<Area>
    requires m < |areas| && areas[m].blocks != [] && areas[m].blocksFree > 0
  {
    var b := areas[m].blocks[0];
    seq(|areas|, j requires 0 <= j < |areas| =>
      if j == m then Area(areas[m].blocks[1..], areas[m].blocksFree - 1)
      else if k <= j < m && Pow2(j + 1) <= Pow2(m) then
        Area([b + (Pow2(m) - Pow2(j + 1))] + areas[j].blocks, areas[j].blocksFree + 1)
      else areas[j])
  }

  // ----- linking and unlinking one block, on values

  /** A zone's free lists and page counter. */
  datatype ZoneVal = ZoneVal(areas: seq<Area>, pgFree: nat)

  function UnlinkPage(pages: seq<Page>, p: nat): (r: seq<Page>)
    requires p < |pages|
    ensures |r| == |pages|
  {
    pages[p := pages[p].(buddy := false)]
  }

  function LinkPage(pages: seq<Page>, p: nat, k: nat): (r: seq<Page>)
    requires p < |pages|
    ensures |r| == |pages|
  {
    pages[p := pages[p].(buddy := true, order := k)]
  }

  function UnlinkArea(areas: seq<Area>, k: nat, p: nat): (r: seq<Area>)
    requires k < |areas| && areas[k].blocksFree > 0
    ensures |r| == |areas|
  {
    areas[k := Area(Without(areas[k].blocks, p), areas[k].blocksFree - 1)]
  }

  function LinkArea(areas: seq<Area>, k: nat, p: nat): (r: seq<Area>)
    requires k < |areas|
    ensures |r| == |areas|
  {
    areas[k := Area([p] + areas[k].blocks, areas[k].blocksFree + 1)]
  }

  function WithAreas(zones: seq<ZoneVal>, t: nat, areas: seq<Area>): (r: seq<ZoneVal>)
    requires t < |zones|
    ensures |r| == |zones| && r[t].areas == areas
  {
    zones[t := zones[t].(areas := areas)]
  }

  // ----- list and counter lemmas

  lemma {:induction false} CountedAfterUpdate(areas: seq<Area>, k: nat, a: Area)
    requires k < |areas|
    ensures CountedPages(areas[k := a]) + Shl(areas[k].blocksFree, k)
         == CountedPages(areas) + Shl(a.blocksFree, k)
  {
    var n := |areas| - 1;
    if k == n {
      assert areas[k := a][..n] == areas[..n];
    } else {
      assert areas[k := a][..n] == areas[..n][k := a];
      CountedAfterUpdate(areas[..n], k, a);
    }
  }

  // ----- aligned blocks never straddle zones

  lemma BlockInOneZone(b: Block)
    requires Wf(b)
    ensures forall p :: In(p, b) ==> ZoneOf(p) == ZoneOf(b.start)
  {
    assert Pow2(12) == 0x1000 && Pow2(16) == 0x10000;
    AlignedIsDivisible(0, 12);
    AlignedIsDivisible(0x20000, 16);
    forall p | In(p, b)
      ensures ZoneOf(p) == ZoneOf(b.start)
    {
      if b.start < NORMAL_START <= p {
        Nested(b, Block(0, 12), NORMAL_START - 1);
      } else if b.start < HIGH_START <= p {
        Nested(b, Block(0x20000, 16), HIGH_START - 1);
      }
    }
  }

  // ----- one list operation at the level of values

  lemma RemovedBlock(pages: seq<Page>, p: nat)
    requires p < |pages| && pages[p].buddy && PagesOk(pages)
    ensures var pages' := UnlinkPage(pages, p);
            && BlocksIn(pages') == BlocksIn(pages) - {Block(p, pages[p].order)}
            && PagesOf(BlocksIn(pages')) == PagesOf(BlocksIn(pages)) - Pages(Block(p, pages[p].order))
            && Pages(Block(p, pages[p].order)) <= PagesOf(BlocksIn(pages))
            && PagesOk(pages')
  {
    var b := Block(p, pages[p].order);
    var pages' := UnlinkPage(pages, p);
    var blocks := BlocksIn(pages);
    assert b in blocks;
    assert BlocksIn(pages') == blocks - {b};
    RemoveFromDisjoint(blocks, b);
  }

  lemma RemoveFromDisjoint(blocks: set<Block>, b: Block)
    requires PairwiseDisjoint(blocks) && b in blocks
    ensures PagesOf(blocks - {b}) == PagesOf(blocks) - Pages(b)
    ensures Pages(b) <= PagesOf(blocks)
  {
    forall p | p in PagesOf(blocks - {b})
      ensures p in PagesOf(blocks) && p !in Pages(b)
    {
      var c :| c in blocks - {b} && In(p, c);
      assert c in blocks && Disjoint(b, c);
    }
    forall p | p in PagesOf(blocks) && p !in Pages(b)
      ensures p in PagesOf(blocks - {b})
    {
      var c :| c in blocks && In(p, c);
      assert c in blocks - {b};
    }
  }

  lemma AddedBlock(pages: seq<Page>, b: Block)
    requires PagesOk(pages) && Releasable(pages, b)
    requires b.order < MAX_ORDER ==> BuddyOf(b) !in BlocksIn(pages)
    ensures var pages' := LinkPage(pages, b.start, b.order);
            && BlocksIn(pages') == BlocksIn(pages) + {b}
            && PagesOf(BlocksIn(pages')) == PagesOf(BlocksIn(pages)) + Pages(b)
            && PagesOk(pages')
  {
    var pages' := LinkPage(pages, b.start, b.order);
    var blocks := BlocksIn(pages);
    assert In(b.start, b);
    StartNotFree(pages, b.start);
    assert BlocksIn(pages') == blocks + {b};
    forall c | c in blocks
      ensures Disjoint(b, c)
    {
      ReleasableDisjoint(pages, b, c);
    }
    AddToCoalesced(blocks, b);
  }

  lemma AddToCoalesced(blocks: set<Block>, b: Block)
    requires Coalesced(blocks) && Wf(b)
    requires forall c :: c in blocks ==> Disjoint(b, c)
    requires b.order < MAX_ORDER ==> BuddyOf(b) !in blocks
    ensures Coalesced(blocks + {b})
    ensures PagesOf(blocks + {b}) == PagesOf(blocks) + Pages(b)
  {
    forall c | c in blocks + {b} && c.order < MAX_ORDER
      ensures BuddyOf(c) !in blocks + {b}
    {
      BuddyGeometry(c);
    }
    assert b in blocks + {b};
    assert forall p :: In(p, b) ==> p in PagesOf(blocks + {b});
  }

  lemma StartNotFree(pages: seq<Page>, p: nat)
    requires p < |pages| && p !in PagesOf(BlocksIn(pages))
    ensures !pages[p].buddy
  {
    if pages[p].buddy {
      assert In(p, Block(p, pages[p].order));
    }
  }

  lemma ReleasableDisjoint(pages: seq<Page>, b: Block, c: Block)
    requires Releasable(pages, b) && c in BlocksIn(pages)
    ensures Disjoint(b, c)
  {
    var p := if b.start <= c.start then c.start else b.start;
    assert In(p, c) ==> p in PagesOf(BlocksIn(pages));
    assert In(p, b) ==> p !in PagesOf(BlocksIn(pages));
  }

  /** Unlinking a block from its zone's list keeps the lists in step with the page flags. */
  lemma ZoneAfterRemove(pages: seq<Page>, t: nat, areas: seq<Area>, pgFree: nat, p: nat, k: nat)
    requires ZoneOk(pages, t, areas, pgFree) && k <= MAX_ORDER && p in areas[k].blocks
    ensures Lists(pages, t, k, p) && areas[k].blocksFree > 0
    ensures Pow2(k) <= pgFree
    ensures ZoneOk(UnlinkPage(pages, p), t, UnlinkArea(areas, k, p), pgFree - Pow2(k))
  {
    var pages' := UnlinkPage(pages, p);
    var a := Area(Without(areas[k].blocks, p), areas[k].blocksFree - 1);
    WithoutContents(areas[k].blocks, p);
    assert AreaOk(pages', t, k, a);
    forall j | 0 <= j <= MAX_ORDER && j != k
      ensures AreaOk(pages', t, j, areas[j])
    {
      OtherAreaUntouched(pages, pages', t, j, areas[j], p);
    }
    CountedAfterUpdate(areas, k, a);
  }

  /** Linking a block at the head of its zone's list does too. */
  lemma ZoneAfterAdd(pages: seq<Page>, t: nat, areas: seq<Area>, pgFree: nat, p: nat, k: nat)
    requires ZoneOk(pages, t, areas, pgFree) && k <= MAX_ORDER
    requires p < |pages| && !pages[p].buddy && ZoneOf(p) == t
    ensures ZoneOk(LinkPage(pages, p, k), t, LinkArea(areas, k, p), pgFree + Pow2(k))
  {
    var pages' := LinkPage(pages, p, k);
    var a := Area([p] + areas[k].blocks, areas[k].blocksFree + 1);
    LinkedAtHead(pages, t, k, areas[k], p);
    forall j | 0 <= j <= MAX_ORDER && j != k
      ensures AreaOk(pages', t, j, areas[j])
    {
      OtherAreaUntouched(pages, pages', t, j, areas[j], p);
    }
    CountedAfterUpdate(areas, k, a);
  }

  lemma LinkedAtHead(pages: seq<Page>, t: nat, k: nat, area: Area, p: nat)
    requires AreaOk(pages, t, k, area)
    requires p < |pages| && !pages[p].buddy && ZoneOf(p) == t
    ensures AreaOk(LinkPage(pages, p, k), t, k, Area([p] + area.blocks, area.blocksFree + 1))
  {
    var pages' := LinkPage(pages, p, k);
    assert !Lists(pages, t, k, p);
    forall q
      ensures q in [p] + area.blocks <==> Lists(pages', t, k, q)
    {
      assert q in area.blocks <==> Lists(pages, t, k, q);
    }
  }

  /** A page that a list does not concern, before or after, leaves that list right. */
  lemma OtherAreaUntouched(pages: seq<Page>, pages': seq<Page>, t: nat, j: nat, area: Area, p: nat)
    requires AreaOk(pages, t, j, area) && p < |pages| == |pages'|
    requires pages' == pages[p := pages'[p]]
    requires !Lists(pages, t, j, p) && !Lists(pages', t, j, p)
    ensures AreaOk(pages', t, j, area)
  {
    forall q
      ensures q in area.blocks <==> Lists(pages', t, j, q)
    {
      assert q in area.blocks <==> Lists(pages, t, j, q);
    }
  }

  /** A change to a page of one zone leaves the other zones' lists in step. */
  lemma OtherZoneUntouched(pages: seq<Page>, pages': seq<Page>, t: nat, areas: seq<Area>, pgFree: nat, p: nat)
    requires ZoneOk(pages, t, areas, pgFree) && p < |pages| && ZoneOf(p) != t
    requires |pages'| == |pages| && pages' == pages[p := pages'[p]]
    ensures ZoneOk(pages', t, areas, pgFree)
  {
    forall k | 0 <= k <= MAX_ORDER
      ensures AreaOk(pages', t, k, areas[k])
    {
      OtherAreaUntouched(pages, pages', t, k, areas[k], p);
    }
  }

  // ----- one step of coalescing

  /** When the buddy of a releasable block is unlinked, the parent becomes releasable. */
  lemma MergeStep(pages: seq<Page>, b: Block)
    requires PagesOk(pages) && Releasable(pages, b) && b.order < MAX_ORDER && BuddyOf(b) in BlocksIn(pages)
    ensures ZoneOf(BuddyOf(b).start) == ZoneOf(b.start) == ZoneOf(Parent(b).start)
    ensures Releasable(UnlinkPage(pages, BuddyOf(b).start), Parent(b))
    ensures Pages(Parent(b)) == Pages(b) + Pages(BuddyOf(b))
  {
    var c := BuddyOf(b);
    var pages' := UnlinkPage(pages, c.start);
    BuddyGeometry(b);
    BlockInOneZone(Parent(b));
    assert In(b.start, b) && In(c.start, c);
    RemovedBlock(pages, c.start);
    forall p: nat | In(p, Parent(b))
      ensures !pages'[p].reserved && pages'[p].zoneType == ZoneOf(p) && p !in PagesOf(BlocksIn(pages'))
    {
      assert In(p, b) || In(p, c);
    }
  }

  // ----- the whole state

  /** The allocator's invariant for the zones below `up` that have been initialised.  In the middle
      of an operation on zone t its page counter is ahead of its lists by `extra` pages, those of
      a block that is on no list. */
  ghost predicate StateOk(pages: seq<Page>, zones: seq<ZoneVal>, up: nat, t: nat, extra: nat) {
    && |zones| == 3
    && PagesOk(pages)
    && (forall p :: 0 <= p < |pages| && pages[p].buddy ==> ZoneOf(p) < up)
    && (forall s :: 0 <= s < 3 && s < up ==> OneZoneOk(pages, s, zones[s], if s == t then extra else 0))
  }

  ghost predicate OneZoneOk(pages: seq<Page>, s: nat, zone: ZoneVal, extra: nat) {
    extra <= zone.pgFree && ZoneOk(pages, s, zone.areas, zone.pgFree - extra)
  }

  lemma OtherZonesUntouched(pages: seq<Page>, pages': seq<Page>, zones: seq<ZoneVal>,
                            up: nat, t: nat, extra: nat, p: nat)
    requires StateOk(pages, zones, up, t, extra) && p < |pages| && ZoneOf(p) == t
    requires |pages'| == |pages| && pages' == pages[p := pages'[p]]
    ensures forall s :: 0 <= s < 3 && s < up && s != t ==> OneZoneOk(pages', s, zones[s], 0)
  {
    forall s | 0 <= s < 3 && s < up && s != t
      ensures OneZoneOk(pages', s, zones[s], 0)
    {
      assert OneZoneOk(pages, s, zones[s], 0);
      OtherZoneUntouched(pages, pages', s, zones[s].areas, zones[s].pgFree, p);
    }
  }

  lemma AssembleState(pages: seq<Page>, zones: seq<ZoneVal>, up: nat, t: nat, zone: ZoneVal, extra: nat)
    requires |zones| == 3 && t < 3 && PagesOk(pages)
    requires forall p :: 0 <= p < |pages| && pages[p].buddy ==> ZoneOf(p) < up
    requires OneZoneOk(pages, t, zone, extra)
    requires forall s :: 0 <= s < 3 && s < up && s != t ==> OneZoneOk(pages, s, zones[s], 0)
    ensures StateOk(pages, zones[t := zone], up, t, extra)
  {
  }

  /** Raising a zone's page counter ahead of linking a block. */
  lemma BumpCounter(pages: seq<Page>, zones: seq<ZoneVal>, up: nat, t: nat, extra: nat)
    requires StateOk(pages, zones, up, 0, 0) && t < 3 && t < up
    ensures StateOk(pages, zones[t := zones[t].(pgFree := zones[t].pgFree + extra)], up, t, extra)
  {
    assert forall s :: 0 <= s < 3 && s < up ==> OneZoneOk(pages, s, zones[s], 0);
  }

  /** Unlinking a free block keeps the invariant, with the block now pending. */
  lemma TakeKeepsState(pages: seq<Page>, zones: seq<ZoneVal>, up: nat, t: nat, extra: nat, k: nat, p: nat)
    requires StateOk(pages, zones, up, t, extra) && t < 3 && t < up && k <= MAX_ORDER
    requires |zones[t].areas| == MAX_ORDER + 1 && p in zones[t].areas[k].blocks
    ensures Lists(pages, t, k, p) && zones[t].areas[k].blocksFree > 0
    ensures StateOk(UnlinkPage(pages, p), WithAreas(zones, t, UnlinkArea(zones[t].areas, k, p)), up, t, extra + Pow2(k))
  {
    assert OneZoneOk(pages, t, zones[t], extra);
    ZoneAfterRemove(pages, t, zones[t].areas, zones[t].pgFree - extra, p, k);
    assert PagesOk(UnlinkPage(pages, p)) by {
      RemovedBlock(pages, p);
    }
    OtherZonesUntouched(pages, UnlinkPage(pages, p), zones, up, t, extra, p);
    AssembleState(UnlinkPage(pages, p), zones, up, t,
                  ZoneVal(UnlinkArea(zones[t].areas, k, p), zones[t].pgFree), extra + Pow2(k));
  }

  /** Linking the pending block, once its buddy is not free, keeps the invariant. */
  lemma PutKeepsState(pages: seq<Page>, zones: seq<ZoneVal>, up: nat, t: nat, extra: nat, k: nat, p: nat)
    requires StateOk(pages, zones, up, t, extra) && t < 3 && t < up && k <= MAX_ORDER
    requires |zones[t].areas| == MAX_ORDER + 1 && Pow2(k) <= extra
    requires Releasable(pages, Block(p, k)) && ZoneOf(p) == t
    requires k < MAX_ORDER ==> BuddyOf(Block(p, k)) !in BlocksIn(pages)
    ensures p < |pages| && !pages[p].buddy
    ensures StateOk(LinkPage(pages, p, k), WithAreas(zones, t, LinkArea(zones[t].areas, k, p)), up, t, extra - Pow2(k))
  {
    hide PagesOk, ZoneOk, BlocksIn, PagesOf, Releasable, BuddyOf, Pow2, LinkArea;
    ReleasableFacts(pages, Block(p, k));
    assert PagesOk(LinkPage(pages, p, k)) by {
      AddedBlock(pages, Block(p, k));
    }
    var zone' := ZoneVal(LinkArea(zones[t].areas, k, p), zones[t].pgFree);
    assert OneZoneOk(LinkPage(pages, p, k), t, zone', extra - Pow2(k)) by {
      assert OneZoneOk(pages, t, zones[t], extra);
      ZoneAfterAdd(pages, t, zones[t].areas, zones[t].pgFree - extra, p, k);
    }
    OtherZonesUntouched(pages, LinkPage(pages, p, k), zones, up, t, extra, p);
    AssembleState(LinkPage(pages, p, k), zones, up, t, zone', extra - Pow2(k));
  }

  // ----- the coalescing loop of buddy_free_page

  predicate SameAttributes(pages0: seq<Page>, pages: seq<Page>) {
    && |pages| == |pages0|
    && forall p :: 0 <= p < |pages| ==>
         pages[p].reserved == pages0[p].reserved && pages[p].zoneType == pages0[p].zoneType
  }

  lemma KeptAsIs(pages: seq<Page>)
    ensures SameAttributes(pages, pages)
  {
  }

  lemma ReleasableFacts(pages: seq<Page>, b: Block)
    requires Releasable(pages, b)
    ensures b.start < |pages| && pages[b.start].zoneType == ZoneOf(b.start) && !pages[b.start].buddy
  {
    assert In(b.start, b);
    StartNotFree(pages, b.start);
  }

  /** Freeing b0 from (pages0, zones0) has so far merged it into b. */
  ghost predicate Coalescing(pages0: seq<Page>, zones0: seq<ZoneVal>, b0: Block, up: nat, t: nat,
                             pages: seq<Page>, zones: seq<ZoneVal>, b: Block) {
    && t < 3 && t < up && |zones0| == |zones| == 3
    && |zones0[t].areas| == |zones[t].areas| == MAX_ORDER + 1
    && b.order <= MAX_ORDER && b.start < |pages|
    && StateOk(pages, zones, up, t, Pow2(b.order))
    && Releasable(pages, b) && ZoneOf(b.start) == t
    && b0.order <= b.order && b == Ancestor(b0, b.order)
    && PagesOf(BlocksIn(pages)) + Pages(b) == PagesOf(BlocksIn(pages0)) + Pages(b0)
    && HighBlocksKept(pages0, pages, b.order)
    && Merged(BlocksIn(pages0), b0) == Merged(BlocksIn(pages0), b)
    && MergedZones(zones0, t, b0, b.order, zones)
    && SameAttributes(pages0, pages)
  }

  ghost predicate MergedZones(zones0: seq<ZoneVal>, t: nat, b: Block, m: nat, zones: seq<ZoneVal>) {
    && t < |zones0|
    && zones == zones0[t := ZoneVal(AreasAfterMerges(zones0[t].areas, b, m), zones0[t].pgFree + Pow2(b.order))]
  }

  ghost predicate HighBlocksKept(pages0: seq<Page>, pages: seq<Page>, k: nat) {
    forall c: Block :: c.order >= k ==> (c in BlocksIn(pages) <==> c in BlocksIn(pages0))
  }

  /** What the loop body reads off its invariant. */
  lemma CoalescingFacts(pages0: seq<Page>, zones0: seq<ZoneVal>, b0: Block, up: nat, t: nat,
                        pages: seq<Page>, zones: seq<ZoneVal>, b: Block)
    requires Coalescing(pages0, zones0, b0, up, t, pages, zones, b)
    ensures t < 3 && |zones| == 3 && |zones[t].areas| == MAX_ORDER + 1
    ensures b.order <= MAX_ORDER && b.start < |pages| && |pages| == |pages0|
    ensures Aligned(b.start, b.order)
    ensures BuddyOf(b) in BlocksIn(pages) <==>
              BuddyOf(b).start < |pages| && pages[BuddyOf(b).start].buddy && pages[BuddyOf(b).start].order == b.order
    ensures BuddyOf(b) in BlocksIn(pages) && b.order < MAX_ORDER ==> zones[t].areas[b.order].blocksFree > 0
  {
    if BuddyOf(b) in BlocksIn(pages) && b.order < MAX_ORDER {
      BuddyIsListed(pages, zones, up, t, b);
    }
  }

  lemma CoalesceStart(pages: seq<Page>, zones: seq<ZoneVal>, b: Block, up: nat, t: nat)
    requires StateOk(pages, zones, up, 0, 0) && t < 3 && t < up && Releasable(pages, b) && ZoneOf(b.start) == t
    ensures Coalescing(pages, zones, b, up, t, pages,
                       zones[t := zones[t].(pgFree := zones[t].pgFree + Pow2(b.order))], b)
  {
    BumpCounter(pages, zones, up, t, Pow2(b.order));
    assert OneZoneOk(pages, t, zones[t], 0);
    assert AreasAfterMerges(zones[t].areas, b, b.order) == zones[t].areas;
  }

  lemma CoalesceStep(pages0: seq<Page>, zones0: seq<ZoneVal>, b0: Block, up: nat, t: nat,
                     pages: seq<Page>, zones: seq<ZoneVal>, b: Block)
    requires Coalescing(pages0, zones0, b0, up, t, pages, zones, b)
    requires b.order < MAX_ORDER && BuddyOf(b) in BlocksIn(pages)
    ensures zones[t].areas[b.order].blocksFree > 0
    ensures Coalescing(pages0, zones0, b0, up, t, UnlinkPage(pages, BuddyOf(b).start),
                       WithAreas(zones, t, UnlinkArea(zones[t].areas, b.order, BuddyOf(b).start)), Parent(b))
  {
    hide StateOk, Releasable, BlocksIn, PagesOf, Pages, AreasAfterMerges, Ancestor, HighBlocksKept, SameAttributes,
         UnlinkPage, UnlinkArea, WithAreas, BuddyOf, Merged, ZoneOf, PagesOk, Aligned, MergedZones;
    var p, k := BuddyOf(b).start, b.order;
    BuddyIsListed(pages, zones, up, t, b);
    var pages' := UnlinkPage(pages, p);
    var zones' := WithAreas(zones, t, UnlinkArea(zones[t].areas, k, p));
    assert StateOk(pages', zones', up, t, Pow2(k + 1)) by {
      TakeKeepsState(pages, zones, up, t, Pow2(k), k, p);
    }
    assert Releasable(pages', Parent(b)) && ZoneOf(Parent(b).start) == t by {
      MergeStep(pages, b);
    }
    assert PagesOf(BlocksIn(pages')) + Pages(Parent(b)) == PagesOf(BlocksIn(pages0)) + Pages(b0) by {
      MergeCovers(pages, b);
    }
    MergeGoesOn(pages0, pages, b);
    MergesExtend(zones0, zones, t, b0, k, b);
    UnlinkKeepsAttributes(pages0, pages, p);
    assert Parent(b) == Ancestor(b0, k + 1) by {
      AncestorUp(b0, k);
    }
    assert Parent(b).start < |pages'|;
  }

  lemma UnlinkKeepsAttributes(pages0: seq<Page>, pages: seq<Page>, p: nat)
    requires SameAttributes(pages0, pages) && p < |pages|
    ensures SameAttributes(pages0, UnlinkPage(pages, p))
  {
  }

  lemma LinkKeepsAttributes(pages0: seq<Page>, pages: seq<Page>, p: nat, k: nat)
    requires SameAttributes(pages0, pages) && p < |pages|
    ensures SameAttributes(pages0, LinkPage(pages, p, k))
  {
  }

  lemma AncestorUp(b: Block, k: nat)
    requires b.order <= k
    ensures Ancestor(b, k + 1) == Parent(Ancestor(b, k))
  {
  }

  lemma MergeGoesOn(pages0: seq<Page>, pages: seq<Page>, b: Block)
    requires PagesOk(pages) && HighBlocksKept(pages0, pages, b.order)
    requires b.order < MAX_ORDER && BuddyOf(b) in BlocksIn(pages)
    ensures HighBlocksKept(pages0, UnlinkPage(pages, BuddyOf(b).start), b.order + 1)
    ensures Merged(BlocksIn(pages0), b) == Merged(BlocksIn(pages0), Parent(b))
  {
    RemovedBlock(pages, BuddyOf(b).start);
    assert BuddyOf(b) in BlocksIn(pages0);
  }

  lemma MergeCovers(pages: seq<Page>, b: Block)
    requires PagesOk(pages) && Releasable(pages, b)
    requires b.order < MAX_ORDER && BuddyOf(b) in BlocksIn(pages)
    ensures PagesOf(BlocksIn(UnlinkPage(pages, BuddyOf(b).start))) + Pages(Parent(b))
         == PagesOf(BlocksIn(pages)) + Pages(b)
  {
    MergeStep(pages, b);
    RemovedBlock(pages, BuddyOf(b).start);
  }

  lemma BuddyIsListed(pages: seq<Page>, zones: seq<ZoneVal>, up: nat, t: nat, b: Block)
    requires StateOk(pages, zones, up, t, Pow2(b.order)) && t < 3 && t < up
    requires Releasable(pages, b) && ZoneOf(b.start) == t
    requires b.order < MAX_ORDER && BuddyOf(b) in BlocksIn(pages)
    ensures PagesOk(pages) && BuddyOf(b).start < |pages| && |zones[t].areas| == MAX_ORDER + 1
    ensures BuddyOf(b).start in zones[t].areas[b.order].blocks && zones[t].areas[b.order].blocksFree > 0
  {
    MergeStep(pages, b);
    assert OneZoneOk(pages, t, zones[t], Pow2(b.order));
    assert AreaOk(pages, t, b.order, zones[t].areas[b.order]);
    assert Lists(pages, t, b.order, BuddyOf(b).start);
  }

  lemma MergesExtend(zones0: seq<ZoneVal>, zones: seq<ZoneVal>, t: nat, b: Block, k: nat, c: Block)
    requires MergedZones(zones0, t, b, k, zones) && b.order <= k < |zones0[t].areas|
    requires t < |zones| && k < |zones[t].areas| && zones[t].areas[k].blocksFree > 0 && c == Ancestor(b, k)
    ensures MergedZones(zones0, t, b, k + 1, WithAreas(zones, t, UnlinkArea(zones[t].areas, k, BuddyOf(c).start)))
  {
    hide Ancestor, BuddyOf, Pow2, UnlinkArea, AreasAfterMerges;
    var areas := AreasAfterMerges(zones0[t].areas, b, k);
    assert zones[t].areas == areas;
    MergesExtendAreas(zones0[t].areas, b, k);
    var areas' := AreasAfterMerges(zones0[t].areas, b, k + 1);
    assert WithAreas(zones, t, areas') == zones0[t := ZoneVal(areas', zones[t].pgFree)];
  }

  lemma MergesExtendAreas(areas: seq<Area>, b: Block, k: nat)
    requires b.order <= k < |areas| == |AreasAfterMerges(areas, b, k)|
    requires AreasAfterMerges(areas, b, k)[k].blocksFree > 0
    ensures UnlinkArea(AreasAfterMerges(areas, b, k), k, BuddyOf(Ancestor(b, k)).start)
         == AreasAfterMerges(areas, b, k + 1)
  {
    hide Ancestor, BuddyOf;
  }

  /** What freeing b does to the zones' lists and counters. */
  ghost predicate FreedAreas(pages0: seq<Page>, zones0: seq<ZoneVal>, b: Block, zones: seq<ZoneVal>) {
    var t := ZoneOf(b.start);
    var m := Merged(BlocksIn(pages0), b).order;
    && t < |zones0| && m < |zones0[t].areas|
    && zones == zones0[t := ZoneVal(AreasAfterFree(zones0[t].areas, b, m), zones0[t].pgFree + Pow2(b.order))]
  }

  /** The loop stops at a block whose buddy is not free; linking it completes the free. */
  lemma CoalesceEnd(pages0: seq<Page>, zones0: seq<ZoneVal>, b0: Block, up: nat, t: nat,
                    pages: seq<Page>, zones: seq<ZoneVal>, b: Block)
    requires Coalescing(pages0, zones0, b0, up, t, pages, zones, b) && ZoneOf(b0.start) == t
    requires b.order < MAX_ORDER ==> BuddyOf(b) !in BlocksIn(pages)
    ensures var pages' := LinkPage(pages, b.start, b.order);
            var zones' := WithAreas(zones, t, LinkArea(zones[t].areas, b.order, b.start));
            && StateOk(pages', zones', up, 0, 0)
            && PagesOf(BlocksIn(pages')) == PagesOf(BlocksIn(pages0)) + Pages(b0)
            && FreedAreas(pages0, zones0, b0, zones')
            && (forall s :: 0 <= s < 3 && s != t ==> zones'[s] == zones0[s])
            && SameAttributes(pages0, pages')
  {
    hide StateOk, Releasable, BlocksIn, PagesOf, Pages, AreasAfterMerges, AreasAfterFree, Ancestor, HighBlocksKept,
         SameAttributes, LinkPage, LinkArea, WithAreas, BuddyOf, Merged, ZoneOf, PagesOk, Pow2, Aligned, Parent, Wf,
         MergedZones;
    var pages' := LinkPage(pages, b.start, b.order);
    var zones' := WithAreas(zones, t, LinkArea(zones[t].areas, b.order, b.start));
    assert Block(b.start, b.order) == b;
    assert StateOk(pages', zones', up, 0, 0) by {
      PutKeepsState(pages, zones, up, t, Pow2(b.order), b.order, b.start);
      NothingPending(pages', zones', up, t);
    }
    assert PagesOk(pages) by {
      StateHasPagesOk(pages, zones, up, t, Pow2(b.order));
    }
    assert PagesOf(BlocksIn(pages')) == PagesOf(BlocksIn(pages)) + Pages(b) by {
      AddedBlock(pages, b);
    }
    assert b == Merged(BlocksIn(pages0), b0) by {
      MergeEnds(pages0, pages, b);
    }
    LinkAfterMerges(zones0, zones, t, b0, b.order);
    LinkKeepsAttributes(pages0, pages, b.start, b.order);
  }

  lemma NothingPending(pages: seq<Page>, zones: seq<ZoneVal>, up: nat, t: nat)
    requires StateOk(pages, zones, up, t, 0)
    ensures StateOk(pages, zones, up, 0, 0)
  {
  }

  lemma StateHasPagesOk(pages: seq<Page>, zones: seq<ZoneVal>, up: nat, t: nat, extra: nat)
    requires StateOk(pages, zones, up, t, extra)
    ensures PagesOk(pages)
  {
  }

  lemma MergeEnds(pages0: seq<Page>, pages: seq<Page>, b: Block)
    requires HighBlocksKept(pages0, pages, b.order)
    requires b.order < MAX_ORDER ==> BuddyOf(b) !in BlocksIn(pages)
    ensures Merged(BlocksIn(pages0), b) == b
  {
  }

  lemma LinkAfterMerges(zones0: seq<ZoneVal>, zones: seq<ZoneVal>, t: nat, b: Block, m: nat)
    requires MergedZones(zones0, t, b, m, zones) && m < |zones0[t].areas|
    requires t < |zones| && m < |zones[t].areas|
    ensures WithAreas(zones, t, LinkArea(zones[t].areas, m, Ancestor(b, m).start))
         == zones0[t := ZoneVal(AreasAfterFree(zones0[t].areas, b, m), zones0[t].pgFree + Pow2(b.order))]
  {
    hide Ancestor, BuddyOf, Pow2;
    assert zones[t].areas == AreasAfterMerges(zones0[t].areas, b, m);
    var areas' := LinkArea(zones[t].areas, m, Ancestor(b, m).start);
    assert areas' == AreasAfterFree(zones0[t].areas, b, m) by {
      assert AreasAfterMerges(zones0[t].areas, b, m)[m] == zones0[t].areas[m];
    }
    assert WithAreas(zones, t, areas') == zones0[t := ZoneVal(areas', zones[t].pgFree)];
  }

  /** All that buddy_free_page does: a misaligned page is refused without effect; otherwise exactly
      the block's pages become free and the lists change as FreedAreas says. */
  ghost predicate FreeDone(pages0: seq<Page>, zones0: seq<ZoneVal>, b: Block, pages: seq<Page>, zones: seq<ZoneVal>) {
    && SameAttributes(pages0, pages)
    && (!Aligned(b.start, b.order) ==> pages == pages0 && zones == zones0)
    && (Aligned(b.start, b.order) ==>
          && PagesOf(BlocksIn(pages)) == PagesOf(BlocksIn(pages0)) + Pages(b)
          && FreedAreas(pages0, zones0, b, zones))
  }

  lemma FreeLeavesOtherZones(pages0: seq<Page>, zones0: seq<ZoneVal>, b: Block, pages: seq<Page>, zones: seq<ZoneVal>)
    requires FreeDone(pages0, zones0, b, pages, zones)
    ensures |zones| == |zones0| && forall s :: 0 <= s < |zones| && s != ZoneOf(b.start) ==> zones[s] == zones0[s]
  {
  }

  // ----- the splitting loop of buddy_alloc_page

  /** The upper half of a block. */
  function UpperHalf(b: Block): Block
    requires b.order > 0
  {
    Block(b.start + Pow2(b.order - 1), b.order - 1)
  }

  /** Allocating order k from (pages0, zones0): the first block of order m, which starts at h, is
      split down to cur, the uppermost part of it. */
  ghost predicate Splitting(pages0: seq<Page>, zones0: seq<ZoneVal>, up: nat, t: nat, m: nat, h: nat,
                            pages: seq<Page>, zones: seq<ZoneVal>, cur: Block) {
    && t < 3 && t < up && |zones0| == |zones| == 3
    && |zones0[t].areas| == |zones[t].areas| == MAX_ORDER + 1
    && cur.order <= m <= MAX_ORDER && cur.start < |pages|
    && SplitZones(zones0, t, cur.order, m, zones) && zones0[t].areas[m].blocks[0] == h
    && cur.start + Pow2(cur.order) == h + Pow2(m)
    && StateOk(pages, zones, up, t, Pow2(cur.order))
    && Releasable(pages, cur) && ZoneOf(cur.start) == t
    && PagesOf(BlocksIn(pages)) + Pages(cur) == PagesOf(BlocksIn(pages0))
    && SameAttributes(pages0, pages)
  }

  /** Taking the first block off the list that the search stopped at. */
  lemma SplitStart(pages: seq<Page>, zones: seq<ZoneVal>, up: nat, t: nat, m: nat)
    requires StateOk(pages, zones, up, 0, 0) && t < 3 && t < up && m <= MAX_ORDER
    requires |zones[t].areas| == MAX_ORDER + 1 && zones[t].areas[m].blocksFree > 0
    ensures zones[t].areas[m].blocks != []
    ensures var h := zones[t].areas[m].blocks[0];
            && h < |pages|
            && Splitting(pages, zones, up, t, m, h, UnlinkPage(pages, h),
                         WithAreas(zones, t, UnlinkArea(zones[t].areas, m, h)), Block(h, m))
  {
    assert OneZoneOk(pages, t, zones[t], 0);
    assert AreaOk(pages, t, m, zones[t].areas[m]);
    var h := zones[t].areas[m].blocks[0];
    HeadIsFree(pages, zones, up, t, m, h);
    var pages' := UnlinkPage(pages, h);
    var zones' := WithAreas(zones, t, UnlinkArea(zones[t].areas, m, h));
    assert StateOk(pages', zones', up, t, Pow2(m)) by {
      NothingPendingAnywhere(pages, zones, up, t);
      TakeKeepsState(pages, zones, up, t, 0, m, h);
    }
    assert UnlinkArea(zones[t].areas, m, h) == AreasAfterAlloc(zones[t].areas, m, m);
    assert zones' == zones[t := ZoneVal(AreasAfterAlloc(zones[t].areas, m, m), zones[t].pgFree)];
  }

  lemma NothingPendingAnywhere(pages: seq<Page>, zones: seq<ZoneVal>, up: nat, t: nat)
    requires StateOk(pages, zones, up, 0, 0)
    ensures StateOk(pages, zones, up, t, 0)
  {
  }

  /** A listed block is free, so unlinking it makes it releasable again. */
  lemma HeadIsFree(pages: seq<Page>, zones: seq<ZoneVal>, up: nat, t: nat, k: nat, p: nat)
    requires StateOk(pages, zones, up, 0, 0) && t < 3 && t < up && k <= MAX_ORDER
    requires |zones[t].areas| == MAX_ORDER + 1 && p in zones[t].areas[k].blocks
    ensures p < |pages| && ZoneOf(p) == t && Releasable(UnlinkPage(pages, p), Block(p, k))
    ensures PagesOf(BlocksIn(UnlinkPage(pages, p))) + Pages(Block(p, k)) == PagesOf(BlocksIn(pages))
  {
    assert OneZoneOk(pages, t, zones[t], 0);
    assert AreaOk(pages, t, k, zones[t].areas[k]);
    assert Lists(pages, t, k, p);
    assert Block(p, k) in BlocksIn(pages);
    RemovedBlock(pages, p);
    assert InMemory(pages, Block(p, k));
  }

  /** One split: the lower half goes on its list, the upper half is split on. */
  lemma SplitStep(pages0: seq<Page>, zones0: seq<ZoneVal>, up: nat, t: nat, m: nat, h: nat,
                  pages: seq<Page>, zones: seq<ZoneVal>, cur: Block)
    requires Splitting(pages0, zones0, up, t, m, h, pages, zones, cur) && cur.order > 0
    ensures Aligned(cur.start, cur.order - 1) && BuddyOf(Block(cur.start, cur.order - 1)) == UpperHalf(cur)
    ensures UpperHalf(cur).start < |pages|
    ensures Splitting(pages0, zones0, up, t, m, h, LinkPage(pages, cur.start, cur.order - 1),
                      WithAreas(zones, t, LinkArea(zones[t].areas, cur.order - 1, cur.start)), UpperHalf(cur))
  {
    hide StateOk, Releasable, BlocksIn, PagesOf, Pages, AreasAfterAlloc, SameAttributes, PagesOk, LinkPage, LinkArea,
         WithAreas, ZoneOf, BuddyOf, Aligned, FirstFit, SplitZones;
    var k := cur.order - 1;
    var lo := Block(cur.start, k);
    var pages' := LinkPage(pages, cur.start, k);
    var zones' := WithAreas(zones, t, LinkArea(zones[t].areas, k, cur.start));
    StateHasPagesOk(pages, zones, up, t, Pow2(cur.order));
    SplitHalves(pages, cur);
    assert StateOk(pages', zones', up, t, Pow2(k)) by {
      PutKeepsState(pages, zones, up, t, Pow2(cur.order), k, cur.start);
    }
    LinkKeepsAttributes(pages0, pages, cur.start, k);
    SplitAreas(zones0, zones, t, k, m, cur.start);
  }

  lemma SplitHalves(pages: seq<Page>, cur: Block)
    requires PagesOk(pages) && Releasable(pages, cur) && cur.order > 0 && cur.start < |pages|
    ensures var lo := Block(cur.start, cur.order - 1);
            && Aligned(lo.start, lo.order) && BuddyOf(lo) == UpperHalf(cur)
            && UpperHalf(cur).start < |pages|
            && Releasable(pages, lo) && BuddyOf(lo) !in BlocksIn(pages)
            && ZoneOf(lo.start) == ZoneOf(UpperHalf(cur).start) == ZoneOf(cur.start)
            && Releasable(LinkPage(pages, lo.start, lo.order), UpperHalf(cur))
            && PagesOf(BlocksIn(LinkPage(pages, lo.start, lo.order))) + Pages(UpperHalf(cur))
            == PagesOf(BlocksIn(pages)) + Pages(cur)
  {
    hide PagesOf, BlocksIn, PagesOk, InMemory, Aligned, Pow2, BuddyOf, UpperHalf;
    var lo, hi := Block(cur.start, cur.order - 1), UpperHalf(cur);
    HalvesGeometry(cur);
    assert hi.start < |pages| by {
      assert InMemory(pages, cur) && In(hi.start, cur);
      InsideMemory(pages, cur, hi.start);
    }
    SubBlockReleasable(pages, cur, lo);
    SubBlockReleasable(pages, cur, hi);
    LowerHalfLinked(pages, cur, lo, hi);
  }

  lemma InsideMemory(pages: seq<Page>, b: Block, p: nat)
    requires InMemory(pages, b) && In(p, b)
    ensures p < |pages|
  {
  }

  lemma HalvesGeometry(cur: Block)
    requires Wf(cur) && cur.order > 0
    ensures var (lo, hi) := (Block(cur.start, cur.order - 1), UpperHalf(cur));
            && Wf(lo) && Wf(hi) && hi == BuddyOf(lo) && Disjoint(lo, hi) && In(hi.start, cur)
            && ZoneOf(hi.start) == ZoneOf(cur.start)
            && forall p :: In(p, cur) <==> In(p, lo) || In(p, hi)
  {
    var lo, hi := Block(cur.start, cur.order - 1), UpperHalf(cur);
    AlignedWeaken(cur.start, lo.order, cur.order);
    HalvesOf(cur.start, lo.order, lo, hi);
    AlignedPlusPow2(cur.start, lo.order);
    BlockInOneZone(cur);
    assert In(hi.start, hi);
  }

  lemma LowerHalfLinked(pages: seq<Page>, cur: Block, lo: Block, hi: Block)
    requires PagesOk(pages) && Releasable(pages, lo) && Releasable(pages, hi) && lo.order < MAX_ORDER
               && hi == BuddyOf(lo)
    requires lo.start < |pages| && Disjoint(lo, hi) && forall p :: In(p, cur) <==> In(p, lo) || In(p, hi)
    ensures hi !in BlocksIn(pages)
    ensures Releasable(LinkPage(pages, lo.start, lo.order), hi)
    ensures PagesOf(BlocksIn(LinkPage(pages, lo.start, lo.order))) + Pages(hi) == PagesOf(BlocksIn(pages)) + Pages(cur)
  {
    hide PagesOk, BuddyOf;
    assert hi !in BlocksIn(pages) by {
      assert In(hi.start, hi) && hi.start !in PagesOf(BlocksIn(pages));
    }
    AddedBlock(pages, lo);
  }

  lemma SubBlockReleasable(pages: seq<Page>, b: Block, c: Block)
    requires Releasable(pages, b) && Wf(c) && c.start < |pages|
    requires forall p :: In(p, c) ==> In(p, b)
    ensures Releasable(pages, c)
  {
    assert In(c.start + Pow2(c.order) - 1, c);
  }

  /** The zones while a block taken from order m is being split, with the part of order k pending. */
  ghost predicate SplitZones(zones0: seq<ZoneVal>, t: nat, k: nat, m: nat, zones: seq<ZoneVal>) {
    && t < |zones0| && m < |zones0[t].areas| && zones0[t].areas[m].blocks != [] && zones0[t].areas[m].blocksFree > 0
    && zones == zones0[t := ZoneVal(AreasAfterAlloc(zones0[t].areas, k, m), zones0[t].pgFree)]
  }

  lemma SplitAreas(zones0: seq<ZoneVal>, zones: seq<ZoneVal>, t: nat, k: nat, m: nat, p: nat)
    requires k < m && SplitZones(zones0, t, k + 1, m, zones)
    requires t < |zones| && k < |zones[t].areas| && p + Pow2(k + 1) == zones0[t].areas[m].blocks[0] + Pow2(m)
    ensures SplitZones(zones0, t, k, m, WithAreas(zones, t, LinkArea(zones[t].areas, k, p)))
  {
    hide Pow2, LinkArea, AreasAfterAlloc;
    assert zones[t].areas == AreasAfterAlloc(zones0[t].areas, k + 1, m);
    SplitAreasStep(zones0[t].areas, k, m, p);
    var areas' := AreasAfterAlloc(zones0[t].areas, k, m);
    assert WithAreas(zones, t, areas') == zones0[t := ZoneVal(areas', zones[t].pgFree)];
  }

  lemma SplitAreasStep(areas: seq<Area>, k: nat, m: nat, p: nat)
    requires k < m < |areas| && areas[m].blocks != [] && areas[m].blocksFree > 0
    requires p + Pow2(k + 1) == areas[m].blocks[0] + Pow2(m)
    ensures LinkArea(AreasAfterAlloc(areas, k + 1, m), k, p) == AreasAfterAlloc(areas, k, m)
  {
    Pow2Monotone(k + 1, m);
  }

  /** What allocating a block of order k does to the zones' lists and counters: the first block of
      the smallest order that has one is split, its uppermost part p is handed out. */
  ghost predicate AllocatedAreas(zones0: seq<ZoneVal>, t: nat, k: nat, p: nat, zones: seq<ZoneVal>) {
    && t < |zones0|
    && var m := FirstFit(zones0[t].areas, k);
       && m < |zones0[t].areas| && zones0[t].areas[m].blocks != []
       && p + Pow2(k) == zones0[t].areas[m].blocks[0] + Pow2(m)
       && Pow2(k) <= zones0[t].pgFree
       && zones == zones0[t := ZoneVal(AreasAfterAlloc(zones0[t].areas, k, m), zones0[t].pgFree - Pow2(k))]
  }

  lemma AllocFacts(pages: seq<Page>, zones: seq<ZoneVal>, up: nat, t: nat)
    requires StateOk(pages, zones, up, 0, 0) && t < 3 && t < up
    ensures |zones| == 3 && |zones[t].areas| == MAX_ORDER + 1
  {
    assert OneZoneOk(pages, t, zones[t], 0);
  }

  lemma SplittingFacts(pages0: seq<Page>, zones0: seq<ZoneVal>, up: nat, t: nat, m: nat, h: nat,
                       pages: seq<Page>, zones: seq<ZoneVal>, cur: Block)
    requires Splitting(pages0, zones0, up, t, m, h, pages, zones, cur)
    ensures t < 3 && |zones| == 3 && |zones[t].areas| == MAX_ORDER + 1
    ensures cur.order <= m <= MAX_ORDER && cur.start < |pages|
  {
  }

  lemma AllocatedRunWasFree(pages0: seq<Page>, pages: seq<Page>, t: nat, b: Block)
    requires Releasable(pages, b) && ZoneOf(b.start) == t && Pages(b) <= PagesOf(BlocksIn(pages0))
    ensures FreeRun(pages0, t, b.order, b)
  {
    assert forall p :: In(p, b) ==> p in Pages(b);
  }

  /** Lowering the page counter completes the allocation. */
  lemma SplitEnd(pages0: seq<Page>, zones0: seq<ZoneVal>, up: nat, t: nat, k: nat, h: nat,
                 pages: seq<Page>, zones: seq<ZoneVal>, cur: Block)
    requires t < |zones0| && FirstFit(zones0[t].areas, k) <= MAX_ORDER
    requires Splitting(pages0, zones0, up, t, FirstFit(zones0[t].areas, k), h, pages, zones, cur) && cur.order == k
    ensures Pow2(k) <= zones[t].pgFree
    ensures var zones' := zones[t := zones[t].(pgFree := zones[t].pgFree - Pow2(k))];
            StateOk(pages, zones', up, 0, 0) && AllocatedAreas(zones0, t, k, cur.start, zones')
    ensures Pages(cur) <= PagesOf(BlocksIn(pages0))
    ensures PagesOf(BlocksIn(pages)) == PagesOf(BlocksIn(pages0)) - Pages(cur)
    ensures Releasable(pages, cur) && ZoneOf(cur.start) == t && SameAttributes(pages0, pages)
  {
    hide PagesOf, BlocksIn, StateOk, AreasAfterAlloc, FirstFit, SameAttributes, AllocatedAreas, SplitZones, Pow2;
    LowerCounter(pages, zones, up, t, Pow2(k));
    SplitZonesEnd(zones0, t, k, cur.start, zones);
    assert Pages(cur) !! PagesOf(BlocksIn(pages));
  }

  lemma SplitZonesEnd(zones0: seq<ZoneVal>, t: nat, k: nat, p: nat, zones: seq<ZoneVal>)
    requires t < |zones0| == |zones| && SplitZones(zones0, t, k, FirstFit(zones0[t].areas, k), zones)
    requires p + Pow2(k) == zones0[t].areas[FirstFit(zones0[t].areas, k)].blocks[0] + Pow2(FirstFit(zones0[t].areas, k))
    requires Pow2(k) <= zones[t].pgFree
    ensures AllocatedAreas(zones0, t, k, p, zones[t := zones[t].(pgFree := zones[t].pgFree - Pow2(k))])
  {
    hide Pow2, AreasAfterAlloc, FirstFit;
  }

  lemma LowerCounter(pages: seq<Page>, zones: seq<ZoneVal>, up: nat, t: nat, extra: nat)
    requires StateOk(pages, zones, up, t, extra) && t < 3 && t < up
    ensures extra <= zones[t].pgFree
    ensures StateOk(pages, zones[t := zones[t].(pgFree := zones[t].pgFree - extra)], up, 0, 0)
  {
    assert forall s :: 0 <= s < 3 && s < up ==> OneZoneOk(pages, s, zones[s], if s == t then extra else 0);
  }

  /** An aligned run of order k in zone t whose pages are all free. */
  ghost predicate FreeRun(pages: seq<Page>, t: nat, k: nat, b: Block) {
    Wf(b) && b.order == k && ZoneOf(b.start) == t && Covered(PagesOf(BlocksIn(pages)), b)
  }

  /** All that buddy_alloc_page does: nothing is returned, without effect, exactly when the zone has
      no free run of the order; otherwise a free run is handed out, exactly its pages stop being
      free, and the lists change as AllocatedAreas says. */
  ghost predicate AllocDone(pages0: seq<Page>, zones0: seq<ZoneVal>, t: nat, k: nat, r: Option<nat>,
                            pages: seq<Page>, zones: seq<ZoneVal>) {
    && SameAttributes(pages0, pages)
    && (r.None? <==> !exists b :: FreeRun(pages0, t, k, b))
    && (r.None? ==> pages == pages0 && zones == zones0)
    && (r.Some? ==>
          && FreeRun(pages0, t, k, Block(r.value, k))
          && PagesOf(BlocksIn(pages)) == PagesOf(BlocksIn(pages0)) - Pages(Block(r.value, k))
          && Releasable(pages, Block(r.value, k))
          && AllocatedAreas(zones0, t, k, r.value, zones))
  }

  lemma NoListNoRun(pages: seq<Page>, zones: seq<ZoneVal>, up: nat, t: nat, k: nat)
    requires StateOk(pages, zones, up, 0, 0) && t < 3 && t < up && FirstFit(zones[t].areas, k) > MAX_ORDER
    ensures !exists b :: FreeRun(pages, t, k, b)
  {
    forall b
      ensures !FreeRun(pages, t, k, b)
    {
      if FreeRun(pages, t, k, b) {
        SearchIsComplete(pages, zones, up, t, k, b);
      }
    }
  }

  /** The search finds no list exactly when no aligned run of the wanted order is free. */
  lemma SearchIsComplete(pages: seq<Page>, zones: seq<ZoneVal>, up: nat, t: nat, k: nat, b: Block)
    requires StateOk(pages, zones, up, 0, 0) && t < 3 && t < up && FreeRun(pages, t, k, b)
    ensures |zones[t].areas| == MAX_ORDER + 1 && FirstFit(zones[t].areas, k) <= MAX_ORDER
  {
    assert OneZoneOk(pages, t, zones[t], 0);
    var c := CoveredRunIsInsideOneBlock(BlocksIn(pages), b);
    assert In(b.start, b) && In(b.start, c);
    BlockInOneZone(c);
    assert AreaOk(pages, t, c.order, zones[t].areas[c.order]);
    assert Lists(pages, t, c.order, c.start);
    assert zones[t].areas[c.order].blocksFree > 0;
  }

  /** In every state the allocator admits, the free blocks are the canonical form of the free pages. */
  lemma FreeBlocksAreCanonical(pages: seq<Page>, zones: seq<ZoneVal>, up: nat)
    requires StateOk(pages, zones, up, 0, 0)
    ensures BlocksIn(pages) == Canonical(PagesOf(BlocksIn(pages)))
  {
    CanonicalForm(BlocksIn(pages));
  }

  // ----- initialisation

  lemma {:induction false} NothingCounted(areas: seq<Area>)
    requires forall k :: 0 <= k < |areas| ==> areas[k].blocksFree == 0
    ensures CountedPages(areas) == 0
  {
    if areas != [] {
      NothingCounted(areas[..|areas| - 1]);
    }
  }

  /** A zone whose lists have just been emptied joins the invariant. */
  lemma ZoneComesUp(pages: seq<Page>, zones: seq<ZoneVal>, t: nat)
    requires StateOk(pages, zones, t, 0, 0) && t < 3
    ensures StateOk(pages, zones[t := ZoneVal(NoBlocks(), 0)], t + 1, 0, 0)
  {
    var zones' := zones[t := ZoneVal(NoBlocks(), 0)];
    NothingCounted(NoBlocks());
    assert ZoneOk(pages, t, NoBlocks(), 0) by {
      assert forall k :: 0 <= k <= MAX_ORDER ==> AreaOk(pages, t, k, NoBlocks()[k]);
    }
    assert forall s :: 0 <= s < 3 && s < t ==> OneZoneOk(pages, s, zones[s], 0);
  }

  /** Telling a page its zone keeps the invariant and the free blocks. */
  lemma ZoneTypeSet(pages: seq<Page>, zones: seq<ZoneVal>, up: nat, p: nat)
    requires StateOk(pages, zones, up, 0, 0) && p < |pages|
    ensures var pages' := pages[p := pages[p].(zoneType := ZoneOf(p))];
            StateOk(pages', zones, up, 0, 0) && BlocksIn(pages') == BlocksIn(pages)
  {
    var pages' := pages[p := pages[p].(zoneType := ZoneOf(p))];
    assert BlocksIn(pages') == BlocksIn(pages);
    assert forall b :: InMemory(pages, b) ==> InMemory(pages', b);
    forall s | 0 <= s < 3 && s < up
      ensures OneZoneOk(pages', s, zones[s], 0)
    {
      assert OneZoneOk(pages, s, zones[s], 0);
      forall k | 0 <= k <= MAX_ORDER
        ensures AreaOk(pages', s, k, zones[s].areas[k])
      {
        assert AreaOk(pages, s, k, zones[s].areas[k]);
        assert forall q :: Lists(pages, s, k, q) <==> Lists(pages', s, k, q);
      }
    }
  }

  lemma FreePagesInZonesUp(pages: seq<Page>, zones: seq<ZoneVal>, up: nat)
    requires StateOk(pages, zones, up, 0, 0)
    ensures forall p :: p in PagesOf(BlocksIn(pages)) ==> p < |pages| && ZoneOf(p) < up
  {
    forall p | p in PagesOf(BlocksIn(pages))
      ensures p < |pages| && ZoneOf(p) < up
    {
      var b :| b in BlocksIn(pages) && In(p, b);
      BlockInOneZone(b);
      assert InMemory(pages, b);
    }
  }

  /** A page that a client holds may be freed. */
  lemma SinglePageReleasable(pages: seq<Page>, p: nat)
    requires p < |pages| && !pages[p].reserved && pages[p].zoneType == ZoneOf(p) && p !in PagesOf(BlocksIn(pages))
    ensures Releasable(pages, Block(p, 0)) && Pages(Block(p, 0)) == {p} && !pages[p].buddy
  {
    assert Pow2(0) == 1;
    StartNotFree(pages, p);
  }

  // ----- single pages

  /** What allocating one page means to the client. */
  lemma OnePageAllocated(pages0: seq<Page>, zones0: seq<ZoneVal>, t: nat, p: nat, pages: seq<Page>, zones: seq<ZoneVal>)
    requires AllocDone(pages0, zones0, t, 0, Some(p), pages, zones)
    ensures p < |pages| == |pages0| && !pages[p].reserved && ZoneOf(p) == t
    ensures p in PagesOf(BlocksIn(pages0)) && PagesOf(BlocksIn(pages)) == PagesOf(BlocksIn(pages0)) - {p}
  {
    assert Pow2(0) == 1;
    assert In(p, Block(p, 0)) && Pages(Block(p, 0)) == {p};
  }

  lemma OnePageFreed(pages0: seq<Page>, zones0: seq<ZoneVal>, p: nat, pages: seq<Page>, zones: seq<ZoneVal>)
    requires FreeDone(pages0, zones0, Block(p, 0), pages, zones)
    ensures PagesOf(BlocksIn(pages)) == PagesOf(BlocksIn(pages0)) + {p}
  {
    hide BlocksIn, PagesOf, FreedAreas;
    assert Pow2(0) == 1;
    assert Pages(Block(p, 0)) == {p};
  }

  /** There is a run of one page exactly when the zone has a free page. */
  lemma RunOfOnePage(pages: seq<Page>, t: nat)
    ensures (exists b :: FreeRun(pages, t, 0, b)) <==> (exists p :: p in PagesOf(BlocksIn(pages)) && ZoneOf(p) == t)
  {
    hide PagesOf, BlocksIn;
    assert Pow2(0) == 1;
    if b :| FreeRun(pages, t, 0, b) {
      assert In(b.start, b);
    }
    if p :| p in PagesOf(BlocksIn(pages)) && ZoneOf(p) == t {
      var b := Block(p, 0);
      assert forall q :: In(q, b) ==> q == p;
      assert FreeRun(pages, t, 0, b);
    }
  }
}
