/** A run in which kfree loses an object, and one in which it gives the page of a live object away, from
    every state in which two pages that make one block are free.

    Objects of 1024 bytes are taken until no single page is left, and two caches more.  The first of the two
    gets the upper page of a pair, the second one the lower page, and an object of the second is taken for
    one of a cache that is listed before. */
module SlabMiss {
  import opened Config
  import opened Sequences
  import opened BitOps
  import opened Wrappers
  import opened BuddyBlocks
  import opened BuddyState
  import opened Buddy
  import opened SlabCache
  import Bootmem
  import Boot
  import opened Slab

  /** Two pages of the normal zone that make one block are free. */
  ghost predicate PairFree(pages: seq<Page>) {
    exists b :: FreeRun(pages, ZONE_NORMAL, 1, b)
  }

  // ----- the free lists of the normal zone

  /** Some list of the normal zone above order 0 has a block. */
  ghost predicate Splittable(zones: seq<ZoneVal>) {
    && |zones| == 3 && |zones[ZONE_NORMAL].areas| == MAX_ORDER + 1
    && exists j :: 1 <= j <= MAX_ORDER && zones[ZONE_NORMAL].areas[j].blocksFree > 0
  }

  lemma PairIsListed(pages: seq<Page>, zones: seq<ZoneVal>)
    requires StateOk(pages, zones, 3, 0, 0) && PairFree(pages)
    ensures Splittable(zones)
  {
    hide StateOk, FreeRun;
    var b :| FreeRun(pages, ZONE_NORMAL, 1, b);
    AllocFacts(pages, zones, 3, ZONE_NORMAL);
    SearchIsComplete(pages, zones, 3, ZONE_NORMAL, 1, b);
    var j := FirstFit(zones[ZONE_NORMAL].areas, 1);
    assert zones[ZONE_NORMAL].areas[j].blocksFree > 0;
  }

  /** The first block of a list is free. */
  lemma ListedIsFree(pages: seq<Page>, zones: seq<ZoneVal>, j: nat)
    requires StateOk(pages, zones, 3, 0, 0) && j <= MAX_ORDER
    requires |zones[ZONE_NORMAL].areas| == MAX_ORDER + 1 && zones[ZONE_NORMAL].areas[j].blocksFree > 0
    ensures zones[ZONE_NORMAL].areas[j].blocks != []
    ensures var p := zones[ZONE_NORMAL].areas[j].blocks[0]; p in PagesOf(BlocksIn(pages)) && ZoneOf(p) == ZONE_NORMAL
  {
    assert OneZoneOk(pages, ZONE_NORMAL, zones[ZONE_NORMAL], 0);
    var area := zones[ZONE_NORMAL].areas[j];
    assert AreaOk(pages, ZONE_NORMAL, j, area);
    assert Lists(pages, ZONE_NORMAL, j, area.blocks[0]);
    assert Block(area.blocks[0], j) in BlocksIn(pages) && In(area.blocks[0], Block(area.blocks[0], j));
  }

  lemma CountsMatch(pages: seq<Page>, zones: seq<ZoneVal>)
    requires StateOk(pages, zones, 3, 0, 0)
    ensures |zones[ZONE_NORMAL].areas| == MAX_ORDER + 1
    ensures zones[ZONE_NORMAL].areas[0].blocksFree == |zones[ZONE_NORMAL].areas[0].blocks|
  {
    assert OneZoneOk(pages, ZONE_NORMAL, zones[ZONE_NORMAL], 0);
  }

  /** While there are single pages, one of them is taken and the other lists stay. */
  lemma SingleTaken(zones: seq<ZoneVal>, p: nat, zones': seq<ZoneVal>)
    requires Splittable(zones) && AllocatedAreas(zones, ZONE_NORMAL, 0, p, zones')
    requires zones[ZONE_NORMAL].areas[0].blocksFree > 0
    ensures Splittable(zones') && |zones'[ZONE_NORMAL].areas[0].blocks| < |zones[ZONE_NORMAL].areas[0].blocks|
  {
    var j :| 1 <= j <= MAX_ORDER && zones[ZONE_NORMAL].areas[j].blocksFree > 0;
    assert FirstFit(zones[ZONE_NORMAL].areas, 0) == 0;
    assert zones'[ZONE_NORMAL].areas[j].blocksFree > 0;
  }

  /** When there is none, a block is split, and the page below the one taken is the only single page. */
  lemma PairSplit(zones: seq<ZoneVal>, p: nat, zones': seq<ZoneVal>)
    requires Splittable(zones) && AllocatedAreas(zones, ZONE_NORMAL, 0, p, zones')
    requires zones[ZONE_NORMAL].areas[0] == Area([], 0)
    ensures |zones'[ZONE_NORMAL].areas| == MAX_ORDER + 1
    ensures p >= 1 && zones'[ZONE_NORMAL].areas[0] == Area([p - 1], 1)
  {
    var m := FirstFit(zones[ZONE_NORMAL].areas, 0);
    Pow2Monotone(1, m);
    assert Pow2(1) == 2 && Pow2(0) == 1;
  }

  // ----- one more cache of order 10

  lemma OrderTen(k: nat)
    requires IsOrderOf(1024, k)
    ensures k == 10
  {
    assert Pow2(10) == 1024;
    OrderIsRecovered(10, k);
  }

  /** As long as a page of the normal zone is free, kmalloc serves. */
  lemma NotExhausted(m: Slabs, k: nat, p: nat)
    requires p in m.buddy.FreePages() && ZoneOf(p) == ZONE_NORMAL
    ensures !m.Exhausted(k)
  {
    RunOfOnePage(m.buddy.pages[..], ZONE_NORMAL);
  }

  /** The free objects of the listed caches. */
  function FreeOf(list: seq<nat>, vals: map<nat, CacheVal>): nat {
    if list == [] then 0 else (if list[0] in vals then vals[list[0]].objFree else 0) + FreeOf(list[1..], vals)
  }

  lemma {:induction false} FreeOfDrops(list: seq<nat>, vals: map<nat, CacheVal>, page: nat, c: CacheVal)
    requires NoDup(list) && page in vals && c.objFree + 1 == vals[page].objFree
    ensures FreeOf(list, vals[page := c]) + (if page in list then 1 else 0) == FreeOf(list, vals)
  {
    if list != [] {
      FreeOfDrops(list[1..], vals, page, c);
      assert list == [list[0]] + list[1..];
      assert list[0] !in list[1..];
    }
  }

  /** An object from a listed cache: that cache has one less free, and nothing else changes. */
  lemma ServedByOld(lists0: seq<seq<nat>>, vals0: map<nat, CacheVal>, zones0: seq<ZoneVal>, page: nat,
                    lists: seq<seq<nat>>, vals: map<nat, CacheVal>, zones: seq<ZoneVal>)
    requires Drawn(lists0, vals0, zones0, 10, page, lists, vals, zones) && page in vals0 && NoDup(lists0[10])
    ensures lists == lists0 && zones == zones0 && FreeOf(lists0[10], vals) < FreeOf(lists0[10], vals0)
  {
    hide AllocatedAreas;
    assert DrawnFromOld(lists0, vals0, zones0, 10, page, lists, vals, zones);
    FreeOfDrops(lists0[10], vals0, page, vals[page]);
  }

  /** An object from a new cache: all others on the list are full. */
  lemma ServedByNew(lists0: seq<seq<nat>>, vals0: map<nat, CacheVal>, zones0: seq<ZoneVal>, page: nat,
                    lists: seq<seq<nat>>, vals: map<nat, CacheVal>, zones: seq<ZoneVal>)
    requires Drawn(lists0, vals0, zones0, 10, page, lists, vals, zones) && page !in vals0
    ensures lists == lists0[10 := lists0[10] + [page]] && AllFull(lists0[10], vals)
    ensures AllocatedAreas(zones0, ZONE_NORMAL, 0, page, zones)
  {
    hide AllocatedAreas;
    assert DrawnFromNew(lists0, vals0, zones0, 10, page, lists, zones);
    assert forall p :: p in lists0[10] ==> p in vals0;
  }

  /** A page is free if the slabs do not have it. */
  lemma FreeOrCache(m: Slabs, p: nat)
    requires m.Valid() && p in m.AllPages()
    ensures p in m.buddy.FreePages() <==> p !in m.caches
  {
    hide SlabsOk, StateOk;
    assert p in m.caches ==> Spare(m.buddy.pages[..], p);
  }

  lemma ListFacts(m: Slabs)
    requires m.Valid()
    ensures |m.lists| == MAX_OBJ_ORDER + 1 && NoDup(m.lists[10]) && m.Vals().Keys == m.caches.Keys
    ensures forall p :: p in m.lists[10] ==> p in m.caches && p in m.orders && m.orders[p] == 10
  {
    hide CacheOk, NoDup;
  }

  /** kmalloc(1024) until a new cache serves. */
  method NextCache(m: Slabs, ghost spare: nat) returns (a: nat)
    requires m.Valid() && spare in m.buddy.FreePages() && ZoneOf(spare) == ZONE_NORMAL
    modifies m, m.caches.Values, m.Memories(), m.buddy.pages, m.buddy.zones
    ensures m.Valid() && m.HandedOut(10, a) && m.AllPages() == old(m.AllPages())
    ensures |m.lists| == |old(m.lists)| == MAX_OBJ_ORDER + 1
    ensures m.lists[10] == old(m.lists[10]) + [PageOfAddress(a)] && PageOfAddress(a) !in old(m.caches)
    ensures AllocatedAreas(old(m.buddy.ZoneVals()), ZONE_NORMAL, 0, PageOfAddress(a), m.buddy.ZoneVals())
    ensures AllFull(old(m.lists[10]), m.Vals())
    ensures GrownBy(old(m.caches), PageOfAddress(a), m.caches)
    ensures fresh(m.caches[PageOfAddress(a)]) && fresh(m.caches[PageOfAddress(a)].mem)
  {
    hide SlabsOk, StateOk, BlocksIn, PagesOf, PagesApart, LiveMap, Bytes, ObjectAdded, ObjectZeroed, IsOrderOf, Drawn,
         AllocatedAreas, PageOfAddress, OffsetOfAddress, Slabs.HandedOut, Slabs.Exhausted, Slabs.Kept, Slabs.Handed,
         Pow2, AllFull, FreeOf, SubMap, NoDup;
    ghost var lists0, zones0, all := m.lists, m.buddy.ZoneVals(), m.AllPages();
    var caches0 := m.caches;
    FreeOrCache(m, spare);
    ListFacts(m);
    while true
      invariant m.Valid() && m.caches == caches0 && m.lists == lists0 && m.AllPages() == all
      invariant m.buddy.ZoneVals() == zones0
      decreases FreeOf(lists0[10], m.Vals())
    {
      FreeOrCache(m, spare);
      NotExhausted(m, 10, spare);
      ListFacts(m);
      ghost var vals0 := m.Vals();
      ghost var k;
      var r;
      r, k := m.KMalloc(1024);
      OrderTen(k);
      a := r.value;
      if PageOfAddress(a) !in caches0 {
        ServedByNew(lists0, vals0, zones0, PageOfAddress(a), m.lists, m.Vals(), m.buddy.ZoneVals());
        return;
      }
      ServedByOld(lists0, vals0, zones0, PageOfAddress(a), m.lists, m.Vals(), m.buddy.ZoneVals());
    }
  }

  // ----- a live object whose cache the scan does not find

  /** A page that the zone's lists show to be free. */
  lemma SpareOf(m: Slabs, j: nat) returns (p: nat)
    requires m.Valid() && j <= MAX_ORDER && |m.buddy.ZoneVals()| == 3
    requires |m.buddy.ZoneVals()[ZONE_NORMAL].areas| == MAX_ORDER + 1
    requires m.buddy.ZoneVals()[ZONE_NORMAL].areas[j].blocksFree > 0
    ensures p in m.buddy.FreePages() && ZoneOf(p) == ZONE_NORMAL
  {
    hide SlabsOk, StateOk, PagesApart, PagesOf, BlocksIn;
    ListedIsFree(m.buddy.pages[..], m.buddy.ZoneVals(), j);
    p := m.buddy.ZoneVals()[ZONE_NORMAL].areas[j].blocks[0];
  }

  /** The caches are those of before, and new ones. */
  twostate predicate OldOrNew(m: Slabs)
    reads m
  {
    forall q :: q in m.caches ==>
      (q in old(m.caches) && m.caches[q] == old(m.caches)[q]) || (fresh(m.caches[q]) && fresh(m.caches[q].mem))
  }

  /** kmalloc(1024) until the normal zone has no single free page. */
  method UseUpSingles(m: Slabs)
    requires m.Valid() && PairFree(m.buddy.pages[..])
    modifies m, m.caches.Values, m.Memories(), m.buddy.pages, m.buddy.zones
    ensures m.Valid() && OldOrNew(m)
    ensures Splittable(m.buddy.ZoneVals()) && m.buddy.ZoneVals()[ZONE_NORMAL].areas[0] == Area([], 0)
  {
    hide SlabsOk, StateOk, BlocksIn, PagesOf, PagesApart, AllocatedAreas, PageOfAddress, OffsetOfAddress,
         Slabs.HandedOut, AllFull, FreeRun;
    PairIsListed(m.buddy.pages[..], m.buddy.ZoneVals());
    CountsMatch(m.buddy.pages[..], m.buddy.ZoneVals());
    while m.buddy.zones[ZONE_NORMAL].areas[0].blocksFree > 0
      invariant m.Valid() && OldOrNew(m) && Splittable(m.buddy.ZoneVals())
      decreases |m.buddy.ZoneVals()[ZONE_NORMAL].areas[0].blocks|
    {
      ghost var spare := SpareOf(m, 0);
      ghost var zones0 := m.buddy.ZoneVals();
      var a := NextCache(m, spare);
      SingleTaken(zones0, PageOfAddress(a), m.buddy.ZoneVals());
    }
    CountsMatch(m.buddy.pages[..], m.buddy.ZoneVals());
  }

  /** The list ends with page p and the page below, and the caches before the last one are full. */
  ghost predicate EndsDescending(list: seq<nat>, vals: map<nat, CacheVal>, p: nat) {
    && |list| >= 2 && p >= 1 && list[|list| - 2] == p && list[|list| - 1] == p - 1
    && AllFull(list[..|list| - 1], vals)
  }

  /** Then one cache more: it takes the upper page of a pair. */
  method SplitPair(m: Slabs) returns (p: nat, ghost zones0: seq<ZoneVal>)
    requires m.Valid() && PairFree(m.buddy.pages[..])
    modifies m, m.caches.Values, m.Memories(), m.buddy.pages, m.buddy.zones
    ensures m.Valid() && OldOrNew(m) && |m.lists| == MAX_OBJ_ORDER + 1
    ensures m.lists[10] != [] && m.lists[10][|m.lists[10]| - 1] == p
    ensures Splittable(zones0) && zones0[ZONE_NORMAL].areas[0] == Area([], 0)
    ensures AllocatedAreas(zones0, ZONE_NORMAL, 0, p, m.buddy.ZoneVals())
  {
    hide SlabsOk, StateOk, BlocksIn, PagesOf, PagesApart, AllocatedAreas, PageOfAddress, OffsetOfAddress,
         Slabs.HandedOut, AllFull, FreeRun, NoDup;
    UseUpSingles(m);
    zones0 := m.buddy.ZoneVals();
    ghost var j :| 1 <= j <= MAX_ORDER && zones0[ZONE_NORMAL].areas[j].blocksFree > 0;
    ghost var spare := SpareOf(m, j);
    var a := NextCache(m, spare);
    p := PageOfAddress(a);
  }

  /** And another: it takes the lower page.  The last object is live, in a cache that the scan does not
      find. */
  method HideObject(m: Slabs) returns (p: nat, last: nat)
    requires m.Valid() && PairFree(m.buddy.pages[..])
    modifies m, m.caches.Values, m.Memories(), m.buddy.pages, m.buddy.zones
    ensures m.Valid() && OldOrNew(m) && |m.lists| == MAX_OBJ_ORDER + 1
    ensures EndsDescending(m.lists[10], m.Vals(), p)
    ensures m.HandedOut(10, last) && PageOfAddress(last) == p - 1 && !OwnerFirst(m.lists[10], p - 1)
  {
    hide SlabsOk, StateOk, BlocksIn, PagesOf, PagesApart, AllocatedAreas, PageOfAddress, OffsetOfAddress,
         Slabs.HandedOut, AllFull, FreeRun, OwnerFirst, NoDup, Splittable, EndsDescending;
    ghost var zones0;
    p, zones0 := SplitPair(m);
    ghost var zones1, list := m.buddy.ZoneVals(), m.lists[10];
    PairSplit(zones0, p, zones1);
    ghost var spare := SpareOf(m, 0);
    last := NextCache(m, spare);
    NextIsBelow(zones0, zones1, p, PageOfAddress(last), m.buddy.ZoneVals());
    EndOfList(list, m.Vals(), p, m.lists[10]);
    ListFacts(m);
    LastIsHidden(m.lists[10], m.Vals(), p);
  }

  lemma NextIsBelow(zones0: seq<ZoneVal>, zones1: seq<ZoneVal>, p: nat, q: nat, zones2: seq<ZoneVal>)
    requires Splittable(zones0) && zones0[ZONE_NORMAL].areas[0] == Area([], 0)
    requires AllocatedAreas(zones0, ZONE_NORMAL, 0, p, zones1) && AllocatedAreas(zones1, ZONE_NORMAL, 0, q, zones2)
    ensures q + 1 == p
  {
    hide AllocatedAreas;
    SecondPageLiesBelow([zones0, zones1, zones2], ZONE_NORMAL, p, q);
  }

  lemma EndOfList(list: seq<nat>, vals: map<nat, CacheVal>, p: nat, list': seq<nat>)
    requires list != [] && list[|list| - 1] == p >= 1 && list' == list + [p - 1] && AllFull(list, vals)
    ensures EndsDescending(list', vals, p)
  {
    assert list'[..|list'| - 1] == list;
  }

  lemma LastIsHidden(list: seq<nat>, vals: map<nat, CacheVal>, p: nat)
    requires NoDup(list) && EndsDescending(list, vals, p)
    ensures !OwnerFirst(list, p - 1)
  {
    assert !NoneAboveBefore(list, |list| - 1);
  }

  /** And kfree does miss it: the object stays handed out, and what the cache that is named instead will hand
      out next lies in another page, unless the two pages are a multiple of 16 apart. */
  method LoseAnObject(m: Slabs) returns (lost: nat, c: nat)
    requires m.Valid() && PairFree(m.buddy.pages[..])
    modifies m, m.caches.Values, m.Memories(), m.buddy.pages, m.buddy.zones
    ensures PageOfAddress(lost) in m.Vals() && OffsetOfAddress(lost) in LiveOf(m.Vals()[PageOfAddress(lost)], 10)
    ensures c in m.Vals() && m.Vals()[c].objFree == 1 && PageOfAddress(lost) < c
    ensures PageOfAddress(Address(c, m.Vals()[c].head)) == c <==> (c - PageOfAddress(lost)) % 16 == 0
  {
    hide SlabsOk, StateOk, BlocksIn, PagesOf, PagesApart, LiveMap, Bytes, PageOfAddress, OffsetOfAddress, Address,
         Slabs.HandedOut, OwnerFirst, LiveOf, CacheOk, EndsDescending, FreeRun;
    var p;
    p, lost := HideObject(m);
    c := FreeHidden(m, p, lost);
  }

  /** kfree of a hidden object, in any state that has one behind a full cache. */
  method FreeHidden(m: Slabs, ghost p: nat, lost: nat) returns (c: nat)
    requires m.Valid() && |m.lists| == MAX_OBJ_ORDER + 1 && EndsDescending(m.lists[10], m.Vals(), p)
    requires m.HandedOut(10, lost) && PageOfAddress(lost) == p - 1 && !OwnerFirst(m.lists[10], p - 1)
    modifies m, m.caches.Values, m.Memories(), m.buddy.pages, m.buddy.zones
    ensures PageOfAddress(lost) in m.Vals() && OffsetOfAddress(lost) in LiveOf(m.Vals()[PageOfAddress(lost)], 10)
    ensures c in m.Vals() && m.Vals()[c].objFree == 1 && PageOfAddress(lost) < c
    ensures PageOfAddress(Address(c, m.Vals()[c].head)) == c <==> (c - PageOfAddress(lost)) % 16 == 0
  {
    hide SlabsOk, StateOk, BlocksIn, PagesOf, PagesApart, LiveMap, Bytes, PageOfAddress, OffsetOfAddress, Address,
         Slabs.HandedOut, OwnerFirst, LiveOf, CacheOk, ScanMissed, Slabs.Released, SubMap, EndsDescending,
         NamedUnlisted, Returned, ListsMatch, NoDup, LastOne, Slabs.Footprint, Allocator.Ready, FreeRun, Pow2, Clear;
    HiddenFacts(m, p, lost);
    c := m.lists[10][Scan(m.lists[10], lost)];
    ghost var vals0, lists0, pages0 := m.Vals(), m.lists, m.buddy.FreePages();
    m.KFree(Some(lost), 10);
    NamedIsMisled(lists0, vals0, pages0, ObjectAt(lost), c, m.Vals(), m.buddy.FreePages());
  }

  /** The cache that the scan names for the hidden object: it is full and lies above. */
  lemma NamedFacts(m: Slabs, p: nat, last: nat)
    requires m.Valid() && |m.lists| == MAX_OBJ_ORDER + 1 && EndsDescending(m.lists[10], m.Vals(), p)
    requires m.HandedOut(10, last) && PageOfAddress(last) == p - 1 && !OwnerFirst(m.lists[10], p - 1)
    ensures Scan(m.lists[10], last) < |m.lists[10]|
    ensures var c := m.lists[10][Scan(m.lists[10], last)];
            && c in m.caches && c in m.orders && m.orders[c] == 10 && m.caches[c].objFree == 0 && c > p - 1
            && OwnerFirst(m.lists[10], c)
  {
    hide SlabsOk, StateOk, BlocksIn, PagesOf, PagesApart, LiveMap, Bytes, PageOfAddress, OffsetOfAddress,
         Slabs.HandedOut, LiveOf, CacheOk, Address, OwnerFirst, NoDup;
    m.HandedOutFacts(10, last);
    ListFacts(m);
    ScanFindsOwnerByPage(m.lists[10], p - 1, OffsetOfAddress(last));
    FullBefore(m.lists[10], m.Vals(), p, Scan(m.lists[10], last));
    NamedComesFirst(m.lists[10], p - 1, OffsetOfAddress(last));
  }

  /** The same of the values alone, and of the hidden object. */
  lemma HiddenFacts(m: Slabs, p: nat, last: nat)
    requires m.Valid() && |m.lists| == MAX_OBJ_ORDER + 1 && EndsDescending(m.lists[10], m.Vals(), p)
    requires m.HandedOut(10, last) && PageOfAddress(last) == p - 1 && !OwnerFirst(m.lists[10], p - 1)
    ensures var x := ObjectAt(last);
            && Address(x.page, x.off) == last && x.off < PAGE_SIZE && x.page in m.Vals()
            && CacheOk(m.Vals()[x.page], 10) && x.off in LiveOf(m.Vals()[x.page], 10)
    ensures Scan(m.lists[10], last) < |m.lists[10]|
    ensures var c := m.lists[10][Scan(m.lists[10], last)];
            c in m.Vals() && CacheOk(m.Vals()[c], 10) && m.Vals()[c].objFree == 0
  {
    hide SlabsOk, StateOk, BlocksIn, PagesOf, PagesApart, LiveMap, Bytes, PageOfAddress, OffsetOfAddress, Address,
         Slabs.HandedOut, OwnerFirst, LiveOf, CacheOk, EndsDescending, NoDup;
    m.HandedOutFacts(10, last);
    NamedFacts(m, p, last);
    m.CacheIsOk(p - 1, {});
    m.CacheIsOk(m.lists[10][Scan(m.lists[10], last)], {});
  }

  lemma FullBefore(list: seq<nat>, vals: map<nat, CacheVal>, p: nat, i: nat)
    requires EndsDescending(list, vals, p) && i < |list| && list[i] != p - 1
    ensures list[i] in vals && vals[list[i]].objFree == 0
  {
    assert list[..|list| - 1][i] == list[i];
  }

  /** A cache that the scan names for somebody else's object would be named for its own objects. */
  lemma NamedComesFirst(list: seq<nat>, p: nat, off: nat)
    requires off < PAGE_SIZE && Scan(list, Address(p, off)) < |list|
    ensures OwnerFirst(list, list[Scan(list, Address(p, off))])
  {
    var i := Scan(list, Address(p, off));
    InCacheIsOneSided(p, off, list[i]);
    forall j | 0 <= j < i
      ensures list[j] < list[i]
    {
      InCacheIsOneSided(p, off, list[j]);
    }
    assert NoneAboveBefore(list, i);
  }

  lemma TenthPower()
    ensures Pow2(10) == 1024
  {
  }

  lemma FirstOfTen()
    ensures FirstObject(10) == Pow2(10) == 1024
  {
    hide Pow2, Bootmem.AlignUp;
    TenthPower();
    Bootmem.AlignUpPowerOfTwo(HEADER, 10);
  }

  /** Three objects of 1024 bytes fit a page. */
  lemma ThreeSlots()
    ensures Slots(10) == [1024, 2048, 3072]
  {
    FirstOfTen();
    hide Pow2, FirstObject;
    assert SlotsFrom(10, 4096) == [];
    assert SlotsFrom(10, 3072) == [3072] + SlotsFrom(10, 4096);
    assert SlotsFrom(10, 2048) == [2048] + SlotsFrom(10, 3072);
    assert SlotsFrom(10, 1024) == [1024] + SlotsFrom(10, 2048);
  }

  lemma CountOfTen(c: CacheVal)
    requires CacheOk(c, 10)
    ensures c.objCnt == 3
  {
    hide FreeListOk, SlotsFrom, FirstObject, Pow2;
    ThreeSlots();
  }

  lemma NamedIsMisled(lists0: seq<seq<nat>>, vals0: map<nat, CacheVal>, pages0: set<nat>, x: Object, c: nat,
                      vals: map<nat, CacheVal>, pages: set<nat>)
    requires ScanMissed(lists0, vals0, pages0, 10, x, vals, pages) && |lists0| > 10
    requires var i := Scan(lists0[10], Address(x.page, x.off)); i < |lists0[10]| && c == lists0[10][i]
    requires x.off < PAGE_SIZE && x.page in vals0 && c in vals0 && vals0[c].objFree == 0
    requires CacheOk(vals0[c], 10) && CacheOk(vals0[x.page], 10) && x.off in LiveOf(vals0[x.page], 10)
    ensures x.page < c && x.page in vals && c in vals && x.off in LiveOf(vals[x.page], 10)
    ensures vals[c].objFree == 1 && (PageOfAddress(Address(c, vals[c].head)) == c <==> (c - x.page) % 16 == 0)
  {
    hide LiveOf, CacheOk, Stray, Scan, Address, PageOfAddress;
    CountOfTen(vals0[c]);
    assert Missed(vals0, pages0, 10, c, x, vals, pages);
    StrayKeepsLive(vals0[x.page], 10, x.off, vals0[c].head);
    StrayObject(x.page, x.off, c);
  }

  // ----- a live object whose page is given away

  /** The scan names the cache of page c for the address a. */
  predicate Names(list: seq<nat>, a: nat, c: nat) {
    Scan(list, a) < |list| && list[Scan(list, a)] == c
  }

  /** kfree of an object whose cache comes first and has other live objects. */
  method FreeOne(m: Slabs, a: nat, ghost c: nat)
    requires m.Valid() && m.HandedOut(10, a) && PageOfAddress(a) == c && |m.lists| == MAX_OBJ_ORDER + 1
    requires OwnerFirst(m.lists[10], c) && c in m.caches && m.caches[c].objFree + 2 <= m.caches[c].objCnt
    modifies m, m.caches.Values, m.Memories(), m.buddy.pages, m.buddy.zones
    ensures m.Valid() && m.lists == old(m.lists) && m.caches == old(m.caches)
    ensures m.caches[c].objFree == old(m.caches[c].objFree) + 1 && m.caches[c].objCnt == old(m.caches[c].objCnt)
    ensures forall b :: LiveAt(old(m.Live()), old(m.orders), 10, b) && b != a ==> LiveAt(m.Live(), m.orders, 10, b)
  {
    hide SlabsOk, StateOk, BlocksIn, PagesOf, PagesApart, LiveMap, Bytes, PageOfAddress, OffsetOfAddress, Address,
         OwnerFirst, LiveOf, CacheOk, NoDup, Slabs.HandedOut;
    m.HandedOutFacts(10, a);
    ghost var live0, orders0 := m.Live(), m.orders;
    NamedByOwner(m.lists[10], c, OffsetOfAddress(a));
    m.KFree(Some(a), 10);
    StillLiveAt(live0, orders0, a, m.Vals(), m.orders);
  }

  lemma NamedByOwner(list: seq<nat>, c: nat, off: nat)
    requires NoDup(list) && c in list && off < PAGE_SIZE && OwnerFirst(list, c)
    ensures Names(list, Address(c, off), c)
  {
    ScanFindsOwnerByPage(list, c, off);
  }

  /** Slabs.HandedOut, on values. */
  ghost predicate LiveAt(live: map<nat, set<nat>>, orders: map<nat, nat>, k: nat, a: nat) {
    var (p, off) := (PageOfAddress(a), OffsetOfAddress(a));
    a == Address(p, off) && p in orders && orders[p] == k && p in live && off in live[p]
  }

  lemma StillLiveAt(live0: map<nat, set<nat>>, orders0: map<nat, nat>, a: nat, vals: map<nat, CacheVal>,
                    orders: map<nat, nat>)
    requires ObjectRemoved(live0, ObjectAt(a), LiveMap(vals, orders)) && SubMap(orders, orders0)
    requires a == Address(PageOfAddress(a), OffsetOfAddress(a))
    ensures forall b :: LiveAt(live0, orders0, 10, b) && b != a ==> LiveAt(LiveMap(vals, orders), orders, 10, b)
  {
    hide Address, PageOfAddress, OffsetOfAddress, LiveOf;
    var live, x := LiveMap(vals, orders), ObjectAt(a);
    forall b | LiveAt(live0, orders0, 10, b) && b != a
      ensures LiveAt(live, orders, 10, b)
    {
      var y := ObjectAt(b);
      assert x != y;
      assert y.page == x.page ==> y.off in live0[x.page] - {x.off};
      assert y.page in live && y.page in orders;
    }
  }

  /** Any kfree whose scan names the cache c while c has one live object of its own left gives the page of
      that object to the buddy allocator. */
  method GivePageAway(m: Slabs, ghost k: nat, a: nat, ghost kept: nat)
    requires m.Valid() && m.HandedOut(k, a) && m.HandedOut(k, kept) && PageOfAddress(kept) != PageOfAddress(a)
    requires k < |m.lists| && Names(m.lists[k], a, PageOfAddress(kept)) && LastOne(m.Vals(), PageOfAddress(kept))
    modifies m, m.caches.Values, m.Memories(), m.buddy.pages, m.buddy.zones
    ensures PageOfAddress(kept) in m.buddy.FreePages() && PageOfAddress(kept) !in m.caches
  {
    hide SlabsOk, StateOk, BlocksIn, PagesOf, PagesApart, LiveMap, Bytes, PageOfAddress, OffsetOfAddress, Address,
         OwnerFirst, LiveOf, CacheOk, NoDup, Slabs.HandedOut;
    m.HandedOutFacts(k, a);
    ScanFindsOwnerByPage(m.lists[k], PageOfAddress(a), OffsetOfAddress(a));
    m.KFree(Some(a), k);
  }

  /** Everything of a full cache is handed out. */
  lemma AllLive(m: Slabs, c: nat)
    requires m.Valid() && c in m.caches && c in m.orders && m.orders[c] == 10 && m.caches[c].objFree == 0
    ensures m.caches[c].objCnt == 3
    ensures m.HandedOut(10, Address(c, 1024)) && m.HandedOut(10, Address(c, 2048)) && m.HandedOut(10, Address(c, 3072))
  {
    hide SlabsOk, StateOk, PagesApart, Pow2, SlotsFrom, FirstObject, Address, PageOfAddress, OffsetOfAddress, Follow;
    m.CacheIsOk(c, {});
    CountOfTen(m.caches[c].Val());
    ThreeSlots();
    hide Slots;
    MaskFindsPage(c, 1024);
    MaskFindsPage(c, 2048);
    MaskFindsPage(c, 3072);
    var v := m.caches[c].Val();
    assert Chain(v.mem, v.head, 0) == [];
    assert m.Vals()[c] == v && LiveOf(v, 10) == set off | off in [1024, 2048, 3072];
  }

  /** From every state with a free pair, calls lead to a state in which the next kfree does that: an object is
      hidden, and of the objects of the cache that is named for it, the first two are freed. */
  method Endanger(m: Slabs) returns (lost: nat, kept: nat)
    requires m.Valid() && PairFree(m.buddy.pages[..])
    modifies m, m.caches.Values, m.Memories(), m.buddy.pages, m.buddy.zones
    ensures m.Valid() && OldOrNew(m) && |m.lists| == MAX_OBJ_ORDER + 1
    ensures m.HandedOut(10, lost) && m.HandedOut(10, kept) && PageOfAddress(kept) != PageOfAddress(lost)
    ensures Names(m.lists[10], lost, PageOfAddress(kept)) && LastOne(m.Vals(), PageOfAddress(kept))
  {
    hide SlabsOk, StateOk, BlocksIn, PagesOf, PagesApart, LiveMap, Bytes, PageOfAddress, OffsetOfAddress, Address,
         OwnerFirst, LiveOf, CacheOk, Slabs.HandedOut, FreeRun, EndsDescending, Scan;
    var p;
    p, lost := HideObject(m);
    NamedFacts(m, p, lost);
    kept := EmptyButOne(m, m.lists[10][Scan(m.lists[10], lost)], lost);
  }

  /** Of the three objects of a full cache, the first two are freed. */
  method EmptyButOne(m: Slabs, c: nat, ghost other: nat) returns (kept: nat)
    requires m.Valid() && |m.lists| == MAX_OBJ_ORDER + 1 && c in m.caches && c in m.orders && m.orders[c] == 10
    requires m.caches[c].objFree == 0 && OwnerFirst(m.lists[10], c)
    requires m.HandedOut(10, other) && PageOfAddress(other) != c
    modifies m, m.caches.Values, m.Memories(), m.buddy.pages, m.buddy.zones
    ensures m.Valid() && m.lists == old(m.lists) && m.caches == old(m.caches) && PageOfAddress(kept) == c
    ensures m.HandedOut(10, other) && m.HandedOut(10, kept) && LastOne(m.Vals(), c)
  {
    hide SlabsOk, StateOk, BlocksIn, PagesOf, PagesApart, LiveMap, Bytes, PageOfAddress, OffsetOfAddress, Address,
         OwnerFirst, LiveOf, CacheOk;
    AllLive(m, c);
    kept := Address(c, 3072);
    Offsets(c);
    assert LiveAt(m.Live(), m.orders, 10, Address(c, 2048)) && LiveAt(m.Live(), m.orders, 10, kept);
    assert LiveAt(m.Live(), m.orders, 10, other);
    FreeOne(m, Address(c, 1024), c);
    FreeOne(m, Address(c, 2048), c);
    assert m.Vals()[c] == m.caches[c].Val();
  }

  lemma Offsets(c: nat)
    ensures PageOfAddress(Address(c, 1024)) == PageOfAddress(Address(c, 2048)) == PageOfAddress(Address(c, 3072)) == c
    ensures Address(c, 1024) < Address(c, 2048) < Address(c, 3072)
  {
    MaskFindsPage(c, 1024);
    MaskFindsPage(c, 2048);
    MaskFindsPage(c, 3072);
  }

  // ----- the same on a machine that has booted

  /** After booting, two pages that make one block are free if neither the firmware reserves them nor the
      kernel and the boot-time regions reach them. */
  lemma BootedPair(pages: seq<Page>, zones: seq<ZoneVal>, firmware: seq<bool>, hi: nat, e: nat)
    requires Boot.Booted(pages, zones, firmware, hi) && e % 2 == 0 && ZoneOf(e) == ZONE_NORMAL
    requires e + 1 < |firmware| && !firmware[e] && !firmware[e + 1] && hi <= e * PAGE_SIZE
    ensures PairFree(pages)
  {
    hide StateOk, PagesOf, BlocksIn;
    var b := Block(e, 1);
    assert Pow2(1) == 2 && Pow2(0) == 1 && Aligned(e, 1);
    forall p: nat | In(p, b)
      ensures p in Usable(pages)
    {
      assert p == e || p == e + 1;
    }
    assert FreeRun(pages, ZONE_NORMAL, 1, b);
  }

  /** The whole run from power-on: memory is brought up, the slabs are set up, and calls lead to a state in
      which kfree of a live object gives the page of another one away (see GivePageAway). */
  method FromBoot(memSize: nat, kernelEnd: nat, firmware: seq<bool>, sizes: seq<nat>, ghost e: nat)
    returns (m: Slabs, lost: nat, kept: nat)
    requires memSize < WORD && |firmware| == memSize / PAGE_SIZE && NORMAL_START <= |firmware|
    requires BOOT_KERNEL_START < kernelEnd < WORD
    requires forall i :: 0 <= i < |sizes| ==> sizes[i] < WORD
    requires forall i :: 0 <= i <= |sizes| ==> Bootmem.FreeAfter(kernelEnd, sizes[..i]) <= e * PAGE_SIZE
    requires e % 2 == 0 && ZoneOf(e) == ZONE_NORMAL && e + 1 < |firmware| && !firmware[e] && !firmware[e + 1]
    ensures fresh(m) && m.Valid() && |m.lists| == MAX_OBJ_ORDER + 1
    ensures m.HandedOut(10, lost) && m.HandedOut(10, kept) && PageOfAddress(kept) != PageOfAddress(lost)
    ensures Names(m.lists[10], lost, PageOfAddress(kept)) && LastOne(m.Vals(), PageOfAddress(kept))
  {
    hide SlabsOk, StateOk, BlocksIn, PagesOf, PagesApart, LiveMap, PageOfAddress, FreeRun, Canonical, Boot.Booted,
         Bootmem.FreeAfter, Scan, LastOne, Slabs.HandedOut;
    var r;
    ghost var free;
    r, free := Boot.BringUp(memSize, kernelEnd, firmware, sizes);
    assert sizes[..|sizes|] == sizes;
    m := new Slabs(r.value);
    BootedPair(m.buddy.pages[..], m.buddy.ZoneVals(), firmware, free[|sizes|], e);
    lost, kept := Endanger(m);
  }
}
