/** kmalloc and kfree: per-size lists of slab caches over the buddy allocator. */
module Slab {
  import opened Config
  import opened Sequences
  import opened BitOps
  import opened Wrappers
  import opened BuddyBlocks
  import opened BuddyState
  import opened Buddy
  import opened SlabCache

  // ----- addresses

  /** The virtual address of offset off in page p. */
  function Address(p: nat, off: nat): nat {
    KERNEL_VSTART + p * PAGE_SIZE + off
  }

  function PageOfAddress(a: nat): nat {
    if a < KERNEL_VSTART then 0 else (a - KERNEL_VSTART) / PAGE_SIZE
  }

  function OffsetOfAddress(a: nat): nat {
    a % PAGE_SIZE
  }

  /** sslab_object_to_cache: masking an object's address yields the address of its page. */
  lemma MaskFindsPage(p: nat, off: nat)
    requires off < PAGE_SIZE
    ensures Clear(Address(p, off), PAGE_SIZE - 1) == Address(p, 0)
    ensures PageOfAddress(Address(p, off)) == p && OffsetOfAddress(Address(p, off)) == off
  {
    hide Clear, Pow2;
    PageIsPow2();
    MaskIsRemainder(Address(p, off), 12);
    ModUnique(Address(p, off), KERNEL_VSTART / PAGE_SIZE + p, off, PAGE_SIZE);
    ModUnique(p * PAGE_SIZE + off, p, off, PAGE_SIZE);
  }

  lemma PageIsPow2()
    ensures Pow2(12) == PAGE_SIZE
  {
  }

  // ----- size classes

  /** k is the least order whose size is enough. */
  predicate IsOrderOf(size: nat, k: nat) {
    Pow2(k) >= size && forall j: nat :: j < k ==> Pow2(j) < size
  }

  /** sslab_size_to_order. */
  method SizeToOrder(size: nat) returns (order: nat)
    requires size <= 0x8000_0000
    ensures IsOrderOf(size, order)
    ensures size <= 1024 ==> order <= MAX_OBJ_ORDER
  {
    order := 0;
    var base := 1;
    while base < size
      invariant base == Pow2(order) && forall j: nat :: j < order ==> Pow2(j) < size
      decreases size - base
    {
      base := base * 2;
      order := order + 1;
      forall j: nat | j < order
        ensures Pow2(j) < size
      {
        Pow2Monotone(j, order - 1);
      }
    }
    if order > MAX_OBJ_ORDER {
      assert Pow2(10) == 1024;
      assert Pow2(10) < size;
    }
  }

  /** The order recovered from a cache's object size is the order the cache was made for. */
  lemma OrderIsRecovered(k: nat, order: nat)
    requires IsOrderOf(Pow2(k), order)
    ensures order == k
  {
    if order < k {
      Pow2Monotone(order, k);
    }
  }

  // ----- the scan of sslab_free

  /** sslab_object_in_cache as it is compiled: a signed comparison with one bound. */
  predicate InCache(a: nat, page: nat) {
    a - Address(page, 0) < PAGE_SIZE
  }

  /** The position of the first cache of the list that the test accepts, or the length. */
  function Scan(list: seq<nat>, a: nat): (r: nat)
    ensures r <= |list|
    ensures r < |list| ==> InCache(a, list[r])
    ensures forall j :: 0 <= j < r ==> !InCache(a, list[j])
  {
    if list == [] || InCache(a, list[0]) then 0 else 1 + Scan(list[1..], a)
  }

  /** No cache listed before the one that holds a lies above it. */
  predicate NoneAboveBefore(list: seq<nat>, i: nat) {
    i < |list| && forall j :: 0 <= j < i ==> list[j] < list[i]
  }

  /** The one-sided test accepts exactly the caches at or above the object's own. */
  lemma InCacheIsOneSided(p: nat, off: nat, page: nat)
    requires off < PAGE_SIZE
    ensures InCache(Address(p, off), page) <==> p <= page
  {
  }

  /** The scan names the cache that issued the object exactly when no cache listed before it lies at
      a higher address. */
  lemma ScanFindsOwnerIff(list: seq<nat>, i: nat, off: nat)
    requires i < |list| && off < PAGE_SIZE && NoDup(list)
    ensures Scan(list, Address(list[i], off)) == i <==> NoneAboveBefore(list, i)
    ensures Scan(list, Address(list[i], off)) <= i
  {
    forall j | 0 <= j < |list|
      ensures InCache(Address(list[i], off), list[j]) <==> list[i] <= list[j]
    {
      InCacheIsOneSided(list[i], off, list[j]);
    }
  }

  /** The cache at page p comes before every listed cache that lies above it. */
  ghost predicate OwnerFirst(list: seq<nat>, p: nat) {
    exists i :: 0 <= i < |list| && list[i] == p && NoneAboveBefore(list, i)
  }

  /** A cache that is given an object below it will hand out, next, a place with the object's offset, but
      in its own page only if the two pages are a multiple of 16 pages apart. */
  lemma StrayObject(p: nat, off: nat, c: nat)
    requires off < PAGE_SIZE && p < c
    ensures var head := (Address(p, off) - Address(c, 0)) % 0x1_0000;
            && head % PAGE_SIZE == off && OffsetOfAddress(Address(c, head)) == off
            && (PageOfAddress(Address(c, head)) == c <==> (c - p) % 16 == 0)
  {
    var d, n := (c - p) / 16, (c - p) % 16;
    var up := if n == 0 then 0 else 16 - n;
    var head := up * PAGE_SIZE + off;
    var back := if n == 0 then -d else -d - 1;
    assert Address(p, off) - Address(c, 0) == 0x1_0000 * back + head;
    ShiftedMod(head, back);
    ModUnique(head, up, off, PAGE_SIZE);
    MaskFindsPage(c + up, off);
    assert Address(c, head) == Address(c + up, off);
  }

  lemma ShiftedMod(r: nat, q: int)
    requires r < 0x1_0000
    ensures (0x1_0000 * q + r) % 0x1_0000 == r
  {
  }

  /** Named by page: the scan stops at the owner exactly when the owner comes first. */
  lemma ScanFindsOwnerByPage(list: seq<nat>, p: nat, off: nat)
    requires NoDup(list) && p in list && off < PAGE_SIZE
    ensures Scan(list, Address(p, off)) < |list|
    ensures list[Scan(list, Address(p, off))] == p <==> OwnerFirst(list, p)
    ensures list[Scan(list, Address(p, off))] >= p
  {
    InCacheIsOneSided(p, off, list[Scan(list, Address(p, off))]);
    var i :| 0 <= i < |list| && list[i] == p;
    ScanFindsOwnerIff(list, i, off);
  }

  /** Descending caches are what the buddy allocator makes of them: when an allocation of one page splits a
      larger block, the next one gets the page just below. */
  lemma SecondPageLiesBelow(zones: seq<seq<ZoneVal>>, t: nat, p: nat, q: nat)
    requires |zones| == 3 && t < |zones[0]| && |zones[0][t].areas| == MAX_ORDER + 1
    requires zones[0][t].areas[0] == Area([], 0)
    requires AllocatedAreas(zones[0], t, 0, p, zones[1]) && AllocatedAreas(zones[1], t, 0, q, zones[2])
    ensures q + 1 == p
  {
    var m := FirstFit(zones[0][t].areas, 0);
    assert m >= 1;
    Pow2Monotone(1, m);
    var areas := zones[1][t].areas;
    assert areas[0] == Area([zones[0][t].areas[m].blocks[0] + (Pow2(m) - Pow2(1))], 1);
    assert FirstFit(areas, 0) == 0;
    assert Pow2(1) == 2 && Pow2(0) == 1;
  }

  // ----- the cache lists

  /** The lists hold exactly the caches that have an order, each once and on the list of its order. */
  ghost predicate ListsMatch(lists: seq<seq<nat>>, orders: map<nat, nat>) {
    && |lists| == MAX_OBJ_ORDER + 1
    && (forall k :: 0 <= k <= MAX_OBJ_ORDER ==> NoDup(lists[k]))
    && (forall k, p :: 0 <= k <= MAX_OBJ_ORDER ==> (p in lists[k] <==> p in orders && orders[p] == k))
    && (forall p :: p in orders ==> 1 <= orders[p] <= MAX_OBJ_ORDER)
  }

  lemma ListsAfterAppend(lists: seq<seq<nat>>, orders: map<nat, nat>, k: nat, p: nat)
    requires ListsMatch(lists, orders) && 1 <= k <= MAX_OBJ_ORDER && p !in orders
    ensures ListsMatch(lists[k := lists[k] + [p]], orders[p := k])
  {
    assert p !in lists[k];
  }

  lemma ListsAfterRemove(lists: seq<seq<nat>>, orders: map<nat, nat>, k: nat, p: nat)
    requires ListsMatch(lists, orders) && k <= MAX_OBJ_ORDER && p in lists[k]
    ensures ListsMatch(lists[k := Without(lists[k], p)], orders - {p})
  {
    WithoutContents(lists[k], p);
    var lists' := lists[k := Without(lists[k], p)];
    forall j, q | 0 <= j <= MAX_OBJ_ORDER
      ensures q in lists'[j] <==> q in orders - {p} && (orders - {p})[q] == j
    {
      assert q in lists[j] <==> q in orders && orders[q] == j;
    }
  }

  // ----- the state of the slabs, on values

  datatype Object = Object(page: nat, off: nat)

  /** The lists and the caches are right: each cache is on the list of its size, is well-formed, and
      unless it is in `idle` holds at least one live object. */
  ghost predicate SlabsOk(lists: seq<seq<nat>>, orders: map<nat, nat>, vals: map<nat, CacheVal>, idle: set<nat>) {
    && ListsMatch(lists, orders) && orders.Keys == vals.Keys
    && forall p :: p in vals && p in orders ==>
         CacheOk(vals[p], orders[p]) && (p !in idle ==> vals[p].objFree < vals[p].objCnt)
  }

  /** The caches' pages belong to the slabs, not to the buddy allocator. */
  ghost predicate PagesApart(pages: seq<Page>, held: set<nat>) {
    forall p :: p in held ==> Spare(pages, p)
  }

  ghost predicate Spare(pages: seq<Page>, p: nat) {
    p < |pages| && !pages[p].reserved && ZoneOf(p) == ZONE_NORMAL && p !in PagesOf(BlocksIn(pages))
  }

  /** For every cache page, the offsets of the objects that are handed out. */
  ghost function LiveMap(vals: map<nat, CacheVal>, orders: map<nat, nat>): map<nat, set<nat>> {
    map p | p in vals && p in orders :: LiveOf(vals[p], orders[p])
  }

  /** The contents of the cache pages. */
  ghost function Bytes(vals: map<nat, CacheVal>): map<nat, seq<u8>> {
    map p | p in vals :: vals[p].mem
  }

  /** The object, of order k, is handed out and was not; nothing else changed hands. */
  ghost predicate ObjectAdded(live0: map<nat, set<nat>>, k: nat, x: Object, live: map<nat, set<nat>>) {
    && IsSlot(k, x.off) && x.off + Pow2(k) <= PAGE_SIZE
    && (x.page in live0 ==> x.off !in live0[x.page])
    && live == live0[x.page := (if x.page in live0 then live0[x.page] else {}) + {x.off}]
  }

  /** The object's bytes are zero, and no other byte of a cache page that was there changed. */
  ghost predicate ObjectZeroed(bytes0: map<nat, seq<u8>>, k: nat, x: Object, bytes: map<nat, seq<u8>>) {
    && bytes.Keys == bytes0.Keys + {x.page} && |bytes[x.page]| == PAGE_SIZE
    && (forall i :: x.off <= i < x.off + Pow2(k) && i < PAGE_SIZE ==> bytes[x.page][i] == 0)
    && (forall p :: p in bytes0 && p != x.page ==> bytes[p] == bytes0[p])
    && (x.page in bytes0 ==> bytes[x.page] == Zeroed(bytes0[x.page], x.off, x.off + Pow2(k)))
  }

  /** The object comes from the first listed cache that has one free. */
  ghost predicate DrawnFromOld(lists0: seq<seq<nat>>, vals0: map<nat, CacheVal>, zones0: seq<ZoneVal>, k: nat,
                               page: nat,
                               lists: seq<seq<nat>>, vals: map<nat, CacheVal>, zones: seq<ZoneVal>) {
    && k < |lists0| && FirstFree(lists0[k], vals0, page) && lists == lists0 && zones == zones0
    && page in vals && vals[page].objFree + 1 == vals0[page].objFree
  }

  ghost predicate FirstFree(list: seq<nat>, vals: map<nat, CacheVal>, page: nat) {
    && page in vals && vals[page].objFree > 0
    && exists i :: 0 <= i < |list| && list[i] == page && AllFull(list[..i], vals)
  }

  ghost predicate AllFull(list: seq<nat>, vals: map<nat, CacheVal>) {
    forall j :: 0 <= j < |list| ==> list[j] in vals && vals[list[j]].objFree == 0
  }

  /** All listed caches being full, the object comes from a new one, on a page that the buddy allocator
      split off as AllocatedAreas says. */
  ghost predicate DrawnFromNew(lists0: seq<seq<nat>>, vals0: map<nat, CacheVal>, zones0: seq<ZoneVal>, k: nat,
                               page: nat,
                               lists: seq<seq<nat>>, zones: seq<ZoneVal>) {
    && k < |lists0| && AllFull(lists0[k], vals0) && page !in vals0
    && lists == lists0[k := lists0[k] + [page]] && AllocatedAreas(zones0, ZONE_NORMAL, 0, page, zones)
  }

  ghost predicate Drawn(lists0: seq<seq<nat>>, vals0: map<nat, CacheVal>, zones0: seq<ZoneVal>, k: nat, page: nat,
                        lists: seq<seq<nat>>, vals: map<nat, CacheVal>, zones: seq<ZoneVal>) {
    && page in vals && vals == vals0[page := vals[page]]
    && (|| DrawnFromOld(lists0, vals0, zones0, k, page, lists, vals, zones)
        || DrawnFromNew(lists0, vals0, zones0, k, page, lists, zones))
  }

  lemma SetTwice(vals: map<nat, CacheVal>, p: nat, a: CacheVal, b: CacheVal)
    ensures vals[p := a][p := b] == vals[p := b]
  {
  }

  lemma OldServes(lists: seq<seq<nat>>, vals0: map<nat, CacheVal>, zones: seq<ZoneVal>, k: nat, i: nat,
                  vals: map<nat, CacheVal>)
    requires k < |lists| && i < |lists[k]| && AllFull(lists[k][..i], vals0)
    requires var p := lists[k][i];
             && p in vals0 && vals0[p].objFree > 0 && p in vals && vals == vals0[p := vals[p]]
             && vals[p].objFree + 1 == vals0[p].objFree
    ensures Drawn(lists, vals0, zones, k, lists[k][i], lists, vals, zones)
  {
  }

  lemma NewServes(lists0: seq<seq<nat>>, vals0: map<nat, CacheVal>, zones0: seq<ZoneVal>, k: nat, page: nat,
                  lists: seq<seq<nat>>, vals: map<nat, CacheVal>, zones: seq<ZoneVal>)
    requires k < |lists0| && AllFull(lists0[k], vals0) && page !in vals0 && page in vals
               && vals == vals0[page := vals[page]]
    requires lists == lists0[k := lists0[k] + [page]] && AllocatedAreas(zones0, ZONE_NORMAL, 0, page, zones)
    ensures Drawn(lists0, vals0, zones0, k, page, lists, vals, zones)
  {
  }

  lemma TakeKeepsSlabs(lists: seq<seq<nat>>, orders: map<nat, nat>, vals: map<nat, CacheVal>, p: nat, off: nat,
                       c: CacheVal)
    requires SlabsOk(lists, orders, vals, {p}) && p in vals && p in orders
    requires CacheOk(c, orders[p]) && ObjectTaken(vals[p], orders[p], off, c)
    ensures SlabsOk(lists, orders, vals[p := c], {}) && c.objFree + 1 == vals[p].objFree
    ensures ObjectAdded(LiveMap(vals, orders), orders[p], Object(p, off), LiveMap(vals[p := c], orders))
    ensures ObjectZeroed(Bytes(vals), orders[p], Object(p, off), Bytes(vals[p := c]))
  {
    hide CacheOk, ListsMatch, IsSlot, Pow2, LiveOf, Zeroed, Chain;
    CountersTell(vals[p], orders[p]);
    CacheOkLength(vals[p], orders[p]);
    ZeroedIsZero(vals[p].mem, off, off + Pow2(orders[p]));
  }

  lemma CacheOkLength(c: CacheVal, k: nat)
    requires CacheOk(c, k)
    ensures |c.mem| == PAGE_SIZE
  {
  }

  lemma ZeroedIsZero(mem: seq<u8>, lo: nat, hi: nat)
    ensures |Zeroed(mem, lo, hi)| == |mem|
    ensures forall i :: lo <= i < hi && i < |mem| ==> Zeroed(mem, lo, hi)[i] == 0
  {
  }

  lemma AddKeepsSlabs(lists: seq<seq<nat>>, orders: map<nat, nat>, vals: map<nat, CacheVal>, k: nat, p: nat,
                      c: CacheVal)
    requires SlabsOk(lists, orders, vals, {}) && p !in vals && 1 <= k <= MAX_OBJ_ORDER && |lists| == MAX_OBJ_ORDER + 1
    requires CacheOk(c, k)
    ensures SlabsOk(lists[k := lists[k] + [p]], orders[p := k], vals[p := c], {p})
  {
    hide CacheOk;
    ListsAfterAppend(lists, orders, k, p);
  }

  lemma ApartWith(pages: seq<Page>, held: set<nat>, p: nat)
    requires PagesApart(pages, held) && Spare(pages, p)
    ensures PagesApart(pages, held + {p})
  {
    hide Spare;
  }

  lemma ApartAfterAlloc(pages0: seq<Page>, zones0: seq<ZoneVal>, p: nat, pages: seq<Page>, zones: seq<ZoneVal>,
                        held: set<nat>)
    requires PagesApart(pages0, held) && AllocDone(pages0, zones0, ZONE_NORMAL, 0, Some(p), pages, zones)
    ensures PagesApart(pages, held) && p !in held && Spare(pages, p)
    ensures p in PagesOf(BlocksIn(pages0)) && PagesOf(BlocksIn(pages)) == PagesOf(BlocksIn(pages0)) - {p}
  {
    hide BlocksIn, PagesOf, FreeRun, AllocatedAreas, Releasable;
    OnePageAllocated(pages0, zones0, ZONE_NORMAL, p, pages, zones);
    forall q | q in held
      ensures Spare(pages, q)
    {
      assert Spare(pages0, q);
    }
  }

  lemma NewObjectAdded(live: map<nat, set<nat>>, k: nat, x: Object, live': map<nat, set<nat>>)
    requires x.page !in live && ObjectAdded(live[x.page := {}], k, x, live')
    ensures ObjectAdded(live, k, x, live')
  {
    hide IsSlot, Pow2;
  }

  lemma NewObjectZeroed(bytes: map<nat, seq<u8>>, mem: seq<u8>, k: nat, x: Object, bytes': map<nat, seq<u8>>)
    requires x.page !in bytes && ObjectZeroed(bytes[x.page := mem], k, x, bytes')
    ensures ObjectZeroed(bytes, k, x, bytes')
  {
    hide Pow2, Zeroed;
  }

  lemma LiveAndBytesAfterAdd(vals: map<nat, CacheVal>, orders: map<nat, nat>, k: nat, p: nat, c: CacheVal)
    requires p !in vals && orders.Keys == vals.Keys
    ensures p !in LiveMap(vals, orders) && p !in Bytes(vals)
    ensures LiveMap(vals[p := c], orders[p := k]) == LiveMap(vals, orders)[p := LiveOf(c, k)]
    ensures Bytes(vals[p := c]) == Bytes(vals)[p := c.mem]
  {
    hide LiveOf;
  }

  /** The object was handed out and no longer is; a page without live objects leaves the map. */
  ghost predicate ObjectRemoved(live0: map<nat, set<nat>>, x: Object, live: map<nat, set<nat>>) {
    && x.page in live0 && x.off in live0[x.page]
    && var rest := live0[x.page] - {x.off};
       live == if rest == {} then live0 - {x.page} else live0[x.page := rest]
  }

  /** Of the cache pages that are left, only the freed object's link changed. */
  ghost predicate OnlyLinkWritten(bytes0: map<nat, seq<u8>>, x: Object, bytes: map<nat, seq<u8>>) {
    && bytes.Keys <= bytes0.Keys
    && forall p :: p in bytes ==>
         && |bytes[p]| == |bytes0[p]|
         && forall j :: 0 <= j < |bytes[p]| && (p != x.page || (j != x.off && j != x.off + 1)) ==>
              bytes[p][j] == bytes0[p][j]
  }

  /** What a kfree of x does whose scan names the cache c, not the one that issued x: x gets a link, c
      counts x as its own and will hand out next what lies at that distance from c (see StrayObject).
      If that makes c count all its objects as free, its page is given up, although it has live objects.
      Nothing else changes; x stays handed out (see StrayKeepsLive). */
  ghost predicate Missed(vals0: map<nat, CacheVal>, pages0: set<nat>, k: nat, c: nat, x: Object,
                         vals: map<nat, CacheVal>, pages: set<nat>) {
    && x.page in vals0 && c in vals0 && c != x.page && LiveOf(vals0[c], k) != {}
    && x.off + 1 < |vals0[x.page].mem| && vals0[c].head < 0x1_0000
    && var stray := vals0[x.page := Stray(vals0[x.page], x.off, vals0[c].head)];
       if vals0[c].objFree + 1 == vals0[c].objCnt then
         vals == stray - {c} && pages == pages0 + {c}
       else
         vals == stray[c := Misled(vals0[c], c, x)] && pages == pages0
  }

  /** A cache that has been given an object that is not its own. */
  ghost function Misled(cache: CacheVal, c: nat, x: Object): CacheVal {
    cache.(objFree := cache.objFree + 1, head := (Address(x.page, x.off) - Address(c, 0)) % 0x1_0000)
  }

  /** The same for the cache at which the scan of list k stops, which then lies above x. */
  ghost predicate ScanMissed(lists0: seq<seq<nat>>, vals0: map<nat, CacheVal>, pages0: set<nat>, k: nat, x: Object,
                             vals: map<nat, CacheVal>, pages: set<nat>) {
    && k < |lists0|
    && var i := Scan(lists0[k], Address(x.page, x.off));
       i < |lists0[k]| && lists0[k][i] > x.page && Missed(vals0, pages0, k, lists0[k][i], x, vals, pages)
  }

  /** What a kfree of x does whose scan names its own cache, besides Released: only that cache changes, and
      if x was its last live object, it goes and its page is free. */
  ghost predicate Returned(vals0: map<nat, CacheVal>, pages0: set<nat>, k: nat, x: Object,
                           vals: map<nat, CacheVal>, pages: set<nat>) {
    && x.page in vals0
    && if LastOne(vals0, x.page) then vals == vals0 - {x.page} && pages == pages0 + {x.page}
       else x.page in vals && ObjectReturned(vals0[x.page], k, x.off, vals[x.page])
            && vals == vals0[x.page := vals[x.page]] && pages == pages0
  }

  /** All objects of the cache but one are free, by its counters. */
  ghost predicate LastOne(vals: map<nat, CacheVal>, c: nat) {
    c in vals && vals[c].objFree + 1 == vals[c].objCnt
  }

  /** If it has gone, the cache c is on list k no more. */
  ghost predicate Unlisted(lists0: seq<seq<nat>>, caches0: map<nat, Cache>, k: nat, c: nat, gone: bool,
                           lists: seq<seq<nat>>, caches: map<nat, Cache>) {
    && k < |lists0|
    && lists == (if gone then lists0[k := Without(lists0[k], c)] else lists0)
    && caches == if gone then caches0 - {c} else caches0
  }

  /** The same for the cache that the scan of list k names, which goes if it has one object left to be
      freed. */
  ghost predicate NamedUnlisted(lists0: seq<seq<nat>>, vals0: map<nat, CacheVal>, caches0: map<nat, Cache>, k: nat,
                                a: nat, lists: seq<seq<nat>>, caches: map<nat, Cache>) {
    && k < |lists0| && Scan(lists0[k], a) < |lists0[k]|
    && var c := lists0[k][Scan(lists0[k], a)];
       Unlisted(lists0, caches0, k, c, LastOne(vals0, c), lists, caches)
  }

  lemma UnlistedByScan(lists0: seq<seq<nat>>, vals0: map<nat, CacheVal>, caches0: map<nat, Cache>, k: nat, a: nat,
                       lists: seq<seq<nat>>, caches: map<nat, Cache>)
    requires k < |lists0| && Scan(lists0[k], a) < |lists0[k]|
    requires var c := lists0[k][Scan(lists0[k], a)];
             Unlisted(lists0, caches0, k, c, LastOne(vals0, c), lists, caches)
    ensures NamedUnlisted(lists0, vals0, caches0, k, a, lists, caches)
  {
  }

  /** Only the object's link and the named cache's fields have changed. */
  ghost predicate Strayed(vals0: map<nat, CacheVal>, c: nat, x: Object, vals: map<nat, CacheVal>) {
    && x.page in vals0 && c in vals0 && x.off + 1 < |vals0[x.page].mem| && vals0[c].head < 0x1_0000
    && vals == vals0[x.page := Stray(vals0[x.page], x.off, vals0[c].head)][c := Misled(vals0[c], c, x)]
  }

  lemma StrayedVals(vals0: map<nat, CacheVal>, p: nat, off: nat, c: nat, a: nat, vals: map<nat, CacheVal>)
    requires p in vals0 && c in vals0 && p != c && vals.Keys == vals0.Keys && a == Address(p, off)
    requires off + 1 < |vals0[p].mem| && vals0[c].head < 0x1_0000 && ObjectAt(a) == Object(p, off)
    requires forall q :: q in vals && q != p && q != c ==> vals[q] == vals0[q]
    requires vals[p] == vals0[p].(mem := Put16(vals0[p].mem, off, vals0[c].head))
    requires vals[c] == vals0[c].(objFree := vals0[c].objFree + 1, head := (a - Address(c, 0)) % 0x1_0000)
    ensures Strayed(vals0, c, ObjectAt(a), vals)
  {
    hide Put16, Address, PageOfAddress, OffsetOfAddress;
    assert vals[p] == Stray(vals0[p], off, vals0[c].head) && vals[c] == Misled(vals0[c], c, ObjectAt(a));
    assert vals == vals0[p := vals[p]][c := vals[c]];
  }

  lemma StrayedFacts(vals0: map<nat, CacheVal>, c: nat, x: Object, vals: map<nat, CacheVal>)
    requires Strayed(vals0, c, x, vals)
    ensures c in vals && vals[c].objFree == vals0[c].objFree + 1 && vals[c].objCnt == vals0[c].objCnt
  {
  }

  lemma ReturnedAfterAll(vals0: map<nat, CacheVal>, pages0: set<nat>, k: nat, x: Object,
                         vals1: map<nat, CacheVal>, vals: map<nat, CacheVal>, pages: set<nat>)
    requires x.page in vals0 && x.page in vals1 && vals1 == vals0[x.page := vals1[x.page]]
    requires ObjectReturned(vals0[x.page], k, x.off, vals1[x.page])
    requires vals == if vals1[x.page].objFree == vals1[x.page].objCnt then vals1 - {x.page} else vals1
    requires pages == pages0 + if vals1[x.page].objFree == vals1[x.page].objCnt then {x.page} else {}
    ensures Returned(vals0, pages0, k, x, vals, pages)
  {
    hide LiveOf, Chain;
    assert vals1 - {x.page} == vals0 - {x.page};
  }

  lemma WasLastOne(vals0: map<nat, CacheVal>, k: nat, x: Object, c: nat, vals1: map<nat, CacheVal>)
    requires c in vals0 && c in vals1
    requires Strayed(vals0, c, x, vals1) || ObjectReturned(vals0[c], k, x.off, vals1[c])
    ensures vals1[c].objFree == vals1[c].objCnt <==> LastOne(vals0, c)
  {
    hide LiveOf, Chain;
  }

  lemma HeadFits(cache: CacheVal, k: nat)
    requires CacheOk(cache, k)
    ensures cache.head < 0x1_0000
  {
  }

  lemma MissedAfterAll(vals0: map<nat, CacheVal>, pages0: set<nat>, k: nat, c: nat, x: Object,
                       vals1: map<nat, CacheVal>, vals: map<nat, CacheVal>, pages: set<nat>)
    requires x.page in vals0 && c in vals0 && c != x.page
    requires CacheOk(vals0[c], k) && vals0[c].objFree < vals0[c].objCnt
    requires Strayed(vals0, c, x, vals1)
    requires vals == if vals1[c].objFree == vals1[c].objCnt then vals1 - {c} else vals1
    requires pages == pages0 + if vals1[c].objFree == vals1[c].objCnt then {c} else {}
    ensures Missed(vals0, pages0, k, c, x, vals, pages)
  {
    CountersTell(vals0[c], k);
    hide CacheOk, LiveOf, Stray, Address;
    var stray := vals0[x.page := Stray(vals0[x.page], x.off, vals0[c].head)];
    assert stray[c := Misled(vals0[c], c, x)] - {c} == stray - {c};
  }

  /** An object that its cache still counts as handed out has not been released. */
  lemma StillLive(vals0: map<nat, CacheVal>, pages0: set<nat>, k: nat, c: nat, x: Object,
                  vals: map<nat, CacheVal>, pages: set<nat>, orders: map<nat, nat>, live0: map<nat, set<nat>>)
    requires Missed(vals0, pages0, k, c, x, vals, pages) && x.page in orders && orders[x.page] == k
    requires CacheOk(vals0[x.page], k) && x.off in LiveOf(vals0[x.page], k)
    ensures x.page in vals && vals[x.page] == Stray(vals0[x.page], x.off, vals0[c].head)
    ensures CacheOk(vals[x.page], k) && x.off in LiveOf(vals[x.page], k)
    ensures !ObjectRemoved(live0, x, LiveMap(vals, orders))
  {
    StrayKeepsLive(vals0[x.page], k, x.off, vals0[c].head);
    hide LiveOf, CacheOk, Stray, Address;
    assert vals[x.page] == Stray(vals0[x.page], x.off, vals0[c].head);
    assert x.page in LiveMap(vals, orders) && x.off in LiveMap(vals, orders)[x.page];
  }

  lemma ReturnKeepsSlabs(lists: seq<seq<nat>>, orders: map<nat, nat>, vals: map<nat, CacheVal>, p: nat, off: nat,
                         c: CacheVal)
    requires SlabsOk(lists, orders, vals, {}) && p in vals && p in orders
    requires CacheOk(c, orders[p]) && ObjectReturned(vals[p], orders[p], off, c)
    ensures SlabsOk(lists, orders, vals[p := c], {p})
    ensures p in LiveMap(vals, orders)
    ensures LiveMap(vals[p := c], orders) == LiveMap(vals, orders)[p := LiveMap(vals, orders)[p] - {off}]
    ensures OnlyLinkWritten(Bytes(vals), Object(p, off), Bytes(vals[p := c]))
  {
    hide CacheOk, ListsMatch, LiveOf, Chain, Get16;
  }

  /** A cache that still has live objects stays. */
  lemma StayKeepsSlabs(lists: seq<seq<nat>>, orders: map<nat, nat>, vals: map<nat, CacheVal>, p: nat)
    requires SlabsOk(lists, orders, vals, {p}) && p in vals && p in orders && vals[p].objFree != vals[p].objCnt
    ensures SlabsOk(lists, orders, vals, {})
    ensures p in LiveMap(vals, orders) && LiveMap(vals, orders)[p] != {}
  {
    hide CacheOk, ListsMatch, LiveOf;
    CountersTell(vals[p], orders[p]);
  }

  /** A cache without live objects goes. */
  lemma DropKeepsSlabs(lists: seq<seq<nat>>, orders: map<nat, nat>, vals: map<nat, CacheVal>, p: nat)
    requires SlabsOk(lists, orders, vals, {p}) && p in vals && p in orders && vals[p].objFree == vals[p].objCnt
    ensures orders[p] <= MAX_OBJ_ORDER < |lists|
    ensures SlabsOk(lists[orders[p] := Without(lists[orders[p]], p)], orders - {p}, vals - {p}, {})
    ensures p in LiveMap(vals, orders) && LiveMap(vals, orders)[p] == {}
    ensures LiveMap(vals - {p}, orders - {p}) == LiveMap(vals, orders) - {p}
    ensures Bytes(vals - {p}) == Bytes(vals) - {p}
  {
    hide CacheOk, LiveOf, NoDup, Without, LiveMap, ListsMatch;
    CountersTell(vals[p], orders[p]);
    OrderInRange(lists, orders, p);
    ListsAfterRemove(lists, orders, orders[p], p);
    ViewsAfterDrop(vals, orders, p);
  }

  lemma OrderInRange(lists: seq<seq<nat>>, orders: map<nat, nat>, p: nat)
    requires ListsMatch(lists, orders) && p in orders
    ensures 1 <= orders[p] <= MAX_OBJ_ORDER < |lists| && p in lists[orders[p]]
  {
  }

  lemma ViewsAfterDrop(vals: map<nat, CacheVal>, orders: map<nat, nat>, p: nat)
    requires p in vals && p in orders
    ensures p in LiveMap(vals, orders) && LiveMap(vals, orders)[p] == LiveOf(vals[p], orders[p])
    ensures LiveMap(vals - {p}, orders - {p}) == LiveMap(vals, orders) - {p}
    ensures Bytes(vals - {p}) == Bytes(vals) - {p}
  {
    hide LiveOf;
  }

  lemma ApartAfterFree(pages0: seq<Page>, zones0: seq<ZoneVal>, p: nat, pages: seq<Page>, zones: seq<ZoneVal>,
                       held: set<nat>)
    requires PagesApart(pages0, held) && p in held && FreeDone(pages0, zones0, Block(p, 0), pages, zones)
    ensures PagesApart(pages, held - {p})
    ensures PagesOf(BlocksIn(pages)) == PagesOf(BlocksIn(pages0)) + {p}
  {
    hide BlocksIn, PagesOf, FreedAreas;
    OnePageFreed(pages0, zones0, p, pages, zones);
    forall q | q in held - {p}
      ensures Spare(pages, q)
    {
      assert Spare(pages0, q);
    }
  }

  lemma HeldIsReleasable(pages: seq<Page>, held: set<nat>, p: nat)
    requires PagesApart(pages, held) && p in held && forall q :: 0 <= q < |pages| ==> pages[q].zoneType == ZoneOf(q)
    ensures p < |pages| && !pages[p].reserved && !pages[p].buddy && Releasable(pages, Block(p, 0)) && ZoneOf(p) < 3
  {
    hide BlocksIn, PagesOf;
    assert Spare(pages, p);
    SinglePageReleasable(pages, p);
  }

  lemma ZonesKept(pages0: seq<Page>, zones0: seq<ZoneVal>, b: Block, pages: seq<Page>, zones: seq<ZoneVal>)
    requires FreeDone(pages0, zones0, b, pages, zones)
    requires forall q :: 0 <= q < |pages0| ==> pages0[q].zoneType == ZoneOf(q)
    ensures |pages| == |pages0| && forall q :: 0 <= q < |pages| ==> pages[q].zoneType == ZoneOf(q)
  {
  }

  lemma PageMoves(free: set<nat>, held: set<nat>, p: nat)
    requires p in held
    ensures (free + {p}) + (held - {p}) == free + held
  {
  }

  ghost predicate SubMap(a: map<nat, nat>, b: map<nat, nat>) {
    forall p :: p in a ==> p in b && b[p] == a[p]
  }

  lemma SubMapAfterAdd(orders: map<nat, nat>, p: nat, k: nat)
    requires p !in orders
    ensures SubMap(orders, orders[p := k])
  {
  }

  lemma SubMapReflexive(orders: map<nat, nat>)
    ensures SubMap(orders, orders)
  {
  }

  /** The free blocks, the cache lists, and for every cache page its order, what is handed out on it
      and its bytes. */
  datatype System = System(blocks: set<Block>, lists: seq<seq<nat>>, orders: map<nat, nat>,
                           live: map<nat, set<nat>>, bytes: map<nat, seq<u8>>)

  ghost predicate Listed(lists: seq<seq<nat>>, p: nat) {
    exists k :: 0 <= k < |lists| && p in lists[k]
  }

  /** The free blocks are coalesced, the listed caches are those with live objects, every one of them
      has some, at proper offsets, and no cache page is free. */
  ghost predicate InOrder(s: System) {
    && Coalesced(s.blocks)
    && (forall p :: Listed(s.lists, p) <==> p in s.live)
    && s.orders.Keys == s.live.Keys == s.bytes.Keys
    && (forall p :: p in s.live ==> s.live[p] != {} && p !in PagesOf(s.blocks))
    && (forall p :: p in s.live ==> PageInOrder(s.orders[p], s.live[p], s.bytes[p]))
  }

  ghost predicate PageInOrder(k: nat, live: set<nat>, bytes: seq<u8>) {
    1 <= k <= MAX_OBJ_ORDER && |bytes| == PAGE_SIZE && forall off :: off in live ==> IsSlot(k, off)
  }

  lemma CachePageInOrder(c: CacheVal, k: nat)
    requires CacheOk(c, k)
    ensures PageInOrder(k, LiveOf(c, k), c.mem)
  {
    SlotsAreSlots(k);
  }

  lemma ListsCover(lists: seq<seq<nat>>, orders: map<nat, nat>)
    requires ListsMatch(lists, orders)
    ensures forall p :: Listed(lists, p) <==> p in orders
  {
    forall p
      ensures Listed(lists, p) <==> p in orders
    {
      if p in orders {
        assert p in lists[orders[p]];
      }
    }
  }

  /** No cache has been replaced or has gone; that of the page may be new. */
  ghost predicate GrownBy(caches0: map<nat, Cache>, page: nat, caches: map<nat, Cache>) {
    page in caches && caches == if page in caches0 then caches0 else caches0[page := caches[page]]
  }

  lemma NotGrown(caches: map<nat, Cache>, page: nat)
    requires page in caches
    ensures GrownBy(caches, page, caches)
  {
  }

  // ----- the allocator

  class Slabs {
    const buddy: Allocator
    /** __sslab[k].caches: the pages of the caches of order k, in list order. */
    var lists: seq<seq<nat>>
    /** What those pages hold. */
    var caches: map<nat, Cache>
    ghost var orders: map<nat, nat>

    /** init_sslab over a buddy allocator that is up. */
    constructor (buddy: Allocator)
      requires buddy.Ready()
      ensures this.buddy == buddy && Valid() && caches == map[] && lists == NoLists()
    {
      this.buddy := buddy;
      lists := NoLists();
      caches := map[];
      orders := map[];
    }

    ghost function Memories(): set<array<u8>>
      reads this, caches.Values
    {
      set p | p in caches :: caches[p].mem
    }

    /** The caches of different pages share nothing. */
    ghost predicate Footprint()
      reads this, caches.Values
    {
      && (forall p, q :: p in caches && q in caches && p != q ==>
            caches[p] != caches[q] && caches[p].mem != caches[q].mem)
      && (forall p :: p in caches ==> caches[p].page == p)
    }

    ghost function Vals(): map<nat, CacheVal>
      reads this, caches.Values, Memories()
    {
      map p | p in caches :: caches[p].Val()
    }

    ghost predicate ValidBut(idle: set<nat>)
      reads this, caches.Values, Memories(), buddy.pages, buddy.zones
    {
      buddy.Ready() && Footprint() && SlabsOk(lists, orders, Vals(), idle) && PagesApart(buddy.pages[..], caches.Keys)
    }

    /** Between operations every listed cache holds at least one live object. */
    ghost predicate Valid()
      reads this, caches.Values, Memories(), buddy.pages, buddy.zones
    {
      ValidBut({})
    }

    /** The objects handed out, by page. */
    ghost function Live(): map<nat, set<nat>>
      reads this, caches.Values, Memories()
    {
      LiveMap(Vals(), orders)
    }

    /** The pages the slabs and the buddy allocator hold between them. */
    ghost function AllPages(): set<nat>
      reads this, buddy.pages
    {
      buddy.FreePages() + caches.Keys
    }

    /** sslab_cache_alloc on a listed cache that has a free object. */
    method TakeFrom(cache: Cache, p: nat) returns (off: nat)
      requires ValidBut({p}) && p in orders && p in caches && cache == caches[p] && cache.objFree > 0
      modifies cache`head, cache`objFree, cache.mem
      ensures Valid()
      ensures ObjectAdded(old(Live()), orders[p], Object(p, off), Live())
      ensures ObjectZeroed(old(Bytes(Vals())), orders[p], Object(p, off), Bytes(Vals()))
      ensures Handed(old(Live()), old(Bytes(Vals())), orders[p], Object(p, off))
      ensures cache.objFree + 1 == old(cache.objFree) && Vals() == old(Vals())[p := cache.Val()]
    {
      hide SlabsOk, PagesApart, StateOk, CacheOk, ObjectTaken, ObjectAdded, ObjectZeroed, LiveMap, Bytes;
      CacheIsOk(p, {p});
      ghost var vals0 := Vals();
      var got := cache.Alloc(orders[p]);
      off := got.value;
      assert Vals() == vals0[p := cache.Val()];
      TakeKeepsSlabs(lists, orders, vals0, p, off, cache.Val());
    }

    lemma CacheIsOk(p: nat, idle: set<nat>)
      requires p in caches && p in orders && SlabsOk(lists, orders, Vals(), idle)
      ensures caches[p].Valid(orders[p]) && caches[p].mem.Length == PAGE_SIZE
    {
      assert Vals()[p] == caches[p].Val();
    }

    /** One page from the buddy allocator. */
    method TakePage() returns (r: Option<nat>)
      requires Valid()
      modifies buddy.pages, buddy.zones
      ensures Valid() && (r.None? <==> !old(exists b :: FreeRun(buddy.pages[..], ZONE_NORMAL, 0, b)))
      ensures buddy.FreePages() == old(buddy.FreePages()) - if r.Some? then {r.value} else {}
      ensures r.Some? ==> r.value !in caches && Spare(buddy.pages[..], r.value) && r.value in old(buddy.FreePages())
      ensures r.Some? ==> AllocatedAreas(old(buddy.ZoneVals()), ZONE_NORMAL, 0, r.value, buddy.ZoneVals())
      ensures Vals() == old(Vals())
    {
      hide SlabsOk, StateOk, FreeRun, BlocksIn, PagesOf, PagesApart, Spare, AllocatedAreas;
      ghost var pages0, zones0 := buddy.pages[..], buddy.ZoneVals();
      r := buddy.AllocPage(ZONE_NORMAL, 0, 3);
      if r.Some? {
        ApartAfterAlloc(pages0, zones0, r.value, buddy.pages[..], buddy.ZoneVals(), caches.Keys);
      }
      assert Vals() == old(Vals());
    }

    /** list_add_tail of a new cache. */
    method AddCache(cache: Cache, k: nat, p: nat)
      requires Valid() && p !in caches && Spare(buddy.pages[..], p) && 1 <= k <= MAX_OBJ_ORDER
                 && |lists| == MAX_OBJ_ORDER + 1
      requires cache.Valid(k) && cache.page == p && cache !in caches.Values && cache.mem !in Memories()
      modifies this
      ensures ValidBut({p})
      ensures caches == old(caches)[p := cache] && orders == old(orders)[p := k]
      ensures lists == old(lists)[k := old(lists[k]) + [p]]
      ensures Vals() == old(Vals())[p := cache.Val()]
    {
      hide SlabsOk, StateOk, Spare, CacheOk, PagesOf, BlocksIn, PagesApart;
      ApartWith(buddy.pages[..], caches.Keys, p);
      AddKeepsSlabs(lists, orders, Vals(), k, p, cache.Val());
      caches := caches[p := cache];
      orders := orders[p := k];
      lists := lists[k := lists[k] + [p]];
      assert Footprint();
      assert Vals() == old(Vals())[p := cache.Val()];
      assert caches.Keys == old(caches.Keys) + {p};
    }

    /** The scan of sslab_alloc: the first cache on the list with a free object, or the length. */
    method FirstWithFree(k: nat) returns (i: nat)
      requires |lists| == MAX_OBJ_ORDER + 1 && k <= MAX_OBJ_ORDER
      requires forall p :: p in lists[k] ==> p in caches
      ensures i <= |lists[k]| && (i < |lists[k]| ==> caches[lists[k][i]].objFree > 0)
      ensures forall j :: 0 <= j < i ==> caches[lists[k][j]].objFree == 0
    {
      i := 0;
      while i < |lists[k]| && caches[lists[k][i]].objFree == 0
        invariant i <= |lists[k]|
        invariant forall j :: 0 <= j < i ==> caches[lists[k][j]].objFree == 0
      {
        i := i + 1;
      }
    }

    /** sslab_cache_create with list_add_tail: a new cache of order k at the end of its list. */
    method NewCache(k: nat) returns (r: Option<nat>)
      requires Valid() && 1 <= k <= MAX_OBJ_ORDER && |lists| == MAX_OBJ_ORDER + 1
      modifies this, buddy.pages, buddy.zones
      ensures AllPages() == old(AllPages())
      ensures r.None? <==> !old(exists b :: FreeRun(buddy.pages[..], ZONE_NORMAL, 0, b))
      ensures r.None? ==> Valid() && lists == old(lists) && orders == old(orders) && Vals() == old(Vals())
      ensures r.None? ==> caches == old(caches)
      ensures r.Some? ==>
                && var p := r.value;
                && ValidBut({p}) && p !in old(caches) && p in caches && caches[p].objFree > 0
                && orders == old(orders)[p := k] && fresh(caches[p]) && fresh(caches[p].mem)
                && Vals() == old(Vals())[p := caches[p].Val()] && LiveOf(caches[p].Val(), k) == {}
                && lists == old(lists)[k := old(lists[k]) + [p]] && caches == old(caches)[p := caches[p]]
                && AllocatedAreas(old(buddy.ZoneVals()), ZONE_NORMAL, 0, p, buddy.ZoneVals())
    {
      hide SlabsOk, StateOk, FreeRun, BlocksIn, PagesOf, PagesApart, Spare, CacheOk, Pow2, Chain, Slots, LiveOf,
           AllocatedAreas;
      var page := TakePage();
      if page == None {
        return None;
      }
      var p := page.value;
      ghost var vals, pages := Vals(), buddy.pages[..];
      var cache := new Cache(p, Pow2(k), k);
      assert Vals() == vals && buddy.pages[..] == pages;
      AddCache(cache, k, p);
      r := Some(p);
    }

    /** The part of sslab_alloc for a full list. */
    method AllocFromNew(k: nat) returns (r: Option<Object>)
      requires Valid() && 1 <= k <= MAX_OBJ_ORDER && |lists| == MAX_OBJ_ORDER + 1
      modifies this, buddy.pages, buddy.zones
      ensures Valid() && AllPages() == old(AllPages())
      ensures r.None? <==> !old(exists b :: FreeRun(buddy.pages[..], ZONE_NORMAL, 0, b))
      ensures r.None? ==> Kept(old(lists), old(Vals()), old(Live()))
      ensures r.Some? ==> Handed(old(Live()), old(Bytes(Vals())), k, r.value)
      ensures r.Some? ==>
                && r.value.page !in old(caches) && lists == old(lists)[k := old(lists[k]) + [r.value.page]]
                && r.value.page in caches && Vals() == old(Vals())[r.value.page := caches[r.value.page].Val()]
                && AllocatedAreas(old(buddy.ZoneVals()), ZONE_NORMAL, 0, r.value.page, buddy.ZoneVals())
      ensures r.None? ==> caches == old(caches)
      ensures r.Some? ==> GrownBy(old(caches), r.value.page, caches)
      ensures r.Some? && r.value.page !in old(caches) ==> fresh(caches[r.value.page]) && fresh(caches[r.value.page].mem)
      ensures SubMap(old(orders), orders)
    {
      hide SlabsOk, StateOk, FreeRun, BlocksIn, PagesOf, PagesApart, CacheOk, ObjectAdded, ObjectZeroed, LiveMap, Bytes,
           Pow2, Chain, Slots, LiveOf, SubMap, Kept, AllocatedAreas;
      ghost var vals, orders0 := Vals(), orders;
      OrdersAreCaches();
      SubMapReflexive(orders);
      var page := NewCache(k);
      if page == None {
        MakeKept();
        return None;
      }
      var p := page.value;
      ghost var c := caches[p].Val();
      LiveAndBytesAfterAdd(vals, orders0, k, p, c);
      var off := TakeFrom(caches[p], p);
      assert Vals() == vals[p := caches[p].Val()] by {
        SetTwice(vals, p, c, caches[p].Val());
      }
      r := Some(Object(p, off));
      NewObjectAdded(LiveMap(vals, orders0), k, r.value, Live());
      NewObjectZeroed(Bytes(vals), c.mem, k, r.value, Bytes(Vals()));
      SubMapAfterAdd(orders0, p, k);
    }

    lemma MakeKept()
      ensures Kept(lists, Vals(), Live())
    {
    }

    lemma OrdersAreCaches()
      requires Valid()
      ensures orders.Keys == caches.Keys == Vals().Keys
    {
    }

    /** An object of order k was handed out: see ObjectAdded and ObjectZeroed. */
    ghost predicate Handed(live0: map<nat, set<nat>>, bytes0: map<nat, seq<u8>>, k: nat, x: Object)
      reads this, caches.Values, Memories()
    {
      && x.page in orders && orders[x.page] == k
      && ObjectAdded(live0, k, x, Live())
      && ObjectZeroed(bytes0, k, x, Bytes(Vals()))
    }

    /** The lists, the caches and what is handed out are as they were. */
    ghost predicate Kept(lists0: seq<seq<nat>>, vals0: map<nat, CacheVal>, live0: map<nat, set<nat>>)
      reads this, caches.Values, Memories()
    {
      lists == lists0 && Vals() == vals0 && Live() == live0
    }

    /** An object was taken back: see ObjectRemoved and OnlyLinkWritten. */
    ghost predicate Released(live0: map<nat, set<nat>>, bytes0: map<nat, seq<u8>>, x: Object)
      reads this, caches.Values, Memories()
    {
      ObjectRemoved(live0, x, Live()) && OnlyLinkWritten(bytes0, x, Bytes(Vals()))
    }

    /** Every cache of order k is full and the normal zone has no free page. */
    ghost predicate Exhausted(k: nat)
      reads this, caches.Values, buddy.pages
    {
      && (forall p :: p in orders && p in caches && orders[p] == k ==> caches[p].objFree == 0)
      && !exists b :: FreeRun(buddy.pages[..], ZONE_NORMAL, 0, b)
    }

    /** The part of sslab_alloc for a list with a free object: its i-th cache is the first that has one. */
    method AllocFromOld(k: nat, i: nat) returns (x: Object)
      requires Valid() && k < |lists| && i < |lists[k]| && AllFull(lists[k][..i], Vals())
      requires var p := lists[k][i]; p in orders && orders[p] == k && p in caches && caches[p].objFree > 0
      modifies caches.Values, Memories()
      ensures Valid() && x.page == lists[k][i]
      ensures Handed(old(Live()), old(Bytes(Vals())), k, x)
      ensures Drawn(lists, old(Vals()), buddy.ZoneVals(), k, x.page, lists, Vals(), buddy.ZoneVals())
    {
      hide SlabsOk, StateOk, PagesApart, LiveMap, Bytes, Handed, Drawn, AllFull, ObjectAdded, ObjectZeroed;
      var p := lists[k][i];
      IdleOrNot(p);
      ghost var vals0 := Vals();
      var off := TakeFrom(caches[p], p);
      x := Object(p, off);
      OldServes(lists, vals0, buddy.ZoneVals(), k, i, Vals());
    }

    /** sslab_alloc: an object from the first cache that has one free, or from a new cache. */
    method AllocObject(k: nat) returns (r: Option<Object>)
      requires Valid() && 1 <= k <= MAX_OBJ_ORDER
      modifies this, caches.Values, Memories(), buddy.pages, buddy.zones
      ensures Valid() && AllPages() == old(AllPages())
      ensures r.None? <==> old(Exhausted(k))
      ensures r.None? ==> Kept(old(lists), old(Vals()), old(Live()))
      ensures r.Some? ==> Handed(old(Live()), old(Bytes(Vals())), k, r.value)
      ensures r.Some? ==>
                Drawn(old(lists), old(Vals()), old(buddy.ZoneVals()), k, r.value.page, lists, Vals(), buddy.ZoneVals())
      ensures r.None? ==> caches == old(caches)
      ensures r.Some? ==> GrownBy(old(caches), r.value.page, caches)
      ensures r.Some? && r.value.page !in old(caches) ==> fresh(caches[r.value.page]) && fresh(caches[r.value.page].mem)
      ensures SubMap(old(orders), orders)
    {
      hide SlabsOk, StateOk, FreeRun, BlocksIn, PagesOf, PagesApart, LiveMap, Bytes, Kept, Handed, SubMap,
           AllocatedAreas, Drawn, AllFull, GrownBy;
      SubMapReflexive(orders);
      ListsHoldCaches(k);
      ghost var lists0, vals0, zones0 := lists, Vals(), buddy.ZoneVals();
      var i := FirstWithFree(k);
      assert Vals() == vals0 && Live() == old(Live()) && buddy.ZoneVals() == zones0;
      FullUpTo(k, i);
      if i == |lists[k]| {
        assert lists[k][..i] == lists[k];
        r := AllocFromNew(k);
        if r.Some? {
          NewServes(lists0, vals0, zones0, k, r.value.page, lists, Vals(), buddy.ZoneVals());
        }
      } else {
        assert lists[k][i] in lists[k];
        var x := AllocFromOld(k, i);
        NotGrown(caches, x.page);
        r := Some(x);
      }
    }

    lemma FullUpTo(k: nat, i: nat)
      requires k < |lists| && i <= |lists[k]|
      requires forall j :: 0 <= j < i ==> lists[k][j] in caches && caches[lists[k][j]].objFree == 0
      ensures AllFull(lists[k][..i], Vals())
    {
    }

    lemma ListsHoldCaches(k: nat)
      requires Valid() && k <= MAX_OBJ_ORDER
      ensures |lists| == MAX_OBJ_ORDER + 1
      ensures forall p :: p in lists[k] <==> p in orders && p in caches && orders[p] == k
    {
    }

    lemma IdleOrNot(p: nat)
      requires Valid()
      ensures ValidBut({p})
    {
    }

    /** sslab_cache_destroy: the cache's page goes back to the buddy allocator. */
    method FreeCachePage(p: nat, ghost held: set<nat>)
      requires buddy.Ready() && PagesApart(buddy.pages[..], held) && p in held
      modifies buddy.pages, buddy.zones
      ensures buddy.Ready() && PagesApart(buddy.pages[..], held - {p})
      ensures buddy.FreePages() == old(buddy.FreePages()) + {p}
    {
      ghost var pages0, zones0 := buddy.pages[..], buddy.ZoneVals();
      HeldIsReleasable(pages0, held, p);
      hide StateOk, BlocksIn, PagesOf, FreedAreas, Releasable, PagesApart, FreeDone, ZoneOf;
      buddy.FreePage(p, 0, 3);
      ApartAfterFree(pages0, zones0, p, buddy.pages[..], buddy.ZoneVals(), held);
      ZonesKept(pages0, zones0, Block(p, 0), buddy.pages[..], buddy.ZoneVals());
    }

    /** list_del and sslab_cache_destroy. */
    method Destroy(k: nat, p: nat)
      requires buddy.Ready() && PagesApart(buddy.pages[..], caches.Keys) && p in caches && k < |lists|
      modifies this, buddy.pages, buddy.zones
      ensures buddy.Ready() && PagesApart(buddy.pages[..], caches.Keys)
      ensures lists == old(lists)[k := Without(old(lists)[k], p)]
      ensures caches == old(caches) - {p} && orders == old(orders) - {p}
      ensures Vals() == old(Vals()) - {p} && (old(Footprint()) ==> Footprint())
      ensures buddy.FreePages() == old(buddy.FreePages()) + {p} && AllPages() == old(AllPages())
    {
      hide StateOk, BlocksIn, PagesOf, PagesApart, Without, ZoneOf, Allocator.Ready, Allocator.FreePages;
      ghost var held := caches.Keys;
      PageMoves(buddy.FreePages(), held, p);
      Unlist(k, p);
      assert caches.Keys == held - {p};
      ghost var vals := Vals();
      FreeCachePage(p, held);
      assert Vals() == vals;
    }

    /** The cache of page p is on no list any more. */
    method Unlist(k: nat, p: nat)
      requires k < |lists|
      modifies this
      ensures lists == old(lists)[k := Without(old(lists)[k], p)]
      ensures caches == old(caches) - {p} && orders == old(orders) - {p}
      ensures Vals() == old(Vals()) - {p} && (old(Footprint()) ==> Footprint())
    {
      ghost var vals := Vals();
      lists := lists[k := Without(lists[k], p)];
      caches := caches - {p};
      orders := orders - {p};
      assert Vals() == vals - {p};
    }

    /** The scan of sslab_free. */
    method FindCache(k: nat, a: nat) returns (i: nat)
      requires k < |lists|
      ensures i == Scan(lists[k], a)
    {
      i := 0;
      while i < |lists[k]| && !(a - Address(lists[k][i], 0) < PAGE_SIZE)
        invariant i <= |lists[k]| && Scan(lists[k], a) == i + Scan(lists[k][i..], a)
      {
        assert lists[k][i..][1..] == lists[k][i + 1..];
        i := i + 1;
      }
    }

    /** The end of sslab_free: a cache whose objects are all free goes back to the buddy allocator. */
    method DestroyIfIdle(k: nat, c: nat)
      requires buddy.Ready() && PagesApart(buddy.pages[..], caches.Keys) && c in caches && k < |lists|
      modifies this, buddy.pages, buddy.zones
      ensures AllPages() == old(AllPages()) && SubMap(orders, old(orders)) && buddy.Ready()
      ensures Vals() == if old(caches[c].objFree == caches[c].objCnt) then old(Vals()) - {c} else old(Vals())
      ensures orders == if old(caches[c].objFree == caches[c].objCnt) then old(orders) - {c} else old(orders)
      ensures Unlisted(old(lists), old(caches), k, c, old(caches[c].objFree == caches[c].objCnt), lists, caches)
      ensures buddy.FreePages() == old(buddy.FreePages())
                + (if old(caches[c].objFree == caches[c].objCnt) then {c} else {})
      ensures old(ValidBut({c}) && c in orders && orders[c] == k) ==>
                && Valid() && c in old(Live())
                && Live() == (if old(Live())[c] == {} then old(Live()) - {c} else old(Live()))
                && (Bytes(Vals()) == old(Bytes(Vals())) || Bytes(Vals()) == old(Bytes(Vals())) - {c})
    {
      hide SlabsOk, StateOk, BlocksIn, PagesOf, Spare, LiveMap, Bytes, PagesApart, Without;
      ghost var vals := Vals();
      ghost var good := ValidBut({c}) && c in orders && orders[c] == k;
      if caches[c].objFree == caches[c].objCnt {
        if good {
          DropKeepsSlabs(lists, orders, vals, c);
        }
        Destroy(k, c);
      } else if good {
        StayKeepsSlabs(lists, orders, vals, c);
      }
    }

    /** sslab_cache_free as sslab_free calls it: by the cache that the scan named. */
    method ReturnObject(k: nat, c: nat, a: nat)
      requires Valid() && HandedOut(k, a) && c in caches && c in orders && orders[c] == k
      requires PageOfAddress(a) in caches
      modifies caches.Values, Memories()
      ensures buddy.Ready() && PagesApart(buddy.pages[..], caches.Keys)
      ensures c == PageOfAddress(a) ==>
                && TakenBack(old(Live()), old(Bytes(Vals())), ObjectAt(a))
                && c in Vals() && Vals() == old(Vals())[c := Vals()[c]]
                && ObjectReturned(old(Vals())[c], k, OffsetOfAddress(a), Vals()[c])
      ensures c != PageOfAddress(a) ==> Strayed(old(Vals()), c, ObjectAt(a), Vals())
    {
      hide SlabsOk, StateOk, BlocksIn, PagesOf, Spare, CacheOk, LiveMap, Bytes, Pow2, Chain, Slots, Put16, LiveOf,
           ObjectReturned, OnlyLinkWritten, PagesApart, ListsMatch, HandedOut;
      var p, off := PageOfAddress(a), OffsetOfAddress(a);
      HandedOutFacts(k, a);
      CacheIsOk(c, {});
      CacheIsOk(p, {});
      HeadFits(Vals()[c], k);
      assert c == p ==> a - Address(c, 0) == off;
      hide Address, PageOfAddress, OffsetOfAddress;
      ghost var vals := Vals();
      var cache, holder := caches[c], caches[p];
      cache.Free(holder.mem, off, a - Address(c, 0), k);
      if c == p {
        assert Vals() == vals[p := cache.Val()];
        ReturnKeepsSlabs(lists, orders, vals, p, off, cache.Val());
      } else {
        StrayedVals(vals, p, off, c, a, Vals());
      }
    }

    /** The object at x is back on its own cache's list. */
    ghost predicate TakenBack(live0: map<nat, set<nat>>, bytes0: map<nat, seq<u8>>, x: Object)
      reads this, caches.Values, Memories(), buddy.pages, buddy.zones
    {
      && ValidBut({x.page}) && x.page in live0 && Live() == live0[x.page := live0[x.page] - {x.off}]
      && OnlyLinkWritten(bytes0, x, Bytes(Vals()))
    }

    /** The second half of sslab_free: the object goes to the cache that the scan named. */
    method GiveTo(k: nat, c: nat, a: nat)
      requires Valid() && HandedOut(k, a) && c in caches && c in orders && orders[c] == k
      requires PageOfAddress(a) in caches && k < |lists|
      modifies this, caches.Values, Memories(), buddy.pages, buddy.zones
      ensures buddy.Ready() && AllPages() == old(AllPages()) && SubMap(orders, old(orders))
      ensures Unlisted(old(lists), old(caches), k, c, old(LastOne(Vals(), c)), lists, caches)
      ensures c == PageOfAddress(a) ==>
                && Valid() && Released(old(Live()), old(Bytes(Vals())), ObjectAt(a))
                && Returned(old(Vals()), old(buddy.FreePages()), k, ObjectAt(a), Vals(), buddy.FreePages())
      ensures c != PageOfAddress(a) ==>
                && Missed(old(Vals()), old(buddy.FreePages()), k, c, ObjectAt(a), Vals(), buddy.FreePages())
                && !Released(old(Live()), old(Bytes(Vals())), ObjectAt(a))
    {
      hide SlabsOk, StateOk, BlocksIn, PagesOf, Spare, CacheOk, LiveMap, Bytes, Pow2, Chain, Slots, Missed, Strayed,
           LiveOf, OnlyLinkWritten, PagesApart, Released, HandedOut, PageOfAddress, OffsetOfAddress, Address, SubMap,
           ObjectRemoved, Stray, Returned, Unlisted, ObjectReturned, LastOne;
      HandedOutFacts(k, a);
      CacheIsOk(PageOfAddress(a), {});
      HoldsLive(c);
      ghost var vals0, live0, bytes0, pages0, all := Vals(), Live(), Bytes(Vals()), buddy.FreePages(), AllPages();
      ReturnObject(k, c, a);
      assert AllPages() == all && buddy.FreePages() == pages0;
      hide Slabs.AllPages, Allocator.FreePages;
      ghost var vals1, live1, bytes1 := Vals(), Live(), Bytes(Vals());
      if c == PageOfAddress(a) {
        WasLastOne(vals0, k, ObjectAt(a), c, vals1);
        DestroyIfIdle(k, c);
        LiveAfterFree(live0, ObjectAt(a), live1, Live());
        BytesAfterDrop(bytes0, ObjectAt(a), bytes1);
        MakeReleased(live0, bytes0, ObjectAt(a));
        ReturnedAfterAll(vals0, pages0, k, ObjectAt(a), vals1, Vals(), buddy.FreePages());
      } else {
        StrayedFacts(vals0, c, ObjectAt(a), vals1);
        WasLastOne(vals0, k, ObjectAt(a), c, vals1);
        DestroyIfIdle(k, c);
        MissedAfterAll(vals0, pages0, k, c, ObjectAt(a), vals1, Vals(), buddy.FreePages());
        StillLive(vals0, pages0, k, c, ObjectAt(a), Vals(), buddy.FreePages(), orders, live0);
        NotReleased(live0, bytes0, ObjectAt(a));
      }
    }

    /** sslab_free.

        When the scan names the cache that issued the object, and only then, the object is taken back; its
        cache goes back to the buddy allocator if it was the last one.  Otherwise see Missed. */
    method FreeObject(k: nat, a: nat)
      requires Valid() && HandedOut(k, a)
      modifies this, caches.Values, Memories(), buddy.pages, buddy.zones
      ensures buddy.Ready() && AllPages() == old(AllPages()) && SubMap(orders, old(orders))
      ensures old(OwnerFirst(lists[k], PageOfAddress(a))) <==> Released(old(Live()), old(Bytes(Vals())), ObjectAt(a))
      ensures NamedUnlisted(old(lists), old(Vals()), old(caches), k, a, lists, caches)
      ensures old(OwnerFirst(lists[k], PageOfAddress(a))) ==>
                Valid() && Returned(old(Vals()), old(buddy.FreePages()), k, ObjectAt(a), Vals(), buddy.FreePages())
      ensures !old(OwnerFirst(lists[k], PageOfAddress(a))) ==>
                ScanMissed(old(lists), old(Vals()), old(buddy.FreePages()), k, ObjectAt(a), Vals(), buddy.FreePages())
    {
      hide SlabsOk, StateOk, BlocksIn, PagesOf, LiveMap, Bytes, LiveOf, OwnerFirst, Scan, PagesApart, Released,
           HandedOut, PageOfAddress, OffsetOfAddress, Address, SubMap, NoDup, Missed, Returned, Unlisted,
           NamedUnlisted, LastOne;
      HandedOutFacts(k, a);
      ScanFindsOwnerByPage(lists[k], PageOfAddress(a), OffsetOfAddress(a));
      var i := FindCache(k, a);
      assert lists[k][i] in lists[k];
      ghost var lists0, vals0, caches0 := lists, Vals(), caches;
      GiveTo(k, lists[k][i], a);
      UnlistedByScan(lists0, vals0, caches0, k, a, lists, caches);
    }

    lemma HoldsLive(c: nat)
      requires Valid() && c in caches && c in orders
      ensures CacheOk(Vals()[c], orders[c]) && Vals()[c].objFree < Vals()[c].objCnt
    {
      hide CacheOk;
    }

    lemma NotReleased(live0: map<nat, set<nat>>, bytes0: map<nat, seq<u8>>, x: Object)
      requires !ObjectRemoved(live0, x, Live())
      ensures !Released(live0, bytes0, x)
    {
    }

    lemma MakeReleased(live0: map<nat, set<nat>>, bytes0: map<nat, seq<u8>>, x: Object)
      requires ObjectRemoved(live0, x, Live()) && OnlyLinkWritten(bytes0, x, Bytes(Vals()))
      ensures Released(live0, bytes0, x)
    {
    }

    /** An object of order k handed out at address a. */
    ghost predicate HandedOut(k: nat, a: nat)
      reads this, caches.Values, Memories()
    {
      var (p, off) := (PageOfAddress(a), OffsetOfAddress(a));
      && a == Address(p, off) && p in orders && orders[p] == k
      && p in Live() && off in Live()[p]
    }

    /** kmalloc, for the sizes it serves soundly (see ListBuiltIffTwoBytes for the smaller ones): an
        object of the least sufficient power of two, aligned to it, zeroed, and handed to nobody else. */
    method KMalloc(size: nat) returns (r: Option<nat>, ghost k: nat)
      requires Valid() && 2 <= size <= 1024
      modifies this, caches.Values, Memories(), buddy.pages, buddy.zones
      ensures Valid() && AllPages() == old(AllPages())
      ensures IsOrderOf(size, k) && 1 <= k <= MAX_OBJ_ORDER
      ensures r.None? <==> old(Exhausted(k))
      ensures r.None? ==> Kept(old(lists), old(Vals()), old(Live()))
      ensures r.Some? ==>
                && HandedOut(k, r.value) && r.value % Pow2(k) == 0
                && Handed(old(Live()), old(Bytes(Vals())), k, ObjectAt(r.value))
                && Drawn(old(lists), old(Vals()), old(buddy.ZoneVals()), k, PageOfAddress(r.value),
                         lists, Vals(), buddy.ZoneVals())
      ensures r.None? ==> caches == old(caches)
      ensures r.Some? ==> GrownBy(old(caches), PageOfAddress(r.value), caches)
      ensures r.Some? && PageOfAddress(r.value) !in old(caches) ==>
                fresh(caches[PageOfAddress(r.value)]) && fresh(caches[PageOfAddress(r.value)].mem)
      ensures SubMap(old(orders), orders)
    {
      hide SlabsOk, StateOk, BlocksIn, PagesOf, Spare, CacheOk, LiveMap, Bytes, Pow2, Chain, Slots, PagesApart, LiveOf,
           Aligned, ObjectZeroed, FreeRun, Kept, IsOrderOf, Drawn;
      var order := SizeToOrder(size);
      assert Vals() == old(Vals());
      OrderAtLeastOne(size, order);
      k := order;
      var x := AllocObject(order);
      if x == None {
        return None, k;
      }
      var a := Address(x.value.page, x.value.off);
      assert x.value.off < PAGE_SIZE by {
        assert IsSlot(k, x.value.off);
      }
      MaskFindsPage(x.value.page, x.value.off);
      AddressAligned(k, x.value.page, x.value.off);
      assert x.value == ObjectAt(a);
      r := Some(a);
    }

    /** kfree: nothing for the null pointer; otherwise the cache is found by masking the address, the
        list by the cache's object size, and the object goes back as FreeObject says. */
    method KFree(a: Option<nat>, ghost k: nat)
      requires Valid() && (a.Some? ==> HandedOut(k, a.value))
      modifies this, caches.Values, Memories(), buddy.pages, buddy.zones
      ensures a.None? ==>
                Valid() && lists == old(lists) && Vals() == old(Vals()) && buddy.FreePages() == old(buddy.FreePages())
      ensures a.Some? ==>
                && buddy.Ready() && AllPages() == old(AllPages()) && SubMap(orders, old(orders))
                && (old(OwnerFirst(lists[k], PageOfAddress(a.value)))
                    <==> Released(old(Live()), old(Bytes(Vals())), ObjectAt(a.value)))
      ensures a.Some? ==> NamedUnlisted(old(lists), old(Vals()), old(caches), k, a.value, lists, caches)
      ensures a.Some? && old(OwnerFirst(lists[k], PageOfAddress(a.value))) ==>
                && Valid()
                && Returned(old(Vals()), old(buddy.FreePages()), k, ObjectAt(a.value), Vals(), buddy.FreePages())
      ensures a.Some? && !old(OwnerFirst(lists[k], PageOfAddress(a.value))) ==>
                ScanMissed(old(lists), old(Vals()), old(buddy.FreePages()), k, ObjectAt(a.value), Vals(),
                           buddy.FreePages())
    {
      hide SlabsOk, StateOk, BlocksIn, PagesOf, Spare, LiveMap, Bytes, Chain, Slots, PagesApart, Clear, LiveOf, Aligned,
           ObjectRemoved, OnlyLinkWritten, FreeRun, OwnerFirst, Released, HandedOut, Address, PageOfAddress,
           OffsetOfAddress, IsOrderOf, ScanMissed;
      if a == None {
        return;
      }
      HandedOutFacts(k, a.value);
      MaskFindsPage(PageOfAddress(a.value), OffsetOfAddress(a.value));
      MaskFindsPage(PageOfAddress(a.value), 0);
      var page := PageOfAddress(Clear(a.value, PAGE_SIZE - 1));
      CacheIsOk(page, {});
      Pow2Monotone(k, MAX_OBJ_ORDER);
      var order := SizeToOrder(caches[page].objSize);
      assert Vals() == old(Vals());
      OrderIsRecovered(k, order);
      FreeObject(order, a.value);
    }

    /** What whole runs depend on: the buddy allocator's free blocks, the cache lists, and what is
        handed out. */
    ghost function Snapshot(): System
      reads this, caches.Values, Memories(), buddy.pages
    {
      System(buddy.FreeBlocks(), lists, orders, Live(), Bytes(Vals()))
    }

    /** Every reachable system state is in order. */
    lemma SystemIsInOrder()
      requires Valid()
      ensures InOrder(Snapshot())
    {
      hide CacheOk, ListsMatch, LiveOf, PageInOrder, PagesOf, BlocksIn, Listed;
      var vals := Vals();
      forall p | p in vals
        ensures LiveOf(vals[p], orders[p]) != {} && PageInOrder(orders[p], LiveOf(vals[p], orders[p]), vals[p].mem)
      {
        CountersTell(vals[p], orders[p]);
        CachePageInOrder(vals[p], orders[p]);
      }
      ListsCover(lists, orders);
    }

    /** Two objects handed out share no byte. */
    lemma LiveObjectsDisjoint(k: nat, a: nat, j: nat, b: nat)
      requires Valid() && HandedOut(k, a) && HandedOut(j, b) && a < b
      ensures a + Pow2(k) <= b
    {
      hide SlabsOk, StateOk, PagesApart, LiveMap, CacheOk, LiveOf, Pow2;
      HandedOutFacts(k, a);
      HandedOutFacts(j, b);
      var (p, off) := (PageOfAddress(a), OffsetOfAddress(a));
      var (q, o) := (PageOfAddress(b), OffsetOfAddress(b));
      CacheIsOk(p, {});
      CacheIsOk(q, {});
      LiveOffsets(caches[p].Val(), k, off);
      LiveOffsets(caches[q].Val(), j, o);
      SlotInPage(k, off);
      if p == q {
        AlignedApart(k, off, o);
      }
    }

    lemma HandedOutFacts(k: nat, a: nat)
      requires Valid() && HandedOut(k, a)
      ensures 1 <= k <= MAX_OBJ_ORDER && |lists| == MAX_OBJ_ORDER + 1 && NoDup(lists[k])
      ensures a == Address(PageOfAddress(a), OffsetOfAddress(a))
      ensures PageOfAddress(a) in Live() && OffsetOfAddress(a) in Live()[PageOfAddress(a)]
      ensures PageOfAddress(a) in lists[k] && PageOfAddress(a) in caches
      ensures forall q :: q in lists[k] ==> q in caches && q in orders && orders[q] == k
      ensures OffsetOfAddress(a) in LiveOf(Vals()[PageOfAddress(a)], k) && OffsetOfAddress(a) + 1 < PAGE_SIZE
    {
      hide LiveOf, CacheOk, NoDup;
      assert Vals().Keys == caches.Keys;
      LiveOffsets(Vals()[PageOfAddress(a)], k, OffsetOfAddress(a));
    }
  }

  lemma OrderAtLeastOne(size: nat, k: nat)
    requires size >= 2 && IsOrderOf(size, k)
    ensures k >= 1
  {
  }

  lemma {:induction false} AlignedSum(a: nat, b: nat, k: nat)
    requires Aligned(a, k) && Aligned(b, k)
    ensures Aligned(a + b, k)
  {
    if k > 0 {
      AlignedSum(a / 2, b / 2, k - 1);
      assert (a + b) / 2 == a / 2 + b / 2;
    }
  }

  /** An object's address has the alignment of its offset. */
  lemma AddressAligned(k: nat, p: nat, off: nat)
    requires k <= MAX_OBJ_ORDER && Aligned(off, k)
    ensures Address(p, off) % Pow2(k) == 0
  {
    hide Pow2, Aligned;
    PageIsPow2();
    var base := Address(p, 0);
    ModUnique(base, KERNEL_VSTART / PAGE_SIZE + p, 0, PAGE_SIZE);
    AlignedIsDivisible(base, 12);
    AlignedWeaken(base, k, 12);
    AlignedSum(base, off, k);
    AlignedIsDivisible(base + off, k);
  }

  lemma LiveOffsets(c: CacheVal, k: nat, off: nat)
    requires CacheOk(c, k) && off in LiveOf(c, k)
    ensures off + 1 < PAGE_SIZE && IsSlot(k, off)
  {
    SlotsAreSlots(k);
    SlotInPage(k, off);
    AtLeastTwo(k);
  }

  lemma LiveAfterFree(live0: map<nat, set<nat>>, x: Object, live1: map<nat, set<nat>>, live: map<nat, set<nat>>)
    requires x.page in live0 && x.off in live0[x.page] && live1 == live0[x.page := live0[x.page] - {x.off}]
    requires live == if live1[x.page] == {} then live1 - {x.page} else live1
    ensures ObjectRemoved(live0, x, live)
  {
    assert live1 - {x.page} == live0 - {x.page};
  }

  lemma BytesAfterDrop(bytes0: map<nat, seq<u8>>, x: Object, bytes: map<nat, seq<u8>>)
    requires OnlyLinkWritten(bytes0, x, bytes)
    ensures OnlyLinkWritten(bytes0, x, bytes - {x.page})
  {
  }

  function ObjectAt(a: nat): Object {
    Object(PageOfAddress(a), OffsetOfAddress(a))
  }

  function NoLists(): (r: seq<seq<nat>>)
    ensures |r| == MAX_OBJ_ORDER + 1
  {
    seq(MAX_OBJ_ORDER + 1, _ => [])
  }
}
