/** What the page counter of a zone counts. */
module BuddyCount {
  import opened BitOps
  import opened BuddyBlocks
  import opened BuddyState

  /** The pages of the first blocks of a free list of order k. */
  ghost function ListPages(list: seq<nat>, k: nat): set<nat> {
    if list == [] then {} else ListPages(list[1..], k) + Pages(Block(list[0], k))
  }

  /** The pages on the first free lists. */
  ghost function AreaPages(areas: seq<Area>): set<nat> {
    if areas == [] then {} else var k := |areas| - 1; AreaPages(areas[..k]) + ListPages(areas[k].blocks, k)
  }

  ghost function Interval(start: nat, n: nat): (r: set<nat>)
    ensures |r| == n && forall p: nat :: p in r <==> start <= p < start + n
  {
    if n == 0 then {} else Interval(start, n - 1) + {start + n - 1}
  }

  lemma PagesSize(b: Block)
    ensures |Pages(b)| == Pow2(b.order)
  {
    assert Pages(b) == Interval(b.start, Pow2(b.order));
  }

  lemma {:induction false} InList(list: seq<nat>, k: nat, p: nat)
    ensures p in ListPages(list, k) <==> exists h :: h in list && In(p, Block(h, k))
  {
    if list != [] {
      InList(list[1..], k, p);
      assert list == [list[0]] + list[1..];
    }
  }

  ghost predicate Apart(list: seq<nat>, k: nat) {
    forall i, j :: 0 <= i < j < |list| ==> Disjoint(Block(list[i], k), Block(list[j], k))
  }

  lemma {:induction false} ListSize(list: seq<nat>, k: nat)
    requires Apart(list, k)
    ensures |ListPages(list, k)| == Shl(|list|, k)
  {
    if list != [] {
      var rest := list[1..];
      ListSize(rest, k);
      PagesSize(Block(list[0], k));
      forall p | p in ListPages(rest, k)
        ensures p !in Pages(Block(list[0], k))
      {
        InList(rest, k, p);
        var h :| h in rest && In(p, Block(h, k));
        var i :| 0 <= i < |rest| && rest[i] == h;
        assert Disjoint(Block(list[0], k), Block(list[i + 1], k));
      }
      assert ListPages(rest, k) !! Pages(Block(list[0], k));
    }
  }

  lemma {:induction false} InAreas(areas: seq<Area>, p: nat)
    ensures p in AreaPages(areas) <==> exists k :: 0 <= k < |areas| && p in ListPages(areas[k].blocks, k)
  {
    if areas != [] {
      var n := |areas| - 1;
      InAreas(areas[..n], p);
      if k :| 0 <= k < |areas| && p in ListPages(areas[k].blocks, k) {
        assert k < n ==> areas[..n][k] == areas[k];
      }
      if k :| 0 <= k < n && p in ListPages(areas[..n][k].blocks, k) {
        assert areas[..n][k] == areas[k];
      }
    }
  }

  /** The first n lists of a zone that is in order. */
  ghost predicate ListsOk(pages: seq<Page>, t: nat, areas: seq<Area>) {
    forall k :: 0 <= k < |areas| ==> AreaOk(pages, t, k, areas[k])
  }

  lemma ListIsApart(pages: seq<Page>, t: nat, k: nat, area: Area)
    requires PairwiseDisjoint(BlocksIn(pages)) && AreaOk(pages, t, k, area)
    ensures Apart(area.blocks, k)
  {
    var list := area.blocks;
    forall i, j | 0 <= i < j < |list|
      ensures Disjoint(Block(list[i], k), Block(list[j], k))
    {
      assert list[i] in list && list[j] in list;
      assert Lists(pages, t, k, list[i]) && Lists(pages, t, k, list[j]);
      assert Block(list[i], k) in BlocksIn(pages) && Block(list[j], k) in BlocksIn(pages);
    }
  }

  lemma OnList(pages: seq<Page>, t: nat, k: nat, area: Area, p: nat) returns (b: Block)
    requires AreaOk(pages, t, k, area) && p in ListPages(area.blocks, k)
    ensures b in BlocksIn(pages) && b.order == k && In(p, b) && ZoneOf(b.start) == t
  {
    InList(area.blocks, k, p);
    var h :| h in area.blocks && In(p, Block(h, k));
    assert Lists(pages, t, k, h);
    b := Block(h, k);
  }

  lemma OneListEach(pages: seq<Page>, t: nat, j: nat, a: Area, k: nat, b: Area, p: nat)
    requires PairwiseDisjoint(BlocksIn(pages)) && AreaOk(pages, t, j, a) && AreaOk(pages, t, k, b) && j != k
    requires p in ListPages(a.blocks, j)
    ensures p !in ListPages(b.blocks, k)
  {
    hide AreaOk, BlocksIn, ListPages;
    var x := OnList(pages, t, j, a, p);
    if p in ListPages(b.blocks, k) {
      var y := OnList(pages, t, k, b, p);
      assert false;
    }
  }

  lemma LastListApart(pages: seq<Page>, t: nat, areas: seq<Area>, k: nat)
    requires PairwiseDisjoint(BlocksIn(pages)) && ListsOk(pages, t, areas) && |areas| == k + 1
    ensures AreaPages(areas[..k]) !! ListPages(areas[k].blocks, k)
  {
    hide PairwiseDisjoint, BlocksIn, AreaOk, ListPages, AreaPages;
    forall p: nat | p in AreaPages(areas[..k])
      ensures p !in ListPages(areas[k].blocks, k)
    {
      InAreas(areas[..k], p);
      var j :| 0 <= j < k && p in ListPages(areas[..k][j].blocks, j);
      OneListEach(pages, t, j, areas[j], k, areas[k], p);
    }
  }

  lemma {:induction false} AreasSize(pages: seq<Page>, t: nat, areas: seq<Area>)
    requires PairwiseDisjoint(BlocksIn(pages)) && ListsOk(pages, t, areas)
    ensures |AreaPages(areas)| == CountedPages(areas)
  {
    hide BlocksIn, AreaOk, PairwiseDisjoint, ListPages, Shl;
    if areas != [] {
      var k := |areas| - 1;
      AreasSize(pages, t, areas[..k]);
      ListIsApart(pages, t, k, areas[k]);
      ListSize(areas[k].blocks, k);
      BlocksCounted(pages, t, k, areas[k]);
      LastListApart(pages, t, areas, k);
    }
  }

  lemma BlocksCounted(pages: seq<Page>, t: nat, k: nat, area: Area)
    requires AreaOk(pages, t, k, area)
    ensures |area.blocks| == area.blocksFree
  {
  }

  ghost function ZonePages(pages: seq<Page>, t: nat): (r: set<nat>)
    ensures forall p :: p in r <==> p in PagesOf(BlocksIn(pages)) && ZoneOf(p) == t
  {
    set p | p in PagesOf(BlocksIn(pages)) && ZoneOf(p) == t
  }

  /** pg_free is the number of free pages of the zone. */
  lemma PgFreeCountsFreePages(pages: seq<Page>, zones: seq<ZoneVal>, up: nat, t: nat)
    requires StateOk(pages, zones, up, 0, 0) && t < 3 && t < up
    ensures zones[t].pgFree == |ZonePages(pages, t)|
  {
    ZoneListsOk(pages, zones, up, t);
    hide StateOk, ZonePages, PagesOk, ListsOk, PairwiseDisjoint, CountedPages, AreaPages;
    AreasSize(pages, t, zones[t].areas);
    ListsHoldZonePages(pages, t, zones[t].areas);
  }

  lemma ListsHoldZonePages(pages: seq<Page>, t: nat, areas: seq<Area>)
    requires PagesOk(pages) && ListsOk(pages, t, areas) && |areas| == MAX_ORDER + 1
    ensures AreaPages(areas) == ZonePages(pages, t)
  {
    hide PagesOk, ListsOk, AreaPages, PagesOf, BlocksIn;
    forall p: nat
      ensures p in AreaPages(areas) <==> p in ZonePages(pages, t)
    {
      OnSomeList(pages, t, areas, p);
    }
  }

  lemma ZoneListsOk(pages: seq<Page>, zones: seq<ZoneVal>, up: nat, t: nat)
    requires StateOk(pages, zones, up, 0, 0) && t < 3 && t < up
    ensures PagesOk(pages) && PairwiseDisjoint(BlocksIn(pages)) && ListsOk(pages, t, zones[t].areas)
    ensures |zones[t].areas| == MAX_ORDER + 1 && zones[t].pgFree == CountedPages(zones[t].areas)
  {
    assert OneZoneOk(pages, t, zones[t], 0);
  }

  lemma OnSomeList(pages: seq<Page>, t: nat, areas: seq<Area>, p: nat)
    requires PagesOk(pages) && ListsOk(pages, t, areas) && |areas| == MAX_ORDER + 1
    ensures p in AreaPages(areas) <==> p in PagesOf(BlocksIn(pages)) && ZoneOf(p) == t
  {
    hide PagesOk;
    assert forall b :: b in BlocksIn(pages) ==> Wf(b) by {
      BlocksAreWf(pages);
    }
    InAreas(areas, p);
    if p in AreaPages(areas) {
      var k :| 0 <= k < |areas| && p in ListPages(areas[k].blocks, k);
      var b := OnList(pages, t, k, areas[k], p);
      BlockInOneZone(b);
    }
    if p in PagesOf(BlocksIn(pages)) && ZoneOf(p) == t {
      var b :| b in BlocksIn(pages) && In(p, b);
      BlockInOneZone(b);
      assert AreaOk(pages, t, b.order, areas[b.order]) && Lists(pages, t, b.order, b.start);
      InList(areas[b.order].blocks, b.order, p);
    }
  }

  lemma BlocksAreWf(pages: seq<Page>)
    requires PagesOk(pages)
    ensures forall b :: b in BlocksIn(pages) ==> Wf(b)
  {
  }
}
