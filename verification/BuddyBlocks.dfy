/** Blocks of the buddy system and their canonical form.

    A set of free blocks that the allocator keeps is aligned, pairwise disjoint and never holds
    two buddies of one order below the largest.  This module proves that such a set is a
    function of the pages it covers: it is exactly the set of maximal aligned runs.
 */
module BuddyBlocks {
  import opened BitOps

  const MAX_ORDER: nat := 10

  /** A run of 2^order pages starting at page index start. */
  datatype Block = Block(start: nat, order: nat)

  predicate Wf(b: Block) {
    b.order <= MAX_ORDER && Aligned(b.start, b.order)
  }

  predicate In(p: nat, b: Block) {
    b.start <= p < b.start + Pow2(b.order)
  }

  function Pages(b: Block): set<nat> {
    set p: nat | p < b.start + Pow2(b.order) && In(p, b)
  }

  predicate Disjoint(a: Block, b: Block) {
    a.start + Pow2(a.order) <= b.start || b.start + Pow2(b.order) <= a.start
  }

  /** The block of one order higher that contains b. */
  function Parent(b: Block): Block {
    Block(if Aligned(b.start, b.order + 1) || b.start < Pow2(b.order) then b.start else b.start - Pow2(b.order),
          b.order + 1)
  }

  /** The other half of b's parent. */
  function BuddyOf(b: Block): Block {
    Block(if Aligned(b.start, b.order + 1) || b.start < Pow2(b.order) then b.start + Pow2(b.order)
          else b.start - Pow2(b.order),
          b.order)
  }

  predicate Covered(pages: set<nat>, b: Block) {
    forall p | b.start <= p < b.start + Pow2(b.order) && In(p, b) :: p in pages
  }

  /** The pages of a set of blocks. */
  function PagesOf(blocks: set<Block>): (r: set<nat>)
    ensures forall p :: p in r <==> exists b :: b in blocks && In(p, b)
  {
    var r := set b, p | b in blocks && p in Pages(b) :: p;
    assert forall p :: p in r ==> exists b :: b in blocks && p in Pages(b) && In(p, b);
    assert forall b, p :: b in blocks && In(p, b) ==> p in Pages(b);
    r
  }

  ghost predicate PairwiseDisjoint(blocks: set<Block>) {
    forall a, b :: a in blocks && b in blocks && a != b ==> Disjoint(a, b)
  }

  ghost predicate NoFreeBuddies(blocks: set<Block>) {
    forall b {:trigger BuddyOf(b)} :: b in blocks && b.order < MAX_ORDER ==> BuddyOf(b) !in blocks
  }

  /** What the allocator keeps about its free blocks. */
  ghost predicate Coalesced(blocks: set<Block>) {
    && (forall b :: b in blocks ==> Wf(b))
    && PairwiseDisjoint(blocks)
    && NoFreeBuddies(blocks)
  }

  predicate Maximal(pages: set<nat>, b: Block) {
    Wf(b) && Covered(pages, b) && (b.order == MAX_ORDER || !Covered(pages, Parent(b)))
  }

  /** The maximal aligned runs of a set of pages. */
  function Canonical(pages: set<nat>): (r: set<Block>)
    ensures forall b :: b in r <==> Maximal(pages, b)
  {
    var r := set p, k | p in pages && 0 <= k <= MAX_ORDER && Maximal(pages, Block(p, k)) :: Block(p, k);
    assert forall b :: Maximal(pages, b) ==> b.start in pages && b == Block(b.start, b.order);
    r
  }

  // ----- geometry of aligned blocks

  /** Buddies are two halves of one aligned parent. */
  lemma BuddyGeometry(b: Block)
    requires Aligned(b.start, b.order)
    ensures Aligned(Parent(b).start, b.order + 1)
    ensures BuddyOf(BuddyOf(b)) == b && Parent(BuddyOf(b)) == Parent(b)
    ensures Aligned(BuddyOf(b).start, b.order)
    ensures Parent(b).start == if b.start <= BuddyOf(b).start then b.start else BuddyOf(b).start
    ensures Disjoint(b, BuddyOf(b))
    ensures forall p :: In(p, Parent(b)) <==> In(p, b) || In(p, BuddyOf(b))
  {
    var (x, k) := (b.start, b.order);
    AlignedHalves(x, k);
    AlignedPlusPow2(x, k);
    if Aligned(x, k + 1) {
      HalvesOf(x, k, b, BuddyOf(b));
    } else {
      HalvesOf(x - Pow2(k), k, BuddyOf(b), b);
    }
  }

  lemma HalvesOf(x: nat, k: nat, lo: Block, hi: Block)
    requires Aligned(x, k + 1) && lo == Block(x, k) && hi == Block(x + Pow2(k), k)
    ensures BuddyOf(lo) == hi && BuddyOf(hi) == lo
    ensures Parent(lo) == Parent(hi) == Block(x, k + 1)
    ensures forall p :: In(p, Block(x, k + 1)) <==> In(p, lo) || In(p, hi)
  {
    AlignedWeaken(x, k, k + 1);
    AlignedHalves(x, k);
    assert Pow2(k + 1) == 2 * Pow2(k);
  }

  /** The kernel's index arithmetic computes the buddy and the parent. */
  lemma BuddyBits(b: Block)
    requires Aligned(b.start, b.order)
    ensures BuddyOf(b) == Block(Xor(b.start, Pow2(b.order)), b.order)
    ensures Parent(b) == Block(Clear(b.start, Pow2(b.order)), b.order + 1)
  {
    AlignedHalves(b.start, b.order);
    XorBit(b.start, b.order);
    ClearBit(b.start, b.order);
  }

  /** Two aligned blocks that share a page are nested. */
  lemma {:induction false} Nested(a: Block, b: Block, p: nat)
    requires Aligned(a.start, a.order) && Aligned(b.start, b.order)
    requires a.order <= b.order && In(p, a) && In(p, b)
    ensures b.start <= a.start && a.start + Pow2(a.order) <= b.start + Pow2(b.order)
    decreases a.order
  {
    if a.order > 0 {
      Nested(Block(a.start / 2, a.order - 1), Block(b.start / 2, b.order - 1), p / 2);
    } else {
      assert Pow2(0) == 1;
    }
  }

  /** An aligned block of higher order that meets b contains b's parent. */
  lemma NestedParent(b: Block, c: Block, p: nat)
    requires Aligned(b.start, b.order) && Aligned(c.start, c.order)
    requires b.order < c.order && In(p, b) && In(p, c)
    ensures forall q :: In(q, Parent(b)) ==> In(q, c)
  {
    BuddyGeometry(b);
    assert In(p, Parent(b));
    Nested(Parent(b), c, p);
  }

  // ----- the canonical form

  /** The heart of the argument: below the largest order a run of free pages cannot be split
      across two free blocks, because those two would be buddies. */
  lemma {:induction false} CoveredRunIsInsideOneBlock(blocks: set<Block>, b: Block) returns (c: Block)
    requires Coalesced(blocks) && Wf(b) && Covered(PagesOf(blocks), b)
    ensures c in blocks && c.order >= b.order
    ensures forall p :: In(p, b) ==> In(p, c)
    decreases b.order
  {
    if b.order == 0 {
      assert Pow2(0) == 1;
      assert b.start in PagesOf(blocks);
      c :| c in blocks && In(b.start, c);
    } else {
      var lo := Block(b.start, b.order - 1);
      var hi := Block(b.start + Pow2(b.order - 1), b.order - 1);
      HalvesOf(b.start, b.order - 1, lo, hi);
      AlignedWeaken(b.start, b.order - 1, b.order);
      AlignedPlusPow2(b.start, b.order - 1);
      var x := CoveredRunIsInsideOneBlock(blocks, lo);
      var y := CoveredRunIsInsideOneBlock(blocks, hi);
      assert In(lo.start, lo) && In(hi.start, hi);
      if x.order > lo.order {
        NestedParent(lo, x, lo.start);
        c := x;
      } else if y.order > hi.order {
        NestedParent(hi, y, hi.start);
        c := y;
      } else {
        SameOrderSameBlock(x, lo, lo.start);
        SameOrderSameBlock(y, hi, hi.start);
        c := x;
      }
    }
  }

  lemma SameOrderSameBlock(a: Block, b: Block, p: nat)
    requires Aligned(a.start, a.order) && Aligned(b.start, b.order)
    requires a.order == b.order && In(p, a) && In(p, b)
    ensures a == b
  {
    Nested(a, b, p);
    Nested(b, a, p);
  }

  /** Completeness of the free lists: an aligned run is entirely free exactly when some free
      block of at least its order contains it. */
  lemma RunFreeIffBlockHoldsIt(blocks: set<Block>, b: Block)
    requires Coalesced(blocks) && Wf(b)
    ensures Covered(PagesOf(blocks), b)
       <==> exists c :: c in blocks && c.order >= b.order && forall p :: In(p, b) ==> In(p, c)
  {
    if Covered(PagesOf(blocks), b) {
      var c := CoveredRunIsInsideOneBlock(blocks, b);
    }
  }

  /** The free blocks are a function of the free pages. */
  lemma CanonicalForm(blocks: set<Block>)
    requires Coalesced(blocks)
    ensures blocks == Canonical(PagesOf(blocks))
  {
    forall b | b in blocks
      ensures b in Canonical(PagesOf(blocks))
    {
      FreeBlockIsMaximal(blocks, b);
    }
    forall b | b in Canonical(PagesOf(blocks))
      ensures b in blocks
    {
      MaximalRunIsFreeBlock(blocks, b);
    }
  }

  lemma FreeBlockIsMaximal(blocks: set<Block>, b: Block)
    requires Coalesced(blocks) && b in blocks
    ensures Maximal(PagesOf(blocks), b)
  {
    assert Covered(PagesOf(blocks), b);
    if b.order < MAX_ORDER && Covered(PagesOf(blocks), Parent(b)) {
      BuddyGeometry(b);
      assert In(b.start, b) && In(b.start, Parent(b));
      var c := CoveredRunIsInsideOneBlock(blocks, Parent(b));
    }
  }

  lemma MaximalRunIsFreeBlock(blocks: set<Block>, b: Block)
    requires Coalesced(blocks) && Maximal(PagesOf(blocks), b)
    ensures b in blocks
  {
    var c := CoveredRunIsInsideOneBlock(blocks, b);
    assert In(b.start, b) && In(b.start, c);
    if c.order > b.order {
      NestedParent(b, c, b.start);
    } else {
      SameOrderSameBlock(b, c, b.start);
    }
  }

  /** Conversely every set of pages has a canonical form that the allocator's invariant admits
      and that covers exactly those pages: the two views are in one-to-one correspondence. */
  lemma CanonicalIsCoalesced(pages: set<nat>)
    ensures Coalesced(Canonical(pages))
    ensures PagesOf(Canonical(pages)) == pages
  {
    var blocks := Canonical(pages);
    forall a, b | a in blocks && b in blocks && a != b
      ensures Disjoint(a, b)
    {
      if a.order <= b.order {
        MaximalRunsDisjoint(pages, a, b);
      } else {
        MaximalRunsDisjoint(pages, b, a);
      }
    }
    forall b | b in blocks && b.order < MAX_ORDER
      ensures BuddyOf(b) !in blocks
    {
      BuddyGeometry(b);
      assert BuddyOf(b) in blocks ==> Covered(pages, Parent(b));
    }
    CanonicalCovers(pages);
  }

  lemma MaximalRunsDisjoint(pages: set<nat>, a: Block, b: Block)
    requires Maximal(pages, a) && Maximal(pages, b) && a != b && a.order <= b.order
    ensures Disjoint(a, b)
  {
    if !Disjoint(a, b) {
      var p := if a.start <= b.start then b.start else a.start;
      assert In(p, a) && In(p, b);
      if a.order < b.order {
        NestedParent(a, b, p);
      } else {
        SameOrderSameBlock(a, b, p);
      }
    }
  }

  lemma CanonicalCovers(pages: set<nat>)
    ensures PagesOf(Canonical(pages)) == pages
  {
    forall p | p in pages
      ensures p in PagesOf(Canonical(pages))
    {
      assert Pow2(0) == 1;
      assert In(p, Block(p, 0));
      var c := GrowToMaximal(pages, Block(p, 0), p);
    }
  }

  lemma {:induction false} GrowToMaximal(pages: set<nat>, b: Block, p: nat) returns (c: Block)
    requires Wf(b) && Covered(pages, b) && In(p, b)
    ensures Maximal(pages, c) && In(p, c)
    decreases MAX_ORDER - b.order
  {
    if b.order == MAX_ORDER || !Covered(pages, Parent(b)) {
      c := b;
    } else {
      BuddyGeometry(b);
      c := GrowToMaximal(pages, Parent(b), p);
    }
  }
}
