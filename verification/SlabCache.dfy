/** One slab cache: a page cut into objects of one size, whose free objects are linked in-band.

    Each free object's first two bytes hold the offset of the next free object, 0 ends the list.
    The header at the start of the page is kept in the fields of the class; `mem` is the page.
 */
module SlabCache {
  import opened Config
  import opened Sequences
  import opened BitOps
  import opened Wrappers
  import opened Bootmem

  newtype u8 = x: int | 0 <= x < 0x100

  const HEADER: nat := 24       // sizeof(struct sslab_cache)
  const MAX_OBJ_ORDER: nat := 10

  /** The 16-bit link stored at offset i. */
  function Get16(mem: seq<u8>, i: nat): (r: nat)
    requires i + 1 < |mem|
    ensures r < 0x1_0000
  {
    mem[i] as int + 0x100 * mem[i + 1] as int
  }

  function Put16(mem: seq<u8>, i: nat, v: nat): (r: seq<u8>)
    requires i + 1 < |mem| && v < 0x1_0000
    ensures |r| == |mem| && Get16(r, i) == v
    ensures forall j :: 0 <= j < |mem| && j != i && j != i + 1 ==> r[j] == mem[j]
  {
    mem[i := (v % 0x100) as u8][i + 1 := (v / 0x100) as u8]
  }

  /** The offsets met by following n links from `at`. */
  function Chain(mem: seq<u8>, at: nat, n: nat): (r: seq<nat>)
    ensures |r| <= n
    decreases n
  {
    if n == 0 || at + 1 >= |mem| then [] else [at] + Chain(mem, Get16(mem, at), n - 1)
  }

  /** Where n links from `at` lead. */
  function Follow(mem: seq<u8>, at: nat, n: nat): nat
    decreases n
  {
    if n == 0 || at + 1 >= |mem| then at else Follow(mem, Get16(mem, at), n - 1)
  }

  /** The offset of the first object: the header size rounded up to the object size. */
  function FirstObject(k: nat): nat {
    AlignUp(HEADER, Pow2(k))
  }

  /** An offset at which an object of size 2^k may start. */
  predicate IsSlot(k: nat, off: nat) {
    Aligned(off, k) && FirstObject(k) <= off < PAGE_SIZE
  }

  /** The object offsets from `at` to the end of the page. */
  function SlotsFrom(k: nat, at: nat): seq<nat>
    decreases PAGE_SIZE - at
  {
    if at >= PAGE_SIZE then [] else [at] + SlotsFrom(k, at + Pow2(k))
  }

  /** The in-band list is right: n links visit n distinct objects and end in 0. */
  ghost predicate FreeListOk(mem: seq<u8>, k: nat, head: nat, n: nat) {
    && |mem| >= PAGE_SIZE
    && |Chain(mem, head, n)| == n
    && (forall c :: c in Chain(mem, head, n) ==> IsSlot(k, c))
    && NoDup(Chain(mem, head, n))
    && Follow(mem, head, n) == 0
  }

  // ----- geometry of the objects in a page

  lemma FirstObjectFacts(k: nat)
    requires k <= MAX_OBJ_ORDER
    ensures Pow2(k) <= 1024 && FirstObject(k) >= HEADER && FirstObject(k) < PAGE_SIZE
    ensures Aligned(FirstObject(k), k) && IsSlot(k, FirstObject(k))
  {
    assert Pow2(10) == 1024;
    Pow2Monotone(k, 10);
    AlignUpPowerOfTwo(HEADER, k);
    AlignedIsDivisible(FirstObject(k), k);
  }

  /** NoDup aligned offsets are at least an object apart. */
  lemma {:induction false} AlignedApart(k: nat, a: nat, b: nat)
    requires Aligned(a, k) && Aligned(b, k) && a < b
    ensures a + Pow2(k) <= b
  {
    if k > 0 {
      AlignedApart(k - 1, a / 2, b / 2);
    }
  }

  /** Every object lies inside the page. */
  lemma SlotInPage(k: nat, off: nat)
    requires k <= MAX_OBJ_ORDER && IsSlot(k, off)
    ensures off + Pow2(k) <= PAGE_SIZE
  {
    assert Pow2(12) == PAGE_SIZE;
    PageAligned(k);
    AlignedApart(k, off, PAGE_SIZE);
  }

  lemma PageAligned(k: nat)
    requires k <= MAX_OBJ_ORDER
    ensures Aligned(PAGE_SIZE, k)
  {
    assert Pow2(12) == PAGE_SIZE;
    AlignedIsDivisible(PAGE_SIZE, 12);
    AlignedWeaken(PAGE_SIZE, k, 12);
  }

  lemma {:induction false} SlotsFromFacts(k: nat, at: nat)
    requires k <= MAX_OBJ_ORDER && Aligned(at, k) && FirstObject(k) <= at <= PAGE_SIZE
    ensures NoDup(SlotsFrom(k, at))
    ensures forall c :: c in SlotsFrom(k, at) <==> IsSlot(k, c) && at <= c
    ensures Shl(|SlotsFrom(k, at)|, k) == PAGE_SIZE - at
    decreases PAGE_SIZE - at
  {
    if at < PAGE_SIZE {
      AlignedPlusPow2(at, k);
      SlotInPage(k, at);
      SlotsFromFacts(k, at + Pow2(k));
      var rest := SlotsFrom(k, at + Pow2(k));
      forall c | IsSlot(k, c) && at < c
        ensures at + Pow2(k) <= c
      {
        AlignedApart(k, at, c);
      }
      assert forall c :: c in [at] + rest <==> c == at || c in rest;
      assert at !in rest && SlotsFrom(k, at) == [at] + rest;
    }
  }

  // ----- how the list depends on the bytes

  /** Bytes outside the first two of the listed objects do not matter. */
  lemma {:induction false} ChainFrame(mem: seq<u8>, mem': seq<u8>, at: nat, n: nat)
    requires |Chain(mem, at, n)| == n
    requires forall c :: c in Chain(mem, at, n) ==>
               c + 1 < |mem| && c + 1 < |mem'| && mem[c] == mem'[c] && mem[c + 1] == mem'[c + 1]
    ensures Chain(mem', at, n) == Chain(mem, at, n) && Follow(mem', at, n) == Follow(mem, at, n)
    decreases n
  {
    if n > 0 {
      var rest := Chain(mem, Get16(mem, at), n - 1);
      assert Chain(mem, at, n) == [at] + rest;
      assert forall c :: c in rest ==> c in [at] + rest;
      assert at in [at] + rest;
      ChainFrame(mem, mem', Get16(mem, at), n - 1);
    }
  }

  /** A write that touches only the object at `off` leaves a list without `off` right. */
  lemma ListAwayFrom(mem: seq<u8>, mem': seq<u8>, k: nat, head: nat, n: nat, off: nat)
    requires 1 <= k <= MAX_OBJ_ORDER && FreeListOk(mem, k, head, n) && |mem'| == |mem|
    requires IsSlot(k, off) && off !in Chain(mem, head, n)
    requires forall j :: 0 <= j < |mem| && !(off <= j < off + Pow2(k)) ==> mem'[j] == mem[j]
    ensures FreeListOk(mem', k, head, n) && Chain(mem', head, n) == Chain(mem, head, n)
  {
    forall c | c in Chain(mem, head, n)
      ensures c + 1 < |mem| && mem'[c] == mem[c] && mem'[c + 1] == mem[c + 1]
    {
      SlotsApart(k, c, off);
    }
    hide IsSlot, Chain, Follow, NoDup, Pow2;
    ChainFrame(mem, mem', head, n);
  }

  /** Two slots do not overlap. */
  lemma SlotsApart(k: nat, c: nat, off: nat)
    requires 1 <= k <= MAX_OBJ_ORDER && IsSlot(k, c) && IsSlot(k, off) && c != off
    ensures Pow2(k) >= 2 && (c + Pow2(k) <= off || off + Pow2(k) <= c) && c + Pow2(k) <= PAGE_SIZE
  {
    SlotInPage(k, c);
    if c < off {
      AlignedApart(k, c, off);
    } else {
      AlignedApart(k, off, c);
    }
  }

  // ----- building the list

  /** The loop of sslab_cache_create that links the objects, from offset i on, for any object size.
      The memory reaches past the page because the last link of one-byte objects does. */
  function LinkLoop(mem: seq<u8>, i: nat, size: nat): seq<u8>
    requires |mem| > PAGE_SIZE && 1 <= size <= 1024
    decreases PAGE_SIZE - i
  {
    if i >= PAGE_SIZE then mem
    else LinkLoop(Put16(mem, i, if i + size >= PAGE_SIZE then 0 else i + size), i + size, size)
  }

  lemma {:induction false} LinkLoopFrame(mem: seq<u8>, i: nat, size: nat)
    requires |mem| > PAGE_SIZE && 1 <= size <= 1024
    ensures |LinkLoop(mem, i, size)| == |mem|
    ensures forall j :: 0 <= j < i && j < |mem| ==> LinkLoop(mem, i, size)[j] == mem[j]
    decreases PAGE_SIZE - i
  {
    if i < PAGE_SIZE {
      LinkLoopFrame(Put16(mem, i, if i + size >= PAGE_SIZE then 0 else i + size), i + size, size);
    }
  }

  /** For objects of two bytes or more the loop links all of them, in address order. */
  lemma {:induction false} LinkLoopChain(mem: seq<u8>, k: nat, at: nat)
    requires |mem| > PAGE_SIZE && 1 <= k <= MAX_OBJ_ORDER && IsSlot(k, at)
    ensures Pow2(k) <= 1024
    ensures var linked := LinkLoop(mem, at, Pow2(k));
            var n := |SlotsFrom(k, at)|;
            Chain(linked, at, n) == SlotsFrom(k, at) && Follow(linked, at, n) == 0
    decreases PAGE_SIZE - at
  {
    FirstObjectFacts(k);
    SlotInPage(k, at);
    var size := Pow2(k);
    assert size >= 2;
    var next := at + size;
    var mem1 := Put16(mem, at, if next >= PAGE_SIZE then 0 else next);
    LinkLoopFrame(mem1, next, size);
    var linked := LinkLoop(mem, at, size);
    assert Get16(linked, at) == Get16(mem1, at);
    assert linked == LinkLoop(mem1, next, size);
    hide LinkLoop, Put16, Pow2, AlignUp;
    if next < PAGE_SIZE {
      AlignedPlusPow2(at, k);
      LinkLoopChain(mem1, k, next);
    } else {
      assert SlotsFrom(k, next) == [];
      assert Chain(linked, 0, 0) == [] && Follow(linked, 0, 0) == 0;
    }
  }

  /** The list that create builds is right exactly when objects have at least two bytes: with
      one-byte objects the links of neighbours overlap and already the first one leads astray. */
  lemma ListBuiltIffTwoBytes(mem: seq<u8>, k: nat)
    requires |mem| > PAGE_SIZE && k <= MAX_OBJ_ORDER
    ensures Pow2(k) <= 1024
    ensures var linked := LinkLoop(mem, FirstObject(k), Pow2(k));
            FreeListOk(linked, k, FirstObject(k), |SlotsFrom(k, FirstObject(k))|) <==> Pow2(k) >= 2
  {
    FirstObjectFacts(k);
    if k >= 1 {
      assert Pow2(k) >= 2;
      ListBuiltOk(mem, k);
    } else {
      assert Pow2(0) == 1;
      FirstOneByteObject();
      OneByteLinks(mem);
      OneByteListBroken(LinkLoop(mem, 24, 1), |SlotsFrom(0, 24)|);
    }
  }

  lemma ListBuiltOk(mem: seq<u8>, k: nat)
    requires |mem| > PAGE_SIZE && 1 <= k <= MAX_OBJ_ORDER
    ensures Pow2(k) <= 1024
    ensures FreeListOk(LinkLoop(mem, FirstObject(k), Pow2(k)), k, FirstObject(k), |SlotsFrom(k, FirstObject(k))|)
  {
    FirstObjectFacts(k);
    SlotsFromFacts(k, FirstObject(k));
    LinkLoopFrame(mem, FirstObject(k), Pow2(k));
    LinkLoopChain(mem, k, FirstObject(k));
  }

  lemma FirstOneByteObject()
    ensures FirstObject(0) == 24 && |SlotsFrom(0, 24)| >= 2
  {
    assert Pow2(0) == 1;
    UnwrappedAlignUp(24, 1);
    ClearZero(24);
  }

  lemma OneByteListBroken(linked: seq<u8>, n: nat)
    requires |linked| > PAGE_SIZE && Get16(linked, 24) == 6681 && n >= 2
    ensures !FreeListOk(linked, 0, 24, n)
  {
    var rest := Chain(linked, 6681, n - 1);
    assert Chain(linked, 24, n) == [24] + rest;
    if |rest| == n - 1 {
      assert ([24] + rest)[1] == rest[0] == 6681;
      assert 6681 in Chain(linked, 24, n) && !IsSlot(0, 6681);
    }
  }

  /** With one-byte objects the first object's link reads 25 + 256 * 26, far past the page. */
  lemma OneByteLinks(mem: seq<u8>)
    requires |mem| > PAGE_SIZE
    ensures |LinkLoop(mem, 24, 1)| == |mem| && Get16(LinkLoop(mem, 24, 1), 24) == 6681 > PAGE_SIZE
  {
    var m1 := Put16(mem, 24, 25);
    var m2 := Put16(m1, 25, 26);
    var m3 := Put16(m2, 26, 27);
    LinkLoopFrame(m3, 27, 1);
    assert LinkLoop(mem, 24, 1) == LinkLoop(m1, 25, 1) == LinkLoop(m2, 26, 1) == LinkLoop(m3, 27, 1);
    assert m1[24] == 25 && m2[25] == 26;
  }

  // ----- allocating and freeing one object, on values

  /** The slots of a page, in address order. */
  function Slots(k: nat): seq<nat> {
    SlotsFrom(k, FirstObject(k))
  }

  /** The objects that are handed out. */
  ghost function LiveIn(mem: seq<u8>, k: nat, head: nat, n: nat): set<nat> {
    set off | off in Slots(k) && off !in Chain(mem, head, n)
  }

  /** mem with the bytes from lo up to hi zeroed. */
  function Zeroed(mem: seq<u8>, lo: nat, hi: nat): seq<u8> {
    seq(|mem|, i requires 0 <= i < |mem| => if lo <= i < hi then 0 else mem[i])
  }

  lemma AllocKeepsList(mem: seq<u8>, k: nat, head: nat, n: nat)
    requires 1 <= k <= MAX_OBJ_ORDER && FreeListOk(mem, k, head, n) && n > 0
    ensures IsSlot(k, head) && head + Pow2(k) <= PAGE_SIZE && head + 1 < |mem|
    ensures var mem' := Zeroed(mem, head, head + Pow2(k));
            var next := Get16(mem, head);
            && FreeListOk(mem', k, next, n - 1)
            && Chain(mem, head, n) == [head] + Chain(mem', next, n - 1)
  {
    var next := Get16(mem, head);
    var rest := Chain(mem, next, n - 1);
    assert Chain(mem, head, n) == [head] + rest;
    assert head in [head] + rest;
    assert forall c :: c in rest ==> c in [head] + rest;
    SlotInPage(k, head);
    DistinctTail(head, rest);
    assert FreeListOk(mem, k, next, n - 1);
    ListAwayFrom(mem, Zeroed(mem, head, head + Pow2(k)), k, next, n - 1, head);
  }

  lemma DistinctTail(x: nat, s: seq<nat>)
    requires NoDup([x] + s)
    ensures NoDup(s) && x !in s
  {
    assert ([x] + s)[0] == x;
    assert forall i :: 0 <= i < |s| ==> s[i] == ([x] + s)[i + 1];
  }

  lemma LiveAfterAlloc(mem: seq<u8>, mem': seq<u8>, k: nat, head: nat, next: nat, n: nat)
    requires 1 <= k <= MAX_OBJ_ORDER && IsSlot(k, head) && FreeListOk(mem, k, head, n + 1)
    requires Chain(mem, head, n + 1) == [head] + Chain(mem', next, n)
    ensures head !in LiveIn(mem, k, head, n + 1)
    ensures LiveIn(mem', k, next, n) == LiveIn(mem, k, head, n + 1) + {head}
  {
    hide Chain, Follow, SlotsFrom;
    SlotsAreSlots(k);
    DistinctTail(head, Chain(mem', next, n));
  }

  lemma FreeKeepsList(mem: seq<u8>, k: nat, head: nat, n: nat, off: nat)
    requires 1 <= k <= MAX_OBJ_ORDER && FreeListOk(mem, k, head, n) && head < 0x1_0000
    requires IsSlot(k, off) && off !in Chain(mem, head, n) && off + 1 < |mem|
    ensures var mem' := Put16(mem, off, head);
            FreeListOk(mem', k, off, n + 1) && Chain(mem', off, n + 1) == [off] + Chain(mem, head, n)
  {
    var mem' := Put16(mem, off, head);
    assert Pow2(k) >= 2;
    ListAwayFrom(mem, mem', k, head, n, off);
    assert Chain(mem', off, n + 1) == [off] + Chain(mem', head, n);
  }

  /** Every slot is on the list exactly when as many are free as there are: then nothing is live. */
  lemma AllFreeIff(mem: seq<u8>, k: nat, head: nat, n: nat)
    requires 1 <= k <= MAX_OBJ_ORDER && FreeListOk(mem, k, head, n)
    ensures n <= |Slots(k)|
    ensures n == |Slots(k)| <==> LiveIn(mem, k, head, n) == {}
  {
    hide SlotsFrom, FirstObject, Follow, Chain;
    var chain, slots := Chain(mem, head, n), Slots(k);
    SlotsAreSlots(k);
    hide FreeListOk, Slots, IsSlot;
    assert LiveIn(mem, k, head, n) == set off | off in slots && off !in chain;
    CountTells(chain, slots);
  }

  /** Distinct entries of a list fill it exactly when there are as many. */
  lemma CountTells(part: seq<nat>, whole: seq<nat>)
    requires NoDup(part) && NoDup(whole) && forall c :: c in part ==> c in whole
    ensures |part| <= |whole|
    ensures |part| == |whole| <==> (set off | off in whole && off !in part) == {}
  {
    DistinctCount(whole);
    DistinctCount(part);
    hide NoDup, Elements;
    SubsetCount(Elements(part), Elements(whole));
    var missing := set off | off in whole && off !in part;
    assert missing == Elements(whole) - Elements(part);
    if missing == {} {
      assert Elements(part) == Elements(whole);
    }
  }

  function Elements(s: seq<nat>): (r: set<nat>)
    ensures forall c :: c in r <==> c in s
  {
    if s == [] then {}
    else
      assert s == [s[0]] + s[1..];
      {s[0]} + Elements(s[1..])
  }

  lemma {:induction false} DistinctCount(s: seq<nat>)
    requires NoDup(s)
    ensures |Elements(s)| == |s|
  {
    if s != [] {
      DistinctCount(s[1..]);
    }
  }

  lemma {:induction false} SubsetCount(a: set<nat>, b: set<nat>)
    requires a <= b
    ensures |a| <= |b| && (|a| == |b| ==> a == b)
  {
    if a != {} {
      var x :| x in a;
      SubsetCount(a - {x}, b - {x});
      if |a| == |b| {
        assert a - {x} == b - {x};
        assert a == (a - {x}) + {x} && b == (b - {x}) + {x};
      }
    }
  }

  /** The fields and the page of a cache. */
  datatype CacheVal = CacheVal(objSize: nat, objCnt: nat, objFree: nat, head: nat, mem: seq<u8>)

  /** The cache manages objects of 2^k bytes, and its list and counters are right. */
  ghost predicate CacheOk(c: CacheVal, k: nat) {
    && 1 <= k <= MAX_OBJ_ORDER && |c.mem| == PAGE_SIZE && c.objSize == Pow2(k)
    && c.objCnt == |Slots(k)| && c.head < 0x1_0000
    && FreeListOk(c.mem, k, c.head, c.objFree)
  }

  /** The offsets of the objects that are handed out. */
  ghost function LiveOf(c: CacheVal, k: nat): set<nat> {
    LiveIn(c.mem, k, c.head, c.objFree)
  }

  /** The counters tell when nothing is live. */
  lemma CountersTell(c: CacheVal, k: nat)
    requires CacheOk(c, k)
    ensures c.objFree <= c.objCnt && (c.objFree == c.objCnt <==> LiveOf(c, k) == {})
  {
    AllFreeIff(c.mem, k, c.head, c.objFree);
  }

  /** Handing out the object at off: it was free, it is zeroed, and nothing else changes. */
  ghost predicate ObjectTaken(c: CacheVal, k: nat, off: nat, c': CacheVal) {
    && IsSlot(k, off) && off + Pow2(k) <= PAGE_SIZE && off !in LiveOf(c, k)
    && LiveOf(c', k) == LiveOf(c, k) + {off}
    && c'.objFree + 1 == c.objFree && c'.objCnt == c.objCnt && c'.objSize == c.objSize
    && c'.mem == Zeroed(c.mem, off, off + Pow2(k))
    && Chain(c.mem, c.head, c.objFree) == [off] + Chain(c'.mem, c'.head, c'.objFree)
  }

  /** Taking the object at off back: it will be handed out first, and only its link is written. */
  ghost predicate ObjectReturned(c: CacheVal, k: nat, off: nat, c': CacheVal) {
    && off in LiveOf(c, k) && off + 1 < |c.mem| && c.head < 0x1_0000
    && LiveOf(c', k) == LiveOf(c, k) - {off}
    && c'.objFree == c.objFree + 1 && c'.objCnt == c.objCnt && c'.objSize == c.objSize
    && c'.mem == Put16(c.mem, off, c.head)
    && Chain(c'.mem, c'.head, c'.objFree) == [off] + Chain(c.mem, c.head, c.objFree)
  }

  /** A link written into the object at off by somebody who is not its cache. */
  ghost function Stray(c: CacheVal, off: nat, link: nat): CacheVal
    requires off + 1 < |c.mem| && link < 0x1_0000
  {
    c.(mem := Put16(c.mem, off, link))
  }

  /** It damages neither the list nor what is handed out, the object itself included. */
  lemma StrayKeepsLive(c: CacheVal, k: nat, off: nat, link: nat)
    requires CacheOk(c, k) && off in LiveOf(c, k) && link < 0x1_0000
    ensures off + 1 < |c.mem| && CacheOk(Stray(c, off, link), k) && LiveOf(Stray(c, off, link), k) == LiveOf(c, k)
  {
    SlotsAreSlots(k);
    SlotInPage(k, off);
    AtLeastTwo(k);
    hide Chain, Follow, SlotsFrom, Put16;
    ListAwayFrom(c.mem, Put16(c.mem, off, link), k, c.head, c.objFree, off);
  }

  class Cache {
    const page: nat
    const mem: array<u8>
    var objCnt: nat
    var objSize: nat
    var objFree: nat
    var head: nat  // the field `object`

    ghost function Val(): CacheVal
      reads this, mem
    {
      CacheVal(objSize, objCnt, objFree, head, mem[..])
    }

    ghost predicate Valid(k: nat)
      reads this, mem
    {
      CacheOk(Val(), k)
    }

    /** sslab_cache_create, in a page the buddy allocator provided. */
    constructor (page: nat, size: nat, ghost k: nat)
      requires 1 <= k <= MAX_OBJ_ORDER && size == Pow2(k)
      ensures fresh(mem) && this.page == page && Valid(k)
      ensures Chain(mem[..], head, objFree) == Slots(k) && LiveOf(Val(), k) == {}
      ensures objFree == objCnt > 0
    {
      this.page := page;
      mem := new u8[PAGE_SIZE](_ => 0);
      objCnt, objSize, objFree := 0, size, 0;
      head := AlignUp(HEADER, size);
      new;
      hide Chain, Follow, FreeListOk, LiveIn, SlotsFrom, LinkLoop, AlignUp, Aligned, Pow2, LiveIn;
      FirstObjectFacts(k);
      ghost var zeros := mem[..];
      LinkObjects(head, size, k);
      ListBuiltOk(zeros + [0], k);
      LinkLoopChain(zeros + [0], k, head);
      ListInPage(mem[..], mem[..] + [0], k, head, |Slots(k)|);
      AllFreeIff(mem[..], k, head, |Slots(k)|);
      SlotCount(k);
      objCnt := (PAGE_SIZE - head) / objSize;
      objFree := objCnt;
    }

    /** The loop of sslab_cache_create. */
    method LinkObjects(first: nat, size: nat, ghost k: nat)
      requires 1 <= k <= MAX_OBJ_ORDER && size == Pow2(k) <= 1024 && first == FirstObject(k) && IsSlot(k, first)
      requires mem.Length == PAGE_SIZE
      modifies mem
      ensures mem[..] + [0] == LinkLoop(old(mem[..]) + [0], first, size)
    {
      hide FirstObject, LinkLoop, Aligned, Pow2;
      ghost var start := mem[..] + [0];
      var i := first;
      while i < PAGE_SIZE
        invariant Aligned(i, k) && first <= i <= PAGE_SIZE
        invariant LinkLoop(mem[..] + [0], i, size) == LinkLoop(start, first, size)
      {
        SlotInPage(k, i);
        AlignedPlusPow2(i, k);
        AtLeastTwo(k);
        ghost var was := mem[..];
        var next := i + size;
        if next >= PAGE_SIZE {
          next := 0;
        }
        LinkLoopUnfold(was + [0], i, size);
        mem[i] := (next % 0x100) as u8;
        mem[i + 1] := (next / 0x100) as u8;
        assert mem[..] + [0] == Put16(was + [0], i, next);
        i := i + size;
      }
      LinkLoopUnfold(mem[..] + [0], i, size);
    }

    /** sslab_cache_alloc: the first free object, zeroed, or nothing. */
    method Alloc(ghost k: nat) returns (r: Option<nat>)
      requires Valid(k)
      modifies this`head, this`objFree, mem
      ensures Valid(k)
      ensures r.None? <==> old(objFree) == 0
      ensures r.None? ==> Val() == old(Val())
      ensures r.Some? ==> ObjectTaken(old(Val()), k, r.value, Val())
    {
      hide Chain, Follow, FreeListOk, SlotsFrom, FirstObject, Aligned, Pow2, IsSlot, LiveIn, Zeroed, Slots, NoDup;
      if objFree == 0 {
        return None;
      }
      AllocKeepsList(mem[..], k, head, objFree);
      var at := head;
      head := mem[at] as int + 0x100 * mem[at + 1] as int;
      objFree := objFree - 1;
      ZeroObject(at);
      LiveAfterAlloc(old(mem[..]), mem[..], k, at, head, objFree);
      r := Some(at);
    }

    /** memset of an object. */
    method ZeroObject(at: nat)
      requires at + objSize <= mem.Length
      modifies mem
      ensures mem[..] == Zeroed(old(mem[..]), at, at + objSize)
    {
      forall i | at <= i < at + objSize {
        mem[i] := 0;
      }
    }

    /** sslab_cache_free.  The object's link is written where the object is, at offset `at` of
        `bytes`; the cache records the low 16 bits of the object's distance from itself. */
    method Free(bytes: array<u8>, at: nat, diff: int, ghost k: nat)
      requires Valid(k) && at + 1 < bytes.Length
      modifies this`head, this`objFree, bytes
      ensures objFree == old(objFree) + 1 && head == diff % 0x1_0000
      ensures bytes[..] == Put16(old(bytes[..]), at, old(head))
      ensures bytes == mem && diff == at && at in old(LiveOf(Val(), k)) ==>
                Valid(k) && ObjectReturned(old(Val()), k, at, Val())
    {
      hide Chain, Follow, FreeListOk, SlotsFrom, FirstObject, Aligned, Pow2, IsSlot, NoDup;
      ghost var was := bytes[..];
      ghost var mine := bytes == mem && diff == at && at in LiveOf(Val(), k);
      SlotsAreSlots(k);
      var index := diff % 0x1_0000;
      bytes[at] := (head % 0x100) as u8;
      bytes[at + 1] := (head / 0x100) as u8;
      assert bytes[..] == Put16(was, at, head);
      if mine {
        FreeKeepsList(was, k, head, objFree, at);
      }
      head := index;
      objFree := objFree + 1;
    }
  }

  lemma AtLeastTwo(k: nat)
    requires k >= 1
    ensures Pow2(k) >= 2
  {
  }

  lemma LinkLoopUnfold(mem: seq<u8>, i: nat, size: nat)
    requires |mem| > PAGE_SIZE && 1 <= size <= 1024
    ensures LinkLoop(mem, i, size) ==
              if i >= PAGE_SIZE then mem
              else LinkLoop(Put16(mem, i, if i + size >= PAGE_SIZE then 0 else i + size), i + size, size)
  {
  }

  /** The object count of create's division is the number of slots. */
  lemma SlotCount(k: nat)
    requires k <= MAX_OBJ_ORDER
    ensures FirstObject(k) < PAGE_SIZE && (PAGE_SIZE - FirstObject(k)) / Pow2(k) == |Slots(k)| > 0
  {
    FirstObjectFacts(k);
    SlotsFromFacts(k, FirstObject(k));
    ShlIsProduct(|Slots(k)|, k);
    ModUnique(PAGE_SIZE - FirstObject(k), |Slots(k)|, 0, Pow2(k));
  }

  lemma SlotsAreSlots(k: nat)
    requires k <= MAX_OBJ_ORDER
    ensures NoDup(Slots(k)) && forall c :: c in Slots(k) <==> IsSlot(k, c)
  {
    FirstObjectFacts(k);
    SlotsFromFacts(k, FirstObject(k));
  }

  /** The slots are the multiples of the object size that leave room for the header and lie in the page, all
      of them, in address order. */
  lemma SlotsAreAllMultiples(k: nat, i: nat, j: nat, off: nat)
    requires k <= MAX_OBJ_ORDER
    ensures off in Slots(k) <==> off % Pow2(k) == 0 && HEADER <= off < PAGE_SIZE
    ensures i < j < |Slots(k)| ==> Slots(k)[i] < Slots(k)[j]
  {
    SlotsAreSlots(k);
    FirstObjectFacts(k);
    AlignedIsDivisible(off, k);
    AlignUpPowerOfTwo(HEADER, k);
    hide AlignUp, Slots;
    if Aligned(off, k) && HEADER <= off < FirstObject(k) {
      AlignedApart(k, off, FirstObject(k));
    }
    SlotsAscend(k, FirstObject(k), i, j);
  }

  lemma {:induction false} SlotsAscend(k: nat, at: nat, i: nat, j: nat)
    ensures i < j < |SlotsFrom(k, at)| ==> SlotsFrom(k, at)[i] < SlotsFrom(k, at)[j]
    decreases PAGE_SIZE - at
  {
    if at < PAGE_SIZE && i < j < |SlotsFrom(k, at)| {
      hide Pow2;
      if i == 0 {
        SlotsNotBelow(k, at + Pow2(k), j - 1);
      } else {
        SlotsAscend(k, at + Pow2(k), i - 1, j - 1);
      }
    }
  }

  lemma {:induction false} SlotsNotBelow(k: nat, at: nat, i: nat)
    requires i < |SlotsFrom(k, at)|
    ensures SlotsFrom(k, at)[i] >= at
    decreases PAGE_SIZE - at
  {
    hide Pow2;
    if i > 0 {
      SlotsNotBelow(k, at + Pow2(k), i - 1);
    }
  }

  lemma ListInPage(mem: seq<u8>, more: seq<u8>, k: nat, head: nat, n: nat)
    requires 1 <= k <= MAX_OBJ_ORDER && |mem| == PAGE_SIZE && mem <= more && FreeListOk(more, k, head, n)
    ensures FreeListOk(mem, k, head, n) && Chain(mem, head, n) == Chain(more, head, n)
  {
    forall c | c in Chain(more, head, n)
      ensures c + 1 < |mem|
    {
      SlotInPage(k, c);
      assert Pow2(k) >= 2;
    }
    ChainFrame(more, mem, head, n);
  }
}
