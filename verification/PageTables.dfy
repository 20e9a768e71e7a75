/** Address spaces over the buddy allocator: linking a page at a virtual address, and new address
    spaces.

    The kernel reaches a frame through its linear map (see KernelMap); here memory is indexed by frame. */
module PageTables {
  import opened Config
  import opened BitOps
  import opened Wrappers
  import opened BuddyBlocks
  import opened BuddyState
  import opened Buddy
  import opened Paging

  const PRESENT: nat := 1

  /** The free pages that vpage_link_addr may draw from. */
  function NormalPages(free: set<nat>): set<nat> {
    set p | p in free && ZoneOf(p) == ZONE_NORMAL
  }

  /** The frames that differ between mem and mem' are all in `where`. */
  ghost predicate ChangedOnly(mem: Memory, mem': Memory, where: set<nat>) {
    |mem'| == |mem| && forall f :: 0 <= f < |mem| && f !in where ==> mem'[f] == mem[f]
  }

  /** No directory entry has changed, but for entry i of root, which is now there. */
  ghost predicate OneDirectoryEntry(mem: Memory, mem': Memory, spaces: set<nat>, root: nat, i: nat) {
    && Present(Entry(mem', root, i))
    && forall s, a :: s in spaces && !(s == root && a == i) ==> Entry(mem', s, a) == Entry(mem, s, a)
  }

  /** What vpage_link_addr does to memory and to the free pages: on success one more page is mapped, to
      a zeroed frame that was free, and a page table is allocated if there was none; on failure every
      translation and the free pages are as before.  Nothing that somebody else holds is written. */
  ghost predicate LinkDone(mem: Memory, free: set<nat>, spaces: set<nat>, root: nat, i: nat, j: nat,
                           frame: Option<nat>, mem': Memory, free': set<nat>) {
    match frame
    case None =>
      free' == free && SameWalks(mem, mem', spaces) && ChangedOnly(mem, mem', free)
    case Some(f) =>
      var table := FrameOf(Entry(mem', root, i));
      && f in free && f < |mem'| && mem'[f] == Zeros()
      && OneMore(mem, mem', spaces, root, i, j, f) && OneDirectoryEntry(mem, mem', spaces, root, i)
      && free' == free - {f} - (if Present(Entry(mem, root, i)) then {} else {table})
      && ChangedOnly(mem, mem', {f, table} + (if Present(Entry(mem, root, i)) then {} else {root}))
      && (!Present(Entry(mem, root, i)) ==> table in free && table != f)
  }

  // ----- the steps of vpage_link_addr on values

  lemma FreeIsUnused(mem: Memory, spaces: set<nat>, tables: seq<nat>, free: set<nat>, f: nat)
    requires SpacesOk(mem, spaces, tables, free) && f in free
    ensures !InUse(mem, spaces, tables, f)
  {
    forall x | Used(mem, spaces, |tables|, x)
      ensures Target(mem, x) != f
    {
      assert SlotOk(mem, tables, free, x);
    }
    forall k | 0 <= k < |tables|
      ensures tables[k] != f
    {
      assert KernelTableOk(mem, spaces, free, tables[k], k);
    }
  }

  /** A free frame is zeroed. */
  lemma FrameZeroed(mem: Memory, spaces: set<nat>, tables: seq<nat>, free: set<nat>, f: nat)
    requires SpacesOk(mem, spaces, tables, free) && f in free && f < |mem|
    ensures var mem' := mem[f := Zeros()];
            && SpacesOk(mem', spaces, tables, free) && SameWalks(mem, mem', spaces)
            && f !in spaces && forall s, i :: s in spaces ==> Entry(mem', s, i) == Entry(mem, s, i)
  {
    hide Zeros, KernelOk, SlotsApart;
    forall g | g in free
      ensures !InUse(mem, spaces, tables, g)
    {
      FreeIsUnused(mem, spaces, tables, free, g);
    }
    assert f !in spaces by {
      assert f in spaces ==> Used(mem, spaces, |tables|, Root(f)) && Target(mem, Root(f)) == f;
    }
    OtherFrames(mem, spaces, tables, free, mem[f := Zeros()], free);
  }

  lemma FramesAreFull(mem: Memory, spaces: set<nat>, tables: seq<nat>, free: set<nat>)
    requires SpacesOk(mem, spaces, tables, free)
    ensures forall f :: 0 <= f < |mem| ==> |mem[f]| == ENTRIES
    ensures forall s :: s in spaces ==> s < |mem| && s !in free
  {
    forall s | s in spaces
      ensures s < |mem| && s !in free
    {
      assert Used(mem, spaces, |tables|, Root(s)) && SlotOk(mem, tables, free, Root(s));
    }
  }

  /** In every address space the kernel's linear map takes the page at any distance from the start of
      the kernel's addresses to the frame at the same distance from the start of memory. */
  lemma LinearMap(mem: Memory, spaces: set<nat>, tables: seq<nat>, free: set<nat>, s: nat, i: nat, j: nat)
    requires SpacesOk(mem, spaces, tables, free) && s in spaces && KernelEntry(i, |tables|) && j < ENTRIES
    ensures Walk(mem, s, i, j) == Some(Mapping((i - KERNEL_PDE) * ENTRIES + j, true, true))
  {
    var k := i - KERNEL_PDE;
    KernelTableFrame(mem, spaces, tables, free, s, i);
    assert KernelTableOk(mem, spaces, free, tables[k], k);
    EntryDecodes(tables[k]);
    EntryDecodes(k * ENTRIES + j);
    assert Entry(mem, tables[k], j) == EntryFor(k * ENTRIES + j);
  }

  /** So the kernel's address of any byte that the map covers translates to that byte. */
  lemma KernelAddress(mem: Memory, spaces: set<nat>, tables: seq<nat>, free: set<nat>, s: nat, phys: nat)
    requires SpacesOk(mem, spaces, tables, free) && s in spaces && phys < |tables| * ENTRIES * PAGE_SIZE
    ensures Translate(mem, s, KERNEL_VSTART + phys) == Some(phys)
  {
    hide SpacesOk, Walk;
    var f := phys / PAGE_SIZE;
    KernelIndices(phys, f / ENTRIES, f % ENTRIES, phys % PAGE_SIZE);
    LinearMap(mem, spaces, tables, free, s, KERNEL_PDE + f / ENTRIES, f % ENTRIES);
  }

  /** The directory entry, the table entry and the offset of a kernel address. */
  lemma KernelIndices(phys: nat, k: nat, j: nat, o: nat)
    requires phys == (k * ENTRIES + j) * PAGE_SIZE + o && j < ENTRIES && o < PAGE_SIZE
    ensures var v := KERNEL_VSTART + phys;
            v / 0x40_0000 == KERNEL_PDE + k && (v / PAGE_SIZE) % ENTRIES == j && v % PAGE_SIZE == o
  {
    var v := KERNEL_VSTART + phys;
    ModUnique(v, KERNEL_PDE + k, j * PAGE_SIZE + o, 0x40_0000);
    ModUnique(v, (KERNEL_PDE + k) * ENTRIES + j, o, PAGE_SIZE);
    ModUnique((KERNEL_PDE + k) * ENTRIES + j, KERNEL_PDE + k, j, ENTRIES);
  }

  /** A page that is not mapped is not in the kernel's linear map. */
  lemma UnmappedIsNotKernel(mem: Memory, spaces: set<nat>, tables: seq<nat>, free: set<nat>, s: nat, i: nat, j: nat)
    requires SpacesOk(mem, spaces, tables, free) && s in spaces && i < ENTRIES && j < ENTRIES
               && Walk(mem, s, i, j) == None
    ensures !KernelEntry(i, |tables|)
  {
    hide SpacesOk, Walk;
    if KernelEntry(i, |tables|) {
      LinearMap(mem, spaces, tables, free, s, i, j);
    }
  }

  /** The page is not mapped, and p is a free page to map it to. */
  ghost predicate MayLink(mem: Memory, spaces: set<nat>, tables: seq<nat>, free: set<nat>, root: nat, i: nat, j: nat,
                          p: nat) {
    && SpacesOk(mem, spaces, tables, free) && root in spaces && i < ENTRIES && j < ENTRIES
    && Walk(mem, root, i, j) == None && p in free && p < |mem| <= MAX_FRAMES
  }

  /** p has been taken and zeroed and the page table is there: all that is missing is its entry. */
  ghost predicate TableReady(mem: Memory, spaces: set<nat>, tables: seq<nat>, free: set<nat>, root: nat, i: nat, j: nat,
                             p: nat, t: nat, mem1: Memory, free1: set<nat>) {
    && SpacesOk(mem1, spaces, tables, free1 + {p}) && SameWalks(mem, mem1, spaces)
    && Used(mem1, spaces, |tables|, Table(root, i)) && t == FrameOf(Entry(mem1, root, i))
    && OneDirectoryEntry(mem, mem1, spaces, root, i)
    && p !in free1 && p < |mem1| <= MAX_FRAMES && mem1[p] == Zeros()
    && free1 == free - {p} - (if Present(Entry(mem, root, i)) then {} else {t})
    && ChangedOnly(mem, mem1, {p} + (if Present(Entry(mem, root, i)) then {} else {root, t}))
    && (!Present(Entry(mem, root, i)) ==> t in free && t != p)
  }

  /** Where the page table was there already. */
  lemma TableFound(mem: Memory, spaces: set<nat>, tables: seq<nat>, free: set<nat>, root: nat, i: nat, j: nat, p: nat)
    requires MayLink(mem, spaces, tables, free, root, i, j, p) && Present(Entry(mem, root, i))
    ensures TableReady(mem, spaces, tables, free, root, i, j, p, FrameOf(Entry(mem, root, i)),
                       mem[p := Zeros()], free - {p})
  {
    hide SpacesOk, Walk, KernelEntry;
    UnmappedIsNotKernel(mem, spaces, tables, free, root, i, j);
    FrameZeroed(mem, spaces, tables, free, p);
    assert free - {p} + {p} == free;
  }

  /** Where a page table was allocated. */
  lemma TableMade(mem: Memory, spaces: set<nat>, tables: seq<nat>, free: set<nat>, root: nat, i: nat, j: nat, p: nat,
                  q: nat)
    requires MayLink(mem, spaces, tables, free, root, i, j, p) && !Present(Entry(mem, root, i))
    requires q in free - {p} && q < |mem|
    ensures root < |mem| && |mem[root]| == ENTRIES && root != p && root != q
    ensures var mem1 := Written(mem[p := Zeros()][q := Zeros()], root, i, EntryFor(q));
            TableReady(mem, spaces, tables, free, root, i, j, p, q, mem1, free - {p} - {q})
  {
    hide SpacesOk, KernelEntry, Walk;
    UnmappedIsNotKernel(mem, spaces, tables, free, root, i, j);
    FramesAreFull(mem, spaces, tables, free);
    FrameZeroed(mem, spaces, tables, free, p);
    var zeroed := mem[p := Zeros()][q := Zeros()];
    FrameZeroed(mem[p := Zeros()], spaces, tables, free, q);
    TableAdded(zeroed, spaces, tables, free, root, i, q);
    OneEntry(zeroed, root, i, EntryFor(q));
    assert free - {p} - {q} + {p} == free - {q};
  }

  /** The last write of vpage_link_addr. */
  lemma LastWrite(mem: Memory, spaces: set<nat>, tables: seq<nat>, free: set<nat>, root: nat, i: nat, j: nat, p: nat,
                  t: nat,
                  mem1: Memory, free1: set<nat>)
    requires MayLink(mem, spaces, tables, free, root, i, j, p)
    requires TableReady(mem, spaces, tables, free, root, i, j, p, t, mem1, free1)
    ensures t < |mem1| && |mem1[t]| == ENTRIES
    ensures var mem' := Written(mem1, t, j, EntryFor(p));
            SpacesOk(mem', spaces, tables, free1) && LinkDone(mem, free, spaces, root, i, j, Some(p), mem', free1)
  {
    hide SpacesOk, Walk;
    TableInPlace(mem1, spaces, tables, free1 + {p}, root, i, j, p);
    LeafAdded(mem1, spaces, tables, free1 + {p}, root, i, j, p);
    assert free1 + {p} - {p} == free1;
    OneEntry(mem1, t, j, EntryFor(p));
    TableIsNoDirectory(mem1, spaces, tables, free1 + {p}, root, i);
  }

  lemma TableIsNoDirectory(mem: Memory, spaces: set<nat>, tables: seq<nat>, free: set<nat>, s: nat, i: nat)
    requires SpacesOk(mem, spaces, tables, free) && Used(mem, spaces, |tables|, Table(s, i))
    ensures FrameOf(Entry(mem, s, i)) !in spaces
  {
    var t := FrameOf(Entry(mem, s, i));
    assert t in spaces ==> Used(mem, spaces, |tables|, Root(t)) && Target(mem, Root(t)) == t;
  }

  lemma TableInPlace(mem: Memory, spaces: set<nat>, tables: seq<nat>, free: set<nat>, s: nat, i: nat, j: nat, p: nat)
    requires SpacesOk(mem, spaces, tables, free) && Used(mem, spaces, |tables|, Table(s, i)) && p in free
    ensures FrameOf(Entry(mem, s, i)) < |mem| && FrameOf(Entry(mem, s, i)) != p && FrameOf(Entry(mem, s, i)) != s
    ensures Walk(mem, s, i, j) == None ==> !Present(Entry(mem, FrameOf(Entry(mem, s, i)), j))
  {
    assert Used(mem, spaces, |tables|, Root(s));
    Apart(mem, spaces, tables, free, Table(s, i), Root(s));
    assert SlotOk(mem, tables, free, Table(s, i));
  }

  /** On failure memory has changed in a free frame at most. */
  lemma NothingLinked(mem: Memory, spaces: set<nat>, tables: seq<nat>, free: set<nat>, root: nat, i: nat, j: nat,
                      zeroed: Option<nat>)
    requires SpacesOk(mem, spaces, tables, free) && (zeroed.Some? ==> zeroed.value in free && zeroed.value < |mem|)
    ensures var mem' := if zeroed.Some? then mem[zeroed.value := Zeros()] else mem;
            SpacesOk(mem', spaces, tables, free) && LinkDone(mem, free, spaces, root, i, j, None, mem', free)
  {
    hide SpacesOk;
    if zeroed.Some? {
      FrameZeroed(mem, spaces, tables, free, zeroed.value);
    }
  }

  /** Having taken one page, another is left exactly when there were two. */
  lemma EnoughPages(free: set<nat>, p: nat)
    requires p in free && ZoneOf(p) == ZONE_NORMAL
    ensures |NormalPages(free)| >= 1
    ensures NormalPages(free - {p}) == {} <==> |NormalPages(free)| < 2
  {
    assert NormalPages(free - {p}) == NormalPages(free) - {p};
    assert p in NormalPages(free);
    assert |NormalPages(free) - {p}| == |NormalPages(free)| - 1;
  }

  lemma PutBack(free: set<nat>, p: nat)
    requires p in free
    ensures free - {p} + {p} == free
  {
  }

  // ----- new address spaces

  /** What task_init_page_table puts into a new directory: the upper quarter of the kernel's. */
  function KernelHalf(kernelPd: Frame): (r: Frame)
    requires |kernelPd| == ENTRIES
    ensures |r| == ENTRIES
  {
    Zeros()[..KERNEL_PDE] + kernelPd[KERNEL_PDE..]
  }

  /** Nothing but the linear map is entered in the upper quarter of the kernel's directory. */
  ghost predicate OnlyLinear(mem: Memory, kernelPd: nat, n: nat) {
    forall i :: KERNEL_PDE + n <= i < ENTRIES ==> !Present(Entry(mem, kernelPd, i))
  }

  /** A new address space translates kernel addresses as the kernel's own does and no others, and no
      other address space changes. */
  ghost predicate SpaceDone(mem: Memory, free: set<nat>, spaces: set<nat>, kernelPd: nat, space: Option<nat>,
                            mem': Memory, free': set<nat>) {
    match space
    case None => free' == free && mem' == mem
    case Some(q) =>
      && q in free && free' == free - {q} && q !in spaces
      && SameWalks(mem, mem', spaces) && ChangedOnly(mem, mem', {q})
      && forall i, j :: 0 <= i < ENTRIES && 0 <= j < ENTRIES ==>
           Walk(mem', q, i, j) == if i >= KERNEL_PDE then Walk(mem, kernelPd, i, j) else None
  }

  /** If only the linear map is there, it is all that a new address space has. */
  lemma NewSpaceIsLinear(mem: Memory, spaces: set<nat>, tables: seq<nat>, free: set<nat>, kernelPd: nat, q: nat,
                         mem': Memory, free': set<nat>, i: nat, j: nat)
    requires SpacesOk(mem, spaces, tables, free) && kernelPd in spaces && OnlyLinear(mem, kernelPd, |tables|)
    requires SpaceDone(mem, free, spaces, kernelPd, Some(q), mem', free') && i < ENTRIES && j < ENTRIES
    ensures Walk(mem', q, i, j)
         == if KernelEntry(i, |tables|) then Some(Mapping((i - KERNEL_PDE) * ENTRIES + j, true, true)) else None
  {
    hide SpacesOk;
    if KernelEntry(i, |tables|) {
      hide Walk;
      LinearMap(mem, spaces, tables, free, kernelPd, i, j);
    }
  }

  /** The new directory's entries, in memory where nothing that is in use has changed. */
  lemma DirectoryCopied(mem: Memory, spaces: set<nat>, tables: seq<nat>, free: set<nat>, kernelPd: nat, q: nat)
    requires SpacesOk(mem, spaces, tables, free) && kernelPd in spaces && q in free && q < |mem|
    ensures kernelPd < |mem| && |mem[kernelPd]| == ENTRIES && kernelPd != q
    ensures var mem' := mem[q := KernelHalf(mem[kernelPd])];
            && SpacesOk(mem', spaces, tables, free) && SameWalks(mem, mem', spaces)
            && (forall i: nat :: Entry(mem', kernelPd, i) == Entry(mem, kernelPd, i))
            && (forall i: nat :: Entry(mem', q, i) == if i >= KERNEL_PDE then Entry(mem, kernelPd, i) else 0)
  {
    FramesAreFull(mem, spaces, tables, free);
    forall g | g in free
      ensures !InUse(mem, spaces, tables, g)
    {
      FreeIsUnused(mem, spaces, tables, free, g);
    }
    OtherFrames(mem, spaces, tables, free, mem[q := KernelHalf(mem[kernelPd])], free);
  }

  /** Copying the kernel's half keeps all address spaces apart if and only if nothing but the linear map
      is entered in it: any other table would be in two directories. */
  lemma SpaceAddedIff(mem: Memory, spaces: set<nat>, tables: seq<nat>, free: set<nat>, kernelPd: nat, q: nat)
    requires SpacesOk(mem, spaces, tables, free) && kernelPd in spaces && q in free && q < |mem|
    ensures kernelPd < |mem| && |mem[kernelPd]| == ENTRIES && kernelPd != q
    ensures var mem' := mem[q := KernelHalf(mem[kernelPd])];
            && SpaceDone(mem, free, spaces, kernelPd, Some(q), mem', free - {q})
            && (SpacesOk(mem', spaces + {q}, tables, free - {q}) <==> OnlyLinear(mem, kernelPd, |tables|))
  {
    hide SpacesOk;
    FramesAreFull(mem, spaces, tables, free);
    DirectoryCopied(mem, spaces, tables, free, kernelPd, q);
    var n, mem' := |tables|, mem[q := KernelHalf(mem[kernelPd])];
    if OnlyLinear(mem, kernelPd, n) {
      DirectoryAdded(mem', spaces, tables, free, kernelPd, q);
    } else {
      var i :| KERNEL_PDE + n <= i < ENTRIES && Present(Entry(mem, kernelPd, i));
      SharedIsWrong(mem', spaces + {q}, tables, free - {q}, kernelPd, q, i);
    }
  }

  /** Two directories with the same page table are not apart. */
  lemma SharedIsWrong(mem: Memory, spaces: set<nat>, tables: seq<nat>, free: set<nat>, a: nat, b: nat, i: nat)
    requires a in spaces && b in spaces && a != b && i < ENTRIES && !KernelEntry(i, |tables|)
    requires Present(Entry(mem, a, i)) && Entry(mem, b, i) == Entry(mem, a, i)
    ensures !SpacesOk(mem, spaces, tables, free)
  {
    assert Used(mem, spaces, |tables|, Table(a, i)) && Used(mem, spaces, |tables|, Table(b, i));
    assert Target(mem, Table(a, i)) == Target(mem, Table(b, i));
  }

  /** A page that is linked through a shared table in one of two address spaces appears in the other. */
  lemma SharedTableLeaks(mem: Memory, a: nat, b: nat, i: nat, j: nat, f: nat)
    requires Present(Entry(mem, a, i)) && Entry(mem, b, i) == Entry(mem, a, i)
    requires var t := FrameOf(Entry(mem, a, i)); t < |mem| && |mem[t]| == ENTRIES && t != a && t != b
    requires j < ENTRIES && f < MAX_FRAMES
    ensures var mem' := Written(mem, FrameOf(Entry(mem, a, i)), j, EntryFor(f));
            && Walk(mem', a, i, j) == Walk(mem', b, i, j) && Walk(mem', a, i, j).Some?
            && Walk(mem', a, i, j).value.frame == f
  {
    EntryDecodes(f);
    OneEntry(mem, FrameOf(Entry(mem, a, i)), j, EntryFor(f));
  }

  /** Linking the page just above the linear map in the kernel's own address space and then making a new
      one: both have the page, mapped to the same frame through the same table. */
  lemma LinkAboveMapIsShared(mem: Memory, spaces: set<nat>, tables: seq<nat>, free: set<nat>, kernelPd: nat, j: nat,
                             f: nat,
                             mem1: Memory, free1: set<nat>, q: nat)
    requires SpacesOk(mem, spaces, tables, free) && kernelPd in spaces && j < ENTRIES
    requires LinkDone(mem, free, spaces, kernelPd, KERNEL_PDE + |tables|, j, Some(f), mem1, free1)
    requires SpacesOk(mem1, spaces, tables, free1) && q in free1 && q < |mem1|
    ensures kernelPd < |mem1| && |mem1[kernelPd]| == ENTRIES
    ensures var (i, mem2) := (KERNEL_PDE + |tables|, mem1[q := KernelHalf(mem1[kernelPd])]);
            && Walk(mem2, q, i, j) == Walk(mem2, kernelPd, i, j) == Some(Mapping(f, true, true))
            && Entry(mem2, q, i) == Entry(mem2, kernelPd, i) && Present(Entry(mem2, q, i))
            && !SpacesOk(mem2, spaces + {q}, tables, free1 - {q})
  {
    var i := KERNEL_PDE + |tables|;
    assert i < ENTRIES && OneDirectoryEntry(mem, mem1, spaces, kernelPd, i);
    hide SpacesOk, Walk;
    SpaceAddedIff(mem1, spaces, tables, free1, kernelPd, q);
    DirectoryCopied(mem1, spaces, tables, free1, kernelPd, q);
  }

  /** Linking leaves the upper quarter of the kernel's directory to the linear map, unless the kernel's own
      address space is linked above the map. */
  lemma LinkKeepsLinear(mem: Memory, spaces: set<nat>, tables: seq<nat>, free: set<nat>, kernelPd: nat, root: nat,
                        i: nat, j: nat,
                        frame: Option<nat>, mem': Memory, free': set<nat>)
    requires SpacesOk(mem, spaces, tables, free) && kernelPd in spaces && root in spaces && i < ENTRIES && j < ENTRIES
    requires OnlyLinear(mem, kernelPd, |tables|) && Walk(mem, root, i, j) == None
    requires LinkDone(mem, free, spaces, root, i, j, frame, mem', free')
    ensures OnlyLinear(mem', kernelPd, |tables|) <==> !(frame.Some? && root == kernelPd && i >= KERNEL_PDE)
  {
    hide SpacesOk, Walk, Present;
    FramesAreFull(mem, spaces, tables, free);
    UnmappedIsNotKernel(mem, spaces, tables, free, root, i, j);
    if frame.None? {
      assert forall a :: Entry(mem', kernelPd, a) == Entry(mem, kernelPd, a);
    }
  }

  /** A directory with the kernel's linear map only becomes an address space. */
  lemma DirectoryAdded(mem: Memory, spaces: set<nat>, tables: seq<nat>, free: set<nat>, kernelPd: nat, q: nat)
    requires SpacesOk(mem, spaces, tables, free) && kernelPd in spaces && q in free && q < |mem|
    requires forall i :: KernelEntry(i, |tables|) ==> Entry(mem, q, i) == Entry(mem, kernelPd, i)
    requires forall i :: 0 <= i < ENTRIES && !KernelEntry(i, |tables|) ==> !Present(Entry(mem, q, i))
    ensures SpacesOk(mem, spaces + {q}, tables, free - {q})
  {
    var n, spaces' := |tables|, spaces + {q};
    FramesAreFull(mem, spaces, tables, free);
    FreeIsUnused(mem, spaces, tables, free, q);
    assert forall x :: Used(mem, spaces', n, x) <==> Used(mem, spaces, n, x) || x == Root(q);
    assert KernelOk(mem, spaces', tables, free - {q}) by {
      forall k | 0 <= k < n
        ensures KernelTableOk(mem, spaces', free - {q}, tables[k], k)
      {
        assert KernelTableOk(mem, spaces, free, tables[k], k);
      }
      forall s, k | s in spaces' && 0 <= k < n
        ensures Entry(mem, s, KERNEL_PDE + k) == EntryFor(tables[k])
      {
        assert KernelEntry(KERNEL_PDE + k, n);
        assert Entry(mem, kernelPd, KERNEL_PDE + k) == EntryFor(tables[k]);
      }
    }
    SlotAddedInPlace(mem, spaces, spaces', tables, free, Root(q), q);
  }

  lemma SlotAddedInPlace(mem: Memory, spaces: set<nat>, spaces': set<nat>, tables: seq<nat>, free: set<nat>, x0: Slot,
                         f0: nat)
    requires SpacesOk(mem, spaces, tables, free) && f0 in free && f0 < |mem| && x0.Root? && Target(mem, x0) == f0
    requires forall x :: Used(mem, spaces', |tables|, x) <==> Used(mem, spaces, |tables|, x) || x == x0
    requires KernelOk(mem, spaces', tables, free - {f0})
    ensures SpacesOk(mem, spaces', tables, free - {f0})
  {
    hide Used, Entry, FrameOf, KernelOk;
    FreeIsUnused(mem, spaces, tables, free, f0);
    forall x | Used(mem, spaces', |tables|, x)
      ensures SlotOk(mem, tables, free - {f0}, x)
    {
      assert x != x0 ==> SlotOk(mem, tables, free, x);
    }
  }

  // ----- in place

  class AddressSpaces {
    const buddy: Allocator
    /** Physical memory, by frames. */
    const mem: array<Frame>
    /** The frame of __kernel_pd. */
    const kernelPd: nat
    ghost const tables: seq<nat>
    ghost var spaces: set<nat>

    /** The state after boot: see KernelMap.InitVpage. */
    constructor (buddy: Allocator, mem: array<Frame>, kernelPd: nat, ghost tables: seq<nat>)
      requires buddy.Ready() && mem.Length == buddy.pages.Length <= MAX_FRAMES
      requires SpacesOk(mem[..], {kernelPd}, tables, buddy.FreePages())
      ensures Valid() && this.buddy == buddy && this.mem == mem && this.kernelPd == kernelPd
      ensures this.tables == tables && spaces == {kernelPd}
    {
      this.buddy, this.mem, this.kernelPd, this.tables, spaces := buddy, mem, kernelPd, tables, {kernelPd};
    }

    ghost predicate Valid()
      reads this`spaces, mem, buddy.pages, buddy.zones
    {
      && buddy.Ready() && mem.Length == buddy.pages.Length <= MAX_FRAMES && kernelPd in spaces
      && SpacesOk(mem[..], spaces, tables, buddy.FreePages())
    }

    /** buddy_alloc_page(MEM_ZONE_NORMAL, 0) */
    method TakePage() returns (r: Option<nat>)
      requires buddy.Ready()
      modifies buddy.pages, buddy.zones
      ensures buddy.Ready()
      ensures r.None? <==> old(NormalPages(buddy.FreePages())) == {}
      ensures r.None? ==> buddy.pages[..] == old(buddy.pages[..])
      ensures r.Some? ==>
                && r.value < buddy.pages.Length && ZoneOf(r.value) == ZONE_NORMAL && r.value in old(buddy.FreePages())
                && buddy.FreePages() == old(buddy.FreePages()) - {r.value}
                && !buddy.pages[r.value].reserved
    {
      hide StateOk, FreeRun, BlocksIn, PagesOf, AllocatedAreas, Releasable;
      ghost var pages0, zones0 := buddy.pages[..], buddy.ZoneVals();
      RunOfOnePage(pages0, ZONE_NORMAL);
      assert (exists p :: p in PagesOf(BlocksIn(pages0)) && ZoneOf(p) == ZONE_NORMAL)
          <==> NormalPages(PagesOf(BlocksIn(pages0))) != {} by {
        if p :| p in PagesOf(BlocksIn(pages0)) && ZoneOf(p) == ZONE_NORMAL {
          assert p in NormalPages(PagesOf(BlocksIn(pages0)));
        }
        if p :| p in NormalPages(PagesOf(BlocksIn(pages0))) {
          assert p in PagesOf(BlocksIn(pages0)) && ZoneOf(p) == ZONE_NORMAL;
        }
      }
      r := buddy.AllocPage(ZONE_NORMAL, 0, 3);
      if r.Some? {
        OnePageAllocated(pages0, zones0, ZONE_NORMAL, r.value, buddy.pages[..], buddy.ZoneVals());
      }
    }

    /** buddy_free_page(page, 0) */
    method GiveBack(p: nat)
      requires buddy.Ready() && p < buddy.pages.Length && !buddy.pages[p].reserved && p !in buddy.FreePages()
      modifies buddy.pages, buddy.zones
      ensures buddy.Ready() && buddy.FreePages() == old(buddy.FreePages()) + {p}
    {
      hide StateOk, BlocksIn, PagesOf, FreedAreas, Releasable;
      ghost var pages0, zones0 := buddy.pages[..], buddy.ZoneVals();
      SinglePageReleasable(pages0, p);
      buddy.FreePage(p, 0, 3);
      OnePageFreed(pages0, zones0, p, buddy.pages[..], buddy.ZoneVals());
    }

    /** Equal free pages are equal free blocks. */
    lemma BlocksFollowPages()
      requires buddy.Ready()
      ensures buddy.FreeBlocks() == Canonical(buddy.FreePages())
    {
      hide StateOk, BlocksIn, PagesOf, Canonical;
      FreeBlocksAreCanonical(buddy.pages[..], buddy.ZoneVals(), 3);
    }

    method ZeroFrame(f: nat)
      requires f < mem.Length
      modifies mem
      ensures mem[..] == old(mem[..])[f := Zeros()]
    {
      mem[f] := Zeros();
    }

    /** The middle of vpage_link_addr, the page having been taken and zeroed: the frame of the page
        table, which is allocated if the directory has none. */
    method PageTableFor(root: nat, v: nat, p: nat, ghost mem0: Memory, ghost free0: set<nat>) returns (t: Option<nat>)
      requires v < 0x1_0000_0000 && MayLink(mem0, spaces, tables, free0, root, PdeIndex(v), PteIndex(v), p)
      requires buddy.Ready() && mem.Length == buddy.pages.Length && mem[..] == mem0[p := Zeros()]
                 && buddy.FreePages() == free0 - {p}
      modifies mem, buddy.pages, buddy.zones
      ensures buddy.Ready()
      ensures t.None? <==> !Present(Entry(mem0, root, PdeIndex(v))) && NormalPages(free0 - {p}) == {}
      ensures t.None? ==> mem[..] == old(mem[..]) && buddy.pages[..] == old(buddy.pages[..])
      ensures t.Some? ==>
                TableReady(mem0, spaces, tables, free0, root, PdeIndex(v), PteIndex(v), p, t.value,
                           mem[..], buddy.FreePages())
    {
      hide SpacesOk, StateOk, BlocksIn, PagesOf, Walk, NormalPages, TableReady, Desc;
      FrameZeroed(mem0, spaces, tables, free0, p);
      FramesAreFull(mem0, spaces, tables, free0);
      var i := PdeIndex(v);
      var pde := mem[root][i];
      assert pde == Entry(mem0, root, i);
      MacrosDecode(pde, v);
      if And(PRESENT, pde) != 0 {
        TableFound(mem0, spaces, tables, free0, root, i, PteIndex(v), p);
        return Some(PagePaddr(pde) / PAGE_SIZE);
      }
      var page := TakePage();
      if page == None {
        return None;
      }
      ZeroFrame(page.value);
      TableMade(mem0, spaces, tables, free0, root, i, PteIndex(v), p, page.value);
      DescIsEntry(page.value);
      WriteEntry(root, i, Desc(page.value * PAGE_SIZE, PRESENT, 1, 1));
      t := page;
    }

    /** vpage_link_addr for a page that is not mapped yet. */
    method LinkAddr(root: nat, v: nat) returns (r: Option<nat>, ghost frame: Option<nat>)
      requires Valid() && root in spaces && v < 0x1_0000_0000
      requires Walk(mem[..], root, PdeIndex(v), PteIndex(v)) == None
      modifies mem, buddy.pages, buddy.zones
      ensures Valid()
      ensures r == if frame.Some? then Some(v) else None
      ensures frame.None?
         <==> |old(NormalPages(buddy.FreePages()))| < old(if Present(Entry(mem[..], root, PdeIndex(v))) then 1 else 2)
      ensures frame.None? ==> buddy.FreeBlocks() == old(buddy.FreeBlocks())
      ensures LinkDone(old(mem[..]), old(buddy.FreePages()), spaces, root, PdeIndex(v), PteIndex(v), frame,
                       mem[..], buddy.FreePages())
    {
      hide SpacesOk, LinkDone, StateOk, BlocksIn, PagesOf, Walk, NormalPages, TableReady, Desc, Canonical, Present,
           Entry, Written;
      ghost var mem0, free0 := mem[..], buddy.FreePages();
      MacrosDecode(0, v);
      BlocksFollowPages();
      r, frame := None, None;
      var ppage := TakePage();
      if ppage == None {
        NothingLinked(mem0, spaces, tables, free0, root, PdeIndex(v), PteIndex(v), None);
        return;
      }
      var p := ppage.value;
      ZeroFrame(p);
      EnoughPages(free0, p);
      var t := PageTableFor(root, v, p, mem0, free0);
      if t == None {
        GiveBack(p);
        PutBack(free0, p);
        NothingLinked(mem0, spaces, tables, free0, root, PdeIndex(v), PteIndex(v), Some(p));
        BlocksFollowPages();
        return;
      }
      LastWrite(mem0, spaces, tables, free0, root, PdeIndex(v), PteIndex(v), p, t.value, mem[..], buddy.FreePages());
      DescIsEntry(p);
      WriteEntry(t.value, PteIndex(v), Desc(p * PAGE_SIZE, PRESENT, 1, 1));
      assert SpacesOk(mem[..], spaces, tables, buddy.FreePages());
      r, frame := Some(v), Some(p);
    }

    /** task_init_page_table.  The invariant survives if and only if nothing is linked above the linear
        map in the kernel's own address space. */
    method NewSpace() returns (r: Option<nat>)
      requires Valid()
      modifies this`spaces, mem, buddy.pages, buddy.zones
      ensures buddy.Ready() && (Valid() <==> r.None? || old(OnlyLinear(mem[..], kernelPd, |tables|)))
      ensures spaces == old(spaces) + if r.Some? then {r.value} else {}
      ensures r.None? <==> old(NormalPages(buddy.FreePages())) == {}
      ensures SpaceDone(old(mem[..]), old(buddy.FreePages()), old(spaces), kernelPd, r, mem[..], buddy.FreePages())
    {
      hide SpacesOk, StateOk, BlocksIn, PagesOf, Walk, NormalPages, OnlyLinear;
      ghost var mem0, free0 := mem[..], buddy.FreePages();
      FramesAreFull(mem0, spaces, tables, free0);
      r := TakePage();
      if r.Some? {
        var q := r.value;
        SpaceAddedIff(mem0, spaces, tables, free0, kernelPd, q);
        ZeroFrame(q);
        mem[q] := mem[q][..KERNEL_PDE] + mem[kernelPd][KERNEL_PDE..];
        assert mem[..] == mem0[q := KernelHalf(mem0[kernelPd])];
        spaces := spaces + {q};
      }
    }

    method WriteEntry(f: nat, i: nat, w: nat)
      requires f < mem.Length && i < |mem[f]| && w < 0x1_0000_0000
      modifies mem
      ensures mem[..] == Written(old(mem[..]), f, i, w)
    {
      mem[f] := mem[f][i := w];
    }
  }
}
