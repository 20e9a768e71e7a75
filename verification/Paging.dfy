/** Page tables as the processor reads them, and what one change of an entry does to all translations.

    Memory is a sequence of page frames of 1024 words.  An address space is named by the frame of its
    page directory.  The frames of the kernel's own page tables are shared by all address spaces. */
module Paging {
  import opened Config
  import opened BitOps
  import opened Wrappers

  type Word32 = x: nat | x < 0x1_0000_0000

  const ENTRIES: nat := 1024
  const KERNEL_PDE: nat := 768       // PAGE_PDE_KERNEL_OFFSET
  const MAX_KERNEL_TABLES: nat := 0xC0

  type Frame = seq<Word32>
  type Memory = seq<Frame>

  function Zeros(): (r: Frame)
    ensures |r| == ENTRIES && forall j :: 0 <= j < ENTRIES ==> r[j] == 0
  {
    seq(ENTRIES, _ => 0)
  }

  // ----- translation by the processor (Intel SDM, volume 3A, section 4.3)

  /** What an address is mapped to: a frame, and whether both entries allow writes and user access. */
  datatype Mapping = Mapping(frame: nat, writable: bool, user: bool)

  predicate Present(w: nat) {
    w % 2 == 1
  }

  predicate Writable(w: nat) {
    (w / 2) % 2 == 1
  }

  predicate User(w: nat) {
    (w / 4) % 2 == 1
  }

  function FrameOf(w: nat): nat {
    w / PAGE_SIZE
  }

  /** Entry i of frame f; memory that is not there reads as zero. */
  function Entry(mem: Memory, f: nat, i: nat): Word32 {
    if f < |mem| && i < |mem[f]| then mem[f][i] else 0
  }

  /** Memory with w stored in entry i of frame f. */
  function Written(mem: Memory, f: nat, i: nat, w: nat): (r: Memory)
    requires f < |mem| && i < |mem[f]| && w < 0x1_0000_0000
    ensures |r| == |mem|
  {
    var word: Word32 := w;
    var frame: Frame := mem[f][i := word];
    mem[f := frame]
  }

  function Walk(mem: Memory, root: nat, i: nat, j: nat): Option<Mapping> {
    var pde := Entry(mem, root, i);
    var pte := Entry(mem, FrameOf(pde), j);
    if !Present(pde) || !Present(pte) then None
    else Some(Mapping(FrameOf(pte), Writable(pde) && Writable(pte), User(pde) && User(pte)))
  }

  /** The physical address of a virtual one. */
  function Translate(mem: Memory, root: nat, v: nat): Option<nat> {
    match Walk(mem, root, v / 0x40_0000, (v / PAGE_SIZE) % ENTRIES)
    case None => None
    case Some(m) => Some(m.frame * PAGE_SIZE + v % PAGE_SIZE)
  }

  // ----- the macros

  /** PAGE_PDE_DESC and PAGE_PTE_DESC, with all three flags one bit wide. */
  function Desc(base: nat, p: nat, w: nat, u: nat): nat {
    Or(Or(Or(base, p), Shl(w, 1)), Shl(u, 2))
  }

  function PdeIndex(v: nat): nat {
    Shr(v, 22)
  }

  function PteIndex(v: nat): nat {
    And(Shr(v, 12), 0x3ff)
  }

  /** PAGE_PADDR */
  function PagePaddr(w: nat): nat {
    Clear(w, PAGE_SIZE - 1)
  }

  /** A present, writable user entry for a frame. */
  function EntryFor(f: nat): nat {
    f * PAGE_SIZE + 7
  }

  lemma FlagBits()
    ensures Or(0, 1) == 1 && Or(1, 2) == 3 && Or(3, 4) == 7 && Shl(1, 1) == 2 && Shl(1, 2) == 4 && Pow2(12) == PAGE_SIZE
  {
  }

  lemma DescIsEntry(f: nat)
    ensures Desc(f * PAGE_SIZE, 1, 1, 1) == EntryFor(f)
  {
    hide Or, Shl, Aligned, Pow2;
    var base := f * PAGE_SIZE;
    FlagBits();
    AlignedIsDivisible(base, 12);
    OrLow(base, 0, 1, 12);
    OrLow(base, 1, 2, 12);
    OrLow(base, 3, 4, 12);
  }

  /** The entry encodes its frame and its rights, and PAGE_PADDR gets the frame back. */
  lemma EntryDecodes(f: nat)
    ensures Present(EntryFor(f)) && Writable(EntryFor(f)) && User(EntryFor(f)) && FrameOf(EntryFor(f)) == f
    ensures PagePaddr(EntryFor(f)) == f * PAGE_SIZE
  {
    hide PagePaddr;
    PaddrIsFrame(EntryFor(f));
    ModUnique(EntryFor(f), f, 7, PAGE_SIZE);
    assert EntryFor(f) == 8 * (f * 0x200) + 7;
    hide EntryFor;
    SevenBits(f * 0x200);
  }

  lemma SevenBits(m: nat)
    ensures Present(8 * m + 7) && Writable(8 * m + 7) && User(8 * m + 7)
  {
    assert (8 * m + 7) / 2 == 4 * m + 3 && (8 * m + 7) / 4 == 2 * m + 1;
  }

  lemma PaddrIsFrame(w: nat)
    ensures PagePaddr(w) == FrameOf(w) * PAGE_SIZE
  {
    assert Pow2(12) == 0x1000;
    hide Pow2, Clear;
    MaskIsRemainder(w, 12);
  }

  /** The macros' masks and shifts are the fields the processor uses. */
  lemma MacrosDecode(w: nat, v: nat)
    ensures PagePaddr(w) == FrameOf(w) * PAGE_SIZE
    ensures And(1, w) != 0 <==> Present(w)
    ensures PdeIndex(v) == v / 0x40_0000 && PteIndex(v) == (v / PAGE_SIZE) % ENTRIES
  {
    hide PagePaddr, PdeIndex, PteIndex;
    PaddrIsFrame(w);
    IndicesDecode(v);
    assert And(0, w / 2) == 0;
  }

  lemma IndicesDecode(v: nat)
    ensures PdeIndex(v) == v / 0x40_0000 && PteIndex(v) == (v / PAGE_SIZE) % ENTRIES
  {
    assert Pow2(12) == 0x1000 && Pow2(10) == 0x400;
    assert Pow2(22) == 0x40_0000 by {
      Pow2Add(12, 10);
    }
    hide Pow2, Shr, And;
    ShrIsDivision(v, 22);
    ShrIsDivision(v, 12);
    MaskIsRemainder(v / 0x1000, 10);
  }

  // ----- what the frames are used for

  datatype Slot = Root(s: nat) | Table(s: nat, i: nat) | Leaf(s: nat, i: nat, j: nat)

  /** Entry i of a page directory belongs to the kernel's linear map, which has n tables. */
  predicate KernelEntry(i: nat, n: nat) {
    KERNEL_PDE <= i < KERNEL_PDE + n
  }

  ghost predicate Used(mem: Memory, spaces: set<nat>, n: nat, x: Slot) {
    && x.s in spaces
    && (!x.Root? ==> x.i < ENTRIES && !KernelEntry(x.i, n) && Present(Entry(mem, x.s, x.i)))
    && (x.Leaf? ==> x.j < ENTRIES && Present(Entry(mem, FrameOf(Entry(mem, x.s, x.i)), x.j)))
  }

  ghost function Target(mem: Memory, x: Slot): nat {
    match x
    case Root(s) => s
    case Table(s, i) => FrameOf(Entry(mem, s, i))
    case Leaf(s, i, j) => FrameOf(Entry(mem, FrameOf(Entry(mem, s, i)), j))
  }

  /** Entry j of the k-th table of the kernel's linear map: the frame at the same distance from the
      start of memory as the page is from the start of the kernel's addresses. */
  function LinearEntry(k: nat, j: nat): Word32
    requires k < MAX_KERNEL_TABLES && j < ENTRIES
  {
    EntryFor(k * ENTRIES + j)
  }

  /** The content of the k-th table of the kernel's linear map. */
  function LinearTable(k: nat): (r: Frame)
    requires k < MAX_KERNEL_TABLES
    ensures |r| == ENTRIES
  {
    seq(ENTRIES, j requires 0 <= j < ENTRIES => LinearEntry(k, j))
  }

  /** The kernel's tables hold the linear map, every address space has them, and nobody else does. */
  ghost predicate KernelOk(mem: Memory, spaces: set<nat>, tables: seq<nat>, free: set<nat>) {
    && |tables| <= MAX_KERNEL_TABLES
    && (forall k :: 0 <= k < |tables| ==> KernelTableOk(mem, spaces, free, tables[k], k))
    && (forall s, k :: s in spaces && 0 <= k < |tables| ==> Entry(mem, s, KERNEL_PDE + k) == EntryFor(tables[k]))
  }

  ghost predicate KernelTableOk(mem: Memory, spaces: set<nat>, free: set<nat>, f: nat, k: nat) {
    f < |mem| && f !in spaces && f !in free && k < MAX_KERNEL_TABLES && mem[f] == LinearTable(k)
  }

  ghost predicate SlotOk(mem: Memory, tables: seq<nat>, free: set<nat>, x: Slot) {
    && Target(mem, x) < |mem| && Target(mem, x) !in free && Target(mem, x) !in tables
    && (x.Table? ==> Entry(mem, x.s, x.i) == EntryFor(Target(mem, x)))
    && (x.Leaf? ==> Entry(mem, FrameOf(Entry(mem, x.s, x.i)), x.j) == EntryFor(Target(mem, x)))
  }

  ghost predicate SlotsApart(mem: Memory, spaces: set<nat>, n: nat) {
    forall x, y :: Used(mem, spaces, n, x) && Used(mem, spaces, n, y) && Target(mem, x) == Target(mem, y) ==> x == y
  }

  /** Directories, tables and linked frames of all address spaces are different frames, none of them
      free or part of the kernel's linear map. */
  ghost predicate SpacesOk(mem: Memory, spaces: set<nat>, tables: seq<nat>, free: set<nat>) {
    && (forall f :: 0 <= f < |mem| ==> |mem[f]| == ENTRIES)
    && KernelOk(mem, spaces, tables, free)
    && (forall x :: Used(mem, spaces, |tables|, x) ==> SlotOk(mem, tables, free, x))
    && SlotsApart(mem, spaces, |tables|)
  }

  /** Every address space translates every address as before. */
  ghost predicate SameWalks(mem: Memory, mem': Memory, spaces: set<nat>) {
    forall s, i, j :: s in spaces && 0 <= i < ENTRIES && 0 <= j < ENTRIES ==> Walk(mem', s, i, j) == Walk(mem, s, i, j)
  }

  /** One page of one address space is mapped now, with all rights; everything else is as before. */
  ghost predicate OneMore(mem: Memory, mem': Memory, spaces: set<nat>, root: nat, i: nat, j: nat, f: nat) {
    forall s, a, b :: s in spaces && 0 <= a < ENTRIES && 0 <= b < ENTRIES ==>
      Walk(mem', s, a, b) == if s == root && a == i && b == j then Some(Mapping(f, true, true)) else Walk(mem, s, a, b)
  }

  // ----- one change at a time

  /** The frame belongs to an address space or to the kernel's linear map. */
  ghost predicate InUse(mem: Memory, spaces: set<nat>, tables: seq<nat>, f: nat) {
    f in tables || exists x :: Used(mem, spaces, |tables|, x) && Target(mem, x) == f
  }

  /** mem' differs from mem only in frames that nobody uses. */
  ghost predicate OthersWrote(mem: Memory, mem': Memory, spaces: set<nat>, tables: seq<nat>) {
    && |mem'| == |mem| && (forall f :: 0 <= f < |mem| ==> |mem'[f]| == ENTRIES)
    && forall f :: 0 <= f < |mem| && InUse(mem, spaces, tables, f) ==> mem'[f] == mem[f]
  }

  lemma SameUses(mem: Memory, mem': Memory, spaces: set<nat>, tables: seq<nat>, free: set<nat>, x: Slot)
    requires SpacesOk(mem, spaces, tables, free) && OthersWrote(mem, mem', spaces, tables)
    ensures Used(mem', spaces, |tables|, x) <==> Used(mem, spaces, |tables|, x)
    ensures Used(mem, spaces, |tables|, x) ==> Target(mem', x) == Target(mem, x)
    ensures Used(mem, spaces, |tables|, x) && x.Table? ==> Entry(mem', x.s, x.i) == Entry(mem, x.s, x.i)
    ensures Used(mem, spaces, |tables|, x) && x.Leaf? ==>
              Entry(mem', FrameOf(Entry(mem', x.s, x.i)), x.j) == Entry(mem, FrameOf(Entry(mem, x.s, x.i)), x.j)
  {
    if x.s in spaces {
      assert Used(mem, spaces, |tables|, Root(x.s)) && Target(mem, Root(x.s)) == x.s;
      assert InUse(mem, spaces, tables, x.s);
      if !x.Root? {
        assert Entry(mem', x.s, x.i) == Entry(mem, x.s, x.i);
        var t := Table(x.s, x.i);
        if Used(mem, spaces, |tables|, t) {
          assert InUse(mem, spaces, tables, Target(mem, t));
        }
      }
    }
  }

  lemma SameWalk(mem: Memory, mem': Memory, spaces: set<nat>, tables: seq<nat>, free: set<nat>, s: nat, i: nat, j: nat)
    requires SpacesOk(mem, spaces, tables, free) && OthersWrote(mem, mem', spaces, tables)
    requires s in spaces && i < ENTRIES && j < ENTRIES
    ensures Walk(mem', s, i, j) == Walk(mem, s, i, j)
  {
    hide SlotsApart, LinearTable;
    SameUses(mem, mem', spaces, tables, free, Root(s));
    assert Used(mem, spaces, |tables|, Root(s)) && InUse(mem, spaces, tables, s);
    assert Entry(mem', s, i) == Entry(mem, s, i);
    if KernelEntry(i, |tables|) {
      var k := i - KERNEL_PDE;
      assert Entry(mem, s, KERNEL_PDE + k) == EntryFor(tables[k]);
      EntryDecodes(tables[k]);
      assert InUse(mem, spaces, tables, tables[k]);
    } else if Present(Entry(mem, s, i)) {
      assert Used(mem, spaces, |tables|, Table(s, i));
      assert InUse(mem, spaces, tables, Target(mem, Table(s, i)));
    }
  }

  /** Frames that nobody uses may be written, allocated and freed at will. */
  lemma OtherFrames(mem: Memory, spaces: set<nat>, tables: seq<nat>, free: set<nat>, mem': Memory, free': set<nat>)
    requires SpacesOk(mem, spaces, tables, free) && OthersWrote(mem, mem', spaces, tables)
    requires forall f :: f in free' ==> !InUse(mem, spaces, tables, f)
    ensures SpacesOk(mem', spaces, tables, free') && SameWalks(mem, mem', spaces)
  {
    forall x
      ensures Used(mem', spaces, |tables|, x) <==> Used(mem, spaces, |tables|, x)
      ensures Used(mem, spaces, |tables|, x) ==> Target(mem', x) == Target(mem, x) && SlotOk(mem', tables, free', x)
    {
      SameUses(mem, mem', spaces, tables, free, x);
      if Used(mem, spaces, |tables|, x) {
        assert SlotOk(mem, tables, free, x) && InUse(mem, spaces, tables, Target(mem, x));
      }
    }
    assert KernelOk(mem', spaces, tables, free') by {
      KernelKept(mem, mem', spaces, tables, free, free');
    }
    forall s, i, j | s in spaces && 0 <= i < ENTRIES && 0 <= j < ENTRIES
      ensures Walk(mem', s, i, j) == Walk(mem, s, i, j)
    {
      SameWalk(mem, mem', spaces, tables, free, s, i, j);
    }
  }

  lemma KernelKept(mem: Memory, mem': Memory, spaces: set<nat>, tables: seq<nat>, free: set<nat>, free': set<nat>)
    requires SpacesOk(mem, spaces, tables, free) && OthersWrote(mem, mem', spaces, tables)
    requires forall f :: f in free' ==> !InUse(mem, spaces, tables, f)
    ensures KernelOk(mem', spaces, tables, free')
  {
    forall k | 0 <= k < |tables|
      ensures KernelTableOk(mem', spaces, free', tables[k], k)
    {
      assert KernelTableOk(mem, spaces, free, tables[k], k) && InUse(mem, spaces, tables, tables[k]);
    }
    forall s, k | s in spaces && 0 <= k < |tables|
      ensures Entry(mem', s, KERNEL_PDE + k) == EntryFor(tables[k])
    {
      assert Used(mem, spaces, |tables|, Root(s)) && Target(mem, Root(s)) == s && InUse(mem, spaces, tables, s);
    }
  }

  /** What the uses of frames look like after x0 has come to use f0. */
  ghost predicate UsesAdded(mem: Memory, mem': Memory, spaces: set<nat>, n: nat, x0: Slot, f0: nat) {
    forall x ::
      && (Used(mem', spaces, n, x) <==> Used(mem, spaces, n, x) || x == x0)
      && (Used(mem', spaces, n, x) ==> Target(mem', x) == if x == x0 then f0 else Target(mem, x))
  }

  /** Every used entry is either as before or x0's new one. */
  ghost predicate EntriesKept(mem: Memory, mem': Memory, spaces: set<nat>, n: nat, x0: Slot) {
    forall x :: Used(mem, spaces, n, x) && x != x0 ==>
      && (x.Table? ==> Entry(mem', x.s, x.i) == Entry(mem, x.s, x.i))
      && (x.Leaf? ==>
            Entry(mem', FrameOf(Entry(mem', x.s, x.i)), x.j) == Entry(mem, FrameOf(Entry(mem, x.s, x.i)), x.j))
  }

  lemma SlotAdded(mem: Memory, mem': Memory, spaces: set<nat>, tables: seq<nat>, free: set<nat>, x0: Slot, f0: nat)
    requires SpacesOk(mem, spaces, tables, free) && f0 in free && f0 < |mem| == |mem'|
    requires forall f :: 0 <= f < |mem'| ==> |mem'[f]| == ENTRIES
    requires UsesAdded(mem, mem', spaces, |tables|, x0, f0) && EntriesKept(mem, mem', spaces, |tables|, x0)
    requires !Used(mem, spaces, |tables|, x0) && KernelOk(mem', spaces, tables, free - {f0})
    requires x0.Table? ==> Entry(mem', x0.s, x0.i) == EntryFor(f0)
    requires x0.Leaf? ==> Entry(mem', FrameOf(Entry(mem', x0.s, x0.i)), x0.j) == EntryFor(f0)
    ensures SpacesOk(mem', spaces, tables, free - {f0})
  {
    hide Used, Target, Entry, FrameOf;
    var n := |tables|;
    assert f0 !in tables;
    forall x | Used(mem', spaces, n, x)
      ensures SlotOk(mem', tables, free - {f0}, x)
    {
      if x != x0 {
        assert SlotOk(mem, tables, free, x);
      }
    }
    forall x, y | Used(mem', spaces, n, x) && Used(mem', spaces, n, y) && Target(mem', x) == Target(mem', y)
      ensures x == y
    {
      assert x != x0 ==> SlotOk(mem, tables, free, x);
      assert y != x0 ==> SlotOk(mem, tables, free, y);
    }
  }

  /** Two different uses are of different frames, and none of them is a kernel table. */
  lemma Apart(mem: Memory, spaces: set<nat>, tables: seq<nat>, free: set<nat>, x: Slot, y: Slot)
    requires SpacesOk(mem, spaces, tables, free) && Used(mem, spaces, |tables|, x) && Used(mem, spaces, |tables|, y)
               && x != y
    ensures Target(mem, x) != Target(mem, y) && Target(mem, x) !in tables && Target(mem, x) < |mem|
  {
    assert SlotOk(mem, tables, free, x);
  }

  /** One entry of a directory, or of a table that an address space uses, is written: all other entries
      that matter keep their value, the kernel's included. */
  lemma KernelUntouched(mem: Memory, spaces: set<nat>, tables: seq<nat>, free: set<nat>, f: nat, i: nat, w: Word32,
                        free': set<nat>)
    requires SpacesOk(mem, spaces, tables, free) && f < |mem| && i < ENTRIES && f !in tables && free' <= free
    requires |mem[f]| == ENTRIES && (f in spaces ==> !KernelEntry(i, |tables|))
    ensures KernelOk(Written(mem, f, i, w), spaces, tables, free')
  {
    var mem' := Written(mem, f, i, w);
    forall k | 0 <= k < |tables|
      ensures KernelTableOk(mem', spaces, free', tables[k], k)
    {
      assert KernelTableOk(mem, spaces, free, tables[k], k);
    }
  }

  lemma OneEntry(mem: Memory, f: nat, i: nat, w: Word32)
    requires f < |mem| && i < |mem[f]|
    ensures forall a, b :: Entry(Written(mem, f, i, w), a, b) == if a == f && b == i then w else Entry(mem, a, b)
  {
  }

  /** A new, empty page table is entered in a directory. */
  lemma TableAdded(mem: Memory, spaces: set<nat>, tables: seq<nat>, free: set<nat>, s: nat, i: nat, q: nat)
    requires SpacesOk(mem, spaces, tables, free) && s in spaces && i < ENTRIES && !KernelEntry(i, |tables|)
    requires !Present(Entry(mem, s, i)) && q in free && q < |mem| <= 0x10_0000 && mem[q] == Zeros()
    ensures s < |mem| && |mem[s]| == ENTRIES
    ensures var mem' := Written(mem, s, i, EntryFor(q));
            && SpacesOk(mem', spaces, tables, free - {q}) && SameWalks(mem, mem', spaces)
            && Used(mem', spaces, |tables|, Table(s, i)) && Target(mem', Table(s, i)) == q && mem'[q] == Zeros()
  {
    var n := |tables|;
    assert Used(mem, spaces, n, Root(s)) && SlotOk(mem, tables, free, Root(s));
    var w: Word32 := EntryFor(q);
    var mem' := Written(mem, s, i, w);
    EntryDecodes(q);
    OneEntry(mem, s, i, w);
    KernelUntouched(mem, spaces, tables, free, s, i, w, free - {q});
    forall x
      ensures Used(mem', spaces, n, x) <==> Used(mem, spaces, n, x) || x == Table(s, i)
      ensures Used(mem', spaces, n, x) ==> Target(mem', x) == if x == Table(s, i) then q else Target(mem, x)
    {
      TableOfOthers(mem, spaces, tables, free, s, i, q, x);
    }
    forall x | Used(mem, spaces, n, x) && x.Leaf?
      ensures Entry(mem', FrameOf(Entry(mem', x.s, x.i)), x.j) == Entry(mem, FrameOf(Entry(mem, x.s, x.i)), x.j)
    {
      TableOfOthers(mem, spaces, tables, free, s, i, q, x);
    }
    SlotAdded(mem, mem', spaces, tables, free, Table(s, i), q);
    forall a, b, c | a in spaces && 0 <= b < ENTRIES && 0 <= c < ENTRIES
      ensures Walk(mem', a, b, c) == Walk(mem, a, b, c)
    {
      TableWalk(mem, spaces, tables, free, s, i, q, a, b, c);
    }
  }

  lemma TableOfOthers(mem: Memory, spaces: set<nat>, tables: seq<nat>, free: set<nat>, s: nat, i: nat, q: nat, x: Slot)
    requires SpacesOk(mem, spaces, tables, free) && s in spaces && i < ENTRIES && !KernelEntry(i, |tables|)
    requires !Present(Entry(mem, s, i)) && q in free && q < |mem| <= 0x10_0000 && mem[q] == Zeros()
    requires s < |mem| && |mem[s]| == ENTRIES
    ensures var (mem', n) := (Written(mem, s, i, EntryFor(q)), |tables|);
            && (Used(mem', spaces, n, x) <==> Used(mem, spaces, n, x) || x == Table(s, i))
            && (Used(mem', spaces, n, x) ==> Target(mem', x) == if x == Table(s, i) then q else Target(mem, x))
            && (Used(mem, spaces, n, x) && x.Leaf? ==>
                  Entry(mem', FrameOf(Entry(mem', x.s, x.i)), x.j) == Entry(mem, FrameOf(Entry(mem, x.s, x.i)), x.j))
  {
    var n := |tables|;
    EntryDecodes(q);
    OneEntry(mem, s, i, EntryFor(q));
    assert Used(mem, spaces, n, Root(s)) && SlotOk(mem, tables, free, Root(s));
    if x.Leaf? && x.s in spaces && !(x.s == s && x.i == i) && Used(mem, spaces, n, Table(x.s, x.i)) {
      Apart(mem, spaces, tables, free, Root(s), Table(x.s, x.i));
    }
  }

  lemma TableWalk(mem: Memory, spaces: set<nat>, tables: seq<nat>, free: set<nat>, s: nat, i: nat, q: nat, a: nat,
                  b: nat, c: nat)
    requires SpacesOk(mem, spaces, tables, free) && s in spaces && i < ENTRIES && !KernelEntry(i, |tables|)
    requires !Present(Entry(mem, s, i)) && q in free && q < |mem| <= 0x10_0000 && mem[q] == Zeros()
    requires s < |mem| && |mem[s]| == ENTRIES
    requires a in spaces && b < ENTRIES && c < ENTRIES
    ensures Walk(Written(mem, s, i, EntryFor(q)), a, b, c) == Walk(mem, a, b, c)
  {
    var mem' := Written(mem, s, i, EntryFor(q));
    var n := |tables|;
    EntryDecodes(q);
    OneEntry(mem, s, i, EntryFor(q));
    assert Used(mem, spaces, n, Root(s)) && SlotOk(mem, tables, free, Root(s));
    if a == s && b == i {
      assert Entry(mem', q, c) == 0;
    } else if KernelEntry(b, n) {
      KernelTableFrame(mem, spaces, tables, free, a, b);
    } else if Present(Entry(mem, a, b)) {
      Apart(mem, spaces, tables, free, Root(s), Table(a, b));
    }
  }

  lemma KernelTableFrame(mem: Memory, spaces: set<nat>, tables: seq<nat>, free: set<nat>, s: nat, i: nat)
    requires SpacesOk(mem, spaces, tables, free) && s in spaces && KernelEntry(i, |tables|)
    ensures Entry(mem, s, i) == EntryFor(tables[i - KERNEL_PDE]) && FrameOf(Entry(mem, s, i)) == tables[i - KERNEL_PDE]
  {
    var k := i - KERNEL_PDE;
    assert Entry(mem, s, KERNEL_PDE + k) == EntryFor(tables[k]);
    EntryDecodes(tables[k]);
  }

  /** A frame is entered in a table that an address space uses. */
  lemma LeafAdded(mem: Memory, spaces: set<nat>, tables: seq<nat>, free: set<nat>, s: nat, i: nat, j: nat, p: nat)
    requires SpacesOk(mem, spaces, tables, free) && Used(mem, spaces, |tables|, Table(s, i)) && j < ENTRIES
    requires !Present(Entry(mem, FrameOf(Entry(mem, s, i)), j)) && p in free && p < |mem| <= 0x10_0000
    ensures var t := FrameOf(Entry(mem, s, i));
            && t < |mem| && |mem[t]| == ENTRIES
            && var mem' := Written(mem, t, j, EntryFor(p));
            SpacesOk(mem', spaces, tables, free - {p}) && OneMore(mem, mem', spaces, s, i, j, p)
  {
    var n := |tables|;
    var t := FrameOf(Entry(mem, s, i));
    assert Used(mem, spaces, n, Root(s));
    Apart(mem, spaces, tables, free, Table(s, i), Root(s));
    var w: Word32 := EntryFor(p);
    var mem' := Written(mem, t, j, w);
    EntryDecodes(p);
    OneEntry(mem, t, j, w);
    KernelUntouched(mem, spaces, tables, free, t, j, w, free - {p}) by {
      if t in spaces {
        Apart(mem, spaces, tables, free, Table(s, i), Root(t));
      }
    }
    forall x
      ensures Used(mem', spaces, n, x) <==> Used(mem, spaces, n, x) || x == Leaf(s, i, j)
      ensures Used(mem', spaces, n, x) ==> Target(mem', x) == if x == Leaf(s, i, j) then p else Target(mem, x)
    {
      LeafOfOthers(mem, spaces, tables, free, s, i, j, p, x);
    }
    forall x | Used(mem, spaces, n, x) && x != Leaf(s, i, j)
      ensures x.Table? ==> Entry(mem', x.s, x.i) == Entry(mem, x.s, x.i)
      ensures x.Leaf? ==>
                Entry(mem', FrameOf(Entry(mem', x.s, x.i)), x.j) == Entry(mem, FrameOf(Entry(mem, x.s, x.i)), x.j)
    {
      LeafOfOthers(mem, spaces, tables, free, s, i, j, p, x);
    }
    LeafOfOthers(mem, spaces, tables, free, s, i, j, p, Leaf(s, i, j));
    SlotAdded(mem, mem', spaces, tables, free, Leaf(s, i, j), p);
    forall a, b, c | a in spaces && 0 <= b < ENTRIES && 0 <= c < ENTRIES
      ensures Walk(mem', a, b, c)
           == if a == s && b == i && c == j then Some(Mapping(p, true, true)) else Walk(mem, a, b, c)
    {
      LeafWalk(mem, spaces, tables, free, s, i, j, p, a, b, c);
    }
  }

  lemma LeafOfOthers(mem: Memory, spaces: set<nat>, tables: seq<nat>, free: set<nat>, s: nat, i: nat, j: nat, p: nat,
                     x: Slot)
    requires SpacesOk(mem, spaces, tables, free) && Used(mem, spaces, |tables|, Table(s, i)) && j < ENTRIES
    requires !Present(Entry(mem, FrameOf(Entry(mem, s, i)), j)) && p in free && p < |mem| <= 0x10_0000
    requires FrameOf(Entry(mem, s, i)) < |mem| && |mem[FrameOf(Entry(mem, s, i))]| == ENTRIES
    ensures var (t, n) := (FrameOf(Entry(mem, s, i)), |tables|);
            var mem' := Written(mem, t, j, EntryFor(p));
            && (Used(mem', spaces, n, x) <==> Used(mem, spaces, n, x) || x == Leaf(s, i, j))
            && (Used(mem', spaces, n, x) ==> Target(mem', x) == if x == Leaf(s, i, j) then p else Target(mem, x))
            && (Used(mem', spaces, n, x) && !x.Root? ==> Entry(mem', x.s, x.i) == Entry(mem, x.s, x.i))
            && (Used(mem', spaces, n, x) && x.Leaf? ==>
                  Entry(mem', FrameOf(Entry(mem', x.s, x.i)), x.j)
                  == if x == Leaf(s, i, j) then EntryFor(p) else Entry(mem, FrameOf(Entry(mem, x.s, x.i)), x.j))
  {
    var n := |tables|;
    EntryDecodes(p);
    OneEntry(mem, FrameOf(Entry(mem, s, i)), j, EntryFor(p));
    if x.s in spaces {
      assert Used(mem, spaces, n, Root(x.s));
      Apart(mem, spaces, tables, free, Table(s, i), Root(x.s));
      if x.Leaf? && Used(mem, spaces, n, Table(x.s, x.i)) && !(x.s == s && x.i == i) {
        Apart(mem, spaces, tables, free, Table(s, i), Table(x.s, x.i));
      }
    }
  }

  lemma LeafWalk(mem: Memory, spaces: set<nat>, tables: seq<nat>, free: set<nat>, s: nat, i: nat, j: nat, p: nat,
                 a: nat, b: nat, c: nat)
    requires SpacesOk(mem, spaces, tables, free) && Used(mem, spaces, |tables|, Table(s, i)) && j < ENTRIES
    requires !Present(Entry(mem, FrameOf(Entry(mem, s, i)), j)) && p in free && p < |mem| <= 0x10_0000
    requires FrameOf(Entry(mem, s, i)) < |mem| && |mem[FrameOf(Entry(mem, s, i))]| == ENTRIES
    requires a in spaces && b < ENTRIES && c < ENTRIES
    ensures var t := FrameOf(Entry(mem, s, i));
            Walk(Written(mem, t, j, EntryFor(p)), a, b, c)
            == if a == s && b == i && c == j then Some(Mapping(p, true, true)) else Walk(mem, a, b, c)
  {
    var n, t := |tables|, FrameOf(Entry(mem, s, i));
    EntryDecodes(p);
    OneEntry(mem, t, j, EntryFor(p));
    assert Used(mem, spaces, n, Root(a));
    Apart(mem, spaces, tables, free, Table(s, i), Root(a));
    assert SlotOk(mem, tables, free, Table(s, i));
    EntryDecodes(t);
    if KernelEntry(b, n) {
      KernelTableFrame(mem, spaces, tables, free, a, b);
      Apart(mem, spaces, tables, free, Table(s, i), Root(a));
    } else if Present(Entry(mem, a, b)) && !(a == s && b == i) {
      Apart(mem, spaces, tables, free, Table(s, i), Table(a, b));
    }
  }
}
