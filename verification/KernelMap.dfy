/** The kernel's own page directory and tables, as init_vpage fills them in. */
module KernelMap {
  import opened Config
  import opened Wrappers
  import opened Paging

  const HIGH_ADDRESS: nat := 0x3000_0000  // MEM_TYPE_HIGH_START
  const BIG_PAGE: nat := 0x40_0000   // what one directory entry covers

  /** The number of page tables for a memory of that many pages: MIN(DIV_UP(pages, PAGE_ENTRIES),
      PAGE_PDE_INDEX(MEM_TYPE_HIGH_START)). */
  function TableCount(allPages: nat): (n: nat)
    ensures n <= MAX_KERNEL_TABLES
    ensures allPages <= n * ENTRIES || n == MAX_KERNEL_TABLES
    ensures n == 0 || (n - 1) * ENTRIES < allPages
  {
    var n := (allPages + ENTRIES - 1) / ENTRIES;
    if n < HIGH_ADDRESS / BIG_PAGE then n else HIGH_ADDRESS / BIG_PAGE
  }

  /** The directory entries that are also linked at the bottom of the address space while the kernel
      moves up: the first, and those of the kernel image. */
  predicate LowEntry(i: nat, kernelEnd: nat) {
    i == 0 || BOOT_KERNEL_START / BIG_PAGE <= i <= kernelEnd / BIG_PAGE
  }

  /** The kernel's directory, for n tables in consecutive frames from pt. */
  ghost predicate Directory(pd: Frame, pt: nat, n: nat, low: nat -> bool) {
    && |pd| == ENTRIES
    && forall i :: 0 <= i < ENTRIES ==>
         pd[i] == if KernelEntry(i, n) then EntryFor(pt + (i - KERNEL_PDE))
                  else if low(i) && i < n then EntryFor(pt + i)
                  else 0
  }

  ghost predicate LinearTables(mem: Memory, pt: nat, n: nat)
    requires n <= MAX_KERNEL_TABLES && pt + n <= |mem|
  {
    forall k :: 0 <= k < n ==> mem[pt + k] == LinearTable(k)
  }

  /** Frames for the directory and n tables, apart from each other, as bootmem_alloc hands them out. */
  predicate Layout(size: nat, pd: nat, pt: nat, n: nat) {
    pd < size <= MAX_FRAMES && pt + n <= size && !(pt <= pd < pt + n) && n <= MAX_KERNEL_TABLES
  }

  // ----- what the maps translate

  /** The address that the kernel's map, with or without low entries, translates v to. */
  function Expected(n: nat, low: nat -> bool, v: nat): Option<nat> {
    if KERNEL_VSTART <= v < KERNEL_VSTART + n * BIG_PAGE then Some(v - KERNEL_VSTART)
    else if v < n * BIG_PAGE && low(v / BIG_PAGE) then Some(v)
    else None
  }

  /** With the low entries linked, kernel addresses go to the physical ones below them, the linked low
      addresses to themselves, and nothing else is mapped; unlinked, only the kernel addresses are. */
  lemma KernelMapTranslates(mem: Memory, pd: nat, pt: nat, n: nat, low: nat -> bool, v: nat)
    requires Layout(|mem|, pd, pt, n) && Directory(mem[pd], pt, n, low) && LinearTables(mem, pt, n) && v < 0x1_0000_0000
    requires forall i: nat :: low(i) ==> i < KERNEL_PDE
    ensures Translate(mem, pd, v) == Expected(n, low, v)
  {
    var i, j := v / BIG_PAGE, (v / PAGE_SIZE) % ENTRIES;
    assert v == i * BIG_PAGE + j * PAGE_SIZE + v % PAGE_SIZE;
    if KernelEntry(i, n) {
      TableTranslates(mem, pd, pt, n, i, i - KERNEL_PDE, j);
    } else if low(i) && i < n {
      TableTranslates(mem, pd, pt, n, i, i, j);
    } else {
      assert Entry(mem, pd, i) == 0;
    }
  }

  /** The least multiple of 4 MB that is not below. */
  function RoundedUp(bytes: nat): (r: nat)
    ensures bytes <= r < bytes + BIG_PAGE && r % BIG_PAGE == 0
  {
    (bytes + BIG_PAGE - 1) / BIG_PAGE * BIG_PAGE
  }

  /** What the final map must make of address v, for a memory of so many pages: all of memory below
      HIGH_ADDRESS is at the kernel's addresses, and at most the rest of its last 4 MB besides. */
  predicate MemoryMapped(allPages: nat, v: nat, e: Option<nat>) {
    && (v < KERNEL_VSTART ==> e == None)
    && (v >= KERNEL_VSTART ==>
          var phys := v - KERNEL_VSTART;
          && (phys < allPages * PAGE_SIZE && phys < HIGH_ADDRESS ==> e == Some(phys))
          && (phys >= RoundedUp(allPages * PAGE_SIZE) || phys >= HIGH_ADDRESS ==> e == None))
  }

  /** While the kernel moves up, the first 4 MB and every 4 MB that its image touches are mapped to themselves
      too, as far as there is memory, and nothing else below the kernel's addresses. */
  predicate KernelMapped(allPages: nat, kernelEnd: nat, v: nat, e: Option<nat>) {
    var touched := v < BIG_PAGE || BOOT_KERNEL_START <= v < RoundedUp(kernelEnd + 1);
    if v >= KERNEL_VSTART then MemoryMapped(allPages, v, e)
    else
      && (touched && v < allPages * PAGE_SIZE && v < HIGH_ADDRESS ==> e == Some(v))
      && (!touched || v >= RoundedUp(allPages * PAGE_SIZE) || v >= HIGH_ADDRESS ==> e == None)
  }

  /** The number of tables is right for that. */
  lemma TablesSuffice(allPages: nat, kernelEnd: nat, v: nat)
    requires kernelEnd < 0x4000_0000
    ensures var n := TableCount(allPages);
            && MemoryMapped(allPages, v, Expected(n, (i: nat) => false, v))
            && KernelMapped(allPages, kernelEnd, v, Expected(n, (i: nat) => LowEntry(i, kernelEnd), v))
  {
    var n := TableCount(allPages);
    assert ENTRIES * PAGE_SIZE == BIG_PAGE;
    assert n * BIG_PAGE <= HIGH_ADDRESS && n * BIG_PAGE <= RoundedUp(allPages * PAGE_SIZE);
  }

  lemma TableTranslates(mem: Memory, pd: nat, pt: nat, n: nat, i: nat, k: nat, j: nat)
    requires Layout(|mem|, pd, pt, n) && LinearTables(mem, pt, n) && k < n && j < ENTRIES
    requires Entry(mem, pd, i) == EntryFor(pt + k)
    ensures Walk(mem, pd, i, j) == Some(Mapping(k * ENTRIES + j, true, true))
  {
    EntryDecodes(pt + k);
    EntryDecodes(k * ENTRIES + j);
    assert mem[pt + k] == LinearTable(k);
  }

  /** The map that init_vpage leaves is an address space in the sense of module Paging. */
  lemma KernelSpace(mem: Memory, pd: nat, pt: nat, n: nat, free: set<nat>)
    requires Layout(|mem|, pd, pt, n) && Directory(mem[pd], pt, n, (i: nat) => false) && LinearTables(mem, pt, n)
    requires forall f :: 0 <= f < |mem| ==> |mem[f]| == ENTRIES
    requires pd !in free && forall f :: f in free ==> !(pt <= f < pt + n)
    ensures SpacesOk(mem, {pd}, seq(n, k => pt + k), free)
  {
    var tables := seq(n, k => pt + k);
    assert forall i :: 0 <= i < ENTRIES && !KernelEntry(i, n) ==> Entry(mem, pd, i) == 0;
    assert forall x :: Used(mem, {pd}, n, x) ==> x == Root(pd);
  }

  // ----- filling the tables

  method StoreEntry(mem: array<Frame>, f: nat, i: nat, w: nat)
    requires f < mem.Length && |mem[f]| == ENTRIES && i < ENTRIES && w < 0x1_0000_0000
    modifies mem
    ensures mem[f] == old(mem[f])[i := w] && |mem[f]| == ENTRIES
    ensures forall g :: 0 <= g < mem.Length && g != f ==> mem[g] == old(mem[g])
  {
    mem[f] := mem[f][i := w];
  }

  /** The first loop of __init_early_page. */
  method FillDirectory(mem: array<Frame>, pd: nat, pt: nat, n: nat)
    requires Layout(mem.Length, pd, pt, n) && mem[pd] == Zeros()
    modifies mem
    ensures Directory(mem[pd], pt, n, (i: nat) => false)
    ensures forall f :: 0 <= f < mem.Length && f != pd ==> mem[f] == old(mem[f])
  {
    for i := 0 to n
      invariant |mem[pd]| == ENTRIES
      invariant forall a :: 0 <= a < ENTRIES ==>
                  mem[pd][a] == if KernelEntry(a, i) then EntryFor(pt + (a - KERNEL_PDE)) else 0
      invariant forall f :: 0 <= f < mem.Length && f != pd ==> mem[f] == old(mem[f])
    {
      DescIsEntry(pt + i);
      StoreEntry(mem, pd, i + KERNEL_PDE, Desc((pt + i) * PAGE_SIZE, 1, 1, 1));
    }
  }

  /** The second loop of __init_early_page, over the entries of all tables in a row. */
  method FillTables(mem: array<Frame>, pd: nat, pt: nat, n: nat)
    requires Layout(mem.Length, pd, pt, n) && forall f :: 0 <= f < mem.Length ==> |mem[f]| == ENTRIES
    modifies mem
    ensures LinearTables(mem[..], pt, n)
    ensures forall f :: 0 <= f < mem.Length ==> |mem[f]| == ENTRIES
    ensures forall f :: 0 <= f < mem.Length && !(pt <= f < pt + n) ==> mem[f] == old(mem[f])
  {
    for i := 0 to n * ENTRIES
      invariant forall f :: 0 <= f < mem.Length ==> |mem[f]| == ENTRIES
      invariant forall f :: 0 <= f < mem.Length && !(pt <= f < pt + n) ==> mem[f] == old(mem[f])
      invariant forall f, j :: pt <= f < pt + n && 0 <= j < ENTRIES && (f - pt) * ENTRIES + j < i ==>
                  mem[f][j] == EntryFor((f - pt) * ENTRIES + j)
    {
      DescIsEntry(i);
      StoreEntry(mem, pt + i / ENTRIES, i % ENTRIES, Desc(i * PAGE_SIZE, 1, 1, 1));
    }
    forall k | 0 <= k < n
      ensures mem[..][pt + k] == LinearTable(k)
    {
      assert mem[pt + k] == LinearTable(k);
    }
  }

  /** __link_top_kernel_mem */
  method LinkLow(mem: array<Frame>, pd: nat, pt: nat, n: nat, kernelEnd: nat)
    requires Layout(mem.Length, pd, pt, n) && Directory(mem[pd], pt, n, (i: nat) => false) && kernelEnd < 0x4000_0000
    modifies mem
    ensures Directory(mem[pd], pt, n, (i: nat) => LowEntry(i, kernelEnd))
    ensures forall f :: 0 <= f < mem.Length && f != pd ==> mem[f] == old(mem[f])
  {
    StoreEntry(mem, pd, 0, mem[pd][KERNEL_PDE]);
    var i := BOOT_KERNEL_START / BIG_PAGE;
    while i <= kernelEnd / BIG_PAGE
      invariant BOOT_KERNEL_START / BIG_PAGE <= i
                  && (i <= kernelEnd / BIG_PAGE + 1 || i == BOOT_KERNEL_START / BIG_PAGE)
      invariant Directory(mem[pd], pt, n, (a: nat) => LowEntry(a, kernelEnd) && a < i)
      invariant forall f :: 0 <= f < mem.Length && f != pd ==> mem[f] == old(mem[f])
    {
      StoreEntry(mem, pd, i, mem[pd][KERNEL_PDE + i]);
      i := i + 1;
    }
  }

  /** __unlink_top_kernel_mem */
  method UnlinkLow(mem: array<Frame>, pd: nat, pt: nat, n: nat, kernelEnd: nat)
    requires Layout(mem.Length, pd, pt, n) && kernelEnd < 0x4000_0000
    requires Directory(mem[pd], pt, n, (i: nat) => LowEntry(i, kernelEnd))
    modifies mem
    ensures Directory(mem[pd], pt, n, (i: nat) => false)
    ensures forall f :: 0 <= f < mem.Length && f != pd ==> mem[f] == old(mem[f])
  {
    StoreEntry(mem, pd, 0, 0);
    var i := BOOT_KERNEL_START / BIG_PAGE;
    while i <= kernelEnd / BIG_PAGE
      invariant BOOT_KERNEL_START / BIG_PAGE <= i
                  && (i <= kernelEnd / BIG_PAGE + 1 || i == BOOT_KERNEL_START / BIG_PAGE)
      invariant Directory(mem[pd], pt, n, (a: nat) => LowEntry(a, kernelEnd) && a >= i)
      invariant forall f :: 0 <= f < mem.Length && f != pd ==> mem[f] == old(mem[f])
    {
      StoreEntry(mem, pd, i, 0);
      i := i + 1;
    }
  }

  /** init_vpage: first, in `early`, kernel addresses and the low part of memory are mapped, so that the
      kernel can move up; afterwards exactly the kernel addresses are. */
  method InitVpage(mem: array<Frame>, pd: nat, pt: nat, allPages: nat, kernelEnd: nat)
    returns (n: nat, ghost early: Memory)
    requires Layout(mem.Length, pd, pt, TableCount(allPages)) && kernelEnd < 0x4000_0000
    requires mem[pd] == Zeros() && forall f :: 0 <= f < mem.Length ==> |mem[f]| == ENTRIES
    modifies mem
    ensures n == TableCount(allPages)
    ensures forall v :: 0 <= v < 0x1_0000_0000 ==>
              && Translate(early, pd, v) == Expected(n, (i: nat) => LowEntry(i, kernelEnd), v)
              && Translate(mem[..], pd, v) == Expected(n, (i: nat) => false, v)
    ensures forall v :: 0 <= v < 0x1_0000_0000 ==>
              && KernelMapped(allPages, kernelEnd, v, Translate(early, pd, v))
              && MemoryMapped(allPages, v, Translate(mem[..], pd, v))
    ensures LinearTables(mem[..], pt, n) && Directory(mem[pd], pt, n, (i: nat) => false)
    ensures forall f :: 0 <= f < mem.Length ==> |mem[f]| == ENTRIES
    ensures forall f :: 0 <= f < mem.Length && f != pd && !(pt <= f < pt + n) ==> mem[f] == old(mem[f])
  {
    n := TableCount(allPages);
    FillDirectory(mem, pd, pt, n);
    FillTables(mem, pd, pt, n);
    LinkLow(mem, pd, pt, n, kernelEnd);
    early := mem[..];
    UnlinkLow(mem, pd, pt, n, kernelEnd);
    forall v | 0 <= v < 0x1_0000_0000
      ensures Translate(early, pd, v) == Expected(n, (i: nat) => LowEntry(i, kernelEnd), v)
      ensures Translate(mem[..], pd, v) == Expected(n, (i: nat) => false, v)
      ensures KernelMapped(allPages, kernelEnd, v, Translate(early, pd, v))
      ensures MemoryMapped(allPages, v, Translate(mem[..], pd, v))
    {
      TablesSuffice(allPages, kernelEnd, v);
      KernelMapTranslates(early, pd, pt, n, (i: nat) => LowEntry(i, kernelEnd), v);
      KernelMapTranslates(mem[..], pd, pt, n, (i: nat) => false, v);
    }
  }
}
