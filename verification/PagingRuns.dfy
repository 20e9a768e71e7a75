/** Whole runs over all address spaces: pages are linked, address spaces are made, and everybody else
    writes, allocates and frees frames that no address space uses. */
module PagingRuns {
  import opened Config
  import opened Wrappers
  import opened Paging
  import opened PageTables
  import Buddy
  import BuddyState
  import BuddyBlocks
  import KernelMap
  import Boot
  import Bootmem

  /** Memory, the address spaces and the free pages. */
  datatype Vm = Vm(mem: Memory, spaces: set<nat>, free: set<nat>)

  datatype Op = Link(root: nat, i: nat, j: nat, frame: Option<nat>) | NewSpace(kernelPd: nat, space: Option<nat>)
                | Elsewhere

  ghost predicate VmOk(s: Vm, tables: seq<nat>) {
    SpacesOk(s.mem, s.spaces, tables, s.free)
  }

  ghost predicate Step(s: Vm, op: Op, s': Vm, tables: seq<nat>) {
    match op
    case Link(root, i, j, frame) =>
      && root in s.spaces && i < ENTRIES && j < ENTRIES && Walk(s.mem, root, i, j) == None
      && s'.spaces == s.spaces && VmOk(s', tables)
      && LinkDone(s.mem, s.free, s.spaces, root, i, j, frame, s'.mem, s'.free)
    case NewSpace(kernelPd, space) =>
      && s'.spaces == s.spaces + (if space.Some? then {space.value} else {}) && VmOk(s', tables)
      && SpaceDone(s.mem, s.free, s.spaces, kernelPd, space, s'.mem, s'.free)
    case Elsewhere =>
      && s'.spaces == s.spaces && OthersWrote(s.mem, s'.mem, s.spaces, tables)
      && forall f :: f in s'.free ==> !InUse(s.mem, s.spaces, tables, f)
  }

  ghost function View(m: AddressSpaces): Vm
    reads m`spaces, m.mem, m.buddy.pages
  {
    Vm(m.mem[..], m.spaces, m.buddy.FreePages())
  }

  /** vpage_link_addr makes a step. */
  method LinkStep(m: AddressSpaces, root: nat, v: nat) returns (r: Option<nat>, ghost frame: Option<nat>)
    requires m.Valid() && root in m.spaces && v < 0x1_0000_0000
    requires Walk(m.mem[..], root, PdeIndex(v), PteIndex(v)) == None
    modifies m.mem, m.buddy.pages, m.buddy.zones
    ensures m.Valid() && Step(old(View(m)), Link(root, PdeIndex(v), PteIndex(v), frame), View(m), m.tables)
  {
    hide SpacesOk, LinkDone, BuddyState.StateOk, BuddyState.BlocksIn, BuddyBlocks.PagesOf, Walk, NormalPages;
    MacrosDecode(0, v);
    r, frame := m.LinkAddr(root, v);
  }

  /** task_init_page_table makes a step if and only if it finds no page or nothing is linked above the
      linear map in the kernel's own address space. */
  method SpaceStep(m: AddressSpaces) returns (r: Option<nat>)
    requires m.Valid()
    modifies m`spaces, m.mem, m.buddy.pages, m.buddy.zones
    ensures m.Valid() <==> r.None? || old(OnlyLinear(m.mem[..], m.kernelPd, |m.tables|))
    ensures Step(old(View(m)), NewSpace(m.kernelPd, r), View(m), m.tables) <==> m.Valid()
  {
    hide SpacesOk, SpaceDone, BuddyState.StateOk, BuddyState.BlocksIn, BuddyBlocks.PagesOf, NormalPages;
    r := m.NewSpace();
  }

  ghost predicate Run(states: seq<Vm>, ops: seq<Op>, tables: seq<nat>) {
    && |states| == |ops| + 1 && VmOk(states[0], tables)
    && forall i :: 0 <= i < |ops| ==> Step(states[i], ops[i], states[i + 1], tables)
  }

  lemma {:induction false} RunKeepsOk(states: seq<Vm>, ops: seq<Op>, tables: seq<nat>, n: nat)
    requires Run(states, ops, tables) && n < |states|
    ensures VmOk(states[n], tables)
  {
    hide SpacesOk, LinkDone, SpaceDone, Walk, InUse;
    if n > 0 {
      RunKeepsOk(states, ops, tables, n - 1);
      var (s, s') := (states[n - 1], states[n]);
      assert Step(s, ops[n - 1], s', tables);
      if ops[n - 1].Elsewhere? {
        OtherFrames(s.mem, s.spaces, tables, s.free, s'.mem, s'.free);
      }
    }
  }

  /** A step takes no translation away. */
  lemma StepKeepsWalks(s: Vm, op: Op, s': Vm, tables: seq<nat>, a: nat, i: nat, j: nat)
    requires VmOk(s, tables) && Step(s, op, s', tables)
    requires a in s.spaces && i < ENTRIES && j < ENTRIES
    ensures a in s'.spaces
    ensures Walk(s'.mem, a, i, j) == Walk(s.mem, a, i, j)
         || (op.Link? && op.root == a && op.i == i && op.j == j && Walk(s.mem, a, i, j) == None)
  {
    hide SpacesOk, Walk, InUse;
    if op.Elsewhere? {
      OtherFrames(s.mem, s.spaces, tables, s.free, s'.mem, s'.free);
    }
  }

  /** Over every run, a page that is mapped stays mapped to the same frame, whatever is linked, made or
      done elsewhere. */
  lemma {:induction false} MappingsPersist(states: seq<Vm>, ops: seq<Op>, tables: seq<nat>, m: nat, n: nat, a: nat,
                                           i: nat, j: nat)
    requires Run(states, ops, tables) && m <= n < |states|
    requires a in states[m].spaces && i < ENTRIES && j < ENTRIES && Walk(states[m].mem, a, i, j) != None
    ensures a in states[n].spaces && Walk(states[n].mem, a, i, j) == Walk(states[m].mem, a, i, j)
    decreases n - m
  {
    hide Walk, VmOk;
    if m < n {
      RunKeepsOk(states, ops, tables, m);
      assert Step(states[m], ops[m], states[m + 1], tables);
      StepKeepsWalks(states[m], ops[m], states[m + 1], tables, a, i, j);
      MappingsPersist(states, ops, tables, m + 1, n, a, i, j);
    }
  }

  /** Over every run, no frame is shared: two pages outside the kernel's linear map, of one or of two
      address spaces, are never mapped to the same frame, and a mapped frame is never free, nor a
      directory, nor a page table. */
  lemma FramesNotShared(states: seq<Vm>, ops: seq<Op>, tables: seq<nat>, n: nat, a: nat, i: nat, j: nat, b: nat,
                        k: nat, l: nat)
    requires Run(states, ops, tables) && n < |states| && a in states[n].spaces && b in states[n].spaces
    requires i < ENTRIES && j < ENTRIES && k < ENTRIES && l < ENTRIES && !KernelEntry(i, |tables|)
               && !KernelEntry(k, |tables|)
    requires Walk(states[n].mem, a, i, j).Some?
    ensures var (mem, f) := (states[n].mem, Walk(states[n].mem, a, i, j).value.frame);
            && f < |mem| && f !in states[n].free && f !in states[n].spaces && f !in tables
            && (Present(Entry(mem, b, k)) ==> FrameOf(Entry(mem, b, k)) != f)
            && (Walk(mem, b, k, l).Some? && Walk(mem, b, k, l).value.frame == f ==> a == b && i == k && j == l)
  {
    hide Step, Present, FrameOf, Entry;
    RunKeepsOk(states, ops, tables, n);
    var s := states[n];
    var x := Leaf(a, i, j);
    assert Used(s.mem, s.spaces, |tables|, x) && SlotOk(s.mem, tables, s.free, x);
    var f := Target(s.mem, x);
    assert f in s.spaces ==> Used(s.mem, s.spaces, |tables|, Root(f)) && Target(s.mem, Root(f)) == f;
    assert Present(Entry(s.mem, b, k)) ==> Used(s.mem, s.spaces, |tables|, Table(b, k));
    assert Walk(s.mem, b, k, l).Some? ==> Used(s.mem, s.spaces, |tables|, Leaf(b, k, l));
  }

  // ----- where runs start

  lemma ReservedIsNotFree(pages: seq<BuddyState.Page>, zones: seq<BuddyState.ZoneVal>, p: nat)
    requires BuddyState.StateOk(pages, zones, 3, 0, 0) && p < |pages| && pages[p].reserved
    ensures p !in BuddyBlocks.PagesOf(BuddyState.BlocksIn(pages))
  {
  }

  /** init_vpage over frames that were handed out at boot, and so are reserved, leaves the kernel's own
      address space as the only one, from which the others are made. */
  method InitialSpaces(buddy: Buddy.Allocator, mem: array<Frame>, pd: nat, pt: nat, allPages: nat, kernelEnd: nat)
    returns (m: AddressSpaces)
    requires buddy.Ready() && mem.Length == buddy.pages.Length <= MAX_FRAMES && kernelEnd < 0x4000_0000
    requires KernelMap.Layout(mem.Length, pd, pt, KernelMap.TableCount(allPages))
    requires mem[pd] == Zeros() && forall f :: 0 <= f < mem.Length ==> |mem[f]| == ENTRIES
    requires forall f :: 0 <= f < mem.Length && (f == pd || pt <= f < pt + KernelMap.TableCount(allPages)) ==>
               buddy.pages[f].reserved
    modifies mem
    ensures fresh(m) && m.Valid() && m.buddy == buddy && m.mem == mem && m.spaces == {pd}
    ensures m.kernelPd == pd && OnlyLinear(mem[..], m.kernelPd, |m.tables|)
    ensures forall v :: 0 <= v < WORD ==> KernelMap.MemoryMapped(allPages, v, Translate(mem[..], pd, v))
  {
    hide BuddyState.StateOk, BuddyState.BlocksIn, BuddyBlocks.PagesOf, SpacesOk, Translate, KernelMap.MemoryMapped,
         KernelMap.Expected, KernelMap.KernelMapped;
    ghost var pages := buddy.pages[..];
    var n, early := KernelMap.InitVpage(mem, pd, pt, allPages, kernelEnd);
    assert buddy.pages[..] == pages;
    label Filled:
    forall f | 0 <= f < |pages| && pages[f].reserved
      ensures f !in buddy.FreePages()
    {
      ReservedIsNotFree(pages, buddy.ZoneVals(), f);
    }
    KernelMap.KernelSpace(mem[..], pd, pt, n, buddy.FreePages());
    assert OnlyLinear(mem[..], pd, n);
    m := new AddressSpaces(buddy, mem, pd, seq(n, k => pt + k));
    assert mem[..] == old@Filled(mem[..]);
    assert forall v :: 0 <= v < WORD ==> KernelMap.MemoryMapped(allPages, v, Translate(mem[..], pd, v));
  }

  /** The boot-time requests: one page for the directory, the tables, and what follows. */
  function BootRequests(allPages: nat, rest: seq<nat>): seq<nat> {
    [PAGE_SIZE, KernelMap.TableCount(allPages) * PAGE_SIZE] + rest
  }

  /** The frames at which the first two requests are served. */
  function DirectoryFrame(kernelEnd: nat): nat {
    Bootmem.AlignUp(kernelEnd, PAGE_SIZE) / PAGE_SIZE
  }

  function FirstTableFrame(kernelEnd: nat, n: nat): nat {
    Bootmem.AlignUp(Bootmem.NextFree(kernelEnd, PAGE_SIZE), n * PAGE_SIZE) / PAGE_SIZE
  }

  /** No request takes the bump pointer past the end of the 32-bit addresses. */
  predicate NoneWraps(start: nat, sizes: seq<nat>) {
    forall i :: 0 <= i < |sizes| ==> Bootmem.Fits(Bootmem.FreeAfter(start, sizes[..i]), sizes[i])
  }

  /** They are whole frames inside memory, apart from each other, and inside the stretch that booting
      reserves. */
  lemma BootLayout(memSize: nat, kernelEnd: nat, rest: seq<nat>, free: seq<nat>)
    requires BOOT_KERNEL_START < kernelEnd < WORD && PAGE_SIZE <= memSize < WORD
    requires NoneWraps(kernelEnd, BootRequests(memSize / PAGE_SIZE, rest))
    requires Boot.Served(kernelEnd, memSize, BootRequests(memSize / PAGE_SIZE, rest), free)
    ensures var (n, pd) := (KernelMap.TableCount(memSize / PAGE_SIZE), DirectoryFrame(kernelEnd));
            var pt := FirstTableFrame(kernelEnd, n);
            && KernelMap.Layout(memSize / PAGE_SIZE, pd, pt, n)
            && kernelEnd <= pd * PAGE_SIZE && (pd + 1) * PAGE_SIZE <= pt * PAGE_SIZE
            && |free| == |rest| + 3 && (pt + n) * PAGE_SIZE <= free[|rest| + 2] <= memSize
            && pd * PAGE_SIZE == Bootmem.AlignUp(free[0], PAGE_SIZE)
            && pt * PAGE_SIZE == Bootmem.AlignUp(free[1], n * PAGE_SIZE)
  {
    hide Bootmem.AlignUp, KernelMap.TableCount, Bootmem.FreeAfter;
    var n := KernelMap.TableCount(memSize / PAGE_SIZE);
    var sizes := BootRequests(memSize / PAGE_SIZE, rest);
    assert sizes[0] == PAGE_SIZE && sizes[1] == n * PAGE_SIZE && |sizes| == |rest| + 2;
    Boot.ServedIsRun(kernelEnd, memSize, sizes, free);
    Bootmem.RegionsAreDisjoint(free, sizes, 0, 1);
    assert Bootmem.Fits(free[0], sizes[0]) && Bootmem.Fits(free[1], sizes[1]);
    Bootmem.FittingStep(free[0], PAGE_SIZE);
    Bootmem.WholePagesArePageAligned(free[0], 1);
    Bootmem.WholePagesArePageAligned(free[1], n);
  }

  lemma BootFramesReserved(pages: seq<BuddyState.Page>, zones: seq<BuddyState.ZoneVal>, firmware: seq<bool>,
                           hi: nat, lo: nat, f: nat)
    requires Boot.Booted(pages, zones, firmware, hi) && f < |pages|
    requires BOOT_KERNEL_START < lo <= f * PAGE_SIZE && (f + 1) * PAGE_SIZE <= hi
    ensures pages[f].reserved
  {
    assert !Boot.Untouched(f, BOOT_KERNEL_START, hi);
    assert f !in BuddyState.Usable(pages);
  }

  /** From power-on: memory is brought up with init_vpage's requests served first, the directory's page is
      cleared as bootmem_alloc does, and the kernel's map is filled in.  Unless the kernel panics, the kernel's
      own address space is the only one, its frames are none that the buddy allocator has, and the runs above
      start there.

      No request may wrap around the end of the 32-bit addresses. */
  method SpacesFromBoot(memSize: nat, kernelEnd: nat, firmware: seq<bool>, rest: seq<nat>, mem: array<Frame>)
    returns (r: Option<AddressSpaces>)
    requires memSize < WORD && mem.Length == |firmware| == memSize / PAGE_SIZE && BuddyState.NORMAL_START <= |firmware|
    requires BOOT_KERNEL_START < kernelEnd < 0x4000_0000 && forall i :: 0 <= i < |rest| ==> rest[i] < WORD
    requires NoneWraps(kernelEnd, BootRequests(|firmware|, rest))
    requires forall f :: 0 <= f < mem.Length ==> |mem[f]| == ENTRIES
    modifies mem
    ensures r.None? <==> var sizes := BootRequests(|firmware|, rest);
                         exists i :: 0 < i <= |sizes| && Bootmem.FreeAfter(kernelEnd, sizes[..i]) > memSize
    ensures r.Some? ==>
              && var m := r.value;
              && fresh(m) && m.Valid() && m.mem == mem && fresh(m.buddy)
              && m.kernelPd == DirectoryFrame(kernelEnd) && m.spaces == {m.kernelPd}
              && OnlyLinear(mem[..], m.kernelPd, |m.tables|) && VmOk(View(m), m.tables)
              && forall v :: 0 <= v < WORD ==> KernelMap.MemoryMapped(|firmware|, v, Translate(mem[..], m.kernelPd, v))
  {
    hide BuddyState.StateOk, BuddyState.BlocksIn, BuddyBlocks.PagesOf, SpacesOk, Boot.Served, Bootmem.AlignUp,
         Bootmem.FreeAfter, Bootmem.Fits, Bootmem.NextFree, KernelMap.TableCount, DirectoryFrame, FirstTableFrame,
         BuddyBlocks.Canonical, KernelMap.Layout, NoneWraps, Translate, KernelMap.MemoryMapped;
    var n := KernelMap.TableCount(|firmware|);
    var up;
    ghost var free;
    up, free := Boot.BringUp(memSize, kernelEnd, firmware, BootRequests(|firmware|, rest));
    if up == None {
      return None;
    }
    BootLayout(memSize, kernelEnd, rest, free);
    var pd, pt := DirectoryFrame(kernelEnd), FirstTableFrame(kernelEnd, n);
    ghost var pages := up.value.pages[..];
    forall f | 0 <= f < |pages| && (f == pd || pt <= f < pt + n)
      ensures pages[f].reserved
    {
      BootFramesReserved(pages, up.value.ZoneVals(), firmware, free[|rest| + 2], kernelEnd, f);
    }
    mem[pd] := Zeros();
    assert up.value.pages[..] == pages;
    var m := InitialSpaces(up.value, mem, pd, pt, |firmware|, kernelEnd);
    r := Some(m);
  }

  // ----- where they end too early

  lemma StillOnePage(free: set<nat>, f: nat, t: nat)
    requires |NormalPages(free)| >= 3
    ensures NormalPages(free - {f} - {t}) != {} && NormalPages(free - {f}) != {}
  {
    var normal := NormalPages(free);
    assert NormalPages(free - {f} - {t}) == normal - {f} - {t} && NormalPages(free - {f}) == normal - {f};
    assert normal == {} + (normal - {f} - {t}) + (normal * {f, t});
    assert |normal * {f, t}| <= 2 by {
      TwoAtMost(normal * {f, t}, f, t);
    }
  }

  lemma TwoAtMost(s: set<nat>, f: nat, t: nat)
    requires s <= {f, t}
    ensures |s| <= 2
  {
    assert |s - {f} - {t}| == 0 by {
      assert s - {f} - {t} == {};
    }
  }

  /** With three free pages, linking the page above the linear map in the kernel's own address space and
      making a new one always shares a page table: both translate the address to the same frame. */
  method LinkAboveMap(m: AddressSpaces, n: nat) returns (space: nat, ghost frame: nat)
    requires m.Valid() && n == |m.tables| && OnlyLinear(m.mem[..], m.kernelPd, n)
               && |NormalPages(m.buddy.FreePages())| >= 3
    modifies m`spaces, m.mem, m.buddy.pages, m.buddy.zones
    ensures !m.Valid() && space in m.spaces && space != m.kernelPd && frame in old(m.buddy.FreePages())
    ensures Walk(m.mem[..], space, KERNEL_PDE + n, 0) == Walk(m.mem[..], m.kernelPd, KERNEL_PDE + n, 0)
         == Some(Mapping(frame, true, true))
  {
    hide BuddyState.StateOk, BuddyState.BlocksIn, BuddyBlocks.PagesOf, NormalPages;
    ghost var mem0, free0, i := m.mem[..], m.buddy.FreePages(), KERNEL_PDE + n;
    var v := KERNEL_VSTART + n * 0x40_0000;
    MacrosDecode(0, v);
    assert PdeIndex(v) == i && PteIndex(v) == 0;
    assert n <= MAX_KERNEL_TABLES && !Present(Entry(mem0, m.kernelPd, i));
    assert Walk(mem0, m.kernelPd, i, 0) == None;
    hide SpacesOk, Walk, OnlyLinear, PdeIndex, PteIndex, Present, LinkDone, SpaceDone;
    ghost var spaces := m.spaces;
    var r, f := m.LinkAddr(m.kernelPd, v);
    ghost var mem1, free1 := m.mem[..], m.buddy.FreePages();
    assert f.Some? && LinkDone(mem0, free0, spaces, m.kernelPd, i, 0, f, mem1, free1);
    frame := f.value;
    LinkedAbove(mem0, spaces, m.tables, free0, m.kernelPd, frame, mem1, free1);
    var q := m.NewSpace();
    assert q.Some? && SpaceDone(mem1, free1, spaces, m.kernelPd, q, m.mem[..], m.buddy.FreePages());
    space := q.value;
    BothTranslate(mem1, free1, spaces, m.kernelPd, i, frame, space, m.mem[..], m.buddy.FreePages());
  }

  lemma LinkedAbove(mem: Memory, spaces: set<nat>, tables: seq<nat>, free: set<nat>, kernelPd: nat, f: nat,
                    mem1: Memory, free1: set<nat>)
    requires SpacesOk(mem, spaces, tables, free) && kernelPd in spaces && OnlyLinear(mem, kernelPd, |tables|)
    requires |tables| <= MAX_KERNEL_TABLES && |NormalPages(free)| >= 3
    requires Walk(mem, kernelPd, KERNEL_PDE + |tables|, 0) == None
    requires LinkDone(mem, free, spaces, kernelPd, KERNEL_PDE + |tables|, 0, Some(f), mem1, free1)
    ensures !OnlyLinear(mem1, kernelPd, |tables|) && NormalPages(free1) != {} && f in free
    ensures Walk(mem1, kernelPd, KERNEL_PDE + |tables|, 0) == Some(Mapping(f, true, true))
  {
    hide SpacesOk, OnlyLinear, Walk, NormalPages;
    var i := KERNEL_PDE + |tables|;
    StillOnePage(free, f, FrameOf(Entry(mem1, kernelPd, i)));
    LinkKeepsLinear(mem, spaces, tables, free, kernelPd, kernelPd, i, 0, Some(f), mem1, free1);
    assert free - {f} - {} == free - {f};
  }

  lemma BothTranslate(mem1: Memory, free1: set<nat>, spaces: set<nat>, kernelPd: nat, i: nat, f: nat, q: nat,
                      mem2: Memory, free2: set<nat>)
    requires SpaceDone(mem1, free1, spaces, kernelPd, Some(q), mem2, free2) && kernelPd in spaces
    requires KERNEL_PDE <= i < ENTRIES && Walk(mem1, kernelPd, i, 0) == Some(Mapping(f, true, true))
    ensures q != kernelPd && Walk(mem2, q, i, 0) == Walk(mem2, kernelPd, i, 0) == Some(Mapping(f, true, true))
  {
    hide Walk;
  }
}
