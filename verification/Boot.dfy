/** Bringing memory up: the bump allocator first, then the buddy allocator over what it left. */
module Boot {
  import opened Config
  import opened Wrappers
  import opened BuddyBlocks
  import opened BuddyState
  import opened Buddy
  import opened BuddyRuns
  import Bootmem

  /** Page p shares no byte with the addresses from lo up to hi. */
  predicate Untouched(p: nat, lo: nat, hi: nat) {
    (p + 1) * PAGE_SIZE <= lo || hi <= p * PAGE_SIZE
  }

  /** The pages that are free after booting: those that neither the firmware reserves nor the kernel
      image and the boot-time regions, which end at hi, touch. */
  ghost predicate Booted(pages: seq<Page>, zones: seq<ZoneVal>, firmware: seq<bool>, hi: nat) {
    && |pages| == |firmware| && StateOk(pages, zones, 3, 0, 0)
    && (forall p :: 0 <= p < |pages| ==> pages[p].zoneType == ZoneOf(p))
    && PagesOf(BlocksIn(pages)) == Usable(pages)
    && forall p :: p in Usable(pages) <==> 0 <= p < |firmware| && !firmware[p] && Untouched(p, BOOT_KERNEL_START, hi)
  }

  /** The bump pointer before each of the requests and after the last, none of them past the end of
      memory. */
  ghost predicate Served(start: nat, memSize: nat, sizes: seq<nat>, free: seq<nat>) {
    && |free| == |sizes| + 1
    && (forall i :: 0 <= i <= |sizes| ==> free[i] == Bootmem.FreeAfter(start, sizes[..i]))
    && (forall i :: 0 < i <= |sizes| ==> free[i] <= memSize)
  }

  /** The boot-time requests, up to the first one for which the kernel panics. */
  method ServeRequests(mem: Bootmem.BootMem, sizes: seq<nat>) returns (ok: bool, ghost free: seq<nat>)
    requires mem.freeMem < WORD && forall i :: 0 <= i < |sizes| ==> sizes[i] < WORD
    modifies mem`freeMem
    ensures ok <==> forall i :: 0 < i <= |sizes| ==> Bootmem.FreeAfter(old(mem.freeMem), sizes[..i]) <= mem.memEnd
    ensures ok ==> Served(old(mem.freeMem), mem.memEnd, sizes, free) && mem.freeMem == free[|sizes|] < WORD
  {
    ghost var start := mem.freeMem;
    free := [start];
    for i := 0 to |sizes|
      invariant |free| == i + 1 && free[i] == mem.freeMem < WORD
      invariant forall j :: 0 <= j <= i ==> free[j] == Bootmem.FreeAfter(start, sizes[..j])
      invariant forall j :: 0 < j <= i ==> free[j] <= mem.memEnd
    {
      assert sizes[..i + 1][..i] == sizes[..i];
      var region := mem.Alloc(sizes[i]);
      if region == None {
        return false, free;
      }
      free := free + [mem.freeMem];
    }
    ok := true;
  }

  /** As long as no request wraps around, the requests served form a run of module Bootmem. */
  lemma ServedIsRun(start: nat, memSize: nat, sizes: seq<nat>, free: seq<nat>)
    requires Served(start, memSize, sizes, free) && start >= 1
    requires forall i :: 0 <= i < |sizes| ==> Bootmem.Fits(free[i], sizes[i])
    ensures Bootmem.Run(free, sizes) && free[0] == start
  {
    hide Bootmem.AlignUp, Bootmem.Fits, Bootmem.NextFree;
    assert sizes[..0] == [];
    forall i | 0 <= i < |sizes|
      ensures free[i + 1] == Bootmem.AlignUp(free[i], sizes[i]) + sizes[i]
    {
      assert sizes[..i + 1][..i] == sizes[..i];
      Bootmem.FittingStep(free[i], sizes[i]);
    }
  }

  /** init_bootmem, the boot-time requests, init_page and init_zone in order.

      Nothing is returned exactly where the kernel panics: when some request takes the bump pointer past
      the end of memory. */
  method BringUp(memSize: nat, kernelEnd: nat, firmware: seq<bool>, sizes: seq<nat>)
    returns (r: Option<Allocator>, ghost free: seq<nat>)
    requires memSize < WORD && |firmware| == memSize / PAGE_SIZE && NORMAL_START <= |firmware|
    requires BOOT_KERNEL_START < kernelEnd < WORD
    requires forall i :: 0 <= i < |sizes| ==> sizes[i] < WORD
    ensures r.None? <==> exists i :: 0 < i <= |sizes| && Bootmem.FreeAfter(kernelEnd, sizes[..i]) > memSize
    ensures r.Some? ==>
              && Served(kernelEnd, memSize, sizes, free)
              && fresh(r.value) && fresh(r.value.pages) && fresh(r.value.zones) && r.value.Ready()
              && Booted(r.value.pages[..], r.value.ZoneVals(), firmware, free[|sizes|])
              && r.value.FreeBlocks() == Canonical(r.value.FreePages())
  {
    hide PagesOf, BlocksIn, StateOk, Canonical, Served;
    var mem := new Bootmem.BootMem(kernelEnd, memSize);
    var ok;
    ok, free := ServeRequests(mem, sizes);
    if !ok {
      return None, free;
    }
    var allocator := new Allocator(firmware);
    mem.PreInitPages(allocator.pages);
    assert allocator.Valid(0) by {
      NoFreeBlocksYet(allocator.pages[..], allocator.ZoneVals());
    }
    ghost var pages1 := allocator.pages[..];
    allocator.InitZones(memSize);
    UsableAfterBoot(pages1, allocator.pages[..], firmware, BOOT_KERNEL_START, mem.freeMem);
    r := Some(allocator);
  }

  lemma UsableAfterBoot(pages1: seq<Page>, pages: seq<Page>, firmware: seq<bool>, lo: nat, hi: nat)
    requires |pages1| == |pages| == |firmware| && lo % PAGE_SIZE == 0
    requires forall p :: 0 <= p < |pages| ==> pages[p].reserved == pages1[p].reserved
    requires forall p :: 0 <= p < |pages1| ==>
               (pages1[p].reserved <==> firmware[p] || (lo / PAGE_SIZE <= p && p * PAGE_SIZE < hi))
    ensures Usable(pages) == set p | 0 <= p < |pages1| && !pages1[p].reserved
    ensures forall p :: p in Usable(pages) <==> 0 <= p < |firmware| && !firmware[p] && Untouched(p, lo, hi)
  {
  }

  lemma NoFreeBlocksYet(pages: seq<Page>, zones: seq<ZoneVal>)
    requires |zones| == 3 && forall p :: 0 <= p < |pages| ==> !pages[p].buddy
    ensures StateOk(pages, zones, 0, 0, 0)
  {
    assert BlocksIn(pages) == {};
  }

  /** Over every run that starts from there, no block that is free or handed out ever contains a
      page of the kernel image or of a region handed out at boot. */
  lemma BootMemoryIsNeverHandedOut(states: seq<State>, ops: seq<Op>, lo: nat, hi: nat, i: nat, b: Block, p: nat)
    requires Run(states, ops) && Inv(states[0], Usable(states[0].pages)) && i < |states|
    requires forall q: nat :: q < |states[0].pages| && !Untouched(q, lo, hi) ==> states[0].pages[q].reserved
    requires b in BlocksIn(states[i].pages) || b in states[i].live
    requires In(p, b)
    ensures Untouched(p, lo, hi)
  {
    var usable := Usable(states[0].pages);
    RunKeepsInv(states, ops, usable, i);
    assert p in FreeSet(states[i]) || p in PagesOf(states[i].live);
    assert p in usable;
  }

  /** A region of a run of boot-time requests lies between the kernel's end and the final pointer, so
      the pages it touches are among those that are never handed out. */
  lemma RegionsAreCovered(free: seq<nat>, sizes: seq<nat>, i: nat, p: nat)
    requires Bootmem.Run(free, sizes) && BOOT_KERNEL_START < free[0] && i < |sizes|
    requires Untouched(p, BOOT_KERNEL_START, free[|sizes|])
    ensures var base := Bootmem.AlignUp(free[i], sizes[i]);
            free[0] <= base && Untouched(p, base, base + sizes[i])
  {
    Bootmem.PointerOnlyRises(free, sizes, 0, i);
    Bootmem.PointerOnlyRises(free, sizes, i, |sizes|);
  }

  /** From booting to every run: whatever is allocated and freed after BringUp, no block that is free or
      handed out contains a page that the kernel image or any boot-time region touches. */
  lemma BootIsSafeOverRuns(firmware: seq<bool>, free: seq<nat>, sizes: seq<nat>,
                           states: seq<State>, ops: seq<Op>, i: nat, b: Block, p: nat, j: nat)
    requires Bootmem.Run(free, sizes) && BOOT_KERNEL_START < free[0]
    requires Run(states, ops) && i < |states| && states[0].live == {}
    requires Booted(states[0].pages, states[0].zones, firmware, free[|sizes|])
    requires b in BlocksIn(states[i].pages) || b in states[i].live
    requires In(p, b)
    ensures Untouched(p, BOOT_KERNEL_START, free[0])
    ensures j < |sizes| ==> var base := Bootmem.AlignUp(free[j], sizes[j]); Untouched(p, base, base + sizes[j])
  {
    hide StateOk, PagesOf, BlocksIn, Bootmem.AlignUp, Bootmem.Fits;
    InitialInv(states[0]);
    BootMemoryIsNeverHandedOut(states, ops, BOOT_KERNEL_START, free[|sizes|], i, b, p);
    Bootmem.PointerOnlyRises(free, sizes, 0, |sizes|);
    if j < |sizes| {
      RegionsAreCovered(free, sizes, j, p);
    }
  }
}
