# A model of the kernel's memory stack and scheduler core

This project models, and proves properties of, five parts of the kernel.

* **Physical pages.** The boot-time bump allocator (`Bootmem`), the buddy allocator with its zones
  (`BuddyBlocks`, `BuddyState`, `Buddy`, `BuddyCount`, `BuddyRuns`), bringing both up (`Boot`), and the
  intrusive lists underneath (`ListHead`).
* **Small objects.** The slab cache with its in-band free list (`SlabCache`), `kmalloc` and `kfree`
  (`Slab`), whole runs of them beside other users of pages (`SlabRuns`), and runs in which `kfree` goes wrong
  (`SlabMiss`).
* **Tasks.** The round-robin scheduler and the interrupt-masked semaphores, as operations on values
  (`Sched`), over whole runs (`SchedRuns`, `SchedSteps`), and in place on the kernel's structures (`Kernel`);
  sleeping on the 32-bit tick counter (`Sleep`); the IDE interrupt handshake with the disk's sector loops on
  top (`Ide`); pids and the bitmap they come from (`PidPool`, `Bitmap`).
* **Virtual memory.** Page tables as the processor reads them (`Paging`), the kernel's own map
  (`KernelMap`), linking pages and making address spaces over the buddy allocator (`PageTables`), and whole
  runs of that (`PagingRuns`).
* **Arithmetic and lists.** `BitOps` turns the kernel's masks, shifts and exclusive-ors into ordinary
  arithmetic; `Sequences` is about lists without repetitions, and `Config` holds the memory layout.

Code that changes state is a class with methods; each method's contract gives the new state as a function
or relation of the old one, and the properties are lemmas about those functions and relations. A run is a
sequence of states whose steps are constrained only by what the methods guarantee, so a statement about all
runs covers every interleaving of calls.

## How the model reads the code

* The conditions of `KASSERT` are preconditions, as are the obligations that the code leaves to its callers:
  a freed block is one that was handed out, a pid is below 1024. A `KPANIC` is a result without a value.
  Bringing the zones up asserts that every page of the DMA zone exists, so memory has at least 16 MB.
* The idle task parks, enables interrupts and halts; it never waits on a semaphore.
* Free lists, cache lists, the ready list and wait queues are sequences. `ListHead` proves, on the links
  themselves, that each list operation does to a list what the other modules do to the sequence
  (`Sequences.WithoutIsDropped` for unlinking).
* A disk is busy from the moment a command or a sector's data is written, asks for an interrupt when it is
  done, and takes that back when its status is read or a command is written, as in the ATA standard. What it
  does with a command that it gets while busy is undefined there, and arbitrary here.
* Spin-locked bodies, and bodies that run with interrupts off, are sequential.
* A task that is switched out has the interrupt flags that its suspended calls will restore in `frames`,
  which stands for that part of its stack. A switch ends with the next task leaving those calls.
* `size_t` counters are unbounded, except where wrap-around matters: the tick counters, the addresses of
  `bootmem_alloc`, the 16-bit links of a slab page and the index limits of `bitmap_find` are modelled at their
  width.

## What the proofs show about the code

* The buddy allocator's eager merging keeps the free blocks a function of the free pages: they are the
  maximal aligned runs. Completeness of allocation and all round trips follow.
* `sslab_object_in_cache` is documented as membership, but compares a signed difference with one bound only
  (kernel/memory/sslab/cache.c:84). The model follows the code. `kfree` takes an object back if and only if no
  cache listed before its own lies at a higher address (`Slab.ScanFindsOwnerIff`, `Slab.Slabs.FreeObject`).
  Otherwise the object stays handed out, and the cache that is named instead counts it as its own: what it
  hands out next lies in another page unless the two pages are a multiple of 16 apart (`Slab.StrayObject`), and
  if it had one object left to be freed, its page is given up while that object is live (`Slab.Missed`).
  From every state in which two pages of one block are free, whatever is in use, calls lead to either
  (`SlabMiss.LoseAnObject`; `SlabMiss.Endanger` and then `SlabMiss.GivePageAway`), and so they do from power-on
  (`SlabMiss.FromBoot`).
* A cache of one-byte objects, which `kmalloc(0)` and `kmalloc(1)` would use, has a broken free list, because
  neighbouring two-byte links overlap; for all larger objects the list is right
  (`SlabCache.ListBuiltIffTwoBytes`).
* `task_unpark` of a task that is ready already leaves interrupts off, so whoever wakes a blocked task twice
  stops the timer (`SchedRuns.WakingTwiceMasks`). That branch is not reached from the scheduler or the `_nint`
  semaphores (`SchedRuns.UnparkNeverReturnsEarly`, `Sched.EmptyMeansIdleBlocked`).
* `task_sleep_ticks` never wakes early, but if `now + ticks` does not overflow, a task that does not look
  before the counter wraps sleeps on (`Sleep.ExpiredIff`).
* `ide_send_cmd` arms the channel before it writes the command, so an interrupt in between is taken for the
  command's answer. It never happens if interrupts are off between the two writes (`Ide.MaskedWindowIsSafe`), and
  it can happen in every run that gets there with interrupts on (`Ide.OpenWindowIsHit`). A read is safe from it,
  because it polls the disk before it moves the data (`Ide.ReadWaitsForDisk`). A write is not: it ends on the
  interrupt, so it may end while the disk still stores (`Ide.WriteEndsBeforeItIsStored`), and the next command
  goes to a busy disk (`Ide.OverrunConfuses`). Any interrupt does this that the disk has not asked for
  (`Ide.UnaskedOverruns`), and only such ones (`Ide.AskedWritesAreStored`).
* `ALIGN_UP` never goes below its argument exactly if the alignment is not zero and the sum does not wrap,
  powers of two or not (`Bootmem.AlignUpNeverBelowIff`).
* `task_init_page_table` copies the whole upper quarter of the kernel's page directory. Address spaces stay
  apart if and only if nothing but the linear map is entered there (`PageTables.SpaceAddedIff`). Linking a page
  of the kernel's own address space above the map breaks that (`PageTables.LinkKeepsLinear`): the next address
  space shares the page table, and both translate to the same frame (`PagingRuns.LinkAboveMap`).

## Model

| member | source | states |
|---|---|---|
| BitOps.MaskTestsAlignment | include/kernel/memory/buddy/buddy.h:38-42 | the mask test is alignment to 2^order |
| BitOps.XorBit | include/kernel/memory/buddy/buddy.h:78 | exclusive-or with 1 << order moves an aligned index up or down by 2^order, depending on the half it is |
| BitOps.ClearBit | include/kernel/memory/buddy/buddy.h:93-97 | clearing bit `order` of an aligned index gives the start of the block one order higher |
| BuddyBlocks.BuddyBits | include/kernel/memory/buddy/buddy.h:75-97 | the two bit operations compute the buddy and the parent of a block |
| BuddyBlocks.BuddyGeometry | include/kernel/memory/buddy/buddy.h:75-97 | a block and its buddy are disjoint halves of their parent, and the relation is symmetric |
| BuddyBlocks.CoveredRunIsInsideOneBlock | kernel/memory/buddy/buddy.c:39-51 | in a coalesced set of blocks, an aligned run whose pages are all free lies inside one free block |
| BuddyBlocks.RunFreeIffBlockHoldsIt | kernel/memory/buddy/buddy.c:67-82 | an aligned run is free if and only if one free block contains it |
| BuddyBlocks.CanonicalForm | kernel/memory/buddy/buddy.c:39-54 | a coalesced set of blocks is the set of maximal aligned runs of its pages |
| BuddyBlocks.CanonicalIsCoalesced | kernel/memory/buddy/buddy.c:39-54 | conversely, the maximal aligned runs of any set of pages are coalesced and cover exactly it |
| BuddyState.BlockInOneZone | include/kernel/memory/memory.h:38-40 | an aligned block never straddles two zones |
| BuddyState.SearchIsComplete | kernel/memory/buddy/buddy.c:67-82 | if an aligned run of the order is free in the zone, some list from that order up is not empty |
| BuddyState.FreeBlocksAreCanonical | kernel/memory/buddy/buddy.c:18-110 | the invariant makes the free blocks a function of the free pages |
| Buddy.Allocator.AreaAddPage | kernel/memory/buddy/zone.c:92-98 | the page goes to the head of the list, is counted and marked, and nothing else changes |
| Buddy.Allocator.AreaRemovePage | kernel/memory/buddy/zone.c:100-106 | the page leaves the list wherever it is, the count drops, the mark goes, and nothing else changes |
| Buddy.Allocator.PageToBuddy | include/kernel/memory/buddy/buddy.h:75-84 | the buddy of the block, or nothing past the end of memory |
| Buddy.Allocator.FreePage | kernel/memory/buddy/buddy.c:18-57 | keeps the invariant; a misaligned page changes nothing; otherwise exactly the block's pages become free, the lists lose the buddies of all merged orders and gain the final block at a head, pg_free rises by 2^order, other zones keep everything |
| Buddy.Allocator.FindOrder | kernel/memory/buddy/buddy.c:67-76 | the search loop finds the least order whose list is not empty |
| Buddy.Allocator.SplitDown | kernel/memory/buddy/buddy.c:84-99 | the first block of the found order is taken and halved: the lower halves stay free, the upper part is split on, and together they are the pages there were |
| Buddy.Allocator.AllocPage | kernel/memory/buddy/buddy.c:59-110 | keeps the invariant; fails, without effect, exactly when no aligned run of the order is free in the zone; otherwise hands out an entirely free run, exactly its pages stop being free, every order in between gains the lower half, pg_free drops by 2^order |
| Buddy.Allocator.EmptyZone | kernel/memory/buddy/zone.c:21-34 | the zone's lists and counters are empty and its bounds set |
| Buddy.Allocator.InitPage | kernel/memory/buddy/zone.c:37-42 | the page learns its zone and becomes free unless it is reserved; nothing else changes |
| Buddy.Allocator.InitZone | kernel/memory/buddy/zone.c:15-46 | every page of the zone that is not reserved becomes free, every page of it gets its zone, and no other page or zone changes |
| Buddy.Allocator.InitZones | kernel/memory/buddy/zone.c:48-76 | all pages that are not reserved are free, in the coalesced blocks that those pages determine |
| BuddyCount.PgFreeCountsFreePages | kernel/memory/buddy/buddy.c:36-101 | pg_free is the number of the zone's free pages |
| BuddyRuns.InitialInv | kernel/memory/buddy/zone.c:36-43 | what init_zone leaves is a state from which runs keep the invariant |
| BuddyRuns.AllocStep | kernel/memory/buddy/buddy.c:59-110 | buddy_alloc_page makes a step of a run |
| BuddyRuns.FreeStep | kernel/memory/buddy/buddy.c:18-57 | buddy_free_page of a held block makes a step of a run, its preconditions following from its being held |
| BuddyRuns.RunKeepsInv | kernel/memory/buddy/buddy.c:18-110 | over every run, free pages and outstanding blocks partition the usable pages, outstanding blocks never overlap, and lists, flags and counters agree |
| BuddyRuns.HeldBlockMayBeFreed | kernel/memory/buddy/buddy.c:21-25 | whoever holds a block may free it: the assertions cannot fail |
| BuddyRuns.NewBlockIsSeparate | kernel/memory/buddy/buddy.c:78-109 | a new block is disjoint from every outstanding one |
| BuddyRuns.AllocFailsIff | kernel/memory/buddy/buddy.c:67-82 | allocation fails if and only if every aligned run of the order in the zone has a page that is unusable or handed out |
| BuddyRuns.SameFreePagesSameBlocks | kernel/memory/buddy/buddy.c:18-110 | any two runs that end with the same pages free end with the same blocks free |
| BuddyRuns.AllReturned | kernel/memory/buddy/buddy.c:18-110 | a run after which nothing is outstanding ends with the blocks that initialisation made |
| BuddyRuns.FreesCommute | kernel/memory/buddy/buddy.c:18-57 | freeing two held blocks in either order gives the same free blocks |
| BuddyRuns.AllocThenFree | kernel/memory/buddy/buddy.c:18-110 | freeing what was just allocated restores the free blocks |
| BuddyRuns.FreeThenAlloc | kernel/memory/buddy/buddy.c:39-82 | a block that was freed without merging is the next one of its order to be handed out |
| ListHead.ListInit | lib/list_head.c:4-9 | the node is the head of an empty list |
| ListHead.ListAdd | lib/list_head.c:11-18 | the ring's entries are the new node, then the old ones in order |
| ListHead.ListAddTail | lib/list_head.c:20-27 | the ring's entries are the old ones in order, then the new node |
| ListHead.ListDel | lib/list_head.c:29-34 | the ring's entries are the others in order; the entry's own links stay |
| Sequences.WithoutIsDropped | lib/list_head.c:29-34 | on a list without repetitions, dropping a position is taking that entry out of the sequence |
| ListHead.ListEmpty | lib/list_head.c:36-40 | true exactly for a list without entries |
| ListHead.ListPop | lib/list_head.c:42-52 | the first entry, removed, or null for an empty list |
| ListHead.ListFind | lib/list_head.c:54-67 | the entry's position, or -1 if it is not on the list, for the head as well |
| Bootmem.AlignUpNeverBelowIff | include/lib/common.h:41 | in 32 bits, ALIGN_UP is at least its argument if and only if the alignment is not zero and the sum does not wrap |
| Bootmem.AlignUpPowerOfTwo | include/lib/common.h:41 | for a power of two it is the least multiple that is not below |
| Bootmem.WholePagesArePageAligned | kernel/memory/vpage.c:58-66 | a request for any number of whole pages gets page-aligned memory |
| Bootmem.BootMem.constructor | kernel/memory/bootmem.c:15-26 | memory is handed out from the end of the kernel on |
| Bootmem.BootMem.Alloc | kernel/memory/bootmem.c:28-42 | the region starts at or above the old pointer and ends at the new one exactly if the request fits; there is none exactly when the pointer is past the end of memory |
| Bootmem.BootMem.PreInitPages | kernel/memory/bootmem.c:44-55 | exactly the pages from the kernel's first up to the bump pointer become reserved |
| Bootmem.RegionsAreDisjoint | kernel/memory/bootmem.c:28-42 | over every sequence of fitting requests, regions are disjoint, above the kernel and below the final pointer |
| Boot.ServeRequests | kernel/memory/bootmem.c:28-42 | the requests are served in order, and not all of them exactly when one takes the pointer past the end of memory |
| Boot.ServedIsRun | kernel/memory/bootmem.c:28-42 | requests that do not wrap form a run whose regions are disjoint |
| Boot.BringUp | kernel/memory/buddy/page.c:12-24 | booting panics exactly when a request takes the pointer past the end of memory; otherwise a page is free exactly if firmware does not reserve it and it shares no byte with the kernel or a boot-time region |
| Boot.BootMemoryIsNeverHandedOut | kernel/memory/buddy/zone.c:36-43 | over every run, no free and no outstanding block contains a page of the kernel or of a boot-time region |
| Boot.RegionsAreCovered | kernel/memory/bootmem.c:47-54 | every boot-time region lies in the part that is reserved |
| Boot.BootIsSafeOverRuns | kernel/memory/buddy/zone.c:36-43 | from booting through every run of allocations and frees, no free and no outstanding block touches the kernel or any boot-time region |
| SlabCache.ListBuiltIffTwoBytes | kernel/memory/sslab/cache.c:29-38 | the loop links all objects into a right list if and only if objects have at least two bytes |
| SlabCache.OneByteLinks | kernel/memory/sslab/cache.c:32-38 | with one-byte objects the first link points outside the page |
| SlabCache.AllFreeIff | kernel/memory/sslab/sslab.c:83 | as many objects are free as there are if and only if none is handed out |
| SlabCache.CountersTell | kernel/memory/sslab/sslab.c:83 | obj_free == obj_cnt exactly when no object is live |
| SlabCache.StrayKeepsLive | kernel/memory/sslab/cache.c:70 | a link written into a live object by another cache damages neither its own cache's list nor what is handed out |
| SlabCache.Cache.constructor | kernel/memory/sslab/cache.c:13-45 | following the links from `object` visits every aligned offset past the header once, in address order, and ends in 0 |
| SlabCache.SlotsAreAllMultiples | kernel/memory/sslab/cache.c:28-40 | the object offsets are all multiples of the object size from the header to the end of the page, in order |
| SlabCache.Cache.LinkObjects | kernel/memory/sslab/cache.c:32-38 | the loop in place, with 16-bit links written byte by byte |
| SlabCache.Cache.Alloc | kernel/memory/sslab/cache.c:47-61 | the list's first object, which no one held, all zero; every other byte and every other live object as before; nothing exactly when none is free |
| SlabCache.Cache.Free | kernel/memory/sslab/cache.c:63-73 | the object heads the list and leaves the live ones; only its two link bytes are written |
| Slab.MaskFindsPage | kernel/memory/sslab/cache.c:87-92 | masking an object's address gives its cache's page |
| Slab.SizeToOrder | include/kernel/memory/sslab/sslab.h:87-98 | the least order whose size suffices |
| Slab.OrderIsRecovered | kernel/memory/sslab/sslab.c:109 | the order recovered from a cache's object size is the one it was made for |
| Slab.InCacheIsOneSided | kernel/memory/sslab/cache.c:81-85 | the test accepts exactly the caches at or above the object's own |
| Slab.ScanFindsOwnerIff | kernel/memory/sslab/sslab.c:70-77 | the scan stops at the cache that issued the object if and only if no cache before it lies higher |
| Slab.SecondPageLiesBelow | kernel/memory/buddy/buddy.c:91-99 | of two single pages split off one block, the second lies just below the first |
| Slab.StrayObject | kernel/memory/sslab/cache.c:68-71 | the 16-bit distance that a wrong cache records keeps the object's offset, and points into its own page exactly if the pages are a multiple of 16 apart |
| Slab.StillLive | kernel/memory/sslab/sslab.c:81 | after a miss the object's own cache still counts it as handed out, and is as right as before |
| Slab.Slabs.constructor | kernel/memory/sslab/sslab.c:10-27 | all cache lists are empty |
| Slab.Slabs.FirstWithFree | kernel/memory/sslab/sslab.c:34-43 | the first listed cache with a free object |
| Slab.Slabs.NewCache | kernel/memory/sslab/sslab.c:47-54 | a new cache at the end of its list, on a page that was free; nothing exactly when the zone has no free page |
| Slab.Slabs.AllocFromOld | kernel/memory/sslab/sslab.c:36-56 | the first listed cache with a free object hands it out, and no other cache, list or page changes |
| Slab.Slabs.AllocFromNew | kernel/memory/sslab/sslab.c:47-56 | a new cache, on the page that the buddy allocator splits off, hands out its first object |
| Slab.Slabs.AllocObject | kernel/memory/sslab/sslab.c:29-61 | a zeroed object that no one held, all other live objects and bytes as before; nothing, without effect, exactly when all caches of the order are full and no page is free |
| Slab.Slabs.FindCache | kernel/memory/sslab/sslab.c:68-77 | the position at which the scan stops |
| Slab.Slabs.FreeCachePage | kernel/memory/sslab/cache.c:75-79 | exactly the cache's page becomes free, and no page that another cache holds does |
| Slab.Slabs.Destroy | kernel/memory/sslab/sslab.c:83-86 | the cache leaves its list, its page becomes free, and all other caches, pages and lists are as before |
| Slab.Slabs.FreeObject | kernel/memory/sslab/sslab.c:63-89 | the object is taken back if and only if the scan names its cache; then a cache without live objects is gone and no other object is touched; if not, the whole new state is that of Missed: the object stays live, the named cache is misled or its page given up |
| Slab.Slabs.KMalloc | kernel/memory/sslab/sslab.c:91-98 | a zeroed object of the least sufficient power of two, aligned to it, that no one holds; fails exactly when its caches are full and the zone has no free page |
| Slab.Slabs.KFree | kernel/memory/sslab/sslab.c:100-113 | null is ignored; otherwise mask and recovered order lead to the list of the cache that issued the object, and it is taken back if and only if the scan names that cache; otherwise Missed |
| Slab.Slabs.LiveObjectsDisjoint | kernel/memory/sslab/sslab.c:29-61 | two live objects, of any sizes, share no byte |
| Slab.Slabs.SystemIsInOrder | kernel/memory/sslab/sslab.c:83-86 | between operations every listed cache has a live object, and no cache page is free |
| SlabRuns.MallocStep | kernel/memory/sslab/sslab.c:91-98 | kmalloc makes a step of a run, others keeping their pages |
| SlabRuns.FreeStep | kernel/memory/sslab/sslab.c:100-113 | kfree makes a step of a run if and only if the scan names the owner |
| SlabRuns.OthersAlloc | kernel/memory/buddy/buddy.c:59-110 | buddy_alloc_page for anybody else keeps the slabs valid and makes a step elsewhere |
| SlabRuns.OthersFree | kernel/memory/buddy/buddy.c:18-57 | buddy_free_page of a block that anybody else has keeps the slabs valid and makes a step elsewhere |
| SlabRuns.PagesConserved | kernel/memory/sslab/sslab.c:29-89 | over every run, with everybody else allocating and freeing pages too, free pages, cache pages and the pages of others are apart, and together always the same |
| SlabRuns.AllFreedRestoresBuddy | kernel/memory/sslab/sslab.c:83-86 | after a run that frees everything, all cache lists are empty, and if others have the pages they had, whatever they had in between, the buddy allocator's free blocks are those at the start |
| SlabRuns.ContentsUntilFreed | kernel/memory/sslab/cache.c:47-73 | over every run, the bytes of a live object stay until it is freed |
| SlabMiss.NextCache | kernel/memory/sslab/sslab.c:29-61 | kmalloc(1024) until a new cache serves: all listed ones are full then, and the new one is last, on the page that the buddy allocator splits off |
| SlabMiss.UseUpSingles | kernel/memory/buddy/buddy.c:67-99 | from every state with a free pair of pages, such requests use the single free pages up and leave a larger block |
| SlabMiss.HideObject | kernel/memory/sslab/sslab.c:29-61 | from every state with a free pair of pages, whatever is in use, kmalloc(1024) leads to a state with a live object that the scan does not find, all other caches of its size being full |
| SlabMiss.LoseAnObject | kernel/memory/sslab/sslab.c:63-89 | kfree of that object leaves it handed out, and what the wrong cache hands out next lies in another page unless the two are a multiple of 16 pages apart |
| SlabMiss.FreeOne | kernel/memory/sslab/sslab.c:63-89 | kfree of an object whose cache comes first and has other live objects keeps the lists, the caches and every other live object |
| SlabMiss.GivePageAway | kernel/memory/sslab/sslab.c:81-86 | any kfree whose scan names a cache with one live object left gives the page of that object to the buddy allocator |
| SlabMiss.Endanger | kernel/memory/sslab/sslab.c:63-89 | from every state with a free pair of pages, whatever is in use, calls lead to a state in which kfree of a live object does so |
| SlabMiss.BootedPair | kernel/memory/bootmem.c:44-55 | after booting, a pair of pages is free if neither the firmware nor the boot-time regions reach it |
| SlabMiss.FromBoot | kernel/memory/memory.c:8-24 | the whole run from power-on, for every size of memory, firmware map and boot-time requests that leave such a pair |
| Bitmap.WithBitWritesOneBit | kernel/utils/bitmap.c:24-32 | writing a bit changes no other bit of the byte |
| Bitmap.FirstRunIsUnique | kernel/utils/bitmap.c:34-62 | the bits determine the search's result |
| Bitmap.Bits.constructor | kernel/utils/bitmap.c:6-16 | all bits are clear |
| Bitmap.Bits.Get | kernel/utils/bitmap.c:18-22 | the bit at the index |
| Bitmap.Bits.Set | kernel/utils/bitmap.c:24-32 | exactly the bit at the index is written |
| Bitmap.Bits.Find | kernel/utils/bitmap.c:34-62 | the least start of a run of `size` bits equal to `value`, and -1 exactly if there is none within ssize_t, although the search skips whole failed runs |
| Bitmap.Bits.Alloc | kernel/utils/bitmap.c:64-75 | the least clear run, and exactly its bits are set |
| PidPool.Pool.constructor | kernel/task/pid.c:8-13 | no pid is in use |
| PidPool.Pool.Alloc | kernel/task/pid.c:15-23 | the least pid not in use, or -1 exactly when all 1024 are |
| PidPool.Pool.Free | kernel/task/pid.c:25-31 | exactly this pid stops being in use |
| PidPool.AllocMakesStep | kernel/task/pid.c:15-23 | pidpool_alloc makes a step of a run |
| PidPool.FreeMakesStep | kernel/task/pid.c:25-31 | pidpool_free of a held pid makes a step of a run |
| PidPool.RunKeepsInv | kernel/task/pid.c:15-31 | over every run, pids held are distinct and the pool knows exactly them |
| PidPool.AllocOverRuns | kernel/task/pid.c:15-23 | over every run, a new pid is the least one nobody holds, and there is none exactly when 1024 are held |
| Sched.EmptyMeansIdleBlocked | kernel/task/task.c:58-60 | if nobody is ready at the check, idle is blocked and on no queue, so waking it really enqueues it |
| Sched.ScheduleKeeps | kernel/task/task.c:46-71 | the scheduler, entered with any status of the current task, ends with exactly one running task, the current one |
| Sched.TickKeeps | kernel/task/task.c:73-88 | a timer interrupt keeps the invariant |
| Sched.YieldKeeps | kernel/task/task.c:213-226 | task_yield keeps the invariant |
| Sched.ParkKeeps | kernel/task/task.c:228-239 | task_park keeps the invariant |
| Sched.DownKeeps | kernel/task/sync.c:121-137 | semaphore_down_nint keeps the invariant |
| Sched.UpKeeps | kernel/task/sync.c:139-155 | semaphore_up_nint keeps the invariant and its caller's flag, and the task it wakes is blocked |
| Sched.CreateKeeps | kernel/task/kthread.c:55-83 | creating a task keeps the invariant |
| SchedRuns.BootStateOk | kernel/task/kthread.c:22-53 | the state that init_kthread leaves satisfies the invariant |
| SchedRuns.RunKeepsInv | kernel/task/task.c:46-254 | over every interleaving of timer and device interrupts, yields, parks, semaphore operations and creations the invariant holds |
| SchedRuns.Partition | kernel/task/task.c:46-71 | exactly the current task runs, ready tasks are those on the ready list, a task's node is linked at most once over all lists, ticks stay within priority |
| SchedRuns.UnparkRestoresFlagIff | kernel/task/task.c:241-254 | task_unpark restores the flag if and only if the task is not ready yet or interrupts were off |
| SchedRuns.WakingTwiceMasks | kernel/task/task.c:241-254 | waking a blocked task twice with interrupts on turns them off, and no timer or device interrupt comes any more |
| SchedRuns.UnparkNeverReturnsEarly | kernel/task/sync.c:148-151 | a semaphore never unparks a ready task |
| SchedRuns.ScheduleEffect | kernel/task/task.c:53-70 | the head of the ready list runs next, a preempted task goes to its end with a full slice, and no other task is touched |
| SchedRuns.FlagRestored | kernel/task/task.c:213-239 | a task that gives up the processor, or loses it, finds its interrupt flag as it left it |
| SchedRuns.StepProgress | kernel/task/task.c:46-88 | the bound on a ready task's waiting drops with each timer interrupt, and no other step raises it |
| SchedRuns.BoundedWaiting | kernel/task/task.c:46-88 | a ready task runs before as many timer interrupts have passed as the slices of the current task and of those ahead of it, each plus one, add up to |
| SchedRuns.SemaphoreLaws | kernel/task/sync.c:121-155 | over every run: units exclude waiters, initial + ups = value + granted downs, and waiters are released in the order of their downs |
| SchedRuns.SemaphoreSteps | kernel/task/sync.c:121-155 | each step extends a semaphore's history by the right task and by nothing else |
| SchedSteps.ScheduleHandsOver | kernel/task/task.c:46-71 | a switch serves the ready list as a queue: a preempted task goes last with a full slice, the first of the list runs, or idle if there is none, with the flag that it had put away, and no other task changes |
| SchedSteps.YieldEffect | kernel/task/task.c:213-226 | a task that yields stays ready, last on the list, with what is left of its slice and its flag put away |
| SchedSteps.YieldAlone | kernel/task/task.c:213-226 | if nobody else is ready, task_yield changes nothing |
| SchedSteps.YielderRunsAgain | kernel/task/task.c:213-226 | over every run, a task that yields makes way for the first ready task and runs again within the bound on its waiting, just as it was |
| SchedSteps.ParkEffect | kernel/task/task.c:228-239 | a task that parks is blocked, with its flag put away, and nobody else changes but the task that runs next |
| SchedSteps.ParkedSleeps | kernel/task/task.c:228-239 | it does not run and is not ready; only idle, when nobody is ready, runs on |
| SchedSteps.TickEffect | kernel/task/task.c:73-88 | a timer interrupt is counted for the kernel and the task; within the slice it uses up exactly one tick and changes nothing else, after it the task goes last with a full slice |
| SchedSteps.SliceIsKept | kernel/task/task.c:83-84 | over every run, a task that does not give up the processor keeps it for as many timer interrupts as its slice has ticks left, each using up one |
| SchedSteps.SliceEnds | kernel/task/task.c:53-70 | the next timer interrupt preempts it: the first ready task runs, and the task is last with a full slice; it goes on with one if nobody is ready |
| SchedSteps.DownEffect | kernel/task/sync.c:121-137 | a unit is taken and nothing else changes, or the caller is blocked, last in the queue, with both flags put away |
| SchedSteps.UpEffect | kernel/task/sync.c:139-155 | a unit more, or exactly the longest waiting task is ready, last on the list |
| SchedSteps.UnparkEffect | kernel/task/task.c:241-254 | a blocked task becomes ready, last on the list, and nothing else changes; for a ready one interrupts stay off |
| SchedSteps.CreateEffect | kernel/task/task.c:118-132 | exactly one task more, last on the ready list, with the given priority, a full slice and interrupts on at its start |
| SchedSteps.WakesAsItWas | kernel/task/task.c:46-71 | over every run, a task starts to run with the flag, the priority and the slice with which it stopped or was made |
| SchedSteps.NewTaskRuns | kernel/task/kthread.c:55-83 | over every run, a new task runs within the bound on its waiting, and starts with interrupts on and a full slice of its priority |
| Kernel.Thread.constructor | kernel/task/task.c:118-132 | a new task is ready, with a full slice |
| Kernel.Semaphore.constructor | kernel/task/sync.c:77-83 | the value is the initial one and nobody waits |
| Kernel.Scheduler.IntrSetStatus | kernel/interrupt/interrupt.c:50-62 | the flag is set and its old value returned, and nothing else changes |
| Kernel.Scheduler.IntrLock | include/kernel/task/sync.h:18-22 | interrupts are off and the old flag is in the caller's frame |
| Kernel.Scheduler.IntrUnlock | include/kernel/task/sync.h:24-28 | the innermost saved flag is in force |
| Kernel.Scheduler.TaskPush | kernel/task/task.c:184-190 | the task is last on the ready list |
| Kernel.Scheduler.TaskUnpark | kernel/task/task.c:241-254 | computes Sched.Unpark in place, early return included |
| Kernel.Scheduler.TaskSchedule | kernel/task/task.c:46-71 | computes Sched.Schedule in place, never popping an empty list |
| Kernel.Scheduler.TimerHandler | kernel/task/task.c:73-88 | computes Sched.Tick in place, whose effect SchedSteps.TickEffect gives |
| Kernel.Scheduler.TaskYield | kernel/task/task.c:213-226 | computes Sched.Yield in place, whose effect SchedSteps.YieldEffect gives |
| Kernel.Scheduler.TaskPark | kernel/task/task.c:228-239 | computes Sched.Park in place (SchedSteps.ParkEffect), and the same from inside another call |
| Kernel.Scheduler.KthreadCreate | kernel/task/kthread.c:55-83 | computes Sched.Create in place, whose effect SchedSteps.CreateEffect gives |
| Kernel.Scheduler.SemaphoreDown | kernel/task/sync.c:121-137 | computes Sched.Down in place |
| Kernel.Scheduler.SemaphoreUp | kernel/task/sync.c:139-155 | computes Sched.Up in place |
| Sleep.ExpiredIff | kernel/task/task.c:263-272 | with fewer than 2^32 ticks elapsed, the loop's test holds if and only if enough have, and, where the end does not overflow, the counter has not wrapped |
| Sleep.TicksOverRun | kernel/task/task.c:79 | over every run the counter shows the number of timer interrupts, modulo 2^32 |
| Sleep.NoEarlyWake | kernel/task/task.c:256-276 | over every run, a sleeping task leaves its loop only if enough timer interrupts have come, and exactly then unless the counter has wrapped past an end that had not |
| Sleep.SleepTicks | kernel/task/task.c:256-276 | the loop leaves at the first look at which it may |
| Ide.Channel.IrqHandler | kernel/device/disk/ide.c:14-26 | an interrupt is accepted, and the status read, only while a command is outstanding; computes the interrupt step in place |
| Ide.Channel.SendCmd | kernel/device/disk/ide.c:98-103 | the channel is armed first, with the port still as it was, and the command written then |
| Ide.Channel.IsDeviceReady | kernel/device/disk/ide.c:105-118 | true exactly if the first of a thousand looks that does not find the disk busy finds data to be moved |
| Ide.LooksDecide | kernel/device/disk/disk.c:110-112 | the looks of a run come to that answer: the transfer follows exactly if ide_is_device_ready says so, a panic otherwise |
| Ide.LooksAreCounted | kernel/device/disk/ide.c:105-118 | over every interleaving, busy looks are counted for each sector anew, and after a thousand comes the panic |
| Ide.PollDecides | kernel/device/disk/disk.c:110-112 | wherever a run comes to the poll, ide_is_device_ready decides between transfer and panic |
| Ide.ActKeeps | kernel/device/disk/disk.c:104-115 | every action of the client, of the disk, of an interrupt or of anybody else keeps the handshake's invariant |
| Ide.AtMostOneOutstanding | kernel/device/disk/ide.c:19-22 | over every interleaving: the semaphore is at most one, commands less ups is 0 or 1 as irq_ready says, and a sector ends with irq_ready set, value 0, and as many downs passed as commands sent |
| Ide.EveryDownHasItsInterrupt | kernel/device/disk/disk.c:129-141 | over every interleaving each sector arms once, then one interrupt is accepted, then its down passes |
| Ide.WaiterIsWoken | kernel/device/disk/ide.c:19-22 | while the client waits, the next interrupt is accepted and makes it ready |
| Ide.ReadWaitsForDisk | kernel/device/disk/disk.c:107-114 | over every interleaving, early interrupts included, a read moves data only when the disk has it, and then that of the right sector, or after a command to a disk that was not free |
| Ide.UnknownMeansOverrun | kernel/device/disk/disk.c:129-141 | a command goes to a disk that is not free only after a write that ended before the disk had stored its data |
| Ide.OverrunConfuses | kernel/device/disk/disk.c:129-141 | and after such a write the next sector does send its command to a disk that is not free |
| Ide.WorksOnLastRequest | kernel/device/disk/disk.c:95-144 | over every interleaving, operation, first sector and count are those of the last call of disk_read or disk_write |
| Ide.RequestMovesItsSectors | kernel/device/disk/disk.c:95-144 | over every interleaving, when a call of disk_read or disk_write for count sectors from first is over, exactly those have been moved, each once and in order; for a read, unless a write before ended too early |
| Ide.RequestInProgress | kernel/device/disk/disk.c:104-105 | before, it is at one of the sectors that were asked for |
| Ide.AskedWritesAreStored | kernel/device/disk/disk.c:129-141 | over every run in which the disk has asked for each interrupt that is accepted, masked or not, a write is over only when the disk has stored its sectors, in order, and no interrupt is early |
| Ide.RequestIsStored | kernel/device/disk/disk.c:129-141 | in such a run, when a call of disk_write for count sectors from first is over, the disk has stored exactly those last, in order |
| Ide.UnaskedOverruns | kernel/device/disk/disk.c:140 | from every run in which a write waits for its disk with interrupts on, an interrupt that the disk has not asked for ends the write while the disk still stores |
| Ide.ReadFollowsItsInterrupt | kernel/device/disk/disk.c:104-115 | a sector is read only after its own command was announced, an interrupt was accepted since, and the down passed |
| Ide.MaskedWindowIsSafe | kernel/device/disk/ide.c:98-103 | if interrupts are off whenever the channel is armed and the command not yet written, no interrupt from before a command is ever accepted for it |
| Ide.OpenWindowIsHit | kernel/device/disk/ide.c:98-103 | from every run that is there with interrupts on, an interrupt is possible, and after it one has been accepted too early |
| Ide.WriteEndsBeforeItIsStored | kernel/device/disk/disk.c:129-141 | a run of one disk_write, with an interrupt between the two writes of ide_send_cmd, that ends although the disk has stored nothing |
| Paging.MacrosDecode | include/kernel/memory/vpage.h:10-16 | PAGE_PADDR, the present test and the two index macros are the fields that the processor uses |
| Paging.DescIsEntry | include/kernel/memory/vpage.h:12-13 | the or-ed descriptor of a page is its address plus 7 |
| Paging.EntryDecodes | include/kernel/memory/vpage.h:10-13 | a descriptor is present, writable, for users, and gives its frame back |
| Paging.OtherFrames | kernel/memory/vpage.c:145-151 | what is written, allocated or freed outside the frames of the address spaces changes no translation |
| Paging.TableAdded | kernel/memory/vpage.c:156-169 | entering an empty page table changes no translation and keeps all frames apart |
| Paging.LeafAdded | kernel/memory/vpage.c:174-183 | entering a frame adds exactly one translation and keeps all frames apart |
| KernelMap.KernelMapTranslates | kernel/memory/vpage.c:55-82 | the kernel's tables translate exactly the kernel addresses of the memory they cover, to the physical ones, and the linked low addresses to themselves |
| KernelMap.TablesSuffice | kernel/memory/vpage.c:60-65 | with the number of tables that is computed from the memory size, all memory below 768 MB is mapped, nothing from its end rounded up to 4 MB on, and in the early map exactly the first 4 MB and the 4 MB pages of the kernel image besides |
| KernelMap.KernelSpace | kernel/memory/vpage.c:84-89 | the final map is an address space that the invariant accepts |
| KernelMap.FillDirectory | kernel/memory/vpage.c:67-73 | the directory's upper entries name the tables in order |
| KernelMap.FillTables | kernel/memory/vpage.c:75-78 | all tables together hold the linear map |
| KernelMap.LinkLow | kernel/memory/vpage.c:22-36 | the first entry and those of the kernel image are linked at the bottom too |
| KernelMap.UnlinkLow | kernel/memory/vpage.c:38-52 | exactly these are removed again |
| KernelMap.InitVpage | kernel/memory/vpage.c:111-124 | for every memory size and all 32-bit addresses: at the end each byte of memory below 768 MB is at its kernel address, and nothing is mapped past the end of memory rounded up to 4 MB; before, the first 4 MB and the kernel image are mapped to themselves too |
| PageTables.LinearMap | kernel/memory/vpage.c:75-78 | every address space has the kernel's linear map, at all times |
| PageTables.KernelAddress | include/kernel/memory/memory.h:12-17 | in every address space MEM_KERNEL_VADDR of a covered byte translates to that byte |
| PageTables.LastWrite | kernel/memory/vpage.c:174-183 | from a taken page and a present table to the finished link |
| PageTables.SpaceAddedIff | kernel/task/task.c:161-182 | copying the kernel half keeps all address spaces apart if and only if nothing but the linear map is entered in it |
| PageTables.NewSpaceIsLinear | kernel/task/task.c:175-179 | then the new address space has the kernel's linear map and nothing else |
| PageTables.SharedTableLeaks | kernel/memory/vpage.c:174-183 | a page linked through a table that two directories share appears in both address spaces |
| PageTables.LinkAboveMapIsShared | kernel/task/task.c:175-179 | after the page just above the linear map is linked in the kernel's own address space, a new one has the same page table and the same frame there |
| PageTables.LinkKeepsLinear | kernel/memory/vpage.c:138-186 | linking leaves the kernel directory's upper entries to the linear map if and only if it is not the kernel's own address space that is linked above it |
| PageTables.AddressSpaces.PageTableFor | kernel/memory/vpage.c:153-172 | the page table's frame, allocated and entered if there is none; nothing exactly when one is needed and no page is left |
| PageTables.AddressSpaces.LinkAddr | kernel/memory/vpage.c:138-186 | one page of one address space is mapped to a zeroed frame that was free, no other translation of any address space changes, nobody else's memory is written; fails exactly when there are fewer free pages than needed, and then all translations and the free blocks are as before |
| PageTables.AddressSpaces.NewSpace | kernel/task/task.c:161-182 | the new address space translates kernel addresses as the kernel's own does and no others, no other changes; the invariant survives if and only if nothing is linked above the linear map; fails, without effect, exactly when the zone has no free page |
| PagingRuns.LinkStep | kernel/memory/vpage.c:138-186 | vpage_link_addr makes a step of a run |
| PagingRuns.SpaceStep | kernel/task/task.c:161-182 | task_init_page_table makes a step of a run if and only if the invariant survives |
| PagingRuns.MappingsPersist | kernel/memory/vpage.c:138-186 | over every run a mapped page stays mapped to the same frame |
| PagingRuns.FramesNotShared | kernel/memory/vpage.c:138-186 | over every run no two linked pages of any address spaces share a frame, and a linked frame is never free, a directory or a page table |
| PagingRuns.InitialSpaces | kernel/memory/vpage.c:111-124 | init_vpage over reserved frames leaves a state from which such runs start |
| PagingRuns.BootLayout | kernel/memory/vpage.c:58-65 | the frames that bootmem_alloc gives for the directory and the tables are whole, apart, above the kernel, in memory and in the reserved stretch |
| PagingRuns.SpacesFromBoot | kernel/memory/memory.c:8-24 | from power-on: booting panics exactly when a request takes the pointer past the end of memory, and otherwise ends in a state with all memory below 768 MB mapped from which such runs start |
| PagingRuns.LinkAboveMap | kernel/memory/vpage.c:138-186 | with three free pages, linking above the map and making an address space always ends with two that translate an address to one frame |

## Left out

- Slab.Slabs.KMalloc: sizes 0 and 1 are not served, because their cache's free list is broken; SlabCache.ListBuiltIffTwoBytes says exactly for which sizes it is right.
- SlabRuns.MallocStep: sizes 0 and 1, as for KMalloc.
- Slab.Slabs.AllocObject: order 0, whose caches have the broken list.
- Slab.Slabs.NewCache: order 0, as for AllocObject.
- Slab.Slabs.KFree: the address must be that of a live object, as for any free.
- SlabCache.Cache.constructor: the header is kept in fields, not in the page's first 24 bytes; one-byte objects are only in SlabCache.ListBuiltIffTwoBytes and SlabCache.OneByteLinks.
- SlabCache.Cache.LinkObjects: one-byte objects, for which the loop also writes the byte after the page; LinkLoop has that byte.
- SlabRuns.PagesConserved: runs in which every kfree finds its cache; SlabRuns.FreeStep says exactly which those are, and SlabMiss what the first other one does.
- SlabRuns.AllFreedRestoresBuddy: runs in which every kfree finds its cache, as for PagesConserved.
- SlabRuns.ContentsUntilFreed: runs in which every kfree finds its cache, as for PagesConserved.
- Buddy.Allocator.AreaAddPage: sets the page's order too, which the code stores just before or just after linking the page, under the same lock.
- Bootmem.BootMem.Alloc: gives the physical address; clearing the region is not modelled, and size zero, which resets the pointer to zero, is outside Fits.
- Boot.BringUp: the firmware's memory map is an arbitrary list of reserved pages.
- SchedRuns.BoundedWaiting: counts timer interrupts, not time; that the timer ticks is an assumption.
- Kernel.Thread.constructor: the pid, the name, the page table and the file descriptors of a task.
- Kernel.Scheduler.KthreadCreate: the failure paths and the global task list.
- PagingRuns.SpacesFromBoot: the kernel's map is filled in after the zones are up, not before; the two touch different memory.
- Sleep.SleepTicks: what other tasks do between two looks at the counter is the given sequence; Sleep.NoEarlyWake is about whole runs.
- Sched.CreateKeeps: kthread_create with its memory at hand; the failure paths of its allocations are left out.
- Kernel.Scheduler.TaskSchedule: switching stacks, cr3 and the TSS is a change of `current`.
- Ide.Channel.IrqHandler: the KASSERT on the irq number is not modelled; each channel has one client, so its mutex is left out.
- PageTables.AddressSpaces.LinkAddr: memory is indexed by frame, which PageTables.KernelAddress justifies for the frames the linear map covers; flushing the TLB is not done by the code either.
- Mutexes and the semaphores with a spin guard: a task is linked while it still runs with interrupts on, so its steps are not atomic.
- Spin locks, the cmpxchg assembly, context-switch assembly, GDT, IDT, PIC, clock and port I/O: hardware effects.
- Ide.RequestMovesItsSectors: the bytes of a sector and the selection ports; that a sector is moved is recorded by its number.
- Ide.AskedWritesAreStored: a disk that fails to store a sector counts as done with it, because disk_write does not look at the status afterwards.
- buddy_page_cnt_to_order: the same loop as sslab_size_to_order.
- The task status DEAD, which nothing assigns, the global task list, file descriptors, task names and user-process stacks.
- The file system, mkfs, partition scanning, e820 parsing, the console, formatting and string helpers.
