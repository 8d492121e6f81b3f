# A verified model of a small RISC-V kernel

This project models the memory stack of the kernel, its deferred interrupts, its scheduler, its
timer queue and its initial ramdisk, and proves what they promise.

* **Memory management.** `Lists` is the intrusive circular list of `include/list.h` over one memory
  of `prev`/`next` words. `Buddy`, `PageSets` and `Slab` give the allocator of `src/mm.c` as
  functions on its state (`mem_map`, the free lists, and the block partition as proof state) with
  the partition, refinement, conservation, coalescing and disjointness theorems. `Mm.Allocator` is
  the code itself, updating `mem_map` and the eighteen lists in place; every method is proved equal
  to the function that specifies it. `Heap` says what kmalloc and kfree promise their callers over
  every run of requests.
* **Virtual memory.** `Sv39` has three-level page tables in physical memory, where table frames and
  data frames lie side by side. `Cow` has the steps of demand paging, copy-on-write and fork with
  the invariant "reference count = number of leaves, writable = mapped once". `Eager` is the plain
  meaning: every process owns a private byte map, fork copies it at once, and a store changes one
  byte of one map. `Vm.Kernel` is `src/vm.c` working in place on memory and drawing its frames from
  `Mm.Allocator`; `Vm.Kernel.RunAll` proves that every run of spawn, mmap, fork, load, fetch and
  store, with all the page faults it causes, gives exactly the outcomes of `Eager.Run`. `History`
  says what these outcomes are in terms of operations and outcomes alone: every store is read back,
  nobody else's is, and from boot each outcome follows from the operations before it. `Tenants`
  shows that no other user of the allocator is ever handed a frame that page tables lead to.
  `Together` runs both on one allocator, processes and callers of kmalloc, alloc_pages and kfree in
  any order. `Words` ties the arithmetic on page-table entries to the shifts and masks of 64-bit words.
* **Deferred interrupts and scheduling.** `Irq.Interrupts` is the sorted task queue and the nested
  dispatch loop of `src/irq.c`, for every finite pattern of interrupts arriving while handlers run.
  `RoundRobin` is the scheduler as a state machine with theorems over whole runs, and
  `Sched.Scheduler` the code of `src/sched.c` on its linked run queue. `Timers` does both for
  `src/timer.c`.
* **The initial ramdisk.** `Cpio` is the arithmetic of `src/utils.c`; `Initrd` is the walk and the
  lookup of `src/initrd.c` against a written-down encoder of the cpio "newc" format.

The page-table layout and the hardware's permission rules follow sections 4.3.1 and 4.4 of the
RISC-V Privileged Architecture, version 20211203.

`dafny verify dfyconfig.toml` checks the whole project.

## What the code does not do

Some promises one might expect are not kept by the code. Each is stated with the condition that
decides it.

* An access to an area that may be written but not read ends in the spin of `src/vm.c:201-204`: a
  load or a store always, a fetch if and only if its page is absent or its leaf still has the write
  bit, which fork clears (`Vm.Kernel.TryAccess`, `Eager.Spins`; for example `Eager.WriteOnlySpins`).
* After `kthread_exit` a task can run again if the timer preempts the idle task before it has reaped
  the zombies: it is gone for good, however the run goes on, if and only if the first operation of
  idle afterwards is a completed turn (`RoundRobin.ExitedForGood`; for `kthread_stop`
  `RoundRobin.StoppedForGood`). If the idle task itself is stopped, nothing is ever dispatched again
  after its next turn (`RoundRobin.IdleTurnIsLast`, `RoundRobin.IdleReapedStops`).
* `hextoi` is documented for hexadecimal strings but reads lower-case digits wrongly: a size comes
  back if and only if it is written without letters (`Cpio.LowerHexRoundTrip`; not so for ten,
  `Cpio.LowerHexFails`). The next archive header is found if and only if both sizes, rounded up, fit
  into an `int` (`Initrd.NextHdrIsRight`, `Cpio.AlignIsUp`; not so for 2^31 - 1, `Cpio.AlignFails`).
* Reserving an empty range can split a free block and leave its unused halves unmerged
  (`Buddy.EmptyReserveSplits`). A reservation leaves a coalesced allocator coalesced if and only if
  it makes no cut; it makes one where its empty range surrounds the middle of two free halves that
  both carry used == 0 (`Buddy.CoalescedUnlessCut` with the condition `Buddy.CutAt`; over runs,
  `Buddy.RunCoalesced`).
* `map_pages` counts with an `int`, so it maps the whole range if and only if the range has at most
  2^31 bytes (`Vm.Kernel.MapPages`, `Vm.MapsWholeRange`; one page more and one is left out,
  `Vm.MapsTooLittle`).

## Model

| member | source | states |
|---|---|---|
| `Lists.InsertIsInsert` | include/list.h:47-54 | linking a node between two neighbours of a well-formed circular list inserts it at that place of the sequence |
| `Lists.AddFirstIsCons` | include/list.h:64-67 | list_add puts the node in front |
| `Lists.AddTailIsSnoc` | include/list.h:77-80 | list_add_tail on the head puts the node last |
| `Lists.AddBeforeIsInsert` | include/list.h:77-80 | list_add_tail on an entry puts the node in front of that entry |
| `Lists.RemoveIsRemove` | include/list.h:89-103 | list_del_init of any entry removes it from its sequence and leaves it a list of its own |
| `Lists.FamilyUpdate` | include/list.h:35-103 | with several disjoint lists over one memory, writes to nodes of one list leave every other list as it was |
| `Lists.FamilyAddFirst` | include/list.h:64-67 | insertion on one list of a family keeps all the others |
| `Lists.FamilyAddTail` | include/list.h:77-80 | likewise at the end of a list |
| `Lists.FamilyAddBefore` | include/list.h:77-80 | likewise in front of any entry |
| `Lists.FamilyRemove` | include/list.h:99-103 | removing any entry keeps all other lists and takes the node off every list |
| `Lists.ListMemory.ListAdd` | include/list.h:64-67 | the writes of list_add are those the lemmas speak about |
| `Lists.ListMemory.ListAddTail` | include/list.h:77-80 | likewise for list_add_tail |
| `Lists.ListMemory.ListDelInit` | include/list.h:99-103 | likewise for list_del_init |
| `Buddy.InitialInv` | src/mm.c:37-48 | mem_init's free memory is partitioned into aligned blocks of 1024 pages, each listed once |
| `Buddy.InitialFields` | src/mm.c:37-48 | mem_map has 1024 pages a block with the fields mem_init gives them, and free_area[10] has exactly every 1024th page |
| `Buddy.AllocEffect` | src/mm.c:60-82 | alloc_pages keeps the block partition and coalescing, gives an aligned run of 2^order pages that was free and nothing else, and null exactly if no free block of that order or higher exists |
| `Buddy.BuddyIsHead` | src/mm.c:54-58 | the buddy of a block lies in memory and heads a block of at most the same order, so free_pages reads no stale field |
| `Buddy.MergeUpEffect` | src/mm.c:89-102 | merging upwards keeps the partition, frees exactly the block held, changes nothing outside it, and leaves no new pair of free unused buddies |
| `Buddy.FreeEffect` | src/mm.c:84-103 | free_pages finds the order in the head page and adds back exactly the run allocated there, whatever merges happen |
| `Buddy.FreedHead` | src/mm.c:89-102 | free_pages writes the fields of the merged block's head and of no other page, puts it first on its free list, and stops only where its buddy is in use or of another order |
| `Buddy.HalveBlockEffect` | src/mm.c:200-207 | splitting a partly covered block of order above 0 keeps the partition, loses no page, and changes nothing outside the block |
| `Buddy.ReserveStepEffect` | src/mm.c:190-208 | a block wholly inside the range becomes reserved, one partly inside is split, which never happens at order 0; no other list of this order or above changes |
| `Buddy.ReserveEffect` | src/mm.c:183-210 | reserve_memory takes from the free pages exactly those of the range, keeps the partition and changes no held page; a range that is not empty keeps coalescing |
| `Buddy.CoalescedUnlessCut` | src/mm.c:183-210 | for every range, reserve_memory leaves a coalesced allocator coalesced if and only if the range makes no cut between two unused free buddies |
| `Buddy.RunInv` | src/mm.c:60-210 | every state reachable from mem_init by alloc, free and reserve satisfies the partition invariant |
| `Buddy.RunCoalesced` | src/mm.c:60-210 | along such a run no two free buddies carry used == 0 so far if and only if no reservation so far has made a cut |
| `Buddy.EmptyReserveSplits` | src/mm.c:194-207 | a concrete empty reservation after which two unused free buddies stay unmerged |
| `PageSets.AllocMoves` | src/mm.c:60-82 | alloc_pages moves exactly its run from the set of free pages to the set of allocated pages |
| `PageSets.FreeMoves` | src/mm.c:84-103 | free_pages moves exactly that run back |
| `PageSets.ReserveMoves` | src/mm.c:183-210 | reserve_memory moves exactly the free pages of the range to the reserved ones |
| `PageSets.FreeIsOnLists` | src/mm.c:60-210 | a page is free if and only if it lies in a block that is on a free list, and the blocks on the lists have as many pages as are free |
| `PageSets.Conservation` | src/mm.c:60-210 | the pages of the blocks on the free lists, the allocated pages and the reserved pages add up to mem_map |
| `Slab.RegionsApart` | src/mm.c:126-181 | live page runs, live slots and the slots holding free-list links are pairwise disjoint byte ranges |
| `Slab.SlabRefill` | src/mm.c:128-138 | cutting a new page adds its slots to its own cache, once each |
| `Slab.SlabTake` | src/mm.c:139-142 | taking the first slot of a cache makes it live and keeps the slot invariant |
| `Slab.SlabGive` | src/mm.c:145-150 | giving a live slot back finds its own cache and keeps the slot invariant |
| `Slab.PageAligned` | src/mm.c:131-136 | a page address is a slot address of every cache, so slots start on their own size |
| `Mm.Allocator.MemInit` | src/mm.c:28-52 | mem_init builds the initial state and reserves the kernel image: a page is reserved if it holds a byte below the image's end, and free otherwise |
| `Mm.Allocator.AllocPages` | src/mm.c:60-82 | the code on arrays and links computes the specified result and state, for every int order that is not negative |
| `Mm.Allocator.SplitPage` | src/mm.c:72-77 | the split loop frees the upper halves, lowest address kept |
| `Mm.Allocator.FreePages` | src/mm.c:84-103 | the merge loop computes the specified state |
| `Mm.ReservedBytes` | src/mm.c:183-210 | a free page becomes reserved if and only if its bytes meet those from addr to addr + size, as long as the rounded end fits into 64 bits; if it does not, no page behind the first is reserved |
| `Mm.Allocator.ReserveMemory` | src/mm.c:183-210 | the split-and-descend loops compute the specified state, with the 64-bit rounding of the range, and so reserve exactly the free pages that meet the range of bytes |
| `Mm.Allocator.ReserveArea` | src/mm.c:190-208 | list_for_each_safe visits every original entry of one free list once although the body unlinks it or moves it to another list |
| `Mm.Allocator.KmemCacheAlloc` | src/mm.c:126-143 | hands out the first slot of the cache, after growing it by one page when it is empty; the slot was not live |
| `Mm.Allocator.KmemCacheFree` | src/mm.c:145-150 | puts the slot at the end of its own cache's list |
| `Mm.Allocator.Kmalloc` | src/mm.c:152-169 | serves every size by the smallest fitting cache or the least fitting order; null exactly for size 0 |
| `Mm.Allocator.Kfree` | src/mm.c:171-181 | undoes kmalloc for a live slot or a page run and ignores other addresses inside ordinary pages |
| `Heap.MallocServes` | src/mm.c:152-169 | kmalloc gives an address nobody holds that serves the request: a page run of the least order, or a slot of the smallest cache; every other address held still serves its own request |
| `Heap.FreeServes` | src/mm.c:171-181 | kfree takes one address from those held, and every other one still serves its request |
| `Heap.HeldIsFreeable` | src/mm.c:171-181 | every address held is one that kfree takes: a live slot, or the head of its page run with the order still in mem_map |
| `Heap.RunServesAll` | src/mm.c:152-181 | at every moment of every run of kmalloc and kfree each address held serves the size it was asked for |
| `Heap.RunKeepsApart` | src/mm.c:152-181 | at every moment of such a run the bytes of any two requests are disjoint |
| `Heap.HeldUntilFreed` | src/mm.c:152-181 | what kmalloc gave stays held, for the size asked, until kfree is called for it |
| `Heap.CallKmalloc` | src/mm.c:152-169 | the code of kmalloc is a step of those runs |
| `Heap.CallKfree` | src/mm.c:171-181 | the code of kfree is a step of those runs, for every address held |
| `Mm.Allocator.GetPage` | src/mm.c:224-227 | one more reference, in 32 bits |
| `Mm.Allocator.PutPage` | src/mm.c:229-234 | one reference less, in 32 bits; the page is freed exactly when none is left |
| `Words.EntryRoundTrip` | src/vm.c:32-40 | a 64-bit entry names the page and has the permission bits it was made from |
| `Words.WriteBitAlone` | src/vm.c:84 | with its write bit cleared it still names that page |
| `Words.EntryIsMakePte` | src/vm.c:32-38 | `pa >> 2` joined with the permission bits on words is the entry the model writes |
| `Words.FrameIsPpn` | src/vm.c:40 | `(entry & ~0x3ff) << 2` on words is the address of the frame the model's entry names |
| `Words.LowTen` | src/vm.c:40 | the ten bits masked out are the permission bits of the model |
| `Words.WriteBitTest` | src/vm.c:191 | testing PAGE_WRITE on a word is the model's test |
| `Words.WriteBitCleared` | src/vm.c:84 | clearing PAGE_WRITE on a word is the model's clearing |
| `Words.WriteBitAdded` | src/vm.c:199 | setting PAGE_WRITE on a word is the model's setting |
| `Words.ProtIsVmProt` | src/vm.c:154-164 | the permission bits mk_pte collects from an area's flags on words are those of the model |
| `Words.IndexZero` | src/vm.c:78 | the table index at level 0 is the page number modulo 512 |
| `Words.IndexOne` | src/vm.c:78 | likewise at level 1, of the page number divided by 512 |
| `Words.IndexTwo` | src/vm.c:78 | likewise at level 2 |
| `Words.PageOfAddress` | src/vm.c:177 | masking an address down to its page is rounding down to a multiple of 4096 |
| `Words.SameIndices` | src/vm.c:78 | 27-bit page numbers with the same three indices are equal |
| `Sv39.LeafWrite` | src/vm.c:137-152 | in a tree-shaped page table, writing one leaf slot changes that page's entry in that address space and no other entry at any level |
| `Sv39.TableLink` | src/vm.c:144-148 | entering a zeroed table keeps the tree shape and every other entry |
| `Sv39.RootAdd` | src/sched.c:89-90 | a new root keeps all trees and starts with an empty user half |
| `Cow.ClearBits` | src/vm.c:84 | clearing the write bit keeps the frame and every other right |
| `Cow.LeafBits` | src/vm.c:154-165 | mk_pte's entry has the frame and exactly the rights of the area |
| `Cow.AddTableInv` | src/vm.c:144-148 | making a missing table keeps the paging invariant and what every process sees |
| `Cow.MapFreshInv` | src/vm.c:182-190 | demand paging keeps the paging invariant and what every process sees |
| `Cow.ShareLeafInv` | src/vm.c:79-88 | sharing a page keeps the invariant; the child sees the parent's page, nobody else's view changes |
| `Cow.BreakShareInv` | src/vm.c:193-197 | copying a shared frame keeps the invariant and every view |
| `Cow.UpgradeInv` | src/vm.c:198-199 | making the last mapping writable keeps the invariant and every view |
| `Cow.StoreWordInv` | src/vm.c:195-199 | a store through a writable leaf changes one word of one page of one process |
| `Cow.AddProcessInv` | src/sched.c:89-90 | a new address space keeps the invariant and all views |
| `Cow.AddAreaInv` | src/vm.c:53-63 | a new area keeps the invariant and the contents of pages already covered |
| `Cow.RefcountIsMappings` | src/mm.c:224-234 | the reference count of every mapped frame is the number of leaves over all address spaces, zombies included, that map it |
| `Cow.WritableIsAlone` | src/vm.c:191-200 | a writable leaf is the only mapping of its frame and the count is one |
| `Cow.TablesApart` | src/vm.c:70-93 | different upper entries lead to different tables, none of them a root or a data frame |
| `Eager.FullLeafServes` | src/vm.c:122-135 | a leaf with its area's full rights serves every permitted access, unless the area is write-only |
| `Eager.FaultIsCow` | src/vm.c:191-204 | a permitted access that a present leaf refuses is a store to a write-cleared leaf, unless the area is write-only |
| `Eager.InitialPageBytes` | src/vm.c:183-189 | demand paging fills a page with the file's bytes from the right offset, or zeroes, byte for byte |
| `Eager.ByteOfSetByte` | src/vm.c:193-197 | storing one byte of a word changes that byte and no other |
| `ForkFacts.CountBound` | src/mm.c:224-227 | a frame has at most 512 references per frame of memory, so the 32-bit count cannot wrap |
| `ForkFacts.CopyLeaf` | src/vm.c:79-88 | level 0 of copy_page_range makes progress and keeps every page already copied |
| `ForkFacts.CopyComplete` | src/vm.c:95-108 | when every area is copied the child sees the parent's bytes on every page |
| `Vm.Kernel.PteAllocMap` | src/vm.c:137-152 | finds the leaf slot of the address, making missing tables, and changes no translation of any page of any process |
| `Vm.Kernel.Pagewalk` | src/vm.c:25-42 | sets one leaf and no other |
| `Vm.Kernel.MapPages` | src/vm.c:44-50 | leaves va + i mapped to pa + i for every page of the first 2^31 bytes of the range, where the int counter wraps and the loop ends, and every other leaf of every address space as it was |
| `Vm.MapsWholeRange` | src/vm.c:48 | the loop maps the whole range if and only if it has at most 2^31 bytes |
| `Vm.Kernel.FindArea` | src/vm.c:110-120 | the loop returns the first area that contains the address |
| `Vm.Kernel.DemandPage` | src/vm.c:182-190 | an absent page is mapped with its area's rights and initial contents |
| `Vm.Kernel.CopyOnWrite` | src/vm.c:191-200 | both branches leave a leaf with the area's full rights and change nobody's view |
| `Vm.Kernel.DoPageFault` | src/vm.c:167-208 | a forbidden access marks the task and changes no entry; a permitted one gets the leaf its area's full rights or spins, and never changes what a process sees |
| `Eager.LeafDecides` | src/vm.c:122-208 | a permitted access to a present leaf is served, or breaks sharing, or spins; it spins only if the area is write-only and the access is no fetch through a leaf without the write bit |
| `Vm.Kernel.TryAccess` | src/vm.c:167-208 | a permitted access faults at most once before it succeeds, a forbidden one is denied; the spin is reached if and only if the area is write-only and, for a fetch, the page is absent or its leaf has the write bit |
| `Vm.Kernel.CopyLevel` | src/vm.c:77-91 | at any level both walks either descend into corresponding tables or have become one walk; where the parent has no entry nothing is written |
| `Vm.Kernel.CopyPageEntry` | src/vm.c:73-92 | the three levels for one page leave the child's leaf equal to the parent's, which loses its write bit and nothing else; no other leaf changes; without a root entry of the parent nothing is written, and without a leaf no leaf changes |
| `Vm.Kernel.CopyPageRange` | src/vm.c:70-93 | every page of the area is copied; inside it a parent leaf loses its write bit at most and a child leaf is written only where it was absent; no leaf outside the area changes in any tree, and what all processes but the child see stays the same |
| `Vm.Kernel.DupMmap` | src/vm.c:95-108 | the child gets the parent's areas and sees the parent's bytes |
| `Vm.Kernel.NewSpace` | src/sched.c:89-90 | a new address space has an empty user half and the kernel's half of pg_dir, and changes no other |
| `Vm.Kernel.Fork` | src/vm.c:95-108 | after fork the child sees what the parent saw, everybody else what they saw before, and every process has the kernel's half of pg_dir |
| `Vm.Kernel.VmMmap` | src/vm.c:53-63 | appends the area |
| `Vm.Kernel.StoreByte` | src/vm.c:191-200 | a granted store changes one byte of one process's page |
| `Vm.Kernel.Exec` | src/vm.c:53-208 | one operation has the outcome and the effect it has in the eager model |
| `Vm.Kernel.RunAll` | src/vm.c:53-208 | copy-on-write with demand paging refines eager copying over every run; the outcomes are coherent, and every process keeps the kernel's half of pg_dir |
| `Vm.RunFromBoot` | src/vm.c:53-208 | the same from boot, when there is no process yet, and each outcome is the one expected from the operations before it |
| `History.RunCoherent` | src/vm.c:95-208 | in every run a read gives the byte the same process has last stored or read there, whatever others store; a child reads what its parent had stored or read before the fork, and both read the same until one of them stores there or maps an area where there was none |
| `History.RunAsExpected` | src/vm.c:53-208 | from boot every outcome follows from the operations before it: the new process's number, the file's byte, zero or the byte last stored by the process or by its parent before the fork, Killed exactly if no area over the address grants the access, Ignored exactly for killed processes |
| `Vm.ReachableIsHeld` | src/mm.c:60-103 | no frame reachable from any page table is on a free list, and no allocation of any order hands it out |
| `Tenants.OthersKeepFrames` | src/mm.c:60-234 | what other users allocate, free, reserve, cut into slots or count keeps every frame of the page tables as it was, and hands none of them out |
| `Tenants.NeverHandedOut` | src/mm.c:60-234 | over every run of other users, a frame reachable from a page table stays allocated, is on no free list and is never handed out again |
| `Tenants.KmallocIsUse` | src/mm.c:152-169 | every kmalloc of at least one byte is a step of those runs, whatever frames are in use |
| `Together.System.Perform` | src/mm.c:60-181 | each act is carried out: kmalloc of at least one byte adds one new address of that size, alloc_pages a run of 2^order pages or nothing exactly if no free block is large enough, kfree takes the i-th address away and makes its memory free, and an operation of a process changes nothing held |
| `Together.System.RunActs` | src/vm.c:53-208 | processes have their eager, coherent outcomes over every run in which other parts of the kernel call kmalloc, alloc_pages and kfree on the same allocator in between; these hold exactly what they were given and have not freed, it still serves them, and page tables and other holders know each other's pages apart |
| `Together.RunFromBoot` | src/vm.c:53-208 | the same from boot, when there is no process and nothing is held |
| `Together.KernelStep` | src/mm.c:60-234 | an operation of a process leaves everything others hold as it was |
| `Together.MallocStep` | src/mm.c:152-169 | a kmalloc by others takes no page that page tables use |
| `Together.FreeStep` | src/mm.c:171-181 | a kfree by others leaves the frames of the page tables alone |
| `Together.HeldApartFromTables` | src/mm.c:60-234 | the bytes others hold are disjoint from every frame a page table leads to |
| `Queues.PlaceSplits` | src/irq.c:41-49 | the place found is behind all keys that are not greater and in front of the first greater one |
| `Irq.Interrupts.IrqAddTask` | src/irq.c:33-50 | the new task goes behind all tasks of its priority and keeps the queue sorted |
| `Irq.Interrupts.FirstGreater` | src/irq.c:41-48 | the loop finds the node to insert in front of |
| `Irq.Interrupts.DoIrq` | src/irq.c:52-89 | for interrupts arriving before the queue is first looked at, during handlers and after them: every handler caused by an interrupt, or waiting in front of the running one, is started exactly once; the call stack is as before; the outermost call returns with an empty queue |
| `Irq.Interrupts.Dispatch` | src/irq.c:72-88 | the dispatch loop stops exactly when the queue is empty or its head is running, and has started the tasks that waited in the order of the queue, each with its own handler, whatever interrupts arrive meanwhile |
| `Irq.InTurnTrans` | src/irq.c:52-89 | starting in the order of the queue carries over from one stretch of a run to the next |
| `Irq.WorkParts` | src/irq.c:52-89 | the work of an interrupt is its own handler and the work of every interrupt that arrives before, during and after it |
| `Irq.Interrupts.FreeHead` | src/irq.c:84-86 | when a handler returns its task is at the head of the queue |
| `Irq.Interrupts.CallsNested` | src/irq.c:72-88 | the running tasks in queue order are the call stack, innermost first, with strictly increasing priority numbers |
| `Irq.Interrupts.HeadIsMostUrgent` | src/irq.c:73-76 | what is dispatched next is as urgent as anything queued |
| `RoundRobin.EveryTaskOnce` | src/sched.c:39-70 | between two consecutive dispatches of a task every other task present throughout is dispatched exactly once |
| `RoundRobin.WaitIsBounded` | src/sched.c:39-48 | a task waits for those in front of it and at most for those created meanwhile |
| `RoundRobin.PassesOn` | src/sched.c:39-48 | an operation other than a creation keeps the processor if and only if no other task is left on the queue |
| `RoundRobin.ZombieIffEnded` | src/sched.c:98-108 | after any run a task is a zombie if and only if it was one, was stopped, or has exited while it ran |
| `RoundRobin.LeavesIffReaped` | src/sched.c:50-62 | a task on the queue leaves it if and only if a turn of idle finds it a zombie |
| `RoundRobin.SurvivesUnlessEnded` | src/sched.c:39-108 | a task that is neither stopped nor exits stays on the queue and no zombie |
| `RoundRobin.CreatedSurvives` | src/sched.c:79-108 | a new task is last on the queue and stays until it is stopped or exits |
| `RoundRobin.RunKeepsOrder` | src/sched.c:39-108 | tasks that stay keep their order, and new ones come behind them |
| `RoundRobin.GoneNeverRuns` | src/sched.c:39-48 | a task that is unlinked and not running is never dispatched again, in any continuation |
| `RoundRobin.ExitedNeverRuns` | src/sched.c:104-108 | a task that has called kthread_exit is never dispatched again if the first operation of idle afterwards, once it comes, is a completed turn |
| `RoundRobin.ExitedForGood` | src/sched.c:64-108 | a run being continued from idle's first operation after a kthread_exit on, no continuation dispatches the task again if and only if that operation was a completed turn |
| `RoundRobin.StoppedRunsAtMostOnce` | src/sched.c:98-102 | a task marked by kthread_stop is dispatched at most once more if the first operation of idle afterwards, once it comes, is a completed turn |
| `RoundRobin.StoppedForGood` | src/sched.c:64-102 | every continuation keeps to that bound if and only if idle's first operation was a completed turn |
| `RoundRobin.PreemptedIdleRevives` | src/irq.c:56-57 | a concrete run in which a preempted idle turn brings an exited task back |
| `RoundRobin.IdleTurnIsLast` | src/sched.c:50-62 | idle unlinks itself if and only if it was stopped; of the others exactly the zombies go |
| `RoundRobin.IdleReapedStops` | src/sched.c:39-48 | once idle has unlinked itself nothing is ever dispatched again |
| `RoundRobin.RunAlive` | src/sched.c:39-108 | while nobody stops idle, it stays on the queue and the running task is linked |
| `RoundRobin.BootWaits` | src/sched.c:72-77 | until the first program is started under idle's identity, nothing changes, whatever interrupts arrive |
| `RoundRobin.AllCanRun` | src/initrd.c:75-85 | from then on any number of tasks can be there at once, and any of them can be running |
| `RoundRobin.LiveDistance` | src/sched.c:50-62 | reaping keeps the circular order and brings no task further away |
| `Sched.Scheduler.Schedule` | src/sched.c:39-48 | switches to the circular successor of the running task, and stays with a task that is no longer linked |
| `Sched.Scheduler.NextTask` | include/list.h:172-175 | list_next_entry_circular, also for a node that is no longer linked |
| `Sched.Scheduler.KillZombies` | src/sched.c:50-62 | unlinks exactly the zombies, keeping the order of the rest |
| `Sched.Scheduler.Sweep` | include/list.h:191-193 | list_for_each_safe visits every task once although the body unlinks the current one |
| `Sched.Scheduler.IdleTurn` | src/sched.c:64-70 | one turn of idle unlinks exactly the zombies and switches to the task behind idle |
| `Sched.Scheduler.KthreadCreate` | src/sched.c:79-96 | a new task with the next number goes to the end of the queue, whoever calls |
| `Sched.Scheduler.FirstExec` | src/initrd.c:75-85 | the shell, running as idle, makes the first task and becomes it |
| `Sched.Scheduler.RunAll` | src/sched.c:39-108 | the code carries out any legal run of the state machine; the zombies afterwards are those it ended, and a task has left the queue if and only if idle has reaped it |
| `Sched.RunFromBoot` | src/sched.c:39-108 | from kthread_init and the first program on, every legal run leads to the state the machine gives, with idle alive unless it was stopped |
| `Sched.Scheduler.KthreadStop` | src/sched.c:98-102 | marks that task and no other, and switches |
| `Sched.Scheduler.KthreadExit` | src/sched.c:104-108 | marks the running task and no other, and switches |
| `Sched.Scheduler.FindTaskByPid` | src/sched.c:21-30 | finds a task exactly if it is on the queue |
| `Timers.RunInv` | src/timer.c:29-76 | over every run the queue is sorted by deadline and age, every timer waits or has fired exactly once, and none has fired before its deadline |
| `Timers.UptimeTicks` | src/timer.c:51-56 | the uptime is the number of whole seconds in the ticks |
| `Timers.AddedTimer` | src/timer.c:58-64 | the timer added is due `after` seconds after the present whole second |
| `Timers.NeverEarlyInTicks` | src/timer.c:37-64 | in every run a timer fires only after more than `after` - 1 seconds of ticks |
| `Timers.DueInTicks` | src/timer.c:37-64 | once `after` seconds of ticks have gone by, the next interrupt fires the timer if it still waits |
| `Timers.FiresInOrder` | src/timer.c:58-76 | of two timers queued together the one due first, or added first if due together, fires first |
| `Timers.DueIsFired` | src/timer.c:37-46 | a timer that is due when the interrupt first looks at the clock is fired by it |
| `Timers.ExpireLeavesNothingDue` | src/timer.c:37-46 | on exit nothing in the queue was due at any reading made |
| `Timers.ExpireFiresFront` | src/timer.c:37-46 | one interrupt fires a prefix of the queue, each timer at the reading that found it due |
| `Timers.TimerQueue.TimerAdd` | src/timer.c:58-76 | the ordered insertion on the linked list is the specified one |
| `Timers.TimerQueue.TimerIrqHandler` | src/timer.c:29-49 | the pop-while-due loop is the specified one |
| `Cpio.HexToI` | src/utils.c:10-21 | the loop computes the positional value in 32 bits, whatever the bytes |
| `Cpio.HexRoundTrip` | src/utils.c:10-21 | upper-case hexadecimal digits are read back |
| `Cpio.HexText` | src/utils.c:10-21 | the text "01A0F9" has the value 0x1A0F9 |
| `Cpio.LowerHexRoundTrip` | src/utils.c:15-18 | a size below 2^31 in lower-case digits is read back if and only if no digit is a letter |
| `Cpio.AlignIsUp` | src/utils.c:30-33 | align rounds up to a multiple of four if and only if the result fits into an int |
| `Initrd.NextHdrIsRight` | src/initrd.c:17-27 | for all sizes below 2^32 the next header is found if and only if both rounded sizes fit into an int |
| `Initrd.HeaderLayout` | include/initrd.h:3-18 | the same with the sizes in eight upper-case digits behind six and eleven fields of struct cpio_t |
| `Initrd.TrailerEnds` | src/initrd.c:19-20 | where the characters TRAILER!!! stand behind a header, the walk ends |
| `Initrd.EntryIsRead` | src/initrd.c:21-26 | at the header of an encoded entry the walk reads its sizes, its name and its data, and comes to the entry behind it |
| `Initrd.WalkVisitsEntries` | src/initrd.c:17-27 | the walk visits exactly the entries of an encoded archive, in order, and stops at its trailer |
| `Initrd.InitrdGetNextHdr` | src/initrd.c:17-27 | the code computes that address |
| `Initrd.InitrdList` | src/initrd.c:29-40 | prints as many lines as there are entries, the i-th being the i-th name |
| `Initrd.MemCmp` | src/string.c:10-20 | zero exactly for equal bytes, else the first difference, without reading the second operand past it |
| `Initrd.StrNCpy` | src/string.c:22-27 | copies the text up to its NUL and writes nothing beyond n bytes |
| `Initrd.CompareStops` | src/initrd.c:52 | comparing a name and its NUL with the target stops at the target's NUL at the latest, and finds them equal only if they are |
| `Initrd.LookupFinds` | src/initrd.c:47-61 | the answer is the data, up to its first NUL, of the first entry of that name, and not found if and only if there is none |
| `Initrd.InitrdCat` | src/initrd.c:42-62 | prints that answer |

## Left out

- Vm.Kernel.RunAll: assumes enough free frames for each operation (callers in the source do not check for null), page-aligned areas below level-2 index 256, no write-only areas, and backing files that never change.
- Vm.Kernel.CopyPageRange: a page entry counts as copied when the child's leaf equals the parent's; the frame taken at level 0 before the entry is overwritten stays allocated and unreachable, as in the source.
- Vm.Kernel.VmMmap: the list of areas is a sequence and struct vm_area_struct takes no slot of a cache; the linked list itself is modelled in the allocator, the scheduler, the interrupt queue and the timer queue.
- Vm.Kernel.DoPageFault: the task is marked; the switch to another task is part of the scheduler module.
- Page-table words are written arithmetically in `Sv39` and `Cow`; module `Words` proves that the shifts, masks and write-bit operations of src/vm.c compute the same numbers.
- Vm.Kernel.MapPages: page-aligned addresses in the user half, which src/vm.c:47 leaves to the caller; overflow of the int counter is undefined in C and modelled as wrap-around.
- Together.System.RunActs: kmalloc by others is limited to a page a call, because a larger one may fail and the source goes on with the null page; larger runs come from alloc_pages, which may find none. Enough free frames are assumed as in RunAll.
- The kernel half of a root table is copied from pg_dir and kept, not walked; a walk through a missing entry reads whatever the bus answers outside the frames, which is an arbitrary function.
- Mm.Allocator.Kmalloc: sizes above 4 MiB and failing page allocations are excluded by its precondition, because the source goes on with the null page.
- Mm.Allocator.MemInit: the array mem_map itself comes from the boot allocator, which is not modelled; the number of pages is any multiple of 1024.
- Sched.Scheduler.KthreadCreate: stacks, registers, address spaces and signal state of a task are not part of the scheduler's model.
- Irq.Interrupts.DoIrq: no interrupt is taken between a test of the queue and the setting of `running` (src/irq.c:72-79, where the source is not protected); the call of `schedule` on a timer interrupt is the step `Yield` of the scheduler's model; queued tasks are numbered instead of drawn from a cache.
- Timers.TimerQueue.TimerIrqHandler: the clock frequency is the emulator's, and no property depends on it; setting and enabling the next timer interrupt are hardware effects; the clock is an input.
- Initrd.InitrdCat: proved for archives written by the encoder; on other memory only the single step is stated, since the walk need not end.
- `align` and the rounding of addresses are written with division instead of masks.
- initrd_exec uses the same walk and lookup; its mapping is one vm_mmap.
- Trap entry, context switch, satp and address-translation fences: translation always follows the current tables.
- Signals, system call dispatch, device tree, UART, firmware calls, frame buffer, printk formatting and the shell.
