# LimineOS: memory stack and scheduler

A Dafny model of the parts of the LimineOS kernel on which everything else stands, with proofs of what they promise.

| component | model | imperative form | theorems |
|---|---|---|---|
| kernel heap (`liballoc`) | `HeapModel.dfy` | `KernelHeap.dfy`, class `Liballoc` over the tags of `TagMemory.dfy` | `HeapSteps.dfy`, `HeapKeepers.dfy`, `HeapOperations.dfy`, `HeapTheorems.dfy`, `HeapNumbers.dfy` |
| physical pages (`pmm`) | `PhysicalPages.dfy` | `PhysicalMemory.dfy`, class `PhysicalAllocator` | `PhysicalPagesProofs.dfy` |
| page tables (`vmm`, `Thread`) | `PageTables.dfy`, `TablePaths.dfy`, `Windows.dfy` | `VirtualMemory.dfy`, class `AddressSpaces` | in the same files, and in `ThreadStart.dfy` |
| scheduler | `RoundRobin.dfy`, `SchedulerModel.dfy` | `Scheduler.dfy`, classes `Thread` and `RunQueue` | in the same files |
| heap and page tables on one page allocator | | `KernelMemory.dfy` | in the same file |
| scheduler under its spin lock | `SchedulerLock.dfy` | a state machine of single reads and writes | in the same file, and in `LockProgress.dfy` |
| `AddThread(Thread*)`, which does not lock | `StrayUnlock.dfy` | the same machine, with calls of threads under way | in the same file, `StrayCalls.dfy` and `LostThread.dfy` |
| hash table, substring removal | | `HashMap.dfy`, `StrRemove.dfy` | in the same files |

Each component whose source changes state in place is a class (or a method over an array) proved to compute the functions of its model; the theorems are about those functions, over all inputs and all histories. `Machine.dfy` holds what all of them share.

**Kernel heap.** A heap is a map from addresses to boundary tags, the regions obtained from the page allocator and the 32 free lists. `HeapModel.Inv` says that the split links tile each region, that the lists hold exactly the blocks whose `index` names them, that every free block is on the list its size asks for, that no two neighbours are free, and that at most five whole regions stand by on each list. `melt_left` enlarges a tag that is still on the list of its old size; `remove_tag` then takes it off. The theorems are about the pair. `HeapNumbers.dfy` says in bytes, pages and list positions which block malloc answers from, what it cuts off and where that goes, and when free gives a region back. In `KernelHeap.dfy` memory is bytes plus the tags that lie whole in it, tied together by the type `TagStore`: at every moment the bytes of each tag are those its fields spell, and any store over part of a tag destroys it. That no tag is ever overwritten is something the proofs establish, not something the model assumes, and `free` tests the magic number in the bytes. The allocator owns a `PhysicalAllocator`, and its invariant says that the heap's regions are exactly page allocations, each of the page count it was obtained with. `KernelMemory.dfy` sets the heap and the page tables side by side on one page allocator, as the kernel has them.

**Page allocator.** `Alloc` answers `None` where the source stops the machine. What a request gets, where the cursor stands and what the counters say are also stated over histories, from the requests and their answers alone.

**Page tables.** A forest of 512-entry tables in page frames, entries being 64-bit numbers with the flag bits of 4-level paging (section 4.5 of the Intel 64 and IA-32 Software Developer's Manual, Volume 3A). The meaning of a root is a flat map from page numbers to entries. `TablePaths.dfy` counts the tables that are missing on the way to a set of pages: `MapPage` and the two builders stop for want of memory exactly when that many one-page allocations in a row do, and leave what those leave.

**Scheduler.** `Schedule` answers the context and the table root it would load. The concurrent model runs `AddThread(entry, is_user)` and the locked part of `Schedule` on any number of processors, one shared read or write at a time, with a compare-and-swap that may fail spuriously; `DeleteCurThread`, which takes no lock, may strike between any two steps. `AddThread(Thread*)` is added to that machine as calls made by the running thread of a processor: such a call goes on only while its thread is the running one, and unless interrupts are off the timer and other threads of the same processor may take turns meanwhile.

## What does not hold

These are properties one might expect. For each there is a lemma with an input on which it fails, and the exact condition under which it holds is proved.

- `alloc` does not find every free run: one that straddles the cursor is missed by both passes. `RunAcrossTheCursorIsMissed` is a history of an eight-page machine, as booted (`EightPagesBoot`), that ends so. `AllocIsNextFit` says exactly when alloc halts, and `MissedRunsStraddle` that nothing else is missed.
- A run that starts at page 0 is answered by a null pointer, which reads as failure (exactly then, `HaltsOnlyForWantOfARunIff`). `PageZeroHalts` boots a machine whose map makes page 0 usable and stops it with seven pages free. `Initialize` leaves exact ownership if and only if page 0 is nobody's to have.
- The bitmap has a bit for every page if and only if the page count is a multiple of 8 or its eighth is not a multiple of 4096 (`BitmapCoversIff`); for 32769 pages it falls short (`BitmapCanFallShort`). `Initialize` requires it.
- `strremove` never goes back over the seam it has made, so it can leave `sub` in the result (`OthersSurvive`). It removes `sub` for good from every string if and only if `sub` is one character repeated (`RemovesForGoodIff`).
- A thread's tables and the kernel's are built in different orders. With the stacks mapped elsewhere they agree on the shared pages if and only if the framebuffer is mapped off the direct map, or where the direct map has it anyway (`BuildersAgreeIff`, in addresses; it fails in `BuildersCanDisagree` and holds in the boot loader's layout, `UsualLayout`).
- `AddThread(Thread*)` writes the queue and stores 0 to the lock without having taken it. It is safe under every schedule if and only if nothing else can take a turn: there is one processor, and interrupts are off during the call (`StrayCallIsSafeIff`). With a second processor every state leads to two processors in the critical section. With interrupts on, one processor alone loses a thread from every state in which nobody is inside (`TheTimerLosesAThread`), and so do two processors just booted (`BootedProcessorsLoseAThread`), although nobody holds the lock at the store. Calls during which nobody else is inside are as good as locked ones (`UndisturbedCallsAreSequential`).
- The lock is not always opened again. It can be if and only if its holder has not been interrupted by the timer, whose `Schedule` then spins for it on the same processor, and is not a `Schedule` on a queue on which no thread can run (`LockComesBackIff`).
- `GetNextThread` recurses for ever exactly when no thread can run (`SearchEndsIff`, `LoneDeadThreadIsSoughtForEver`), and a queue whose `current` is null passes its head over first (`HeadIsPassedOver`).

Two further observations the model keeps as they are: the `Thread` constructor passes the stack's size in bytes where `alloc` takes pages, so each thread reserves 65536 pages (src/sched/task.cpp:23), and it maps five kernel-stack pages where `Scheduler::Initialize` allocates four (src/sched/task.cpp:61, src/sched/scheduler.cpp:162).

## Model

| member | source | states |
|---|---|---|
| PhysicalPagesProofs.LowestRunIsLowest | src/mm/pmm.cpp:95-114 | the search of a range finds the lowest run of `count` clear pages in it, and fails exactly when there is none |
| PhysicalPagesProofs.AllocIsNextFit | src/mm/pmm.cpp:95-136 | with page 0 taken, alloc halts iff no run lies wholly at or above the old cursor or wholly below it; otherwise it takes exactly the lowest run above, or if none the lowest below, and leaves the cursor after it |
| PhysicalPagesProofs.HaltsOnlyForWantOfARunIff | src/mm/pmm.cpp:116-128 | halting means want of a searched run iff the answer is not a run at page 0 |
| PhysicalPagesProofs.RunAcrossTheCursorIsMissed | src/mm/pmm.cpp:118-128 | a history of allocs and matching frees of an eight-page machine after which two pages across the cursor are free and alloc(2) halts |
| PhysicalPagesProofs.MissedRunsStraddle | src/mm/pmm.cpp:118-128 | every free run that a halting alloc has missed lies across the old cursor |
| PhysicalPagesProofs.AllocKeepsOwnership | src/mm/pmm.cpp:95-136 | the pages answered were nobody's, and a bit stays set exactly for reserved pages and pages of live allocations |
| PhysicalPagesProofs.FreeKeepsOwnership | src/mm/pmm.cpp:138-146 | the same after a matching free |
| PhysicalPagesProofs.AllocKeepsRamTotal | src/mm/pmm.cpp:129-133 | usedRam + freeRam is unchanged modulo 2^64, whichever pass answered |
| PhysicalPagesProofs.FreeKeepsRamTotal | src/mm/pmm.cpp:144-145 | usedRam + freeRam is unchanged modulo 2^64 by free |
| PhysicalPagesProofs.EveryHistoryKeepsOwnership | src/mm/pmm.cpp:95-146 | over every history of alloc and matching free: live ranges disjoint, bits exact, counter total constant |
| PhysicalPagesProofs.OnePageIsLowest | src/mm/pmm.cpp:95-136 | while nothing is clear below the cursor, alloc(1) returns the lowest free page of all and halts iff there is none |
| PhysicalPagesProofs.CursorNeverPassesAClearPage | src/mm/pmm.cpp:95-146 | if every alloc is of one page, no history leaves a clear page below the cursor |
| PhysicalPagesProofs.CursorRemembers | src/mm/pmm.cpp:95-146 | after any history the cursor is the lowest of the end of the run answered last and the first pages given back since: a function of the requests and answers alone |
| PhysicalPagesProofs.GivesLowerTheCursor | src/mm/pmm.cpp:138-146 | while nothing is answered, the cursor is the lowest of where it was and the first pages given back |
| PhysicalPagesProofs.NextAnswer | src/mm/pmm.cpp:95-136 | so a history and its answers decide which run the next request gets: the lowest at or above that cursor, or else the lowest below it |
| PhysicalPagesProofs.CountersCount | src/mm/pmm.cpp:118-146 | over any history usedRam is up by 4096 times the pages that second passes answered less the pages freed, modulo 2^64, and freeRam is down by as much |
| PhysicalMemory.WriteBit | src/mm/pmm.cpp:27-44 | writing one bit of a byte changes that bit, as read back, and none of the other seven |
| PhysicalMemory.UnpackUpdate | src/mm/pmm.cpp:27-44 | the packed bitmap with one byte written is the bit sequence with one bit written |
| PhysicalMemory.SetBit | src/mm/pmm.cpp:27-35 | Set updates exactly one bit of the unpacked bitmap |
| PhysicalMemory.GetBit | src/mm/pmm.cpp:37-44 | Get reads that bit |
| PhysicalMemory.BitmapCoversIff | src/mm/pmm.cpp:64 | the bitmap has a bit for every page iff the page count is a multiple of 8 or the rounding up made up for it |
| PhysicalMemory.BitmapCanFallShort | src/mm/pmm.cpp:64 | for 32769 pages there are 32768 bits |
| PhysicalMemory.EightPagesBoot | src/mm/pmm.cpp:47-93 | a memory map with pages 1 to 7 usable boots into the state of the missed run's history |
| PhysicalMemory.PageZeroHalts | src/mm/pmm.cpp:47-127 | booted from a map that makes page 0 usable as well, the machine halts on its first request for one page with seven pages free |
| PhysicalMemory.BootLeavesOwnershipIff | src/mm/pmm.cpp:82-90 | the bits that Initialize leaves are an exact record of owners iff page 0 is not among the usable pages |
| PhysicalMemory.PageZeroIsReserved | src/mm/pmm.cpp:66-80 | so it is where every usable entry begins above page 0 |
| PhysicalMemory.Survey | src/mm/pmm.cpp:53-62 | the top of usable memory, and its size modulo 2^64 |
| PhysicalMemory.Carve | src/mm/pmm.cpp:66-80 | the bitmap comes off the front of the first usable entry with room, and off no other |
| PhysicalMemory.ReleaseUsable | src/mm/pmm.cpp:82-90 | afterwards clear are exactly the pages of the usable entries, and their bytes are the entries' |
| PhysicalMemory.FreeRamIsExact | src/mm/pmm.cpp:58-77 | freeRam, computed modulo 2^64, is 4096 times the number of clear bits |
| PhysicalMemory.BootReservesTheBitmap | src/mm/pmm.cpp:70-78 | no page of the bitmap itself is among the usable pages that remain |
| PhysicalMemory.PhysicalAllocator.Initialize | src/mm/pmm.cpp:47-93 | exactly the usable entries less the bitmap are clear, freeRam counts them, the bitmap's pages are reserved for good; ownership is exact, with nothing live, iff page 0 is reserved; no address is above 2^63 |
| PhysicalMemory.PhysicalAllocator.Scan | src/mm/pmm.cpp:99-112 | the counting loop ends right after the lowest run of its range, or at the limit if there is none |
| PhysicalMemory.PhysicalAllocator.InnerAlloc | src/mm/pmm.cpp:95-114 | one pass computes Search: the run's pages are marked, nothing else changes |
| PhysicalMemory.PhysicalAllocator.Alloc | src/mm/pmm.cpp:116-136 | the class computes PhysicalPages.Alloc on its packed bitmap and records the new owner |
| PhysicalMemory.PhysicalAllocator.Free | src/mm/pmm.cpp:138-146 | the class computes PhysicalPages.Free, whose cursor and counters CursorRemembers and CountersCount pin, and forgets exactly that owner |
| HeapSteps.BucketBounds | src/mm/liballoc.cpp:46-70 | the list for a size is its exponent, 2^i <= size < 2^(i+1), and list 8 for anything below 256 |
| HeapOperations.FirstFitIsFirst | src/mm/liballoc.cpp:308-323 | the search answers the first block of the list with room for the request and a further tag, and none iff none has |
| HeapOperations.MallocKeepsInv | src/mm/liballoc.cpp:283-392 | malloc of any admissible size keeps the whole invariant and its answer is live |
| HeapOperations.MallocAllocates | src/mm/liballoc.cpp:283-392 | malloc's answer was not allocated before, and no other allocation moves or changes size |
| HeapOperations.TrimKeepsStandby | src/mm/liballoc.cpp:355-375 | the tail split off is never a whole region, so no standby count changes |
| HeapOperations.MeltLeftKeepsStandby | src/mm/liballoc.cpp:424-432 | merging left changes the set of standby regions of no list, although no code adjusts the counts there |
| HeapOperations.MeltRightKeepsStandby | src/mm/liballoc.cpp:434-441 | nor does merging right |
| HeapOperations.MergeIsMaximal | src/mm/liballoc.cpp:424-441 | after one turn of each loop neither neighbour is free: the block is as large as it can be |
| HeapOperations.FreeKeepsInv | src/mm/liballoc.cpp:398-488 | free of any live block keeps the whole invariant |
| HeapOperations.FreeReleases | src/mm/liballoc.cpp:398-488 | free takes exactly its argument off the allocations |
| HeapTheorems.RegionsAreTiledExactly | src/mm/liballoc.cpp:179-231 | the split chain from a region's base visits every block of the region once, each ending where the next begins, links mutually inverse, sizes summing to 4096 * pages |
| HeapTheorems.PayloadsAndHeadersAreApart | src/mm/liballoc.cpp:283-392 | a payload lies in one region, within real_size - 48, off every header and off every other payload |
| HeapTheorems.FreeBlocksSuitTheirLists | src/mm/liballoc.cpp:143-164 | a block on list i has room from 2^i up to 2^(i+1), list 8 taking smaller ones too |
| HeapTheorems.FreeReturnsExactly | src/mm/liballoc.cpp:444-470 | free returns a region by the base and page count it was obtained with, or returns none |
| HeapTheorems.EveryCallIsServed | src/mm/liballoc.cpp:283-534 | every permitted call is a call on a finite map from live blocks to sizes, and keeps the invariant |
| HeapTheorems.ReallocIsServed | src/mm/liballoc.cpp:509-534 | realloc replaces one allocation by a fresh one of the new size, and touches no other |
| HeapTheorems.FirstRequestIsServed | src/mm/liballoc.cpp:283-392 | from the empty heap every admissible request is served, so the states the theorems speak of exist |
| HeapTheorems.EveryHistoryKeepsInv | src/mm/liballoc.cpp:283-534 | over every history of malloc, free and realloc the invariant holds and the live blocks are those the calls ask for |
| HeapNumbers.MallocServes | src/mm/liballoc.cpp:283-392 | malloc answers with the first block on the list for the size that has size + 96 bytes, or with a new region of the fewest pages, at least 16; of R bytes it keeps size + 48 if R >= size + 352, the other R - 48 - size then being a block at the head of the list for R - 96 - size, and otherwise all |
| HeapNumbers.PagesAreFewest | src/mm/liballoc.cpp:243-250 | a new region has the fewest pages that hold the request and its tag, and never fewer than 16 |
| HeapNumbers.WholeIffLast | src/mm/liballoc.cpp:444-449 | the merged block is its whole region iff the block freed was the last of the region in use |
| HeapNumbers.FreeKeepsOrReturns | src/mm/liballoc.cpp:398-488 | while others of the region are in use free keeps every region; else it gives this one back iff five whole regions stand by on the list for 4096 * pages - 48 bytes, and otherwise it stands by as one block at the head of that list, one more than before |
| HeapNumbers.SettleSettles | src/mm/liballoc.cpp:444-480 | the same of the merged block alone: back with its region iff it is whole and five stand by, and otherwise at the head of the list for its room |
| TagMemory.InsertKeepsShape | src/mm/liballoc.cpp:143-164 | the stores of insert_tag put the block at the head of a doubly linked list and leave the other 31 lists threaded |
| TagMemory.RemoveKeepsShape | src/mm/liballoc.cpp:166-176 | the stores of remove_tag unthread the block from its list, wherever it stands in it, and from no other |
| TagMemory.JoinKeepsShape | src/mm/liballoc.cpp:179-189 | the stores of melt_left keep tiling and lists, with the left block still on its list |
| TagMemory.CutKeepsShape | src/mm/liballoc.cpp:207-226 | the stores of split_tag before it inserts keep tiling and lists |
| TagMemory.PayloadIsOffHeaders | src/mm/liballoc.cpp:379 | no byte of a live block's payload is a byte of any tag |
| TagMemory.TagReadsBack | src/include/mm/liballoc.h:37-49 | a tag in memory is the tag that its 48 bytes spell, field by field, if its fields fit their widths |
| TagMemory.MagicReadsBack | src/mm/liballoc.cpp:410 | the first word before a tag's payload reads as the magic number |
| KernelHeap.GetExp | src/mm/liballoc.cpp:46-70 | the shifting loop computes the exponent, -1 below 256 |
| KernelHeap.NewPagesAreANewRegion | src/include/mm/liballoc.h:84-87 | pages nobody owned form a region that overlaps none the heap has |
| KernelHeap.Liballoc.InsertTag | src/mm/liballoc.cpp:143-164 | the class method computes Put in the tags |
| KernelHeap.Liballoc.RemoveTag | src/mm/liballoc.cpp:166-176 | the class method computes Take in the tags |
| KernelHeap.Liballoc.MeltLeft | src/mm/liballoc.cpp:179-189 | the class method computes Join with the left neighbour |
| KernelHeap.Liballoc.AbsorbRight | src/mm/liballoc.cpp:192-205 | the class method computes Take and Join with the right neighbour |
| KernelHeap.Liballoc.SplitTag | src/mm/liballoc.cpp:207-231 | the class method computes Cut and Put of the tail |
| KernelHeap.Liballoc.AllocateNewTag | src/mm/liballoc.cpp:239-279 | a new region is a fresh page allocation of the computed page count, or nothing when the page allocator halts |
| KernelHeap.Liballoc.FindFit | src/mm/liballoc.cpp:308-323 | the walk along next finds the model's choice |
| KernelHeap.Liballoc.Malloc | src/mm/liballoc.cpp:283-392 | computes HeapModel.Malloc and serves as MallocServes says; fails iff no block fits and the page allocator halts, and takes of it what one alloc takes; a new region's pages were nobody's; keeps tags, lists, standby counts and page ownership; changes no byte of a live payload |
| KernelHeap.Liballoc.MeltLeftLoop | src/mm/liballoc.cpp:424-432 | the loop makes at most one turn |
| KernelHeap.Liballoc.MeltRightLoop | src/mm/liballoc.cpp:434-441 | the loop makes at most one turn |
| KernelHeap.Liballoc.SettleBlock | src/mm/liballoc.cpp:444-480 | the block goes to the head of the list for its room, or its region to the page allocator iff it is whole and five stand by; the counts stay exact |
| KernelHeap.Liballoc.Free | src/mm/liballoc.cpp:398-488 | computes HeapModel.Free on live pointers, keeps or returns the region as FreeKeepsOrReturns says, and gives back exactly its pages; does nothing for null or where the four bytes are not the magic number; changes no byte of any other payload |
| KernelHeap.Liballoc.MemCopy | src/mm/liballoc.cpp:82-105 | words then bytes: every byte of the range is copied and none outside it changes |
| KernelHeap.Liballoc.Realloc | src/mm/liballoc.cpp:509-534 | the block answered begins with the first min(old, new) bytes of the old one, every other payload is as it was, and the pages taken and given back are those of the two calls inside; it fails iff the malloc inside it does |
| KernelMemory.TablesAreOffTheHeap | src/mm/vmm.cpp:41-69 | with heap and page tables on one page allocator, no table frame lies in a region of the heap |
| KernelHeap.MallocLeavesOthers | src/include/mm/liballoc.h:84-87 | the page allocations that are no region of the heap are after malloc what they were |
| KernelHeap.FreeLeavesOthers | src/include/mm/liballoc.h:97-101 | .. and after free, which keeps back none of the pages of a region it gives up |
| KernelHeap.ReallocLeavesOthers | src/mm/liballoc.cpp:509-534 | .. and after realloc |
| KernelMemory.Malloc | src/include/mm/liballoc.h:84-87 | malloc leaves every address space, the validity of all tables, and every page allocation that is not the heap's, as it was; it fails iff no block fits and the page allocator halts |
| KernelMemory.Free | src/include/mm/liballoc.h:97-101 | so does free, even when it returns a region |
| KernelMemory.Realloc | src/mm/liballoc.cpp:509-534 | so does realloc, also where it is malloc, free or nothing; it fails iff the malloc inside it does |
| KernelMemory.MapPage | src/mm/vmm.cpp:32-74 | mapping a page, and the tables it makes for it, leave the heap valid and as it was; it fails iff the missing tables cannot be had |
| KernelMemory.NewThread | src/sched/scheduler.cpp:18 | new Thread adds one allocation to the heap and one address space, with its stack, to the tables, and disturbs no other of either; it fails iff malloc, the stack or the tables cannot be had, in this order |
| PageTables.SamePageSameIndices | src/mm/vmm.cpp:36-39 | two addresses have the same four indices iff they are in the same page |
| PageTables.TableEntry | src/mm/vmm.cpp:45-49 | a frame survives being or-ed with the table flags and masked again |
| PageTables.BitOrBits | src/mm/vmm.cpp:73 | a bit of the entry is set iff it is in the address or in the flags |
| PageTables.InnerEntries | src/mm/vmm.cpp:45 | every table above the last points to its tables by their address with the three lowest bits set, and with no other |
| PageTables.RightsAreTheLeafs | src/mm/vmm.cpp:45 | the processor may read, write, or let user code at a page, by the conjunction of the bits on its way, iff the last entry says so |
| PageTables.HangKeepsForest | src/mm/vmm.cpp:41-47 | a zeroed fresh table on an empty slot keeps the tables trees of pairwise distinct frames |
| PageTables.HangKeepsFlat | src/mm/vmm.cpp:41-47 | .. and changes no translation of any address space, those under the new table included |
| PageTables.LeafWalks | src/mm/vmm.cpp:71-73 | the final store changes the walks that end in its slot and no others |
| PageTables.OneWayToATable | src/mm/vmm.cpp:49-72 | two walks that meet in a last table began at the same root and took the same indices |
| PageTables.LeafUpdatesFlat | src/mm/vmm.cpp:71-73 | the final store is an update of one address space's flat map at one key |
| PageTables.FlatIsTheWalk | src/mm/vmm.cpp:36-73 | the flat map says for a page what the four-level walk says for each address in it |
| PageTables.NewRootFlat | src/sched/task.cpp:28-30 | a zeroed root maps nothing and disturbs no other address space |
| TablePaths.HangReached | src/mm/vmm.cpp:41-47 | a new table is reached by the indices that lead to its slot, and by no others, and no other table is |
| TablePaths.OnePath | src/mm/vmm.cpp:49-72 | no table of an address space is reached by two different ways |
| TablePaths.SupplyOne | src/mm/vmm.cpp:41-43 | one table is supplied by one allocation of one page, or by none if it is there |
| TablePaths.SupplyBoth | src/mm/vmm.cpp:41-69 | supplying two sets of tables one after the other takes the allocations that supplying both takes: what they share is allocated once |
| VirtualMemory.AddressSpaces.Follow | src/mm/vmm.cpp:41-50 | one level down, making a zeroed table iff the slot is empty; None iff the slot is empty and alloc(1) halts; no translation changes |
| VirtualMemory.AddressSpaces.Arrive | src/mm/vmm.cpp:41-72 | the three steps come to the last table on the way iff the page allocator has one page for each of the 0 to 3 tables missing |
| VirtualMemory.AddressSpaces.MapPage | src/mm/vmm.cpp:32-74 | the flat map of the root is updated at the page of vaddr with paddr or flags, and no other page of any address space changes; it fails iff as many one-page allocs in a row halt as tables are missing on vaddr's way, and otherwise leaves what they leave |
| VirtualMemory.AddressSpaces.MapRange | src/mm/vmm.cpp:96-97 | a mapping loop updates the flat map window by window, in order; it fails iff the tables missing on the ways to its pages, each counted once, cannot be had |
| VirtualMemory.AddressSpaces.MapThread | src/sched/task.cpp:34-62 | the five loops of the constructor fail iff the tables of all five together cannot be had |
| VirtualMemory.AddressSpaces.NewStack | src/sched/task.cpp:23 | the stack is an allocation of 65536 pages, and fails iff alloc does |
| VirtualMemory.AddressSpaces.Initialize | src/mm/vmm.cpp:86-131 | kernelDir is kernel, direct map, framebuffer, the later over the earlier; None iff there is no framebuffer or the root and the tables on the ways to all those pages cannot be had |
| VirtualMemory.AddressSpaces.NewThreadSpace | src/sched/task.cpp:23-62 | a thread's tables are kernel, framebuffer, stack, direct map, kernel stack, the later over the earlier, in frames of their own; None iff the stack's pages, the root or the tables cannot be had |
| Windows.MapWindowAt | src/mm/vmm.cpp:96-103 | after a mapping loop a page translates as its window says, or as before |
| Windows.WindowTranslates | src/mm/vmm.cpp:96-103 | a loop no longer than the address space sends each page of its range to its own offset |
| Windows.SpacesAt | src/sched/task.cpp:34-62 | each builder page by page: the last loop that covers a page decides |
| Windows.MeetIff | src/mm/vmm.cpp:96-103 | two mapping loops write a common page iff their address ranges overlap, round the address space |
| Windows.StacksApartIff | src/sched/task.cpp:55-62 | the thread's stacks hide no shared page iff six pairs of address ranges do not overlap |
| Windows.ScreenAgreesIff | src/sched/task.cpp:52-59 | framebuffer window and direct map agree page by page iff they do not overlap or the one lies in the other at the framebuffer's own offset |
| Windows.BuildersAgreeIff | src/sched/task.cpp:34-62 | the two builders agree on every shared page iff the framebuffer is mapped off the direct map or where the direct map has it anyway |
| Windows.UsualLayout | src/mm/vmm.cpp:95-128 | in the boot loader's layout the address conditions hold |
| Windows.BuildersCanDisagree | src/sched/task.cpp:52-59 | a framebuffer address for which the two builders disagree |
| Windows.StackPageLeads | src/sched/task.cpp:55-59 | page k of the 16 from 0xffffa00000000000 on has the entry stackAddr + 4096 * k + 7 iff the direct map does not cover it |
| Windows.StackLeadsIff | src/sched/task.cpp:55-59 | so the whole stack is mapped to its memory, writable and open to user code, iff the direct map lies elsewhere |
| Windows.KernelStackPageLeads | src/sched/task.cpp:61-62 | page k of the five from 0xffffd00000000000 on has the entry kstack + 4096 * k + 3, whatever else is mapped |
| Windows.DirectPageLeads | src/sched/task.cpp:58-59 | page k below 4 GiB has the entry 4096 * k + 3 at the offset, in the kernel's tables and every thread's, off the framebuffer and the kernel stack |
| Windows.ImagePageLeads | src/mm/vmm.cpp:96-97 | page k of the kernel image has the entry of its own physical page, present and writable, off everything else |
| Windows.ScreenPageLeads | src/mm/vmm.cpp:127-128 | page k of the framebuffer has in the kernel's tables the entry of its own physical page, whatever else is mapped |
| ThreadStart.StackLeads | src/sched/task.cpp:55-56 | in a thread's own tables every address of its stack leads to its place in the stack's memory, and every level of the way lets user code write |
| ThreadStart.FirstPushLands | src/sched/task.cpp:20-56 | the first push from the context the constructor builds goes to the last of the 16 pages mapped, writable by user code |
| ThreadStart.StackHoldsNoTable | src/sched/task.cpp:23-56 | no page that user code can write as its stack is a page table of any address space |
| ThreadStart.KernelStackLeads | src/sched/task.cpp:61-62 | every address of the kernel stack leads to its place there, and some level of the way keeps user code out |
| ThreadStart.LowMemoryLeads | src/sched/task.cpp:58-59 | in a thread's tables each physical page below 4 GiB is at the offset, closed to user code |
| VirtualMemory.ThreadsSeeTheKernel | src/sched/task.cpp:34-62 | under the same address conditions every thread's walk of a kernel-image, framebuffer or direct-map address is the kernel's walk |
| VirtualMemory.ThreadsSeeTheKernelAsBooted | src/sched/task.cpp:34-62 | so it is in the boot loader's layout |
| RoundRobin.RingIsComplete | src/sched/scheduler.cpp:65-95 | one round after any position meets exactly the threads that can run |
| RoundRobin.NextIsNearest | src/sched/scheduler.cpp:80-92 | nobody who can run stands between a position and the one dispatched from it |
| RoundRobin.NextStep | src/sched/scheduler.cpp:80-94 | one turn of GetNextThread answers, or asks the same question one link on |
| RoundRobin.TurnsShrink | src/sched/scheduler.cpp:91-92 | the recursion ends: the cyclic distance to the next runnable thread falls |
| RoundRobin.SearchEndsIff | src/sched/scheduler.cpp:80-94 | taken turn by turn, the recursion comes to an end after some number of turns iff a thread can run, and then within one round, with the next such thread |
| RoundRobin.LoneDeadThreadIsSoughtForEver | src/sched/scheduler.cpp:91-92 | with one thread that cannot run no number of turns is enough |
| RoundRobin.RingTurns | src/sched/scheduler.cpp:65-95 | after a dispatch the thread dispatched is the last of the round |
| RoundRobin.RoundRobinIsFair | src/sched/scheduler.cpp:65-95 | with r runnable threads, r calls in a row answer each exactly once, in cyclic order after the current one |
| SchedulerModel.DispatchByTurns | src/sched/scheduler.cpp:65-95 | moving current link by link comes to the next runnable thread |
| SchedulerModel.EveryRoundIsFair | src/sched/scheduler.cpp:65-95 | on a queue with r runnable threads, r dispatches in a row take each exactly once, in queue order from the current one |
| SchedulerModel.HeadIsPassedOver | src/sched/scheduler.cpp:74-84 | the first dispatch of all takes the second thread, if it can run, and not the head |
| SchedulerModel.ContextsSurvive | src/sched/scheduler.cpp:103-104 | in every reachable state a thread's context is the one it was last preempted with, or its constructor's |
| SchedulerModel.EveryLoadIsTheLastSave | src/sched/scheduler.cpp:97-141 | over any run, the context loaded is the one last saved for that thread, or its constructor's, and the table root loaded is the one the thread was added with |
| SchedulerModel.NextInLine | src/sched/scheduler.cpp:65-108 | over any run, a dispatch takes the first thread that can run behind the one dispatched before, whatever was added or deleted in between |
| SchedulerModel.ThreadsStay | src/sched/scheduler.cpp:14-147 | in every reachable state the pids are 0, 1, 2 and so on in queue order, each thread has the table root it was added with, and all can run but those that deleted themselves |
| SchedulerModel.InitialContextStarts | src/sched/task.cpp:16-21 | the first context has the entry, ring 3 selectors for user threads and ring 0 ones for kernel threads, interrupts on, the top of the 16 stack pages, and nothing in any other register |
| SchedulerModel.DeletedIsNeverDispatched | src/sched/scheduler.cpp:91-147 | a thread marked not runnable is never dispatched again |
| Scheduler.Thread.constructor | src/sched/task.cpp:16-21 | the initial context, register by register and selector by selector, and a thread that can run and has no successor |
| Scheduler.RunQueue.Enqueue | src/sched/scheduler.cpp:19-30 | the thread becomes the last of the linked queue with the next pid |
| Scheduler.RunQueue.AddThread | src/sched/scheduler.cpp:14-39 | a new thread at the end of the queue, nothing else changed |
| Scheduler.RunQueue.Step | src/sched/scheduler.cpp:74-89 | current moves to its successor, the head passed over when current was null |
| Scheduler.RunQueue.GetNextThread | src/sched/scheduler.cpp:65-95 | ends, and computes Dispatch on the linked queue |
| Scheduler.RunQueue.Schedule | src/sched/scheduler.cpp:97-141 | saves, dispatches, and answers the context and root of the thread dispatched |
| Scheduler.RunQueue.DeleteCurThread | src/sched/scheduler.cpp:143-147 | clears the flag of the current thread only |
| SchedulerLock.StepKeepsExclusive | src/include/cpu/spinlock.h:8-14 | no single step of any processor puts two in the critical section |
| SchedulerLock.AddStep | src/sched/scheduler.cpp:18-30 | every single write of AddThread finds the object or tail it writes to and takes the half-added queue exactly one step further |
| SchedulerLock.EveryProcessorCanStep | src/sched/scheduler.cpp:14-108 | in every state the invariant allows each processor has a next step: none stands before a null or dangling pointer |
| SchedulerLock.HalfScheduledStep | src/sched/scheduler.cpp:65-106 | every single read or write of the search keeps the answer it is going to give |
| SchedulerLock.DeleteStep | src/sched/scheduler.cpp:143-147 | the unlocked delete is harmless at any point of another processor's operation |
| SchedulerLock.EveryStepKeepsInv | src/sched/scheduler.cpp:14-108 | every enabled step of every processor keeps the invariant |
| SchedulerLock.EveryRunKeepsInv | src/sched/scheduler.cpp:14-108 | so does every run |
| SchedulerLock.LockedSchedulerIsSequential | src/sched/scheduler.cpp:14-108 | at most one processor is in the critical section, and whenever the lock is free memory holds exactly the queue that the completed operations lead to in lock order, pids distinct and rising |
| LockProgress.HolderFinishes | src/sched/scheduler.cpp:14-108 | wherever in the critical section its holder stands, left to itself it completes its operation, and nothing but it, and opens the lock |
| LockProgress.OperationCompletes | src/sched/scheduler.cpp:14-108 | an idle processor that finds the lock open can take it and complete the whole of an operation |
| LockProgress.LockComesBackIff | src/include/cpu/spinlock.h:8-14 | from any state in which the lock is held some schedule opens it again iff the holder is not interrupted by the timer and is not searching a queue on which nobody can run |
| StrayUnlock.LockedStep | src/sched/scheduler.cpp:41-63 | what a step of the call writes is what the locked function would write |
| StrayUnlock.StepKeepsPeace | src/sched/scheduler.cpp:41-63 | every step of AddThread(Thread*), and of processors, other threads and the timer meanwhile, keeps the invariant as long as only one is inside |
| StrayUnlock.UndisturbedCallsAreSequential | src/sched/scheduler.cpp:41-63 | a run in which at each moment only one is inside, the critical section of a processor or a thread's call, leaves exactly the sequential queue |
| StrayCalls.CallEnds | src/sched/scheduler.cpp:41-63 | left to itself a call comes to its end and opens the lock, whoever is inside |
| LostThread.UntilBack | src/sched/scheduler.cpp:65-108 | tick by tick, each a complete locked Schedule, any thread that can run is dispatched again |
| LostThread.AThreadIsLost | src/sched/scheduler.cpp:43-60 | wherever nobody is inside and another thread can get to run, a call can drop a thread from the chain: it is counted and not reached, and two threads have one pid, the lock being free at the final store |
| LostThread.TheTimerLosesAThread | src/sched/scheduler.cpp:41-63 | on one processor with interrupts on such a run exists from every state in which nobody is inside |
| LostThread.BootedProcessorsLoseAThread | src/sched/scheduler.cpp:41-63 | .. and on two processors just booted, interrupts off or on |
| LostThread.StrayCallIsSafeIff | src/sched/scheduler.cpp:41-63 | from a state in which c is idle every schedule with calls of c's threads is exclusive and sequential iff c is the only processor and interrupts are off during the calls |
| HashMap.HashIsRemainder | lib/hash.h:42-49 | the bucket is the remainder of the key as an unsigned 64-bit number |
| HashMap.MapsIff | lib/hash.h:86-103 | a key is in the map iff its own bucket has it |
| HashMap.MapsAppend | lib/hash.h:73-81 | a node at the end of its bucket adds one binding to the map |
| HashMap.MapsWithout | lib/hash.h:120-130 | unlinking a node removes its binding and no other |
| HashMap.UnorderedMap.Locate | lib/hash.h:63-71 | the walk finds the key's node and the one before it, or the end of a chain without the key |
| HashMap.UnorderedMap.Put | lib/hash.h:61-84 | the finite map is updated at one key; chains stay acyclic and disjoint with each key once, in its bucket |
| HashMap.UnorderedMap.Get | lib/hash.h:86-103 | the map's value, or none iff the key is absent |
| HashMap.UnorderedMap.Remove | lib/hash.h:105-131 | the finite map loses exactly that key |
| StrRemove.FindIsLeftmost | src/include/util.h:85-96 | the leftmost occurrence from a position on, or none |
| StrRemove.StrLen | src/include/util.h:60-66 | the length up to the terminator |
| StrRemove.Compare | src/include/util.h:69-82 | true iff Y is a prefix of X |
| StrRemove.StrStr | src/include/util.h:85-96 | the address of the leftmost occurrence, or null |
| StrRemove.MoveDown | src/include/util.h:98-109 | an overlapping move to a lower address copies what was there before, and nothing else changes |
| StrRemove.CloseUp | src/fs/initrd.cpp:19 | the occurrence goes and the rest of the string with its terminator closes up |
| StrRemove.Remove | src/fs/initrd.cpp:12-22 | ends with the leftmost non-overlapping occurrences deleted, the buffer behind the old end untouched |
| StrRemove.RemovesForGoodIff | src/fs/initrd.cpp:17-19 | no occurrence is left, for every string, iff sub is one character repeated |
| StrRemove.OthersSurvive | src/fs/initrd.cpp:17-19 | for any other sub, a string whose result is sub itself |
| StrRemove.RemovedIsAround | src/fs/initrd.cpp:17-19 | for every sub and string the result is what stands around a sequence of occurrences, each the leftmost behind the one before |
| StrRemove.PlacesAreOne | src/fs/initrd.cpp:17-19 | there is only one such sequence |

## Left out

- Requests above `MAX_REQUEST` (0x7FFFEFD0 bytes): up to there no 32-bit field of a tag reaches 2^31; beyond it they would wrap.
- `calloc`, whose product is an `int`; and double free, or any other pointer to no live block that the magic number happens to precede: outside the contracts of `Malloc` and `Free`.
- What happens after memory runs out: the source stops the machine, the model answers `None` and says nothing of the state then. `liballoc_alloc` adds the direct-map offset before `allocate_new_tag` tests for null, so malloc itself never answers null.
- `liballoc_lock` and `liballoc_unlock` do nothing in the source; concurrent calls of the heap are not modelled.
- The conditional zeroing in `alloc` (src/mm/pmm.cpp:129): the heap's model takes fresh pages with any content, and the tables of the page-table model are zeroed by their own code.
- `usedRam` and `freeRam` as the number of pages in use: only the second pass of `alloc` updates them, so they count what `CountersCount` says and no more.
- A memory map that overlaps, is not page-aligned or reaches 2^63: `Initialize` requires otherwise, and requires an entry with room for the bitmap.
- Addresses are mathematical integers in the heap; the direct-map window is one constant offset from physical memory.
- The page-table model addresses a table by its frame, where the source reaches it through the direct map. Large pages, accessed and dirty bits, and the translation cache are left out.
- The `Thread` constructor's user-visible fields other than context, table root, pid and run flag; `GetCurCPU()->kstack`; ELF loading.
- Only processor 0's queue ever receives threads, because `curCpuCore` never changes; other processors run `Schedule` on empty queues.
- The lock model is sequentially consistent. An interrupt on the processor that holds the lock appears only in `LockComesBackIff`; the runs of the other theorems have none. Nested interrupts are left out. The read of the chosen thread's context after the unlock (src/sched/scheduler.cpp:110-140) is part of the sequential model only.
- In the concurrent models the test of `head` and its setting are one step; in the locked function so are the reading of `tail` and the writing to it.
- A call of `AddThread(Thread*)` keeps the thread object's context and table root as it found them; that a thread deletes itself during its own call is left out.
- The hash table's memory is not reclaimed in the model; the number of buckets is a constructor argument instead of a template parameter.
- `memmove` towards higher addresses: `strremove` never moves up.
- Port and register access, interrupt controllers, timers, disks, screen and font output, GDT/IDT/TSS packing, VFS, initrd image format, `std::vector`: hardware, or members that would add nothing harder.
