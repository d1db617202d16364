# A verified model of the LK kernel's core

This project models, in Dafny, the parts of the LK kernel in which state is shared, moved or shaped by algorithms that
are easy to get subtly wrong, and proves what they are for.

* `Pmm`, `MmuTree`, `MmuTidy`, `MmuCount`, `MmuBlocks`, `Mmu`, `MmuNeat`, `MmuPages`, `Regions`, `Vmm`: physical page arenas, the
  ARM64 translation tables as a radix tree of any depth with block and page leaves, the region list of an address space,
  and the allocator on top of them. The tables are compared with the flat map from virtual to physical addresses that a
  walk defines. Which table pages a mapping takes is worked out from the tables before it (`MmuCount`, `MmuPages`), so each
  status is an equation; a range is mapped by the largest leaves that alignment and block size allow (`MmuBlocks`); no
  table without a mapping stays linked (`MmuTidy`, `MmuNeat`), so a failed allocation leaves
  tables and free pages exactly as they were.
* `Sched`, `Kernel`, `SchedLaws`: the scheduler as a step system under `thread_lock` (`Sched`), the routines of
  `kernel/thread.c` as methods that each make exactly one of its steps (`Kernel`), and what each step does, told by the
  states before and after it (`SchedLaws`).
* `Waiters`, `Effects`: one wait queue seen by the object that owns it, and how every scheduler step acts on it.
* `Mutexes`, `Semaphores`, `Events`, `Ports`: the objects built on wait queues. A blocking call is two steps, going to
  sleep and running again; a timeout is a third actor. Each class calls the methods of `Kernel.Scheduler`, each of its
  methods is proved to make one step of the object's own step system, and the results about whole runs are proved about
  that system for every interleaving, in terms of the codes that the calls return.
* `Timers`: the timer queue, with callbacks that may set and cancel timers while a tick runs.
* `Bcache`, `Bio`: the write-back block cache, and byte access to block devices through nested windows.
* `Rings`, `Cbuf`, `Init`: ring buffers read as sequences, the circular byte buffer, and the init-level selector.
* `Arith`: powers of two, rounding, division by repeated subtraction.

Lists of the source are sequences, pages and tables are named by their physical addresses, threads and wait queues by
numbers. Spin locks are not modelled: what the source does under `thread_lock` or a spin lock is one step. Clocks, heap
failures, device faults and what callbacks do are parameters, so every result holds for all of them.

Some promises turned out not to hold of the code as it stands; each has a concrete input or run that shows it and the
exact condition under which the promise is kept.

* A mutex with waiters can be left without an owner, for ever (`Mutexes.StrandedExample`, `Mutexes.StrandedForever`): a
  waiter that timed out backs out of the count only when it runs again (`kernel/mutex.c:86`), and a thread that acquires
  in between queues behind nobody. `Mutexes.ServedRun` says that this is the only way, `Mutexes.PatientServed` that zero
  and infinite timeouts are safe.
* A semaphore waiter can sleep beside an unclaimed unit for the same reason (`Semaphores.StrandedExample`; exact in
  `Semaphores.ServedRun`).
* A batch written to a port wakes one reader only, so a second sleeping reader may miss a packet that is there
  (`Ports.SwampedExample`; exact in `Ports.ServedRun`).
* A read port closed between the wake-up of a reader and its next run is freed under that reader, which goes on to use
  it (`Ports.StaleExample`; exact in `Ports.StaleRun`). What the reader does then is not modelled; the packets are safe
  all the same (`Ports.Delivery`).
* Unmapping part of a block unmaps the whole block (`Mmu.PartialBlock`; exact in `Mmu.UnmapExactIff`).
* In the block layer the range checks let a range through whose end overflows (`Bio.TrimOverflow`; exact in
  `Bio.TrimRangeExact` and `Bio.TrimBlockRangeExact`), and the direct transfer path overruns its temporary block when
  2^32 bytes or more are left after the first partial block (`Bio.OverrunExample`; exact in the `Fits` clauses of
  `Bio.Disk.DefaultRead` and `Bio.Disk.DefaultWrite`).
* The bound check of the contiguous page search wraps, and the search goes on past the end of the arena
  (`Pmm.AstrayExample`). For arenas of fewer than 2^32 pages `Pmm.FindRun` says exactly when (`Misleads`): there is no
  run, the sum overflows at the first start that does not fit, and from some boundary of the arena after that on all its
  pages are free; or a boundary that the search comes to has a page number that does not fit 32 bits. A run that exists
  is found all the same.
* A contiguous allocation of 2^32 pages or more truncates its page count; the run found for the truncated count is never
  given back (`Vmm.Aspace.LeakExample`; exact in `Vmm.Aspace.AllocContiguous`, by `Lost`).

Where the source and its comments differ the model follows the source: `wait_queue_wake_all` documents "zero or one"
as its result but returns the number of threads woken, and `port_open` documents that only ports that are not destroyed
can be opened but also opens a closed write port; the model does the same. Debug assertions that only stop a debug build,
such as the one on an unaligned region base in `vmm_alloc`, are not modelled: the model follows the error path behind
them.

## Model

| member | source | states |
|---|---|---|
| `Pmm.Allocator.AddArena` | kernel/vm/pmm.c:62-104 | the new arena goes after its equals and before higher priority numbers, all its pages free; free list, flags and count agree |
| `Pmm.FreeQueueIsFree` | kernel/vm/pmm.c:37-60 | a page is on some free list if and only if its flag says free |
| `Pmm.FreeQueueNoDup` | kernel/vm/pmm.c:62-104 | no page is on the free lists twice |
| `Pmm.TakeQueue` | kernel/vm/pmm.c:106-138 | taking a page off a free list removes exactly that entry from the queue of all free pages |
| `Pmm.GiveQueue` | kernel/vm/pmm.c:199-229 | giving a page back adds exactly that page |
| `Pmm.GiveFirst` | kernel/vm/pmm.c:216-221 | a page given back is first on the free list of its arena, and counted |
| `Pmm.Allocator.TakeFrom` | kernel/vm/pmm.c:116-132 | one arena gives up the front of its free list, as many as wanted or as it has |
| `Pmm.Allocator.AllocPages` | kernel/vm/pmm.c:106-138 | the pages returned are the front of the free queue, fewer than asked only if nothing stays free |
| `Pmm.Allocator.AllocPage` | kernel/vm/pmm.c:140-151 | one free page, or none only if none is free |
| `Pmm.Allocator.FreeOne` | kernel/vm/pmm.c:199-229 | a page that belongs to an arena is given back to that arena, is free again and counted; another page is ignored |
| `Pmm.Allocator.Free` | kernel/vm/pmm.c:199-229 | exactly the listed pages that belong to arenas become free, and the count is theirs |
| `Pmm.Allocator.FreePage` | kernel/vm/pmm.c:231-238 | that page becomes free |
| `Pmm.FirstUsed` | kernel/vm/pmm.c:316-326 | the first page in use of a candidate run |
| `Pmm.SkipSound` | kernel/vm/pmm.c:311-326 | no aligned run starts between a start that is blocked and the next boundary after the page that blocks it |
| `Pmm.FindRun` | kernel/vm/pmm.c:302-329 | the lowest aligned free run of an arena, none only if it has none, in spite of the skipping; it leaves the arena's pages or the 32-bit page numbers only in an arena outside `InReach`, and always when the end of the first candidate overflows and nothing breaks it; in an arena of fewer than 2^32 pages if and only if there is no run and the search, which goes on where it should end because the bound check overflows, comes to a boundary of the arena behind which all pages are free, or the next boundary does not fit 32 bits |
| `Pmm.RunFitsExact` | kernel/vm/pmm.c:311-315 | the bound check, its sum taken in 32 bits, is right for every start if and only if arena and run have at most 2^32 pages together |
| `Pmm.StopsOnce` | kernel/vm/pmm.c:311-326 | where a search without success should end is determined: at the first boundary past the page that breaks the last candidate that fits |
| `Pmm.AstrayExample` | kernel/vm/pmm.c:302-326 | two free pages asked for 2^32 - 1: the search of that arena goes past its end |
| `Pmm.Allocator.TakeRun` | kernel/vm/pmm.c:331-343 | the pages of the run leave the free list, in order |
| `Pmm.Allocator.AllocContiguous` | kernel/vm/pmm.c:283-359 | the lowest aligned run in the first KMAP arena that has one, its address a multiple of the page size and of the alignment asked for; 0 exactly if no such arena has one, and then nothing changed; the search goes astray, for arenas of fewer than 2^32 pages, if and only if it gets to an arena that misleads it |
| `Pmm.RunAligned` | kernel/vm/pmm.c:288-289 | an address is aligned for the search if and only if it is a multiple of both the page size and the power of two asked for |
| `MmuTree.Arm64Valid` | arch/arm64/mmu.c:372-442 | the 4K-style geometries, any granule and number of levels, satisfy what the proofs assume |
| `MmuTree.WalkSameLeaf` | arch/arm64/mmu.c:132-163 | all addresses of one leaf translate through that leaf |
| `MmuTree.LiveIffReached` | arch/arm64/mmu.c:258-370 | live table pages are exactly those the root reaches, each along one path |
| `MmuTree.SetEntry` | arch/arm64/mmu.c:419-435 | overwriting a leaf or empty entry keeps the tree |
| `MmuTree.LinkFresh` | arch/arm64/mmu.c:264-282 | linking a new empty table keeps the tree |
| `MmuTree.Unlink` | arch/arm64/mmu.c:348-354 | unlinking an empty table keeps the tree |
| `Mmu.PageTables.IsClear` | arch/arm64/mmu.c:297-313 | true exactly if every entry is invalid |
| `Mmu.PageTables.GetPageTable` | arch/arm64/mmu.c:258-295 | the linked table, or a fresh one from the allocator; no translation changes; fails only on a leaf or an empty allocator, and takes one page exactly if there was no table |
| `Mmu.PageTables.UnmapEntry` | arch/arm64/mmu.c:331-365 | one entry: leaves that meet the part are gone, an emptied table is freed |
| `Mmu.PageTables.UnmapPt` | arch/arm64/mmu.c:315-370 | exactly the leaves that meet the range are gone; no empty table is left on the range; tables and free pages together stay the same |
| `Mmu.PageTables.MapEntry` | arch/arm64/mmu.c:399-440 | one entry: mapped through a table or as a block, with exactly the missing tables taken and the largest leaves there is room for, or unchanged translations and the reason; an aligned chunk that fills an empty entry and is not too large becomes one leaf, and no page is taken |
| `Mmu.PageTables.Rollback` | arch/arm64/mmu.c:444-449 | the error exit restores every translation |
| `Mmu.PageTables.MapPt` | arch/arm64/mmu.c:372-449 | success: the range was unmapped and now goes to `pa` on, everything else as before, as many pages were taken as tables were missing, and each address is translated by the largest leaf there is room for; failure: every translation as before, and why: an address was mapped, fewer pages were free than tables missing, or a table was linked where a whole block would go; each of these is also enough for failure; either way entries and tables are added on the range only |
| `Mmu.PageTables.Query` | arch/arm64/mmu.c:94-209 | the loop finds what the recursive walk defines |
| `Mmu.RangeCheck` | arch/arm64/mmu.c:456-466 | the range check is right although its subtraction may wrap |
| `Mmu.PageTables.Map` | arch/arm64/mmu.c:451-477 | the same for a virtual address; ERR_INVALID_ARGS and ERR_GENERIC each if and only if; every leaf in the tables stays aligned to its size and within the block limit |
| `Mmu.PageTables.Unmap` | arch/arm64/mmu.c:479-503 | unmaps the range, or rejects it exactly if it leaves the space |
| `Mmu.MapsFlat` | arch/arm64/mmu.c:372-442 | in terms of the flat map, a successful map is an override of addresses that were unmapped |
| `Mmu.RollbackRestores` | arch/arm64/mmu.c:411-418 | unmapping what was just mapped brings back every translation |
| `MmuBlocks.LeavesFit` | arch/arm64/mmu.c:405-408 | in the tables as every call leaves them, a leaf is aligned to the block its entry covers, and that block is within the limit |
| `MmuBlocks.LargestLeaf` | arch/arm64/mmu.c:399-440 | an address of a mapped range is translated by a leaf of the highest level whose block lies in the range, goes to an aligned address and is within the limit |
| `MmuBlocks.PlacedNext` | arch/arm64/mmu.c:399-440 | chunk by chunk the leaves are the largest for the whole range, not only for the chunk |
| `Mmu.FittedMapped` | arch/arm64/mmu.c:372-442 | a mapping keeps every leaf one that a descriptor can hold |
| `Mmu.FittedUnmapped` | arch/arm64/mmu.c:315-370 | so does unmapping |
| `Mmu.UnmapExactIff` | arch/arm64/mmu.c:315-370 | unmap removes exactly its range if and only if no leaf straddles an end of it |
| `Mmu.PartialBlock` | arch/arm64/mmu.c:355-357 | 4096-byte pages and a 2 MiB block: unmapping the first page of the block unmaps the second |
| `Mmu.PageTables.MapThenUnmap` | arch/arm64/mmu.c:451-503 | unmapping a range just mapped restores every translation and frees every table page made for it |
| `MmuTidy.GrowsNext` | arch/arm64/mmu.c:399-440 | each chunk of a mapping adds entries only on the range, and no link to a table that was there |
| `MmuTidy.TidyNext` | arch/arm64/mmu.c:331-369 | each chunk of an unmapping leaves no empty table on the part done |
| `MmuTidy.NoneLeft` | arch/arm64/mmu.c:315-449 | once the range that tables were made for is unmapped, none of those tables is left, whether the mapping had succeeded or failed part-way |
| `MmuCount.LackFrame` | arch/arm64/mmu.c:399-440 | the tables missing under a table depend only on the tables under it |
| `MmuCount.LackFresh` | arch/arm64/mmu.c:264-282 | under a fresh table everything is missing |
| `MmuNeat.NeatMapped` | arch/arm64/mmu.c:372-442 | after a mapping that succeeded every table is on the way to a mapped address, if it was so before |
| `MmuNeat.NeatUnmapped` | arch/arm64/mmu.c:315-370 | the same after unmapping a range that no leaf straddles |
| `MmuNeat.Restored` | arch/arm64/mmu.c:372-449 | tables that translate as before and are no more than before are, entry by entry, the tables as before |
| `MmuNeat.InWayHits` | arch/arm64/mmu.c:419-424 | then a table that is linked where a block would go maps an address of the range, so a vacant range has none in its way |
| `MmuPages.LackPage` | arch/arm64/mmu.c:399-440 | the tables missing for one page are the places on its walk that have none |
| `MmuPages.PageLive` | arch/arm64/mmu.c:399-440 | mapping one page fills exactly the places on its walk |
| `MmuPages.PlacesNext` | kernel/vm/vmm.c:539-560 | one page more adds the places on its walk that were neither there nor filled for the pages before |
| `MmuPages.PageNotInWay` | arch/arm64/mmu.c:399-440 | nothing is ever in the way of a single page |
| `Regions.InsideSpaceMeans` | kernel/vm/vmm.c:45-66 | the wrap-aware test means that the region lies in the space |
| `Regions.PlaceRegion` | kernel/vm/vmm.c:112-152 | a given address is refused exactly if it is outside the space, empty or overlaps a region |
| `Regions.InsertListed` | kernel/vm/vmm.c:112-152 | insertion at that place keeps the list sorted, disjoint and inside the space |
| `Regions.GapExact` | kernel/vm/vmm.c:159-210 | what check_gap decides, with wrap-around worked out |
| `Regions.AllocSpot` | kernel/vm/vmm.c:212-247 | the lowest aligned address with room, and failure only if there is none, the early stop included |
| `Regions.FindRegion` | kernel/vm/vmm.c:591-607 | the one region that holds the address, or that none does |
| `Vmm.Aspace.AllocRegion` | kernel/vm/vmm.c:250-288 | inserts an empty region at the address asked for or at the lowest place, or says that there is no place |
| `Vmm.Aspace.ArchMap` | arch/arm64/mmu.c:505-540 | maps the pages, taking the tables that were missing, or leaves every translation; an unaligned address is ERR_INVALID_ARGS, and a well-formed request fails if and only if it is blocked |
| `Vmm.Aspace.ArchUnmap` | arch/arm64/mmu.c:542-573 | unmaps the pages |
| `Vmm.Aspace.MapPages` | kernel/vm/vmm.c:539-560 | the pages are mapped in order up to the first that fails; the status is exactly: refused if unaligned, ERR_GENERIC if fewer pages are free than places for tables are empty on the range, else success |
| `Vmm.Stopped` | kernel/vm/vmm.c:539-560 | in a vacant range the mapping stops only if fewer pages were free at the start than places for tables were empty on the whole range |
| `Vmm.Aspace.Undo` | kernel/vm/vmm.c:569-581 | after a failed mapping the region list and the tables are exactly as before and every data page is free again |
| `Vmm.Aspace.Fill` | kernel/vm/vmm.c:539-582 | the region is filled, or regions and tables are exactly as before with the data pages free; which of them, and the status, by an equation |
| `Vmm.Aspace.Place` | kernel/vm/vmm.c:529-589 | from the pages on: the region is placed and mapped, or everything is given back; the status by an equation |
| `Vmm.Aspace.Alloc` | kernel/vm/vmm.c:486-589 | success: a new region at the requested or lowest address maps the pages taken, in order; failure: regions, tables and free pages are exactly as before; the status is given by an equation in the state before the call |
| `Vmm.Aspace.OnlyAskedRefused` | kernel/vm/vmm.c:212-247 | only an address that was asked for can be refused as unaligned |
| `Vmm.Aspace.RemoveRegion` | kernel/vm/vmm.c:610-629 | the region that holds the address leaves the list and is unmapped |
| `Vmm.CoveredNoStraddle` | kernel/vm/vmm.c:610-629 | no mapping crosses the edge of a region |
| `Vmm.Aspace.FreeRegion` | kernel/vm/vmm.c:631-655 | exactly that region's addresses are unmapped and its pages are free, and no table is left without a mapping; not found exactly if no region holds the address |
| `Vmm.Aspace.AllocThenFree` | kernel/vm/vmm.c:486-655 | freeing what vmm_alloc returned leaves regions, tables and free pages exactly as before the allocation |
| `Vmm.Aspace.AllocContiguous` | kernel/vm/vmm.c:399-484 | success: a new region maps the lowest aligned run of pages there is; failure: regions and tables exactly as before, and the free pages too, except for the run lost when the page count was truncated; the status by an equation; what is not covered is a page search that goes astray, and when that can be |
| `Vmm.Aspace.AllocContiguousThenFree` | kernel/vm/vmm.c:399-655 | freeing what it returned leaves regions, tables and free pages exactly as before |
| `Vmm.Aspace.LeakExample` | kernel/vm/vmm.c:434-439 | a request for 2^32 + 1 pages fails and loses a page, whenever a page is free and the search stays within reach |
| `Vmm.Aspace.FillRun` | kernel/vm/vmm.c:450-481 | one mapping of the whole run, or the region is taken out, its pages are free and the tables are exactly as before; the status by an equation |
| `Vmm.Aspace.UndoRun` | kernel/vm/vmm.c:470-481 | the error exit gives back the region and the pages and leaves the tables exactly as before |
| `Vmm.RunMapped` | kernel/vm/vmm.c:454-465 | one mapping of a run, with whatever blocks it uses, maps its pages in order |
| `Sched.EnqueueInv` | kernel/thread.c:79-99 | putting a ready thread on its run queue keeps every thread in one place and the bitmap exact |
| `Sched.DequeueInv` | kernel/thread.c:444-447 | taking one off does too |
| `Sched.WaitEnqueueInv` | kernel/thread.c:1103-1107 | joining a wait queue keeps its count and every place |
| `Sched.WaitRemoveInv` | kernel/thread.c:1149-1155 | leaving one does too |
| `Sched.FirstAllowed` | kernel/thread.c:439-451 | the first thread of a queue that may run on this CPU |
| `Sched.Pick` | kernel/thread.c:431-457 | the highest priority that has an allowed thread, none only if no queue has |
| `Sched.TopIsHighest` | kernel/thread.c:431-457 | no ready thread that may run here outranks the one chosen; the idle thread only if there is none |
| `Sched.SwitchInv` | kernel/thread.c:469-600 | a switch ends with the chosen thread running and every thread in its place |
| `Sched.Next` | kernel/thread.c:79-1289 | every step keeps each thread in the place its state names; what each step does is in the laws below |
| `Sched.OnePlace` | kernel/thread.c:79-1289 | a thread is in exactly the place its state names and in no other |
| `Sched.EveryRun` | kernel/thread.c:79-1289 | over any run from boot: one place per thread, a bit set exactly if its queue is non-empty, wait counts exact |
| `Sched.BootSteady` | kernel/thread.c:775-909 | the CPUs running their idle threads is a state to start from |
| `SchedLaws.SwitchLaw` | kernel/thread.c:469-600 | the CPU goes to the first thread it may run in the highest queue that has one, taken off that queue, or to its idle thread if there is none; a thread that takes over without quantum gets 5; no other thread changes but the one that stops |
| `SchedLaws.ResumeLaw` | kernel/thread.c:275-297 | a suspended thread is ready and first in the queue of its priority, and nothing else changes; any other is left alone |
| `SchedLaws.SleepDoneLaw` | kernel/thread.c:726-740 | the same for a sleeper |
| `SchedLaws.TickLaw` | kernel/thread.c:711-723 | one unit of quantum goes from a thread that is neither idle nor real-time, and nothing else |
| `SchedLaws.PlainLaw` | kernel/thread.c:146-251 | creating a thread, flagging one and making a queue move no thread |
| `SchedLaws.YieldLaw` | kernel/thread.c:611-630 | no quantum left, last in its queue, then the switch; an idle thread goes on no queue |
| `SchedLaws.PreemptLaw` | kernel/thread.c:647-673 | first in its queue if it has quantum left, last if not, then the switch |
| `SchedLaws.SetPriorityLaw` | kernel/thread.c:828-844 | the priority asked for, brought into 1 to 31; first in that queue, then the switch |
| `SchedLaws.SleepLaw` | kernel/thread.c:752-768 | sleeping on no queue, then the switch |
| `SchedLaws.BlockLaw` | kernel/thread.c:1090-1123 | last in the wait queue, which counts it, then the switch |
| `SchedLaws.ExitLaw` | kernel/thread.c:382-424 | dead, with every joiner ready in front of its queue unless the thread was detached, then the switch |
| `SchedLaws.WakeOneLaw` | kernel/thread.c:1139-1175 | the first waiter is first in its run queue with the code given; with a reschedule the waker stands behind it, then the switch |
| `SchedLaws.WakeAllLaw` | kernel/thread.c:1192-1240 | every waiter is ready with the code given, each in front of the one woken before it; with a reschedule all in front of the waker, then the switch |
| `SchedLaws.UnblockLaw` | kernel/thread.c:1268-1289 | a blocked thread leaves its wait queue, wherever in it, and is first in its run queue; any other is left alone |
| `SchedLaws.YieldGivesWay` | kernel/thread.c:611-630 | a yielding thread goes on at once if and only if no ready thread of at least its priority may run there; otherwise it is ready and last in its queue |
| `SchedLaws.PreemptGivesWay` | kernel/thread.c:647-673 | a preempted thread with quantum left gives way to a higher priority only and is then first in its queue; one without gives way to its equals too and is last |
| `SchedLaws.JoinersReleased` | kernel/thread.c:396-417 | after an exit the thread is dead and every thread that waited to join it is ready with success, or runs already |
| `SchedLaws.DeadForever` | kernel/thread.c:382-424 | over any run a dead thread stays dead and runs on no CPU |
| `Kernel.HighestBit` | kernel/thread.c:431-457 | the highest set bit |
| `Kernel.Scheduler.ScanQueue` | kernel/thread.c:439-451 | the loop finds the first allowed thread |
| `Kernel.Scheduler.GetTopThread` | kernel/thread.c:431-457 | the scan over the bitmap returns what `Pick` specifies, and terminates |
| `Kernel.Scheduler.Resched` | kernel/thread.c:469-600 | makes the switch step |
| `Kernel.Scheduler.ThreadCreate` | kernel/thread.c:146-221 | the new thread is suspended and on no queue |
| `Kernel.Scheduler.ThreadSetRealTime` | kernel/thread.c:234-251 | the thread is flagged and stays where it is |
| `Kernel.Scheduler.ThreadResume` | kernel/thread.c:275-297 | makes the step of `SchedLaws.ResumeLaw` |
| `Kernel.Scheduler.ThreadExit` | kernel/thread.c:382-424 | makes the step of `SchedLaws.ExitLaw` |
| `Kernel.Scheduler.ThreadYield` | kernel/thread.c:611-630 | makes the step of `SchedLaws.YieldLaw`: to the tail of its queue, quantum gone |
| `Kernel.Scheduler.ThreadPreempt` | kernel/thread.c:647-673 | makes the step of `SchedLaws.PreemptLaw`: to the head while quantum is left, else to the tail |
| `Kernel.Scheduler.TimerTick` | kernel/thread.c:711-723 | quantum is used up by threads that are neither idle nor real-time, with a reschedule when it is gone |
| `Kernel.Scheduler.SleepHandler` | kernel/thread.c:726-740 | the sleeper becomes ready |
| `Kernel.Scheduler.ThreadSleep` | kernel/thread.c:752-768 | the thread leaves every queue until then |
| `Kernel.Scheduler.ThreadSetPriority` | kernel/thread.c:828-844 | the priority is clamped and the thread goes to the head of its new queue |
| `Kernel.Scheduler.WaitQueueInit` | kernel/thread.c:1051-1053 | an empty queue |
| `Kernel.Scheduler.WaitQueueBlock` | kernel/thread.c:1090-1123 | zero timeout: an error and nothing else; otherwise the thread joins the queue and the CPU switches |
| `Kernel.Scheduler.WaitQueueWakeOne` | kernel/thread.c:1139-1175 | the first waiter becomes ready with the code given; the result counts it |
| `Kernel.Scheduler.WaitQueueWakeAll` | kernel/thread.c:1192-1240 | all waiters become ready, the last one first in line; the result counts them |
| `Kernel.Scheduler.UnblockFromWaitQueue` | kernel/thread.c:1268-1289 | a blocked thread leaves its queue with the code given; another is refused |
| `Effects.ForeignSeen` | kernel/thread.c:79-1289 | a step that does not concern an object's queue leaves its waiters exactly as they were |
| `Effects.BlockSeen` | kernel/thread.c:1090-1123 | blocking appends to the waiters |
| `Effects.WakeOneSeen` | kernel/thread.c:1139-1175 | waking one releases the first waiter with success |
| `Effects.WakeAllSeen` | kernel/thread.c:1192-1240 | waking all releases every waiter with success |
| `Effects.TimeoutSeen` | kernel/thread.c:1055-1070 | a timeout takes a waiter off with an error and leaves one already woken alone |
| `Mutexes.Mutex.AcquireTimeout` | kernel/mutex.c:64-100 | makes the acquire step; success, and then ownership, if and only if the count was 0; an error for a zero timeout, else asleep |
| `Mutexes.Mutex.AcquireWoken` | kernel/mutex.c:77-100 | makes the wake-up step: success and ownership together, or the delayed back-out |
| `Mutexes.Mutex.Release` | kernel/mutex.c:105-126 | makes the release step, which hands the mutex to the first waiter; without one the scheduler is not touched |
| `Mutexes.Mutex.TimeoutHandler` | kernel/thread.c:1055-1070 | makes the timeout step |
| `Mutexes.DoOk` | kernel/mutex.c:64-126 | every step keeps the owner and count invariant |
| `Mutexes.MutualExclusion` | kernel/mutex.c:64-126 | in every interleaving, between two acquires that return success the first thread has released the mutex |
| `Mutexes.SuccessKeeps` | kernel/mutex.c:64-126 | a thread whose acquire returned success is the one owner, and the holder, until its own release |
| `Mutexes.CountExact` | kernel/mutex.c:64-126 | at most one owner, counting one woken and not yet run; count = owner + queued + late |
| `Mutexes.AcquireLaw` | kernel/mutex.c:64-100 | success at once if and only if nobody owns the mutex, waits for it or has yet to back out; else an error for a zero timeout or last in line |
| `Mutexes.UnlockLaw` | kernel/mutex.c:105-126 | the first waiter owns the mutex next, or nobody if there is none |
| `Mutexes.TimeoutLaw` | kernel/thread.c:1055-1070 | a queued thread leaves the line with an error; one that was handed the mutex keeps it |
| `Mutexes.BackOutLaw` | kernel/mutex.c:79-88 | a thread whose wait failed takes itself out of the count and changes no owner |
| `Mutexes.ServedStep` | kernel/mutex.c:73-100 | a step leaves a waiter without an owner if and only if it is an acquire that queues behind nobody |
| `Mutexes.ServedRun` | kernel/mutex.c:64-126 | the same for whole runs |
| `Mutexes.PatientServed` | kernel/mutex.c:64-126 | with zero and infinite timeouts only, waiters always have an owner |
| `Mutexes.StrandedExample` | kernel/mutex.c:76-86 | a run after which a thread waits for a mutex nobody owns |
| `Mutexes.StrandedForever` | kernel/mutex.c:64-126 | from then on nobody ever acquires it |
| `Semaphores.Semaphore.SemPost` | kernel/semaphore.c:34-49 | makes the post step: one more unit to be had |
| `Semaphores.Semaphore.SemTimedWait` | kernel/semaphore.c:51-94 | makes the wait step; success takes a unit; with INFINITE_TIME it is sem_wait |
| `Semaphores.Semaphore.WaitWoken` | kernel/semaphore.c:83-94 | makes the wake-up step, with the delayed back-out |
| `Semaphores.Semaphore.SemTryWait` | kernel/semaphore.c:66-77 | takes a unit or returns an error, never sleeping |
| `Semaphores.Semaphore.TimeoutHandler` | kernel/thread.c:1055-1070 | makes the timeout step |
| `Semaphores.DoOk` | kernel/semaphore.c:34-94 | every step keeps the count equation |
| `Semaphores.Bounded` | kernel/semaphore.c:34-94 | the waits that return success in a run never exceed initial value plus posts; count = unclaimed - queued - late |
| `Semaphores.WaitLaw` | kernel/semaphore.c:51-94 | when a wait succeeds at once, fails at once or queues last in line, and what it takes |
| `Semaphores.TryWaitLaw` | kernel/semaphore.c:66-77 | success, with a unit taken, if and only if the count is positive |
| `Semaphores.PostLaw` | kernel/semaphore.c:34-49 | the unit goes to the first sleeper if there is one and the count was negative; otherwise one more unit is unclaimed |
| `Semaphores.TimeoutLaw` | kernel/thread.c:1055-1070 | a queued thread leaves the line with an error; one already woken is left alone |
| `Semaphores.WakeupLaw` | kernel/semaphore.c:83-94 | a woken thread returns the code it was woken with; only a failed one gives back its place in the count |
| `Semaphores.ServedStep` | kernel/semaphore.c:34-94 | a step leaves a sleeper beside an unclaimed unit if and only if it is a wait that queues while one is unclaimed |
| `Semaphores.ServedRun` | kernel/semaphore.c:34-94 | the same for whole runs |
| `Semaphores.PatientServed` | kernel/semaphore.c:34-94 | with zero and infinite timeouts only, that never happens |
| `Semaphores.PostWakes` | kernel/semaphore.c:39-44 | exactly when a post wakes a thread |
| `Semaphores.StrandedExample` | kernel/semaphore.c:79-94 | a run after which a thread sleeps beside two units |
| `Events.Event.WaitTimeout` | kernel/event.c:82-103 | makes the wait step |
| `Events.Event.WaitWoken` | kernel/event.c:96-103 | makes the wake-up step |
| `Events.Event.EventSignal` | kernel/event.c:122-148 | makes the signal step |
| `Events.Event.EventUnsignal` | kernel/event.c:162-168 | makes the unsignal step |
| `Events.Event.TimeoutHandler` | kernel/thread.c:1055-1070 | makes the timeout step |
| `Events.DoOk` | kernel/event.c:82-168 | every step keeps the invariant |
| `Events.EveryRun` | kernel/event.c:82-168 | a signalled event never has queued waiters; on an auto-unsignal event the waits that return success are exactly the signals given, less those granted and not run, pending or wasted |
| `Events.WaitLaw` | kernel/event.c:82-103 | a wait on a signalled event succeeds at once and takes the signal if the event unsignals itself; otherwise it fails at once or queues last in line |
| `Events.SignalLaw` | kernel/event.c:122-148 | whom a signal releases, when it stays pending and when it is wasted |
| `Events.TimeoutLaw` | kernel/thread.c:1055-1070 | a queued thread leaves the line with an error; one already released is left alone |
| `Events.StaysOpen` | kernel/event.c:138-142 | without auto-unsignal nobody waits until the event is unsignalled |
| `Events.SignalReleasesAll` | kernel/event.c:138-142 | that signal releases every waiter with success |
| `Timers.WrapCompare` | lib/libc/include/sys/types.h:37-40 | the 32-bit time comparison is integer order for times less than half the range apart |
| `Timers.TimerQueue.InsertTimer` | kernel/timer.c:53-69 | the queue stays sorted, with the timer before the first that is strictly later |
| `Timers.TimerQueue.SetTimer` | kernel/timer.c:71-145 | the timer is queued for at least one unit later, behind its equals; the hardware timer is set for the head; a queued timer is the panic |
| `Timers.TimerQueue.CancelTimer` | kernel/timer.c:150-193 | the timer leaves the queue with no period, the hardware timer follows the head |
| `Timers.TimerQueue.RunOps` | kernel/timer.c:235-240 | what any sequence of calls from a callback can do to the queue |
| `Timers.TimerQueue.Reinsert` | kernel/timer.c:242-252 | a periodic timer that was not touched goes back into the queue for its next time |
| `Timers.TimerQueue.FireHead` | kernel/timer.c:211-253 | one round uses up one due firing; a timer cancelled in its own callback is not put back |
| `Timers.TimerQueue.Tick` | kernel/timer.c:196-268 | the tick ends, with a sorted queue whose every timer is later than now and the hardware set for the head; every timer that no callback named has run the course of `Timers.TickExact` |
| `Timers.TickSummary` | kernel/timer.c:196-260 | due timers fire in scheduled order, each once, or at most twice if periodic and due again now, unless cancelled; no other timer fires |
| `Timers.TickExact` | kernel/timer.c:239-252 | a due timer that no callback set or cancelled: a one-shot fired once and is off the queue; a periodic one is queued with its period, one period after its old time if that is still to come, two if that was now, when it fired twice, else one period after now |
| `Timers.TickSpares` | kernel/timer.c:211-253 | a timer that was not due and that no callback named is as it was and has not fired |
| `Timers.RoundCourses` | kernel/timer.c:211-253 | each round keeps that course for every timer no callback named |
| `Bcache.Cached.FlushBlock` | lib/bcache/bcache.c:74-88 | a block goes to the device, or the write fails; either way the contents seen are the same |
| `Bcache.Cached.FindBlock` | lib/bcache/bcache.c:107-130 | a hit exactly if the block is cached; the slot goes to the end of the list, the others keep their order, and its time of use is now |
| `Bcache.OneCopy` | lib/bcache/bcache.c:107-130 | at most one slot holds a copy of a block, the one by which it is found |
| `Bcache.LeastRecentAt` | lib/bcache/bcache.c:146-161 | the first unreferenced slot of the list is the one unused for longest |
| `Bcache.Cached.AllocBlock` | lib/bcache/bcache.c:132-164 | a free slot or the least recently used unreferenced one, which is the most recent now; contents and held blocks unchanged |
| `Bcache.Cached.FindOrFill` | lib/bcache/bcache.c:166-196 | the block is cached with its contents; nothing a reader sees changes |
| `Bcache.Cached.ReadBlock` | lib/bcache/bcache.c:198-211 | returns the contents |
| `Bcache.Cached.GetBlock` | lib/bcache/bcache.c:213-231 | one more holder; held blocks stay where they are |
| `Bcache.Cached.PutBlock` | lib/bcache/bcache.c:233-247 | one holder less |
| `Bcache.Cached.ClientWrite` | lib/bcache/bcache.c:213-231 | a holder's write through the pointer changes that block's contents and no other |
| `Bcache.Cached.MarkBlockDirty` | lib/bcache/bcache.c:249-264 | the change counts as pending no longer; an error if the block is not cached |
| `Bcache.Cached.ZeroBlock` | lib/bcache/bcache.c:266-287 | that block reads as zeros |
| `Bcache.Cached.Flush` | lib/bcache/bcache.c:289-305 | contents unchanged; on success the device equals them, but for changes not marked yet; it fails only if a write does |
| `Bio.TrimRangeExact` | lib/bio/bio.c:306-318 | the trim is right if and only if the end of the range does not overflow |
| `Bio.TrimBlockRangeExact` | lib/bio/bio.c:320-329 | the same for block ranges |
| `Bio.TrimOverflow` | lib/bio/bio.c:306-329 | ranges that both trims let through past the end of the device |
| `Bio.Disk.DefaultRead` | lib/bio/bio.c:33-127 | returns exactly the bytes of the range, whether direct or through the bounce buffer, if and only if the direct count fits 32 bits |
| `Bio.OverrunExample` | lib/bio/bio.c:91-122 | a read of 2^32 bytes on the direct path overruns the temporary block |
| `Bio.Disk.DefaultWrite` | lib/bio/bio.c:129-245 | changes exactly the range; after an error a prefix of it |
| `Bio.Disk.DefaultErase` | lib/bio/bio.c:247-272 | fills exactly the range with the erase byte |
| `Bio.Disk.ReadBlocks` | lib/bio/bio.c:372-384 | the trimmed blocks |
| `Bio.Disk.WriteBlocks` | lib/bio/bio.c:400-412 | changes exactly the trimmed blocks |
| `Bio.Disk.Read` | lib/bio/bio.c:358-370 | through any nesting: exactly the part of the range in the window |
| `Bio.Disk.Write` | lib/bio/bio.c:386-398 | through any nesting: only bytes of the range in the window change |
| `Bio.Disk.Erase` | lib/bio/bio.c:414-425 | the same for erase |
| `Bio.Disk.ReadBlock` | lib/bio/subdev.c:37-41 | block reads through any nesting |
| `Bio.Disk.WriteBlock` | lib/bio/subdev.c:49-53 | block writes through any nesting |
| `Bio.WindowStep` | lib/bio/subdev.c:31-59 | a subdevice's window lies in its parent's |
| `Bio.PublishSubdevice` | lib/bio/subdev.c:141-166 | a window is accepted if and only if it lies in the parent, 32-bit wrap-around included |
| `Bio.OutsideWindow` | lib/bio/subdev.c:43-47 | a write through a window leaves every byte outside it alone |
| `Bio.ReadsBack` | lib/bio/bio.c:358-398 | what was written reads back |
| `Ports.Ring.constructor` | kernel/port.c:80-90 | an empty buffer of 8 or 64 packets |
| `Ports.Ring.BufWrite` | kernel/port.c:96-106 | all packets are appended or none |
| `Ports.Ring.BufRead` | kernel/port.c:108-115 | the oldest packet, or that there is none |
| `Ports.UnicastPort.constructor` | kernel/port.c:154-177 | the write side holds an empty buffer |
| `Ports.UnicastPort.PortOpen` | kernel/port.c:202-246 | the first reader takes the buffer; a second is refused |
| `Ports.UnicastPort.PortWrite` | kernel/port.c:364-413 | makes the write step; success if and only if the port is open and has room for the whole batch, with its error codes |
| `Ports.UnicastPort.PortRead` | kernel/port.c:415-443 | makes the read step: a packet, an error or sleep |
| `Ports.UnicastPort.ReadWoken` | kernel/port.c:426-431 | makes the wake-up step: back to the buffer |
| `Ports.UnicastPort.TimeoutHandler` | kernel/thread.c:1055-1070 | makes the timeout step |
| `Ports.UnicastPort.PortCloseRead` | kernel/port.c:516-536 | the buffer and its contents go back to the write side; sleepers get an error; a reader already woken is left with the freed port |
| `Ports.UnicastPort.PortCloseWrite` | kernel/port.c:549-560 | no more writes; reads go on |
| `Ports.DoOk` | kernel/port.c:180-536 | every step keeps the port's invariant |
| `Ports.Delivery` | kernel/port.c:180-536 | over any run, readers coming and going, the packets read are the accepted ones in order, but for those buffered |
| `Ports.RefusedAfterClose` | kernel/port.c:549-560 | after the write side is closed every write in every later run is refused and nothing more is sent |
| `Ports.ClosedForever` | kernel/port.c:364-413 | a closed port stays closed; what is still read was buffered before |
| `Ports.WriteLaw` | kernel/port.c:364-413 | a write is taken as a whole if the port is open with room for it, and wakes the first sleeper; any other changes nothing |
| `Ports.ReadLaw` | kernel/port.c:415-443 | the oldest packet is taken; without one the read fails at once or sleeps last in line |
| `Ports.WakeupLaw` | kernel/port.c:426-431 | a woken reader leaves with its error or the oldest packet, or sleeps again, last in line |
| `Ports.TimeoutLaw` | kernel/thread.c:1055-1070 | a sleeper leaves the line with its error; a thread woken before is left alone |
| `Ports.ReaderLaw` | kernel/port.c:202-536 | opening gives an unread port its reader; closing the reader leaves the packets, nobody inside, and stale whoever was woken |
| `Ports.StaleExample` | kernel/port.c:396-431 | a run that closes a read port under a reader that was woken and has not run |
| `Ports.StaleRun` | kernel/port.c:509-566 | no thread is left with a freed port if and only if no close comes between a wake-up and the next run |
| `Ports.ServedStep` | kernel/port.c:383-403 | a step leaves a sleeper beside an unclaimed packet if and only if it is a write that swamps the readers |
| `Ports.ServedRun` | kernel/port.c:364-431 | the same for whole runs |
| `Ports.SingleWritesServed` | kernel/port.c:364-431 | with single-packet writes that never happens |
| `Ports.SwampedExample` | kernel/port.c:386-402 | a run in which it does |
| `Rings.UnrollPush` | kernel/port.c:100-103 | storing behind the last element appends |
| `Rings.UnrollDrop` | kernel/port.c:111-113 | moving the head drops the first elements |
| `Cbuf.SpaceUsedExact` | lib/cbuf/cbuf.c:42-49 | the 32-bit difference modulo the size is the distance round the ring |
| `Cbuf.Circular.SpaceAvail` | lib/cbuf/cbuf.c:42-45 | the free space, one less than the size at most |
| `Cbuf.Circular.Fill` | lib/cbuf/cbuf.c:62-96 | appends the first min(len, space) bytes |
| `Cbuf.Circular.Write` | lib/cbuf/cbuf.c:51-108 | accepts exactly min(len, space) bytes; the event is signalled exactly if there is something to read |
| `Cbuf.Circular.Drain` | lib/cbuf/cbuf.c:127-148 | takes the first min(buflen, used) bytes across the wrap |
| `Cbuf.Circular.Read` | lib/cbuf/cbuf.c:121-165 | returns exactly the min(buflen, used) oldest bytes; the event follows |
| `Cbuf.Circular.Peek` | lib/cbuf/cbuf.c:168-193 | the two regions together are the contents |
| `Cbuf.Circular.WriteChar` | lib/cbuf/cbuf.c:195-215 | one byte, if there is room |
| `Cbuf.Circular.ReadChar` | lib/cbuf/cbuf.c:225-248 | the oldest byte, if there is one |
| `Cbuf.Circular.NobodySleeps` | lib/cbuf/cbuf.c:98-119 | no reader sleeps while there is something to read |
| `Init.Scan` | top/init.c:42-74 | one scan finds the first hook after the last one called, by level and then place |
| `Init.InitLevel` | top/init.c:31-89 | the calls are the stable sort by level of the wanted hooks, each once |
| `Init.OrderedUnique` | top/init.c:38-88 | a set of hooks can be put in that order in one way only |
| `Init.SortOrdered` | top/init.c:38-88 | the stable sort is in that order |

## Left out

- Interleaving between CPUs inside a critical section, spin locks, memory barriers, TLB and cache maintenance, and the bit encoding of descriptors and attributes.
- pmm_alloc_range, which takes the free pages of a given physical range, pmm_alloc_kpages, which wraps the contiguous search for kernel addresses, and the boot allocator, which hands out memory before the arenas exist: none of them has an invariant of its own.
- vmm_alloc_physical and vmm_reserve_space, which insert a region without taking pages, and whole-space teardown, which frees the regions one by one.
- Page tables larger than one page and granules of fewer than two entries a table.
- Destroying mutexes, semaphores and events, joining a thread from several others, port groups, port_destroy and broadcast ports.
- The preemption timer that thread_resched sets and cancels, CPU idle and real-time masks, statistics and stack checks.
- thread_unblock with a reschedule, which switches away from a thread that is still running.
- The erase-geometry branch of bio_publish_subdevice and the ioctl and reference-count parts of the block layer.
- The block cache after a failed device read, its statistics, and blocks beyond the end of the device.
- Reader and writer blocking loops of the circular buffer: the wait is the event's, and the part under the lock is modelled.
- The name look-up of ports, their allocation failures and the context pointer of a read.
- PSP recovery application, drivers, file systems, network, console and other libraries.
- Pmm.Allocator.AllocPages: counts are unbounded; its caller in the model passes the 32-bit count the source would.
- Pmm.FindRun: once the search reads past the arena's pages, or comes to a page number that does not fit 32 bits, it is not followed any further (`Astray`); when that is so is exact for arenas of fewer than 2^32 pages, that is 16 TiB, and one-sided (`InReach`, `WrapsAtOnce`) for larger ones.
- Pmm.Allocator.AllocContiguous: ends where Pmm.FindRun goes astray.
- Vmm.Aspace.AllocContiguous: after the page search has gone astray (`astray`) nothing is promised; the debug assertion on the truncated count is not modelled; the store to the caller's pointer, which the source makes before the mapping and does not take back when that fails, is not part of the state, but `addr` is its value.
- Vmm.Aspace.Alloc: the heap allocation of the region record is the parameter heapOk.
- Timers.TimerQueue.Tick: times are integers; Timers.WrapCompare says when the wrapped comparison agrees with them.
- Semaphores.Bounded: the count is an unbounded integer.
- Bio.Disk.DefaultRead: a block hook either transfers everything or fails and changes nothing; short transfers are not modelled.
- Bio.Disk.Read: stated, like Write and Erase, for the ranges that Bio.TrimRangeExact shows to be exactly those the trim handles.
- Bio.Disk.ReadBlock: stated, like WriteBlock, for the block ranges that Bio.TrimBlockRangeExact shows to be exactly those the trim handles.
- Ports.UnicastPort.PortCloseRead: what a thread left with the freed port does next is undefined in the source and has no step in the model.
- Cbuf.Circular.Write: the reschedule after the lock is released is a step of the scheduler and not repeated here.
