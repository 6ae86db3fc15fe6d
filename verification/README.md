# RT-Thread kernel and packages: verified models

Dafny models, with proofs, of the stateful core of an RT-Thread firmware tree: the kernel built for several CPUs with
the slab allocator (`rtconfig.h:10`, `rtconfig.h:35`), the two allocators the other build options select, and two of
the packages it vendors. `dafny verify dfyconfig.toml` checks everything.

Code that changes state step by step is a class or a method with loops, proved against a specification made of
functions; what the code promises is then proved about those functions and about the invariants the methods keep.

## What is modelled

* **Allocators.** `PageList` is the list of free page runs of `slab.c`; `SlabSizes`, `SlabRep` and `Slab` are the
  size classes, zones, page map and chunks above it, and `SlabOrder` says which chunk comes next. `Tiling` is what the two boundary-tag heaps share;
  `SmallMemRep`, `SmallMemSearch` and `SmallMem` are `mem.c`; `FreeRing`, `MemHeapRep` and `MemHeap` are `memheap.c`. `MapSum` is the
  byte count all of them keep, and `Bitwise` has the bit operators on numbers.
* **cJSON.** `JsonSpec` says what text a tree has and what tree a text has; `JsonString`, `JsonNumber` and
  `JsonLanguage` have the language that is accepted, as derivations, and prove that exactly its texts are and what they
  are read as; `JsonGrammar` has the grammar of RFC 8259 inside it and what its texts stand for; `JsonRoundTrip` proves
  printing inside that grammar and the two inverse, and `JsonSample` writes one text out;
  `JsonParser` is the parser by position with its two passes over strings; `JsonPrinter` is the two-pass printer and
  `JsonBuffer` the growing-buffer printer; `Utf8` and `PowerOfTwo` are the encodings and `pow2gt`.
* **Scheduler and locks.** `SchedulerRep` and `Scheduler` hold the threads, the ready tables with their bitmaps, the
  current threads, `_cpus_lock` and the critical lock; `Bits` has the bit tables. Each region between
  `rt_hw_interrupt_disable` and `rt_hw_interrupt_enable` is one step, and the context switch is the step that sets
  `current_thread`.
* **IPC.** `WaitList`, `Semaphore`, `Event`, `Mutex`, `Wakeup`, `Mailbox`, `Chains`, `MessageQueue` and `MemPool` are
  transition systems whose methods are the locked regions of the calls. A thread sleeps, has been resumed but has
  not run yet (`granted`, `woken`, `receiving`, `sending`, `waking`), or has failed and not run yet. Sending and
  receiving a message are two regions with a copy between them.
* **Timers.** `TimerSpec` is the plain sorted list of deadlines in unbounded time with its runs, and `TimerControl` what
  start, stop and control do in them; `Timer` is the skip list of any height over wrapping 32-bit ticks and refines it.
* **Lists and options.** `RtList` has the circular lists of `rtservice.h`; `OptSpec` and `OptParse` are `optparse.c`, and
  `OptWords` has what each form of a word means.
  `Sequences` and `Wrappers` are shared vocabulary.

## What the code does that its comments do not say

* `mem.c` never gives out a block that starts exactly at `mem_size_aligned - size`, so a fresh heap refuses a request
  of all its free bytes (`SmallMemRep.SearchFailsIff`, `SmallMemRep.WholeHeapRefused`). On a heap of fewer than
  `MIN_SIZE_ALIGNED` bytes that difference wraps and the search never ends (`SmallMemSearch.TinyHeapSearchesForEver`;
  `SmallMem.SmallHeap.SearchableIff` has the exact condition). The shrinking branch of `rt_realloc` does not lower
  `lfree` (`SmallMem.ReallocLeavesHint`; `SmallMem.SmallHeap.Shrink` and `Realloc` have the exact condition).
* `memheap.c` refuses a request equal to `available_size` (`MemHeapRep.FittingRefusedIff`, `MemHeap.MemHeap.Alloc`). A
  tiny request rounds to 12 bytes (`MemHeapRep.RoundedOff`), so that headers need not be 8-byte aligned
  (`MemHeap.TinyRequestStrays`; `MemHeap.MemHeap.AlignedIff` has the exact condition).
* `rt_mp_init` with room for no block stores the end of the chain outside the pool (`MemPool.EndOfChainInsideIff`,
  `MemPool.SmallPoolWritesInFront`).
* Power-of-two chunks of `slab.c` are aligned to their size only up to a page (`SlabSizes.PowerOfTwoAlignment`).
* A one-shot timer that restarts itself in its callback stays pending with its ACTIVATED flag cleared and cannot be
  stopped (`TimerSpec.FiringKeepsFlagsIff`, `TimerSpec.OneShotSelfRestart`).
* A mutex in arrival order can leave its owner less urgent than a waiter (`Mutex.HandOver`, `Mutex.FifoHandOver`).
* The semaphore value is 16 bits wide and incremented unchecked (`Semaphore.ReleasesWrap`; `Semaphore.Semaphore.Account`
  counts the wraps).
* An undeclared letter behind another letter leaves `subopt` set, and letters of the next word are skipped
  (`OptSpec.SubSurvives`, `OptSpec.UndeclaredSkips`). Every word is read from its first letter exactly on the lines of
  `OptSpec.FromStartIff`; `OptSpec.RunSorts` says what is found on any line.
* The 8-bit count of nested takes of a mutex wraps unchecked: the 256th leaves an owned mutex with a hold of 0
  (`Mutex.TakesWrap`; `Mutex.HoldWraps` and `Mutex.Mutex.Take` have the exact condition).
* cJSON accepts more than JSON: any byte from 1 to 32 as white space, one zero in front of other digits, a minus alone, an
  exponent without digits, any letter behind a backslash, any four characters behind a `\u`, any byte but 0 in a string,
  and a string that the end of the text cuts off (`JsonLanguage.TextIff` has the exact language).
* It accepts every JSON text, but reads escapes of U+0000 and of either half of a surrogate pair alone as nothing, and
  a first half takes a `\u` escape behind it along (`JsonString.UnitVanishes`, `LoneHighVanishes`, `HighSwallows`,
  `JsonGrammar.LetterLost`). A text without such escapes, and only such a text, is read as what it stands for
  (`JsonGrammar.ParsesAsMeantIff`, `TextOfGrammar`).

## Model

| member | source | states |
|---|---|---|
| `Timer.TickOrder` | rt-thread/src/timer.c:342-371 | The wrapping comparison `(t - timeout) < RT_TICK_MAX/2` orders deadlines as unbounded time does while both lie in one half window |
| `Timer.DueTest` | rt-thread/src/timer.c:510-520 | The wrapping test of rt_timer_check holds for a pending timer exactly when its deadline is now |
| `Timer.RowsNest` | rt-thread/src/timer.c:342-391 | Skip-list shape: every row is a subsequence of the row below it, for any number of rows |
| `Timer.InsertRows` | rt-thread/src/timer.c:342-391 | Linking a fresh timer at the found positions, from any row down, keeps every row sorted and nested |
| `Timer.InsertBottom` | rt-thread/src/timer.c:342-391 | The last row becomes the old one with the timer inserted stably, whatever the counter made of the upper rows |
| `Timer.RemoveRows` | rt-thread/src/timer.c:121-129 | Removing a timer from every row keeps the skip-list shape and removes it from the sorted list |
| `Timer.TimerSystem.constructor` | rt-thread/src/timer.c:178-192 | The initial rows are empty and stand for the empty sorted list |
| `Timer.TimerSystem.Remove` | rt-thread/src/timer.c:121-129 | Unlinks one timer from all rows; the sorted list loses exactly that timer |
| `Timer.TimerSystem.Search` | rt-thread/src/timer.c:342-371 | Finds in every row the place behind all timers due no later, entering each row below the last stop |
| `Timer.TimerSystem.StartTimer` | rt-thread/src/timer.c:296-412 | The abstract state after a start is stable sorted insertion of the restarted timer with deadline now + init |
| `Timer.TimerSystem.Link` | rt-thread/src/timer.c:373-391 | Links the last row and then upwards while the counter bits allow, at the found positions only |
| `Timer.TimerSystem.StopTimer` | rt-thread/src/timer.c:422-447 | A stop removes an activated timer and clears its flag, and fails on another, changing nothing |
| `Timer.TimerSystem.Callback` | rt-thread/src/timer.c:520-532 | The commands of a timeout function, control included, act on the list as they do from outside; what each of them does is in TimerControl |
| `Timer.TimerSystem.FireHead` | rt-thread/src/timer.c:517-547 | Consuming the first due timer: unlink, callback, and restart if it is periodic and still activated |
| `Timer.TimerSystem.CheckTimers` | rt-thread/src/timer.c:494-553 | One pass leaves the state and the log of the recursive pass on the sorted list, and terminates |
| `Timer.TimerSystem.TickIncrease` | rt-thread/src/timer.c:494-553 | One tick and one check refine one step of the sorted-list system |
| `TimerSpec.StableInsertAt` | rt-thread/src/timer.c:342-391 | Stable insertion said without recursion: behind every timer due no later, in front of the rest |
| `TimerSpec.StableInsertKeeps` | rt-thread/src/timer.c:342-391 | Insertion keeps the list sorted by (deadline, start order) and adds exactly the new timer |
| `TimerSpec.WithoutKeeps` | rt-thread/src/timer.c:121-129 | Removal keeps the list sorted and removes exactly one timer |
| `TimerSpec.FireFirstKeeps` | rt-thread/src/timer.c:517-547 | Each round consumes one due timer and adds none that is due: the reason why the loop ends |
| `TimerControl.StartSets` | rt-thread/src/timer.c:296-412 | A start leaves the timer with one deadline, its time from now on, whatever it had before, and nothing else changes |
| `TimerControl.StopClears` | rt-thread/src/timer.c:422-447 | A stop leaves an activated timer without a deadline, and nothing else changes; any other timer is left as it is |
| `TimerControl.SetTimeKeeps` | rt-thread/src/timer.c:471-473 | SET_TIME changes the time of that timer and moves no pending deadline, not even its own |
| `TimerControl.SetPeriodicKeeps` | rt-thread/src/timer.c:475-481 | SET_PERIODIC and SET_ONESHOT change that flag of that timer and move no deadline |
| `TimerControl.SetTimeStart` | rt-thread/src/ipc.c:387-391 | Time set and timer started, the way of every call with a timeout: it is pending at exactly that many ticks from now |
| `TimerControl.OwnPeriod` | rt-thread/src/timer.c:520-538 | A period that the timeout function of a periodic timer sets counts from this firing on |
| `TimerControl.OwnStop` | rt-thread/src/timer.c:520-547 | A periodic timer that its timeout function stops or makes a one-shot timer is not started again |
| `TimerControl.OneShotEnds` | rt-thread/src/timer.c:539-543 | A one-shot timer that fires has no deadline and no flag afterwards |
| `TimerControl.NextFiring` | rt-thread/src/timer.c:494-553 | In any run, a timer that nobody commands until it fires is then pending one period later or not at all, by its flag |
| `TimerControl.NewPeriod` | rt-thread/src/timer.c:471-473 | In any run, a periodic timer given a new time meets its pending deadline and then one a new period later |
| `TimerControl.NewMode` | rt-thread/src/timer.c:475-481 | In any run, whether a timer goes on after its next firing is what control said last |
| `TimerSpec.CheckFiresDue` | rt-thread/src/timer.c:494-553 | A pass fires exactly timers whose deadline is the current tick, in list order, and leaves nothing due |
| `TimerSpec.CheckKeepsUntouched` | rt-thread/src/timer.c:494-553 | A timer no callback touches is fired at its deadline and otherwise stays |
| `TimerSpec.RunFiresOnTime` | rt-thread/src/timer.c:494-553 | In every run of ticks, starts, stops and callbacks each firing is exactly at its deadline, and firings are in (deadline, start) order |
| `TimerSpec.UntouchedTimerFires` | rt-thread/src/timer.c:494-553 | A pending timer that nobody restarts or stops fires at its deadline in every run long enough, and is pending before |
| `TimerSpec.PeriodicTimerRearms` | rt-thread/src/timer.c:533-538 | A periodic timer that fires is pending again one period after the deadline it met |
| `TimerSpec.FiringKeepsFlagsIff` | rt-thread/src/timer.c:533-547 | Pending means ACTIVATED after a firing if and only if the timer is then periodic or its callback did not end by starting it |
| `TimerSpec.OneShotSelfRestart` | rt-thread/src/timer.c:539-543 | A one-shot timer that restarts itself stays pending with the flag cleared, and cannot be stopped |
| `PageList.CanonicalUnique` | rt-thread/src/slab.c:196-234 | Sorted maximal runs are a canonical form: the set of free pages determines the list |
| `PageList.AllocFits` | rt-thread/src/slab.c:236-270 | Allocation keeps the list canonical and takes exactly the returned pages, or nothing |
| `PageList.AllocLowest` | rt-thread/src/slab.c:236-270 | First fit returns the lowest address with n free pages in a row, and fails exactly when there is none |
| `PageList.FreeAdds` | rt-thread/src/slab.c:272-322 | Freeing used pages adds exactly them and keeps runs sorted, maximal and apart |
| `PageList.FreeUndoesAlloc` | rt-thread/src/slab.c:236-322 | Freeing what was just allocated restores the identical list |
| `PageList.FreesCommute` | rt-thread/src/slab.c:272-322 | Releases of disjoint ranges commute |
| `Slab.SlabHeap.PageAlloc` | rt-thread/src/slab.c:236-270 | The loop over the page list computes first fit on the list of runs |
| `Slab.SlabHeap.PageFree` | rt-thread/src/slab.c:272-322 | The loop computes the coalescing insertion on the list of runs |
| `SlabSizes.ZoneIndexSound` | rt-thread/src/slab.c:401-459 | Every size below 16 KiB gets an index below 72 and a chunk at least as large, one chunk size per index |
| `SlabSizes.ZoneIndexWaste` | rt-thread/src/slab.c:401-459 | Rounding wastes under 8 bytes below 128 and less than an eighth of the chunk from 128 on |
| `SlabSizes.ZoneIndexTightest` | rt-thread/src/slab.c:401-459 | The class is the least one whose chunks hold the request |
| `SlabSizes.AtLeastThree` | rt-thread/src/slab.c:625-646 | Every zone has room for at least three chunks, for every zone size rt_system_heap_init may choose |
| `SlabOrder.LimitOf` | rt-thread/src/slab.c:374-381 | Requests from 8192 or 16384 bytes on are large, by the zone size |
| `SlabOrder.OffsetLeast` | rt-thread/src/slab.c:625-640 | The chunks start at the first multiple of their size behind the header for powers of two, at 56 otherwise |
| `SlabOrder.ChunksFit` | rt-thread/src/slab.c:641-644 | A zone has exactly as many chunks as fit behind that |
| `SlabSizes.ChunkInZone` | rt-thread/src/slab.c:628-648 | Chunks lie behind the zone header and inside the zone |
| `SlabSizes.PowerOfTwoTest` | rt-thread/src/slab.c:635 | The bit test `(size \| (size - 1)) + 1 == size << 1` holds exactly for the powers of two |
| `SlabSizes.PowerOfTwoAlignment` | rt-thread/src/slab.c:631-638 | Power-of-two chunks are aligned to their size up to a page; beyond it the claim holds only as far as zones are aligned |
| `SlabRep.FreeCount` | rt-thread/src/slab.c:838-855 | z_nfree is z_nmax less the chunks in use, so z_nfree == z_nmax says that none is |
| `SlabRep.TakeChunkOk` | rt-thread/src/slab.c:543-568 | The next chunk is not in use, and z_nfree = (z_nmax - 1 - z_uindex) + length(z_freechunk) is kept |
| `SlabRep.GiveChunkOk` | rt-thread/src/slab.c:830-846 | Giving a chunk back keeps the same account |
| `SlabOrder.NeverUsedFirst` | rt-thread/src/slab.c:556-560 | Any number of allocations from a zone give its never-used chunks in the order of their addresses, whatever is free |
| `SlabOrder.LastFreedFirst` | rt-thread/src/slab.c:562-567 | A zone without such chunks gives the freed ones, the last freed first |
| `SlabOrder.FreshRun` | rt-thread/src/slab.c:625-655 | A new zone gives the chunk behind its header and then the following ones |
| `SlabOrder.FreeThenNew` | rt-thread/src/slab.c:537-571 | Two allocations, a free of the first and an allocation: while there are never-used chunks the last one is the one behind the second |
| `SlabOrder.FreeThenReuse` | rt-thread/src/slab.c:826-832 | A free and an allocation in a zone without never-used chunks: it is the chunk just freed |
| `SlabRep.OneIdleAlone` | rt-thread/src/slab.c:848-855 | A zone that became totally free may stay on its list when it is alone there: its class has no other idle zone |
| `SlabRep.LiveDisjoint` | rt-thread/src/slab.c:478-667 | Live blocks lie inside the heap and are pairwise disjoint |
| `SlabRep.PageMapFindsOwner` | rt-thread/src/slab.c:795-827 | The page map leads every live pointer back to its zone, or to its run of pages with their count |
| `Slab.SlabHeap.constructor` | rt-thread/src/slab.c:344-395 | The initial heap: all pages but those of the page map are one free run, no zone, nothing in use |
| `Slab.SlabHeap.ZoneSize` | rt-thread/src/slab.c:374-381 | The loop gives a power of two from 32 to 128 KiB: the least that reaches half of limsize / 1024, or a bound |
| `Slab.SlabHeap.ReadyMeans` | rt-thread/src/slab.c:478-904 | Between any two calls: live blocks disjoint and inside; used_mem their total; each zone accounted, on its class list exactly when it has a free chunk; at most one idle zone per class, at most two on zone_free; page list canonical |
| `Slab.SlabHeap.MallocLarge` | rt-thread/src/slab.c:493-521 | A large request takes whole pages, or fails if and only if no run of free pages is that long |
| `Slab.SlabHeap.MallocFromClass` | rt-thread/src/slab.c:539-577 | The first zone of the class gives its next chunk, and leaves the class when that was its last one |
| `Slab.SlabHeap.ObtainZone` | rt-thread/src/slab.c:590-623 | A zone comes from zone_free, else from new pages whose map entries lead back to it; none if and only if both have none |
| `Slab.SlabHeap.StartZone` | rt-thread/src/slab.c:625-658 | The header written makes the zone serve its class and hands out its first chunk |
| `Slab.SlabHeap.ZoneHeader` | rt-thread/src/slab.c:625-648 | The branch on the bit test computes the header that the geometry prescribes: the offset rounds up to the chunk size for powers of two, to 8 otherwise |
| `Slab.SlabHeap.Malloc` | rt-thread/src/slab.c:478-667 | A fresh block of the class size (or page-rounded size); NULL if and only if the class has no zone, zone_free is empty and no run of free pages is long enough (or, for a large request, the last alone) |
| `Slab.SlabHeap.FreeChunk` | rt-thread/src/slab.c:822-903 | The chunk is free again; its zone is linked at the front of its class when this is its only free chunk |
| `Slab.SlabHeap.RetireZone` | rt-thread/src/slab.c:854-901 | An idle zone moves to zone_free; a third one there goes back to the page list |
| `Slab.SlabHeap.FreeLarge` | rt-thread/src/slab.c:795-820 | The run of pages recorded in the page map goes back to the page list |
| `Slab.SlabHeap.Free` | rt-thread/src/slab.c:771-904 | Exactly that block is no longer live, and everything above is kept |
| `Slab.SlabHeap.Realloc` | rt-thread/src/slab.c:678-735 | Stays at ptr if and only if ptr is a chunk whose chunk size is the rounded one: large blocks always move; else a fresh block of at least the size and the old one freed; NULL exactly where Malloc of the rounded size has none, and it leaves the heap |
| `Tiling.MergeOk` | rt-thread/src/mem.c:156-194 | Absorbing a free neighbour keeps the headers tiling the heap and linked, and changes no other block |
| `Tiling.SplitTiles` | rt-thread/src/mem.c:329-348 | Splitting a block keeps the headers tiling the heap and linked both ways |
| `Tiling.MergeBackFirst` | rt-thread/src/memheap.c:540-578 | Merging with the block in front leaves at most the pair behind the merged block uncoalesced |
| `Tiling.Canonical` | rt-thread/src/mem.c:546-609 | The used blocks determine all headers: any order of frees leads to the same heap |
| `Tiling.LiveDisjoint` | rt-thread/src/mem.c:272-410 | Used blocks lie inside the memory and never overlap |
| `SmallMemRep.AlignCovers` | rt-thread/src/mem.c:288-296 | RT_ALIGN loses nothing unless it wraps, and adds less than 8 bytes |
| `SmallMemRep.SearchFailsIff` | rt-thread/src/mem.c:305-311 | The search misses a fitting block if and only if its only candidate starts exactly at mem_size_aligned - size |
| `SmallMemRep.WholeHeapRefused` | rt-thread/src/mem.c:305-311 | A fresh heap refuses a request of exactly its free size although its block would hold it |
| `SmallMemRep.EmptyHeap` | rt-thread/src/mem.c:546-609 | With nothing allocated, however it got there, the heap is the single initial block |
| `SmallMemSearch.SearchEndsIff` | rt-thread/src/mem.c:305-311 | On every heap the walk from lfree ends if and only if `mem_size_aligned - size` does not wrap |
| `SmallMemSearch.WalkStays` | rt-thread/src/mem.c:305-307 | At heap_end, whose next is itself, the walk stays for any number of rounds |
| `SmallMemSearch.TinyHeapSearchesForEver` | rt-thread/src/mem.c:288-311 | A fresh heap of 8 bytes and a request of one byte: the loop test holds after any number of rounds, all but the first at heap_end |
| `SmallMem.SmallHeap.constructor` | rt-thread/src/mem.c:204-257 | The initial heap: one free block and heap_end, lfree at the block |
| `SmallMem.SmallHeap.ValidMeans` | rt-thread/src/mem.c:156-609 | Between any two calls of malloc and free: headers tile the heap and link both ways, no two neighbours are free, used blocks are disjoint, used_mem is their total extent, lfree is the lowest free block or the end |
| `SmallMem.SmallHeap.SearchableIff` | rt-thread/src/mem.c:280-311 | On every heap and for every n, rt_malloc comes to an end if and only if n is 0, or RT_ALIGN(n) exceeds the heap, or the heap has MIN_SIZE_ALIGNED bytes |
| `SmallMem.SmallHeap.PlugForward` | rt-thread/src/mem.c:165-180 | Merges with a free block behind, moving lfree when it was that block |
| `SmallMem.SmallHeap.PlugBackward` | rt-thread/src/mem.c:182-193 | Merges with a free block in front, moving lfree when it was this block |
| `SmallMem.SmallHeap.PlugHoles` | rt-thread/src/mem.c:156-194 | After both merges no two free neighbours are left and lfree is still lowest |
| `SmallMem.SmallHeap.FirstFit` | rt-thread/src/mem.c:305-311 | The loop finds the first fitting block from lfree on, below mem_size_aligned - size |
| `SmallMem.SmallHeap.TakeBlock` | rt-thread/src/mem.c:311-370 | Splits off the rest when it holds a header and MIN_SIZE bytes, else takes the block whole; used_mem and max_mem follow |
| `SmallMemRep.TookMeans` | rt-thread/src/mem.c:313-365 | A block that was taken holds the request and less than another header and MIN_SIZE more; the free blocks are those from before and, if a rest was cut off, that rest, which can hold MIN_SIZE bytes |
| `SmallMem.SmallHeap.NextFree` | rt-thread/src/mem.c:380-387 | lfree moves to the next free block or heap_end |
| `SmallMem.SmallHeap.Malloc` | rt-thread/src/mem.c:272-410 | For every request that the search answers (SearchableIff): the lowest fitting block; NULL exactly for 0, an oversized request, or no fitting block below mem_size_aligned - size; tiling, coalescing, lfree and used_mem kept |
| `SmallMem.SmallHeap.Free` | rt-thread/src/mem.c:546-609 | Exactly that block is no longer used; tiling, coalescing, lowest lfree and used_mem kept |
| `SmallMem.SmallHeap.MallocFree` | rt-thread/src/mem.c:272-609 | Freeing what was just allocated restores every header |
| `SmallMem.SmallHeap.Shrink` | rt-thread/src/mem.c:471-497 | Gives the tail back; lfree stays the lowest free block if and only if the new free block is not in front of it and unmerged |
| `SmallMem.ReallocLeavesHint` | rt-thread/src/mem.c:272-494 | A run: on a heap of 240 bytes two mallocs and a realloc of the first block leave a free block in front of lfree |
| `SmallMem.SmallHeap.Realloc` | rt-thread/src/mem.c:421-510 | Stays at p if and only if the payload is the aligned size or exceeds it by more than a header and MIN_SIZE: a block that fits with a shorter tail moves; RT_NULL exactly for size 0, an oversized request, or a move that finds no block, and it leaves the heap; lfree is left behind exactly when a tail in front of it becomes a free block of its own |
| `MemHeapRep.RoundedTwice` | rt-thread/src/memheap.c:300-308 | A size rounded by rt_memheap_realloc is not made smaller when rt_memheap_alloc rounds it again |
| `MemHeapRep.RoundedCovers` | rt-thread/src/memheap.c:147-150 | The rounded size covers the request exactly when RT_ALIGN does not wrap, or the request is tiny, and by less than 8 bytes more unless it is 12 |
| `MemHeapRep.FittingRefusedIff` | rt-thread/src/memheap.c:155 | A request that a free block would hold is refused if and only if that block is all the free memory and would be filled exactly |
| `MemHeapRep.RoundedOff` | rt-thread/src/memheap.c:147-150 | The rounded size is no multiple of 8 exactly for requests that RT_ALIGN makes smaller than 12, and then it is 12 |
| `MemHeapRep.SplitAlloc` | rt-thread/src/memheap.c:187-235 | The split keeps ring, used blocks, free blocks and available_size in agreement |
| `MemHeapRep.WholeAlloc` | rt-thread/src/memheap.c:237-258 | Taking a block whole keeps them in agreement |
| `MemHeapRep.GrowOk` | rt-thread/src/memheap.c:352-400 | Growing into the free block behind keeps tiling, coalescing and available_size |
| `MemHeapRep.TrimJoin` | rt-thread/src/memheap.c:432-486 | Cutting off a tail in front of a free block and merging them keeps tiling, coalescing and available_size |
| `MemHeapRep.TrimAlone` | rt-thread/src/memheap.c:432-486 | Cutting off a tail in front of a used block keeps tiling, coalescing and available_size |
| `MemHeapRep.EmptyHeap` | rt-thread/src/memheap.c:495-595 | With nothing allocated the heap is the initial block and all its bytes are available |
| `FreeRing.PushOk` | rt-thread/src/memheap.c:475-479 | The double links of the free list stay a ring when a block goes in behind the header |
| `FreeRing.RemoveOk` | rt-thread/src/memheap.c:245-256 | They stay a ring when a block goes out from anywhere |
| `MemHeap.MemHeap.constructor` | rt-thread/src/memheap.c:50-121 | One free block, the tailer, and a free list of that block |
| `MemHeap.MemHeap.ValidMeans` | rt-thread/src/memheap.c:138-595 | Between any two calls: the ring tiles the pool and links both ways, no two neighbours are free, used blocks are disjoint, the free list holds exactly the unused blocks once each, available_size is their summed payload |
| `MemHeap.MemHeap.AlignedIff` | rt-thread/src/memheap.c:147-150 | Over any run of alloc, realloc and free: every header has always stood at a multiple of 8 if and only if no request rounded to 12 has been cut off a longer block |
| `MemHeap.TinyRequestStrays` | rt-thread/src/memheap.c:147-235 | A request of one byte on a fresh pool leaves a header at 60; freed again, the heap is empty, but the header has been there |
| `MemHeap.MemHeap.Search` | rt-thread/src/memheap.c:157-181 | The first block of the free list that is large enough; none exactly when all free blocks are too small |
| `MemHeap.MemHeap.AllocSplit` | rt-thread/src/memheap.c:187-235 | The rest of the block becomes a free block at the front of the list; bytes counted exactly |
| `MemHeap.MemHeap.AllocWhole` | rt-thread/src/memheap.c:237-258 | The block leaves the list and its payload the count |
| `MemHeap.MemHeap.Alloc` | rt-thread/src/memheap.c:138-281 | The first fit of the list; RT_NULL exactly when no free block is large enough or the request is not below available_size; other blocks, the high water mark and the history of odd headers as stated |
| `MemHeap.MemHeap.MergeBack` | rt-thread/src/memheap.c:540-557 | Merges with a free block in front, which keeps its place in the list |
| `MemHeap.MemHeap.MergeNext` | rt-thread/src/memheap.c:559-578 | Merges with a free block behind, which leaves the list; afterwards no two neighbours are free |
| `MemHeap.MemHeap.Free` | rt-thread/src/memheap.c:495-595 | Exactly that block is no longer used; the list changes by the merges and is headed by the block unless it merged to the front |
| `MemHeap.FreedFirst` | rt-thread/src/memheap.c:157-181 | A block that was just freed on its own is the one found next if it is large enough |
| `MemHeap.MemHeap.Grow` | rt-thread/src/memheap.c:333-403 | In place growth: the free block behind lends the bytes and its rest heads the list |
| `MemHeap.MemHeap.Shrink` | rt-thread/src/memheap.c:419-491 | The tail becomes a free block at the head of the list, joined with a free block behind it |
| `MemHeap.MemHeap.Realloc` | rt-thread/src/memheap.c:284-492 | Stays at p if and only if the rounded size fits there, grown or not; RT_NULL exactly for size 0 or a move that Alloc refuses; the result has room for the rounded size, other blocks are as they were |
| `Utf8.EncodeDecodes` | packages/cJSON-v1.0.2/cJSON.c:235-243 | Every scalar value becomes well-formed UTF-8 (section 4 of RFC 3629) that decodes to it |
| `Utf8.DecodeEncodes` | packages/cJSON-v1.0.2/cJSON.c:235-243 | Every well-formed sequence is the one encoding of what it decodes to |
| `Utf8.ContinuationBits` | packages/cJSON-v1.0.2/cJSON.c:237-242 | The masks and shifts of a continuation byte in arithmetic |
| `JsonSpec.Transcode` | packages/cJSON-v1.0.2/cJSON.c:222-244 | Case u of the escapes, malformed digits being read as 0: the bytes emitted are never more than the characters read |
| `Utf8.LeadBits` | packages/cJSON-v1.0.2/cJSON.c:237-242 | A first byte mark and the bits left for it do not overlap: the or of the code is the sum of the model |
| `Utf8.SurrogateBits` | packages/cJSON-v1.0.2/cJSON.c:233 | The mask, shift and or that join a surrogate pair, in arithmetic |
| `JsonNumber.FractionValue` | packages/cJSON-v1.0.2/cJSON.c:109-116 | Digits behind the point count like more digits in front of it and a smaller exponent |
| `JsonNumber.NumberParses` | packages/cJSON-v1.0.2/cJSON.c:102-121 | Every numeral is read as its exact value, before rounding to a double, and parsing stops behind it |
| `JsonNumber.NumberIff` | packages/cJSON-v1.0.2/cJSON.c:102-121 | parse_number takes exactly these numerals, each as far as it goes: those of section 6 of RFC 8259 and, beyond them, one zero in front of other digits, a minus alone, and an exponent without digits |
| `JsonString.HexDigits` | packages/cJSON-v1.0.2/cJSON.c:183-195 | The hex digits are 0-9, a-f and A-F, with their values, and nothing else |
| `JsonString.CharsParse` | packages/cJSON-v1.0.2/cJSON.c:203-256 | The body of every literal that is taken is read as CharsRead says: what does not fit vanishes, and a lone first half of a pair takes the \u escape behind it along |
| `JsonString.PairParses` | packages/cJSON-v1.0.2/cJSON.c:230-235 | Two escapes that make a surrogate pair are read as the one character of section 7 of RFC 8259 |
| `JsonString.StringIff` | packages/cJSON-v1.0.2/cJSON.c:198-256 | parse_string succeeds if and only if the text is a quote, a sequence of characters (any byte but 0, any letter behind a backslash, any four characters behind a \u), and then a quote or the end of the text; what it returns is what these characters are read as |
| `JsonGrammar.CharsReadIff` | packages/cJSON-v1.0.2/cJSON.c:203-256 | That is what the string stands for if and only if no escape is U+0000 or half of a pair; else something is missing |
| `JsonGrammar.StringAsMeantIff` | packages/cJSON-v1.0.2/cJSON.c:198-256 | So a literal, also the name of a member, is read as what it stands for if and only if its escapes fit |
| `JsonString.UnitVanishes` | packages/cJSON-v1.0.2/cJSON.c:223-225 | An escape of U+0000 or of a second half of a pair that stands alone is read as nothing |
| `JsonString.LoneHighVanishes` | packages/cJSON-v1.0.2/cJSON.c:227-229 | So is a first half in front of anything but a \u escape |
| `JsonString.HighSwallows` | packages/cJSON-v1.0.2/cJSON.c:227-231 | A first half in front of a \u escape that is no second half is read as nothing together with that escape |
| `JsonGrammar.LetterLost` | packages/cJSON-v1.0.2/cJSON.c:227-231 | The literal with the body `\ud800\u0041` is read as the empty string |
| `JsonLanguage.ItemsParse` | packages/cJSON-v1.0.2/cJSON.c:412-438 | The items of an array, with blanks around each, are read in order, up to and including the bracket |
| `JsonLanguage.EntriesParse` | packages/cJSON-v1.0.2/cJSON.c:520-554 | The members of an object, with blanks around each part, are read in order, repeated names kept, up to and including the brace |
| `JsonLanguage.ValueParses` | packages/cJSON-v1.0.2/cJSON.c:363-375 | Every value of the accepted language is read as Reads says, and parsing stops right behind it |
| `JsonLanguage.ValueIff` | packages/cJSON-v1.0.2/cJSON.c:363-437 | parse_value succeeds if and only if the text is the spelling of a value of that language in front of the rest; so a missing colon, comma or bracket, or a word cut short, is an error |
| `JsonLanguage.TextIff` | packages/cJSON-v1.0.2/cJSON.c:329-345 | cJSON_ParseWithOpts succeeds if and only if the text is blanks and such a value, and with require_null_terminated nothing but blanks up to the end; it returns the tree of that value |
| `JsonGrammar.FormedTaken` | packages/cJSON-v1.0.2/cJSON.c:102-554 | Every text of the grammar of RFC 8259 is a text of the accepted language |
| `JsonGrammar.GrammarParses` | packages/cJSON-v1.0.2/cJSON.c:363-375 | Every value of the grammar of RFC 8259 is accepted, read as Reads says, and parsing stops right behind it |
| `JsonGrammar.ReadsIff` | packages/cJSON-v1.0.2/cJSON.c:203-256 | Reads gives what a value stands for if and only if every escape in it, at any depth, fits |
| `JsonGrammar.ParsesAsMeantIff` | packages/cJSON-v1.0.2/cJSON.c:363-375 | So a value of the grammar is read as what it stands for if and only if every escape in it fits |
| `JsonGrammar.TextOfGrammar` | packages/cJSON-v1.0.2/cJSON.c:329-345 | The same of every JSON text of section 2, with white space around the value, with and without require_null_terminated |
| `JsonRoundTrip.UnicodeEscapeParses` | packages/cJSON-v1.0.2/cJSON.c:222-244 | Every scalar value written as one UTF-16 escape or two is read as its UTF-8 encoding |
| `JsonRoundTrip.QuotedParses` | packages/cJSON-v1.0.2/cJSON.c:198-312 | A printed string literal parses back to the string and stops right behind it |
| `JsonRoundTrip.IntTextParses` | packages/cJSON-v1.0.2/cJSON.c:102-121 | The decimal text of every int parses back to it, whatever non-number follows |
| `JsonRoundTrip.PrintSpelled` | packages/cJSON-v1.0.2/cJSON.c:378-664 | What is printed, at any depth and in both formats, is a text of the grammar of RFC 8259 |
| `JsonRoundTrip.Derived` | packages/cJSON-v1.0.2/cJSON.c:378-664 | The derivation of that text follows the rules of the grammar and stands for the printed tree |
| `JsonRoundTrip.EscapedIff` | packages/cJSON-v1.0.2/cJSON.c:264-311 | Exactly quotes, backslashes and control characters are escaped, seven of them by a letter |
| `JsonRoundTrip.Unformatted` | packages/cJSON-v1.0.2/cJSON.c:440-664 | Unformatted text has no white space outside its strings, and formatted text is that text with white space |
| `JsonRoundTrip.MemberLines` | packages/cJSON-v1.0.2/cJSON.c:580-664 | In formatted text every member is on a line of its own, one tab deeper than the braces, with a tab behind the colon, and the closing brace is on the next line |
| `JsonRoundTrip.ItemGaps` | packages/cJSON-v1.0.2/cJSON.c:470-517 | In a formatted array one space follows each comma |
| `JsonRoundTrip.ValueRound` | packages/cJSON-v1.0.2/cJSON.c:363-664 | The text of a value at any depth, followed by anything that cannot continue a number, parses back to the value and stops behind it |
| `JsonRoundTrip.RoundTrip` | packages/cJSON-v1.0.2/cJSON.c:329-359 | Parsing the printed text, formatted or not, with or without require_null_terminated, gives the same tree and consumes the text |
| `JsonSample.Sample` | packages/cJSON-v1.0.2/cJSON.c:345-664 | A tree with an object, an array, a negative number and words is printed as the text one would write down, in both formats |
| `JsonSample.SampleRead` | packages/cJSON-v1.0.2/cJSON.c:329-343 | These texts, written as characters, are read as that tree |
| `JsonRoundTrip.PrintInjective` | packages/cJSON-v1.0.2/cJSON.c:345-359 | Two trees with the same text in the same format are the same |
| `JsonParser.SkipBlanks` | packages/cJSON-v1.0.2/cJSON.c:326 | skip: the position behind all bytes from 1 to 32 |
| `JsonParser.ReadInteger` | packages/cJSON-v1.0.2/cJSON.c:107-108 | One zero and the digits, read by position |
| `JsonParser.ReadFraction` | packages/cJSON-v1.0.2/cJSON.c:109 | The digits behind the point, counted downwards, agree with the recursive reading |
| `JsonParser.ReadExponent` | packages/cJSON-v1.0.2/cJSON.c:110-113 | The sign and digits of the exponent agree with the recursive reading |
| `JsonParser.ReadNumber` | packages/cJSON-v1.0.2/cJSON.c:102-121 | parse_number: sign, digits, fraction and exponent give the exact value that the recursive reading gives |
| `JsonParser.TranscodeRoom` | packages/cJSON-v1.0.2/cJSON.c:203-244 | A \u escape never emits more bytes than the counting pass reserved for it |
| `JsonParser.OpenIsOutside` | packages/cJSON-v1.0.2/cJSON.c:203 | A literal whose last backslash stands in front of the terminator is outside the model in both passes |
| `JsonParser.CountString` | packages/cJSON-v1.0.2/cJSON.c:203 | The counting pass gives the room the filling pass needs |
| `JsonParser.StoreUtf8` | packages/cJSON-v1.0.2/cJSON.c:235-243 | The fall-through switch writes the UTF-8 encoding, last byte first, in place |
| `JsonParser.StoreEscape` | packages/cJSON-v1.0.2/cJSON.c:222-244 | Case u writes what the transcoder says and stays inside the reserved room |
| `JsonParser.FillString` | packages/cJSON-v1.0.2/cJSON.c:205-251 | The filling pass writes exactly the unescaped string and its terminator, inside the buffer |
| `JsonParser.ReadString` | packages/cJSON-v1.0.2/cJSON.c:198-255 | parse_string agrees with the recursive reading of literals |
| `JsonParser.ReadArray` | packages/cJSON-v1.0.2/cJSON.c:412-437 | parse_array: the loop over linked items agrees with the recursive reading, success and failure |
| `JsonParser.ReadMember` | packages/cJSON-v1.0.2/cJSON.c:528-548 | Name, colon and value of one member, or an error where the recursive reading has one |
| `JsonParser.ReadObject` | packages/cJSON-v1.0.2/cJSON.c:520-553 | parse_object agrees with the recursive reading |
| `JsonParser.ReadValue` | packages/cJSON-v1.0.2/cJSON.c:363-375 | parse_value dispatches as the recursive reading does |
| `JsonParser.ParseWithOpts` | packages/cJSON-v1.0.2/cJSON.c:329-343 | The whole parser agrees with the recursive reading, with and without require_null_terminated |
| `PowerOfTwo.SmearTop` | packages/cJSON-v1.0.2/cJSON.c:123 | One smearing round by m bits turns m leading ones into 2m |
| `PowerOfTwo.Pow2Gt` | packages/cJSON-v1.0.2/cJSON.c:123 | pow2gt: a power of two, not below x and less than twice x |
| `JsonPrinter.PrintNulFree` | packages/cJSON-v1.0.2/cJSON.c:378-664 | A printed text holds no NUL, so strlen finds its end |
| `JsonPrinter.MeasureString` | packages/cJSON-v1.0.2/cJSON.c:262-284 | The measuring passes give the exact escaped length, and no flag means nothing to escape |
| `JsonPrinter.StoreQuoted` | packages/cJSON-v1.0.2/cJSON.c:266-312 | The literal written in place fits the measured buffer and is terminated |
| `JsonPrinter.PrintString` | packages/cJSON-v1.0.2/cJSON.c:258-313 | print_string_ptr without a buffer: a fresh C string of the quoted text |
| `JsonPrinter.PrintNumber` | packages/cJSON-v1.0.2/cJSON.c:153-181 | print_number in the int range: a fresh C string of the decimal text, in the bytes allocated |
| `JsonPrinter.RenderItems` | packages/cJSON-v1.0.2/cJSON.c:477-492 | The first pass over an array renders every entry and computes a length that covers them |
| `JsonPrinter.JoinItems` | packages/cJSON-v1.0.2/cJSON.c:504-512 | The second pass joins the entries without passing the computed length |
| `JsonPrinter.PrintArray` | packages/cJSON-v1.0.2/cJSON.c:440-517 | print_array without a buffer: a fresh C string of the array text |
| `JsonPrinter.RenderMembers` | packages/cJSON-v1.0.2/cJSON.c:616-635 | The first pass over an object renders names and values and computes a length that covers them |
| `JsonPrinter.JoinMembers` | packages/cJSON-v1.0.2/cJSON.c:646-657 | The second pass joins them without passing the computed length |
| `JsonPrinter.PrintObject` | packages/cJSON-v1.0.2/cJSON.c:556-664 | print_object without a buffer: a fresh C string of the object text |
| `JsonPrinter.PrintValue` | packages/cJSON-v1.0.2/cJSON.c:378-409 | The two-pass printer gives a fresh C string of exactly the specified text, for every printable tree, depth and format |
| `JsonBuffer.PrintBuffer.constructor` | packages/cJSON-v1.0.2/cJSON.c:351-359 | A print buffer of the requested size, nothing printed |
| `JsonBuffer.PrintBuffer.Ensure` | packages/cJSON-v1.0.2/cJSON.c:127-142 | Room for the needed bytes behind offset; what was printed is kept when the buffer moves |
| `JsonBuffer.PrintBuffer.Update` | packages/cJSON-v1.0.2/cJSON.c:144-150 | update: the offset of the terminator behind what was last written |
| `JsonBuffer.PrintBuffer.PrintString` | packages/cJSON-v1.0.2/cJSON.c:258-313 | The quoted text behind offset, inside the ensured bytes |
| `JsonBuffer.PrintBuffer.PrintArray` | packages/cJSON-v1.0.2/cJSON.c:459-474 | The array text behind offset, piece by piece, each write inside the ensured bytes |
| `JsonBuffer.PrintBuffer.PrintObject` | packages/cJSON-v1.0.2/cJSON.c:576-613 | The object text behind offset, each write inside the ensured bytes |
| `JsonBuffer.PrintBuffer.PrintValue` | packages/cJSON-v1.0.2/cJSON.c:378-409 | Behind what was there stands the text of the value, terminated |
| `JsonBuffer.PrintBuffered` | packages/cJSON-v1.0.2/cJSON.c:351-359 | For every first size from 1 on the growing buffer ends as a C string of the specified text |
| `JsonBuffer.BothPrinters` | packages/cJSON-v1.0.2/cJSON.c:345-359 | Both printers leave the same C string |
| `WaitList.Enqueue` | rt-thread/src/ipc.c:80-123 | The new waiter stands last, or behind all waiters as urgent and in front of the first less urgent one; the others keep their order |
| `WaitList.JoinedMeans` | rt-thread/src/ipc.c:80-123 | In order of arrival the new waiter is the last; by priority it stands behind all that are as urgent or more and in front of all others |
| `WaitList.InsertedSorted` | rt-thread/src/ipc.c:94-118 | A priority list stays sorted, equals in order of arrival |
| `WaitList.InsertedDistinct` | rt-thread/src/ipc.c:80-123 | Nobody waits twice |
| `WaitList.WithoutSorted` | rt-thread/src/thread.c:764-798 | A waiter taken out by its timeout leaves the list sorted |
| `Semaphore.Semaphore.constructor` | rt-thread/src/ipc.c:199-220 | Initial value, no waiter |
| `Semaphore.Semaphore.Take` | rt-thread/src/ipc.c:324-409 | Takes a token, fails at once for time 0, or joins the waiters in the order of the flag |
| `Semaphore.Semaphore.Rerun` | rt-thread/src/ipc.c:396-402 | A blocked take returns RT_EOK exactly when a release woke it |
| `Semaphore.Semaphore.Release` | rt-thread/src/ipc.c:433-471 | Wakes the first waiter for the token, or counts it in 16 bits |
| `Semaphore.Semaphore.Timeout` | rt-thread/src/thread.c:807-829 | Exactly that waiter leaves, with an error |
| `Semaphore.Semaphore.Reset` | rt-thread/src/ipc.c:483-515 | Every waiter fails and the account starts again |
| `Semaphore.Semaphore.Account` | rt-thread/src/ipc.c:324-471 | No waiter while the value is positive; initial tokens plus releases equal value plus successful takes exactly while the 16-bit value has not wrapped |
| `Semaphore.ReleasesWrap` | rt-thread/src/ipc.c:423-471 | A run: 65536 releases that nobody waits for leave a value of 0 and one wrap |
| `Event.MetSubset` | rt-thread/src/ipc.c:1063-1082 | More flags never hurt a waiter |
| `Event.WantBits` | rt-thread/src/ipc.c:1063-1092 | By the bits of event_info: AND needs all wanted flags and receives them, OR needs one and receives those set, neither is never met; and only with CLEAR do the received flags go |
| `Event.AtItsTurn` | rt-thread/src/ipc.c:1056-1101 | A waiter is woken if and only if its condition holds for the flags at its turn, with what is due then, and each turn starts from what the one before left |
| `Event.OnlyClearedGo` | rt-thread/src/ipc.c:1090-1092 | The flags after a walk are those before it without exactly what the clearing deliveries got; a delivery clears if and only if its waiter asked for it |
| `Event.NobodyClears` | rt-thread/src/ipc.c:1056-1101 | When no waiter clears, the flags stay and exactly the waiters whose condition holds are woken |
| `Event.GivenDistinct` | rt-thread/src/ipc.c:1056-1101 | No waiter is woken twice in a walk |
| `Event.WokenGot` | rt-thread/src/ipc.c:1077-1095 | Each woken waiter is told what it received |
| `Event.WalkLeavesUnmet` | rt-thread/src/ipc.c:1056-1101 | After the walk of a send nobody left asleep is satisfied by the remaining flags, although CLEAR waiters consume bits on the way |
| `Event.ClearedOnce` | rt-thread/src/ipc.c:1063-1095 | Every woken waiter got flags that were set, and a flag one of them cleared reaches no later one |
| `Event.WalkPartitions` | rt-thread/src/ipc.c:1056-1101 | Every waiter stays in its old order or is woken, none lost or doubled |
| `Event.Event.constructor` | rt-thread/src/ipc.c:915-933 | No flags, no waiters |
| `Event.Event.NobodyMissed` | rt-thread/src/ipc.c:1029-1237 | No waiter sleeps while its condition holds, and a woken one is told what it received |
| `Event.Event.WalkList` | rt-thread/src/ipc.c:1056-1101 | The loop over the suspend list computes the recursive walk |
| `Event.Event.Send` | rt-thread/src/ipc.c:1029-1111 | The new flags join the old ones, and flags, waiters and deliveries are those of the walk; nobody sleeps whose AND or OR condition holds |
| `Event.Event.Recv` | rt-thread/src/ipc.c:1127-1237 | Takes its flags at once, fails at once, or sleeps with a condition that does not hold |
| `Event.Event.Rerun` | rt-thread/src/ipc.c:1214-1236 | A blocked receive returns RT_EOK exactly when a send woke it, with what the send delivered |
| `Event.Event.Timeout` | rt-thread/src/thread.c:807-829 | Exactly that waiter leaves, with an error |
| `Event.Event.Reset` | rt-thread/src/ipc.c:1249-1277 | Every waiter fails and no flag is set |
| `Mutex.HandOver` | rt-thread/src/ipc.c:841-860 | Handing the mutex to the first waiter keeps the owner at least as urgent as every waiter if and only if nobody behind is more urgent; in a sorted list always |
| `Mutex.FifoHandOver` | rt-thread/src/ipc.c:841-860 | In arrival order the bound can break |
| `Mutex.Mutex.constructor` | rt-thread/src/ipc.c:530-550 | Free: value 1, no owner, hold 0 |
| `Mutex.Mutex.ValidMeans` | rt-thread/src/ipc.c:654-881 | value = 1, no owner and hold = 0 coincide; only an owned mutex has waiters; only the owner runs above its own priority; a thread handed the mutex owns it |
| `Mutex.HoldWraps` | rt-thread/src/ipc.c:680-684 | One more nested take leaves value, owner and the 8-bit hold in agreement if and only if the hold is below 255 |
| `Mutex.TakesWrap` | rt-thread/src/ipc.c:680-704 | A run: 256 takes by one thread leave a mutex that it owns with a hold of 0 |
| `Mutex.Mutex.Take` | rt-thread/src/ipc.c:654-779 | Owns it at once when free or held by itself, counted in 8 bits; else fails at once, or waits after lending its priority to the owner exactly when it is more urgent; everything is kept if and only if the count did not wrap |
| `Mutex.Mutex.Inherit` | rt-thread/src/ipc.c:721-728 | The owner gets the priority of a more urgent waiter, nobody else changes |
| `Mutex.Mutex.Rerun` | rt-thread/src/ipc.c:753-774 | A blocked take that returns RT_EOK is the owner, holding it once |
| `Mutex.Mutex.Timeout` | rt-thread/src/thread.c:807-829 | Exactly that waiter leaves; the bound on the owner stays |
| `Mutex.Mutex.Release` | rt-thread/src/ipc.c:790-881 | Only the owner; on the last release its own priority is back, the first waiter owns the mutex, and the owner is bounded again if and only if the first waiter is most urgent: always in priority order |
| `Wakeup.PutKeeps` | rt-thread/src/ipc.c:1535-1547 | No wake-up is lost when something becomes available and the first sleeper is resumed |
| `Wakeup.FirstUp` | rt-thread/src/ipc.c:134-147 | The waiter that is resumed is the first, and the others keep their order |
| `Wakeup.TakeKeeps` | rt-thread/src/ipc.c:1619-1697 | Nor when something is taken by a woken thread or by one that came in between |
| `Wakeup.NothingKeeps` | rt-thread/src/ipc.c:1619-1661 | Nor when a thread finds nothing and sleeps |
| `Wakeup.LeaveKeeps` | rt-thread/src/thread.c:807-829 | Nor when a sleeper times out |
| `Mailbox.RingPut` | rt-thread/src/ipc.c:1535-1542 | The slot at in_offset is the one behind the last mail |
| `Mailbox.RingGet` | rt-thread/src/ipc.c:1683-1691 | The slot at out_offset holds the oldest mail |
| `Mailbox.Mailbox.constructor` | rt-thread/src/ipc.c:1294-1322 | An empty ring and no waiter |
| `Mailbox.Mailbox.Send` | rt-thread/src/ipc.c:1442-1561 | Appends the mail and wakes a receiver; a full box fails at once or puts the sender to sleep in order |
| `Mailbox.Mailbox.Recv` | rt-thread/src/ipc.c:1590-1714 | Returns the oldest mail and wakes a sender; an empty box fails at once or puts the receiver to sleep in order |
| `Mailbox.Mailbox.NothingMissed` | rt-thread/src/ipc.c:1442-1714 | While a receiver sleeps the mails are at most the receivers resumed and not yet run, and likewise slots and senders |
| `Mailbox.Mailbox.FailReceiver` | rt-thread/src/thread.c:807-829 | A receiver that times out leaves, and no wake-up is lost |
| `Mailbox.Mailbox.FailSender` | rt-thread/src/thread.c:807-829 | A sender that times out leaves, and no wake-up is lost |
| `Mailbox.Mailbox.Return` | rt-thread/src/ipc.c:1515-1520 | A thread resumed with an error returns that error |
| `Mailbox.Mailbox.Reset` | rt-thread/src/ipc.c:1726-1758 | Every sleeper fails and the mails are dropped; threads already resumed stay resumed |
| `MemPool.Disjoint` | rt-thread/src/mempool.c:103-119 | The blocks of the pool do not overlap |
| `MemPool.InsidePool` | rt-thread/src/mempool.c:97-116 | All blocks lie inside the memory of the pool, which has no room for one more |
| `MemPool.Pool.constructor` | rt-thread/src/mempool.c:77-124 | With room for at least one block, all blocks are threaded into one free list |
| `MemPool.EndOfChainInsideIff` | rt-thread/src/mempool.c:118-119 | The store that ends the chain lands inside the pool if and only if the pool has room for a block |
| `MemPool.SmallPoolWritesInFront` | rt-thread/src/mempool.c:77-119 | Eight bytes for blocks of eight: that store goes to sixteen bytes in front of the pool |
| `MemPool.Thread` | rt-thread/src/mempool.c:110-121 | The loop links each block to the one behind it and the last to nothing |
| `MemPool.Pool.Alloc` | rt-thread/src/mempool.c:303-391 | The first free block, marked as the pool's; an empty pool fails at once or puts the thread in front of the sleepers |
| `MemPool.Pool.Free` | rt-thread/src/mempool.c:399-449 | The block heads the free list and one sleeper is woken |
| `MemPool.Pool.Timeout` | rt-thread/src/thread.c:807-829 | Exactly that sleeper leaves |
| `MemPool.Pool.Return` | rt-thread/src/mempool.c:358-359 | A sleeper resumed with an error gets no block |
| `MemPool.Pool.NothingMissed` | rt-thread/src/mempool.c:303-449 | While a thread sleeps the free blocks are at most the sleepers resumed and not yet run |
| `Chains.ChainPop` | rt-thread/src/ipc.c:2339-2346 | Unlinking the first node leaves the chain of the others |
| `Chains.ChainPush` | rt-thread/src/ipc.c:2359-2361 | Linking a node in front makes a chain again |
| `Chains.ChainSnoc` | rt-thread/src/ipc.c:2085-2103 | Linking a node behind the last one makes a chain again |
| `MessageQueue.NormalOrder` | rt-thread/src/ipc.c:1975-2446 | In every order of links, receives and drops, normal messages leave in link order, each at most once and none skipped |
| `MessageQueue.NothingLost` | rt-thread/src/ipc.c:1975-2446 | Every linked message is in the queue or has left it, and not more often than linked |
| `MessageQueue.UrgentNext` | rt-thread/src/ipc.c:2155-2225 | In any history an urgent message is the next one received |
| `MessageQueue.UrgentFirst` | rt-thread/src/ipc.c:2155-2225 | Urgent messages are always in front of normal ones |
| `MessageQueue.MessageQueue.Delivered` | rt-thread/src/ipc.c:1975-2446 | Over any run of the queue, resets included: normal messages have left it in the order they were linked and the rest stands in it in that order; every linked message is in the queue or has left it once; urgent ones are ahead |
| `MessageQueue.MessageQueue.constructor` | rt-thread/src/ipc.c:1781-1831 | Every node is free |
| `MessageQueue.MessageQueue.SendStart` | rt-thread/src/ipc.c:1975-2083 | First region of a send: a free node becomes private to the sender; without one it fails at once or sleeps |
| `MessageQueue.MessageQueue.UrgentStart` | rt-thread/src/ipc.c:2155-2189 | First region of an urgent send: it never sleeps |
| `MessageQueue.MessageQueue.Fill` | rt-thread/src/ipc.c:2085-2088 | Between the regions the message is copied into the private node |
| `MessageQueue.MessageQueue.Link` | rt-thread/src/ipc.c:2090-2124 | Second region: the node joins the queue at the end, or in front if urgent, a receiver is woken, and the history has one more link |
| `MessageQueue.MessageQueue.RecvStart` | rt-thread/src/ipc.c:2240-2352 | First region of a receive: the first message leaves the queue for the receiver, which is one more receive of the history |
| `MessageQueue.MessageQueue.Read` | rt-thread/src/ipc.c:2354-2355 | The private node holds the message as it was sent; the buffer gets as much of it as fits |
| `MessageQueue.MessageQueue.RecvFinish` | rt-thread/src/ipc.c:2357-2383 | Second region: the node is free again and a sender is woken |
| `MessageQueue.MessageQueue.NothingMissed` | rt-thread/src/ipc.c:1975-2446 | entry is the queue length; a sleeping receiver or sender has a resumed one for every message or free node |
| `MessageQueue.MessageQueue.FailReceiver` | rt-thread/src/thread.c:807-829 | A receiver that times out leaves, and no wake-up is lost |
| `MessageQueue.MessageQueue.FailSender` | rt-thread/src/thread.c:807-829 | A sender that times out leaves, and no wake-up is lost |
| `MessageQueue.MessageQueue.Return` | rt-thread/src/ipc.c:2059-2064 | A thread resumed with an error returns that error |
| `MessageQueue.MessageQueue.Reset` | rt-thread/src/ipc.c:2397-2445 | Every sleeper fails, the queued nodes become free and their messages are drops of the history, in order; nodes in transit stay with their threads |
| `Bits.SetClear` | rt-thread/src/scheduler.c:643-803 | Setting and clearing the mask of one priority leaves the other bits |
| `Bits.FfsLowest` | rt-thread/src/kservice.c:1316-1330 | The table search finds the lowest set bit, counted from 1, and 0 only for no bit |
| `SchedulerRep.EnqueueOk` | rt-thread/src/scheduler.c:643-706 | After an insert every ready bit is set exactly when its list is non-empty, for the global table and each CPU |
| `SchedulerRep.AppendedMeans` | rt-thread/src/scheduler.c:643-706 | A thread that becomes ready stands behind all threads of its binding and priority, who keep their order; every other list is as it was |
| `SchedulerRep.LeaderStays` | rt-thread/src/scheduler.c:643-706 | Whoever leads a list still leads it after that |
| `SchedulerRep.DequeueOk` | rt-thread/src/scheduler.c:753-803 | The same after a removal |
| `SchedulerRep.DroppedMeans` | rt-thread/src/scheduler.c:753-803 | A thread that leaves its list leaves the others in their order; every other list is as it was |
| `SchedulerRep.TurnComes` | rt-thread/src/scheduler.c:333-385 | With each switch to the leader of a list everyone behind it comes one place nearer, and nobody overtakes: equal threads take turns |
| `SchedulerRep.OnePlace` | rt-thread/src/scheduler.c:298-803 | A started, unclosed thread is in exactly one place: current on one CPU that may run it, in the ready list of its binding and priority, or suspended, and then in at most one wait list and once; awake it is in none |
| `SchedulerRep.JoinsList` | rt-thread/src/ipc.c:80-126 | A thread that was in no wait list joins one: everybody is still in at most one, once |
| `SchedulerRep.LeavesList` | rt-thread/src/thread.c:764-829 | A resumed or timed out thread is in no wait list any more, and no other list changes |
| `SchedulerRep.LeavesOrder` | rt-thread/src/thread.c:764-829 | In the wait list it leaves the others keep their order |
| `SchedulerRep.OneCpu` | rt-thread/src/scheduler.c:298-632 | No thread is current on two CPUs, and a bound thread only on its own |
| `SchedulerRep.OneLockHolder` | rt-thread/src/cpu.c:126-185 | At most one CPU is inside a region that locks all CPUs |
| `SchedulerRep.SwitchEnds` | rt-thread/src/cpu.c:176-185 | Restoring the lock status of the new thread keeps every lock invariant |
| `SchedulerRep.Choose` | rt-thread/src/scheduler.c:126-160 | Comparing the two lowest bits gives a most urgent visible thread, the own table winning ties |
| `Scheduler.Scheduler.constructor` | rt-thread/src/scheduler.c:191-239 | Empty tables, no current threads |
| `Scheduler.Scheduler.Create` | rt-thread/src/thread.c:118-262 | A new thread is in no queue and on no CPU |
| `Scheduler.Scheduler.BindCpu` | rt-thread/src/thread.c:682-694 | Binding before the start only; the argument is cut to 8 bits, and beyond the last CPU means any CPU |
| `Scheduler.Scheduler.InsertThread` | rt-thread/src/scheduler.c:643-706 | A resumed thread still on its CPU is running again; another stands behind all threads of its list, and no other list changes |
| `Scheduler.Scheduler.SuspendThread` | rt-thread/src/thread.c:715-754 | A ready or running thread sleeps, a ready one leaves its list, where the others keep their order; another is refused |
| `Scheduler.Scheduler.InitList` | rt-thread/src/ipc.c:61-68 | The wait list of a new object is empty |
| `Scheduler.Scheduler.SuspendOn` | rt-thread/src/ipc.c:80-126 | The calling thread leaves the ready lists and joins one wait list, at the place its order gives |
| `Scheduler.Scheduler.OnePlaceNow` | rt-thread/src/scheduler.c:298-803 | The same as OnePlace for every reachable state of the class: one CPU, one wait list at most, none if awake |
| `Scheduler.Scheduler.ResumeThread` | rt-thread/src/thread.c:764-829 | Only a sleeping thread is resumed, by a call or by its timer; it leaves the wait list it was in, and no other list changes |
| `Scheduler.Scheduler.Startup` | rt-thread/src/thread.c:289-321 | The thread starts ready at its initial priority, last in its list |
| `Scheduler.Scheduler.ChangePriority` | rt-thread/src/thread.c:630-671 | A ready thread moves to the end of the list of its new priority; every bit stays right |
| `Scheduler.Scheduler.Exit` | rt-thread/src/thread.c:80-115 | The thread is closed and in no list, and no ready list changes |
| `Scheduler.Scheduler.Highest` | rt-thread/src/scheduler.c:126-160 | The first thread of a most urgent non-empty list the CPU may take |
| `Scheduler.Scheduler.CpusLock` | rt-thread/src/cpu.c:126-147 | Only the outermost lock takes _cpus_lock |
| `Scheduler.Scheduler.CpusUnlock` | rt-thread/src/cpu.c:153-168 | Only the outermost unlock releases it |
| `Scheduler.Scheduler.EnterCritical` | rt-thread/src/scheduler.c:842-876 | The critical lock is taken by the outermost section of one thread |
| `Scheduler.Scheduler.ExitCritical` | rt-thread/src/scheduler.c:901-938 | It is released by the outermost exit, which goes on to the scheduler only when no nest is left |
| `Scheduler.Scheduler.PreemptDisable` | rt-thread/src/cpu.c:20-40 | One more scheduler nest |
| `Scheduler.Scheduler.PreemptEnable` | rt-thread/src/cpu.c:45-66 | One scheduler nest less |
| `Scheduler.Scheduler.GiveUp` | rt-thread/src/scheduler.c:333-358 | The CPU lets go of its thread, which goes behind all threads of its list if it could run on |
| `Scheduler.Scheduler.TakeThread` | rt-thread/src/scheduler.c:360-366 | The chosen thread leaves its list and runs on the CPU |
| `Scheduler.Scheduler.Select` | rt-thread/src/scheduler.c:333-385 | The running thread goes on if it is more urgent, or as urgent with time left; else the first most urgent thread replaces it |
| `SchedulerRep.GivenMeans` | rt-thread/src/scheduler.c:340-356 | A thread that is replaced is off its CPU; if it could run on it is ready and no longer yielding |
| `SchedulerRep.ScheduledMeans` | rt-thread/src/scheduler.c:333-385 | After a selection nobody visible is more urgent; the running thread is replaced if it cannot run on, if somebody is more urgent, or as urgent and its slice is over, by one of the most urgent |
| `Scheduler.Scheduler.SwitchTo` | rt-thread/src/scheduler.c:376-385 | After the switch current_thread and the lock are those of the new thread, and every invariant holds again |
| `Scheduler.Scheduler.Schedule` | rt-thread/src/scheduler.c:298-412 | When a selection completes, no thread visible to the CPU is more urgent than its current one, and the ready lists changed only by the old thread going behind the others of its list and the leader of a list leaving it; inside interrupts and locked regions nothing changes |
| `Scheduler.Scheduler.IrqSwitch` | rt-thread/src/scheduler.c:547-632 | The same for the delayed switch at the end of an interrupt |
| `Scheduler.Scheduler.Start` | rt-thread/src/scheduler.c:246-270 | The first thread of a CPU is a most urgent one |
| `Scheduler.Scheduler.IrqEnter` | rt-thread/src/irq.c:65-76 | One more interrupt nest on that CPU |
| `Scheduler.Scheduler.IrqLeave` | rt-thread/src/irq.c:86-97 | One nest less |
| `Scheduler.Scheduler.EndSlice` | rt-thread/src/clock.c:72-105 | The end of the time slice marks the current thread as yielding |
| `RtList.Node.constructor` | rt-thread/include/rtservice.h:47-50 | A ring of one node |
| `RtList.InsertAfter` | rt-thread/include/rtservice.h:58-65 | The ring with the node behind l, all others in order |
| `RtList.InsertBefore` | rt-thread/include/rtservice.h:73-80 | The ring with the node in front of l |
| `RtList.Remove` | rt-thread/include/rtservice.h:86-92 | The ring without the node, which is a ring of its own |
| `RtList.IsEmpty` | rt-thread/include/rtservice.h:98-101 | True exactly when the head is alone |
| `RtList.Len` | rt-thread/include/rtservice.h:107-118 | The number of entries behind the head |
| `OptSpec.NameAndArg` | packages/optparse-v1.0.0/optparse.c:95-114 | name and name=argument are read back, for every name without an equals sign |
| `OptSpec.FromLongDeclares` | packages/optparse-v1.0.0/optparse.c:77-92 | The string made of the long options declares each short name with the argtype of its first entry |
| `OptSpec.SkipPlain` | packages/optparse-v1.0.0/optparse.c:165-174 | The recursive call behind a non-option and the move of that word are one call on the line |
| `OptSpec.SameShort` | packages/optparse-v1.0.0/optparse.c:116-136 | A word of short options is read alike by optparse and optparse_long |
| `OptSpec.Call` | packages/optparse-v1.0.0/optparse.c:148-305 | A call keeps the number of words and never moves optind back |
| `OptSpec.CallPermutes` | packages/optparse-v1.0.0/optparse.c:50-57 | A call permutes the words and leaves those in front of optind |
| `OptSpec.CallReads` | packages/optparse-v1.0.0/optparse.c:148-305 | A call takes the first item off the left-to-right reading of the line and leaves the sorted result the same |
| `OptSpec.LastCall` | packages/optparse-v1.0.0/optparse.c:156-164 | The call that returns -1 leaves options in front of optind and everything else behind |
| `OptSpec.RunSorts` | packages/optparse-v1.0.0/optparse.c:148-305 | Called until -1 on any line, the calls find what reading the line from left to right with subopt carried along finds; options and their arguments end up in front of optind, the other words behind it, both in their first order, for clusters and "--" too |
| `OptSpec.ReadsAgree` | packages/optparse-v1.0.0/optparse.c:180-231 | On a declared line nothing is carried: the reading with subopt is the reading of every word from its first letter |
| `OptSpec.RunReads` | packages/optparse-v1.0.0/optparse.c:148-231 | So there the calls find every option as it stands on the line |
| `OptSpec.RunPermutes` | packages/optparse-v1.0.0/optparse.c:50-57 | Whatever the line, permuting or not, the words stay a permutation, those in front of the first optind untouched |
| `OptSpec.OnlyOptions` | packages/optparse-v1.0.0/optparse.c:148-234 | Without the words that are no options the same options are found, with subopt carried along or not |
| `OptSpec.OnlyOptionsDeclared` | packages/optparse-v1.0.0/optparse.c:148-234 | A line is declared if and only if it is without the words that are no options |
| `OptSpec.OptionsAlone` | packages/optparse-v1.0.0/optparse.c:148-234 | On any line the calls find the same options when the words that are no options are left out |
| `OptSpec.ClusterFlags` | packages/optparse-v1.0.0/optparse.c:180-203 | A cluster of flags is the sequence of its letters |
| `OptWords.Declares` | packages/optparse-v1.0.0/optparse.c:59-70 | One colon behind the first place of a letter declares a required argument, two an optional one, anything else none |
| `OptWords.Kinds` | packages/optparse-v1.0.0/optparse.c:35-48 | Which words are short options, long options, "--", or none |
| `OptWords.AttachedArgument` | packages/optparse-v1.0.0/optparse.c:204-228 | Whatever stands behind a letter that may have an argument is its argument: "file" for -ofile |
| `OptWords.NextWordArgument` | packages/optparse-v1.0.0/optparse.c:211-215 | Behind the last letter of a word a required argument is the next word, whatever that is; two words are used up |
| `OptWords.MissingArgument` | packages/optparse-v1.0.0/optparse.c:216-222 | A required argument behind the last letter of the last word is an error with its message |
| `OptWords.NoArgument` | packages/optparse-v1.0.0/optparse.c:193-231 | Behind the last letter of a word an optional argument is none: the next word is left alone |
| `OptWords.UnknownLetter` | packages/optparse-v1.0.0/optparse.c:186-192 | An undeclared letter is an error that names it and ends the word |
| `OptWords.ComplaintIs` | packages/optparse-v1.0.0/optparse.c:20-33 | A message that fits is there in full; else its data is cut off in front of the closing quote, and it fits then |
| `OptWords.WordAttached` | packages/optparse-v1.0.0/optparse.c:180-231 | -abofile is the flags a and b, and o with "file"; one word |
| `OptWords.WordNext` | packages/optparse-v1.0.0/optparse.c:180-231 | -abo file is the flags a and b, and o with "file"; two words |
| `OptWords.WordMissing` | packages/optparse-v1.0.0/optparse.c:180-231 | -abo at the end of the line is the flags and an error |
| `OptWords.WordFlags` | packages/optparse-v1.0.0/optparse.c:180-231 | -abc is three flags, or ends with an optional argument that is none; one word |
| `OptWords.LongAttached` | packages/optparse-v1.0.0/optparse.c:269-302 | --name=argument gives the argument to the first entry of that name, or is an error if that takes none |
| `OptWords.LongAlone` | packages/optparse-v1.0.0/optparse.c:269-302 | --name takes the next word if the argument is required, and is an error without one; else it has none |
| `OptWords.LongUnknown` | packages/optparse-v1.0.0/optparse.c:304 | A name that no entry has is an error that shows the word |
| `OptWords.ArgumentBehind` | packages/optparse-v1.0.0/optparse.c:148-234 | On a line, a word whose last letter requires an argument takes the next word, even if that looks like an option, and the reading goes on behind it |
| `OptWords.ArgumentAttached` | packages/optparse-v1.0.0/optparse.c:148-234 | On a line, behind a word with its argument in it the reading goes on with the next word |
| `OptWords.NothingBehind` | packages/optparse-v1.0.0/optparse.c:148-234 | On a line, a word of flags takes no word behind it |
| `OptWords.LongBehind` | packages/optparse-v1.0.0/optparse.c:236-305 | On a line, --name takes the next word if its argument is required, and the reading goes on behind that |
| `OptWords.DashDashEnds` | packages/optparse-v1.0.0/optparse.c:160-179 | "--" is moved in front of the plain words that were passed over, and ends the options; without permute the first plain word ends them |
| `OptWords.IndexOfName` | packages/optparse-v1.0.0/optparse.c:275-283 | *longindex is the index of the entry with the name, and keeps its value for an unknown name |
| `OptWords.IndexOfLetter` | packages/optparse-v1.0.0/optparse.c:124-134 | For a letter it is the last entry with that letter, or -1 |
| `OptSpec.SubSurvives` | packages/optparse-v1.0.0/optparse.c:184-231 | subopt is left behind by a finished word if and only if an undeclared letter stood behind another |
| `OptSpec.UndeclaredSkips` | packages/optparse-v1.0.0/optparse.c:186-192 | Then a declared letter of the next word is skipped: -ax -bc |
| `OptSpec.FromStartIff` | packages/optparse-v1.0.0/optparse.c:180-231 | Every word of short options is read from its first letter if and only if the line is declared: no undeclared letter stands behind another with a later such word to come |
| `OptParse.WithinKept` | packages/optparse-v1.0.0/optparse.c:180 | A call on a declared line leaves a declared line, and subopt inside its word |
| `OptParse.DeclaredWithin` | packages/optparse-v1.0.0/optparse.c:180 | On a declared line subopt never points behind its word |
| `OptParse.Optparse.constructor` | packages/optparse-v1.0.0/optparse.c:138-146 | Permuting, at the first word |
| `OptParse.Optparse.Error` | packages/optparse-v1.0.0/optparse.c:20-33 | The message and the data, cut off to the buffer |
| `OptParse.Optparse.Permute` | packages/optparse-v1.0.0/optparse.c:50-57 | The word goes behind the words used up, the others keep their order |
| `OptParse.Optparse.ArgType` | packages/optparse-v1.0.0/optparse.c:59-70 | The kind of argument after the first occurrence of the letter; none for a colon or an undeclared letter |
| `OptParse.Optparse.LongoptsMatch` | packages/optparse-v1.0.0/optparse.c:95-104 | True exactly when the part in front of the equals sign is the name |
| `OptParse.Optparse.LongoptsArg` | packages/optparse-v1.0.0/optparse.c:107-114 | The part behind the first equals sign, if there is one |
| `OptParse.Optparse.FromLongOptions` | packages/optparse-v1.0.0/optparse.c:77-92 | The loops build the declaring string |
| `OptParse.Optparse.ReadShort` | packages/optparse-v1.0.0/optparse.c:180-233 | One letter: what the reading of the word gives, in the fields of the struct; the argument is what OptWords says for each form of a word |
| `OptParse.Optparse.Next` | packages/optparse-v1.0.0/optparse.c:148-234 | argv, optind, subopt, optopt, optarg, errmsg and the result of optparse are those of one call on the line |
| `OptParse.Optparse.ShortIndex` | packages/optparse-v1.0.0/optparse.c:129-133 | The last entry with that short name |
| `OptParse.Optparse.Fallback` | packages/optparse-v1.0.0/optparse.c:116-136 | Short options inside optparse_long, with the index |
| `OptParse.Optparse.ReadLong` | packages/optparse-v1.0.0/optparse.c:269-304 | One long option: first entry of that name, argument behind the equals sign or in the next word, or error |
| `OptParse.Optparse.NextLong` | packages/optparse-v1.0.0/optparse.c:236-305 | The same as Next for optparse_long, and *longindex |
| `OptParse.Optparse.Arg` | packages/optparse-v1.0.0/optparse.c:307-314 | The next word, whatever it is, and subopt 0 |
| `OptParse.Optparse.ReadAll` | packages/optparse-v1.0.0/example/optparse_demo.c:9-18 | The loop until -1 on a line where subopt stays inside its words: what it found, the array and optind are those of the left-to-right reading |

## Left out

* cJSON: numbers are exact here, while the code rounds to a double, and its exponent is an int; printing of numbers that
  are no ints; a `\u` with a quote, a backslash or the terminator among its four characters, and a backslash in front
  of the terminator (a result `Unmodelled` marks them); allocation failure, the error pointer `ep`, item deletion, the
  editing functions and `cJSON_Minify`. The items of an array or object are a sequence: their prev, next and child
  pointers are not modelled.
* The growing buffer of `cJSON_PrintBuffered` has a size that `pow2gt` computes in an int, which can hold no power of two
  above 2^30; texts of 2^30 - 20 bytes and more are left out.
* cJSON memory is not freed in the model, and the pointer that the buffered printer returns is the start of its buffer.
* Slab: a call is one step, although the code gives up the heap semaphore around the page allocator; `rt_calloc`,
  hooks and the contents of blocks; heaps of 4 GiB and more.
* `mem.c` and `memheap.c`: sizes are those of a 64-bit target (block headers of 24 and 48 bytes, alignment 8); memory
  contents and the copy in realloc; the magic words beyond the used bit; the semaphore, so that a call is one step.
  Memheap pools are below 2 GiB, because the code keeps the size of a free block in 32 bits, once signed.
* Scheduler: signals, hooks, stack checks, IPIs and the time slice counter; the timers of threads; `rt_thread_sleep`,
  `rt_thread_detach` and `rt_thread_delete`. The place at which a thread joins a wait list is a parameter here; which
  one it is, is in the IPC modules. Priorities are 0 to 31; rt_thread_control would store others unchecked.
* Mutex: one mutex at a time per thread, no priority changes from outside, as the inheritance bound needs; the retry
  after a signal; deletion.
* IPC objects: detach and delete; the remaining time of a wait that sleeps again is a parameter; a thread's resume
  and the scheduler call at the end of a region are in the scheduler model.
* Mailboxes and message queues of 65536 slots or more, whose 16-bit fields `size`, `entry` and `max_msgs` would cut the
  numbers off.
* Timers: the soft timer thread, timers of 0 ticks and the timer objects' names; more than one check per tick.
* `rt_snprintf` and the string functions of `kservice.c`, `thread_pool.c`, drivers, shells and pages.
* Optparse: strings are values, so that `optarg` is a copy and not a pointer into argv; short names of long options
  are characters; a long option table is a sequence without its end entry. A char is not a byte of a target where char
  is signed. Behind the end of a word `OptSpec.Letter` reads terminators.
- MemPool.Pool.constructor: the pool has room for a block, as `MemPool.EndOfChainInsideIff` shows it must.
- OptParse.Optparse.ReadAll: subopt never points behind its word, where the code would read outside it; a declared line is
  one where it does not, by `OptParse.DeclaredWithin`.
- SmallMem.SmallHeap.Malloc: the request is one of those that end, all others being excluded by
  `SmallMem.SmallHeap.SearchableIff`.
- SmallMem.SmallHeap.MallocFree: likewise.
- JsonSpec.Transcode: gives `Unmodelled` for a quote, a backslash or the terminator among the four characters.
- JsonBuffer.PrintBuffered: texts of at most 2^30 - 21 bytes.
- JsonBuffer.BothPrinters: the same texts.
- Scheduler.Scheduler.ChangePriority: priorities from 0 to 31.
- Scheduler.Scheduler.ResumeThread: one step; called without the lock, rt_thread_resume gives it up between the wait list
  and the ready list, where another CPU might resume the same thread.
- Timer.TimerSystem.StartTimer: periods are from 1 to RT_TICK_MAX/2 - 1 ticks, as the code asserts or needs; one step,
  although the code opens the lock between taking the timer out and searching its new place, where a tick may pass or
  another CPU may start the same timer.
