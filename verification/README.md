# A verified model of the RT-Thread kernel core

The project models the data-structure core of the RT-Thread kernel in Dafny and proves what
its allocators, its inter-thread communication, its timer list and its scheduler keep and
promise. The operations of the kernel are methods that update state in place, written after
the C functions branch by branch; the invariants and laws are predicates and lemmas about the
values of that state.

| files | models |
|---|---|
| `Machine` | 32-bit arithmetic: alignment and unsigned subtraction with wrap-around |
| `Tiling`, `SmallMem` | the first-fit heap `mem.c`: an array of words with block headers inside it |
| `Lists` | lists without repetition |
| `Tiling`, `Ring`, `MemHeap` | the memory heap object `memheap.c`: a pool of bytes with block items inside it, a block ring and a free ring |
| `Pages`, `SlabZone`, `Slab` | the slab allocator `slab.c`: page intervals, size classes, zones |
| `SkipRows`, `Timer` | the timer skip list `timer.c` over a 32-bit tick that wraps |
| `WaitList` | the wait lists of kernel objects, with both queueing flags, and the no-lost-wake-up law |
| `Event`, `Mailbox`, `MessageQueue`, `Mutex` | the protocols of `ipc.c` |
| `ReadyMap`, `Kernel` | the ready lists, both forms of the priority bitmap, and thread states |

How to read the models:

- **Allocators.** A layout is a sequence of blocks (`Tiling.Block`). The concrete state (header
  words, ring links, run lists) is tied to the layout by a representation predicate, and every
  operation is specified by what it does to the layout and to the set of extents handed out.
  The words of `SmallMem` are 4-byte units; every offset the code computes is a multiple of
  four. In `MemHeap` and `Slab` addresses are byte offsets. The block items of `MemHeap` lie in
  the same memory as the bytes of the callers, each word in the cell of its first byte; ghost
  maps say what the items contain, and every read and write of the code goes to the memory.
- **Protocols.** Every section of code that runs with interrupts disabled is one method, so any
  interleaving of threads, interrupts and timers is a sequence of method calls. A thread that
  has been resumed but has not run again is a state of its own. What a thread keeps on its
  stack while it waits (the letter it sends, its remaining time) is kept per thread. An
  invariant `Valid()` that every method preserves holds in every reachable state.
- **Words used as bit sets** (event sets, ready bitmaps) are sets of bit numbers; and, or and
  and-not are intersection, union and difference. The proofs hold for any word width.
- **Time.** `TimerList.now` counts ticks without wrap-around and `tick` is its value modulo
  2^32; deadlines are kept both ways, and the code only sees the wrapped ones. A start is two
  sections with the tick read between them; `slack` bounds how many ticks after its deadline a
  timer may be linked, and the interval and the slack together stay below half the range.

Main results:

- Every run of allocate, resize and free of the two heaps keeps memory tiled, coalesced and
  accounted for, never hands out memory twice, refuses a request exactly under a condition on
  the state before it, and leaves every byte of all other blocks alone, although the headers it
  writes lie between them (`SmallMem.Heap`, `MemHeap.Heap`). Every run of allocate and free of
  the slab allocator keeps its blocks apart, never hands out memory twice and refuses a request
  exactly under such a condition; the contents of its blocks are not modelled (`Slab.Allocator`).
- No page of the slab allocator is ever lost or used twice (`Slab.PageHasOneUse`), and the layout of
  either heap is determined by the blocks handed out, so freeing everything in any order restores
  the one free block it began with (`Tiling.LayoutIsUnique`, `SmallMem.Heap.AllFreed`,
  `MemHeap.Heap.AllFreed`).
- The page list is determined by the set of free pages, so freeing everything in any order
  restores the one initial run (`Pages.ListIsUnique`, `Pages.AllFreeIsOneRun`).
- Starting a timer puts it where a flat stable insertion would, for any number of rows and
  across tick wrap-around. Over any run of ticks, stops and the two sections of a start, with other
  acts and ticks between them, a timer fires exactly at the times a short recurrence gives: whatever
  is done to other timers, a one-shot timer fires once after each start and a periodic one without
  drift (`Timer.TimerList.Finish`, `Timer.TimerList.Run`, `Timer.OthersDoNotMatter`,
  `Timer.StartsAfresh`).
- Every thread that waits for an event lacks some bit under AND and every bit under OR, and a deferred receive is an immediate receive
  at the moment of the wake-up (`Event.EventSet.Send`, `Event.NobodyLeftCanGo`).
- A mailbox is a bounded first-in first-out queue and loses no wake-up on either side
  (`Mailbox.Box`); the same for a message queue, whose nodes partition the pool at every step
  (`MessageQueue.Queue`).
- The owner of a mutex has exactly the most urgent priority among its own and those of the threads
  that came to wait since it got the mutex. Under the priority flag it is never less urgent than a
  thread waiting for it; under the other flag a hand-off keeps that exactly if the first waiter is the most urgent
  one (`Mutex.Lock.Release`, `Mutex.FifoLosesInheritance`).
- Threads, ready lists, wait lists and bitmap agree in every state, the scheduler picks the head
  of the most urgent list, and threads that only yield each run once in every `k` turns
  (`Kernel.System`, `Kernel.FairRun`).

Behaviour of the code that the proofs pin down:

- A shrink in place in `mem.c` can leave a free block below the search hint: the exact
  condition is `SmallMem.ShrinkHint`, a run that ends so `SmallMem.ShrinkLosesHint`. Where the
  hint is lowest, the search is a first-fit scan from offset zero under the strict bound of the
  code; the bound overlooks exactly one kind of block (`SmallMem.BoundMissesExactTail`). The
  comments call `lfree` the lowest free block and the end block always unused; the model
  follows the code, where neither holds.
- Sizes from 2^32-3 to 2^32-1 are rounded to zero (`Machine.AlignCovers`). For them, and only for
  them, a successful allocation is too short: both heaps hand out a block for twelve bytes
  (`SmallMem.WrapShortens`, `MemHeap.WrapShortens`). A resize to such a size frees the block and
  returns null in `mem.c` (`SmallMem.WrapFrees`), and cuts the block to twelve bytes in `memheap.c`
  (`MemHeap.WrapCuts`).
- The scan of `mem.c` never ends in a region of fewer than twelve payload bytes that is not smaller
  than the rounded request, because its unsigned bound wraps; such requests are what
  `SmallMem.Endless` describes and `SmallMem.TinyRegionNeverEnds` shows.
- The guard for growing in place in `memheap.c` computes in 32 bits; it accepts a request that
  does not fit exactly when the request plus the minimum wraps (`MemHeap.GrowGuardExact`), in a
  reachable state for example when a block of sixteen bytes is resized to 2^32-8 bytes
  (`MemHeap.GuardOverruns`). The new item is then built over the item of the block that was to grow
  (`MemHeap.OverrunsItself`).
- A timer that is started twice, the second time between the two sections of the first start, is
  linked into the rows twice (`Timer.OverlappingStarts`, `Timer.LinkedTwice`). A tick between the
  sections is harmless: a timer linked after its deadline fires at the next tick.
- The comments of `slab.c` promise that blocks of a power of two are aligned to their size. That
  holds exactly up to a page, or when the zone or run of pages is so aligned by chance
  (`Slab.PowerAligned`); `Slab.PowerMisaligned` is a first request for which it does not.
- The comment in `slab.c` says a good zone is moved to the head of its list; the code does not
  move it, and neither does the model.
- A mutex timeout does not lower the owner's inherited priority again: what the owner inherited is
  the priority of a thread that came to wait, which need not be waiting any more.

## Model

| member | source | states |
|---|---|---|
| Machine.AlignCovers | rt-thread/include/rtdef.h:275 | rounding up to four bytes never loses bytes, except for the three sizes that wrap to zero |
| Tiling.TakeKeeps | rt-thread/src/mem.c:317-371 | handing out a free block, split or whole, keeps the layout tiled and coalesced and adds exactly one extent |
| Tiling.ReleaseKeeps | rt-thread/src/mem.c:591-609 | freeing and joining with free neighbours keeps the layout tiled and coalesced and removes exactly that extent |
| Tiling.PlugKeeps | rt-thread/src/mem.c:157-195 | joining one freed block with both neighbours restores the no-adjacent-free rule and hands out or takes back nothing |
| Tiling.PlugBackwardFirst | rt-thread/src/memheap.c:550-588 | joining backwards first (memheap) or forwards first (mem) gives the same layout |
| Tiling.ShrinkKeeps | rt-thread/src/mem.c:472-494 | cutting a used block keeps the layout well formed and shortens exactly that extent |
| Tiling.ShrinkBlocks | rt-thread/src/mem.c:472-494 | block by block: the tail becomes a free block, which takes in a free one behind it |
| Tiling.ReleaseUndoesTake | rt-thread/src/mem.c:549-611 | freeing a block right after handing it out restores the partition |
| Tiling.LiveDisjoint | rt-thread/src/mem.c:273-411 | two blocks handed out never overlap |
| Tiling.SumsFill | rt-thread/src/memheap.c:73-75 | used space, free space and one header per block add up to the region |
| Tiling.LayoutIsUnique | rt-thread/src/mem.c:157-195 | two coalesced layouts of one region that hand out the same extents are the same layout |
| Tiling.NothingLiveIsFresh | rt-thread/src/mem.c:549-611 | when everything has been freed, in whatever order, the layout is the one the heap began with |
| SmallMem.RepMark | rt-thread/src/mem.c:592 | writing one header's flag changes exactly that block in the layout the words describe |
| SmallMem.RepDrop | rt-thread/src/mem.c:179-180 | the two link writes of a merge represent the layout without the absorbed block, and touch no payload |
| SmallMem.RepInsert | rt-thread/src/mem.c:330-349 | the header writes of a split represent the layout with the new free block |
| SmallMem.Heap.constructor | rt-thread/src/mem.c:205-258 | for a region of any size: the initial heap is one free block and the end block, with the hint on the first |
| SmallMem.Heap.AllFreed | rt-thread/src/mem.c:549-611 | once every block is free again, in whatever order, the heap is one free block and no byte counts as used |
| SmallMem.Heap.PlugForward | rt-thread/src/mem.c:166-181 | the forward merge, on memory, layout and hint |
| SmallMem.Heap.PlugBackward | rt-thread/src/mem.c:183-194 | the backward merge, on memory, layout and hint |
| SmallMem.Heap.PlugHoles | rt-thread/src/mem.c:157-195 | both merges restore the invariant of a block that was just freed |
| SmallMem.Heap.Search | rt-thread/src/mem.c:306-312 | the scan finds the first block from the hint on that fits under the code's strict bound, or there is none |
| SmallMem.Heap.AdvanceHint | rt-thread/src/mem.c:381-388 | the hint moves to the next free block behind it, or to the end if there is none, and stays lowest if it was |
| SmallMem.NextFreeIsOne | rt-thread/src/mem.c:381-388 | there is only one such place for the hint |
| SmallMem.Heap.Malloc | rt-thread/src/mem.c:273-411 | refused if and only if the size is zero or above the region or no block fits at or behind the hint; otherwise the block is the first that fits from the hint on, new, and holds the bytes asked for if and only if the size is at most 2^32-4; it ends right behind the request if at least a header and twelve bytes are left, and otherwise where the free block did; the hint moves to the next free block; nothing else changes, used bytes and peak are exact |
| SmallMem.TakenBlocks | rt-thread/src/mem.c:317-371 | block by block: the rest is split off if and only if a header and the minimal payload fit into it, and the block gets no more than that too much |
| SmallMem.NeedIsLeast | rt-thread/src/mem.c:290-304 | the words taken are the fewest that hold the request and make a block, or the minimum for a size that wraps |
| SmallMem.HintIsEnough | rt-thread/src/mem.c:306-307 | with the hint on the lowest free block, scanning from the hint finds the block a scan from offset zero would |
| SmallMem.BoundMissesExactTail | rt-thread/src/mem.c:307 | the strict bound overlooks a fitting block if and only if it is an exact fit at the very end |
| SmallMem.FreshRefusesAll | rt-thread/src/mem.c:307 | a fresh heap of any size refuses a request for the whole region, though it fits |
| SmallMem.RefusedLowest | rt-thread/src/mem.c:306-312 | with the hint on the lowest free block a request is refused if and only if no block fits at all |
| SmallMem.TinyRegionNeverEnds | rt-thread/src/mem.c:306-312 | the case the preconditions leave out: in a region shorter than the minimal block the scan never reaches its bound |
| SmallMem.WrapShortens | rt-thread/src/mem.c:290-304 | a request of 2^32-1 bytes to a fresh heap succeeds with twelve bytes |
| SmallMem.WrapFrees | rt-thread/src/mem.c:432-443 | a resize to 2^32-1 bytes frees a live block and returns null |
| SmallMem.Heap.Release | rt-thread/src/mem.c:591-609 | the layout after a free, payloads kept, used bytes lowered; the hint is where the block of the new layout begins that has the lower of the old hint and the block freed, and lowest if it was |
| SmallMem.ReleaseHint | rt-thread/src/mem.c:157-195 | the moves of the hint in a free, one at the mark and two in the merges, end at the place the release names |
| SmallMem.Heap.Free | rt-thread/src/mem.c:549-611 | a null pointer changes nothing; any other takes back exactly its block, keeps every payload, and moves the hint as a release does |
| SmallMem.Heap.ShrinkInPlace | rt-thread/src/mem.c:472-499 | the layout and the hint after an in-place shrink, payloads kept |
| SmallMem.ShrinkHint | rt-thread/src/mem.c:474-494 | an in-place shrink keeps the hint lowest if and only if the hint was below the block or was the free neighbour that absorbs the tail |
| SmallMem.Heap.CutDown | rt-thread/src/mem.c:472-499 | the block ends exactly at the size asked for and keeps its words, the tail takes in a free block behind it, the hint is on the block that has the old hint, and exactly when it stays lowest |
| SmallMem.ShrinkCanLoseHint | rt-thread/src/mem.c:474-494 | a concrete heap in which a shrink leaves a free block below the hint |
| SmallMem.ShrinkLosesHint | rt-thread/src/mem.c:422-499 | a run of two allocations and a resize on a fresh heap after which a free block lies below the hint |
| SmallMem.Heap.Copy | rt-thread/src/mem.c:506 | copies the payload words and changes nothing else |
| SmallMem.Heap.Move | rt-thread/src/mem.c:502-510 | refused if and only if an allocation of the new size is; the new block is the first that fits from the hint on, was not live, is not much longer than asked, has the first min(old, new) payload words, and no other block changed; layout and hint are those of the allocation and then the free; the peak counts both blocks |
| SmallMem.Heap.Resize | rt-thread/src/mem.c:460-510 | same pointer if and only if the size is the same or more than a header and twelve bytes would be left, and then the block has exactly the size asked for; otherwise a new block that was not live, or a refusal exactly when there is none; layout and hint in each case; payload and other blocks kept, the peak exact; says exactly when the hint stays lowest |
| SmallMem.Heap.Realloc | rt-thread/src/mem.c:422-511 | all cases: too large, zero, null pointer, pointer outside the heap, same size, shrink, move; null exactly when; a failed request leaves the live block if and only if 0 < size <= 2^32-4; the result is new, holds the bytes asked for, and the peak is exact; the hint in each case, and exactly when it stays lowest |
| SmallMem.KeptByMove | rt-thread/src/mem.c:502-508 | allocate, copy, free: the moved block has the old contents and no other live block changed |
| SmallMem.CutIsNew | rt-thread/src/mem.c:472-494 | the shortened block is no block that was handed out before |
| Ring.Unlink | rt-thread/src/memheap.c:226-227 | the two assignments of a removal leave a well-formed ring without the node |
| Ring.LinkAfter | rt-thread/src/memheap.c:232-235 | the four assignments of an insertion leave a well-formed ring with the node at its place |
| MemHeap.Heap.constructor | rt-thread/src/memheap.c:60-131 | the initial pool: the items of one unused block and the end marker in memory, both rings, the counters |
| MemHeap.Heap.AllFreed | rt-thread/src/memheap.c:505-605 | once every block is free again, in whatever order, layout, free ring and free bytes are as they began |
| MemHeap.ItemsMissPayload | rt-thread/src/memheap.c:211-261 | what is written into items never reaches the payload of a block handed out before and after |
| MemHeap.OthersMissed | rt-thread/src/memheap.c:211-261 | so every other block keeps its bytes through any operation that writes only items |
| MemHeap.PayloadMissesItems | rt-thread/src/memheap.c:422 | what is written into a block handed out leaves every item as it is |
| MemHeap.Heap.BuildItem | rt-thread/src/memheap.c:213-221 | a new item in memory, apart from all others, which keep their words |
| MemHeap.Heap.UnlinkFree | rt-thread/src/memheap.c:226-227 | takes exactly one block off the free ring |
| MemHeap.Heap.ClearFree | rt-thread/src/memheap.c:228-229 | the null links of a block taken do not disturb the free ring |
| MemHeap.Heap.PushFree | rt-thread/src/memheap.c:232-235 | puts a block at the front of the free ring |
| MemHeap.Heap.UnlinkBlock | rt-thread/src/memheap.c:560-561 | a block is absorbed by its predecessor in the block ring, in memory |
| MemHeap.Heap.LinkBlock | rt-thread/src/memheap.c:213-223 | the item of a new unused block is built and joins the block ring behind its predecessor |
| MemHeap.Heap.Search | rt-thread/src/memheap.c:180-190 | the walk stops at the first block in free-ring order that is large enough, or there is none |
| MemHeap.Heap.Alloc | rt-thread/src/memheap.c:148-291 | refuses if and only if the size reaches the available bytes or no block fits; otherwise hands out the first fit in ring order, new, holding the bytes asked for if and only if the size is at most 2^32-4; it ends right behind the request if at least an item and twelve bytes are left, and otherwise where the free block did; the free ring keeps its order without the block taken, with the rest of a split block in front; the links of the block taken are null; all other blocks keep their bytes; both rings, the no-adjacent rule, the available bytes and the peak stay exact |
| MemHeap.NeedIsLeast | rt-thread/src/memheap.c:157-160 | the bytes taken are the least multiple of four that holds the request and is not below twelve, or twelve for a size that wraps |
| MemHeap.TakenBlocks | rt-thread/src/memheap.c:198-261 | block by block: the rest is split off if and only if an item and the minimal payload fit into it, and the block gets no more than that too much |
| MemHeap.RestIsFirst | rt-thread/src/memheap.c:232-235 | the rest of a split block comes first on the free ring, and all others keep their order |
| MemHeap.Heap.ReleaseItem | rt-thread/src/memheap.c:545-601 | the layout, both rings and the counters after a free, merging left and right; the free ring keeps its order, with the freed block in front or the left neighbour that absorbs it at its old place; all other blocks keep their bytes |
| MemHeap.Heap.CheckMagic | rt-thread/src/memheap.c:525-528 | the assertions on the magic words hold for every block handed out |
| MemHeap.Heap.Free | rt-thread/src/memheap.c:505-605 | takes back exactly the block, with the order of the free ring afterwards, and all others keep their bytes; a null pointer changes nothing |
| MemHeap.FreedIsNext | rt-thread/src/memheap.c:545-601 | a block freed behind a used one is the next to be handed out to anybody it is large enough for |
| MemHeap.FreeUndoesAlloc | rt-thread/src/memheap.c:505-605 | freeing a block right after its allocation restores the partition |
| MemHeap.PoolIsAccounted | rt-thread/src/memheap.c:73-75 | free bytes, used bytes and one header per block, tail included, make up the pool |
| MemHeap.Heap.Grow | rt-thread/src/memheap.c:360-411 | growth into the free block behind keeps rings, counters, peak and all other extents, and writes only items; the block rebuilt is in front of the free ring, whose others keep their order |
| MemHeap.GrowGuardExact | rt-thread/src/memheap.c:360 | the guard accepts a request that does not fit if and only if request plus minimum wraps around 2^32 |
| MemHeap.GuardOverruns | rt-thread/src/memheap.c:360 | a reachable heap in which the guard accepts a request of 2^32-8 bytes |
| MemHeap.OverrunsItself | rt-thread/src/memheap.c:360-400 | a request that gets past the guard by wrap-around has the new item built over the one of the block itself |
| MemHeap.Heap.Cut | rt-thread/src/memheap.c:442-501 | shrinking in place, with or without a merge of the tail, keeps rings, counters and all other extents, and writes only items; the tail is in front of the free ring, whose others keep their order |
| MemHeap.CutOutcome | rt-thread/src/memheap.c:453-495 | what layout, free ring and free bytes are after the cut, in both cases |
| MemHeap.StaysExactly | rt-thread/src/memheap.c:325-360 | a block stays if and only if it need not grow, or it and the unused one behind it have more payload than the request and twelve bytes |
| MemHeap.ReshapedBlocks | rt-thread/src/memheap.c:430-495 | block by block: a block that stays is as long as asked if it has to grow or leaves more than an item and twelve bytes, and the rest takes in an unused block behind it; otherwise nothing changes |
| MemHeap.KeptByMove | rt-thread/src/memheap.c:418-424 | allocate, copy, free, with items written before and after the copy: the moved block has its bytes and all other blocks theirs |
| MemHeap.Heap.Move | rt-thread/src/memheap.c:418-426 | refused if and only if an allocation of the new size is, changing nothing; the new block was not live, is the first fit in ring order and has the old contents; no other block changed; layout and free ring are those of the allocation and then the free; the peak counts both blocks |
| MemHeap.Heap.Resize | rt-thread/src/memheap.c:320-501 | in numbers: same pointer if and only if the block need not grow, or it and the unused one behind it have more payload than the request and twelve bytes, and where it ends then; otherwise a new block that was not live, or a refusal exactly when there is none; layout and order of the free ring in each case; first min(old, new) bytes and all other blocks kept; the peak exact |
| MemHeap.Heap.Realloc | rt-thread/src/memheap.c:294-502 | all cases of a resize request: zero, null pointer, grow in place, move, keep, cut; null exactly when, and in numbers when the block stays and where it ends; the result is new and holds the bytes asked for if and only if the size is at most 2^32-4; layout and order of the free ring in each case; the peak exact |
| MemHeap.WrapShortens | rt-thread/src/memheap.c:158-160 | a request of 2^32-1 bytes to a fresh pool succeeds with twelve bytes |
| MemHeap.WrapCuts | rt-thread/src/memheap.c:311-313 | a block of a hundred bytes resized to 2^32-1 bytes is cut to twelve and handed back |
| Pages.ListIsUnique | rt-thread/src/slab.c:233 | the sorted, coalesced run list is determined by the set of free pages |
| Pages.AllFreeIsOneRun | rt-thread/src/slab.c:272-322 | when all pages are free again, in whatever order, the list is the single initial run |
| Pages.FirstIsLowest | rt-thread/src/slab.c:246-264 | the first run that is long enough starts at the lowest place where that many pages are free |
| Pages.InOneRun | rt-thread/src/slab.c:246-264 | a stretch of free pages lies in one run, so looking at single runs misses nothing |
| Pages.JoinRuns | rt-thread/src/slab.c:291-297 | pages that fill the gap between two runs make them one |
| Pages.PageAllocator.constructor | rt-thread/src/slab.c:327-334 | the initial list is one run of all pages |
| Pages.PageAllocator.Alloc | rt-thread/src/slab.c:236-270 | removes exactly the lowest stretch of that many pages; refuses if and only if none is asked for or there is no such stretch |
| Pages.PageAllocator.Free | rt-thread/src/slab.c:272-322 | adds exactly the given pages and keeps the list sorted and coalesced |
| SlabZone.ZoneIndexIsTightest | rt-thread/src/slab.c:401-459 | every request below 16 KB falls into the smallest class that holds it and wastes less than eight bytes or an eighth |
| SlabZone.ChunkSizeRoundTrip | rt-thread/src/slab.c:401-459 | chunk sizes grow with the class, and a chunk size is classified back into its own class |
| SlabZone.SameClass | rt-thread/src/slab.c:716-718 | two requests share a class if and only if they share a chunk size |
| SlabZone.TakeKeeps | rt-thread/src/slab.c:541-568 | a zone with free chunks never pops an empty list, hands out a chunk not handed out before, and its counters stay exact |
| SlabZone.GiveKeeps | rt-thread/src/slab.c:830-842 | a chunk handed out goes back and the free counter stays exact |
| SlabZone.TakeAfterGive | rt-thread/src/slab.c:541-568 | in a zone whose chunks have all been used, the one that came back last is handed out next |
| SlabZone.NoneHandedOut | rt-thread/src/slab.c:854 | a zone's free count equals its maximum if and only if it has no chunk handed out |
| SlabZone.ChunkAligned | rt-thread/src/slab.c:628-639 | chunks of a power of two are aligned to it if and only if it is at most a page or the zone is so aligned |
| SlabZone.OffsetIsFirst | rt-thread/src/slab.c:628-639 | the chunks start at the first place behind the header that is a multiple of the chunk size, if that is a power of two, and of eight otherwise |
| SlabZone.ChunksByEight | rt-thread/src/slab.c:628-639 | every chunk of every class starts at a multiple of eight bytes |
| Slab.NewZoneFits | rt-thread/src/slab.c:628-648 | a zone of any class, aligned as the code aligns it, has room for at least two chunks |
| Slab.ChunkLeadsToZone | rt-thread/src/slab.c:825-827 | the page of a chunk lies in its zone, so the page table leads back to the zone |
| Slab.LookUp | rt-thread/src/slab.c:795-827 | for every block handed out the page table tells large from small and finds its run |
| Slab.LiveBlocksDisjoint | rt-thread/src/slab.c:478-667 | two blocks handed out, chunks or large, never overlap |
| Slab.PowerAligned | rt-thread/src/slab.c:135-138 | a block of a power of two, chunk or large, is aligned to it if and only if it is at most a page or its run of pages is so aligned |
| Slab.PowerMisaligned | rt-thread/src/slab.c:135-138 | a first request of 8192 bytes that is not aligned to 8192 |
| Slab.PageHasOneUse | rt-thread/src/slab.c:478-904 | no page is lost or used twice: every page behind the page table is either free or in exactly one zone in use, spare zone or large block, and no other page is |
| Slab.LargeComesBack | rt-thread/src/slab.c:797-820 | a large block that is allocated and freed leaves the very page list there was before |
| Slab.TableHolds | rt-thread/src/slab.c:389-391 | the page table has the fewest pages that hold four bytes for each page of the region |
| Slab.PagesForCovers | rt-thread/src/slab.c:495-497 | a large block has the fewest pages that hold the request, or none at all if rounding wraps |
| Slab.Allocator.constructor | rt-thread/src/slab.c:344-395 | the initial allocator: the zone size is the first of three of which twice as much is not less than a thousandth of the region, the pages behind the page table are free, nothing is handed out |
| Slab.Allocator.MallocLarge | rt-thread/src/slab.c:493-521 | a large block is new and the lowest run of that many pages, and exactly these are no longer free; refused if and only if there is none, or the size wraps to zero pages |
| Slab.Allocator.TakeFrom | rt-thread/src/slab.c:539-577 | the chunk is new and the one the first zone of the class has next: the first never used, or else the head of its free chunks; a zone with no free chunk left goes off its list |
| Slab.Allocator.OpenZone | rt-thread/src/slab.c:587-659 | the first spare zone, or else the lowest run of pages long enough, becomes a zone of the class, joins its list, and its first chunk is handed out; all other zones and lists stay; fails if and only if there is no spare zone and no such run |
| Slab.Allocator.Malloc | rt-thread/src/slab.c:478-667 | the result is new and at least as long as asked; a small request gets a chunk of its tightest class, from the first zone of the class, or if there is none from the first spare zone or the lowest run of pages; a large one the lowest run; null if and only if the size is zero, no run of pages is long enough (large), or no zone of the class has a free chunk, none is spare and no run of pages is left for one (small); a refusal changes nothing |
| Slab.Allocator.FreeChunk | rt-thread/src/slab.c:822-903 | takes back exactly the chunk; a zone that stays has it first on its free list, and comes first on the list of its class if it was full; the zone is put aside if and only if it was its last chunk and another zone of the class has free chunks; it leaves its list, the others in order, and becomes spare, or its pages go back when two are spare already |
| Slab.Allocator.Retire | rt-thread/src/slab.c:862-874 | a wholly free zone leaves the list of its class and becomes the first spare one |
| Slab.Allocator.ReleaseSpare | rt-thread/src/slab.c:876-900 | beyond two spare zones the pages of the first go back, otherwise nothing changes |
| Slab.Allocator.FreeLarge | rt-thread/src/slab.c:797-820 | takes back exactly the block, and exactly its pages are free again |
| Slab.Allocator.Free | rt-thread/src/slab.c:771-904 | takes back exactly the block at that address: the pages of a large one are free again, a chunk goes back to its zone, and what becomes of the zone is as for a chunk; a null pointer changes nothing |
| SkipRows.InsIsFlat | rt-thread/src/timer.c:354-367 | linking in at the found place is insertion into one flat list behind all earlier and equal keys |
| SkipRows.PlaceIsUnique | rt-thread/src/timer.c:345-367 | there is only one such place |
| SkipRows.InsertIsStable | rt-thread/src/timer.c:354-367 | first come, first served: what is inserted comes behind every earlier or equal deadline and before every later one, and the rest keeps its order |
| SkipRows.BelowIsBefore | rt-thread/src/timer.c:368-369 | going down one row from the place found never skips a later timer |
| SkipRows.RowsIns | rt-thread/src/timer.c:379-391 | after linking into the densest rows every row is sorted and a subsequence of the next denser one |
| SkipRows.RowsDel | rt-thread/src/timer.c:121-129 | the same after removing a timer from every row |
| Timer.WrapOrders | rt-thread/src/timer.c:359-366 | while two deadlines are less than half the tick range apart, the unsigned difference of their wrapped ticks orders them by true time |
| Timer.DueTest | rt-thread/src/timer.c:516 | the unsigned test of the check is true exactly for deadlines that have come |
| Timer.TimerList.Remove | rt-thread/src/timer.c:121-129 | takes a timer out of every row |
| Timer.TimerList.ScanRow | rt-thread/src/timer.c:345-367 | the scan of a row stops at the place of the deadline |
| Timer.TimerList.FindPlaces | rt-thread/src/timer.c:342-370 | the descent through all rows finds the place in each of them |
| Timer.TimerList.LinkIn | rt-thread/src/timer.c:376-391 | links the timer into its densest rows, as many as the counter's bits say |
| Timer.HeightExactly | rt-thread/src/timer.c:376-391 | a timer is in the row `k` above the densest one if and only if there is such a row and the counter is divisible by the `k`th power of four |
| Timer.TimerList.Enter | rt-thread/src/timer.c:309-324 | the first section of a start: the timer leaves every row, and its deadline is one interval from now |
| Timer.TimerList.Finish | rt-thread/src/timer.c:326-396 | the second section, perhaps ticks later: the densest row becomes the flat stable insertion of the timer, also when its deadline has come meanwhile |
| Timer.TimerList.Start | rt-thread/src/timer.c:296-412 | both sections without a tick between them: the densest row becomes the flat stable insertion of the timer, for any number of rows; deadline and flag are set |
| Timer.TimerList.Stop | rt-thread/src/timer.c:422-447 | refuses an inactive timer, takes an active one out |
| Timer.TimerList.FireHead | rt-thread/src/timer.c:520-543 | fires the first timer once; a periodic one runs again, any other stops |
| Timer.TimerList.Check | rt-thread/src/timer.c:494-553 | ends with no due timer left, having fired exactly those that were due, in deadline order |
| Timer.CheckSteps | rt-thread/src/timer.c:507-547 | one check takes every timer exactly one step of its own schedule |
| Timer.TimerList.Tick | rt-thread/src/timer.c:494-553 | one tick and its check: who fires and how each timer's phase moves on |
| Timer.TimerList.Run | rt-thread/src/timer.c:296-553 | over any run of ticks, first and second sections of starts, and stops, every timer fires exactly at the times its phase, its settings and what is done to it give |
| Timer.PeriodicNoDrift | rt-thread/src/timer.c:532-538 | a periodic timer fires at its deadline, or at the next tick if that has come already, and every interval after that, with no drift |
| Timer.EveryExactly | rt-thread/src/timer.c:532-538 | one firing after the other, exactly an interval apart, with none left out |
| Timer.OneShotOnce | rt-thread/src/timer.c:539-543 | a one-shot timer fires exactly once, at its deadline, or at the next tick if that has come already |
| Timer.OthersDoNotMatter | rt-thread/src/timer.c:296-553 | what is done to other timers, whole starts or halves of them included, does not change when a timer fires |
| Timer.StartsAfresh | rt-thread/src/timer.c:296-412 | after a start, however many ticks lie between its sections, a timer fires as a fresh one does, whatever happened before |
| Timer.OpenUntilFinished | rt-thread/src/timer.c:309-396 | between the sections of its start a timer does not fire, whatever is done to others; from the second on it is one with the deadline the first set |
| Timer.OneShotAmidOthers | rt-thread/src/timer.c:539-543 | started and left alone, a one-shot timer fires exactly once: one interval after the start began, or at the first tick after it was finished if that is later |
| Timer.PeriodicAmidOthers | rt-thread/src/timer.c:532-538 | started and left alone, a periodic timer fires then and at every interval from there on |
| Timer.OverlappingStarts | rt-thread/src/timer.c:309-396 | two starts of one timer, the second entered before the first is finished, are not among the runs covered, at any time and with any slack |
| Timer.LinkedTwice | rt-thread/src/timer.c:379-380 | a row into which a timer is linked a second time, wherever it is put, is not in order any more |
| Timer.TimerList.NextTimeout | rt-thread/src/timer.c:108-119 | the head of the densest row is the earliest deadline; none is the maximal tick |
| WaitList.Suspend | rt-thread/src/ipc.c:78-121 | a thread joins at the end, or before the first one that is less urgent |
| WaitList.InsertSorted | rt-thread/src/ipc.c:91-117 | under the priority flag the list stays sorted |
| WaitList.InsertInTurn | rt-thread/src/ipc.c:85-119 | the list is ordered by priority and then by arrival, or by arrival alone, after every insertion |
| WaitList.WokenInTurn | rt-thread/src/ipc.c:132-146 | of those who wait exactly one is resumed, and by priority and arrival it comes before everybody left |
| WaitList.TimeLeftMeans | rt-thread/src/ipc.c:1524-1530 | time that is up is zero, and time left and time gone make up the whole; waiting for ever stays that |
| WaitList.TimeLeftAdds | rt-thread/src/ipc.c:1524-1530 | however often a thread is resumed in vain, it waits no longer in all than it asked for |
| Event.NobodyLeftCanGo | rt-thread/src/ipc.c:1050-1096 | although the wake-up loop clears bits as it goes, every thread it leaves waiting lacks, of the set at the end, some bit under AND and every bit under OR |
| Event.WokenGets | rt-thread/src/ipc.c:1056-1078 | a woken thread gets all it asked for (AND) or some of it (OR), nothing else, and at least one bit just sent |
| Event.ClearedExactly | rt-thread/src/ipc.c:1084-1088 | the set that remains is what was sent and set, less exactly what clearing threads were given |
| Event.ClearedOnce | rt-thread/src/ipc.c:1084-1088 | no bit is given to two threads that clear |
| Event.ServeSplits | rt-thread/src/ipc.c:1050-1096 | every waiter is either left in the list or woken, once, and other threads' bits are untouched |
| Event.FirstToGo | rt-thread/src/ipc.c:1047-1090 | the first in the list who can go does, and gets its bits of the whole set |
| Event.ServeInOrder | rt-thread/src/ipc.c:1047-1090 | threads are woken in list order, and those left keep it |
| Event.OwesToNew | rt-thread/src/ipc.c:1043-1078 | a thread that could not go before owes its wake-up to a bit just sent |
| Event.SatisfiedMeans | rt-thread/src/ipc.c:1153-1163 | bit by bit: AND waits for all the bits, OR for any of them |
| Event.EventSet.constructor | rt-thread/src/ipc.c:911-929 | a new event set is empty and nobody waits |
| Event.EventSet.NobodyCanGo | rt-thread/src/ipc.c:1020-1235 | in every state each thread that waits lacks some bit under AND and every bit under OR |
| Event.EventSet.Recv | rt-thread/src/ipc.c:1123-1233 | zero set, immediate receive with or without clearing, no waiting, or suspension at the right place; bit by bit, AND succeeds if and only if all bits are there, OR if and only if one is, and the bits given are those asked for that are there |
| Event.EventSet.TryWake | rt-thread/src/ipc.c:1055-1086 | the loop's test of one waiter is an immediate receive on its behalf: all its bits under AND, any under OR |
| Event.EventSet.Send | rt-thread/src/ipc.c:1025-1107 | is letting every waiter in list order retry its receive once; whoever keeps waiting lacks some bit under AND and every bit under OR; threads resumed before are left alone |
| Event.EventSet.Resume | rt-thread/src/ipc.c:1213-1232 | a resumed thread is given the bits of its wake-up moment, or its error |
| Event.EventSet.Timeout | rt-thread/src/thread.c:732-754 | a timeout takes the thread off the list with its error and leaves the set alone |
| Event.EventSet.Reset | rt-thread/src/ipc.c:1245-1273 | everybody waiting is sent away with an error and the set is cleared |
| Mailbox.StoredPut | rt-thread/src/ipc.c:1531-1538 | writing at the input offset appends to the queue the ring stands for, wrap included |
| Mailbox.StoredTake | rt-thread/src/ipc.c:1679-1687 | reading at the output offset takes the oldest mail |
| Mailbox.Box.constructor | rt-thread/src/ipc.c:1290-1318 | an empty mailbox; the size is cut to 16 bits |
| Mailbox.Box.Post | rt-thread/src/ipc.c:1467-1556 | full: refuse or wait; otherwise append and resume the first receiver; holds for first tries and for resumed senders |
| Mailbox.Box.Receive | rt-thread/src/ipc.c:1612-1709 | empty: refuse or wait; otherwise take the oldest mail and resume the first sender |
| Mailbox.Box.SendEnter | rt-thread/src/ipc.c:1438-1557 | first section of a send, by a thread or an interrupt |
| Mailbox.Box.SendResume | rt-thread/src/ipc.c:1511-1556 | a resumed sender sends its own letter; if there is no room it gives up if and only if its time is up, and otherwise waits for the rest of it |
| Mailbox.Box.RecvEnter | rt-thread/src/ipc.c:1586-1710 | first section of a receive |
| Mailbox.Box.RecvResume | rt-thread/src/ipc.c:1659-1709 | a resumed receiver takes the oldest mail; if there is none it gives up if and only if its time is up, and otherwise waits for the rest of it |
| Mailbox.Box.Timeout | rt-thread/src/thread.c:732-754 | a timed-out thread leaves its list and neither queue nor wake-ups are disturbed |
| Mailbox.Box.Agreement | rt-thread/src/ipc.c:1438-1710 | all that was sent is what was received and then what is stored, in order; while threads wait, what they wait for never exceeds the resumed threads that have not run |
| Mailbox.Box.Quiescent | rt-thread/src/ipc.c:1438-1710 | once all resumed threads have run, receivers wait only for an empty and senders only for a full mailbox |
| MessageQueue.PoolClaim | rt-thread/src/ipc.c:1980-1991 | taking the first free node keeps lists and pool in agreement |
| MessageQueue.PoolAppend | rt-thread/src/ipc.c:2003-2018 | linking a node at the tail does, whether or not the queue was empty |
| MessageQueue.PoolPrepend | rt-thread/src/ipc.c:2092-2102 | linking a node at the head does |
| MessageQueue.PoolUnlink | rt-thread/src/ipc.c:2234-2244 | unlinking the head does, and clears the tail exactly for the last message |
| MessageQueue.PoolRelease | rt-thread/src/ipc.c:2254-2256 | putting a node back on the free list does |
| MessageQueue.PartsOut | rt-thread/src/ipc.c:1980-1991 | a node taken from a list by a thread stays in exactly one place |
| MessageQueue.PartsIn | rt-thread/src/ipc.c:2003-2018 | so does a node a thread puts on a list |
| MessageQueue.Queue.constructor | rt-thread/src/ipc.c:1777-1824 | sizes cut to 16 bits, all nodes on the free list |
| MessageQueue.Queue.Claim | rt-thread/src/ipc.c:1970-1994 | too long, no node left (queued plus in transit is the maximum), or a node is claimed; the queue is untouched |
| MessageQueue.Queue.Fill | rt-thread/src/ipc.c:1996-1999 | filling a claimed node is seen by nobody else |
| MessageQueue.Queue.Append | rt-thread/src/ipc.c:2001-2035 | the sender's message goes behind all others and the first receiver is resumed |
| MessageQueue.Queue.Prepend | rt-thread/src/ipc.c:2089-2119 | the urgent message goes in front of all others and the first receiver is resumed |
| MessageQueue.Queue.Receive | rt-thread/src/ipc.c:2161-2247 | empty: refuse or wait; otherwise the first message is unlinked and belongs to this thread |
| MessageQueue.Queue.RecvEnter | rt-thread/src/ipc.c:2135-2247 | first section of a receive |
| MessageQueue.Queue.RecvResume | rt-thread/src/ipc.c:2214-2247 | a resumed receiver takes the first message; if there is none it gives up if and only if its time is up, and otherwise waits for the rest of it |
| MessageQueue.Queue.Release | rt-thread/src/ipc.c:2249-2258 | the buffer gets the first min(size, message size) bytes of the message that was unlinked, whatever happened since, and the node is free again |
| MessageQueue.Queue.Timeout | rt-thread/src/thread.c:732-754 | a timed-out receiver leaves the list; messages and nodes are untouched |
| MessageQueue.Queue.Reset | rt-thread/src/ipc.c:2276-2322 | everybody waiting goes with an error, all queued nodes are free, nodes in transit are untouched |
| MessageQueue.Queue.Agreement | rt-thread/src/ipc.c:1960-2263 | free, queued and in-transit nodes number the maximum; the entry count is the queue length; head is null iff tail is null iff it is zero; no wake-up is lost |
| Mutex.Lock.constructor | rt-thread/src/ipc.c:526-546 | a new mutex is free |
| Mutex.Lock.Take | rt-thread/src/ipc.c:650-775 | nested, free, refused or waiting; the owner gets the lesser of its own and the waiter's priority and nobody else's changes; the waiter joins at its turn |
| Mutex.Lock.Release | rt-thread/src/ipc.c:786-877 | only the owner; the last release restores its own priority and hands the mutex to the first waiter; the new owner is urgent enough if and only if it was the most urgent waiter |
| Mutex.Lock.Timeout | rt-thread/src/thread.c:732-754 | a timed-out waiter leaves in order and the inheritance law stays true |
| Mutex.Lock.Resume | rt-thread/src/ipc.c:748-767 | a thread whose take ends without error owns the mutex once |
| Mutex.Lock.GiveUp | rt-thread/src/ipc.c:751-758 | a thread whose take fails does not own it |
| Mutex.Lock.Agreement | rt-thread/src/ipc.c:650-877 | value is one iff there is no owner iff hold is zero; under the priority flag the owner is at least as urgent as every waiter; the owner's priority is exactly the most urgent among its own and those of the threads that came to wait since it got the mutex; everybody else has its own priority |
| Mutex.HandOffBoosts | rt-thread/src/ipc.c:837-857 | handing over to the first waiter keeps the inheritance law if and only if it is the most urgent one |
| Mutex.TurnsByPriority | rt-thread/src/ipc.c:91-117 | under the priority flag the first waiter always is |
| Mutex.FifoLosesInheritance | rt-thread/src/ipc.c:837-857 | a run of three threads under the other flag after which an urgent thread waits for a less urgent owner |
| ReadyMap.TwoLevelAdd | rt-thread/src/scheduler.c:310-313 | setting the byte's and the group's bit makes the two-level map agree with the lists |
| ReadyMap.TwoLevelDrop | rt-thread/src/scheduler.c:352-360 | clearing the byte's bit, and the group's if the byte is zero, does |
| ReadyMap.FlatAdd | rt-thread/src/scheduler.c:313 | setting the bit does for the one-word map |
| ReadyMap.FlatDrop | rt-thread/src/scheduler.c:352-361 | clearing it when the list is empty does |
| ReadyMap.DropOrder | rt-thread/src/scheduler.c:350 | taking a thread off a list leaves any two others in their order |
| ReadyMap.LeastBit | rt-thread/src/kservice.c:1273-1287 | finds the least set bit |
| ReadyMap.Highest | rt-thread/src/scheduler.c:199-206 | from either form of the map, the most urgent priority with a ready thread |
| Kernel.System.constructor | rt-thread/src/scheduler.c:114-141 | all lists and the map are empty and nobody runs |
| Kernel.System.RemoveThread | rt-thread/src/scheduler.c:326-366 | takes a thread off its list, all others staying where they were, and clears its bit exactly if the list has become empty |
| Kernel.System.InsertThread | rt-thread/src/scheduler.c:280-317 | puts a thread at the end of the list of its priority and sets its bit |
| Kernel.System.Schedule | rt-thread/src/scheduler.c:185-271 | unlocked: the head of the most urgent non-empty list is current; locked: nothing changes |
| Kernel.System.SuspendThread | rt-thread/src/thread.c:646-679 | refuses a thread that is not ready, else takes it off its ready list, all others staying in order |
| Kernel.System.ResumeThread | rt-thread/src/thread.c:689-723 | refuses a thread that is not suspended, else moves it from its wait list, all others staying in order, to the end of its ready list |
| Kernel.System.Timeout | rt-thread/src/thread.c:732-754 | the suspended thread leaves its wait list, all others staying in order, becomes ready, and the scheduler runs |
| Kernel.System.Startup | rt-thread/src/thread.c:265-297 | a new thread becomes ready at its initial priority with the masks of either form |
| Kernel.System.SuspendOn | rt-thread/src/ipc.c:78-121 | a ready thread moves to its place on one object's wait list, which stays sorted by current priorities; its ready list keeps its order |
| Kernel.System.Yield | rt-thread/src/thread.c:450-484 | a ready thread with equals goes to the end of its list, the others staying in order, and the scheduler runs; otherwise nothing happens |
| Kernel.System.ChangePriority | rt-thread/src/thread.c:575-616 | a ready thread moves to the end of the list of its new priority, the old list staying in order; any other only changes its priority and masks |
| Kernel.System.Delete | rt-thread/src/thread.c:408-439 | whatever the thread was doing, it is on no list any more, and nobody else is moved |
| Kernel.System.ExitCritical | rt-thread/src/scheduler.c:392-414 | the last unlock runs the scheduler |
| Kernel.System.Agreement | rt-thread/src/scheduler.c:185-366 | a thread is on a ready list iff it is ready, once, that of its current priority; a suspended one is on at most one wait list; a bit is set iff its list is non-empty, a group bit iff its byte is not zero |
| Kernel.System.TakeTurns | rt-thread/src/thread.c:450-484 | top threads that only yield run in list order, turn by turn |
| Kernel.FairTurns | rt-thread/src/thread.c:450-484 | in any k turns in a row each of the k threads has exactly one |
| Kernel.FairRun | rt-thread/src/thread.c:450-484 | the same of the threads that actually ran |

## Left out

- The addresses of `rt_system_heap_init` in `mem.c` and `slab.c`: the regions are given by their sizes.
- SmallMem.Heap.Malloc: requires, and so does SmallMem.Heap.Realloc with a null pointer, that the scan ends: not a request that passes the size test in a region of fewer than twelve payload bytes (`SmallMem.Endless`), on which the code loops (`SmallMem.TinyRegionNeverEnds`).
- The magic numbers of `mem.c` and `slab.c`, the thread names of the memory trace, and the semaphores and locks inside the allocators: every allocator call is taken as sequential. Freeing a pointer that was not handed out, which the code asserts against, is a precondition.
- `rt_calloc` and the statistics `used_mem` and `max_mem` of the slab allocator; `rt_realloc` of the slab allocator, which is a class test, an allocation, a copy and a free.
- MemHeap.Heap.Realloc: requires, as MemHeap.Heap.Resize does, that the block is not one that has to grow, has an unused block behind it and gets past the guard by wrap-around (`MemHeap.Overruns`), because the code then builds an item at a wrapped address, over that of the block itself; every other request is covered.
- MemHeap.Heap.BuildItem: a word of an item is one cell of the memory, that of its first byte; the other three cells of the word are not written.
- The contents of the blocks of the slab allocator, and its in-band zone headers and chunk links, which are kept beside the pages.
- Soft timers and their thread; timer call-backs that start or stop timers; timers whose interval is changed while they run; periodic timers of interval zero, which would fire for ever within one check.
- Timer.TimerList.Create: takes only intervals that with the slack stay below half the tick range; the start of a timer asserts this of the interval alone.
- Timer.TimerList.Run: requires, as Timer.TimerList.Finish does, that the starts of one timer do not overlap and that a start is finished at most `slack` ticks after the deadline it set (for a periodic timer, fewer than `slack`); the clearing of the flag after the section of a stop (timer.c:444) is part of that section. A tick between the removal of a timer and the reading of the tick in its start is the run of a stop, that tick and the start.
- Context switching, stacks, hooks, interrupt nesting, remaining time slices and the defunct list of deleted threads.
- Signals, and with them the retry of an interrupted mutex take; deleting and detaching of IPC objects; the reset of a mailbox; semaphores and memory pools.
- Priority changes of threads that wait on events, mailboxes or message queues: the code does not sort the list again, so the order by priority is proved for fixed priorities.
- Mutex.Lock.Take: requires that the owner takes it fewer than 255 times over, because the code does not check its 8-bit counter; a thread takes only this mutex meanwhile, and priorities change only by inheritance.
- Kernel.System.ResumeThread: is one step, as it is when called with interrupts disabled from `ipc.c`; `rt_thread_resume` called with interrupts enabled runs as two sections.
- Kernel.System.SuspendOn: requires a ready thread, because the code ignores the result of the suspension and would link the thread twice; the wait lists belong to objects that exist throughout, and creating them is not modelled.
- Kernel.System.ChangePriority: requires a priority below the number of levels, which the code does not check.
- `__rt_ffs` is modelled by what it finds, not by its byte table.
