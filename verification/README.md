# FreeGuard in Dafny

A model of the FreeGuard heap allocator and proofs about it. FreeGuard serves small requests
from a BIBOP heap ("big bag of pages": heap, thread sub-heap, size-class bag, object slot)
whose metadata lives in a separate shadow region, and large requests from mappings of their
own. The model follows the default build: FIFO free lists, four set items per bag, trailing
and random guard pages, one canary byte per object, the SSE2 generator. It is parametric in
the powers of two that configure the heap. That build also gives every thread index a stack of
its own (`CUSTOMIZED_STACK`, Makefile:25); `Threads` covers the builds with and without.

| file | what it models |
|---|---|
| `Arithmetic.dfy`, `Counting.dfy`, `Sequences.dfy`, `Options.dfy` | shifts and masks as division and remainder, pigeonhole counting, sequences without repetition, optional values |
| `Layout.dfy` | the geometry computed by `initialize`, address ↔ shadow translation |
| `Slots.dfy` | the slots of one set item numbered through heaps i, i+4, i+8, …; bump pointer, canary walk, guard ranges, size classes |
| `FreeLists.dfy` | `dlist.h` and `slist.h`: as functions on links, and as methods that relink node objects |
| `Threads.dfy` | thread indices: the table of `xthread`, its histories (each locked section, `pthread_create` and `pthread_join` an event of its own), and the object |
| `Machine.dfy` | owner allocations and cross-thread frees as interleaved steps (lock, unlock, read, write) |
| `Uninterrupted.dfy` | a whole call by one thread as a run of those steps |
| `Overwrites.dfy` | the same machine with clients that write outside their objects: bytes and damage reports are all that changes |
| `BrokenPromises.dfy` | runs from start-up in which a promise is broken, up to the harm done |
| `Refinement.dfy` | every run of the machine as a run of an allocator over live address ranges |
| `Bibop.dfy` | the `BibopHeap` object: records of addresses updated in place, tied to the machine |
| `Interleaved.dfy` | the code of that object run by any number of threads, one step at a time |
| `Capacity.dfy` | where the heap mapping and the shadow mapping end |
| `RingLists.dfy`, `HashMaps.dfy` | `list.hh` and `hashmap.hh`: circular lists of node objects, buckets, iteration |
| `BigHeaps.dfy` | the big heap over the hash map |
| `FreeGuards.dfy` | `xxmalloc`, `xxfree`, `xxrealloc`, `xxmemalign` over both heaps |
| `Lcg.dfy` | `rand_sse` and what its periods mean for placement |
| `Chacha.dfy`, `Pool.dfy`, `Uniform.dfy` | the ChaCha keystream, the keystream pool, rejection sampling |

How the heap proof is built. `Machine` has one state for all threads and one `Perform` step per
lock, unlock, read or write of the two routines. Its invariant `Good` says that every slot has
exactly one place (never used, live, skipped by a random guard, on one position of one free
list, or in the hands of one thread), that `ALLOC_SENTINEL` and the canaries agree with the
places, and that locks and thread indices are used properly. A step can happen (`CanHappen`)
when the code lets it, and clients promise (`Promised`) that no two of them free one object at
the same time, that they write only to the usable part of what they hold, and that they join
threads `_xmap` knows. `StepKeeps` proves that every such step keeps `Good`, so `EveryRunGood`
gives it in every run, and `StepKeepsExactly` that the promises about frees and joins are
needed. `BibopHeap` is the object with the fields of the source; its `Valid` says that its
addresses, shadow links, bytes and guard ranges are those of a good machine in which no thread
is inside a call. `MallocAlone` and `FreeAlone` connect the two: a call that is left alone is a
run of the machine, and a free ends in the damage report exactly when a canary it looks at was
overwritten. `Overwrites` drops the promise about writes: a machine whose clients write anywhere
is a good one but for its bytes (`GoodButBytes`) up to the first damage report
(`EveryRunButBytes`), so overwritten bytes move no slot (`OverwritesMoveNoSlot`). The methods of
`BibopHeap` ask for no more than that (`Orderly`). `Interleaved` drops the condition that nobody is inside: each step of the
machine is a step of the code on addresses, so every run is, up to a damage report
(`ReplayFromStart`). The machine and the `BibopHeap` object have no last heap; `Capacity` and `FreeGuard` say where the mappings end.

What is assumed of the surroundings, because the code does not check it: the bag size is at
least the large-object threshold, the threshold is below 2^32 and no more bags are usable than
there are; fewer than `MAX_ALIVE_THREADS` threads are alive when one is created; `mmap` returns
fresh page-aligned ranges outside the heap mapping; the records of unusable bags, which nothing
writes, are zero as static storage is.

Where the code falls short of what it is for, the model keeps the code and states exactly when it
holds:

- the shadow mapping is sized by the exact per-heap size and indexed by the rounded-up one, so
  heap h has its shadow inside the mapping exactly when h times the rounded size fits behind the
  exact size of one heap (`ShadowMappedExactly`); in a 4 MB-bag build that is heaps 0 to 1021 of
  1024 (`DefaultShadowMapped`), with a slot of heap 1022 or 1023 whose entry is not mapped
  (`UnmappedEntry`) and one of heap 1021 whose right neighbour's, which a free reads, is not
  (`UnmappedNeighbour`);
- nothing stops the bump pointer at the last heap. From a slot of the heaps there are, an
  allocation protects ranges of the heap mapping only exactly when the bump pointer stays in the
  heaps, or, in a bag without trailing guards, when no random guard is put behind them
  (`AdvanceInMappingExactly`); otherwise a range behind `_heapEnd` is protected, where a large
  object may lie (`GuardBehindHeap`). An allocation leaves every small object and guard in its
  mapping exactly when there is room (`AllocationPlacedExactly`, `AllocateSmall`), as in the
  first 1014 heaps of that build (`DefaultRoom`); without it `XxMalloc` ends in `Overrun`;
- a request of `SIZE_MAX` bytes wraps when the canary is added and gets a 16-byte object
  (`BagForFits`), so a `realloc` to that size writes over the canary exactly when the old object
  has 16 usable bytes or more (`WrappedCopy`), for a small one when its slot has 32 or more
  (`WrapOverruns`);
- a free of the first address behind the usable bags takes the first slot of the heap for its
  own, and passes every test exactly when that slot is in use and the last usable bag, if it is
  one object to its end, has been handed out (`AstrayExactly`);
- `isSmallObject` includes `_heapEnd`, so a large object mapped exactly there cannot be freed
  (`FreesExactly`, `MisroutedExactly`, `MisroutedObject`);
- a thread runs before its creator enters it in `_xmap`. A join in between does not find it: the
  index stays unavailable while the alive count drops, and the two threads created next share an
  index (`ReleaseKeepsExactly`, `EarlyJoinSharesAnIndex`) and are given one slot
  (`SharedIndexReturnsTwice`);
- `_xmap` entries are never erased, so a recycled `pthread_t` value may stand for another index,
  with the same effect (`EntriesStay`, `RecycledIdsShareAnIndex`). This belongs to builds without
  `CUSTOMIZED_STACK`: with it a `pthread_t` value lies in the stack of one index, and the table
  stays consistent exactly when no join is early (`CustomizedStacks`);
- the sentinel test of a free is outside the lock: two threads that free one object may both
  pass it, the free list ends in a slot that links to itself (`RacingFreesQueueTwice`), and later
  allocations return that slot while it is live (`DoubleFreeReturnsLive`);
- `erase` lowers the count of a bucket even when the key is absent (`HashMap.Erase`);
- `xxmemalign` adds the remainder instead of its complement. A small object is aligned anyhow; a
  large one ends on a page, so the result is aligned exactly when the size is a multiple of the
  alignment or half of it more, and `xxfree` takes the result exactly in the first case
  (`XxMemalign`, `AcceptsStartsOnly`); 16-aligned requests of one byte more than the large-object
  threshold get neither (`MemalignFails`).

## Model

| member | source | states |
|---|---|---|
| `Layout.BagIsFilled` | bibopheap.hh:212-261 | in every guard-page case the objects of a bag and its guard offset fill the bag exactly, so slot `numObjects - 1` is the last one |
| `Layout.ShadowCeilBounds` | bibopheap.hh:284-286 | the rounded-up shadow size is at least the exact one and less than twice it |
| `Layout.ObjectIndexBound` | bibopheap.hh:268-274 | the shadow entries of a bag stay inside its thread's share |
| `Layout.GlobalBagSplit` | bibopheap.hh:276-281 | heap, thread and bag numbers are the digits of the global bag number |
| `Layout.OffsetDigits` | bibopheap.hh:705-725 | decoding an offset inside any bag recovers heap, thread, bag and the offset in the bag |
| `Layout.DecodeAddr` | bibopheap.hh:705-739 | decoding a slot address finds its thread, bag, set item and own shadow entry |
| `Layout.DecodeMisaligned` | bibopheap.hh:726-733 | inside a usable bag an address is refused exactly when its offset is not a multiple of the class size |
| `Layout.ShadowToAddr` | bibopheap.hh:773-799 | the shadow entry of a slot translates back to the slot's address, heap and index |
| `Layout.ShadowInjective` | bibopheap.hh:736-738 | distinct slots have distinct shadow entries |
| `Layout.EntriesFillShadow` | bibopheap.hh:268-284 | every multiple of the entry size below the exact shadow size of a heap is the entry of exactly one slot |
| `Layout.ShadowDigits` | bibopheap.hh:736-782 | quotient and remainder by the rounded-up size split an entry into its heap and its place in the heap's shadow |
| `Slots.SlotLocRoundTrip` | bibopheap.hh:236-239 | slot k of a set item has a location from which the slot is recovered |
| `Slots.LocSlotRoundTrip` | bibopheap.hh:236-239 | every location is a slot of exactly one item |
| `Slots.SlotShadowInjective` | bibopheap.hh:736-738 | distinct numbered slots have distinct shadow entries |
| `Slots.FirstSlot` | bibopheap.hh:238-239 | the bump pointer set by `initialize` is slot 0 and `lastofCurBag` its bag's last slot |
| `Slots.BumpIsSuccessor` | bibopheap.hh:419-451 | `incrementBumpPointer` goes from slot k to slot k+1, within a bag and across heaps, and keeps `lastofCurBag` right |
| `Slots.NeighbourIsAdjacent` | bibopheap.hh:640-680 | the canary walk goes to slot k+1 on the right and k-1 on the left, null exactly for slot 0 |
| `Slots.WalkAgreesWithBump` | bibopheap.hh:640-680 | walking right in the shadow lands where the bump pointer goes in the heap, and left and right undo each other |
| `Slots.ObjectsDisjoint` | bibopheap.hh:234-239 | no two slots overlap |
| `Slots.SlotsDisjoint` | bibopheap.hh:234-239 | the same for numbered slots |
| `Slots.TrailingGuardDisjoint` | bibopheap.hh:810-829 | a trailing guard, which may run on over the unusable bags, meets no slot |
| `Slots.PageAlignedSlot` | bibopheap.hh:392-398 | a page-aligned bump pointer has a whole page of slots left in its bag |
| `Slots.RandomGuardSkips` | bibopheap.hh:455-484 | the skip stays at or before `lastofCurBag`, lands on a slot boundary and covers exactly the skipped slots |
| `Slots.RandomGuardDisjoint` | bibopheap.hh:455-484 | a random guard meets no slot but those it skips |
| `Slots.ShadowMappedExactly` | bibopheap.hh:312-316 | a heap's shadow lies in the mapping if and only if an arithmetic condition holds, which the lower half of the heaps meets |
| `Slots.DefaultShadowMapped` | bibopheap.hh:312-316 | in a build with 4 MB bags: exactly heaps 0 to 1021 |
| `Slots.ClassSizeForFits` | bibopheap.hh:348-355 | for `sz - 1` of 32 bits, all that `clz` sees, the class is the least power of two, from 16 up, that holds the request |
| `Slots.BagForFits` | bibopheap.hh:344-355 | a small request gets a usable bag whose class holds it and its canary, if and only if adding the canary does not wrap |
| `Slots.LargeExactly` | libfreeguard.cpp:189 | a request goes to the big heap if and only if no usable class holds it with its canary, unless it wraps |
| `Slots.NoSmallerClass` | bibopheap.hh:348-355 | no class below that of a small request holds it with its canary |
| `FreeLists.QueueFrame` | dlist.h:60-71 | a queue depends on the links of its own nodes only |
| `FreeLists.ChainUnique` | slist.h:27-34 | the links determine the list they spell |
| `FreeLists.ChainDistinct` | slist.h:27-34 | a list that ends in null visits no node twice |
| `FreeLists.InsertIsAppend` | dlist.h:60-71 | inserting at the tail appends to the queue, with `prev` naming the new last node |
| `FreeLists.RemoveIsTail` | dlist.h:86-99 | removing the head takes the oldest node, and `prev` is null when none is left |
| `FreeLists.DListHead.InsertTail` | dlist.h:60-71 | the node objects follow the specification of an insertion |
| `FreeLists.DListHead.RemoveHead` | dlist.h:86-99 | the node objects follow the specification of a removal |
| `FreeLists.DListHead.InsertAllTail` | dlist.h:101-126 | merging the cached list behind a queue leaves the queue followed by the list reversed, all other nodes untouched |
| `FreeLists.ReverseInPlace` | dlist.h:114-119 | the do-while loop ends with the list reversed in place |
| `FreeLists.InsertHead` | slist.h:43-47 | a push on the last-in first-out list |
| `FreeLists.RemoveHead` | slist.h:61-69 | a pop from it |
| `FreeLists.GetTail` | slist.h:71-81 | the walk ends at the last node |
| `FreeLists.InsertAllHead` | slist.h:51-57 | the entries of one list go in front of those of the other |
| `FreeLists.RealFreeCurrentList` | bibopheap.hh:802-806 | merge and empty the cached list |
| `FreeLists.FreeThroughCache` | bibopheap.hh:586-590 | pushing nodes on the cached list and merging it leaves the queue with the nodes in order behind it |
| `FreeLists.FreeDirectly` | bibopheap.hh:594-596 | … which is what inserting them at the tail one by one leaves |
| `Threads.PickIndexIsFree` | xthread.hh:119-140 | pigeonhole: the scan finds an available index strictly below `_threadIndex`, or the next fresh one is taken |
| `Threads.PickIsLeast` | xthread.hh:126-138 | … and no lower index is available |
| `Threads.ReserveKeeps` | xthread.hh:119-140 | reserving an index keeps the table consistent and `_threadIndex` the larger of itself and the alive count |
| `Threads.StartKeeps` | xthread.hh:160-184 | `pthread_create` moves the reserved index to the new thread, whatever happened since |
| `Threads.EndKeeps` | xthread.hh:220-222 | when `pthread_join` returns the index is the joiner's, still used once |
| `Threads.ReleaseKeepsExactly` | xthread.hh:225-232 | giving an index back keeps the table consistent if and only if `_xmap` has the joined thread under that index |
| `Threads.EventKeepsExactly` | xthread.hh:119-235 | of all events, only such a join does not keep it |
| `Threads.EntriesStay` | xthread.hh:195-197 | an entry is made by `insertIfAbsent` only and never changes, so a thread is known by its index once entered, unless its `pthread_t` had another |
| `Threads.EveryHistory` | xthread.hh:119-235 | over every interleaving of creations and joins the table is consistent throughout if and only if every joined thread is known; then no two threads share an index and `_threadIndex` is the peak of the alive count |
| `Threads.CustomizedStacks` | xthread.hh:166-182 | when a `pthread_t` value belongs to one index, that is if and only if no join comes before the entry |
| `Threads.EarlyJoinSharesAnIndex` | xthread.hh:182-231 | a history with all `pthread_t` values different in which an early join leads to two running threads on index 2 |
| `Threads.RecycledIdsShareAnIndex` | xthread.hh:184-231 | a history with recycled `pthread_t` values in which two running threads share an index |
| `Threads.XThread.Initialize` | xthread.hh:57-97 | the initial thread has index 0 and is entered under it |
| `Threads.XThread.AllocThreadIndex` | xthread.hh:119-140 | the scanning loop hands out an index that nobody has, the least available one when fewer threads are alive than indices were ever used |
| `Threads.XThread.EnterThread` | xthread.hh:191-197 | `insertIfAbsent` by the creator, some time after the thread started: it is known by its index unless its `pthread_t` has an entry for another |
| `Threads.XThread.ThreadCreate` | xthread.hh:155-199 | with any events of other threads between its two locked sections the new thread gets an index nobody has, and the table stays consistent |
| `Threads.XThread.ReleaseIndex` | xthread.hh:225-232 | both branches of the look-up, consistent exactly as above |
| `Threads.XThread.ThreadJoin` | xthread.hh:220-235 | with any events between the return of `pthread_join` and the locked section, the table is consistent if and only if `_xmap` then has the thread under its index |
| `Machine.StepKeeps` | bibopheap.hh:335-601 | every step of every thread, from `pthread_create` on, keeps the invariant when clients keep their promises |
| `Machine.StepKeepsExactly` | bibopheap.hh:335-601 | a free or a join keeps it if and only if its promise is kept |
| `Machine.EveryRunGood` | bibopheap.hh:335-601 | so every run does, from any good state |
| `Machine.BootGood` | bibopheap.hh:128-303 | the heap that `initialize` leaves is good |
| `Machine.ExactlyOnePlace` | bibopheap.hh:335-601 | in every run each slot is live, skipped, unused, with one thread, or at one position of one free list, and in one of these only |
| `Machine.FreeAcceptsExactlyLive` | bibopheap.hh:503-519 | outside a free in progress the sentinel test passes exactly for live slots |
| `Machine.HandedOutSafely` | bibopheap.hh:401-416 | an allocation returns a slot that was not live, of the caller's own sub-heap, that holds the request and its canary and is apart from every other live object and every guard |
| `Refinement.EveryRunProjects` | bibopheap.hh:335-601 | every run, seen through the calls that return and the frees that are accepted, is a run of an allocator whose state is the set of live address ranges: what it returns holds the request and meets no live range, what is freed is live |
| `Machine.LiveBytesUntouched` | bibopheap.hh:335-601 | the allocator never writes to a live object |
| `Machine.CanariesNeverDamaged` | bibopheap.hh:529-558 | with clients that stay inside their objects no canary check reports damage, and each canary read belongs to a slot that was handed out |
| `Machine.ClientWriteSparesCanaries` | bibopheap.hh:410-411 | a write inside the usable part of an object changes no canary |
| `Machine.GuardsAreForEver` | bibopheap.hh:473-480 | a slot given up to a random guard is never handed out |
| `Machine.NoDeadlock` | bibopheap.hh:373-398 | while a thread is inside the heap some thread can go on |
| `Uninterrupted.MallocAlone` | bibopheap.hh:335-417 | an allocation left alone is a run of the machine with a known result |
| `Uninterrupted.FreeAlone` | bibopheap.hh:507-601 | so is a free of a live slot, whatever was written before: it ends in the damage report if and only if the canary of the slot, or of a live slot one or two places to either side, is not the sentinel byte; otherwise the slot goes to the tail of its list |
| `Uninterrupted.FinishFree` | bibopheap.hh:529-597 | the same from the first canary read on |
| `Uninterrupted.MallocQuietly` | bibopheap.hh:335-417 | a quiet good machine is quiet and good after an allocation, with one new live slot |
| `Uninterrupted.FreeQuietly` | bibopheap.hh:507-601 | and after a free |
| `Overwrites.StepKeepsButBytes` | bibopheap.hh:335-601 | with writes of clients anywhere, every step either is the damage report or leaves a machine that is good but for its bytes |
| `Overwrites.EveryRunButBytes` | bibopheap.hh:335-601 | so every run from such a state is, up to the first report |
| `Overwrites.OverwritesMoveNoSlot` | bibopheap.hh:335-601 | whatever clients write to, in every run each slot is in exactly one place and the lists stay in order |
| `BrokenPromises.RacingFreesQueueTwice` | bibopheap.hh:515-597 | two threads free one live object: both can pass the sentinel test, nobody is refused, and the list ends in a slot linked to itself |
| `BrokenPromises.DoubleFreeReturnsLive` | bibopheap.hh:335-601 | a run from start-up: two threads are created, one object is allocated and freed by both at once, and then allocated twice, the second time while it is live |
| `BrokenPromises.SharedIndexReturnsTwice` | xthread.hh:182-231 | a run from start-up with all `pthread_t` values different: after an early join two threads read one bump pointer, and both are about to return its slot |
| `Bibop.EveryAddressNamed` | bibopheap.hh:705-725 | every address from `_heapBegin` on is that of a slot, a misaligned one, one behind the last object of a bag, or one in an unusable bag |
| `Bibop.NoSlotBehind` | bibopheap.hh:212-261 | no slot has bytes behind the last object of a bag |
| `Bibop.BehindUntouched` | bibopheap.hh:529-533 | so a free of an address there finds a canary that was never written |
| `Bibop.ByteBeforeUnusable` | bibopheap.hh:529-533 | in an unusable bag, whose record says class size 0, the byte taken for the canary is a slot's at one address only, and then it is that slot's canary |
| `Bibop.GuardsOfBag` | bibopheap.hh:215-229 | guard size and offset of a bag in closed form |
| `Bibop.ObjectsOfBag` | bibopheap.hh:212-260 | at least one object, and as many as fill the bag together with its trailing gap |
| `Bibop.InitBag` | bibopheap.hh:197-267 | one record: offsets, empty lists, first and last slots of all set items |
| `Bibop.BibopHeap.LayOutBags` | bibopheap.hh:191-277 | the nested loops lay out every bag at its closed-form offset |
| `Bibop.BibopHeap.LinkShadowHeaps` | bibopheap.hh:284-296 | the last loops set the step between the shadows of successive heaps |
| `Bibop.BibopHeap.Initialize` | bibopheap.hh:128-303 | the object follows the machine's initial state |
| `Bibop.BibopHeap.GuardFirstBags` | bibopheap.hh:234-245 | the first bag of every set item has its trailing guard, and nothing else is protected |
| `Bibop.BibopHeap.SetGuardPage` | bibopheap.hh:810-829 | given the start of a bag, protects the trailing guard of that bag, behind every object in it, if it has one |
| `Bibop.GuardsAreWholePages` | bibopheap.hh:455-484 | every guard range starts on a page and is a number of pages |
| `Bibop.GuardFillsGap` | bibopheap.hh:215-232 | every bag but one that is a single object to its end has a gap of a page or an object behind its last object; its trailing guard begins with the gap and runs to the next bag, or over the unusable bags to the next sub-heap |
| `Bibop.BibopHeap.IncrementBumpPointer` | bibopheap.hh:419-451 | the record moves to the next slot and a new bag gets its guard |
| `Bibop.BibopHeap.TryRandomGuardPage` | bibopheap.hh:455-484 | the record moves behind the skipped slots, which are protected |
| `Bibop.BibopHeap.TakeFromBump` | bibopheap.hh:383-399 | the bump-pointer path follows the machine: the bump pointer moves by one slot or over a random guard, which is protected, as below |
| `Bibop.AdvanceMeans` | bibopheap.hh:383-484 | a random guard is put exactly when the next slot is page aligned and the draw is low, in every class; it takes the slots of one page, or one object of a page or more, and those slots only |
| `Bibop.GuardsMean` | bibopheap.hh:383-484 | what an allocation protects: the page or object skipped, and the trailing guard of each bag entered |
| `Bibop.BibopHeap.TakeFromList` | bibopheap.hh:375-381 | the free-list path follows the machine |
| `Bibop.BibopHeap.Seal` | bibopheap.hh:401-411 | the canary follows the machine |
| `Bibop.BibopHeap.Mark` | bibopheap.hh:412-414 | so does the sentinel |
| `Bibop.BibopHeap.AllocateSmallObject` | bibopheap.hh:335-417 | the oldest free slot of the item, or the slot at the bump pointer; its canary byte and its sentinel are written; with a free slot the bump pointer, the skipped slots and the guards stay, otherwise the bump pointer moves on, over a random guard exactly when the next slot is page aligned and the draw is low; the record has the new position; the slot was not live, and a good machine stays good |
| `Bibop.BibopHeap.NextCanaryNeighbor` | bibopheap.hh:640-680 | the neighbour computed from the record's fields |
| `Bibop.BibopHeap.CheckNeighbors` | bibopheap.hh:535-556 | answers true if and only if no slot one or two places to either side carries the sentinel and a damaged canary |
| `Bibop.BibopHeap.IsObjectFree` | bibopheap.hh:503-505 | says whether the slot is live |
| `Bibop.BibopHeap.Decode` | bibopheap.hh:705-739 | slot addresses decode to their item and shadow entry, misaligned ones are refused, and the entry found for any other address |
| `Bibop.BibopHeap.GetObjectSize` | bibopheap.hh:486-501 | the usable size of the class of the address's bag, -1 in an unusable bag |
| `Bibop.BibopHeap.InsertAtTail` | bibopheap.hh:594-596 | the freed slot goes to the tail of its own list |
| `Bibop.BibopHeap.FreeSmallObject` | bibopheap.hh:507-601 | on any address and with any bytes in slots: frees exactly the live slots whose own canary, and that of every live slot one or two places to either side, is in order, and reports damage for the other live ones; a freed slot is the last of its list; double frees and misaligned addresses are reported, every address behind a last object is too, one way or the other, and none of them changes anything |
| `Bibop.BibopHeap.Undamaged` | bibopheap.hh:529-558 | with clients that stay inside their objects a free of a live slot finds no damage |
| `Bibop.BibopHeap.AstrayExactly` | bibopheap.hh:507-601 | an address in an unusable bag passes the tests of a free if and only if it is the first one behind a last usable bag that ends with an object handed out before, and the first slot of the heap is in use |
| `Bibop.BibopHeap.ClientStore` | bibopheap.hh:410-414 | a client may write every usable byte of a live object: a good machine stays good |
| `Bibop.BibopHeap.ClientOverwrite` | bibopheap.hh:410-414 | it may overwrite any byte of any slot, a canary too, and the object still follows a machine that is good but for its bytes |
| `Bibop.BibopHeap.LiveObjectsApart` | bibopheap.hh:810-829 | live objects are apart from each other and from every protected range, with threads inside the heap or not |
| `Interleaved.EnterMalloc` | bibopheap.hh:335-371 | the start of an allocation on addresses, with other threads anywhere in the heap, is the machine's |
| `Interleaved.MallocStepOnAddresses` | bibopheap.hh:373-417 | so is each later lock, unlock, read and write of it |
| `Interleaved.EnterFree` | bibopheap.hh:507-519 | so is the start of a free |
| `Interleaved.NextToCheck` | bibopheap.hh:535-556 | the nested loops over `move` and `pos` look at the neighbours in the machine's order and end where it ends |
| `Interleaved.FreeStepOnAddresses` | bibopheap.hh:529-601 | each later step of a free is the machine's, the damage report on an overwritten canary too |
| `Interleaved.Act` | bibopheap.hh:335-601 | every step of the machine, a write of a client to any slot and a thread event included, is one step of the code on addresses, which then still follows the machine, every thread's local variables included |
| `Interleaved.ReplayFromStart` | bibopheap.hh:128-601 | so from `initialize` on the code on addresses goes through every interleaving as the machine does, up to the first damage report |
| `RingLists.ListInsertTail` | list.hh:59-77 | the ring with the node behind the last member |
| `RingLists.ListRemoveNode` | list.hh:86-132 | the ring without the node, which then links to itself |
| `RingLists.IsListTail` | list.hh:135 | true exactly for the last member |
| `HashMaps.RemoveFirst` | hashmap.hh:188-211 | taking out the first binding of a key takes its oldest value and leaves every other key's values |
| `HashMaps.AddLast` | hashmap.hh:226-229 | a binding added at the end is the newest of its key |
| `HashMaps.FlatAt` | hashmap.hh:277-301 | entry i of bucket b has a definite place in the order of iteration |
| `HashMaps.HashMap.Initialize` | hashmap.hh:93-121 | an empty map |
| `HashMaps.HashMap.GetEntry` | hashmap.hh:240-258 | the search by count finds the oldest entry of the key, or none |
| `HashMaps.HashMap.Find` | hashmap.hh:138-151 | the oldest value of the key |
| `HashMaps.HashMap.Insert` | hashmap.hh:153-166 | a newest value for the key, all other keys as before |
| `HashMaps.HashMap.InsertIfAbsent` | hashmap.hh:170-185 | never adds a second value |
| `HashMaps.HashMap.Erase` | hashmap.hh:188-211 | removes the oldest value of the key; the map stays in order if and only if there was one |
| `HashMaps.HashMap.Begin` | hashmap.hh:322-343 | stands at the first entry, or at the end of an empty map |
| `HashMaps.HashMap.Increment` | hashmap.hh:277-301 | moves to the next entry in order, or to the end |
| `HashMaps.HashMap.VisitAll` | hashmap.hh:277-343 | iterating from `begin` ends and visits all entries in order |
| `HashMaps.HashMap.EachOnce` | hashmap.hh:277-343 | no entry comes twice in that order |
| `BigHeaps.AlignUpFits` | xdefines.hh:72-74 | the rounded size is a number of pages, and holds the request unless the rounding wraps to 0 |
| `BigHeaps.BigHeap.InitBigHeap` | bigheap.hh:55-61 | no live objects |
| `BigHeaps.BigHeap.AllocateAtBigHeap` | bigheap.hh:65-83 | one new live object that ends where its mapping ends; the table and the mappings match the live objects |
| `BigHeaps.BigHeap.GetObjectSize` | bigheap.hh:85-91 | the requested size of a live object, unknown otherwise |
| `BigHeaps.BigHeap.IsLargeObject` | bigheap.hh:93-96 | true exactly for live objects |
| `BigHeaps.BigHeap.DeallocateToBigHeap` | bigheap.hh:98-113 | exactly live objects are freed, and their mapping is unmapped once |
| `Capacity.SlotInMapping` | bibopheap.hh:305-307 | every slot of the heaps there are lies inside the heap mapping |
| `Capacity.TrailingInMapping` | bibopheap.hh:810-829 | so does every trailing guard, the unusable bags included |
| `Capacity.AdvanceInMappingExactly` | bibopheap.hh:419-484 | from a slot of the heaps there are, all that an allocation protects lies inside the heap mapping if and only if the bump pointer stays in the heaps, or, in a bag without trailing guards, no random guard is put behind them |
| `Capacity.GuardBehindHeap` | bibopheap.hh:432-443 | the last slot of each set item: moving on from it protects a range behind `_heapEnd`, free for a large object |
| `Capacity.UnmappedEntry` | bibopheap.hh:312-316 | 4 MB bags: a slot of heap 1022 or 1023 whose shadow entry is behind the shadow mapping |
| `Capacity.UnmappedNeighbour` | bibopheap.hh:535-539 | 4 MB bags: a slot with a mapped entry whose right neighbour's entry, which a free reads, is not mapped |
| `Capacity.DefaultRoom` | bibopheap.hh:305-316 | 4 MB bags: a bump pointer in the first 1014 heaps has room |
| `FreeGuards.AllocationPlacedExactly` | bibopheap.hh:373-399 | after an allocation every slot handed out can be freed again and every guard lies in the heap mapping, if and only if there was room |
| `FreeGuards.WrappedCopy` | libfreeguard.cpp:260-261 | copying n bytes to what a request of `SIZE_MAX` got writes over its canary if and only if n is 16 or more |
| `FreeGuards.MisroutedExactly` | bibopheap.hh:603-605 | a large object passes `isSmallObject` if and only if its mapping starts at `_heapEnd` and is full |
| `FreeGuards.MisroutedObject` | bibopheap.hh:603-605 | such a mapping is possible for every number of pages |
| `FreeGuards.SlotAligned` | libfreeguard.cpp:293-296 | a slot is aligned to every power of two up to a page and its class size |
| `FreeGuards.AlignedFromEnd` | libfreeguard.cpp:293-298 | what adding the remainder does to an object that ends on a multiple of the alignment, by the residue of the size |
| `FreeGuards.MemalignFails` | libfreeguard.cpp:288-299 | a request whose result is neither aligned nor a start |
| `FreeGuards.FreeGuard.HeapInitialize` | libfreeguard.cpp:167-181 | nothing is live |
| `FreeGuards.FreeGuard.XxMalloc` | libfreeguard.cpp:183-197 | a new object that holds the request, unless the request wraps: a slot of the least class that holds it with its canary, in the caller's sub-heap, if a usable class does or the request wraps, otherwise a mapping of its own, at whose end it lies; every other object keeps its bytes, and guards and objects stay in their mappings; no object without a mapping, and for a small request without room the access outside the mappings |
| `FreeGuards.FreeGuard.AllocateSmall` | bibopheap.hh:335-417 | a small allocation leaves objects and guards in their mappings if and only if there was room |
| `FreeGuards.FreeGuard.WrapOverruns` | libfreeguard.cpp:255-261 | a `realloc` of a live slot to `SIZE_MAX` copies more than the new object holds if and only if the slot has 32 bytes or more |
| `FreeGuards.FreeGuard.GuardsSpareObjects` | bibopheap.hh:810-829 | every protected range lies in the heap mapping, apart from every live object, large ones with their whole mapping |
| `FreeGuards.FreeGuard.ThreadMoves` | xthread.hh:155-235 | threads come and go between calls without touching an object |
| `FreeGuards.FreeGuard.XxFree` | libfreeguard.cpp:199-211 | for every address: what it frees, in which report it ends, or that the heap reads behind the shadow mapping or goes on from an empty record, and that nothing else changes; a live object is freed, and an address behind the heap that is no large object is unknown |
| `FreeGuards.FreeGuard.WalkStaysMapped` | bibopheap.hh:535-556 | the canary walk of a free of a live object reads mapped shadow entries and canaries inside the heap only |
| `FreeGuards.FreeGuard.FreesExactly` | libfreeguard.cpp:199-211 | `xxfree` of a live object's address frees that object if and only if the address is not `_heapEnd` |
| `FreeGuards.FreeGuard.ReadsContent` | libfreeguard.cpp:260-262 | reading by address reads the content of the live object there |
| `FreeGuards.FreeGuard.StoreByte` | libfreeguard.cpp:260-262 | writing a byte of one live object changes no other |
| `FreeGuards.FreeGuard.CopyBytes` | libfreeguard.cpp:261 | copies a prefix of one object, or bytes from elsewhere, to a live object and changes nothing else |
| `FreeGuards.FreeGuard.XxRealloc` | libfreeguard.cpp:222-264 | for every pointer and size: what is returned has room for the request unless that wraps, and a live object's pointer is returned as it is if and only if the request is at most its usable size; when the pointer is freed, unknown, refused, or has to move, and then the first `min(old usable size, sz)` bytes are kept and the old object goes, while a pointer to nothing live ends in the report of the free unless reading there fails before, or the new object is the slot itself; everything else is as before |
| `FreeGuards.FreeGuard.XxMemalign` | libfreeguard.cpp:288-299 | for every alignment and size: the result is the object plus its residue, aligned if and only if the residue is zero or half, with room in a new live object that holds size and alignment, small if and only if a usable class does; for a power of two up to a page the request decides, aligned if and only if the object is small or the size is a multiple of the alignment or half of it more, and a start if and only if small or a multiple; alignment 0 is a division by zero |
| `FreeGuards.FreeGuard.AcceptsStartsOnly` | libfreeguard.cpp:199-211 | `xxfree` of a pointer into a large object frees it if and only if the pointer is its start, and not `_heapEnd` |
| `Lcg.Sse2Rng.Rand` | rng/sse2rng.c:45-80 | shuffles, widening products and masks amount to four separate congruential steps, with the multipliers and increments of the source; the results are bits 16 to 30 |
| `Lcg.FullPeriodExactly` | rng/sse2rng.c:53-73 | full period: the k low bits return after a number of steps exactly when it is a multiple of 2^k |
| `Lcg.LanesHaveFullPeriod` | rng/sse2rng.c:53-56 | the four multipliers and increments meet the conditions |
| `Lcg.LowBitsEvenlySpread` | rng/sse2rng.c:53-73 | in any 2^k consecutive states the k low bits take every value once |
| `Lcg.BumpOdds` | bibopheap.hh:366-370 | any 2^21 consecutive draws force the bump pointer 2^16 times |
| `Lcg.SetItemOdds` | bibopheap.hh:366-367 | any 2^18 consecutive draws pick each set item 2^16 times |
| `Lcg.GuardOdds` | bibopheap.hh:461 | any 2^31 consecutive draws are below the random guard cutoff 3277 * 2^16 times, one time in ten |
| `Chacha.QuarterRoundUndone` | rng/chacha_private.h:45-49 | a quarter round is undone by its lines backwards |
| `Chacha.QuarterRoundVector` | rng/chacha_private.h:45-49 | the test vector of RFC 8439, section 2.1.1 |
| `Chacha.TwentyRoundsPermute` | rng/chacha_private.h:139-148 | the twenty rounds are a permutation of the states |
| `Chacha.ColumnsAndDiagonals` | rng/chacha_private.h:140-147 | each pass takes the four columns and then the four diagonals |
| `Chacha.FiveTimesFour` | rng/chacha_private.h:139-148 | ten double rounds, written out as five times two |
| `Chacha.RoundLoop` | rng/chacha_private.h:123-148 | sixteen variables through ten passes of eight quarter rounds are the twenty rounds of RFC 8439, section 2.3 |
| `Chacha.StoreBlock` | rng/chacha_private.h:123-206 | word i of the stored block is word i of the input plus word i of the permuted input, modulo 2^32, in little-endian order: the block function of RFC 8439, section 2.3; nothing else is written |
| `Chacha.BlockWords` | rng/chacha_private.h:149-206 | each word of a block is the sum of the permuted word and the input word |
| `Chacha.BlockUndone` | rng/chacha_private.h:139-164 | the words of a block less those of the input, with the rounds undone, are the input |
| `Chacha.EmitBlock` | rng/chacha_private.h:116-221 | one pass of the main loop writes as much of the block as is asked for, by way of `tmp` when that is not all, and counts on |
| `Chacha.IncrementCounts` | rng/chacha_private.h:185-189 | words 12 and 13 count as one 64-bit number |
| `Chacha.AdvanceCounts` | rng/chacha_private.h:185-214 | the counter advances by the block count, rounded up, and no other word changes |
| `Chacha.StreamAt` | rng/chacha_private.h:116-221 | byte i of the output is byte i mod 64 of the block numbered i / 64 on |
| `Chacha.SplitAtBlock` | rng/chacha_private.h:116-221 | splitting at a block boundary gives the same bytes and state |
| `Chacha.Generate` | rng/chacha_private.h:116-221 | the main loop writes exactly the requested bytes of the stream |
| `Chacha.ChachaCtx.KeySetup` | rng/chacha_private.h:54-77 | constants and key in words 0 to 11, the key little-endian in words 4 to 11, the rest kept |
| `Chacha.SigmaSpells` | rng/chacha_private.h:51 | the constants are the bytes of "expand 32-byte k" |
| `Chacha.ChachaCtx.IvSetup` | rng/chacha_private.h:79-86 | zero counter and the nonce, little-endian, in words 12 to 15, the rest kept |
| `Chacha.ChachaCtx.EncryptBytes` | rng/chacha_private.h:88-222 | the stream written in place, and the context advanced |
| `Pool.TakeRunBy` | rng/arc4random.c:161-174 | copying a run of unread bytes is taking them one by one |
| `Pool.TakeAppendBy` | rng/arc4random.c:161-174 | taking n bytes and then m is taking n + m |
| `Pool.ChunkingIsInvisible` | rng/arc4random.c:154-176 | with no reseed or fork between, n bytes and then m give the bytes and the final state of n + m |
| `Pool.RequestsAreOne` | rng/arc4random.c:154-176 | the same for any list of requests |
| `Pool.WordIsFourBytes` | rng/arc4random.c:178-190 | a word is the next four bytes when four are left or none is |
| `Pool.ServeKeeps` | rng/arc4random.c:119-190 | every request leaves the spent part wiped and the reseed counter exact |
| `Pool.EveryRun` | rng/arc4random.c:119-190 | in every run the spent part is zero between calls, and with requests below 1,600,000 bytes fewer than that are given out per seeding |
| `Pool.Arc4Random.RsInit` | rng/arc4random.c:83-95 | key and nonce from 40 bytes, ignored when there are fewer |
| `Pool.Arc4Random.RsRekey` | rng/arc4random.c:131-152 | the buffer holds 1024 bytes of keystream with the first 40 wiped and 984 left; the next key and nonce are those 40 bytes, exclusive-ored with 40 bytes of entropy if there are any, and the counter is zero |
| `Pool.Arc4Random.RsStir` | rng/arc4random.c:97-117 | seeds: an empty, wiped buffer, the full reseed count, and a key and nonce from the entropy, exclusive-ored with keystream when there was a key before |
| `Pool.EntropyCounts` | rng/arc4random.c:97-149 | two stirs of one pool give the same context if and only if their entropy is the same |
| `Pool.Arc4Random.RsStirIfNeeded` | rng/arc4random.c:119-129 | a first call, a fork or a spent count seeds so, and charges the request; otherwise the request is charged and nothing else changes |
| `Pool.Arc4Random.Drain` | rng/arc4random.c:161-175 | the loop ends, although a pass may consume nothing, with exactly the next n bytes: what is left in the buffer, then new keystream from byte 40 on |
| `Pool.Served` | rng/arc4random.c:161-175 | which bytes those are, as a function of the pool |
| `Pool.Arc4Random.RsRandomBuf` | rng/arc4random.c:154-176 | the same, under a new key if one was due |
| `Pool.Arc4Random.RsRandomU32` | rng/arc4random.c:178-190 | the word at the read position, little-endian, or, with fewer than four bytes left or a new key due, the one at byte 40 of new keystream |
| `Uniform.ArcRandomUniform` | rng/arc4random_uniform.c:35-59 | the loop stops at the first accepted draw and returns it modulo the bound |
| `Uniform.ThresholdIsExcess` | rng/arc4random_uniform.c:43-44 | the threshold is 2^32 mod the bound, and below half of 2^32 |
| `Uniform.ExactlyUniform` | rng/arc4random_uniform.c:43-58 | every result has the same number of accepted inputs |
| `Uniform.MostlyAccepted` | rng/arc4random_uniform.c:46-51 | more than half of all inputs are accepted |

## Left out

- Machine.EveryRunGood: unboundedly many heaps; the index of the heap a bump pointer enters is not bounded by `BIBOP_NUM_HEAPS`, which the code does not check either. `FreeGuard.HasRoom` states the bound where it matters.
- Machine.StepKeeps: hardware memory ordering; steps are sequentially consistent.
- Machine.StepKeepsExactly: writes of clients outside their objects, which may or may not do damage; `Overwrites` has them.
- Overwrites.StepKeepsButBytes: which writes a later free finds; a damaged byte other than a canary is found by nobody.
- Chacha.BlockWords: the test vector of a whole block (RFC 8439, section 2.3.2); the vector of a quarter round, the order of the rounds and the word sums are proved instead.
- Threads.XThread.ThreadCreate: attributes and the start routine; thread ids come from the environment, and a failing `pthread_create` ends the process.
- Threads.CustomizedStacks: that the C library puts a thread's `pthread_t` into the stack it is given is an assumption about that library.
- Bibop.BibopHeap.FreeSmallObject: what follows when a free goes on from the empty record of an unusable bag; the result `Astray` says that it happens.
- Interleaved.Act: clients write to slots; writes elsewhere are not modelled. A free is of a slot's address; what other addresses do, `FreeSmallObject` says for a call left alone.
- Bibop.BibopHeap.Initialize: the random choice of the bag size and the clamp of the usable bags to the number of bags; both are fixed by the configuration.
- Uniform.ArcRandomUniform: the endless supply of random words is a finite sequence, and running out of it is a result of its own.
- FreeGuards.FreeGuard.XxMalloc: what follows when there is no room and the code goes on into memory that belongs to others; the result `Overrun` says that it happens.
- FreeGuards.FreeGuard.XxFree: clients that write outside their objects, whom `FreeSmallObject` covers; what follows the read behind the shadow mapping, or the empty record; the results `Unmapped` and `Astray` say that it happens.
- FreeGuards.FreeGuard.XxRealloc: whether bytes that were never handed out can be read is up to the hardware and a parameter; what follows an `Overrun` is not modelled.
- FreeGuards.FreeGuard.CopyBytes: the bytes of the heap mapping and of the large mappings are two maps, told apart by address.
- BigHeaps.BigHeap.AllocateAtBigHeap: sequential; the reads of the map outside its lock are not interleaved.
- HashMaps.HashMap.Find: keys compare by identity, as with `compareAddr`; the `int` in which a count is compared and the width of `count` are not modelled.
- Lcg.BumpOdds: `srand_sse` called again from a new thread start; the window is of one generator, with any seeds.
- Concurrent use of the cached free list (`CFREELIST`), which the source itself calls broken with several set items; its sequential merge is modelled.
- The builds without canaries, guard pages or FIFO lists, and `DESTROY_ON_FREE`.
- `mmap`, `munmap`, `mprotect`, `madvise`: fresh ranges are parameters and protected ranges a ghost set.
- Stack relocation, stack-based thread lookup, logging, start-up spinning and `Real`: platform code; a fatal report is a rejected result.
- `xxcalloc` is `xxmalloc` of an unchecked product, `xxposix_memalign` is `xxmemalign`, and the other entry points only print.
- The quality of the hash functions: the hash is an arbitrary function.
