# A verified model of the kernel's core

The repository is a small x86 kernel for several cores. This project models the parts of it that keep
delicate state and proves, for every input, every run and every interleaving, that they keep it:

- **The boundary-tag heap** (`Bytes`, `HeapSpec`, `HeapMoves`, `HeapSearch`, `HeapOps`, `HeapRuns`, `Heap`).
  One array of words carries block tags, an in-place doubly linked free list and the callers' payloads.
  `Heap.Heap` is the object that rewrites the array; `tags` (header index to signed size) and `order`
  (the free list) are its abstract value, tied to the words by `HeapSpec.Good`.
- **Frames, page tables and fork** (`FrameSpec`, `FrameSteps`, `Paging`, `Fork`). Memory is a map from frame
  number to 1024 words; a ghost ledger says whose each frame is. Since the ledger is a map, directories,
  tables, pages, the free list and the untouched range are disjoint once the invariant ties it to the words.
  Two-level paging follows section 4.3 of the Intel SDM, volume 3A.
- **Scheduling** (`Scheduler`, `SchedulerSafety`, `SchedulerTurns`, `SchedulerPins`, `SchedulerHands`,
  `TickRefinement`, `ConditionRefinement`, `ReadyOrder`, `ReadyQueue`, `FairTicks`): `block` as
  interleaved per-core steps, the ready list as linked objects, and what the timer tick does to run times.
- **Blocking synchronisation** (`Tally`, `WaitQueue`, `Semaphore`, `BlockingSemaphore`, `BoundedBuffer`,
  `BufferSafety`, `RingBuffer`, `ReusableBarrier`, `Turnstile`, `Future`): protocols as state machines whose
  steps are the critical sections, for any number of threads; the queue, the semaphore and the ring also as
  the objects that are updated in place.
- **mmap** (`Mmap`, `Sharing`): the gap search over the region list and the count of users of a shared file.
- **File reads and the exec stack** (`BlockIO`, `ExecStack`): a layered read path equal to a flat slice, and
  an argument image that reads back.

Every operation that the source performs by updating state is a method proved against a function or predicate
on values; whole-run results are lemmas about those values.

## What turned out false, and when it holds

- `malloc` rounds the byte count in 32 bits. A granted payload holds the request if and only if
  `bytes <= 2^32 - 4` (`HeapSearch.GrantHoldsRequest`); above that a request, when granted, gets at most five
  words (`HeapSearch.WrappedRequest`).
- The user `realloc` counts the old block with its two tag words. The copy reaches behind the old payload if and
  only if the new size exceeds it (`Heap.SpillsWhen`); what arrives there is the old block's footer and then the
  header of the block on its right (`Heap.Heap.MoveInto`, `Heap.Heap.Realloc`). With a new size above 2^32 - 4 the
  copy stays inside the new block if and only if `Heap.ReallocSafe` holds (`Heap.ReallocSafeWhen`; `Heap.OverrunExample` is a heap where it does not). The old block
  is freed even when the new one could not be allocated (`Heap.Heap.Realloc`).
- `mmap` compares a new region with nothing before the head of the list and nothing after its last entry, and its
  sums wrap. The list stays sorted if and only if the condition of `Mmap.MmapIsSortedWhen` holds, stays sorted
  inside the address space if and only if that of `Mmap.MmapKeepsListWhen` holds, and the new region overlaps no
  other if and only if that of `Mmap.MmapIsClearWhen` holds; `Mmap.OverlapExample` and `Mmap.WrapExample` are
  overlaps.
- `frameup` covers the length if and only if `length <= 2^32 - 4096` (`Mmap.FrameUpCovers`).
- `BoundedBuffer::put` adds `head + n` in 32 bits: the index is right in every state if and only if the buffer
  has at most 2^31 slots (`BoundedBuffer.IndexIsRightWhen`).
- A `yield` that finds the ready queue empty returns with `no_preempt` still set. A running thread is in that
  state if and only if the last time its core left `block` was such a return, and exactly then ticks are ignored
  (`SchedulerPins.PinnedWhen`, `SchedulerPins.TickIgnoredWhen`). So a queued thread is dispatched by ticks within
  the bound if and only if no tick found the ready queue empty (`FairTicks.StarvesWhen`); `FairTicks.LonelyExample`
  and `SchedulerPins.AloneExample` show a thread that never is.
- A thread can be lost. `up` takes the waiter off its queue, releases the lock and only then schedules it; a tick in
  between that finds the kill flag set stops the caller there. Every thread not deleted is on a core, in transit, in a
  queue or in the hand of a living thread if and only if no thread was made a zombie with something in hand
  (`SchedulerHands.NoThreadLostWhen`); what a dead thread holds stays there in every continuation
  (`SchedulerHands.LostForever`), and `SchedulerHands.LostExample` is a run from boot that loses a thread.
- `block_io.h` documents -1 for an offset beyond the end; `read_all` with `n == 0` returns 0 there. The model
  follows the code (`BlockIO.ReadFile`).

## Model

| member | source | states |
|---|---|---|
| Heap.Heap.constructor | kernel/heap.cc:126-138 | heapInit leaves a valid heap: two taken sentinels around one free block, list of that block |
| HeapOps.InitGood | kernel/heap.cc:126-138 | whatever the words were, after heapInit they are tiled, tagged at both ends, linked and coalesced |
| Heap.Heap.MakeTaken | kernel/heap.cc:112-115 | exactly the two tag words change |
| Heap.Heap.MakeAvail | kernel/heap.cc:101-110 | tags and links of a block pushed on the list, back link of the old head, new head |
| Heap.Heap.Remove | kernel/heap.cc:85-99 | the list neighbours are joined, or the head moved |
| HeapSpec.UnlinkKeeps | kernel/heap.cc:85-99 | in any intermediate state, remove takes exactly that block off a well-formed list; every tag and every live word stays |
| HeapSpec.PushKeeps | kernel/heap.cc:101-110 | makeAvail puts exactly that block at the head of a well-formed list; every live word stays |
| HeapMoves.TakeKeeps | kernel/heap.cc:112-115 | tagging an unlinked block taken keeps tiling, tags, list and all live words, up to the remainder still to be listed |
| HeapMoves.AllocTiles | kernel/heap.cc:176-184 | carving with or without a remainder keeps the tiling and leaves no two free blocks adjacent |
| HeapMoves.ReleaseTiles | kernel/heap.cc:205-221 | merging with both free neighbours keeps the tiling and leaves no two free blocks adjacent |
| HeapOps.CarveKeeps | kernel/heap.cc:176-186 | remove, makeTaken and makeAvail together keep the whole invariant and every word of every live block |
| HeapOps.ReleaseCompletes | kernel/heap.cc:205-221 | with the neighbours unlinked, pushing the merged block restores the whole invariant and touches no other live block |
| HeapOps.FreeReads | kernel/heap.cc:61-67 | left and right, read from the tags around a live block, are its real neighbours |
| HeapMoves.LeftNeighbour | kernel/heap.cc:61-63 | every block but the first sentinel has a left neighbour that ends where it starts |
| HeapMoves.WordInOneBlock | kernel/heap.cc:85-222 | every word of the array lies in exactly one block |
| HeapMoves.AllFreeIsOneBlock | kernel/heap.cc:191-222 | once nothing is live, one free block fills the space between the sentinels |
| Heap.Heap.CarveWords | kernel/heap.cc:177-184 | the words and the list head after remove, makeTaken and makeAvail |
| Heap.Heap.Carve | kernel/heap.cc:176-186 | validity kept, block structure is the carved one, the words change by CarveStep, no live word changed |
| HeapOps.CarveStepKeeps | kernel/heap.cc:176-186 | from the words alone: malloc's writes keep tiling, tags, list, coalescing and every live word |
| HeapOps.ReleaseStepKeeps | kernel/heap.cc:205-221 | from the words alone: free's writes keep tiling, tags, list, coalescing and every word of the other live blocks |
| Heap.Heap.FindBest | kernel/heap.cc:152-174 | the first of the smallest among the first 20 fitting blocks in list order; none exactly when no block fits; the walk ends |
| Heap.Heap.FindFirst | t0.dir/sbin/heap.c:132-156 | the first fitting block in list order; none exactly when no block fits; the walk ends |
| HeapSearch.FittingIsFilter | kernel/heap.cc:158-173 | the fitting blocks are exactly the listed blocks that are large enough |
| HeapSearch.SeenIsCandidates | kernel/heap.cc:156-173 | stopping at the twentieth fitting block or at the list's end has seen exactly the candidates |
| HeapSearch.BothFailTogether | kernel/heap.cc:152-174 | in one heap, best-of-20 and first-fit both find nothing exactly when no free block is large enough |
| HeapSearch.GrantHoldsRequest | kernel/heap.cc:145-146 | a granted payload holds the bytes asked for if and only if bytes <= 2^32 - 4 |
| HeapSearch.LeastRequest | kernel/heap.cc:145-146 | a request up to that bound asks for the least block, of four words or more, whose payload holds it |
| HeapSearch.FailsWhen | kernel/heap.cc:145-174 | such a request finds nothing if and only if no free block's payload holds it |
| HeapSearch.GrantIsTight | kernel/heap.cc:178-184 | a grant takes at most three words more than asked for, or leaves exactly the rest free behind it |
| HeapSearch.TwentyCandidates | kernel/heap.cc:156-171 | the kernel looks at the first twenty fitting blocks, or at all if there are fewer |
| HeapSearch.WrappedRequest | kernel/heap.cc:145-146 | every request above that bound asks for four words, and when granted gets a payload of two to five |
| HeapSearch.LivePayloadsApart | kernel/heap.cc:176-186 | no word of a live payload lies in another live block or a sentinel |
| Heap.Heap.MallocBest | kernel/heap.cc:140-189 | null exactly when nothing fits, which for a request that does not wrap is when no free payload holds it, and then nothing changes; otherwise the chosen block is granted, the rest is valid and every live word is kept; the base for 0 bytes |
| Heap.Heap.MallocFirst | t0.dir/sbin/heap.c:125-161 | the same with the first fitting block |
| Heap.Heap.Detach | kernel/heap.cc:210-218 | unlinking a neighbour in the middle of free keeps the intermediate invariant, the tags next to it and all live words |
| Heap.Heap.AbsorbNeighbours | kernel/heap.cc:205-219 | start and size of the merged block; exactly the free neighbours leave the list |
| Heap.Heap.Free | kernel/heap.cc:191-222 | null and base ignored, a free block refused, a live block merged with its free neighbours; no other live word changes |
| Heap.Heap.CopyWords | t0.dir/sbin/heap.c:213-213 | memcpy of whole words and a partial last word |
| Heap.Heap.CopyBytes | t0.dir/sbin/heap.c:213-213 | each of the m bytes arrives and no word outside their span changes |
| Heap.Heap.CopyInto | t0.dir/sbin/heap.c:208-214 | min(newSize, 4 * old words) bytes arrive, and only the payload of the new block changes |
| Heap.SpillsWhen | t0.dir/sbin/heap.c:208-213 | the copy passes the old payload if and only if newSize exceeds it, by the excess or 8 bytes, whichever is less |
| Heap.ReallocSafeWhen | t0.dir/sbin/heap.c:208-213 | the copy stays inside the new payload if and only if the request did not wrap or the old block with its tags fits |
| Heap.OverrunExample | t0.dir/sbin/heap.c:208-213 | a heap and a size for which 40 bytes go into a payload of eight |
| Bytes.MergedByte | t0.dir/sbin/heap.c:213-213 | a partly copied word has the source's low bytes and keeps its own high bytes |
| Bytes.CopiedByte | t0.dir/sbin/heap.c:213-213 | after the copy each of the m bytes equals the source byte |
| Heap.Heap.MoveInto | t0.dir/sbin/heap.c:208-216 | exactly min(newSize, 4 * old words) bytes arrive in the new block, those behind the old payload being its footer and the next header, and the old block is released |
| Heap.Heap.Realloc | t0.dir/sbin/heap.c:193-218 | all outcomes: null pointer, zero size, free block, failure (old block released), success with the old bytes kept and the tags that arrive behind them; other live blocks untouched |
| HeapOps.PayloadWritesKeep | kernel/heap.cc:101-115 | a program writing only inside a live payload cannot disturb the heap or other payloads |
| HeapRuns.RunKeeps | kernel/heap.cc:85-222 | in every run of mallocs, frees and payload writes, every state is tiled, has header equal footer, a well-formed list of exactly the free blocks, and no two free blocks adjacent |
| HeapRuns.LiveUntilReleased | kernel/heap.cc:140-222 | a live block keeps place and size until it is released |
| HeapRuns.ContentsUntilWritten | kernel/heap.cc:140-222 | over any run, the words of a live block change only when its owner writes them |
| HeapRuns.DrainedRunIsFresh | kernel/heap.cc:126-222 | when everything was released, the block structure and the list are those heapInit left |
| FrameSpec.TranslationIsLedger | kernel/vmm.cc:34-44 | a private page translates to a frame if and only if the ledger gives that frame to that page |
| FrameSpec.PagesNeverShared | kernel/vmm.cc:34-44 | no two private pages, of one or of two spaces, share a frame |
| FrameSpec.PageAccess | kernel/vmm.cc:31-43 | tables and private pages are mapped present, writable and user; an APIC page maps itself, for the kernel only |
| FrameSpec.SharedHalf | kernel/vmm.cc:69-72 | every directory starts with the shared entries and nothing else up to the private half |
| FrameSpec.AddressSplits | kernel/vmm.cc:62-64 | directory index, table index and offset make up the address; special pages are those the code calls special |
| FrameSteps.LinkTable | kernel/vmm.cc:38-41 | hanging a zeroed table into an empty directory entry keeps the ledger true |
| FrameSteps.UnlinkTable | kernel/vmm.cc:102-105 | clearing the entry of an empty table keeps the ledger true |
| FrameSteps.MapPage | kernel/vmm.cc:42-43 | mapping a held frame at an empty entry keeps the ledger true |
| FrameSteps.RemapPage | kernel/vmm.cc:42-43 | mapping over a present entry keeps the ledger true, with the old frame left to the caller |
| FrameSteps.UnmapPage | kernel/vmm.cc:52-55 | a present entry names its page's own frame, and clearing it keeps the ledger true |
| FrameSteps.PoolPop | kernel/physmem.cc:25-27 | taking the head of the list threaded through the frames keeps list and ledger true |
| FrameSteps.PoolBump | kernel/physmem.cc:28-34 | taking the first untouched frame keeps list and ledger true |
| FrameSteps.PoolPush | kernel/physmem.cc:48-50 | returning a frame keeps the list a duplicate-free list of exactly the free frames |
| Paging.Machine.constructor | kernel/physmem.cc:54-60 | the whole range starts untouched |
| Paging.Machine.AllocFrame | kernel/physmem.cc:20-41 | a zeroed frame nobody had, the head of the free list if there is one and else the first untouched; fails exactly when both are exhausted |
| Paging.Machine.DeallocFrame | kernel/physmem.cc:43-51 | the frame heads the free list; no other frame changes |
| Paging.Machine.TableFor | kernel/vmm.cc:35-42 | the table of a directory index, allocated and linked if it was missing |
| Paging.Machine.UserMap | kernel/vmm.cc:34-44 | the page, mapped before or not, is backed by the given frame; a frame that backed it is left to the caller; at most one table was added; nothing else in use changed |
| Paging.Machine.FaultIn | kernel/vmm.cc:292-293 | an anonymous or private fault maps a zeroed frame that nobody had; everyone keeps frames and contents |
| Paging.Machine.Unmap | kernel/vmm.cc:46-60 | the page is gone, its frame free or in the caller's hands; an unmapped page is left alone |
| Paging.Machine.MapApic | kernel/vmm.cc:22-32 | map of an APIC page into a directory under construction |
| Paging.Machine.BuildDir | kernel/vmm.cc:66-77 | the words of the new directory and its one or two APIC tables |
| Paging.Machine.MakePd | kernel/vmm.cc:66-78 | a space with the shared half, the two APIC pages and nothing else; every frame in use is kept and every new one belongs to the space |
| Paging.Machine.ReleasePage | kernel/vmm.cc:95-99 | one entry cleared, exactly its frame freed |
| Paging.Machine.ReleaseTable | kernel/vmm.cc:102-105 | one directory entry cleared, exactly its empty table freed |
| Paging.Machine.SweepPage | kernel/vmm.cc:89-101 | one inner round: the page freed if present and not special |
| Paging.Machine.SweepTable | kernel/vmm.cc:85-105 | one round: all private pages below an index freed, and the table unless it holds an APIC page |
| Paging.Machine.DeletePrivate | kernel/vmm.cc:80-107 | exactly the private frames of the space freed; the shape of make_pd restored; no other space touched |
| Paging.SweptFresh | kernel/vmm.cc:80-107 | a fully swept space has the shape make_pd leaves |
| Paging.SweptPage | kernel/vmm.cc:89-101 | passing one table entry frees the page behind it, if any, and nothing else |
| Paging.Machine.DeletePage | kernel/vmm.cc:117-126 | one inner round: the frame returned if present and not special |
| Paging.Machine.ReturnTable | kernel/vmm.cc:127-127 | the table returned after its pages |
| Paging.Machine.ReturnDir | kernel/vmm.cc:130-130 | the directory returned last, and with it the whole space |
| Paging.Machine.DeleteTable | kernel/vmm.cc:115-127 | one round: the pages below an index and the table returned |
| Paging.Machine.DeletePd | kernel/vmm.cc:109-131 | exactly the frames of the space go back to the pool, each once; no other frame is touched |
| Paging.DeletedPage | kernel/vmm.cc:117-126 | passing one table entry returns the page behind it, which had not been returned yet |
| Paging.DeletedAll | kernel/vmm.cc:112-130 | at the end only the directory is left, and with it the whole space is returned |
| Paging.ReturnedUndoes | kernel/vmm.cc:109-131 | deleting a space that holds everything taken since leaves exactly the frames in use before |
| Fork.CopySkip | kernel/process.cc:101-105 | the skipped entries leave nothing uncopied: present in the child means special, absent in the parent means nothing to copy |
| Fork.CopyAdd | kernel/process.cc:106-111 | mapping the filled frame copies exactly that page and leaves the parent alone |
| Fork.CopyComplete | kernel/process.cc:87-113 | after the loops every private page of the child mirrors the parent's |
| Fork.PageCopied | kernel/process.cc:106-111 | filling and mapping the new frame keeps the machine valid, passes that page and leaks nothing |
| Fork.ChildTable | kernel/process.cc:93-99 | the child's table, allocated when make_pd left none, with the copy on course |
| Fork.CopyEntry | kernel/process.cc:101-112 | one inner round: copied unless the child has the page or the parent does not |
| Fork.CopyPage | kernel/process.cc:106-111 | one page copied into a frame nobody had |
| Fork.CopyTable | kernel/process.cc:88-112 | one round of the outer loop, with the child's table allocated when missing |
| Fork.ForkSpace | kernel/process.cc:87-113 | a private page is present in the child exactly when it is in the parent, with equal contents in a different frame; the parent's frames and contents are unchanged; every new frame belongs to the child |
| SchedulerSafety.InitHolds | kernel/threads.cc:90-99 | every core starts on its own idle thread |
| SchedulerSafety.StepKeeps | kernel/threads.h:86-121 | every step of every core keeps each thread in exactly one place |
| SchedulerSafety.RunKeeps | kernel/threads.h:86-121 | so does every interleaving |
| SchedulerSafety.TickDuringSwitch | kernel/pit.cc:147-147 | a tick inside block changes nothing, because the caller or the next thread is pinned |
| SchedulerSafety.PickReadyKeeps | kernel/threads.h:99-101 | taking the head of the ready queue moves it to this core alone |
| SchedulerSafety.PickIdleKeeps | kernel/threads.h:101-113 | falling back on the idle thread finds it parked at this core |
| SchedulerSafety.InstallKeeps | kernel/threads.h:115-117 | publishing the next thread as active while still on the old stack is safe |
| SchedulerSafety.SwitchKeeps | kernel/context.s:41-89 | so is switching stacks and clearing both no_preempt flags |
| SchedulerSafety.PublishKeeps | kernel/threads.cc:113-131 | the handler puts the old thread in one queue, only after its stack was left |
| SchedulerSafety.PublishLands | kernel/condition.h:72-85 | where the handler puts the old thread for each reason to block; in wait, last in the condition's queue if the epoch has not moved and among the ready if it has; no other queue changes |
| ConditionRefinement.ParkIsPublish | kernel/condition.h:72-85 | the barrier's Park is the scheduler's Publish with the epochs compared: same queue, same place |
| ConditionRefinement.StaleNeverWaits | kernel/condition.h:77-84 | in every interleaving, a publish that saw the epoch move adds to no wait queue |
| SchedulerSafety.OneCoreEach | kernel/threads.h:117-120 | no thread is active on two cores and no stack is used by two |
| SchedulerSafety.QueuedIsNowhereElse | kernel/threads.cc:39-51 | a queued thread is in that queue only, not idle, in nobody's hand, on no core, and no core uses its stack |
| SchedulerSafety.DeleteIsSafe | kernel/threads.cc:39-45 | a thread being deleted is active nowhere, queued nowhere, and its stack is in use nowhere |
| SchedulerSafety.IdleStaysHome | kernel/threads.h:103-112 | an idle thread only ever runs on its own core |
| SchedulerHands.DeadStays | kernel/threads.cc:39-45 | no step of any core revives a zombie or changes what it holds |
| SchedulerHands.DeadHandWhen | kernel/semaphore.h:44-57 | in every interleaving, some dead thread holds something if and only if an earlier step made a zombie of a thread that did |
| SchedulerHands.NoThreadLostWhen | kernel/threads.h:86-121 | in every interleaving, every thread not deleted is on a core, in transit, in a queue, an idle thread or in the hand of a living thread if and only if no thread was made a zombie with something in hand |
| SchedulerHands.LostIsNotFound | kernel/semaphore.h:47-55 | a thread in a dead hand is on no core, in no queue and in no other hand |
| SchedulerHands.LostForever | kernel/semaphore.h:47-55 | a thread in a dead hand stays there in every continuation of the run |
| SchedulerHands.LostExample | kernel/pit.cc:149-151 | a run from boot in which a thread is stopped inside up and the waiter it had taken is lost |
| SchedulerTurns.TurnIs | kernel/threads.h:86-121 | block, pick, install, switch and publish in a row: the core, the queues, the flags and the places afterwards |
| SchedulerPins.PinnedWhen | kernel/threads.h:92-102 | in every interleaving, a non-idle thread running outside block has no_preempt set if and only if its core last left block through the CanReturn exit |
| SchedulerPins.TickIgnoredWhen | kernel/pit.cc:147-154 | a tick outside block changes nothing if and only if the thread is idle or its core last left block that way |
| SchedulerPins.ReturnSticks | kernel/threads.h:102-102 | after such a return the thread keeps its core through any steps, whatever becomes ready, until it calls block itself |
| SchedulerPins.AloneExample | kernel/threads.h:102-102 | a run from boot: one thread alone is ticked, another is created and scheduled, and ticks are ignored |
| ReadyOrder.Position | kernel/priority_queue.h:34-39 | the traversal stops before the first greater run time |
| ReadyOrder.AddKeepsOrder | kernel/priority_queue.h:24-43 | adding a newcomer keeps the queue ordered by run time then arrival, and loses or duplicates nobody |
| ReadyOrder.HeadIsLeast | kernel/priority_queue.h:45-53 | the head has the least run time and came first among equals |
| ReadyOrder.OrderedIsUnique | kernel/priority_queue.h:24-53 | there is one ordered arrangement of given jobs, so the queue is their stable sort |
| ReadyOrder.RunIsOrdered | kernel/priority_queue.h:24-53 | after any run of adds and removes the queue is ordered |
| ReadyOrder.NothingLost | kernel/priority_queue.h:24-53 | after any run, what is queued and what was removed is exactly what was added |
| ReadyOrder.RemovesLeast | kernel/priority_queue.h:45-53 | each remove takes the first of the least |
| ReadyQueue.PriorityQueue.PushFront | kernel/priority_queue.h:27-32 | a thread linked in front of a null-terminated acyclic list |
| ReadyQueue.PriorityQueue.FindSpot | kernel/priority_queue.h:34-39 | the nodes around the insertion position; the traversal ends |
| ReadyQueue.PriorityQueue.Splice | kernel/priority_queue.h:41-42 | a thread linked between two neighbours, the rest of the list as before |
| ReadyQueue.PriorityQueue.Add | kernel/priority_queue.h:24-43 | the linked list after add is the ordered insertion, with the same threads and the new one |
| ReadyQueue.PriorityQueue.Remove | kernel/priority_queue.h:45-53 | the head leaves, the rest stays in order; null when empty |
| TickRefinement.IgnoredTick | kernel/pit.cc:147-147 | with the running thread pinned, FairTicks.Tick and the scheduler's tick both change nothing |
| TickRefinement.LonelyTick | kernel/threads.h:99-102 | with nobody ready, tick and pick do what FairTicks.Tick does |
| TickRefinement.BusyTick | kernel/threads.h:86-121 | otherwise tick, pick, install, switch and publish at the ready queue's position do what FairTicks.Tick does |
| FairTicks.TickKeeps | kernel/pit.cc:139-155 | a tick keeps the ready queue sorted and the threads distinct |
| FairTicks.TickSpends | kernel/pit.cc:148-153 | a tick uses up one tick of what the others may run ahead of a waiting thread |
| FairTicks.BoundDrops | kernel/pit.cc:148-153 | while a thread waits, each tick brings its dispatch one tick closer |
| FairTicks.NoStarvationWhen | kernel/threads.cc:113-118 | a queued thread with run time K runs within 1 + sum over the others of max(0, K + 1 - run time) ticks if and only if the running thread is not pinned; if it is, nobody else ever runs by ticks |
| FairTicks.PinnedStays | kernel/pit.cc:147-147 | no number of ticks changes anything for a pinned thread |
| FairTicks.PinnedWhen | kernel/pit.cc:139-155 | over any run of ticks and arrivals, the running thread is pinned if and only if some tick found the ready queue empty |
| FairTicks.StarvesWhen | kernel/pit.cc:139-155 | over any such run, a queued thread is dispatched within the bound if and only if no tick found the ready queue empty |
| FairTicks.LonelyExample | kernel/threads.h:102-102 | a lone thread is ticked, then another arrives: it is never dispatched |
| FairTicks.TickKeepsLevel | kernel/pit.cc:139-155 | threads within one tick of the running one stay within one tick of the next |
| FairTicks.NeverMoreThanOneApart | kernel/pit.cc:139-155 | threads that start level never drift more than one tick apart, over any number of ticks |
| WaitQueue.Queue.Add | kernel/queue.h:23-32 | the linked list with first and last gains the thread at its end |
| WaitQueue.Queue.Remove | kernel/queue.h:34-45 | the first thread leaves; first and last stay consistent; null when empty |
| BlockingSemaphore.Counter.Down | kernel/semaphore.h:19-42 | takes a unit, or queues the caller last, exactly when none is available |
| BlockingSemaphore.Counter.Up | kernel/semaphore.h:44-57 | hands the unit to the first waiter, or banks it when nobody waits |
| Semaphore.RecordKeeps | kernel/semaphore.h:19-57 | one down or up keeps the three laws of HandOff |
| Semaphore.HandOff | kernel/semaphore.h:19-57 | after any calls: initial + ups = count + granted downs, no unit banked past a waiter, waiters woken in arrival order |
| RingBuffer.Buffer.Put | kernel/bb.h:28-29 | the buffered values gain the new one at the end, despite the wrap-around index |
| RingBuffer.Buffer.Get | kernel/bb.h:38-40 | the oldest value is returned and leaves the buffer |
| BoundedBuffer.IndexIsRightWhen | kernel/bb.h:28-28 | the 32-bit index is the right slot in every state if and only if N <= 2^31 |
| BoundedBuffer.RingPut | kernel/bb.h:28-29 | writing the slot appends to the queue the ring stands for |
| BoundedBuffer.RingTake | kernel/bb.h:38-40 | advancing head drops the front of the queue the ring stands for |
| BufferSafety.AlwaysSafe | kernel/bb.h:25-44 | every put that reaches the ring finds a free slot and every get an item, in bounds |
| BufferSafety.StepKeeps | kernel/bb.h:25-44 | every step of every thread keeps token counts, wait queues and the order of values |
| BufferSafety.RunIsSafe | kernel/bb.h:25-44 | in every interleaving 0 <= n <= N, no access is unsafe, and the values taken are a prefix of the values put |
| BufferSafety.OnlyFullOrEmpty | kernel/bb.h:25-44 | if nobody inside can move, each waits for a slot of a full buffer or for an item of an empty one, all for the same unless there are no slots |
| BufferSafety.CallEnters | kernel/bb.h:25-35 | a call puts the thread in front of its first semaphore, with the argument of a put remembered |
| BufferSafety.OwnStepsCount | kernel/bb.h:25-44 | each step of a thread brings it closer to its return and nobody else's step moves it away: four steps after the call |
| BufferSafety.ReadReturns | kernel/bb.h:38-43 | what a get takes is the oldest value put and not taken yet, and what it will return |
| BufferSafety.GetReturns | kernel/bb.h:34-44 | in every interleaving, the k-th get to read returns the k-th value put |
| BufferSafety.PutWaits | kernel/bb.h:25-32 | in every interleaving, what a put writes is its own argument |
| ReusableBarrier.QueueFits | kernel/condition.h:98-126 | the condition's queue never outgrows the open generation, so notifyAll empties it |
| ReusableBarrier.ReleaseKeeps | kernel/barrier.h:56-59 | the last arrival opens the next generation and leaves the queue empty |
| ReusableBarrier.ParkKeeps | kernel/condition.h:72-85 | a thread that queues after a notify sees the new epoch and is rescheduled instead |
| ReusableBarrier.RelockKeeps | kernel/barrier.h:61-63 | a woken thread always finds its generation closed and leaves |
| ReusableBarrier.StepKeeps | kernel/barrier.h:48-67 | every step keeps entries = initial * epoch + (initial - count) and the place of every thread |
| ReusableBarrier.RunKeeps | kernel/barrier.h:48-67 | so does every interleaving of any number of threads |
| ReusableBarrier.NobodyLeavesEarly | kernel/barrier.h:48-67 | no thread leaves a generation before all of its threads entered it |
| ReusableBarrier.QueueIsCurrent | kernel/condition.h:72-85 | no thread of a finished generation is in the condition's queue |
| ReusableBarrier.OnlyMissingArrivals | kernel/barrier.h:48-67 | if no thread inside can move, all wait for the open generation, which lacks arrivals |
| ReusableBarrier.LeavesWhen | kernel/barrier.h:56-66 | a thread leaves in a step if and only if it is not inside sync afterwards |
| ReusableBarrier.RecheckWaits | kernel/barrier.h:61-63 | whoever gets the lock again while its generation is open waits once more |
| ReusableBarrier.OwnStepsCount | kernel/barrier.h:48-67 | each step of a thread brings it closer to its return and nobody else's step moves it away |
| ReusableBarrier.ClosedReturns | kernel/barrier.h:61-66 | in every interleaving, a thread whose generation is closed has returned or taken fewer than two steps of its own, and waits for nobody |
| Turnstile.StepKeeps | kernel/barrier.h:20-29 | one token exists once all have arrived and none before; nobody is lost |
| Turnstile.RunKeeps | kernel/barrier.h:20-29 | so in every interleaving |
| Turnstile.NobodyPassesEarly | kernel/barrier.h:20-29 | no thread returns before all have arrived |
| Turnstile.NeverStuck | kernel/barrier.h:20-29 | once all have arrived, somebody can move while anybody is inside |
| Turnstile.StepDescends | kernel/barrier.h:20-29 | every step decreases a bound on the steps to come |
| Turnstile.RunsAreFinite | kernel/barrier.h:20-29 | a run of n threads has at most 4n steps, so with NeverStuck everybody returns |
| Future.StepKeeps | kernel/future.h:27-39 | every step keeps the value in place for whoever is past the wait |
| Future.GetsYieldTheValue | kernel/future.h:27-39 | every get that returns yields the one value set, by either path |
| Future.NeverStuck | kernel/future.h:33-39 | after set, somebody inside get can always move |
| Future.OwnStepsCount | kernel/future.h:33-39 | after set, a step of a thread in get brings it closer to its return and nobody else's step moves it away |
| Future.ReturnsWithinThree | kernel/future.h:33-39 | in every run after set, a thread in get has returned or taken fewer than three steps of its own |
| Future.SetAdvances | kernel/future.h:27-32 | set stores the value, then isReady, then raises the semaphore, and ends there |
| Future.CallEnters | kernel/future.h:33-34 | a call of get starts at the test of isReady |
| Future.LooksReturnWithinTwo | kernel/future.h:34-38 | in every run once isReady is set, a get that has still to test it returns within two steps, without the semaphore |
| Mmap.FrameUpCovers | kernel/physmem.h:19-25 | rounding up gives a multiple of the frame size less than a frame above the length, and covers it if and only if it does not wrap |
| Mmap.AddressSpace.Map | kernel/vmm.cc:216-267 | special addresses and missed fixed requests are refused and change nothing; otherwise the chosen region is inserted at the chosen position; a free address with room behind it is granted, fixed or not |
| Mmap.SearchIsExact | kernel/vmm.cc:229-248 | the 32-bit search in unbounded sums: one that wraps is accepted whatever the gap |
| Mmap.FoundFits | kernel/vmm.cc:238-244 | a gap the loop stops at holds the region, strictly, unless the sum wrapped |
| Mmap.GapFoundWhen | kernel/vmm.cc:229-248 | the loop stops at a gap that holds the region if and only if the address's own sum does not wrap and some gap ahead has strictly more room than the size |
| Mmap.GapTaken | kernel/vmm.cc:238-244 | the gap taken is the first ahead of the address with strictly more room; the answer is the address itself if it fits there, else the gap's lower end |
| Mmap.AddressKept | kernel/vmm.cc:238-240 | an address that is free, with room behind it, is the one handed out |
| Mmap.OtherwiseTaken | kernel/vmm.cc:238-244 | what is handed out when a wrapped sum is accepted |
| Mmap.LostTaken | kernel/vmm.cc:231-248 | what is handed out when the search runs off the end |
| Mmap.CrossedIs | kernel/vmm.cc:231-248 | without a fitting gap the region goes in front of the first region behind a wrapped sum, or last |
| Mmap.FoundInserts | kernel/vmm.cc:260-265 | when it stops at a gap, the list stays sorted and non-overlapping if and only if the accepted sum did not wrap |
| Mmap.LostInserts | kernel/vmm.cc:260-265 | when it runs off the end, the list stays sorted if and only if the address is past the last region |
| Mmap.MmapIsSortedWhen | kernel/vmm.cc:224-266 | for every sorted list of 32-bit addresses and sizes, the last region ending anywhere: the list stays sorted if and only if it was empty, the address is past the end, the address's sum does not wrap and a gap has room, or a touching empty region ends the list and the size fits behind it |
| Mmap.MmapKeepsListWhen | kernel/vmm.cc:224-266 | the exact condition under which the list stays sorted and every region ends inside the address space |
| Mmap.MmapIsClearWhen | kernel/vmm.cc:224-266 | the exact condition under which the new region shares no address with any other, empty regions and wrapping sums included |
| Mmap.OverlapExample | kernel/vmm.cc:229-248 | one region, and the same address handed out again |
| Mmap.WrapExample | kernel/vmm.cc:238-244 | a size whose sum wraps is accepted in a gap that is too small, over the next region |
| Sharing.SharedPages.Map | kernel/vmm.cc:260-265 | a new entry is attached to nothing |
| Sharing.SharedPages.Touch | kernel/vmm.cc:292-337 | the entry points to its file's node; a frame is taken exactly when the file had no users |
| Sharing.SharedPages.Unmap | kernel/vmm.cc:155-214 | the entry and its page are gone; the frame is freed exactly when it was the last user's |
| Sharing.SharedPages.FindNode | kernel/vmm.cc:296-306 | the first node with the file's number |
| Sharing.TouchKnown | kernel/vmm.cc:307-310 | attaching to an existing node keeps count = number of attached entries, and one node and frame per file |
| Sharing.TouchNew | kernel/vmm.cc:311-334 | so does a new node around a fresh frame |
| Sharing.UnmapShared | kernel/vmm.cc:181-189 | so does detaching one of several users |
| Sharing.UnmapLast | kernel/vmm.cc:186-206 | so does detaching the last one, whose frame nobody else translates to |
| Sharing.NodeOfPage | kernel/vmm.cc:181-206 | the node an attached entry points to is in the list, is the one its file number finds, and its count is the file's users; so none is unlinked while held |
| Sharing.OneFramePerFile | kernel/vmm.cc:300-309 | two attached pages share a frame if and only if they map the same file |
| Sharing.OnlyNode | kernel/vmm.cc:297-319 | a file and a frame have at most one node |
| BlockIO.ReadSector | kernel/ide.cc:63-89 | one 512-byte slice of the disk, nothing else written |
| BlockIO.ReadPointer | kernel/ext2.cc:145-149 | the block map's entry, direct or read through the indirect block |
| BlockIO.PointersTile | kernel/ext2.cc:145-149 | twelve direct pointers; those of blocks 12, 13, ... tile the indirect block word by word from its start |
| BlockIO.FlatByte | kernel/ext2.cc:156-156 | a file byte is in the disk block the block map names, at its offset in the file block |
| BlockIO.ReadBlock | kernel/ext2.cc:138-158 | the block the block map names, nothing else written |
| BlockIO.ReadDisk | kernel/ext2.cc:156-157 | a nested read_all of the disk delivers that slice of the disk |
| BlockIO.Read | kernel/block_io.cc:6-33 | the flat bytes up to the end of the block, the file or the request; -1 beyond the end, 0 at it |
| BlockIO.ReadAll | kernel/block_io.cc:35-47 | exactly min(n, size - offset) bytes, equal to that slice of the flat contents; nothing else written; ends |
| BlockIO.ReadFile | kernel/block_io.cc:35-47 | on a file all of whose blocks exist: min(n, size - offset) flat bytes for every offset up to the size and every n, 0 or -1 beyond |
| BlockIO.FillPage | kernel/vmm.cc:321-327 | the page of a readable file mapping holds the file's bytes from the offset and zeros past its end |
| BlockIO.BlockRun | kernel/block_io.cc:13-31 | bytes copied out of one block are the flat bytes at that offset |
| BlockIO.OneMoreRun | kernel/block_io.cc:37-45 | each round extends the delivered slice and writes nowhere else |
| BlockIO.IdeFlat | kernel/ide.cc:63-89 | the flat contents of the disk device are the disk |
| ExecStack.Measure | kernel/sys.cc:74-81 | padded lengths and the size of the image |
| ExecStack.StringsAligned | kernel/sys.cc:76-81 | every string starts on a word boundary of the image |
| ExecStack.StringsInOrder | kernel/sys.cc:92-99 | the strings follow one another without overlap |
| ExecStack.PartsTile | kernel/sys.cc:74-99 | header, pointers, null and strings tile the image, each string in its length and terminator rounded up to words |
| ExecStack.PutHeader | kernel/sys.cc:86-90 | argc and the vector's address; nothing below the image written |
| ExecStack.PutPointer | kernel/sys.cc:95-95 | the pointer of one argument, the earlier arguments kept |
| ExecStack.PutString | kernel/sys.cc:96-97 | the string and its terminator, nothing outside its padded room written |
| ExecStack.PutArg | kernel/sys.cc:94-99 | one more argument in place, the earlier ones kept |
| ExecStack.Build | kernel/sys.cc:74-100 | the whole image exactly fills the room from the stack pointer to the top; nothing below it changes |
| ExecStack.ReadsBack | kernel/sys.cc:74-100 | following argc and argv from the stack pointer gives the original arguments, word-aligned, and a null at the end |
| Bytes.UnpackedPacks | kernel/sys.cc:86-95 | a word written as four bytes reads back |
| Bytes.WordBytes | kernel/ext2.cc:149-149 | words are little-endian: byte k of a word in memory is the one at its address plus k |

## Left out

- Boot, interrupt and timer set-up, ACPI, UART and IDE port access: hardware.
- Spin locks, interrupt flags, mwait and memory ordering: critical sections are atomic steps.
- `Shared<T>` reference counts, system call dispatch, descriptors, path lookup, ELF loading, printing.
- Heap: the locks, the allocation of the lock itself in heapInit, `sanity` (the identity, since `safe` is 0) and the C++ operators; a kernel panic on freeing a free block is the result `false`. The region has 8 to 2^30 - 1 words.
- Heap.Heap.Free: the pointer is null, the base, or just past the header of some block other than the two sentinels; the code cannot tell other pointers apart.
- Heap.Heap.Realloc: the base pointer with a non-zero size is excluded (the code then reads the word before the array), and so is a copy that would run over the new block (ReallocSafeWhen says exactly when).
- HeapRuns.RunKeeps: failed mallocs are not events, since they change nothing.
- Paging.Machine.UserMap: only non-special pages and frames the caller holds; frames of shared files across fork and exit are not claimed: the code keeps no single owner there.
- Paging.Machine.AllocFrame: the panic on exhaustion is the result `false`; entries are arithmetic on frame numbers; invlpg and the CR3 assertions are not modelled. APIC pages are page-aligned and at or above 0x80000000, and the shared half of a directory has at most 512 entries.
- Fork.ForkSpace: only the address-space copy; the copied region list, semaphore, file and child tables would add easy members.
- SchedulerSafety.StepKeeps: the insertion position in the ready queue is arbitrary here (`ReadyOrder` fixes it); a kill is a thread that stops at any point. `exit` itself is not modelled. Idle threads only yield or stop: that they never call down rests on the assertion at kernel/semaphore.h:33, and that they never wait on the same discipline.
- FairTicks.NoStarvationWhen: one core, threads that stay runnable, one per process, no kill flag; run times do not wrap.
- ReadyQueue.PriorityQueue.Add: the `size` field, which only serves the monitor instruction, and `remove_all` are not modelled; run times are fixed while queued.
- BufferSafety.RunIsSafe: at most 2^31 slots, by IndexIsRightWhen.
- ReusableBarrier.RunKeeps: initial_count is at least 1 (sync asserts that count is not 0); the 64-bit epochs do not wrap.
- Turnstile.RunKeeps: at most `count` calls of sync; one more is a panic.
- Future.GetsYieldTheValue: set is called once, as it asserts.
- Mmap.MmapIsClearWhen: a region that runs past 2^32 counts as the addresses from its start on, not as wrapped around.
- Mmap.AddressSpace.Map: the opening of the file descriptor, the offset and the protection bits are not part of the list.
- Sharing.SharedPages.Touch: one-page mappings, each touched before it is unmapped, no fork or exit; one integer stands for a process and an address; file contents and the order of the region list are not modelled. munmap of private or untouched entries is left out: the code then follows a node pointer that was never set.
- BlockIO.ReadAll: block addresses do not wrap and lie on the disk; double and triple indirect blocks are a panic in the code.
- ExecStack.Build: the argument memory is readable up to each padded length, as memcpy reads it, and the image fits below the top.
