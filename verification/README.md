# Tengine core in Dafny

A model of the hard parts of the server core (`src/core`, with two pieces of `src/event`), and proofs about
it. Code that works by updating memory is modelled as classes and methods over the same links, bitmaps and
buffers the C code updates; each method is tied to a specification function or to an abstract value (a set of
live blocks, an in-order sequence, a byte stream), and the promises are stated about that value.

- **Shared mutex** (`Shmtx`). The lock word, the wait counter and the semaphore as a step relation over any
  number of processes, each at its own program point, with processes dying and being force-unlocked.
  Mutual exclusion holds in every state of every run. A sleeper is never stranded while the lock is free
  exactly when no process can die at one of a few named points. A trylock returns after at most two steps,
  with the lock exactly if it found it free, and a lock returns only with it.
- **Slab pool** (`SlabLists`, `SlabPages`, `SlabChunks`, `SlabPool`). The descriptor table with its free and
  slot rings (`Circular` has what they share with the queue), the page runs with joining on both sides, and
  the chunk bitmaps in each of their three forms. One invariant ties every bit of it to the set of live
  blocks: they are aligned, in bounds and disjoint; freeing removes exactly one; when nothing is live the
  pool is one free run again.
- **Red-black tree** (`RbShape`, `RbMemory`, `RbTree`) and **timers** (`Timer`). Parent links, colours and a
  shared sentinel in an array of records. Insert and delete keep every red-black rule and change the
  in-order sequence by exactly one node. The timer tree stays in deadline order across the wrap of the
  millisecond clock, and a wait for events is as long as it takes for the next timer to run out.
- **Open file cache** (`Queue`, `FileKeys`, `FileState`, `FileCache`). The tree by hash and name, the expiry
  queue, use counts and descriptors. Every descriptor handed out is open and stays open until it is given
  back; every descriptor open is owned by one entry; no descriptor leaks on any path. What a caller is told is
  stated in plain fields of the entry and of the file system's answers; the queue is in the order of last use.
- **Output chain** (`Bufs`, `OutputChain`). The bytes accepted are always the bytes sent followed by the bytes still
  held, ready and queued, in order, whatever is passed through, copied, cut or recycled; the filter gets only
  buffers it can send, and nothing that could be sent as it is is ever copied. Which copies carry the
  flush and last flags they should is foretold from the buffers given in.
- **Configuration tokens** (`ConfTokens`, `ConfBare`, `ConfText`, `ConfReader`). The reader with its sliding buffer
  computes what a reader of the whole file would; quoting any words and reading them back gives the same words, and
  words without quotes are read back exactly if each is of a certain form. A text made of words in any spelling,
  blanks, comments and an end of any kind is read as just that, with its lines counted.
- **Radix tree** (`RadixShape`, `RadixMemory`, `RadixTree`). Longest-prefix lookup over a map from prefixes
  to values that insert and delete change at one prefix only.
- **Calendar** (`Times`), **CRC32** (`Crc32`), **Base64** (`Base64`), **URI escaping** (`UriEscape`) and
  **hash tables** (`HashLayout`, `HashTable`). Closed-form date arithmetic against a calendar counted day by
  day, table steps against the bitwise polynomial, codec round trips, and a packed table against a linear search.

Where the code and a comment or the expectation of a caller disagree, the model follows the code. The places
found, each with the exact condition for the code to meet the expectation, are
`Shmtx.NoLostWakeupIffSafe`, `SlabPool.Pool.Free`, `FileCache.AccountedExactly`, `FileCache.CountKept`,
`FileCache.FileCache.Shutdown`, `OutputChain.NeverFlagged` and `OutputChain.OutputChain.Output`, `Timer.EarlierExactly`,
`ConfTokens.CommentExactly`, `RadixTree.RadixTree.Delete`, `UriEscape.RefreshExactly`, `HashTable.SearchExactly` and
`HashTable.RoomExactly`.

## Model

| member | source | states |
|---|---|---|
| Shmtx.MutualExclusionAlways | src/core/ngx_shmtx.c:62-160 | In every state of every run, with any number of processes dying and being force-unlocked, at most one process owns the lock, the lock word is zero exactly when nobody does, and the waiter accounting holds |
| Shmtx.StepMutualExclusion | src/core/ngx_shmtx.c:62-160 | No step of any process, death or forced unlock can break mutual exclusion |
| Shmtx.StepAccounting | src/core/ngx_shmtx.c:69-195 | Every step keeps the balance between the wait counter, the processes registered as waiting and the tokens in the semaphore |
| Shmtx.UnlockByNonOwner | src/core/ngx_shmtx.c:135-160 | Unlock and forced unlock on behalf of a process that does not own the lock change nothing at all, so they wake nobody |
| Shmtx.CallStep | src/core/ngx_shmtx.c:62-76 | An idle process can call either function, and the call leads into it |
| Shmtx.TryStep | src/core/ngx_shmtx.c:62-66 | One step inside trylock: the call returns with the lock if and only if its compare-and-set finds zero, and without it only if somebody has the lock; it never touches the wait counter or the semaphore |
| Shmtx.TryLockReturns | src/core/ngx_shmtx.c:62-66 | In every run: a process that called trylock is at its read or its compare-and-set, never back at the read after the other, until it has the lock, has returned without it or is dead; it never registers, sleeps or yields |
| Shmtx.LockStep | src/core/ngx_shmtx.c:69-132 | One step inside lock: it returns only with the lock, and that if and only if its compare-and-set finds zero; it stops spinning only where spinning is off or the pauses have come to the limit |
| Shmtx.LockReturnsHolding | src/core/ngx_shmtx.c:69-132 | In every run: a process that called lock stays in it until it has the lock or is dead |
| Shmtx.DisciplinedAlways | src/core/ngx_shmtx.c:83-132 | In every state of every run a spinner pauses for a power of two below the limit and only with several processors, a process waits or wakes others only where there is a semaphore and yields only where there is none |
| Shmtx.FreeLockIsTaken | src/core/ngx_shmtx.c:62-81 | Either call by an idle process takes a free lock with one read and one compare-and-set, and changes nothing else |
| Shmtx.UnlockFrees | src/core/ngx_shmtx.c:135-147 | Unlock by the owner sets the lock word to zero, and goes on to wake somebody exactly where there is a semaphore |
| Shmtx.WakesOne | src/core/ngx_shmtx.c:163-195 | A wakeup on its own takes one from a wait counter that is not zero and gives one token, unless the semaphore is full, and otherwise does nothing |
| Shmtx.NeverStuck | src/core/ngx_shmtx.c:62-195 | A live process always has a step, unless it sleeps on a semaphore without a token |
| Shmtx.NoLostWakeupAlways | src/core/ngx_shmtx.c:69-195 | If no process can die at a critical point, then in every state of every run a free lock with a sleeper has a wakeup on its way |
| Shmtx.StepNoLostWakeup | src/core/ngx_shmtx.c:69-195 | One safe step never strands a sleeper |
| Shmtx.FallAsleep | src/core/ngx_shmtx.c:69-132 | From any reachable state with the lock held, an idle process can get as far as sleeping on the semaphore, counted once |
| Shmtx.DeathStrandsSleeper | src/core/ngx_shmtx.c:98-195 | For each critical point, a reachable state in which a death there left the lock free, a process asleep and nobody to wake it |
| Shmtx.NoLostWakeupIffSafe | src/core/ngx_shmtx.c:69-195 | No reachable state loses a wakeup if and only if no process can die at a critical point |
| SlabLists.RingsUnlink | src/core/ngx_slab.c:231-241 | Unlinking a descriptor takes it out of the one ring it is in and leaves all other free and slot rings as sequences unchanged |
| SlabLists.RingsPush | src/core/ngx_slab.c:735-745 | Pushing an absent descriptor puts it first in one ring and leaves all others unchanged |
| SlabLists.RingsReplace | src/core/ngx_slab.c:630-641 | Replacing a run by its remainder keeps the remainder at the same place of the free ring |
| SlabPages.AllocateValid | src/core/ngx_slab.c:621-672 | Cutting pages off a free run keeps the partition into runs, the rings and the no-two-adjacent-free-runs rule |
| SlabPages.DetachFloats | src/core/ngx_slab.c:675-694 | A run taken out of its ring leaves a table in which only that run is unaccounted for |
| SlabPages.JoinRightFloats | src/core/ngx_slab.c:696-714 | Joining the free run after it widens the unaccounted run and nothing else |
| SlabPages.JoinLeftFloats | src/core/ngx_slab.c:716-741 | Joining the free run before it, reached through its last descriptor, widens the unaccounted run and nothing else |
| SlabPages.SealValid | src/core/ngx_slab.c:743-753 | Marking the last descriptor and pushing the joined run gives back a valid table that differs only inside the joined run |
| SlabPages.NoAdjacentFree | src/core/ngx_slab.c:675-753 | In a valid table the neighbours of a free run are in use on both sides |
| SlabPages.AllFreeIsOneRun | src/core/ngx_slab.c:675-753 | If every run is free there is one run, covering the pool, and every slot list is empty |
| SlabChunks.BlocksDisjoint | src/core/ngx_slab.c:155-398 | Two blocks given out never overlap, whether chunks of one page, of different pages, or page runs |
| SlabChunks.BlockExtent | src/core/ngx_slab.c:155-398 | A block lies inside its run, is aligned to its size class, and never overlaps the bitmap at the start of its page |
| SlabChunks.LiveBlocks | src/core/ngx_slab.c:155-398 | Every live block, with the size asked for, lies in the page area and before the next live block |
| SlabChunks.NothingLive | src/core/ngx_slab.c:412-618 | Whatever was allocated and freed before, a pool with nothing live is one free run with empty slot lists: pages and chunk pages are all recovered |
| SlabChunks.TakeValid | src/core/ngx_slab.c:198-326 | Setting the bit of a free chunk, and leaving the slot list if that filled the page, adds exactly one new live block |
| SlabChunks.NewPageValid | src/core/ngx_slab.c:330-387 | A fresh page set up for a size class, with its bitmap chunks reserved, adds exactly one new live block |
| SlabChunks.RunValid | src/core/ngx_slab.c:163-178 | A page run adds exactly one new live block |
| SlabChunks.GiveValid | src/core/ngx_slab.c:434-563 | Clearing a bit of a page that stays in use removes exactly that block, and a page that was full rejoins its slot list |
| SlabChunks.FreedValid | src/core/ngx_slab.c:565-590 | Returning an emptied page or a page run to the page allocator leaves the rest of the pool, and its live blocks, as they were |
| SlabPool.PageArea | src/core/ngx_slab.c:72-137 | The page count and aligned start computed at initialisation leave room for the slots, the descriptors and the pages, in that order, without overlap, and waste less than three pages with their descriptors |
| SlabPool.NoPageArea | src/core/ngx_slab.c:93-130 | No page at all is found only in a memory smaller than three pages with their descriptors |
| SlabPool.AlignUp | src/core/ngx_slab.c:122-124 | The start of the pages is the first page boundary behind the descriptors |
| SlabPool.InitialPool | src/core/ngx_slab.c:100-134 | The table written at initialisation is a valid pool with nothing live |
| SlabPool.PointerFacts | src/core/ngx_slab.c:422-580 | The checks made on a pointer (page kind, alignment, bit, busy and free marks) decide exactly whether it is a live block, but for a chunk that holds a bitmap, which passes them and is never live |
| SlabPool.BitmapChunkLooksUsed | src/core/ngx_slab.c:434-485 | Freeing a chunk that holds the bitmap of its page leaves a table in which that page is no page of chunks, whatever is done about the slot list, so no bookkeeping makes the pool valid |
| SlabPool.BitmapOffered | src/core/ngx_slab.c:434-485 | The chunk of the bitmap that was freed is the next one its page offers, and a page that was full or first in its list is first now |
| SlabPool.Pool.constructor | src/core/ngx_slab.c:72-137 | A new pool is valid, holds nothing live, keeps its pages inside the given memory behind the descriptors, and wastes less than three pages with their descriptors of it |
| SlabPool.Pool.FirstFit | src/core/ngx_slab.c:621-630 | The search returns the first run of the free list that is long enough, or finds that no free run anywhere in the table is |
| SlabPool.Pool.AllocPages | src/core/ngx_slab.c:621-672 | Gives the head of the first long enough run and keeps the table valid, or changes nothing because no free run is long enough |
| SlabPool.Pool.FreePages | src/core/ngx_slab.c:675-753 | The run freed and its free neighbours on both sides become one free run; every other descriptor keeps its meaning |
| SlabPool.Pool.TakeBit | src/core/ngx_slab.c:198-326 | Of any page with a clear bit, in a valid pool or not, the first clear bit is set and a page that fills up leaves its list; nothing else changes |
| SlabPool.Pool.TakeChunk | src/core/ngx_slab.c:198-326 | Takes a chunk that was not live from a listed page, adds it to the live blocks and keeps the pool valid |
| SlabPool.Pool.StartPage | src/core/ngx_slab.c:330-387 | Gives the first chunk of a fresh page, or fails with nothing changed because no page is free and none of this class is listed |
| SlabPool.Pool.Alloc | src/core/ngx_slab.c:155-398 | A non-null result is a block that was not live and is now, with the size asked for; null means nothing changed and neither a free run nor a listed page of the class could serve it |
| SlabPool.Pool.GiveChunk | src/core/ngx_slab.c:434-563 | A chunk in use leaves the live blocks, alone, and its page is returned when it was the last one; a chunk that holds the bitmap goes the same way and breaks the pool |
| SlabPool.Pool.ClearChunk | src/core/ngx_slab.c:434-485 | The bit is cleared and a full page goes back to its list, and nothing else changes; it finds out exactly whether any chunk is left in use |
| SlabPool.Pool.FreeEmptied | src/core/ngx_slab.c:467-519 | A page whose last chunk went is returned to the page allocator and the whole pool is valid again |
| SlabPool.Pool.GiveRun | src/core/ngx_slab.c:565-590 | Frees a run, joined with its neighbours, and removes its block from the live ones |
| SlabPool.Pool.FreeChunk | src/core/ngx_slab.c:432-563 | The same for a pointer into a page of chunks: accepted if and only if it is live or holds the bitmap |
| SlabPool.Pool.Free | src/core/ngx_slab.c:412-618 | The pool is valid afterwards if and only if the pointer is not to a chunk that holds a bitmap; then exactly that pointer leaves the live blocks, and it is accepted if and only if it is live or the head of a free run; a refused pointer changes nothing; a chunk that holds a bitmap is offered next by its page |
| SlabPool.Pool.HandOutBitmap | src/core/ngx_slab.c:198-240 | Freeing a chunk that holds a bitmap, on a page that is full or first in its list, and taking one from that list again: the caller gets the memory of the bitmap itself, the bitmaps are as before, and if the page was not full so is the whole pool, which counts that memory as nobody's |
| SlabPool.ClearedTaken | src/core/ngx_slab.c:198-240 | The search comes to the very bit that was cleared, and setting it puts back what was there |
| RbShape.PlugFacts | src/core/ngx_rbtree.c:24-317 | The rules stated around a focus (path and subtree) are the red-black rules of the whole tree, and so is the order of the nodes |
| RbShape.InsertRecolour | src/core/ngx_rbtree.c:54-58 | A red uncle: the recolouring moves the one red-red conflict two levels up, balance and order kept |
| RbShape.InsertInner | src/core/ngx_rbtree.c:61-64 | The inner case turned into the outer one, balance and order kept |
| RbShape.InsertOuter | src/core/ngx_rbtree.c:66-68 | The outer case removes the conflict, balance and order kept |
| RbShape.RemoveNode | src/core/ngx_rbtree.c:195-250 | Splicing out a node with one child keeps the red-black rules if it was red, and leaves one black too few on one side if it was black |
| RbShape.DeleteRedSibling | src/core/ngx_rbtree.c:259-264 | A red sibling is turned into a black one with the deficit still at the same place |
| RbShape.DeleteRecolour | src/core/ngx_rbtree.c:266-268 | A black sibling with black children: the deficit moves one level up |
| RbShape.DeleteInner | src/core/ngx_rbtree.c:271-276 | A red inner nephew is turned into a red outer one with the deficit still at the same place |
| RbShape.DeleteOuter | src/core/ngx_rbtree.c:278-282 | A red outer nephew: the rotation repairs the deficit for good |
| RbShape.HeightBound | src/core/ngx_rbtree.c:24-317 | A red-black tree of n nodes has height at most twice the logarithm of n + 1 |
| RbMemory.ZipPlug | src/core/ngx_rbtree.c:24-317 | Memory that holds a path and a subtree holds the whole tree and conversely, with every parent link consistent |
| RbMemory.ZipRotate | src/core/ngx_rbtree.c:320-377 | The pointer writes of a rotation turn exactly one edge of the tree held in memory, in both directions, at the root and below, and never write the sentinel |
| RbMemory.ZipAttach | src/core/ngx_rbtree.c:112-118 | The writes at the end of a descent attach a red leaf at exactly that place |
| RbMemory.ZipDetach | src/core/ngx_rbtree.c:197-206 | Redirecting one link splices a node out |
| RbMemory.ZipReplace | src/core/ngx_rbtree.c:217-239 | The writes that put the substitute in the place of the deleted node rename that node in the tree and change nothing else |
| RbMemory.SubstMoved | src/core/ngx_rbtree.c:197-239 | Unhooking the substitute and moving it to the place of the deleted node together, including when it is a child of that node, give the tree without it |
| RbTree.RbTree.constructor | src/core/ngx_rbtree.h:44-48 | An empty tree over the given records, no record but the sentinel touched |
| RbTree.RbTree.Rotate | src/core/ngx_rbtree.c:320-377 | Both rotations write exactly the links of a one-edge turn, the root pointer included |
| RbTree.RbTree.Descent | src/core/ngx_rbtree.c:97-154 | The empty place found has only nodes not after the new one before it and only nodes after it behind |
| RbTree.RbTree.Insert | src/core/ngx_rbtree.c:24-94 | Keeps every red-black rule and adds exactly one node to the in-order sequence, behind all its equals, which stays sorted |
| RbTree.RbTree.Rebalance | src/core/ngx_rbtree.c:47-94 | The loop ends in a red-black tree with the same order |
| RbTree.RbTree.RebalanceStep | src/core/ngx_rbtree.c:49-91 | Each turn keeps the order and moves the only conflict strictly closer to the root |
| RbTree.RbTree.Min | src/core/ngx_rbtree.h:73-81 | Ends at the node with nothing before it in its subtree |
| RbTree.RbTree.First | src/core/ngx_rbtree.h:73-81 | From the root, it is the first node in order |
| RbTree.RbTree.FindSubst | src/core/ngx_rbtree.c:169-180 | The substitute has an empty side, and is the node itself or the next in order |
| RbTree.RbTree.Extract | src/core/ngx_rbtree.c:195-246 | After the link surgery the node is in no link of the tree and the place of the deficit is known through its parent link even when it is the sentinel |
| RbTree.RbTree.RepairStep | src/core/ngx_rbtree.c:254-314 | Each turn keeps the order and the deficit rules and makes progress, in all four cases on both sides |
| RbTree.RbTree.Repair | src/core/ngx_rbtree.c:252-317 | The loop ends in a red-black tree with the same order |
| RbTree.RbTree.DeleteRoot | src/core/ngx_rbtree.c:182-193 | Deleting a root with one child leaves that child as a black root |
| RbTree.RbTree.Delete | src/core/ngx_rbtree.c:157-317 | Keeps every red-black rule and removes exactly the given node from the in-order sequence, which stays sorted if it was |
| RbTree.InsertSorted | src/core/ngx_rbtree.c:97-154 | For any comparison that orders the nodes, the place found by the descent keeps the sequence sorted |
| RbTree.DeletedOrder | src/core/ngx_rbtree.c:169-240 | Removing the substitute and giving it the place of the node removes exactly the node from the order |
| Timer.DiffIsTrue | src/core/ngx_rbtree.c:122-154 | The signed difference of two wrapped 64-bit clocks is the true difference if and only if that lies within half the wrap |
| Timer.EarlierExactly | src/core/ngx_rbtree.c:122-154 | For times less than one wrap apart the comparison puts them in their true order if and only if they are within half of it |
| Timer.WrapOrder | src/core/ngx_rbtree.c:122-154 | For deadlines within half the wrap of each other, the comparison of wrapped keys is an order, and being sorted by it is being sorted by the true deadline |
| Timer.Timers.constructor | src/event/ngx_event_timer.c:27-48 | A timer tree with nothing pending |
| Timer.Timers.AddTimer | src/event/ngx_event_timer.h:58-99 | The event becomes pending with deadline now plus the delay, except that a pending one moved by less than the lazy delay keeps its old deadline; every other event keeps its own |
| Timer.Timers.DelTimer | src/event/ngx_event_timer.h:35-55 | Exactly that event stops being pending |
| Timer.Timers.FindTimer | src/event/ngx_event_timer.c:51-73 | The time to the earliest pending deadline, zero if it has passed, infinite if there is none, across the clock wrap |
| Timer.Timers.Expire | src/event/ngx_event_timer.c:98-133 | Removes the first pending event and no other |
| Timer.Timers.ExpireTimers | src/event/ngx_event_timer.c:76-158 | Whatever timers the handlers set or take off, none that has run out is left; a timer that no handler touches is expired, once, if and only if its deadline has passed; without such handlers the expired ones are a prefix of the deadline order |
| Timer.Timers.ExpireNext | src/event/ngx_event_timer.c:98-151 | One round: the earliest timer goes, its handler is called, and the account of timers that no handler touches stays exact |
| Timer.Timers.UpdateTime | src/core/ngx_times.c:93-116 | Reading the clock again, forward or set back, changes no timer |
| Timer.Timers.ProcessTimers | src/event/ngx_event.c:217-281 | One cycle: if the clock shows another time, none that has run out is left and an untouched timer is expired, once, if and only if its deadline has passed; where only time passes, some timer is expired if and only if the wait that was asked for is over; if the clock shows the same time nothing is expired |
| Timer.Timers.NextDue | src/event/ngx_event_timer.c:84-98 | Finds the earliest timer if it has run out, and otherwise none has |
| Timer.Timers.Handle | src/event/ngx_event_timer.c:146-151 | What a handler does keeps the timers in order and leaves alone those it does not mention; the deadlines are those that its operations, one after the other, call for |
| Timer.Timers.Do | src/event/ngx_event_timer.h:35-99 | One operation of a handler: a timer set is moved only if that changes its deadline by the lazy delay or more, and one taken off is gone; no other changes |
| Queue.RingInsert | src/core/ngx_queue.h:33-37 | The four link writes put the element first and keep the ring |
| Queue.RingRemove | src/core/ngx_queue.h:80-82 | The two link writes take exactly that element out and keep the order of the rest |
| Queue.Queue.constructor | src/core/ngx_queue.h:24-26 | A ring of the head alone is the empty queue |
| Queue.Queue.Empty | src/core/ngx_queue.h:29-30 | Tells exactly whether the queue has no elements |
| Queue.Queue.Last | src/core/ngx_queue.h:54-55 | The element inserted longest ago |
| Queue.Queue.InsertHead | src/core/ngx_queue.h:33-37 | The sequence grows by one element in front |
| Queue.Queue.Remove | src/core/ngx_queue.h:72-82 | The sequence loses exactly that element, wherever it is |
| FileKeys.StrcmpFacts | src/core/ngx_open_file_cache.c:1145-1183 | Byte-wise comparison is zero exactly on equal names and changes sign when turned round |
| FileKeys.KeyLessTransitive | src/core/ngx_open_file_cache.c:1145-1183 | The order by hash, then name, is a strict weak order, as the tree needs |
| FileKeys.Lookup | src/core/ngx_open_file_cache.c:1186-1223 | Finds the entry with this hash and name if there is one anywhere in the tree, among any number of equal hashes; null exactly when there is none |
| FileState.SetEntry | src/core/ngx_open_file_cache.c:397-450 | Changing one entry and its handles together keeps one owner for each descriptor and the use counts equal to the handles outstanding |
| FileState.NotHeld | src/core/ngx_open_file_cache.c:331-340 | An entry with use count zero has its descriptor in nobody's hands, so closing it is safe |
| FileState.HeldIsOwned | src/core/ngx_open_file_cache.c:397-450 | Every descriptor in somebody's hands belongs to the entry it was handed out for, which has a positive use count |
| FileState.StatFacts | src/core/ngx_open_file_cache.c:839-944 | After a check of a name, failure gives neither a descriptor nor a directory, the old descriptor of a file is kept exactly when it is the same file, and success never gives both a descriptor and a directory if the unique number tells the two apart |
| FileState.StatMistaken | src/core/ngx_open_file_cache.c:839-872 | A check reports a directory together with an open descriptor if and only if the old unique number now belongs to a directory |
| FileCache.MistakenIsClosed | src/core/ngx_open_file_cache.c:331-424 | In that case, if nobody uses the entry, its descriptor is closed and its number stored again: no assignment of owners accounts for the open descriptors |
| FileCache.MistakenIsShared | src/core/ngx_open_file_cache.c:343-450 | In that case, if the entry is in use, the detached entry and the new one have one descriptor, or without memory for a new one it is closed while in use: no assignment of owners exists |
| FileCache.AccountedExactly | src/core/ngx_open_file_cache.c:211-450 | Opening a cached name leaves each open descriptor with one owner and no entry with a closed one if and only if the entry was shut, was trusted, or its unique number told the file from a directory; whichever other entries are evicted to make room, and whether there is memory for a new one or not |
| FileCache.EvictedAccounted | src/core/ngx_open_file_cache.c:1094-1142 | Evicting any entries keeps each open descriptor with one owner and no entry with a closed one |
| FileCache.CreatedAccounted | src/core/ngx_open_file_cache.c:360-450 | So does making a new entry, with eviction before it, or closing its descriptor where there is no memory |
| FileCache.CountKept | src/core/ngx_open_file_cache.c:253-258 | One more user keeps the use count equal to the handles outstanding if and only if the count is below its largest 24-bit value |
| FileCache.WrappedIsClosed | src/core/ngx_open_file_cache.c:253-258 | One more user at the largest count: the count is zero with all those handles outstanding, and when the entry is dropped it is freed and its descriptor closed while they hold it |
| FileCache.Reconsider | src/core/ngx_open_file_cache.c:294-349 | Branch by branch, for any entry that is not shut and any answer of the file system, mistaken or not: the entries and open descriptors are those of the specification, on which the two mistaken cases are stated |
| FileCache.StatTells | src/core/ngx_open_file_cache.c:839-944 | Asking the file system tells the caller what it said: which of the two answers counts, its error or the file it names, and a descriptor that is the one held exactly if it is of that file, none for a directory, and a new one otherwise |
| FileCache.ServedBelieved | src/core/ngx_open_file_cache.c:211-268 | Unless the age of an entry, its number or its links call for a look, or its descriptor was closed: the caller gets the fields of the entry, no descriptor is opened or closed, and the entry changes only by one use, the time and one more user if it is a file |
| FileCache.ServedAgain | src/core/ngx_open_file_cache.c:213-349 | Otherwise the caller is told what the file system says; refused, the entry goes, and if it stays it holds exactly what was told, with the old descriptor closed if it is another |
| FileCache.ServedAnew | src/core/ngx_open_file_cache.c:343-450 | If the entry is in use with another descriptor, it is cut out and keeps its descriptor open, and a new entry holds exactly what was told |
| FileCache.ServedFresh | src/core/ngx_open_file_cache.c:351-450 | For a name not cached the caller is told what the file system says, and the new entry, if there is memory and the answer may be cached, holds exactly that with one use and one user |
| FileCache.RecentAfter | src/core/ngx_open_file_cache.c:211-430 | Putting the entry used in front and dropping entries at the end keeps the queue in the order of last use |
| FileCache.FileCache.constructor | src/core/ngx_open_file_cache.c:56-84 | An empty cache with nothing handed out |
| FileCache.FileCache.HandedOutIsOpen | src/core/ngx_open_file_cache.c:397-450 | In every state between operations, each descriptor handed out is open and is the one of its entry |
| FileCache.FileCache.Open | src/core/ngx_open_file_cache.c:143-485 | Every path keeps the cache consistent and within its maximum. In plain fields: if the age of the entry, its number and its links do not call for a look and its descriptor is open, the caller gets the fields of the entry and no descriptor changes; otherwise it is told what the file system says, and the entry, kept, replaced, cut out or dropped as its users and that answer call for, holds exactly that. A success hands out one open descriptor, a failure none; the name is cached afterwards exactly when an entry is returned; every other entry still cached is as it was. The entry is in front of the queue, the others in their order less those evicted at the end, and the queue stays in the order of last use |
| FileCache.FileCache.OpenNamed | src/core/ngx_open_file_cache.c:211-450 | The same for a name that is cached, and the evicted entries are others than its own |
| FileCache.FileCache.OpenMissing | src/core/ngx_open_file_cache.c:351-485 | For a name not cached: the same, and the entry reports exactly what opening found |
| FileCache.FileCache.OpenFound | src/core/ngx_open_file_cache.c:211-349 | For a cached name: trusted if young enough, otherwise checked; kept, refreshed, dropped or left to be replaced exactly as the check says, with exactly the entries and open descriptors that follow from it; an entry that stays comes to the front of the queue |
| FileCache.FileCache.Requeue | src/core/ngx_open_file_cache.c:1039-1045 | The entry comes to the front of the queue, and the others keep their order |
| FileCache.FileCache.Hit | src/core/ngx_open_file_cache.c:230-268 | A trusted entry is reported as it is, moves to the front of the queue and counts one more user if it is a file |
| FileCache.FileCache.Reopen | src/core/ngx_open_file_cache.c:213-227 | An entry whose descriptor was closed is opened again, or dropped exactly when the opening is refused |
| FileCache.FileCache.Revalidate | src/core/ngx_open_file_cache.c:270-349 | The answer is that of the check; the entry is dropped exactly on refusal and abandoned exactly when it now names something else |
| FileCache.FileCache.Retest | src/core/ngx_open_file_cache.c:295-349 | A changed file in use is cut out of the cache and closed later, one not in use is closed now and replaced, an unchanged one is refreshed; no descriptor is lost or closed while held |
| FileCache.FileCache.Create | src/core/ngx_open_file_cache.c:360-450 | At the maximum one entry is evicted first; the new entry reports what was found and its handle is counted; without memory the new descriptor is not leaked; entries and descriptors are exactly those that this leaves |
| FileCache.FileCache.MakeRoom | src/core/ngx_open_file_cache.c:362-364 | At the maximum entries leave at the end of the queue, at least one of them; below it nothing happens |
| FileCache.FileCache.Add | src/core/ngx_open_file_cache.c:380-450 | The new entry is found under its name, whatever its memory held before |
| FileCache.FileCache.Update | src/core/ngx_open_file_cache.c:393-424 | The entry takes over the result and its descriptor, counted once more when it is a file; no other entry changes |
| FileCache.FileCache.Fail | src/core/ngx_open_file_cache.c:453-485 | The entry leaves the cache and is freed with its descriptor closed, or stays detached for its users; the new descriptor is closed; nothing else changes |
| FileCache.FileCache.CloseCached | src/core/ngx_open_file_cache.c:1031-1074 | An entry out of the cache and out of use is freed and its descriptor closed; one in the cache only rests, at the front of the queue, and loses its descriptor exactly if it has few uses and no user; nothing else changes |
| FileCache.FileCache.Cleanup | src/core/ngx_open_file_cache.c:1017-1074 | Gives back exactly one handle. A cached entry is used now, has one user less and keeps its descriptor open if and only if it has enough uses or other users; an entry cut out of the cache if and only if it has other users. The entry comes to the front of the queue, at most two that were not used for long leave at its end, it stops early only at one that has not expired, and the queue stays in the order of last use |
| FileCache.FileCache.ExpireOne | src/core/ngx_open_file_cache.c:1112-1140 | The oldest entry leaves tree, queue and count together, and is closed later if it is held, now if not; no other entry or descriptor changes |
| FileCache.FileCache.Expire | src/core/ngx_open_file_cache.c:1094-1142 | The entries removed are the least recently used, the last of the queue first: only expired ones but for one that is forced out, at most three in all, and it stops early only at one that has not expired; entries and descriptors are exactly those that evicting them leaves |
| FileCache.FileCache.OpenAndStat | src/core/ngx_open_file_cache.c:839-944 | At most one new descriptor is opened, and it is the one returned; none stays open on any error path |
| FileCache.FileCache.Shutdown | src/core/ngx_open_file_cache.c:88-140 | Every cached entry is freed and its descriptor closed, held or not; detached entries keep theirs; so every descriptor handed out stays open if and only if none belongs to a cached entry, and with nothing handed out nothing stays open |
| FileCache.StillOpen | src/core/ngx_open_file_cache.c:88-140 | A handle survives the end of the cache exactly if its entry had been detached before |
| Bufs.AdvancedBytes | src/core/ngx_output_chain.c:485-596 | Consuming the first n bytes of a buffer, in memory or in a file or both, leaves exactly the rest of its bytes |
| Bufs.StreamConcat | src/core/ngx_output_chain.c:263-329 | The bytes of two chains joined are the bytes of one followed by those of the other |
| OutputChain.FlowCopy | src/core/ngx_output_chain.c:165-194 | Copying a prefix of the first queued buffer into another at the end of the ready chain loses, repeats and reorders no byte |
| OutputChain.FlowMove | src/core/ngx_output_chain.c:121-133 | Moving the first queued buffer to the end of the ready chain keeps the byte stream |
| OutputChain.FlowSend | src/core/ngx_output_chain.c:206-210 | A filter that consumes a prefix of what it holds keeps the byte stream |
| OutputChain.FilledBytes | src/core/ngx_output_chain.c:458-598 | A filled buffer has exactly the first n bytes of the source, copied or referenced in the file |
| OutputChain.OutputChain.CopyFits | src/core/ngx_output_chain.c:382-509 | A copy can always be sent: it is in memory that may be written, and in a file only where files are sent as such and not read directly |
| OutputChain.NeverFlagged | src/core/ngx_output_chain.c:505-509 | For a sender that may pass on some long buffer that has to be copied: in every sequence of buffers, sent through one copy buffer, every copy has the flush and last flags it should if and only if no copied buffer ever has such a flag |
| OutputChain.FlaggedThenLong | src/core/ngx_output_chain.c:505-509 | A copied buffer with a flag and then a longer one than a copy buffer holds: a copy goes out with a flag it should not have |
| OutputChain.CleanIsCareful | src/core/ngx_output_chain.c:505-509 | From a clean copy buffer, buffers without flags are copied without flags, however they are cut |
| OutputChain.CarefulConcat | src/core/ngx_output_chain.c:505-509 | Two sequences one after the other are copied with the right flags if and only if the first is, and the second is from the copy buffer that the first leaves; the copy buffer left at the end agrees too |
| OutputChain.CopyForetold | src/core/ngx_output_chain.c:505-509 | One copy, of all of a buffer or of a first part, agrees with what is foretold of the whole sequence, and so does the copy buffer left at its end |
| OutputChain.CleanIsOrderly | src/core/ngx_output_chain.c:90-195 | A round that begins with no flags on the free buffers gives every copy its right flags, whatever is waiting |
| OutputChain.OutputChain.CopyHanded | src/core/ngx_output_chain.c:458-598 | With any number of copy buffers: what is foretold of a round before a copy holds if and only if this copy has the right flags and what is foretold after it holds |
| OutputChain.OutputChain.CopyCareful | src/core/ngx_output_chain.c:458-598 | In the buffers of the context: what is foretold before a copy holds if and only if this copy has the right flags and what is foretold after it holds |
| OutputChain.Misflag | src/core/ngx_output_chain.c:41-216 | A run through the whole chain, for any two memory buffers, the first with a flag and the second longer than a copy buffer: all bytes are sent in order, and some copy had a flag it should not have |
| OutputChain.OutputChain.TakeBack | src/core/ngx_buf.c:200-219 | The first busy buffer, sent to its end, becomes free with its flags as they were, and nothing pending changes |
| OutputChain.PlaceBack | src/core/ngx_buf.c:200-219 | An empty busy buffer of this context can go back to the free list: nothing pending refers to it |
| OutputChain.OutputChain.constructor | src/core/ngx_output_chain.c:48-58 | A fresh context has taken nothing and uses no buffers; a file is read directly only if there is one |
| OutputChain.OutputChain.AsIs | src/core/ngx_output_chain.c:219-260 | Says yes if and only if the buffer, as it leaves it, can be sent, in plain fields: special, or in memory if that is asked for, in neither kind of read-only memory if that is, in memory and in no file without sendfile, and in no file read directly. A buffer that can be sent is let through untouched; at most the file half of a buffer that is in memory too is dropped |
| OutputChain.OutputChain.AlignFileBuf | src/core/ngx_output_chain.c:332-379 | Makes a buffer exactly for a file read directly whose position is unaligned or whose rest is smaller than a copy buffer: it holds the rest, or what is left up to the next boundary; leaves the stream alone and respects the limit on buffers |
| OutputChain.OutputChain.GetBuf | src/core/ngx_output_chain.c:382-455 | Makes a buffer within the limit, without touching the stream: a recycled one of the configured size, or one of the size of the input exactly for the last buffer of a chain that is smaller, or less than a quarter larger where there is one buffer and no direct reading |
| OutputChain.OutputChain.Obtain | src/core/ngx_output_chain.c:135-163 | Comes back without a buffer only if none is free and either something is ready to send or the limit is reached |
| OutputChain.OutputChain.TestFirst | src/core/ngx_output_chain.c:119-133 | The first buffer passes if and only if it can be sent as it is left; one that could be sent before is left untouched |
| OutputChain.OutputChain.CopyBuf | src/core/ngx_output_chain.c:458-598 | Copies as much as fits, no more, and advances the source by the same amount; a failed read can only have changed bytes of the copy buffer that are not in use |
| OutputChain.OutputChain.CopyOut | src/core/ngx_output_chain.c:165-183 | The copy that joins the ready chain is the first bytes of the source, as many as fit; whether its flags are those it should have is recorded |
| OutputChain.OutputChain.CopyFirst | src/core/ngx_output_chain.c:165-194 | The copied buffer joins the ready chain, an emptied source leaves the queue, and the work left shrinks; what was foretold of the flags stays so |
| OutputChain.OutputChain.Turnover | src/core/ngx_output_chain.c:90-195 | One turn of the inner loop makes progress, or finds that no buffer can be had; what is foretold of the round stays so; where everything queued can be sent, the first buffer is moved on if it has anything in it and dropped if not, nothing is copied and no buffer is made or used |
| OutputChain.OutputChain.Fill | src/core/ngx_output_chain.c:90-195 | Stops with queued input only when no buffer can be had, and shrinks the work left whenever it makes anything ready; its copies have the right flags if and only if the free buffers, in their order, give no one with flags left to a part that is not the last of its buffer; where everything queued can be sent, what is ready are the queued buffers with anything in them, in order, and nothing is copied |
| OutputChain.OutputChain.UpdateChains | src/core/ngx_buf.c:183-220 | The buffers fully sent at the front of the busy chain leave it, up to the first one that is not; those of the context come to the front of the free list, the last one first, with their flags as they were; no buffer still referred to becomes free |
| OutputChain.OutputChain.Give | src/core/ngx_output_chain.c:206-214 | The next filter gets the ready chain and sent buffers are taken back; the stream, the work left and what is foretold of the flags stay |
| OutputChain.OutputChain.AddCopy | src/core/ngx_output_chain.c:263-329 | The given buffers queue behind the old ones and their bytes are accepted once |
| OutputChain.OutputChain.ShortPath | src/core/ngx_output_chain.c:48-69 | With nothing pending, no buffer or one that can be sent goes to the filter at once and its answer is returned; otherwise nothing has happened but a look at the buffer |
| OutputChain.OkOrWaiting | src/core/ngx_output_chain.c:197-216 | With a filter that always succeeds and files that can be read, the answer is OK if nothing is left queued and to call again if something is |
| OutputChain.OutputChain.Receive | src/core/ngx_output_chain.c:41-46 | A new buffer of the caller's can be given in with others; nothing pending changes by its coming |
| OutputChain.OutputChain.Direct | src/core/ngx_output_chain.c:48-68 | The short cut for a single buffer that needs no copy keeps the same stream invariant |
| OutputChain.OutputChain.Run | src/core/ngx_output_chain.c:78-216 | The main loop ends, keeps the stream invariant and the buffer limit, and stops with input left only when stuck for buffers |
| OutputChain.OutputChain.Around | src/core/ngx_output_chain.c:78-216 | Once around the main loop: progress or the end; the round is the one that the queue and the free list gave at its start, and the flags are right if and only if it was in order |
| OutputChain.OutputChain.Output | src/core/ngx_output_chain.c:41-216 | After any call that is not an error the bytes accepted so far are the bytes sent followed by all bytes still pending, in order; sent bytes are never taken back; every buffer the filter holds can be sent by it, in plain fields; if all that is given in and queued can be sent, nothing is copied, no buffer is made and nothing is left queued; the answer is what the filter said in some call, but for a file that could not be read, and to call again if and only if input is left or the filter said so; OK means that no input is left queued; the limit on buffers holds always; a context without flags stays so and gives every copy its right flags, if the buffers to be copied have none; with one copy buffer, or a filter that sends everything, every copy has the right flags if and only if the buffers given in foretell it; with any number and any filter, if and only if in every round the free list, in its order, gives no buffer with flags left to a part that is not the last, the first round being known from the buffers given in and the free list |
| OutputChain.OutputChain.Pass | src/core/ngx_output_chain.c:41-216 | One more buffer through a context with nothing pending and a filter that sends everything: all its bytes are sent, and the flags are right if and only if they were and the buffer and the copy buffer's state foretell it |
| OutputChain.OutputChain.PassAll | src/core/ngx_output_chain.c:41-216 | Any number of calls in a row: all bytes are sent in order, and the flags are right if and only if the whole sequence of buffers foretells it from the copy buffer there was at first |
| ConfTokens.LimitOnlyRefuses | src/core/ngx_conf_file.c:462-542 | The buffer size can only make a token too long; otherwise the result is that of a reader with the whole file in view |
| ConfTokens.LargerRefusesLess | src/core/ngx_conf_file.c:486-508 | A larger buffer accepts everything a smaller one does |
| ConfTokens.LinesCounted | src/core/ngx_conf_file.c:462-552 | From any state: the line reported is the first line and one more for each line feed passed, wherever it was; for a word that is too long, each line feed before the word |
| ConfTokens.UnescapeEscape | src/core/ngx_conf_file.c:696-728 | The backslash handling while a word is copied undoes escaping of any bytes, for double and for single quotes |
| ConfTokens.UnescapeAll | src/core/ngx_conf_file.c:696-728 | The same with tab, carriage return and line feed, told by their codes, written as a backslash and their letters |
| ConfTokens.RenderIsRead | src/core/ngx_conf_file.c:462-742 | From any state between words, words in double or in single quotes and a semicolon are read as those words, and the reader stops right behind, if and only if they fit the buffer; otherwise they are refused as too long |
| ConfTokens.RoundTrip | src/core/ngx_conf_file.c:434-742 | For any non-empty list of words over any bytes, anywhere in any file: reading the quoted form gives exactly those words |
| ConfTokens.RoundTripWithin | src/core/ngx_conf_file.c:462-742 | With a buffer of any size the quoted form is read back if and only if each quoted word is shorter than the buffer, the last one at most as long; otherwise it is refused as too long |
| ConfTokens.CommentExactly | src/core/ngx_conf_file.c:486-624 | A comment, with the blanks behind it, is skipped if and only if it is shorter than the buffer, or fills it at the end of the file; otherwise it is refused as a word that is too long |
| ConfTokens.RemarkedRoundTrip | src/core/ngx_conf_file.c:462-742 | Quoted words behind a comment are read back if and only if the comment and the words fit the buffer; otherwise they are refused as too long |
| ConfBare.RoomTaken | src/core/ngx_conf_file.c:544-740 | From any state, the words that are read take no more room in the file than there is, less what the escapes of the word at hand take |
| ConfBare.RestExactly | src/core/ngx_conf_file.c:647-740 | The rest of an unquoted word is read as it is written, up to the character behind it, if it has no blank, no semicolon, no escape that stands for another character, no backslash at its end and no brace but behind a dollar sign; if it has, the word read is of another length, or the directive ends elsewhere, or room is left |
| ConfBare.PlainExactly | src/core/ngx_conf_file.c:544-740 | From any state between words: unquoted words with spaces between them are read back, as they are and to the semicolon, if and only if each of them is bare |
| ConfBare.BareExactly | src/core/ngx_conf_file.c:434-742 | The same anywhere in any file, for any non-empty list of words over any bytes; a bare word is not empty, begins with no blank, semicolon, brace, sharp or quote, and goes on as said above |
| ConfText.TextIsRead | src/core/ngx_conf_file.c:434-742 | Anywhere in any file, for any text made of words in double quotes, single quotes or none, with blanks and comments between them and before the end: status, words, line and position are those the pieces call for. A semicolon or an opening brace, apart from the last word or right behind it, ends a directive or opens a block with exactly those words, and without words is unexpected; a closing brace ends a block, and is unexpected behind words; the end of the file is the end without words and comes too early behind words or inside one. With a buffer of any size the same, unless something is too long |
| ConfText.TextRead | src/core/ngx_conf_file.c:462-742 | The same from any state between words, with the words so far in front |
| ConfText.WordThen | src/core/ngx_conf_file.c:567-740 | A word in any spelling is read as it is; a blank behind it begins the next word, a semicolon ends the directive, a brace opens a block; a quoted word may also be followed by a parenthesis, which begins the next word, and by nothing else |
| ConfText.GapSkipped | src/core/ngx_conf_file.c:550-624 | Blanks and comments in any order, the last comment cut off by the end of the file or not, add no word |
| ConfText.WordCutShort | src/core/ngx_conf_file.c:464-484 | A file that ends inside a word, quoted or not, has ended too early, and that word does not count |
| ConfReader.ConfReader.constructor | src/core/ngx_conf_file.c:446-460 | A reader at the start of the file |
| ConfReader.ConfReader.Refill | src/core/ngx_conf_file.c:510-537 | Sliding the token to the front of the buffer and reading more changes neither the position in the file nor the token; it fails exactly when the read falls short |
| ConfReader.ConfReader.More | src/core/ngx_conf_file.c:464-542 | There is a next character, at the same place of the file, or the directive is over as the reader of the whole file says it is: the file has ended, the word is too long, or a read has failed |
| ConfReader.ConfReader.CopyWord | src/core/ngx_conf_file.c:691-728 | The bytes stored are the unescaped bytes of the word in the file |
| ConfReader.ConfReader.CharSpace | src/core/ngx_conf_file.c:589-645 | Between words, the buffered reader makes the same decision as the reader of the whole file, of which `ConfText.TextIsRead` says what it comes to |
| ConfReader.ConfReader.CharWord | src/core/ngx_conf_file.c:647-740 | Inside a word, the buffered reader makes the same decision as the reader of the whole file |
| ConfReader.ConfReader.Char | src/core/ngx_conf_file.c:544-740 | One character, in any state: the same step as the file reader |
| ConfReader.ConfReader.ReadToken | src/core/ngx_conf_file.c:434-742 | Unless a read fails or falls short, status, words, line number and position are exactly those of the reader of the whole file limited to the buffer size, wherever the buffer boundaries fall; unless the word is too long, the line has grown by the line feeds read |
| RadixShape.GetPlug | src/core/ngx_radix_tree.c:108-170 | What a subtree stores under some bits is what the whole tree stores under the way to it followed by those bits |
| RadixShape.GetElsewhere | src/core/ngx_radix_tree.c:108-233 | Changing a subtree changes no prefix outside it |
| RadixShape.NodePlug | src/core/ngx_radix_tree.c:108-233 | There is a node below a position exactly if the subtree there has one |
| RadixShape.LongestIsBest | src/core/ngx_radix_tree.c:236-263 | The value remembered last on the way down is that of the longest stored prefix, and there is none exactly when no prefix is stored |
| RadixMemory.ZipTake | src/core/ngx_radix_tree.c:463-473 | A node taken from the free list is in no tree link |
| RadixMemory.ZipAttach | src/core/ngx_radix_tree.c:145-166 | Filling a node in and linking it adds one empty node at exactly that place |
| RadixMemory.ZipRemove | src/core/ngx_radix_tree.c:206-215 | Unlinking a leaf and pushing it on the free list removes exactly that leaf |
| RadixTree.RadixTree.constructor | src/core/ngx_radix_tree.c:15-104 | A new tree stores nothing and, with preallocation, has a node for every prefix of up to that many bits |
| RadixTree.RadixTree.PreallocateBits | src/core/ngx_radix_tree.c:84-100 | The loop over the keys of one length makes a node for every prefix of that length, drops none and stores nothing |
| RadixTree.RadixTree.Alloc | src/core/ngx_radix_tree.c:463-488 | The node given is in no tree link and not on the free list |
| RadixTree.RadixTree.Find | src/core/ngx_radix_tree.c:236-263 | The value of the longest stored prefix of the address |
| RadixTree.PrefixIsMask | src/core/ngx_radix_tree.c:108-131 | For a mask of ones and then zeros, an address has the prefix that a key and the mask stand for if and only if it agrees with the key wherever the mask has a one |
| RadixTree.RadixTree.Insert | src/core/ngx_radix_tree.c:108-170 | Busy exactly when the prefix is stored already, changing nothing; otherwise the map from prefixes to values changes at that prefix only; no node goes and the prefix has one |
| RadixTree.RadixTree.Grow | src/core/ngx_radix_tree.c:145-169 | The chain of new nodes stores the value at the full prefix and nothing on the way |
| RadixTree.RadixTree.Delete | src/core/ngx_radix_tree.c:173-233 | The null parent of the root is followed if and only if the empty prefix is deleted from a root without children, and nothing has changed then; otherwise it succeeds exactly when the prefix is stored or is a leaf left by preallocation, afterwards the prefix is not stored and every other one keeps its value; in a tree without preallocation it succeeds exactly when the prefix is stored, and no useless leaf remains |
| RadixTree.RadixTree.Prune | src/core/ngx_radix_tree.c:206-232 | Removing childless valueless nodes upward changes no stored value |
| Times.Gmtime | src/core/ngx_times.c:321-411 | For every second since the epoch: a real calendar date and time of day that names exactly that second, with the right day of the week |
| Times.DateOf | src/core/ngx_times.c:343-402 | The closed formulas find the date whose day number, counted with month lengths and leap years, is the given one |
| Times.OneDate | src/core/ngx_times.c:343-402 | No two dates have the same day number, so the date found is the only one |
| Times.EstimateFacts | src/core/ngx_times.c:348-366 | The estimate of the year is right or one too large, never anything else |
| Times.MonthFacts | src/core/ngx_times.c:368-402 | The linear formulas for month and day agree with the month lengths for every day of every year |
| Times.YearFromMarch | src/core/ngx_times.c:348-366 | Counting years from March gives the same days as counting them from January with the leap-year rule |
| Times.WeekdayIs | src/core/ngx_times.c:333-335 | Counting weekdays one by one from Thursday is the remainder formula |
| Crc32.Table256Is | src/core/ngx_crc32.c:34-99 | Every entry of the large table is eight bitwise divisions by the polynomial |
| Crc32.NibbleStep | src/core/ngx_crc32.h:30-31 | A small-table step is four bitwise divisions |
| Crc32.ByteStep | src/core/ngx_crc32.h:46 | A large-table step is eight bitwise divisions |
| Crc32.ShortStepsAreByte | src/core/ngx_crc32.h:28-32 | Two small-table steps, low half first, are one byte of the bitwise definition |
| Crc32.CrcShort | src/core/ngx_crc32.h:20-35 | The small-table loop computes the bitwise CRC32 of any input |
| Crc32.CrcLong | src/core/ngx_crc32.h:38-50 | The large-table loop computes the same CRC32 |
| Crc32.Update | src/core/ngx_crc32.h:57-69 | An update continues the bitwise register over the new bytes |
| Crc32.Incremental | src/core/ngx_crc32.h:53-73 | Initialise, any number of updates and finish give the CRC32 of all the pieces joined, however the input was cut |
| Crc32.CheckValue | src/core/ngx_crc32.h:20-50 | The CRC of the nine digits is the known check value |
| Base64.Encode | src/core/ngx_string.c:1148-1187 | The loop computes the six-bit groups of the input with the padding of each alphabet |
| Base64.EncodedLength | src/core/ngx_string.c:1148-1187 | The padded form has four characters for every three bytes begun |
| Base64.LetterIs | src/core/ngx_string.c:1128-1145 | The letters are those of RFC 4648, section 4 or section 5, in their order |
| Base64.SplitMeans | src/core/ngx_string.c:1158-1180 | Four six-bit groups are the same number as the three bytes they stand for, and the last groups are filled up with zero bits |
| Base64.SplitLength | src/core/ngx_string.c:1158-1186 | There are as many letters as eight bits a byte take in groups of six |
| Base64.EncodedIsLetters | src/core/ngx_string.c:1148-1187 | The output is the letters of those groups and then the padding, two, one or no characters of it in the plain form and one or none in the other, and nothing else |
| Base64.Decode | src/core/ngx_string.c:1244-1287 | Accepts exactly the inputs whose characters before the first padding are all in the alphabet and do not leave one over, and yields their bytes |
| Base64.DecodedExactly | src/core/ngx_string.c:1244-1287 | An input is refused if and only if, before the first padding character, there is a character outside the alphabet or one character is left over; otherwise there are as many bytes as those characters have whole ones of |
| Base64.Measure | src/core/ngx_string.c:1248-1262 | The scan finds the length before padding, or a character outside the alphabet |
| Base64.Unpack | src/core/ngx_string.c:1264-1286 | The loop and its tail repack six-bit values into bytes |
| Base64.RoundTrip | src/core/ngx_string.c:1128-1287 | Decoding what was encoded gives back any bytes, in both alphabets |
| UriEscape.ComponentIsUnreserved | src/core/ngx_string.c:1429-1622 | The bitmap for components escapes exactly what is not unreserved in section 2.3 of RFC 3986 |
| UriEscape.TableExactly | src/core/ngx_string.c:1434-1578 | The bits of each of the eight tables mark exactly the characters it is for, the semicolon being among those for arguments and the percent sign not among those for refresh, against the comments |
| UriEscape.HexIs | src/core/ngx_string.c:1434 | The digits written are 0 to 9 and a to f |
| UriEscape.DigitExactly | src/core/ngx_string.c:1674-1690 | A byte is read as a digit if and only if it is one, in either case, and then as its value |
| UriEscape.CountPredicts | src/core/ngx_string.c:1582-1622 | The counting pass predicts the length of the escaping pass, and zero means that nothing changes |
| UriEscape.CountEscapes | src/core/ngx_string.c:1584-1599 | The counting loop counts the bytes to be escaped |
| UriEscape.EscapeUri | src/core/ngx_string.c:1601-1622 | The writing loop produces the escaped form |
| UriEscape.UnescapeUri | src/core/ngx_string.c:1625-1760 | With any flags, the state machine reads unit by unit, each a byte, an escape, a broken one or one cut off, up to the first question mark, escaped or not, where a path or a redirect is read; it writes the byte of an escape, but keeps the escape of a byte that may not stand in a redirect, keeps a broken one and drops one cut off |
| UriEscape.RunByUnits | src/core/ngx_string.c:1625-1760 | The byte-by-byte definition is the unit-by-unit one, for all inputs and flags |
| UriEscape.UriIsPlain | src/core/ngx_string.c:1625-1760 | For a path, what is read is unescaped as without the flag, and the reading ends with the input or with a question mark written |
| UriEscape.RedirectIsPlain | src/core/ngx_string.c:1625-1760 | For a redirect, unescaping what is written gives the same bytes as unescaping what is read, and the reading ends with the input or with a question mark written |
| UriEscape.NeverAhead | src/core/ngx_string.c:1625-1760 | Output never gets ahead of input, so unescaping in place is safe |
| UriEscape.EscapeIsUndone | src/core/ngx_string.c:1429-1760 | For every type that escapes the percent sign, unescaping undoes escaping of any bytes |
| UriEscape.RefreshIsNotUndone | src/core/ngx_string.c:1516-1534 | The table for refresh leaves the percent sign alone, so an input is shown that does not come back |
| UriEscape.UndoneExactly | src/core/ngx_string.c:1429-1760 | Unescaping undoes escaping for all inputs if and only if the type is not refresh |
| UriEscape.RefreshExactly | src/core/ngx_string.c:1516-1760 | With the refresh table an input comes back if and only if no percent sign read as such starts a whole or truncated escape or has a byte behind it that is itself escaped |
| UriEscape.StaysBehind | src/core/ngx_string.c:1516-1760 | Once output has fallen behind input by an even number of bytes, no continuation of the input lets it catch up and agree |
| UriEscape.OcspPath | src/event/ngx_event_openssl_stapling.c:1145-1185 | The path built for a stapling request, Base64 and then escaped, takes exactly the computed length and gives the request back |
| HashLayout.Stride | src/core/ngx_hash.c:41-44 | The step of the search loop lands exactly on the next element placed |
| HashLayout.PlacedAt | src/core/ngx_hash.c:390-404 | Every element of a bucket is where the running offsets say |
| HashLayout.BucketLookup | src/core/ngx_hash.c:12-49 | Searching one bucket for a name finds what searching all names would |
| HashLayout.LookupIs | src/core/ngx_hash.c:12-49 | The search gives the value of the first name with those bytes, or null if there is none |
| HashLayout.ToLowerIs | src/core/ngx_hash.c:401 | Names are stored with exactly the twenty-six capital letters made small |
| HashTable.HashTable.Find | src/core/ngx_hash.c:12-49 | Reading the packed memory gives the value a linear search of the original names would give, and null exactly when the name is missing |
| HashTable.Try | src/core/ngx_hash.c:285-312 | The trial accepts a size exactly when no sum of a bucket, kept in 16 bits, is above the limit |
| HashTable.PassesIsFits | src/core/ngx_hash.c:285-312 | Passing the trial means that every bucket fits, as long as one more element cannot wrap a sum |
| HashTable.FindSize | src/core/ngx_hash.c:275-320 | Ends at the first size from the start value on that passes the trial, or past the maximum if none does; where sums cannot wrap that is the smallest size at which all buckets fit |
| HashTable.SearchBegins | src/core/ngx_hash.c:276-283 | The first size tried is a thousand below the maximum for a long list, and otherwise the number of buckets that as many names of the least size fill |
| HashTable.NothingSkipped | src/core/ngx_hash.c:276-283 | In the second case, if all names are there, no smaller size would do |
| HashTable.Measure | src/core/ngx_hash.c:322-347 | Every bucket is given its aligned room, cut to 16 bits, and an empty one is recognised by the pointer size alone |
| HashTable.Assign | src/core/ngx_hash.c:376-384 | Buckets are laid out one behind the other from the rooms measured |
| HashTable.StartsApart | src/core/ngx_hash.c:376-384 | The rooms of two buckets never overlap |
| HashTable.RoomEnough | src/core/ngx_hash.c:322-347 | The room of a bucket holds all its elements and the closing null |
| HashTable.Fill | src/core/ngx_hash.c:386-404 | After the names are copied each bucket holds its elements, in order, none overwritten by another |
| HashTable.Terminate | src/core/ngx_hash.c:406-414 | Each bucket ends in a null that overwrites no element |
| HashTable.Build | src/core/ngx_hash.c:322-420 | The finished table is one in which every search is right |
| HashTable.Init | src/core/ngx_hash.c:251-420 | A correct table within the maximum size whose buckets fit the bucket size; none if and only if a name does not fit its bucket or no size from the first one tried to the maximum fits |
| HashTable.RoomExactly | src/core/ngx_hash.c:322-384 | A bucket in use ends before the next one in use begins if and only if its aligned room is below 65536 |
| HashTable.StartExactly | src/core/ngx_hash.c:322-384 | A bucket begins where it would if sizes were not cut to 16 bits if and only if the rooms of all buckets before it are below 65536 |
| HashTable.RoomsOverlap | src/core/ngx_hash.c:322-384 | Names that pass the trial at the smallest size that fits, for which the room of the first bucket wraps to nothing and both buckets begin at one place |
| HashTable.NoTable | src/core/ngx_hash.c:285-320 | For any limit and range of sizes, names that each fit a bucket and for which no size works |
| HashTable.SearchMistaken | src/core/ngx_hash.c:285-312 | Where a sum can wrap: a list of names of at most the given size that passes the trial with one bucket too small for them |
| HashTable.SearchExactly | src/core/ngx_hash.c:285-312 | For names of up to a given element size, passing the trial means to fit, for all lists and sizes, if and only if limit and element size together stay below 65536 |

## Left out

- Sockets, event loops, TLS, the resolver, HTTP and mail processing, modules, directive handlers, logging and process management: not modelled; their core would be protocol code outside `src/core`.
- The 128-bit radix tree, wildcard hashes, MD5, SHA1, the other string functions, shared-memory zones and arrays, lists and pools: not modelled; they would add easier members of the same kinds.
- Shmtx.NoLostWakeupIffSafe: the wait counter does not wrap; the pauses between spins are one step each; the lock is not taken twice by one process; a forced unlock names a process that has died; the variant built on file locks is not modelled.
- SlabPool.Pool.Alloc: page size 4096, smallest chunk 8 bytes as set in `src/core/ngx_cycle.c`, 64-bit words; the `slab` word is a tagged union of its readings; filling with junk, logging and the surrounding lock are not modelled.
- SlabPool.Pool.Free: excludes pointers from the end of the last page up to the end of the memory, for which the code reads a descriptor past its table.
- SlabPool.Pool.constructor: the memory has room for one page at least; the code does not look, and with less it writes a descriptor that belongs to no page.
- RbTree.RbTree.Insert: the comparison is any strict weak order on the keys given, which covers the plain, timer and file orders; the parent link of the root is left unconstrained, as in the code.
- Timer.Timers.AddTimer: requires deadlines within half the clock wrap of each other, beyond which `Timer.EarlierExactly` shows the comparison to be wrong; the build with threads is not modelled.
- Timer.Timers.ProcessTimers: the accept mutex, the timer resolution setting and posted events are not modelled; events are handled as a list of timers set and taken off.
- Timer.Timers.ExpireTimers: what a handler does is a given list of timers set and taken off, with delays below a quarter of the clock wrap; nothing else a handler does is modelled.
- FileCache.FileCache.Open: excludes an entry of that name whose use count is at its largest 24-bit value (`FileCache.CountKept`) and one that is checked while its unique number belongs to a directory (`FileCache.AccountedExactly`); the file system gives consistent answers within one call; callers pass a cleared directory flag; names hold no null byte; calls without a cache, the test-only flag, kernel file events and symbolic-link owner checks are not modelled.
- OutputChain.OutputChain.Output: which copies have the right flush and last flags is exact without files read directly; with such files it is only stated that they all have where no copied buffer has a flag; with several copy buffers and a filter that holds back, rounds after the first are told from the free list at their start, which is what the filter has sent; asynchronous reading, recycling of chain links and failing allocation are not modelled; buffers given in are sound, not yet pending and not the context's own; the alignment is a power of two, as its use as a mask supposes; the next filter is any that sends in order.
- ConfReader.ConfReader.ReadToken: bytes are characters; what is left in the buffer after a failed read is not stated; dumping the configuration is not modelled.
- RadixTree.RadixTree.Insert: allocation does not fail.
- RadixTree.RadixTree.constructor: preallocation of more than 32 bits is not modelled, and the default is that of 64-bit systems with pages of 4096 bytes.
- Times.Gmtime: years that do not fit an int are not cut off; negative times are not modelled.
- Base64.Encode: the URL form gets one padding character after one leftover byte, as in the code, and none otherwise.
- HashTable.Init: the hash function is any function of the lower-cased name; requires that one more element cannot wrap a 16-bit sum (`HashTable.SearchExactly`) and that at every size that fits the aligned rooms are below 65536 (`HashTable.RoomExactly`); when no size up to the maximum fits, the code warns and goes on with the size at which its search ended, for which its array of counts has no room, and the model stops there and reports no table; with no names at all the bucket size is at least 24, below which the code divides by zero.
