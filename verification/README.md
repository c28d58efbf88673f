# Verified models of the operating-systems projects

This Dafny project models the stateful cores of the repository and proves what they keep over every
call and every run.  `dafny verify dfyconfig.toml` checks all of it.

**Buddy allocator** (`memory-allocator/malloc_3.cpp`; modules `BuddyArith`, `Tilings`, `FreeLists`,
`BuddySteps`, `BuddyClient`, `Buddy`, `BuddyTheorems`).  The arena has `tops` blocks of order `maxOrder` and a header
of `header` bytes (`0 < header <= 64`); all three are parameters.  Addresses are offsets from the heap
base.  The class `Buddy.Allocator` keeps three views of one heap: `hdr`, the in-place headers with
their `prev`/`next` links; `heads`, the free-list heads; and `mem`, the bytes.  Writing a header turns
the bytes under it into arbitrary values, and writing user bytes destroys any stale header under them,
so the proofs show that the two never meet.  The ghost field `T` is the tiling: which blocks exist,
with order and free flag.  `root` names the chain that each listed tile belongs to.  `Blocks()` is what
a client sees: every live block with its usable bytes.  Between calls

- the tiles partition the arena, each aligned to its size, and no two buddies are both free;
- the headers agree with the tiles;
- every list is an acyclic, ascending, doubly linked chain of free tiles of its own order, and the
  list of the top order is complete.

The field `repaired` chooses between two versions of the allocation path.  With `false` it is the
code as written.  With `true` it is a repaired version **that is not in the repository**: it takes the
block off its list once and then only splits.  Freeing and resizing are the same code in both.  The
split as written calls `fl_remove` on blocks that are on no list (malloc_3.cpp:157 and 196), which
resets the list head and drops the upper half just inserted.  What survives is proved for both
versions (safety, coalescing, contents, and the exact initial state once all is freed), and what is
lost is proved exactly: every list below the top order stays empty, a request is refused exactly when
`tops` blocks are live, whatever their sizes (`LiteralOccupancy`, `LiteralRefusal`,
`LiteralLosesMemory`).  For the repaired version the lists are complete, the choice is the lowest
block of the smallest sufficient order, and null means that there is none.

**First-fit allocator** (`memory-allocator/malloc_2.cpp`; module `FirstFit`).  One address-ordered
doubly linked list of headers over memory that ends at the program break.  `sbrk` is a parameter: it
refuses, or it grants memory at or above the old end, with a gap where other users moved the break.

**Log lock** (`multithreaded-web-server/log.c`; modules `LogLock`, `ServerLog`).  A transition system
over any number of threads, with spurious wakeups and signals that wake one or more sleepers.  The
bodies of `log_write` and `log_read` are several steps each, so mutual exclusion carries the proof
that the log is intact.  `Monitors.Accounted` keeps the books of calls: each has completed once with its
own load, or its thread still waits with it.  `ServerLog.Log` is the buffer changed in place, proved to
do what the steps do together.

**Request queue** (`multithreaded-web-server/server.c`; module `RequestQueue`).  The ring changed in
place under the mutex, together with the phases of all producers and consumers, refines a bounded
sequence (`Ideal`), about which the properties of whole runs are proved.

**Buffered reader** (`multithreaded-web-server/segel.c`; module `RioReader`).  A descriptor may
be interrupted, fail, or hand over any positive number of bytes; the reader refines one byte stream.

**Syscall bans** (`hw2-process-management/hw2.c`; module `SyscallBans`).  Tasks with a ban byte and a
parent; `Line` is the chain from the caller to a task that is its own parent, or has none.

## Where the code and its comments differ

- malloc_3.cpp:62 says that the order returned always fits.  It does exactly when the request and a
  header fit into a top-order block (`OrderFits`); in the gap below the threshold it does not
  (`GapUnfit`, and `GapExample` with the constants of the program).
- malloc_3.cpp:153 says that the upper half is placed in its list.  It is, but the next `fl_remove`
  on that path drops it again (`LiteralOccupancy`, `LiteralLosesMemory`).
- malloc_3.cpp:333 says that a mapped block is reused only for the same size; the code also reuses it
  for smaller ones.  The model follows the code.
- malloc_3.cpp:396 says that the current block is freed first; the code allocates and copies first.
  The model follows the code.

## What the repair would change

As written, the guard at malloc_3.cpp:315 notices every second free of an arena block
(`LiteralNotices`): live blocks start top-order blocks, so a freed block coalesces at its own base and
its header is marked free until the address is handed out again.  With the repaired split that is no
longer so: a block that merges into a lower one keeps a header that says it is in use
(`UpperFreeUnnoticed`), and the guard notices a second free exactly if the block is still a tile.

## Model

| member | source | states |
|---|---|---|
| `BuddyArith.XorBits` | memory-allocator/malloc_3.cpp:106 | the arithmetic `Xor` of the model is the machine's exclusive or, bit by bit |
| `BuddyArith.XorIsBuddy` | memory-allocator/malloc_3.cpp:103-108 | for every offset and order, flipping the size bit adds or subtracts one block by the parity of the block number |
| `BuddyArith.BuddyFacts` | memory-allocator/malloc_3.cpp:103-108 | the buddy of an aligned block is aligned, adjacent, and has that block as its own buddy; the lower of the two is an aligned block of the next order |
| `BuddyArith.InsideArena` | memory-allocator/malloc_3.cpp:213-215 | below the top order neither a block nor its buddy leaves the arena, so the range tests never fire |
| `Tilings.BlockBuddyIsTile` | memory-allocator/malloc_3.cpp:355-369 | climbing from a tile through blocks of any order, the buddy met is always the start of a tile of at most that order: no header is read that is not there |
| `Tilings.BuddyIsTile` | memory-allocator/malloc_3.cpp:209-217 | the buddy of a tile below the top order is a tile start of at most the same order, inside the arena |
| `Tilings.MergeTiled` | memory-allocator/malloc_3.cpp:219-226 | merging two tiles that are buddies leaves an exact, aligned partition of the arena |
| `Tilings.SplitTiled` | memory-allocator/malloc_3.cpp:159-175 | halving a tile leaves an exact, aligned partition of the arena |
| `Tilings.CanonicalTiling` | memory-allocator/malloc_3.cpp:206-230 | history independence: two coalesced tilings with the same live blocks are equal, however they came about |
| `Tilings.NothingLive` | memory-allocator/malloc_3.cpp:206-230 | with nothing live, the only coalesced tiling is the initial one |
| `Tilings.PayloadsApart` | memory-allocator/malloc_3.cpp:20-29 | usable bytes of a live block meet neither another block's usable bytes nor any tile's header |
| `Tilings.NextTile` | memory-allocator/malloc_3.cpp:439-445 | each tile ends where the next one starts, or at the end of the arena |
| `FreeLists.UnlinkKeeps` | memory-allocator/malloc_3.cpp:89-96 | removing a listed or dropped free tile keeps all lists acyclic, ascending and mutually linked |
| `FreeLists.LinkKeeps` | memory-allocator/malloc_3.cpp:68-87 | inserting a tile into its slot keeps all lists acyclic, ascending and mutually linked |
| `FreeLists.NextIsLeast` | memory-allocator/malloc_3.cpp:68-87 | on a complete list, the link of a tile leads to the next free tile of its order |
| `BuddySteps.OrderFits` | memory-allocator/malloc_3.cpp:54-63 | the chosen order fits if and only if request and header fit into a top-order block, and then no smaller order fits |
| `BuddySteps.GapUnfit` | memory-allocator/malloc_3.cpp:54-63 | in the gap below the threshold, for every arena and header, the order found is the top one and does not fit |
| `BuddySteps.GapExample` | memory-allocator/malloc_3.cpp:54-63 | with the constants of the program and any header from 1 to 64 bytes, the largest request below the threshold does not fit unless the header is a single byte |
| `BuddySteps.NoPath` | memory-allocator/malloc_3.cpp:360-366 | where the simulated merge stops, no sufficient chain of free buddies exists |
| `BuddySteps.LeastOrder` | memory-allocator/malloc_3.cpp:370-371 | the order at which the simulation succeeds is the one that `size_to_order` would choose |
| `BuddySteps.ReleasedTop` | memory-allocator/malloc_3.cpp:206-230 | if live blocks start top-order blocks only, a freed block always coalesces up to the top order |
| `BuddySteps.ReleasedInPlace` | memory-allocator/malloc_3.cpp:219-229 | under the same condition the freed block stays a tile at its own base |
| `BuddySteps.TopBaseFree` | memory-allocator/malloc_3.cpp:206-230 | under the same condition every top-order block whose base is not live is one free tile |
| `BuddySteps.BytesBelowIsSum` | memory-allocator/malloc_3.cpp:419-426 | summing order by order over the lists is summing the usable bytes of the listed tiles |
| `BuddySteps.ListedIsFree` | memory-allocator/malloc_3.cpp:410-417 | on complete lists the entries are the free tiles, each once |
| `Buddy.Allocator.FindSlot` | memory-allocator/malloc_3.cpp:80-82 | the walk stops at the last entry below the block, with `m` already rewritten as in the code |
| `Buddy.Allocator.FlInsert` | memory-allocator/malloc_3.cpp:68-87 | inserts at the only slot that keeps the list ascending; links, head and tile change there and nowhere else; no live byte changes |
| `Buddy.Allocator.FlRemove` | memory-allocator/malloc_3.cpp:89-96 | unlinks a tile, also one that is on no list, in which case the head is lost; the lists stay well formed; no live byte changes |
| `Buddy.Allocator.SizeToOrder` | memory-allocator/malloc_3.cpp:54-63 | the least fitting order, or the top order if none fits |
| `Buddy.Allocator.GetOrder` | memory-allocator/malloc_3.cpp:110-116 | recovers exactly the order whose size the header holds |
| `Buddy.Allocator.InitBlock` | memory-allocator/malloc_3.cpp:139-148 | one more free, listed top-order block |
| `Buddy.Allocator.BuddyInit` | memory-allocator/malloc_3.cpp:121-149 | establishes the invariant and the fresh tiling once, and changes nothing when called again |
| `Buddy.Allocator.SplitBlock` | memory-allocator/malloc_3.cpp:155-176 | as written: keeps tiling, headers and lists, halves the block, keeps the lower half for the caller, and leaves every other live byte |
| `Buddy.Allocator.BuddyAlloc` | memory-allocator/malloc_3.cpp:181-201 | as written: on success exactly one more live block of the order for the request, otherwise no change at all; in the states that occur it takes the head of the top list, and null means that this list is empty |
| `Buddy.Allocator.BuddyAllocRepaired` | memory-allocator/malloc_3.cpp:181-201 | repaired version, not in the repository: with complete lists it takes the lowest free block of the smallest sufficient order, keeps the lists complete, and is null only if no free block suffices |
| `Buddy.Allocator.AbsorbBuddy` | memory-allocator/malloc_3.cpp:219-225 | one merge step keeps tiling, headers, lists and completeness, touches no live byte and no free flag |
| `Buddy.Allocator.BuddyFreeAndMerge` | memory-allocator/malloc_3.cpp:206-230 | removes exactly the freed block from the live ones, leaves no two free buddies, keeps complete lists complete, and leaves the block's own header marked free exactly if it is still a tile, which it always is when live blocks start top-order blocks |
| `Buddy.Allocator.MmapAlloc` | memory-allocator/malloc_3.cpp:235-255 | a zeroed region of at least the size asked for, rounded up to pages and by less than one page |
| `Buddy.Allocator.Smalloc` | memory-allocator/malloc_3.cpp:281-298 | null exactly when the size is inadmissible or the request is refused, and then nothing changes; otherwise one new block at the place that the split chooses, with exactly the bytes of the least order, or mapped with the bytes of whole pages; every other block keeps its bytes |
| `Buddy.Allocator.ArenaAlloc` | memory-allocator/malloc_3.cpp:293-297 | succeeds if and only if a free block serves: of the top order as written, of any sufficient order when repaired; and takes the lowest such block of the smallest order |
| `Buddy.Allocator.Scalloc` | memory-allocator/malloc_3.cpp:300-309 | the block that `smalloc` would give for the machine product, in place and size, with the requested bytes zero; in the gap, and only there, the code clears `excess` bytes beyond the block |
| `Buddy.Allocator.Sfree` | memory-allocator/malloc_3.cpp:311-323 | exactly the freed block disappears and every other live byte stays; a header marked free, or null, changes nothing; as written the header of a freed arena block is always marked free afterwards |
| `Buddy.Allocator.GrowMerge` | memory-allocator/malloc_3.cpp:372-386 | the real merge loop visits the simulated buddies, ends at the base and order that the simulation reached, and changes no live byte |
| `Buddy.Allocator.TryGrow` | memory-allocator/malloc_3.cpp:354-394 | grows if and only if the buddies up to a sufficient order are all free, ends at the least such order with the contents at the front, and writes nothing when it fails |
| `Buddy.Allocator.MoveTo` | memory-allocator/malloc_3.cpp:396-403 | the new block is the one that `smalloc(size)` would give, in place and size, and holds all old bytes; the old one is freed; null exactly when refused, and then nothing changes |
| `Buddy.Allocator.GrowOrMove` | memory-allocator/malloc_3.cpp:354-403 | growing in place, to the order for the size, is preferred whenever possible; otherwise the block that `smalloc(size)` would give; contents kept and all other blocks untouched |
| `Buddy.Allocator.Srealloc` | memory-allocator/malloc_3.cpp:325-404 | keeps the first min(old, new) bytes whether the block stays, grows upward, grows into a lower buddy or moves; a block that grows or moves has exactly the bytes of the order or the pages for `size`, and one that moves lies where `smalloc(size)` would put it; no other live byte changes; null characterized exactly |
| `Buddy.Allocator.Store` | memory-allocator/malloc_3.cpp:270-275 | a client writing into a live block changes that byte of that block and keeps the whole invariant |
| `Buddy.Allocator.CountAllBuddy` | memory-allocator/malloc_3.cpp:429-446 | the walk visits every tile once, ends at the arena end without its size-zero exit, and usable bytes plus headers make up the whole arena |
| `Buddy.Allocator.CountList` | memory-allocator/malloc_3.cpp:413-414 | the walk terminates and counts each listed tile of the order once |
| `Buddy.Allocator.NumFreeBlocks` | memory-allocator/malloc_3.cpp:410-417 | the number of listed tiles, and of all free tiles when the lists are complete |
| `Buddy.Allocator.NumFreeBytes` | memory-allocator/malloc_3.cpp:419-426 | the usable bytes of the listed tiles, and of all free tiles when the lists are complete |
| `BuddyClient.FittingServes` | memory-allocator/malloc_3.cpp:54-63 | a block of the bytes that `smalloc` gives serves the request, except in the gap, where it is the largest there is |
| `BuddyTheorems.NextDetermined` | memory-allocator/malloc_3.cpp:68-87 | with complete lists, the `next` links are a function of the tiling |
| `BuddyTheorems.PrevDetermined` | memory-allocator/malloc_3.cpp:68-87 | with complete lists, the `prev` links are a function of the tiling |
| `BuddyTheorems.HeadsDetermined` | memory-allocator/malloc_3.cpp:68-87 | with complete lists, the list heads are a function of the tiling |
| `BuddyTheorems.SameLiveSameHeap` | memory-allocator/malloc_3.cpp:155-230 | two heaps with complete lists and the same live blocks agree in tiles, headers and list heads |
| `BuddyTheorems.AllFreedIsInitial` | memory-allocator/malloc_3.cpp:139-148 | once nothing is live, tiles, headers with their links, and heads are those of initialization, as written and repaired |
| `BuddyTheorems.LiteralOccupancy` | memory-allocator/malloc_3.cpp:155-201 | as written: between calls every list below the top order is empty, live blocks sit at the bases of top-order blocks, and there are at most `tops` of them |
| `BuddyTheorems.LiteralRefusal` | memory-allocator/malloc_3.cpp:181-201 | as written, a request is refused exactly when the base of every top-order block is live, that is, when `tops` arena blocks are live |
| `BuddyTheorems.LiteralLosesMemory` | memory-allocator/malloc_3.cpp:155-201 | as written, in every arena with more than one order, `tops` one-byte requests succeed and the next is refused although a free block of the right order exists |
| `BuddyTheorems.LiteralNotices` | memory-allocator/malloc_3.cpp:315 | as written, the guard of `sfree` notices every second free: an address that was handed out is marked free exactly as long as it is not live again |
| `BuddyTheorems.UpperFreeUnnoticed` | memory-allocator/malloc_3.cpp:219-229 | repaired version only: a freed block that merged into a lower one keeps a header that says it is in use |
| `BuddyTheorems.Resize` | memory-allocator/malloc_3.cpp:325-404 | puts together what `srealloc` does to what a client can see: stay, grow in place, be refused or move, each exactly when |
| `BuddyTheorems.Perform` | memory-allocator/malloc_3.cpp:281-404 | every operation keeps the invariant and does, to the tiling and the live blocks, exactly what `Does` says, with its answer |
| `BuddyTheorems.DoesNotTouch` | memory-allocator/malloc_3.cpp:281-404 | no operation changes a byte of a block that it does not name |
| `BuddyTheorems.Run` | memory-allocator/malloc_3.cpp:281-404 | over any sequence of allocations, cleared allocations, frees, second frees that the guard notices, resizings and writes: each step does what `Does` says, a block that no operation names keeps its bytes, and a run that ends with nothing live ends in the initial arena |
| `FirstFit.Disjoint` | memory-allocator/malloc_2.cpp:8-16 | any two blocks of the list, headers included, are disjoint |
| `FirstFit.FirstIsLowest` | memory-allocator/malloc_2.cpp:35-42 | the first fitting entry has the lowest address of all fitting blocks |
| `FirstFit.AppendKeeps` | memory-allocator/malloc_2.cpp:45-68 | linking a block above the old end keeps the list ascending, doubly linked and complete, and the heap accounted for |
| `FirstFit.FlagKeeps` | memory-allocator/malloc_2.cpp:81-117 | taking and freeing a block keep list, sizes and accounting |
| `FirstFit.SpliceBlocks` | memory-allocator/malloc_2.cpp:138 | writing inside one live block leaves all others as they were |
| `FirstFit.Heap.FindFree` | memory-allocator/malloc_2.cpp:36-42 | the lowest free block of sufficient size, and null exactly if there is none |
| `FirstFit.Heap.FindTail` | memory-allocator/malloc_2.cpp:61-62 | the walk ends at the last header |
| `FirstFit.Heap.AllocNewBlock` | memory-allocator/malloc_2.cpp:45-68 | one more block of exactly the size asked for, above all others; every other block as before |
| `FirstFit.Heap.Smalloc` | memory-allocator/malloc_2.cpp:74-91 | the lowest block that fits, or, only when none does, a new block of exactly the size above the old end; null characterized exactly; all other blocks untouched and no size changed |
| `FirstFit.Heap.Scalloc` | memory-allocator/malloc_2.cpp:93-107 | the block that `smalloc` would give for the machine product, in place and size, with that many zero bytes, and room for the true product unless it wraps |
| `FirstFit.Heap.Sfree` | memory-allocator/malloc_2.cpp:109-118 | exactly the freed block disappears; freeing again changes nothing |
| `FirstFit.Heap.Srealloc` | memory-allocator/malloc_2.cpp:120-141 | stays if large enough, otherwise moves, with all old bytes, to the block that `smalloc(size)` would give, so that the heap grows only when nothing fits; null characterized exactly; all other blocks untouched |
| `FirstFit.Heap.CountFree` | memory-allocator/malloc_2.cpp:147-159 | the number of free blocks and their bytes |
| `FirstFit.Heap.CountAll` | memory-allocator/malloc_2.cpp:161-177 | blocks, bytes and headers add up, with the addresses other users took, to the program break |
| `FirstFit.Perform` | memory-allocator/malloc_2.cpp:74-141 | every operation does, to the headers, the break and the live blocks, exactly what `Does` says, with its answer |
| `FirstFit.DoesKeep` | memory-allocator/malloc_2.cpp:74-141 | no operation changes a size, or a byte of a block it does not name |
| `FirstFit.Run` | memory-allocator/malloc_2.cpp:74-141 | over any run each step does what `Does` says, the list stays well formed, sizes never change, and a block the client leaves alone keeps its bytes |
| `LogLock.InitInv` | multithreaded-web-server/log.c:5-19 | the invariant holds initially, for any set of threads |
| `LogLock.WriteLockKeeps` | multithreaded-web-server/log.c:30-38 | arriving at and retrying the write lock keep the invariant |
| `LogLock.WriteUnlockKeeps` | multithreaded-web-server/log.c:40-49 | releasing the write lock, with any legal wakeup, keeps the invariant |
| `LogLock.ReadLockKeeps` | multithreaded-web-server/log.c:51-58 | arriving at and retrying the read lock keep the invariant |
| `LogLock.ReadUnlockKeeps` | multithreaded-web-server/log.c:60-66 | releasing the read lock, with any legal wakeup, keeps the invariant |
| `LogLock.WriteStepKeeps` | multithreaded-web-server/log.c:78-85 | every step of a writer's body keeps the invariant, the half-written buffer included |
| `LogLock.ReadStepKeeps` | multithreaded-web-server/log.c:100-102 | every step of a reader's body keeps the invariant |
| `LogLock.EventKeeps` | multithreaded-web-server/log.c:30-108 | every event of every thread, spurious wakeups included, keeps the invariant |
| `LogLock.RunKeeps` | multithreaded-web-server/log.c:30-108 | every run keeps the invariant: exact counters, exclusion, no lost wakeup, intact log |
| `LogLock.NoLostWakeup` | multithreaded-web-server/log.c:40-66 | in every reachable state with a free lock, a waiting writer has been woken, or no writer waits and no reader sleeps; so never are all contenders asleep |
| `LogLock.MutualExclusion` | multithreaded-web-server/log.c:30-66 | a thread in the write section is alone |
| `LogLock.NoDeadlock` | multithreaded-web-server/log.c:30-108 | in every reachable state with an unfinished call, some thread has an enabled step of its own |
| `LogLock.WriterAdmission` | multithreaded-web-server/log.c:30-38 | a writer is let in exactly when no thread is inside, and otherwise sleeps with its entry |
| `LogLock.ReaderAdmission` | multithreaded-web-server/log.c:51-58 | a reader is let in exactly when no writer is inside and none waits, and otherwise sleeps |
| `LogLock.OthersOnlyWake` | multithreaded-web-server/log.c:40-66 | an event moves its own thread and wakes exactly the sleepers that its signal picks, and a woken writer keeps its entry |
| `LogLock.OwnMove` | multithreaded-web-server/log.c:40-66 | a thread that unlocks is idle again, and one that wakes without a signal keeps what it came with |
| `LogLock.AnyChoice` | multithreaded-web-server/log.c:30-66 | idle threads may always call, sleepers may always wake, and a signal may wake any of the sleepers |
| `LogLock.CallsAccounted` | multithreaded-web-server/log.c:70-108 | over every run the admitted entries are those of distinct calls of `log_write`, each once and with the entry it came with, and every other call belongs to a thread that still waits with that entry; likewise for reads and results |
| `LogLock.WriterPriority` | multithreaded-web-server/log.c:53-55 | while a writer waits, no event admits a reader |
| `LogLock.NoReaderOvertakes` | multithreaded-web-server/log.c:30-58 | over the whole time from a writer's arrival to its admission no reader is admitted |
| `LogLock.ReadsLinearize` | multithreaded-web-server/log.c:70-108 | every finished read returned the entries admitted up to some point, and a read that finished later returned a later point: its text continues the earlier one by whole entries |
| `LogLock.ReadsRecent` | multithreaded-web-server/log.c:70-108 | a read that finishes after a state returns all entries admitted in that state, followed by whole later ones |
| `LogLock.ReadInBounds` | multithreaded-web-server/log.c:100-102 | a reader copies inside the buffer, and copies all admitted entries with the terminator |
| `LogLock.DoubledTimes` | multithreaded-web-server/log.c:79-80 | the capacity is multiplied by a power of two and by nothing else |
| `ServerLog.Log.Grow` | multithreaded-web-server/log.c:79-82 | doubles until the need is met and no further, keeping the old bytes |
| `ServerLog.Log.Write` | multithreaded-web-server/log.c:78-85 | appends the entry to the text, terminated, inside the capacity |
| `ServerLog.Log.Read` | multithreaded-web-server/log.c:100-102 | a new buffer with exactly the text and its terminator |
| `ServerLog.StepsWrite` | multithreaded-web-server/log.c:78-85 | the protocol's four write steps together leave the buffer that `Log.Write` leaves |
| `ServerLog.StepsRead` | multithreaded-web-server/log.c:100-102 | the protocol's two read steps note the length and copy that many bytes with the terminator |
| `Sizes.Product` | memory-allocator/malloc_2.cpp:97 | the product modulo the machine's word, and the true product exactly if it does not wrap |
| `RequestQueue.RingPush` | multithreaded-web-server/server.c:36-39 | storing at `tail` appends to the represented sequence |
| `RequestQueue.RingPop` | multithreaded-web-server/server.c:48-50 | taking at `head` removes the first of the represented sequence |
| `RequestQueue.PushAwake` | multithreaded-web-server/server.c:40 | a push with its single signal keeps a woken consumer for every queued item while any consumer sleeps |
| `RequestQueue.PopAwake` | multithreaded-web-server/server.c:51 | a pop with its single signal keeps a woken producer for every free slot while any producer sleeps |
| `RequestQueue.SleepAwake` | multithreaded-web-server/server.c:34-35 | going to sleep loses no wakeup |
| `RequestQueue.Queue.constructor` | multithreaded-web-server/server.c:24-30 | an empty queue with all threads idle |
| `RequestQueue.WakeHolds` | multithreaded-web-server/server.c:34-35 | a wakeup takes no item away from a waiting producer |
| `RequestQueue.Queue.Push` | multithreaded-web-server/server.c:32-42 | appends, or sleeps with its item exactly when the ring is full; no other waiting producer loses its item; the invariant holds |
| `RequestQueue.Queue.Pop` | multithreaded-web-server/server.c:44-54 | removes the oldest item, or sleeps exactly when the ring is empty; every waiting producer keeps its item; the invariant holds |
| `RequestQueue.NeverAllAsleep` | multithreaded-web-server/server.c:32-54 | if every thread sleeps, all of them wait on an empty queue for an item, or all of them on a full queue for room: producers and consumers are never asleep together |
| `RequestQueue.SleepersAreRight` | multithreaded-web-server/server.c:32-54 | with no woken consumer, a consumer sleeps only on an empty queue; with no woken producer, a producer only on a full one |
| `RequestQueue.CallsAccounted` | multithreaded-web-server/server.c:32-85 | over every run the accepted items are those of distinct calls of `queue_push`, each with the item it came with, and every other call belongs to a thread that still waits with that item; deliveries followed by the queue are the accepted items; each delivery serves one call of `queue_pop` |
| `RequestQueue.AnyChoice` | multithreaded-web-server/server.c:32-54 | idle threads may always call, woken ones go on, and a signal may wake any of the sleepers |
| `RequestQueue.DeliveredInOrder` | multithreaded-web-server/server.c:32-85 | the k-th delivery hands out the item of the k-th acceptance, and comes after it |
| `RequestQueue.Step` | multithreaded-web-server/server.c:32-54 | one event on the ring is one event on the bounded sequence |
| `RequestQueue.Run` | multithreaded-web-server/server.c:32-85 | over any interleaving of any number of producers and consumers the ring does what the bounded sequence does, event by event |
| `RioReader.LineStops` | multithreaded-web-server/segel.c:126-135 | a line ends at the first newline, when the room is used up, or at the end of the stream, and nowhere else |
| `RioReader.LineUnique` | multithreaded-web-server/segel.c:126-135 | those properties determine the line |
| `RioReader.Rio.constructor` | multithreaded-web-server/segel.c:99-101 | nothing is buffered yet |
| `RioReader.Rio.Refill` | multithreaded-web-server/segel.c:104-109 | refilling loses and invents no byte, gives up only at the end of the stream, and reports exactly the failures other than interruption |
| `RioReader.Rio.TakeBuffered` | multithreaded-web-server/segel.c:110-114 | the next `k` bytes are copied out and no others change |
| `RioReader.Rio.Fetch` | multithreaded-web-server/segel.c:102-115 | the next bytes of the stream, at least one unless it has ended; -1 exactly at a failure, with nothing consumed |
| `RioReader.Rio.ReadNb` | multithreaded-web-server/segel.c:116-125 | exactly the next `n` bytes, or all that is left; -1 exactly at a failure, and then what was consumed was stored |
| `RioReader.Rio.ReadLine` | multithreaded-web-server/segel.c:126-135 | stores one line and a terminator; returns zero at the end, the number stored after a newline, and one more otherwise; -1 exactly at a failure, and then what was consumed was stored |
| `RioReader.DeliveryIs` | multithreaded-web-server/segel.c:116-135 | a block call delivers exactly the bytes asked for or all that is left, a line call exactly one line |
| `RioReader.DeliveredEach` | multithreaded-web-server/segel.c:116-135 | calls are served one after the other, each from where the one before stopped |
| `RioReader.DeliveredIsPrefix` | multithreaded-web-server/segel.c:116-135 | the deliveries of any calls concatenate to a prefix of the stream |
| `RioReader.Run` | multithreaded-web-server/segel.c:99-135 | for any mix of calls and any answers of the kernel, what is delivered up to the first failure is a function of the stream and the calls alone, and without a failure no byte is lost |
| `SyscallBans.Mask` | hw2-process-management/hw2.c:21-27 | bit 0 for `g`, bit 1 for `p`, bit 2 for `k`, and nothing for any other letter |
| `SyscallBans.Task.SetBan` | hw2-process-management/hw2.c:45-68 | errors in their order of priority and without effect; otherwise each bit is set exactly if its argument is positive, and no other bit |
| `SyscallBans.Task.GetBan` | hw2-process-management/hw2.c:76-83 | reads the letter's bit, or reports an invalid letter |
| `SyscallBans.Task.CheckBan` | hw2-process-management/hw2.c:91-120 | the errors in their order of priority, otherwise the target's bit |
| `SyscallBans.SetThenGet` | hw2-process-management/hw2.c:45-83 | what root sets is what the query then reports, letter by letter |
| `SyscallBans.StopsAtTop` | hw2-process-management/hw2.c:154-155 | only at the top is a task on the line its own parent |
| `SyscallBans.FlipsAlternate` | hw2-process-management/hw2.c:157-162 | two consecutive flips restore every byte, and each ancestor visited is banned by exactly one of them |
| `SyscallBans.FlipAncestors` | hw2-process-management/hw2.c:151-165 | flips the bit of exactly the nearest `height` ancestors that are not their own parent, and counts those that are banned afterwards |
| `SyscallBans.FlipBanBranch` | hw2-process-management/hw2.c:130-170 | errors without effect; otherwise the bit of exactly the nearest `height` ancestors that are not their own parent is flipped, and never the caller or another bit; the result is the number of those banned afterwards |
| `SyscallBans.FlipTwice` | hw2-process-management/hw2.c:130-170 | two identical successful calls restore every byte, and their results add up to the number of ancestors visited |

## Left out

- Buddy.Allocator.Scalloc: the bytes that the code clears beyond the block, in the gap below the threshold, are counted and not written; what they overwrite is not modelled.
- Buddy.Allocator.Smalloc: in the gap below the threshold the block has fewer bytes than requested; the contract says so, and clients of the model write only the bytes that exist.
- Buddy.Allocator.Sfree: takes null, live pointers, and arena addresses whose header is intact and marked free; other pointers are outside the contract.
- Buddy.Allocator.MmapAlloc: mapped regions are fresh zeroed blocks beside the arena; their headers and the order of `mmap_list` (malloc_3.cpp:249-263) are not modelled.
- Buddy.Allocator.BuddyInit: assumes that the arena was obtained and aligned (malloc_3.cpp:125-137).
- The test `target_order > MAX_ORDER` (malloc_3.cpp:183) and the first test of case (a) (malloc_3.cpp:346-349) never decide anything and are not written out; nor is the assignment at malloc_3.cpp:401, which changes nothing.
- `_num_allocated_blocks`, `_num_allocated_bytes` and `_num_meta_data_bytes` (malloc_3.cpp:448-467) add the lengths of the mapped list to `count_all_buddy`.
- Alignment of addresses and machine limits on sizes, except for the product in `scalloc`; sizes are unbounded numbers.
- FirstFit.Heap.Srealloc: takes null and pointers to blocks in use only.
- FirstFit.Heap.AllocNewBlock: the header fields are values in a table by address, not bytes of `mem`.
- LogLock.WriteStepKeeps: the doubling loop is one step and `len` and `capacity` are unbounded; time stamps and the optional sleep (log.c:74-76) change nothing and have no step.
- RequestQueue.Run: a call is one event from its loop test to its next wait or unlock, since it holds the mutex throughout; handling a request between two pops is not modelled.
- RioReader.Run: a run ends at the first failed call; each call alone says what a failure leaves.
- SyscallBans.FlipBanBranch: the process tree does not change during the call; read-copy-update locking, credentials beyond the root test, and the pid lookup are parameters or omitted.
- `memory-allocator/malloc_1.cpp` and `memory-allocator/malloc_4.cpp`: a wrapper over `sbrk`, and the same buddy system with a flag for huge pages; only easy members would be added.
- HTTP handling, file and socket plumbing, per-thread statistics, and the shell of the first homework.
