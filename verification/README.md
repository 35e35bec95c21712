# K-OS kernel: models and proofs

A Dafny project that models the parts of the K-OS kernel whose correctness depends on more than one
function, and proves what they promise for all inputs and all runs. `dafny verify dfyconfig.toml` checks
everything.

| part | files | what is proved |
|---|---|---|
| physical pages | `Bits`, `Common`, `Seqs`, `BuddyBlocks`, `BuddyLists`, `BuddySteps`, `BuddyRuns`, `PageFlags`, `PageAllocator` | after every run the free lists are exactly the maximal aligned runs of free pages; allocation fails only when it must and takes the best fit; frees commute and undo allocations; flags follow the allocations; pages are conserved |
| scheduler | `Scheduler` | run queue and processors agree in every run, no wake is lost, and with aimed wakes no panic is reachable |
| ticket lock | `TicketLock` | mutual exclusion and ticket order in every interleaving, across 16-bit wrap-around |
| semaphores, ktaskd | `Semaphore`, `Waiting`, `SemaphoreViews`, `SchedulerView`, `Ktaskd` | wait lists, flags and counts agree, also for many semaphores over the scheduler, which together behave as each does alone; when a promised token can be stolen, exactly; every request is served once |
| ramfs | `RamFs` | the chunk list is a flat byte string, read and written where the cursor stands |
| paths | `VfsTree`, `Paths`, `RelativePaths`, `VfsRuns`, `Vfs` | for every place of every tree the code builds, exactly when looking up what `getcwd` prints gives back the place; relative lookups continue absolute ones |
| address spaces | `PageTables`, `AddressSpaces` | two-level tables are a flat map; after every run of forks no frame is mapped twice; kernel mappings invert |
| slab caches | `SlabCache` | objects in use are disjoint and are recovered from their address |
| ARP | `Arp` | every packet is handed on once, to the address in the first answer, with bounded requests |
| ring buffer | `RingBuffer` | two contiguous chunks are a bounded queue |
| root image | `RootRamFs` | reader and writer are inverse to each other |
| checksums, division | `Checksum`, `Division` | headers and segments verify; the quotient is right |

Code that changes objects in place is a class with the source's fields, whose methods are proved to
compute a specification function; the theorems are about those functions. Code whose point is
concurrency is a state machine whose steps are the regions the source makes atomic, and the theorems are
about every sequence of steps. A `BUG_ON` or a `panic` becomes an assertion that is proved, a state that
is proved unreachable, or an outcome that is part of the result.

Where the code does less than it should, the theorem gives the exact condition under which it does what
it should:

- a semaphore token promised to a woken thread is stolen exactly by a down that finds no more tokens than
  woken threads (`Semaphore.DownPanicsIff`, with a run in `Semaphore.StolenToken`);
- a lookup compares as many bytes as the segment has, so a later sibling of the same bucket whose name
  continues that of an entry hides it; and a mount covers what is below (`Paths.LookupUndoesGetcwd`, with
  runs in `VfsRuns.ShadowedDirectory` and `VfsRuns.CoveredDirectory`);
- `getcwd` walks off the tree exactly below a mount that sits on the root of a file system
  (`Vfs.FileSystem.GetCwd`, with a run in `VfsRuns.StackedMount`);
- the reader of the root image checks no bound, and stays inside an image exactly if a writer made it
  (`RootRamFs.LoadExactly`, with an image in `RootRamFs.TruncatedImage`);
- the ramfs cursor stays behind after a short read that leaves its chunk, and the next write goes to where it
  stands; the end of a file cannot be sought when it lies on a chunk boundary (`RamFs.File.Read`,
  `RamFs.File.Write`, `RamFs.File.Seek`, with files in `RamFs.ShortReadLosesCursor` and
  `RamFs.SeekToChunkBoundary`);
- `ringbuff_is_full` misses the full buffer whose data starts at the start of the storage
  (`RingBuffer.Ring.IsFull`, with a buffer in `RingBuffer.FullRingDenied`);
- a wake of a thread that neither sleeps nor is awake nor is active breaks the run queue
  (`Scheduler.WakeExactly`), and a timer that outlives its thread leads to the panic
  (`Scheduler.TimerAfterDeath`);
- the ticket lock excludes up to 2^16 contenders and no more, and its record of the holder holds for fewer
  than 2^16 (`TicketLock.EveryRun`, with runs in `TicketLock.TwoOwners` and `TicketLock.LastHolderPanics`);
- a page table in frame zero counts as absent, so that the page it was made for is lost; a fork loses at most
  that one page, exactly if frame zero is made a table (`PageTables.MappedUnlessTableInFrameZero`,
  `PageTables.Mmu.CopyMem`, with an allocator in `PageTables.TableInFrameZero`).

## Model

| member | source | states |
|---|---|---|
| `BuddyRuns.EveryRun` | kernel/src/mm/mm.c:112-322 | after every run of claims, allocations and frees from boot, every block starts at a multiple of its size and its page at offset d > 0 carries the order given by the trailing zeros of d, list `k` holds exactly the maximal aligned runs of 2^k free pages, and an allocation runs out of memory only if no aligned run of free pages is big enough |
| `BuddyRuns.RunsAgree` | kernel/src/mm/mm.c:148-310 | two runs, whatever their order of operations, that leave the same pages free leave the same blocks on every free list |
| `BuddyRuns.RunKeeps` | kernel/src/mm/mm.c:112-322 | every run keeps the invariant (blocks partition the pages, lists are exact and coalesced, live allocations are intact, disjoint and cover every used page) and the 32-bit sum of free pages and `pages_in_use` |
| `BuddyRuns.StepKeeps` | kernel/src/mm/mm.c:213-322 | each allocation, free and claim keeps that invariant |
| `BuddyRuns.StepConserves` | kernel/src/mm/mm.c:226-316 | each operation leaves free pages plus `pages_in_use`, modulo 2^32, unchanged |
| `BuddyRuns.BootInv` | kernel/src/mm/mm.c:447-457 | the page array as the start-up loop leaves it satisfies the invariant |
| `BuddyRuns.AllocFailsOnlyWhenFull` | kernel/src/mm/mm.c:213-238 | allocation fails if and only if the rounded-up order exceeds `MAX_ORDER` or no aligned run of that many free pages exists |
| `BuddyRuns.AllocThenFreeRestores` | kernel/src/mm/mm.c:213-238 | freeing what was just allocated, with the same count, puts exactly the same blocks back on every list |
| `BuddyRuns.FreesCommute` | kernel/src/mm/mm.c:299-310 | two allocations can be freed in either order and leave the same blocks on every list |
| `BuddyRuns.FreeLeaves` | kernel/src/mm/mm.c:299-310 | freeing one allocation leaves a disjoint one intact |
| `BuddyRuns.FreeFirst` | kernel/src/mm/mm.c:299-310 | the first block of an allocation has the order that `free_pages` computes from the count, the `BUG_ON` on it cannot fire, and freeing it leaves the rest a well-formed allocation of the remaining count |
| `BuddyRuns.FreeAllKeeps` | kernel/src/mm/mm.c:299-310 | `free_pages` with the allocated count frees exactly those pages and no other, and keeps all invariants |
| `BuddyRuns.FreeOneKeeps` | kernel/src/mm/mm.c:279-297 | `free_page` frees exactly one block and keeps all invariants |
| `BuddyRuns.ClaimKeeps` | kernel/src/mm/mm.c:312-316 | claiming a reserved page frees exactly that page and keeps all invariants |
| `BuddySteps.AllocKeeps` | kernel/src/mm/mm.c:213-238 | a successful allocation hands out `n` consecutive pages that were free, as the descending binary decomposition of `n`, changes no other page's use, and keeps all invariants |
| `BuddySteps.TrimKeeps` | kernel/src/mm/mm.c:148-186 | `trim_block` ends, keeps exactly the wanted pages off the lists as the descending binary decomposition of their number, returns the rest to the lists and touches nothing outside the block |
| `BuddySteps.TrimStep` | kernel/src/mm/mm.c:148-186 | each round of the trim loop splits as needed and moves to the half that holds the cut, with the invariant kept |
| `BuddySteps.RippleKeeps` | kernel/src/mm/mm.c:191-211 | `ripple_join` ends with a fully coalesced set of lists and the same free pages |
| `BuddySteps.SubblockMaster` | kernel/src/mm/mm.c:69-72 | the head of a block of positive order passes the sub-block master test, so the check before a split cannot fire |
| `BuddySteps.TargetFits` | kernel/src/mm/mm.c:213-217 | the order that allocation starts from is the least one whose block holds the count |
| `BuddyLists.TakeKeeps` | kernel/src/mm/mm.c:219-224 | taking a free block off its list keeps the lists exact and coalesced |
| `BuddyLists.PutKeeps` | kernel/src/mm/mm.c:104-109 | putting a free block whose buddy is not listed on its list keeps the lists exact and coalesced |
| `BuddyLists.SplitKeeps` | kernel/src/mm/mm.c:112-125 | splitting a block that is off the lists keeps partition, flags and lists |
| `BuddyLists.SplitSlave` | kernel/src/mm/mm.c:112-125 | the page that a split turns into a block head already carries the order the split relies on |
| `BuddyLists.JoinKeeps` | kernel/src/mm/mm.c:129-145 | joining two free buddies that are off the lists keeps partition, flags and lists |
| `BuddyLists.RippleFinds` | kernel/src/mm/mm.c:191-211 | a buddy page that is free and carries the same order is the head of a listed block, although the order of a page inside a block is left over from earlier |
| `BuddyLists.SameOrderIsHead` | kernel/src/mm/mm.c:191-211 | a page at buddy position whose stored order equals that of the block is a block head |
| `BuddyLists.MarkKeeps` | kernel/src/mm/mm.c:226-231 | marking whole blocks used keeps partition, flags and lists |
| `BuddyLists.ClearKeeps` | kernel/src/mm/mm.c:286-291 | clearing the flags of a whole block keeps partition, flags and lists |
| `BuddyBlocks.ListsAreMaximalRuns` | kernel/src/mm/mm.c:191-211 | in every sound state a block is on list `k` if and only if it is a maximal aligned run of free pages of order `k` |
| `BuddyBlocks.SameFreePagesSameLists` | kernel/src/mm/mm.c:191-211 | the free pages determine the contents of every list |
| `BuddyBlocks.RunInOneBlock` | kernel/src/mm/mm.c:213-238 | every aligned run of free pages lies inside one free block of at least its order |
| `BuddyBlocks.SplitPartition` | kernel/src/mm/mm.c:112-125 | after a split the blocks still partition the pages, aligned, with the orders inside blocks equal to trailing zeros |
| `BuddyBlocks.JoinPartition` | kernel/src/mm/mm.c:129-145 | after a join the blocks still partition the pages, aligned, with the orders inside blocks equal to trailing zeros |
| `BuddyBlocks.BuddyHalves` | kernel/src/mm/mm.c:74-80 | `get_buddy` is an involution and a block and its buddy are the two halves of the block one order up |
| `BuddyBlocks.MasterAligned` | kernel/src/mm/mm.c:65-67 | `is_master` holds of an aligned page exactly if it is aligned one order up |
| `BuddyBlocks.OrderIndexDivides` | kernel/src/mm/mm.c:57-59 | the bitwise order index is the quotient by the block size |
| `BuddyBlocks.BlockShape` | kernel/src/mm/mm.c:112-211 | in every partition into blocks, also a block in use, the orders left over inside a block are the trailing zeros of the offsets |
| `PageAllocator.PageCountAligned` | kernel/src/mm/mm.c:447-457 | the number of pages is a multiple of the largest block, so every buddy lies inside the page array |
| `PageAllocator.Allocator.constructor` | kernel/src/mm/mm.c:447-457 | start-up leaves every page reserved, used and of order 0, and the lists empty |
| `PageAllocator.Allocator.AddToFreelists` | kernel/src/mm/mm.c:104-109 | puts a block at the front of the list of its order |
| `PageAllocator.Allocator.SplitBlock` | kernel/src/mm/mm.c:112-125 | halves a block, with its checks proved; returns the upper half |
| `PageAllocator.Allocator.JoinBlock` | kernel/src/mm/mm.c:129-145 | joins a block with its buddy, with its checks proved; returns the lower half |
| `PageAllocator.Allocator.TrimBlock` | kernel/src/mm/mm.c:148-186 | the loop computes the proved trim; its final `BUG()` is unreachable |
| `PageAllocator.Allocator.RippleJoin` | kernel/src/mm/mm.c:191-211 | the loop computes the proved coalescing; its checks cannot fire |
| `PageAllocator.Allocator.DoAllocPages` | kernel/src/mm/mm.c:213-238 | computes the proved allocation and adds the count to `pages_in_use`; on failure nothing changes |
| `PageAllocator.Allocator.AllocPages` | kernel/src/mm/mm.c:240-277 | computes the proved step and succeeds exactly when a block exists; each page handed out was free and is now used, not reserved, and flagged as a cache page exactly if that was asked for, and no other page changes its flags |
| `PageAllocator.Allocator.FreePage` | kernel/src/mm/mm.c:279-297 | frees one block on the page array in place, with its checks proved |
| `PageAllocator.Allocator.FreePages` | kernel/src/mm/mm.c:299-310 | frees a live allocation block by block, with its check proved; exactly its pages lose their flags |
| `PageAllocator.Allocator.ClaimPage` | kernel/src/mm/mm.c:312-316 | releases one reserved page, counts it as available and changes the flags of no other |
| `PageAllocator.Allocator.ClaimPages` | kernel/src/mm/mm.c:318-322 | is the run of its single claims: exactly the given pages become free, and as many more are available |
| `PageFlags.EveryFlag` | kernel/src/mm/mm.c:240-322 | after every run a page carries the cache flag if and only if the live allocation it belongs to was made with `ALLOC_CACHE`, only used pages do, and as many pages are available as were claimed, as a 32-bit number |
| `PageFlags.AllocFlags` | kernel/src/mm/mm.c:226-255 | an allocation changes the flags of exactly its pages: from free to used, with the cache flag exactly if asked for |
| `PageFlags.FreeFlags` | kernel/src/mm/mm.c:279-310 | a free clears the flags of exactly the pages of the allocation |
| `PageFlags.ClaimFlags` | kernel/src/mm/mm.c:312-316 | a claim clears the flags of exactly the page |
| `PageFlags.AllocTakesBest` | kernel/src/mm/mm.c:213-224 | an allocation starts at the front block of the smallest order that will do, which is a maximal run of free pages; no smaller maximal run would do |
| `PageFlags.FreedComesFirst` | kernel/src/mm/mm.c:191-211 | a freed block, joined with its buddies, is the first of its list, so it is the next to be handed out |
| `Scheduler.EveryRun` | kernel/src/sched/sched.c:725-1192 | in every run whose wakes are aimed at threads that sleep, are awake or are active, for any number of processors and threads: whenever the lock is free the run queue holds each awake thread that is not running exactly once and nothing else, no thread runs on two processors, and no panic or check can fire |
| `Scheduler.WakeNotLost` | kernel/src/sched/sched.c:725-779 | after a wake or a poke of a sleeping or awake thread, also one between the preparation to sleep and the switch, the thread runs or is queued whenever the lock is free, until it goes to sleep again or dies |
| `Scheduler.StatusMoves` | kernel/src/sched/sched.c:725-808 | a thread falls asleep or exits only by its own code, a wake or a poke ends its sleep whether it still runs or not, and starting it makes it awake; nothing else touches its status |
| `Scheduler.SwitchDoes` | kernel/src/sched/sched.c:1065-1169 | a whole switch: a thread that stays awake gets its processor back, since the queue is a stack; otherwise the last one queued has it, or the idle thread; an exited thread leaves the thread list, and no other processor, thread or queue entry changes |
| `Scheduler.LastWokenRunsNext` | kernel/src/sched/sched.c:739-768 | the last thread woken is the next to run on a processor whose thread does not stay awake |
| `Scheduler.NeverStuck` | kernel/src/sched/sched.c:72-100 | with the lock free every processor can switch, by force unless its thread is dying, and a switch that was begun can go on |
| `Scheduler.AwakeUntilItSleeps` | kernel/src/sched/sched.c:725-793 | only a thread's own sleep or death makes it stop being awake, over whole runs |
| `Scheduler.WakeExactly` | kernel/src/sched/sched.c:739-768 | waking keeps the invariant if and only if the target is asleep, awake or still active |
| `Scheduler.BadWakePanics` | kernel/src/sched/sched.c:1118-1144 | after any other wake the illegal-state panic is two steps away on an idle processor |
| `Scheduler.TimerAfterDeath` | kernel/src/sched/syscall.c:44-56 | a run from the start to the illegal-state panic: a thread sleeps in `msleep`, a signal wakes it early and it dies of it, and then the timer wakes it |
| `Scheduler.NoPanic` | kernel/src/sched/sched.c:1065-1192 | no reachable step panics or fails a check |
| `Scheduler.StepKeeps` | kernel/src/sched/sched.c:725-1192 | every step keeps the invariant |
| `Scheduler.RunKeeps` | kernel/src/sched/sched.c:725-1192 | every run with aimed wakes keeps the invariant |
| `Scheduler.SleepPrepareKeeps` | kernel/src/sched/sched.c:725-737 | preparing to sleep keeps the invariant |
| `Scheduler.WakeSleeper` | kernel/src/sched/sched.c:739-759 | waking a sleeping thread keeps the invariant, whether it still runs or not |
| `Scheduler.WakeKeeps` | kernel/src/sched/sched.c:761-768 | `thread_wake` of a thread that sleeps, is awake or is active keeps the invariant |
| `Scheduler.PokeKeeps` | kernel/src/sched/sched.c:770-779 | `thread_poke` keeps the invariant for every target |
| `Scheduler.ScheduleKeeps` | kernel/src/sched/sched.c:781-793 | putting a new thread on the queue keeps the invariant |
| `Scheduler.DieKeeps` | kernel/src/sched/sched.c:797-808 | the end of a thread keeps the invariant |
| `Scheduler.DeactivateKeeps` | kernel/src/sched/sched.c:1065-1115 | taking the running thread off its processor keeps the invariant |
| `Scheduler.PickNextKeeps` | kernel/src/sched/sched.c:1118-1144 | taking the next thread off the queue keeps the invariant |
| `Scheduler.SwitchFinishKeeps` | kernel/src/sched/sched.c:1147-1174 | finishing the switch keeps the invariant |
| `TicketLock.EveryRun` | kernel/src/arch/spinlock.c:19-98 | in every interleaving of lock, trylock and unlock by up to 2^16 contenders, at most one owns the lock and entries are a prefix of the ticket order across wrap-around; with fewer than 2^16, or before holders are recorded, no holder panic can fire |
| `TicketLock.TwoOwners` | kernel/src/arch/spinlock.c:50-59 | with one contender more, a run from the unlocked lock that ends with two owners |
| `TicketLock.LastHolderPanics` | kernel/src/arch/spinlock.c:86-93 | with 2^16 contenders, a run in which the one whose number marks no holder fails the check in its own unlock |
| `TicketLock.QueueUp` | kernel/src/arch/spinlock.c:54-59 | while tickets last, the first to ask owns the lock and the others wait |
| `TicketLock.FirstGetsIn` | kernel/src/arch/spinlock.c:61-67 | when nobody owns the lock the first in line gets in |
| `TicketLock.TryLockGets` | kernel/src/arch/spinlock.c:19-48 | a trylock that nobody interferes with gets the lock if and only if nobody is in line, and otherwise changes nothing |
| `TicketLock.LockGets` | kernel/src/arch/spinlock.c:50-70 | a lock has the lock at once if and only if nobody is in line, and otherwise takes the next ticket and waits |
| `TicketLock.UnlockPasses` | kernel/src/arch/spinlock.c:83-99 | an unlock lets the next in line in |
| `TicketLock.CompareExchangeKeeps` | kernel/src/arch/spinlock.c:19-48 | a snapshot, however stale, lets its owner in only when the line is empty now |
| `TicketLock.OneOwner` | kernel/src/arch/spinlock.c:50-80 | whoever owns the lock is the first in line |
| `TicketLock.FirstInLine` | kernel/src/arch/spinlock.c:61-67 | a contender that sees its ticket at the head is the first in line and the lock is free |
| `TicketLock.LineShort` | kernel/src/arch/spinlock.c:54-59 | at most one ticket per contender is out |
| `TicketLock.OutsideLine` | kernel/src/arch/spinlock.c:54-59 | to a contender without a ticket equal 16-bit counters mean an empty line |
| `TicketLock.NoViolation` | kernel/src/arch/spinlock.c:38-93 | the two holder panics are unreachable with fewer than 2^16 contenders or while holders are not recorded |
| `TicketLock.StepKeeps` | kernel/src/arch/spinlock.c:19-98 | every atomic action keeps the invariant |
| `TicketLock.RunKeeps` | kernel/src/arch/spinlock.c:19-98 | every interleaving keeps the invariant |
| `TicketLock.TakeTicketKeeps` | kernel/src/arch/spinlock.c:54-59 | taking a ticket puts the contender at the end of the line |
| `TicketLock.SpinKeeps` | kernel/src/arch/spinlock.c:61-67 | entering on seeing one's ticket keeps the invariant |
| `TicketLock.RecordKeeps` | kernel/src/arch/spinlock.c:72-79 | recording the holder keeps the invariant |
| `TicketLock.ForgetKeeps` | kernel/src/arch/spinlock.c:86-93 | forgetting the holder keeps the invariant |
| `TicketLock.AdvanceKeeps` | kernel/src/arch/spinlock.c:95-97 | advancing the head lets the first in line out and nobody in |
| `Semaphore.EveryRun` | kernel/inc/sync/semaphore-post.h:8-62 | in every run of one semaphore the wait list holds exactly the threads with `THREAD_FLAG_INSEM`, once each, no check of the flag fails, and the count is initial plus ups less obtained, as a 32-bit number |
| `Semaphore.OneConsumerNeverPanics` | kernel/inc/sync/semaphore-post.h:27-45 | with one downing thread and no overflow of the count, `BUG_ON(!count)` is unreachable |
| `Semaphore.PanicsIffShort` | kernel/inc/sync/semaphore-post.h:37-45 | if the woken threads run next, in any order, one of them finds no token if and only if there are fewer tokens than woken threads |
| `Semaphore.DownPanicsIff` | kernel/inc/sync/semaphore-post.h:27-45 | a down leads to that panic if and only if it takes a token while there are no more tokens than woken threads |
| `Semaphore.StolenToken` | kernel/inc/sync/semaphore-post.h:27-45 | a concrete run of two downing threads that ends in the panic |
| `Semaphore.OrderlyNeverPanics` | kernel/inc/sync/semaphore.h:29-41 | a run in which no down steals and no up overflows never panics |
| `Semaphore.PromiseKept` | kernel/inc/sync/semaphore-post.h:27-62 | every other step leaves at least as many tokens as woken threads |
| `Semaphore.AloneIsOrderly` | kernel/inc/sync/semaphore.h:29-41 | a run with one downing thread has no stealing down |
| `Semaphore.WokenMoves` | kernel/src/sync/semaphore.c:24-37 | only an up with a waiter adds a woken thread, its first waiter, and only that thread's own resume takes it away |
| `Semaphore.CountMoves` | kernel/inc/sync/semaphore-post.h:8-62 | exactly when a step takes a token or puts one in, and when it finds none |
| `Semaphore.LastWaitsShortest` | kernel/src/sync/semaphore.c:24-37 | the thread that began to wait last is the one an up wakes |
| `Semaphore.FlagChecked` | kernel/inc/sync/semaphore-post.h:8-26 | the checks of the flag fail exactly for a thread that is put on the list with it or taken off without it |
| `Semaphore.StepKeeps` | kernel/inc/sync/semaphore-post.h:8-62 | down, resume, giving up and up keep list, flags and count |
| `Waiting.EveryRun` | kernel/inc/sync/semaphore-post.h:8-62 | in every run of any number of semaphores over the scheduler's threads, with one `THREAD_FLAG_INSEM` per thread: the scheduler's invariant holds, a thread has the flag exactly if it is on a wait list and then on one only, no check but the one for a token can fail, and every thread that `semaphore_up` is about to wake sleeps or is awake, as the scheduler needs it |
| `Waiting.StepSafe` | kernel/src/sync/semaphore.c:24-37 | every step of a semaphore meets the checks of the semaphore and of the scheduler, apart from the check for a token |
| `Waiting.StepKeeps` | kernel/inc/sync/semaphore.h:29-41 | down, resume, giving up, up and every other scheduler step keep lists, flags and scheduler in order |
| `Waiting.StaysAlive` | kernel/src/sched/sched.c:797-808 | only its own death takes a thread out of sleeping and awake |
| `SemaphoreViews.StepProjects` | kernel/inc/sync/semaphore-post.h:8-62 | each step of threads, processors and semaphores together is, for every semaphore, a step of that semaphore alone, or leaves it as it is |
| `SemaphoreViews.RunProjects` | kernel/inc/sync/semaphore-post.h:8-62 | so a run of the whole is, for every semaphore, the run of its own steps |
| `SemaphoreViews.EveryCount` | kernel/inc/sync/semaphore-post.h:8-62 | in every run of the whole, wait list and count of every semaphore are those of its own run, and the count is initial plus ups less obtained, as a 32-bit number |
| `SemaphoreViews.TokenIsThere` | kernel/inc/sync/semaphore-post.h:37-45 | a thread that a semaphore woke finds a token there, if no down of that semaphore steals and no up overflows |
| `SemaphoreViews.OrderlyIsSafe` | kernel/inc/sync/semaphore-post.h:8-62 | if that holds of every semaphore, no step that is possible after the run can fail any check of semaphores or scheduler |
| `SemaphoreViews.OneDownerHasToken` | kernel/inc/sync/semaphore-post.h:27-45 | in the whole, with one thread that downs a semaphore and no overflow of its count, `BUG_ON(!count)` is unreachable for that semaphore |
| `SchedulerView.RunProjects` | kernel/inc/sync/semaphore-post.h:8-62 | a run of semaphores and scheduler together is a run of the scheduler with aimed wakes: waiting prepares to sleep, and an up wakes the first of the list |
| `SchedulerView.StepProjects` | kernel/src/sync/semaphore.c:24-37 | the same for each step |
| `SchedulerView.WokenRuns` | kernel/src/sync/semaphore.c:24-37 | a thread that an up takes off a wait list runs or is queued whenever the scheduler lock is free, until it goes to sleep again or dies |
| `SchedulerView.WaiterSleeps` | kernel/inc/sync/semaphore-post.h:8-26 | a thread that finds no token is on the list, has the flag and has prepared to sleep |
| `Ktaskd.EveryRequestOnce` | kernel/src/sched/ktaskd.c:22-60 | in every run a request is fulfilled at most once and until then is on the list or in the daemon's hands, exactly once; the daemon never finds the list empty for a token and never panics |
| `Ktaskd.EveryRequestAccounted` | kernel/src/sched/ktaskd.c:22-60 | in every run the requests that were made are, each once, those fulfilled, in the daemon's hands and on the list |
| `Ktaskd.NewestServedNext` | kernel/src/sched/ktaskd.c:22-60 | whatever waits, a request that is made and announced now is the next one served, and the others stay on the list |
| `Ktaskd.AllServed` | kernel/src/sched/ktaskd.c:41-60 | once requests stop, as many turns of the daemon as there are requests serve all of them, and then everything asked for was fulfilled exactly once |
| `Ktaskd.TurnServes` | kernel/src/sched/ktaskd.c:41-60 | from any state with a request, one turn of the daemon fulfils the front of the list |
| `Ktaskd.AsleepOnlyWhenIdle` | kernel/src/sched/ktaskd.c:22-35 | the daemon is on the wait list with no requester halfway only if there is nothing to do |
| `Ktaskd.NothingMadeUp` | kernel/src/sched/ktaskd.c:37-60 | nothing is listed, taken or fulfilled that was not asked for |
| `Ktaskd.StepKeeps` | kernel/src/sched/ktaskd.c:22-60 | every step keeps requests equal to tokens plus the token in hand plus the request not yet announced |
| `Ktaskd.SemKeeps` | kernel/src/sched/ktaskd.c:32-42 | what an up, a down and a resume do to the count when the daemon alone downs |
| `RamFs.File.Write` | kernel/src/fs/type/ramfs.c:86-111 | from any cursor, writing is exactly a splice into the flat byte string where the cursor stands: in its chunk, at the place in a chunk that the offset gives; size, offset and cursor follow |
| `RamFs.SpliceAtOffset` | kernel/src/fs/type/ramfs.c:173-175 | the writes from a position are those at the offset, for all data, if and only if the position is the offset |
| `RamFs.File.Read` | kernel/src/fs/type/ramfs.c:63-84 | from any cursor, reading returns exactly the slice from where it stands up to the end of file at most; the cursor follows if and only if the read was satisfied in full or stayed in its chunk, and otherwise stays in its chunk, before the end, while the offset moves on |
| `RamFs.ShortRead` | kernel/src/fs/type/ramfs.c:75-83 | a cursor left behind while the offset goes to the end of the file stands at the end only if it is in the last chunk |
| `RamFs.ShortReadLosesCursor` | kernel/src/fs/type/ramfs.c:63-111 | a file of 2048 zero bytes, read from the start with length 5000: the offset is 2048, and a byte written there overwrites the first byte of the file |
| `RamFs.File.Seek` | kernel/src/fs/type/ramfs.c:140-167 | seeking succeeds if and only if the target is inside the file, or its end unless that is a chunk boundary; then the cursor stands on the offset |
| `RamFs.SeekToChunkBoundary` | kernel/src/fs/type/ramfs.c:140-167 | a file of 1024 bytes: seeking to 1024 fails |
| `RamFs.File.WriteSeekRead` | kernel/src/fs/type/ramfs.c:86-167 | from a cursor that stands on the offset, writing, seeking back and reading returns the bytes written |
| `RamFs.File.Open` | kernel/src/fs/type/ramfs.c:126-135 | opening puts the cursor and the offset at the start |
| `RamFs.File.constructor` | kernel/src/fs/type/ramfs.c:113-135 | a new file is empty with cursor and offset at its start |
| `RamFs.WriteRound` | kernel/src/fs/type/ramfs.c:86-111 | one round of the write loop, with or without a new chunk, is a splice of the flat string |
| `RamFs.ReadRound` | kernel/src/fs/type/ramfs.c:63-84 | one round of the read loop returns a slice of the flat string, and after a whole chunk the next chunk follows or the file ends |
| `RamFs.Advance` | kernel/src/fs/type/ramfs.c:105-105 | the cursor update of the write loop is the chunk of the new offset |
| `RamFs.ChunkWriteSplices` | kernel/src/fs/type/ramfs.c:50-61 | a chunk write splices the chunk's data |
| `RamFs.FlatReplace` | kernel/src/fs/type/ramfs.c:50-61 | splicing the data of one chunk splices the flat string |
| `RamFs.FlatAt` | kernel/src/fs/type/ramfs.c:42-47 | chunk `i` holds the bytes from 1024 times `i` |
| `RamFs.FlatLength` | kernel/src/fs/type/ramfs.c:49-61 | the length of the flat string is that of full chunks before the last plus what the last uses |
| `RamFs.SpliceTwice` | kernel/src/fs/type/ramfs.c:92-107 | two adjacent splices are one |
| `Paths.LookupUndoesGetcwd` | kernel/src/fs/vfs.c:339-460 | for every attached place of the tree with sane names and no stacked mount on the way to it: looking up its path returns the same mount and entry if and only if on the way no step is from something that is not a directory, no place is covered by a mount the way does not enter, and no step is to a child behind another of its bucket whose name continues its own |
| `Paths.LookupOfRoute` | kernel/src/fs/vfs.c:339-460 | the same for the path of any route from the root |
| `Paths.RestOfRoute` | kernel/src/fs/vfs.c:355-455 | the same from any place of the route for the rest of the path |
| `Paths.StepUp` | kernel/src/sched/syscall.c:610-620 | a step up from an attached place leads to an older mount or to a lesser depth, so the walks of `getcwd` end, and only the root has none |
| `Paths.RouteReaches` | kernel/src/sched/syscall.c:610-620 | the steps up from an attached place are a route: backwards they lead from the root to it |
| `Paths.OneRoute` | kernel/src/sched/syscall.c:610-620 | a place has one route at most |
| `Paths.ExtendRoute` | kernel/src/sched/syscall.c:610-620 | a step down extends a route |
| `Paths.OffRoute` | kernel/src/fs/vfs.c:366-441 | a lookup that has left the route never arrives at its end |
| `Paths.WalkFindsOrNot` | kernel/src/fs/vfs.c:355-460 | from an attached place, whatever the path, no check in a lookup fails: it finds an attached place or reports none |
| `Paths.SearchFinds` | kernel/src/fs/vfs.c:421-428 | a search for a child's name finds that child if and only if no earlier child of the bucket starts with the name |
| `Paths.ChildStep` | kernel/src/fs/vfs.c:361-428 | one segment of a route's path leads to the next place unless blocked, covered or shadowed |
| `Paths.CrossingFlag` | kernel/src/fs/vfs.c:366-373 | the mount the route enters is the one a lookup enters |
| `Paths.LastPlace` | kernel/src/fs/vfs.c:447-455 | the end of a lookup enters exactly one mount |
| `Paths.UpDirAttached` | kernel/src/fs/vfs.c:396-417 | the segment ".." fails no check below the root mount and stays below it |
| `RelativePaths.LookupThen` | kernel/src/fs/vfs.c:339-460 | from the place a path leads to, a relative path leads where the two paths together lead; so a lookup relative to a working directory is the lookup of its path with the relative one behind it |
| `RelativePaths.WalkThen` | kernel/src/fs/vfs.c:355-460 | looking up two paths in one is looking up the first and then, from where it leads, the second |
| `RelativePaths.LookupBelow` | kernel/src/fs/vfs.c:345-460 | from any place of a route, looking up the part of the path below it finds the last place if and only if nothing on the rest of the way is lost |
| `RelativePaths.DotDot` | kernel/src/fs/vfs.c:396-417 | `..` leads to the parent, from the root of a mount to the parent of where the mount sits, however many mounts are stacked, and from the root to itself |
| `RelativePaths.OffMountsExists` | kernel/src/fs/vfs.c:396-404 | from every attached place the way off its mounts ends at a place with a parent or at the root |
| `RelativePaths.DotStays` | kernel/src/fs/vfs.c:391-396 | `.` leads to the directory itself |
| `RelativePaths.DotSkipped` | kernel/src/fs/vfs.c:391-396 | the segment `.` in front of a path changes nothing |
| `RelativePaths.SlashSkipped` | kernel/src/fs/vfs.c:386-389 | an empty segment in front of a path changes nothing |
| `RelativePaths.OneName` | kernel/src/fs/vfs.c:419-441 | a name finds nothing if and only if no child of the bucket starts with it, and otherwise the first child that does |
| `Paths.KeyOfBoth` | kernel/inc/common/hash.h:39-47 | the key of a string is the product of the keys of its parts, modulo 2^32 |
| `Paths.KeyOfOne` | kernel/inc/common/hash.h:39-47 | the key of one byte is the byte as a signed number |
| `VfsRuns.EveryTree` | kernel/src/fs/vfs.c:36-221 | in every tree built from the root mount by allocating, creating file systems, linking and mounting in any order: the tree is in order, every attached place has a route, and the lookup of its path is decided as above |
| `VfsRuns.StepKeeps` | kernel/src/fs/vfs.c:36-221 | each of these operations keeps the tree in order |
| `VfsRuns.CoveredDirectory` | kernel/src/fs/vfs.c:447-455 | a tree built by a run in which a later mount made the path of a directory lead to the root of the mount |
| `VfsRuns.ShadowedDirectory` | kernel/src/fs/vfs.c:421-428 | a tree built by a run in which a later sibling made the path of a directory lead to the sibling |
| `VfsRuns.StackedMount` | kernel/src/sched/syscall.c:610-620 | a tree built by a run in which a mount sits on the root of a file system, so that `getcwd` falls off the tree there |
| `VfsTree.ActivateKeeps` | kernel/src/fs/vfs.c:95-102 | linking an unused entry below a linked one keeps the tree in order |
| `VfsTree.MountOverKeeps` | kernel/src/fs/vfs.c:204-221 | mounting on a directory without a mount keeps the tree in order |
| `VfsTree.NewDentryKeeps` | kernel/src/fs/vfs.c:36-46 | allocating an entry keeps the tree in order and leaves the entry unlinked |
| `VfsTree.NewFsKeeps` | kernel/src/fs/vfs.c:164-177 | creating a file system with its root keeps the tree in order |
| `VfsTree.NewMountKeeps` | kernel/src/fs/vfs.c:200-202 | creating a mount of a file system that is not mounted keeps the tree in order |
| `VfsTree.ChildUp` | kernel/src/fs/vfs.c:95-102 | down to a child and up again is where one was |
| `VfsTree.MountUp` | kernel/src/fs/vfs.c:138-155 | a flagged entry has a younger mount on it, and down into it and up again is where one was |
| `Vfs.FileSystem.GetCwd` | kernel/src/sched/syscall.c:605-652 | for every attached place: faults if and only if a mount on the way up sits on the root of a file system, refuses the buffer if and only if path and terminator do not fit, and else prints exactly the path, terminates it and leaves the rest of the buffer alone |
| `Vfs.FileSystem.PathLength` | kernel/src/sched/syscall.c:609-620 | for every attached place the first walk computes the length of the names on the way, or falls off the tree exactly if mounts are stacked |
| `Vfs.FileSystem.FillPath` | kernel/src/sched/syscall.c:633-649 | the second walk agrees with the first: it fills exactly the path and ends at position zero, so `BUG_ON(pos != 0)` cannot fire |
| `Vfs.FileSystem.PutSegment` | kernel/src/sched/syscall.c:642-645 | puts a separator and a name in front of what is already printed |
| `Vfs.FileSystem.LookupPath` | kernel/src/fs/vfs.c:339-460 | the loop computes the specified lookup for every path and start |
| `Vfs.FileSystem.SegmentEnd` | kernel/src/fs/vfs.c:375-380 | finds the end of the segment |
| `Vfs.FileSystem.UpTree` | kernel/src/fs/vfs.c:402-414 | the inner loop of ".." computes the specified step up |
| `Vfs.FileSystem.FindChild` | kernel/src/fs/vfs.c:422-428 | finds the first match in the hash chain |
| `Vfs.FileSystem.EnterSegment` | kernel/src/fs/vfs.c:389-441 | handles empty, ".", "..", cached and unknown segments as specified |
| `Vfs.FileSystem.DentryActivate` | kernel/src/fs/vfs.c:95-102 | without a parent changes nothing, else is the link step of a run: head of the parent's chain, tree in order |
| `Vfs.FileSystem.MountAdd` | kernel/src/fs/vfs.c:204-221 | succeeds if and only if the place is a directory without a mount; then a lookup that comes to it enters the new mount, and otherwise nothing changes |
| `Vfs.FileSystem.DentryAlloc` | kernel/src/fs/vfs.c:36-46 | is the allocation step of a run; the entry can be linked |
| `Vfs.FileSystem.FsCreate` | kernel/src/fs/vfs.c:164-177 | is the file system step of a run; the file system can be mounted |
| `Vfs.FileSystem.MountCreate` | kernel/src/fs/vfs.c:200-202 | makes a mount younger than all others that sits nowhere |
| `Vfs.FileSystem.MountFs` | kernel/src/fs/vfs.c:183-198 | is the mount step of a run and succeeds exactly as `vfs_mount_add` does; then a lookup that comes to the place enters the file system |
| `Vfs.FileSystem.constructor` | kernel/src/fs/vfs.c:590-597 | is the root tree from which runs start, and it is in order |
| `PageTables.MapPageSets` | kernel/src/arch/mmu.c:27-39 | with a table, or a frame other than zero to make one, mapping a page changes the entry of that page to the frame and no other entry |
| `PageTables.MapPageLost` | kernel/src/arch/mmu.c:27-39 | with a new table in frame zero no entry changes, so the page stays absent |
| `PageTables.MapPageApart` | kernel/src/arch/mmu.c:27-39 | mapping a user page in one address space changes no entry of another |
| `PageTables.MapOnlyOne` | kernel/src/arch/mmu.c:27-39 | mapping a user page changes no table of any other address space, and takes a new table from the allocator |
| `PageTables.MapPagePool` | kernel/src/arch/mmu.c:30-36 | after a mapping the frames left to the allocator hold no table and no contents, and the address space is in order |
| `PageTables.MapPageFrames` | kernel/src/arch/mmu.c:30-36 | a mapping takes at most one frame from the allocator, and makes frame zero a table exactly if it draws it for one |
| `PageTables.MappedUnlessTableInFrameZero` | kernel/inc/arch/mmu.h:102-107 | a mapping can be looked up afterwards if and only if its table existed or the new table is not in frame zero |
| `PageTables.TableInFrameZero` | kernel/src/arch/mmu.c:27-39 | an allocator that hands out frame zero first: the page just mapped is absent |
| `PageTables.ForkIsolates` | kernel/src/arch/mmu.c:62-77 | after the copy every user page of the parent but the lost one is in the child, with the parent's bytes, in a frame no page of the parent uses; the lost one is absent |
| `PageTables.CopyPresent` | kernel/src/arch/mmu.c:66-74 | copying one present page extends the copy by that page, or loses it if the frame drawn for its table is zero |
| `PageTables.CopiedLess` | kernel/src/arch/mmu.c:66-74 | where the frame drawn for a table is zero, the page is lost, none was lost before, and the copies made so far stay |
| `PageTables.CopyAbsent` | kernel/src/arch/mmu.c:66-74 | absent pages are passed over |
| `PageTables.NoTable` | kernel/src/arch/mmu.c:63-65 | a missing table means none of its pages is present |
| `PageTables.FillKeeps` | kernel/src/arch/mmu.c:68-70 | filling a new frame changes no mapping |
| `PageTables.ParentEntry` | kernel/src/arch/mmu.c:64-69 | the parent's entries and bytes do not change while the child is filled |
| `PageTables.Mmu.UserGetPage` | kernel/src/arch/mmu.c:17-25 | returns the frame of the flat map, zero if there is none |
| `PageTables.Mmu.UserMapPage` | kernel/src/arch/mmu.c:27-39 | computes the proved mapping; runs out of memory exactly without a table and without a frame |
| `PageTables.Mmu.UserMapPages` | kernel/src/arch/mmu.c:49-54 | unless the frames run out, maps exactly the given pages to consecutive frames and changes no other page, but for one page, which stays absent, exactly if frame zero is made a table |
| `PageTables.Mmu.CopyMem` | kernel/src/arch/mmu.c:62-77 | unless the frames run out, copies every present user page but for one, which stays absent, exactly if frame zero is made a table; in every case the parent and all other address spaces stay as they were |
| `PageTables.KernelSpace.MapPages` | kernel/src/arch/mmu.c:101-113 | maps consecutive frames at the next kernel pages and changes no older mapping |
| `PageTables.KernelSpace.MapOne` | kernel/src/arch/mmu.c:89-95 | maps the next kernel page and no other |
| `PageTables.KernelSpace.MappingInverts` | kernel/inc/arch/mmu.h:133-136 | `virt_to_phys` gives back the physical address of every byte of a mapping |
| `PageTables.KernelSpace.constructor` | kernel/src/arch/mmu.c:13-15 | every kernel page is absent and the first comes next |
| `PageTables.IndicesApart` | kernel/inc/arch/mmu.h:63-71 | directory and table index together determine the page |
| `AddressSpaces.EveryRun` | kernel/src/arch/mmu.c:27-77 | in every run of new address spaces, page gifts and forks, forks of forks and runs that lose a page included, from before there is any: no two address spaces share a user table, every mapped user page has contents, and no frame is mapped at two pages of one address space or of two |
| `AddressSpaces.CanFork` | kernel/src/arch/mmu.c:62-77 | in every such state any address space meets what `copy_mem` needs of parent and child |
| `AddressSpaces.ForkKeeps` | kernel/src/arch/mmu.c:62-77 | a fork keeps all address spaces apart, backed and private, whether it loses a page or not |
| `AddressSpaces.GiveKeeps` | kernel/src/arch/mmu.c:56-60 | giving an address space a page keeps all of them apart, backed and private, whether the page is lost or not |
| `AddressSpaces.OthersStay` | kernel/src/arch/mmu.c:27-77 | a step in one address space changes no entry of any other |
| `SlabCache.EveryRun` | kernel/src/mm/cache.c:51-168 | after every run of valid allocations and frees, `left` is the length of the acyclic free list of each page, pages are on the list for their `left`, any two objects in use lie apart, and each lies behind the free list of its page and inside it |
| `SlabCache.StepKeeps` | kernel/src/mm/cache.c:87-168 | every valid allocation and free keeps the cache in order |
| `SlabCache.SlabAllocKeeps` | kernel/src/mm/cache.c:74-79 | allocation takes the first index off the free list |
| `SlabCache.SlabFreeKeeps` | kernel/src/mm/cache.c:81-85 | freeing an index in use puts it first on the free list |
| `SlabCache.FollowFrame` | kernel/src/mm/cache.c:81-85 | writing an entry off the list does not change the list |
| `SlabCache.LeftBound` | kernel/src/mm/cache.c:74-79 | `left` is zero exactly if the free list has ended, so the check in allocation cannot fire |
| `SlabCache.FreshOk` | kernel/src/mm/cache.c:51-72 | a new page has all its objects on its free list |
| `SlabCache.ObjectInPage` | kernel/src/mm/cache.c:93-97 | every object lies behind header and free list, inside its page |
| `SlabCache.CapacityIsGreatest` | kernel/src/mm/cache.c:175-175 | no more objects would fit in a page |
| `SlabCache.AddrInverse` | kernel/src/mm/cache.c:122-165 | freeing recovers exactly the page and index that were handed out |
| `SlabCache.ObjectsDisjoint` | kernel/src/mm/cache.c:93-97 | different objects do not overlap |
| `SlabCache.TakeFromKeeps` | kernel/src/mm/cache.c:93-112 | allocation hands out an object not in use, leaves all others alone and moves the page to the right list |
| `SlabCache.GiveBackKeeps` | kernel/src/mm/cache.c:157-165 | freeing releases that object only and moves the page to the right list |
| `SlabCache.AddPageKeeps` | kernel/src/mm/cache.c:51-72 | a new page adds no object in use |
| `SlabCache.ObjectCache.Alloc` | kernel/src/mm/cache.c:87-120 | returns the address of an object that was not in use; exactly that object becomes used |
| `SlabCache.ObjectCache.Free` | kernel/src/mm/cache.c:126-168 | from the address alone releases exactly the object that was handed out |
| `SlabCache.ObjectCache.AllocPage` | kernel/src/mm/cache.c:51-72 | the loop builds the whole free list of a new page |
| `SlabCache.ObjectCache.constructor` | kernel/src/mm/cache.c:170-185 | a new cache has no object in use |
| `Arp.EveryPacketOnce` | kernel/src/net/ip/arp.c:134-207 | in every run each packet given to the resolver has been handed on exactly once or waits in the entry for its address, never both; while it waits and no resolve for its address is halfway, exactly one watchdog timer runs for the entry |
| `Arp.RequestsBounded` | kernel/src/net/ip/arp.c:75-104 | in every run a round sends at most `ARP_RETRYS` requests, and all rounds for an address at most `ARP_RETRYS` per packet given for it |
| `Arp.RightAddress` | kernel/src/net/ip/arp.c:161-205 | in every run a packet handed on with an address carries the one the cache holds for its destination |
| `Arp.FirstAnswerCounts` | kernel/src/net/ip/arp.c:116-207 | in every run the cache knows for an address exactly what its first answer said; every packet handed on with an address carries that one, and the next packet for it is handed on at once |
| `Arp.KnownMoves` | kernel/src/net/ip/arp.c:178-207 | a step makes an address known exactly if it stores the first answer for it |
| `Arp.RoundEnds` | kernel/src/net/ip/arp.c:75-104 | without an answer a round ends after the timers left in it: all waiting packets are handed on as unknown host, in order, and no timer runs |
| `Arp.AnswerDelivers` | kernel/src/net/ip/arp.c:178-207 | an answer hands on exactly the packets that wait for it, the last given first, and none waits any more |
| `Arp.TimerFires` | kernel/src/net/ip/arp.c:75-104 | a timer sends one more request or ends the round |
| `Arp.RoundStarts` | kernel/src/net/ip/arp.c:137-151 | the first packet for an unknown address starts a round with one request and one timer |
| `Arp.RoundRestarts` | kernel/src/net/ip/arp.c:165-175 | a packet for an unanswered address goes first in line, and sends a request if the round before has ended |
| `Arp.WatchdogKeeps` | kernel/src/net/ip/arp.c:75-104 | the watchdog leaves exactly one timer, or an idle entry with nothing waiting |
| `Arp.ResolveKeeps` | kernel/src/net/ip/arp.c:134-176 | resolving for a new, unresolved or resolved entry keeps the invariant |
| `Arp.CheckKeeps` | kernel/src/net/ip/arp.c:160-160 | the look at the retry count, after the entry lock was dropped and timers may have fired, keeps the invariant |
| `Arp.TimerKeeps` | kernel/src/net/ip/arp.c:75-104 | a timer, also one that fires in the middle of a resolve or after an answer, keeps the invariant |
| `Arp.StoreKeeps` | kernel/src/net/ip/arp.c:178-207 | storing an answer keeps the invariant |
| `Arp.StepKeeps` | kernel/src/net/ip/arp.c:66-207 | every step keeps the invariant |
| `Arp.RunKeeps` | kernel/src/net/ip/arp.c:66-207 | every run keeps the invariant |
| `RingBuffer.Ring.Write` | kernel/inc/common/ringbuff.h:158-173 | appends exactly as many bytes as fit, in order across the wrap |
| `RingBuffer.Ring.Read` | kernel/inc/common/ringbuff.h:141-156 | removes from the front exactly as many bytes as are wanted and there, in order across the wrap |
| `RingBuffer.Ring.WriteOnce` | kernel/inc/common/ringbuff.h:158-164 | appends up to the contiguous room, with its check proved |
| `RingBuffer.Ring.ReadOnce` | kernel/inc/common/ringbuff.h:141-147 | removes up to the contiguous data, with its check proved |
| `RingBuffer.Ring.IsFull` | kernel/inc/common/ringbuff.h:113-115 | answers true if and only if the buffer is full and the data does not start at the start of the storage |
| `RingBuffer.FullRingDenied` | kernel/inc/common/ringbuff.h:113-115 | a buffer for one byte with one byte in it, of which `ringbuff_is_full` says that it is not full |
| `RingBuffer.Ring.SpaceUsed` | kernel/inc/common/ringbuff.h:118-127 | the number of elements held, with its check proved |
| `RingBuffer.Ring.SpaceLeft` | kernel/inc/common/ringbuff.h:130-139 | the number of elements that fit, so used plus left is the capacity |
| `RingBuffer.Ring.constructor` | kernel/inc/common/ringbuff.h:45-50 | an empty buffer with room for `len` elements |
| `RingBuffer.Ring.RoomForChunk` | kernel/inc/common/ringbuff.h:79-86 | the contiguous room never exceeds the free room |
| `RingBuffer.WriteMoves` | kernel/inc/common/ringbuff.h:99-105 | copying to the back and advancing appends to the queue |
| `RingBuffer.ReadMoves` | kernel/inc/common/ringbuff.h:91-97 | advancing the front removes from the queue |
| `RootRamFs.LoadExactly` | kernel/src/fs/rootramfs.c:28-96 | whatever lies behind the image, the reader, which checks no bound, reconstructs a list of entries without reading behind the image and ends at its end if and only if the writer lays down that image for that list |
| `RootRamFs.TruncatedImage` | kernel/src/fs/rootramfs.c:28-57 | an image cut off inside a name: the reader takes bytes from behind it into the name, ends past the end and reports nothing, although no writer lays it down |
| `RootRamFs.LoadImage` | kernel/src/fs/rootramfs.c:86-96 | whatever lies behind it, the reader recovers every list of entries from its image and ends at its end |
| `RootRamFs.LoadsOnce` | kernel/src/fs/rootramfs.c:86-96 | the reader reconstructs at most one list of entries |
| `RootRamFs.LoadEncoded` | kernel/src/fs/rootramfs.c:92-95 | from any offset the reader recovers the entries laid down there |
| `RootRamFs.LoadedIsEncoded` | kernel/src/fs/rootramfs.c:92-95 | what the reader reconstructs from any offset without reading behind the image is what the writer would have written |
| `RootRamFs.ParseEncoded` | kernel/src/fs/rootramfs.c:28-77 | the reader sees at an offset exactly the record the writer put there and moves behind it |
| `RootRamFs.ParsedIsEncoded` | kernel/src/fs/rootramfs.c:28-77 | a record that lies inside the image is what the writer would have written for the entry the reader sees |
| `RootRamFs.RootRamFsLoad` | kernel/src/fs/rootramfs.c:86-96 | where the loop ends, it returns the entries that the reader reconstructs, or says which check failed |
| `RootRamFs.BuildAndLoad` | util/src/mkrootramfs.c:113-134 | the image built from a walk over a directory loads as the entries of the walk, in order, whatever lies behind it |
| `RootRamFs.WalkAt` | util/src/mkrootramfs.c:113-134 | every visited path below the input directory has its entry in the walk, in order: a file with its contents, or a directory, named by the part of the path below |
| `RootRamFs.BelowIs` | util/src/mkrootramfs.c:113-123 | the part below is what follows the first separator, and empty without one |
| `RootRamFs.Layout` | util/src/mkrootramfs.c:34-45 | a record byte by byte: type, little-endian length, name, and for a file little-endian length and contents |
| `RootRamFs.ImageWriter.BuildEntry` | util/src/mkrootramfs.c:113-134 | appends the record for what follows the first separator of the visited path, and nothing if that is empty |
| `RootRamFs.CreateDirs` | kernel/src/fs/rootramfs.c:38-54 | a path is created if and only if it is the name, or the part of it before a separator, and no NUL comes before its end; shorter ones come first, and the last is the name |
| `RootRamFs.ParentsFirst` | kernel/src/fs/rootramfs.c:38-54 | in any such list each directory comes after the directory that contains it |
| `RootRamFs.U32Inverse` | util/src/mkrootramfs.c:71-81 | a 32-bit number reads back as written |
| `RootRamFs.ReadU32Inverse` | kernel/src/fs/rootramfs.c:56-76 | the bytes of a number read are the bytes of the number written |
| `Checksum.FoldModulo` | kernel/src/net/ip/checksum.h:3-9 | folding preserves the sum modulo 65535, and only zero folds to zero |
| `Checksum.SumToChecksum` | kernel/src/net/ip/checksum.h:3-9 | the loop ends with the complement of the folded sum |
| `Checksum.ChecksumCompletes` | kernel/src/net/ip/checksum.h:3-9 | adding the checksum makes any sum fold to 0xFFFF |
| `Checksum.FilledVerifies` | kernel/src/net/ip/ip.c:40-45 | a block of words with its checksum filled into a zero field verifies in network byte order, as section 3.1 of RFC 791 asks, although the sum was taken in host order |
| `Checksum.SwapScales` | kernel/src/net/ip/ip.c:40-45 | the sum in network byte order is 256 times the sum in host order, modulo 65535 |
| `Checksum.IpBuild` | kernel/src/net/ip/ip.c:26-45 | every IPv4 header leaves with a checksum that verifies and no other word changed |
| `Checksum.TcpBuild` | kernel/src/net/ip/tcp.c:130-169 | every TCP segment with its pseudo-header, payload of any even or odd length that fits, verifies as section 3.1 of RFC 793 asks; the sum does not leave 32 bits |
| `Checksum.SegmentSum` | kernel/src/net/ip/tcp.c:141-167 | the sum taken field by field is the sum of the whole segment |
| `Checksum.OnTheWire` | kernel/src/net/ip/tcp.c:141-167 | the segment that is summed is, in network order, addresses, protocol 6, length, header and payload, with an odd last byte padded by zero |
| `Checksum.SegmentOk` | kernel/src/net/ip/tcp.c:141-167 | the words of a segment are 16-bit and their sum fits 32 bits |
| `Division.UDivDI3` | kernel/src/lib/math.c:11-32 | the two loops end and return the quotient for every 64-bit dividend and non-zero divisor, top bit set or not |
| `Division.QuotientIs` | kernel/src/lib/math.c:11-32 | a remainder below the divisor fixes the quotient |

## Left out

- Drivers, interrupt and processor bring-up, system call plumbing, user programs: device behaviour is not in the sources.
- Locks inside the sequential models (page allocator, slab cache, ramfs, ring buffer, file system tree): each locked region is one step.
- Page allocator: the mapping of new pages, `compound_num`, zeroing, and the search for free memory at start-up; `pages_in_use` is set to zero once after start-up, which shifts the conserved sum by a constant. A request for zero pages takes the logarithm of zero and has no defined result.
- Scheduler: the counters `tasks_going` and `thread_count`, and the per-thread locks; steps are the regions under the scheduler lock, with a switch in three steps.
- Ticket lock: the per-processor list of held locks and its count, which are for debugging.
- Semaphores: progress of several downing threads, since a woken thread has no claim on its token; `Ktaskd` proves it for one.
- Waiting.EveryRun: wakes that come from elsewhere than a semaphore are taken to be aimed, as `Scheduler.EveryRun` needs.
- Ktaskd.AllServed: assumes that requesters have stopped, since requests are served last in, first out and an old one can wait as long as new ones come.
- ramfs: several handles that grow one file, and sizes beyond 32 bits; chunk buffers are sequences rather than arrays.
- Slab cache: the size classes of `kmalloc` and the search for the page in the debugging build of `cache_free`.
- Address spaces: the allocation of address spaces themselves, and flags other than present, writable and user; the pages that `copy_mem` obtains come from a list of unused frames.
- PageTables.Mmu.CopyMem: says nothing of which pages the child has when the frames run out, where the source panics.
- PageTables.Mmu.UserMapPages: says nothing of which pages are mapped when the frames run out, where the source panics.
- PageTables.KernelSpace.MapPages: a request past the end of the kernel window, which the source does not refuse and which would write behind the last table.
- AddressSpaces: frames are not given back, and mappings of frames that did not come from the allocator are not steps.
- AddressSpaces.GiveKeeps: is about a page of the address space it names; `user_alloc_page` (kernel/src/arch/mmu.c:58) maps into the current thread's whatever thread it is given, and its callers give it the current one.
- AddressSpaces.EveryRun: is about user pages; neither `user_alloc_page` nor the `alloc_page` system call (kernel/src/sched/syscall.c:370-373) checks that the page is one, and a page of the kernel window goes into a table all address spaces share.
- Paths: `vfs_create`, unmounting, and path lengths beyond 32 bits.
- VfsRuns.EveryTree: a file system is mounted at most once and by `vfs_do_mount`, as everywhere in the kernel.
- Vfs.FileSystem.MountCreate: needs a file system that is not mounted yet; the source would also make a second mount of one, which no caller asks for.
- Vfs.FileSystem.MountFs: needs a file system that is not mounted yet, for the same reason.
- Paths.LookupUndoesGetcwd: is about routes whose names are not empty, not "." or "..", and have no separator in them; other names cannot be told from path syntax.
- Vfs.FileSystem.LookupPath: asking the file system driver for a name without an entry always finds nothing, as in both file systems of the kernel.
- ARP: the contents of request and reply packets, the interface a packet leaves by, and the pacing of timers; packets are identities, and each is given to the resolver once. Sending a packet releases it while the list of waiting packets is still walked; here the list is handed on in one piece.
- Ktaskd: a request is an identity, and there are never 2^32 of them at a time, since each takes memory.
- Root image: the writer's buffer of 100 MB and failing reads of input files; the creation of the files themselves is `vfs_create`. Names and files too big for memory make the reader panic in the allocator, which is not part of this model; offsets wrap at 32 bits, and a loop that never ends is not followed.
- RootRamFs.WalkAt: the visits are to files and directories; the writer passes over anything else.
- RootRamFs.RootRamFsLoad: needs a bound on the number of records, for its termination; every image a writer lays down has one.
- Checksums: the checksums of UDP and ICMP, and the other fields of headers.
- TCP connections, UDP ports, DHCP, timers, consoles, partition labels, formatted printing: mostly single-branch code, or no invariant that holds.
