# Pintos kernel, verified model

A Dafny model of the core of the Pintos teaching kernel: threads and synchronization, memory
allocation, the file system, page tables and program loading, 64-bit division, formatting,
archive headers, sorting, and the queues of the device drivers. Code that updates its state
step by step is modelled by classes and methods with loops (`Kernel`, `Condition`, `Palloc`,
`Allocator`, `HeapSort`, `IntQueue`, `Mlfqs`, `Stdio`, `Ustar`, `Inode`, `OpenFile`, `Directory`,
`FileSystem`, `PageDir`, `ElfLoad`); each method is proved to compute a function of the state
before it, and the properties are proved about those functions, over every step and every run.

How the parts fit together:

- **Threads.** `ThreadState` specifies every primitive, `ThreadInvariants` and `ThreadSteps` prove
  what each keeps, `ThreadRuns` has the theorems over runs. Each primitive is one step, in strict
  priority order (`thread_mlfqs` false); interrupts come between steps, and a thread woken inside
  `sema_down` takes its next pass of the loop when it runs again. `held` and `base` of a thread
  and `initial`, `ups` and `downs` of a semaphore are history that the theorems speak about. What
  the kernel asserts of the arguments of a primitive is the condition for the step; a thread does
  not exit while it holds a lock.
- **Condition variables.** A call of `cond_wait` takes several steps: up to the return of
  `lock_release`, `sema_down`, and `lock_acquire`. `cond_broadcast` is a series of `cond_signal`
  steps. Runs in these modules are those in which the list comparison does not panic;
  `ConditionPanic` says exactly when it does, and gives a run from boot that gets there.
- **Memory.** `Bitmap` and `Palloc` hand out pages; `MallocState`, `MallocSteps` and `MallocRuns`
  specify arenas, free lists and blocks, and `Allocator` is the code. Memory is a sequence of bytes,
  so that what one call does to the contents of another block is part of the theorems.
- **Files.** `Inode` reads and writes bytes through 512-byte sectors, `Directory` keeps names in
  slots of the bytes of a directory, and `FileSysState`, `FileSysSteps`, `FileSysRuns` and `FileSystem`
  have the table of open inodes, the free map and the operations on names. Which allocations fail
  is a parameter (`Luck`, `memory`).
- **Paging.** `PageDir` has the two-level table of words, with bit masks as in `Pte`, and the cache
  of translations of the processor; `ElfLoad` loads a segment through it.
- **Witnesses.** `Scenario` is a short run from boot that `Priorities` and `ConditionPanic` continue to
  states in which a promise fails; `NiceRuns` follows the feedback arithmetic second by second.
- The other modules stand alone.

Where the code does not do what its documentation promises, the code is modelled as it is and the
exact condition is proved:

- `donation` assigns the donor's priority even to a holder that has more (`DonationRaises`,
  `DonationLowers`).
- `thread_set_priority` above a donated priority is forgotten (`SetPriorityIsRestored`,
  `PriorityIsForgotten`).
- A bare `thread_unblock` leaves a thread of higher priority waiting until some later step
  compares the two (`RunPreempts`).
- `cond_wait` can panic on the empty list of a waiter that was preempted before it went down
  (`PanicsWhen`, `CondWaitCanPanic`).
- `malloc` of a size that wraps around with its header returns too small a block
  (`MallocIsLargeEnough`, `ShortBlock`), and `realloc` to such a size is right only for small
  blocks (`ReallocCopies`).
- `umod64` and `smod64` return 32 bits (`Umod64`, `UnsignedExactFor`, `Smod64`, `SignedExactFor`);
  INT64_MIN / -1 wraps (`Sdiv64`).
- Two threads on one interrupt queue can fail the assertion of `wait`, one reader and one writer
  included (`TwoThreadsCanPanic`, `ReaderAndWriterCanPanic`).
- `thread_set_nice` stores the value before it is clamped (`NiceIsExact`); `thread_get_recent_cpu`
  overflows before recent_cpu does (`HundredfoldFits`), as it does for a thread that
  33 others keep from running (`StarvedOverflows`, `StarvedFits`).
- A failing `dir_add` loses the data sectors of the new file (`CreateLosesSpace`, `LosesOnce`).
- `ustar_make_header` accepts a negative size, which `ustar_parse_header` refuses (`RoundTrip`).

## Model

| member | source | states |
|---|---|---|
| ThreadRuns.RunKeeps | prj1/pintos/src/threads/thread.c:620-701 | in every state of every run of thread, semaphore, lock, sleep and interrupt steps: the ready list is sorted by priority; each thread is on exactly the one list that its status dictates; semaphore values are initial plus ups minus downs; each lock is held by at most one thread; donor lists hold exactly the threads whose wait_lock leads to the holder, each once; no sleeper is overdue |
| ThreadRuns.StepKeeps | prj1/pintos/src/threads/thread.c:320-410 | the same for one step; after it a ready thread outranks the running one if and only if the step is a bare thread_unblock of a thread of higher priority, or it was so before and the step does not restore the order |
| ThreadRuns.RunPreempts | prj1/pintos/src/threads/thread.c:729-757 | in every state of every run: a ready thread outranks the running one if and only if some bare thread_unblock of a thread that outranked it was not followed by any step that gives up the processor or compares the two |
| ThreadRuns.BootKeeps | prj1/pintos/src/threads/thread.c:575-600 | the state after boot is in order |
| ThreadRuns.SleepsExactly | prj1/pintos/src/devices/timer.c:93-109 | a thread that calls timer_sleep(n) at tick k sleeps untouched in every later state until the interrupt of tick k + n, which ups its semaphore exactly once |
| ThreadRuns.DonationRaises | prj1/pintos/src/threads/thread.c:760-788 | donation gives the holders along the chain, between one and ten, exactly the donor's priority, changes nobody else's, keeps the ready list a sorted permutation, and lowers nobody if and only if no visited holder had more |
| ThreadRuns.DonationsAreReturned | prj1/pintos/src/threads/thread.c:791-832 | over any run in which a thread does not set its own priority: whatever was donated to it in between, without donors it has the priority that it had before |
| ThreadRuns.BaseStep | prj1/pintos/src/threads/thread.c:791-832 | no step changes the base priority of a thread but thread_set_priority that of its caller |
| ThreadRuns.SetPriorityIsRestored | prj1/pintos/src/threads/thread.c:430-454 | over every run: a thread sets its priority to p and not again, and later nobody donates to it. Then it has priority p if and only if, at the call, nobody donated to it, or p did not exceed its priority, or p was the saved one |
| ThreadRuns.LockSum | prj1/pintos/src/threads/synch.c:202-260 | the value of a lock's semaphore plus the number of threads between acquiring and releasing it is one |
| ThreadInvariants.WokenIsMaximal | prj1/pintos/src/threads/synch.c:113-131 | the thread that sema_up wakes is a waiter, no other waiter outranks it, and no other thread changes |
| ThreadInvariants.VisitedIsShort | prj1/pintos/src/threads/thread.c:760-788 | the walk of donation stops after ten holders at most, on cyclic chains too |
| ThreadInvariants.DonateFromEffect | prj1/pintos/src/threads/thread.c:776-784 | every visited holder, and nobody else, gets the donor's priority |
| ThreadInvariants.ScheduleKeeps | prj1/pintos/src/threads/thread.c:620-701 | after a switch the invariant holds again and no ready thread outranks the new running one |
| ThreadInvariants.DonationKeeps | prj1/pintos/src/threads/thread.c:760-788 | donation keeps the donor lists and base priorities in order |
| ThreadInvariants.LetGoEffect | prj1/pintos/src/threads/synch.c:247-260 | releasing a lock clears exactly the wait_locks for it and drops exactly those donors |
| ThreadSteps.TimerStepKeeps | prj1/pintos/src/threads/interrupt.c:344-389 | a timer interrupt with its deferred yield keeps the invariant and the order of preemption |
| ThreadSteps.TimerStepAlarms | prj1/pintos/src/devices/timer.c:183-203 | a timer interrupt ups the semaphore of a sleeper if and only if its tick has come, and exactly those leave the sleep list |
| ThreadSteps.LockAcquireKeeps | prj1/pintos/src/threads/synch.c:202-217 | lock_acquire, waiting or not, keeps the invariant |
| ThreadSteps.LockReleaseKeeps | prj1/pintos/src/threads/synch.c:247-260 | lock_release keeps the invariant and leaves nobody outranking the running thread |
| ThreadSteps.SleepKeeps | prj1/pintos/src/devices/timer.c:93-109 | after timer_sleep the caller is last on the sleep list with the tick it asked for |
| Kernel.Scheduler.NextThreadToRun | prj1/pintos/src/threads/thread.c:620-631 | the front of the ready list leaves it and runs next, or the idle thread does |
| Kernel.Scheduler.RunSchedule | prj1/pintos/src/threads/thread.c:650-701 | the scheduler state after the switch is the one specified |
| Kernel.Scheduler.ThreadBlock | prj1/pintos/src/threads/thread.c:302-310 | likewise for thread_block |
| Kernel.Scheduler.ThreadUnblock | prj1/pintos/src/threads/thread.c:320-335 | likewise for thread_unblock |
| Kernel.Scheduler.ThreadYield | prj1/pintos/src/threads/thread.c:393-410 | likewise for thread_yield |
| Kernel.Scheduler.ThreadExit | prj1/pintos/src/threads/thread.c:372-389 | likewise for thread_exit |
| Kernel.Scheduler.ThreadSuperYield | prj1/pintos/src/threads/thread.c:729-757 | yields now, or on return from the interrupt, exactly if a ready thread outranks the running one |
| Kernel.Scheduler.ThreadSetPriority | prj1/pintos/src/threads/thread.c:430-454 | priority, saved priority and yield as specified for each branch |
| Kernel.Scheduler.ThreadCreate | prj1/pintos/src/threads/thread.c:245-294 | the new thread is ready with its priority, and preempts if it outranks the caller; without memory nothing changes |
| Kernel.Scheduler.RaiseHolders | prj1/pintos/src/threads/thread.c:776-784 | the loop over the chain of holders is the recursive specification of the donation |
| Kernel.Scheduler.Donate | prj1/pintos/src/threads/thread.c:760-788 | likewise for donation, with the donor record and the sort |
| Kernel.Scheduler.DropDonors | prj1/pintos/src/threads/thread.c:799-814 | the loop that removes donors while it walks their list removes exactly those that wait for the lock |
| Kernel.Scheduler.GiveBack | prj1/pintos/src/threads/thread.c:791-832 | likewise for donation_back |
| Kernel.Scheduler.DownPass | prj1/pintos/src/threads/synch.c:61-81 | one pass of sema_down: the caller waits in priority order, or takes a unit and, for a lock, becomes its holder |
| Kernel.Scheduler.TryDown | prj1/pintos/src/threads/synch.c:88-107 | takes a unit exactly if there is one |
| Kernel.Scheduler.WakeFront | prj1/pintos/src/threads/synch.c:113-131 | the front of the sorted waiters becomes ready and the value goes up |
| Kernel.Scheduler.Up | prj1/pintos/src/threads/synch.c:113-131 | likewise for sema_up with its yield |
| Kernel.Scheduler.Acquire | prj1/pintos/src/threads/synch.c:202-217 | lock_acquire up to where it waits or returns |
| Kernel.Scheduler.TryAcquire | prj1/pintos/src/threads/synch.c:228-240 | lock_try_acquire |
| Kernel.Scheduler.Release | prj1/pintos/src/threads/synch.c:247-260 | lock_release |
| Kernel.Scheduler.TimerSleep | prj1/pintos/src/devices/timer.c:93-109 | timer_sleep up to where it waits |
| Kernel.Scheduler.WakeDue | prj1/pintos/src/devices/timer.c:183-203 | the loop that removes from the sleep list while it walks it wakes exactly the sleepers that are due |
| Kernel.Scheduler.OnTimer | prj1/pintos/src/threads/interrupt.c:344-389 | the whole timer interrupt, with time slice and deferred yield |
| Kernel.Scheduler.OnDevice | prj1/pintos/src/threads/interrupt.c:344-389 | an interrupt of a device that ups a semaphore |
| Priorities.PriorityIsForgotten | prj1/pintos/src/threads/thread.c:430-454 | a run from boot in which a thread sets priority 50 above a donated 40, and after the release has 31 |
| Priorities.DonationLowers | prj1/pintos/src/threads/thread.c:776-784 | a run from boot to a state in which donation lowers a holder from 50 to 40 |
| Condition.SortedFront | prj1/pintos/src/threads/synch.c:399-420 | cond_signal picks the first of the waiters that no other comes before |
| Condition.ConditionVariable.InsertInOrder | prj1/pintos/src/threads/synch.c:326-331 | the insertion in priority order, and whether its comparison panics |
| Condition.ConditionVariable.Begin | prj1/pintos/src/threads/synch.c:314-332 | cond_wait until lock_release returns: the new semaphore is in the list and the lock is released |
| Condition.ConditionVariable.Wakeup | prj1/pintos/src/threads/synch.c:346-361 | cond_signal: the front of the sorted waiters leaves the list and its semaphore is upped |
| ConditionSteps.NextLeaves | prj1/pintos/src/threads/synch.c:61-131 | a primitive that does not name a semaphore, nor resume on it, leaves it, and every thread but its caller stays where it was in its code |
| ConditionRuns.CondRunKeeps | prj1/pintos/src/threads/synch.c:314-361 | in every state of every run from a state in order, each call of cond_wait is in the list of its condition variable with its semaphore at zero, or off it and upped exactly once |
| ConditionRuns.StartKeeps | prj1/pintos/src/threads/synch.c:286-292 | the state after boot, without condition variables, is in order, so runs may begin there |
| ConditionRuns.NoSignalLost | prj1/pintos/src/threads/synch.c:314-361 | a thread blocked in cond_wait is still in the list, so a signalled one never stays blocked; one that is in the list has not gone through |
| ConditionRuns.ReturnsWithLock | prj1/pintos/src/threads/synch.c:332-335 | when cond_wait returns its caller holds the lock and was signalled exactly once |
| ConditionRuns.ComesBack | prj1/pintos/src/threads/synch.c:332-335 | the assertion of lock_acquire that the caller does not hold the lock cannot fail in cond_wait |
| ConditionRuns.SignalWakesBest | prj1/pintos/src/threads/synch.c:346-361 | cond_signal takes exactly one call off the list; if any thread is blocked for one, the one taken was blocked and no other blocked one outranks it |
| ConditionPanic.PanicsWhen | prj1/pintos/src/threads/synch.c:384-396 | cond_wait panics if and only if its walk of the list reaches a call whose thread has not gone down on its semaphore yet: the comparison takes the front of an empty list |
| ConditionPanic.CondWaitCanPanic | prj1/pintos/src/threads/synch.c:314-335 | a run of two threads from boot in which it does |
| Bitmap.Scan | prj1/pintos/src/lib/kernel/bitmap.c:295-310 | the first group of clear bits of that length, or none if there is none |
| Bitmap.FindClear | prj1/pintos/src/lib/kernel/bitmap.c:295-310 | the loop finds it |
| Bitmap.TakeTiles | prj1/pintos/src/lib/kernel/bitmap.c:319-326 | taking a clear group adds it to the groups that tile the set bits exactly |
| Bitmap.ReleaseTiles | prj1/pintos/src/lib/kernel/bitmap.c:217-228 | releasing a group leaves all others, and all its bits were set |
| Palloc.InitPoolsApart | prj1/pintos/src/threads/palloc.c:45-62 | kernel and user pool are disjoint, within memory and all free, and the bitmap of each, header included, fits in front of its pages; init_pool panics if and only if memory has fewer than two pages or the user pool is limited to none |
| Palloc.Pools.GetMultiple | prj1/pintos/src/threads/palloc.c:70-101 | exactly one new group of pages is taken, the lowest that was free, and the other pool is untouched |
| Palloc.Pools.FreeMultiple | prj1/pintos/src/threads/palloc.c:117-142 | exactly that group is given back to the pool it came from, and the assertion that all its pages were in use holds |
| MallocState.BlockPlace | prj1/pintos/src/threads/malloc.c:285-294 | the address of a block of an arena leads back to its page and index, and the block ends within the page |
| MallocState.BlockBack | prj1/pintos/src/threads/malloc.c:267-282 | every pointer to a block of its arena is the address of exactly the block at its index |
| MallocState.AcceptedBlocks | prj1/pintos/src/threads/malloc.c:267-282 | the blocks are exactly the pointers that the assertions accept and that end within the page; offset 4092 is accepted for blocks of 16 bytes and is none |
| MallocRuns.RunKeeps | prj1/pintos/src/threads/malloc.c:89-264 | the heap is in order after every call of every run: free lists hold exactly the blocks that are not live, free_cnt counts them, no small arena is entirely free, and the pages in use are exactly those of the arenas |
| MallocRuns.RunFromBoot | prj1/pintos/src/threads/malloc.c:71-85 | the same for every run that begins with an empty pool |
| MallocRuns.RunLeaves | prj1/pintos/src/threads/malloc.c:89-264 | while no call addresses a live block, it keeps its place, size and every byte |
| MallocRuns.LiveBlocks | prj1/pintos/src/threads/malloc.c:89-154 | live blocks are disjoint from each other, from free blocks and from all headers, at least as large as requested, and on pages in use |
| MallocRuns.MallocKeeps | prj1/pintos/src/threads/malloc.c:89-154 | for every 32-bit size malloc gives one new block or leaves all as it was |
| MallocRuns.MallocFails | prj1/pintos/src/threads/malloc.c:89-154 | malloc returns null if and only if the size is zero or the pages it needs are not free in one piece |
| MallocRuns.MallocIsLargeEnough | prj1/pintos/src/threads/malloc.c:105-120 | in 32-bit arithmetic the block is large enough if and only if size plus header does not wrap around |
| MallocRuns.ShortBlock | prj1/pintos/src/threads/malloc.c:105-120 | on any pool that is not empty, a request of 0xFFFFFFFF bytes is given one page |
| MallocRuns.FreeLeaves | prj1/pintos/src/threads/malloc.c:218-264 | free ends the life of exactly that block and touches no other |
| MallocRuns.ReallocKeeps | prj1/pintos/src/threads/malloc.c:194-214 | realloc keeps the contents up to the smaller size, or on failure changes nothing, for every size for which its copy fits the new block |
| MallocRuns.ReallocCopies | prj1/pintos/src/threads/malloc.c:204-212 | the copy fits the new block if and only if the size does not wrap around with the header or the old block is no larger than one page holds |
| MallocRuns.AllFreed | prj1/pintos/src/threads/malloc.c:218-264 | when all blocks are freed there is no arena, no free block, and no page in use |
| MallocRuns.NoEmptyArena | prj1/pintos/src/threads/malloc.c:241-253 | every arena has a live block |
| MallocRuns.PageCountFits | prj1/pintos/src/threads/malloc.c:105-120 | when the page count is large enough in 32-bit arithmetic |
| MallocSteps.PopKeeps | prj1/pintos/src/threads/malloc.c:148-153 | taking the front of a free list keeps the heap in order |
| MallocSteps.NewArenaKeeps | prj1/pintos/src/threads/malloc.c:124-146 | carving a new page keeps the heap in order, but for the arena that is still all free |
| MallocSteps.PushKeeps | prj1/pintos/src/threads/malloc.c:228-242 | putting a block back keeps it in order, but for the arena that may now be all free |
| MallocSteps.NobodyLives | prj1/pintos/src/threads/malloc.c:241-253 | an arena whose free_cnt is full has no live block |
| MallocSteps.DismantleKeeps | prj1/pintos/src/threads/malloc.c:241-253 | dismantling it puts the heap in order |
| MallocSteps.TakeBigKeeps | prj1/pintos/src/threads/malloc.c:105-120 | a block of whole pages keeps the heap in order |
| MallocSteps.DropBigKeeps | prj1/pintos/src/threads/malloc.c:257-262 | so does freeing it |
| Allocator.Heaps.constructor | prj1/pintos/src/threads/malloc.c:71-85 | the seven descriptors with their block sizes and empty lists |
| Allocator.Heaps.FindDesc | prj1/pintos/src/threads/malloc.c:100-104 | the loop finds the smallest descriptor that is large enough |
| Allocator.Heaps.Carve | prj1/pintos/src/threads/malloc.c:137-145 | the loop appends all blocks of the arena to the free list |
| Allocator.Heaps.Alloc | prj1/pintos/src/threads/malloc.c:89-154 | the heap after malloc is the one specified |
| Allocator.Heaps.Uncarve | prj1/pintos/src/threads/malloc.c:245-251 | the loop takes exactly the blocks of the arena off the free list |
| Allocator.Heaps.Release | prj1/pintos/src/threads/malloc.c:218-264 | the heap after free is the one specified |
| Allocator.Heaps.Resize | prj1/pintos/src/threads/malloc.c:194-214 | the heap after realloc is the one specified |
| Arithmetic.Nlz | prj1/pintos/src/lib/arithmetic.c:41-73 | the shift that brings the highest set bit to the top |
| Arithmetic.ErrorIsSmall | prj1/pintos/src/lib/arithmetic.c:115-126 | the error of the truncated divisor, times n, is less than the product of true and truncated divisor |
| Arithmetic.EstimateBound | prj1/pintos/src/lib/arithmetic.c:115-126 | a divisor that close gives the quotient or one more |
| Arithmetic.EstimateQuotient | prj1/pintos/src/lib/arithmetic.c:115-126 | the wide branch computes the quotient or one more, and its divide does not trap |
| Arithmetic.NarrowQuotient | prj1/pintos/src/lib/arithmetic.c:80-112 | the narrow branch: two divides that cannot trap give the quotient |
| Arithmetic.Correct | prj1/pintos/src/lib/arithmetic.c:115-126 | the final comparison tells which of the two estimates it is |
| Arithmetic.Udiv64 | prj1/pintos/src/lib/arithmetic.c:77-127 | for all n and all d but zero: the floor of n / d, and no divide traps |
| Arithmetic.Umod64 | prj1/pintos/src/lib/arithmetic.c:131-135 | the result is the remainder if and only if it fits in 32 bits |
| Arithmetic.UnsignedExactFor | prj1/pintos/src/lib/arithmetic.c:131-135 | umod64 is exact for every dividend if and only if the divisor is at most 2^32; 2^32 modulo 2^32 + 1 comes out as zero |
| Arithmetic.TruncatedIs | prj1/pintos/src/lib/arithmetic.c:139-146 | the quotient toward zero is the only one whose remainder is smaller than d and has the sign of n |
| Arithmetic.Sdiv64 | prj1/pintos/src/lib/arithmetic.c:139-146 | truncates toward zero if and only if it is not INT64_MIN / -1 |
| Arithmetic.Smod64 | prj1/pintos/src/lib/arithmetic.c:150-154 | the result is the signed remainder if and only if it fits in 32 bits |
| Arithmetic.SignedExactFor | prj1/pintos/src/lib/arithmetic.c:150-154 | smod64 is exact for every dividend if and only if the divisor has magnitude 2^31 at most; 2^31 modulo 2^31 + 1 comes out negative |
| HeapSort.FloatDown | prj1/pintos/src/lib/stdlib.c:96-123 | one round of heapify moves the only violation of the heap order to the larger child |
| HeapSort.RootIsMax | prj1/pintos/src/lib/stdlib.c:131-152 | the root of a heap is its maximum |
| HeapSort.Heapify | prj1/pintos/src/lib/stdlib.c:96-123 | below the start position everything is a heap again, a permutation, and elements outside stay |
| HeapSort.TakeRoot | prj1/pintos/src/lib/stdlib.c:131-152 | swapping the root behind the heap leaves all heap elements at most the sorted ones |
| HeapSort.Sort | prj1/pintos/src/lib/stdlib.c:131-152 | for any total preorder: sorted, and a permutation of the input |
| HeapSort.BinarySearch | prj1/pintos/src/lib/stdlib.c:184-207 | a matching element, and none only if there is none |
| IntQueue.RingBounds | prj1/pintos/src/devices/intq.c:20-32 | the ring holds 63 bytes at most, and the tests for empty and full are right |
| IntQueue.TakeRemovesOldest | prj1/pintos/src/devices/intq.c:37-55 | taking a byte takes the oldest |
| IntQueue.AddAppends | prj1/pintos/src/devices/intq.c:60-75 | adding a byte adds it at the end |
| IntQueue.RunRefines | prj1/pintos/src/devices/intq.c:37-114 | over every run the ring is a queue, a recorded not_empty waiter means empty, and a recorded not_full waiter means full: no wake-up is lost |
| IntQueue.OneThreadIsSafe | prj1/pintos/src/devices/intq.c:86-95 | with one thread, and interrupts on the other side, the assertions of wait never fail |
| IntQueue.TwoThreadsCanPanic | prj1/pintos/src/devices/intq.c:86-95 | with two threads or more a run exists in which one does |
| IntQueue.ReaderAndWriterCanPanic | prj1/pintos/src/devices/intq.c:60-95 | so does one with one thread that only reads and one that only writes, and no interrupts |
| IntQueue.Intq.Getc | prj1/pintos/src/devices/intq.c:37-55 | one pass of intq_getc: the oldest byte, or the thread is recorded as waiting |
| IntQueue.Intq.Putc | prj1/pintos/src/devices/intq.c:60-75 | one pass of intq_putc |
| Mlfqs.LoadAvgBounded | prj1/pintos/src/threads/thread.c:846-858 | the load average stays in 0..r, without overflow |
| Mlfqs.Settles | prj1/pintos/src/threads/thread.c:835-843 | one update brings recent_cpu back from its peak to 240r + 20 at most |
| Mlfqs.RecentCpuBounded | prj1/pintos/src/threads/thread.c:835-843 | the update of recent_cpu does not overflow |
| Mlfqs.RunBounded | prj1/pintos/src/threads/thread.c:148-202 | forever, with at most r <= 545 threads ready or running and nice in -120..20, which includes the documented range: 0 <= load_avg <= r and |recent_cpu| <= 240r + 120 |
| Mlfqs.RunIsExact | prj1/pintos/src/threads/thread.c:148-202 | in no such run with nice in -20..20 does either formula overflow or divide by zero |
| Mlfqs.RoundsToNearest | prj1/pintos/src/threads/fixed-point.h:32-98 | conversion to integer rounds to nearest |
| Mlfqs.HundredfoldFits | prj1/pintos/src/threads/thread.c:490-501 | a hundred times load_avg never overflows; a hundred times recent_cpu does exactly from 21474837 on |
| Mlfqs.Accounting.Tick | prj1/pintos/src/threads/thread.c:148-202 | the tick in place computes the specified state |
| NiceRuns.NiceIsExact | prj1/pintos/src/threads/thread.c:464-480 | nice is stored before it is clamped; with one thread ready at a time, every run that passes this value alone to thread_set_nice keeps |recent_cpu| <= 360 if and only if the value, in fixed point, is between -120 and 20 |
| NiceRuns.NiceEscapes | prj1/pintos/src/threads/thread.c:464-480 | for every other value: a run from boot, tick by tick, that leaves the bound |
| NiceRuns.NiceOutOfRange | prj1/pintos/src/threads/thread.c:464-480 | the values 1000, 21 and -121 leave the bound, 20 and -120 do not |
| NiceRuns.Climbs | prj1/pintos/src/threads/thread.c:835-858 | once the load average has settled, a thread that always runs gains recent_cpu every second until it passes the limit given |
| NiceRuns.StarvedOverflows | prj1/pintos/src/threads/thread.c:148-202 | in every run from boot: while a thread with a nice value of 20 does not run and 33 others are ready or running, in any order, there comes a second from which on a hundred times its recent_cpu never fits in an int |
| NiceRuns.StarvedFits | prj1/pintos/src/threads/thread.c:148-202 | with 32 or fewer ready it always fits, from any state with |recent_cpu| at most 1300 on: 33 is exact |
| NiceRuns.CrowdRuns | prj1/pintos/src/threads/thread.c:148-202 | for every order in which the 33 others run there is such a run from boot |
| Stdio.DigitsDenote | prj1/pintos/src/lib/stdio.c:501-513 | the digits, with their commas, denote the value |
| Stdio.FormatDenotes | prj1/pintos/src/lib/stdio.c:469-547 | for every value, base, width, precision and flags: sign, prefix, commas and padding removed, the output denotes the value, and it is at least as wide as asked |
| Stdio.DigitsFit | prj1/pintos/src/lib/stdio.c:501-513 | a value of n octal digits takes at most 2n characters |
| Stdio.PutDigits | prj1/pintos/src/lib/stdio.c:501-513 | the digit loop stays within the 64-byte buffer: 44 characters at most |
| Stdio.PutZeros | prj1/pintos/src/lib/stdio.c:515-524 | so do the zeros for the precision |
| Stdio.FormatInteger | prj1/pintos/src/lib/stdio.c:469-547 | the loops over the buffer output exactly that |
| Stdio.Sink.Put | prj1/pintos/src/lib/stdio.c:45-52 | a character is stored while there is room for it and the null character, and counted in any case |
| Stdio.Sink.PutAll | prj1/pintos/src/lib/stdio.c:25-42 | vsnprintf stores the longest prefix that fits, ends it, and returns the full length |
| Ustar.StripIsIdempotent | prj1/pintos/src/lib/ustar.c:65-73 | what prefix stripping leaves has no such prefix, and stripping again leaves it as it is |
| Ustar.StripPrefixes | prj1/pintos/src/lib/ustar.c:65-73 | the loop strips exactly that |
| Ustar.ChecksumIgnoresItself | prj1/pintos/src/lib/ustar.c:36-54 | the checksum does not depend on the checksum field |
| Ustar.CalculateChksum | prj1/pintos/src/lib/ustar.c:36-54 | the loop computes it |
| Ustar.ParsesBack | prj1/pintos/src/lib/ustar.c:129-162 | octal digits read back as their value, without overflow |
| Ustar.ParseOctalField | prj1/pintos/src/lib/ustar.c:129-162 | the loop accepts exactly the fields and values specified |
| Ustar.HeaderFields | prj1/pintos/src/lib/ustar.c:82-118 | every field of a header that was made |
| Ustar.MakeHeader | prj1/pintos/src/lib/ustar.c:82-118 | the fields written in place make that header, or the buffer is untouched |
| Ustar.ParseHeader | prj1/pintos/src/lib/ustar.c:181-227 | every check, in order, with its error |
| Ustar.RoundTrip | prj1/pintos/src/lib/ustar.c:181-227 | for every name, type and 32-bit size: making fails if and only if the stripped name is longer than 99; otherwise parsing returns the stripped name, the type and the size, zero for a directory; a regular file of negative size is refused |
| Inode.Transferred | prj1/pintos/src/filesys/inode.c:200-250 | without a failing allocation exactly min(size, max(0, length - offset)) bytes are transferred |
| Inode.WritesThen | prj1/pintos/src/filesys/inode.c:257-318 | two adjoining writes are one write |
| Inode.WritesSplices | prj1/pintos/src/filesys/inode.c:257-318 | a write splices the data into the bytes of the file |
| Inode.WritesLeave | prj1/pintos/src/filesys/inode.c:257-318 | and leaves every file that lies elsewhere |
| Inode.ReadAfterWrite | prj1/pintos/src/filesys/inode.c:200-318 | a read after a write returns the data |
| Inode.Device.ReadAt | prj1/pintos/src/filesys/inode.c:200-250 | the chunk loop returns the bytes of the file from the offset on |
| Inode.Device.WriteChunk | prj1/pintos/src/filesys/inode.c:266-308 | one chunk, through the bounce buffer or not, changes exactly its bytes of the sector |
| Inode.Device.WriteAt | prj1/pintos/src/filesys/inode.c:257-318 | the chunk loop changes exactly the bytes transferred, on the whole device |
| OpenFile.WritesRunOn | prj1/pintos/src/filesys/file.c:94-100 | however data is cut into calls of file_write, it reaches the file as one write, as far as the file goes |
| OpenFile.ReadsRunOn | prj1/pintos/src/filesys/file.c:68-74 | however many bytes each file_read asks for, together they are the bytes of the file in order |
| OpenFile.StreamRoundTrip | prj1/pintos/src/filesys/file.c:68-100 | data written in any pieces reads back in any pieces |
| OpenFile.File.Read | prj1/pintos/src/filesys/file.c:68-74 | the bytes at the position, which moves on by as many |
| OpenFile.File.Write | prj1/pintos/src/filesys/file.c:94-100 | the bytes at the position change, which moves on by as many |
| FileSysRuns.RunKeeps | prj1/pintos/src/filesys/filesys.c:45-91 | in every state of every run of create, open, reopen, deny, allow, close and remove: open inodes have distinct sectors, open_cnt and deny_write_cnt count the open and the denying files, and each used sector belongs to exactly one owner |
| FileSysRuns.BootKeeps | prj1/pintos/src/filesys/filesys.c:94-103 | a formatted disk is in order |
| FileSysRuns.FormatBoots | prj1/pintos/src/filesys/filesys.c:94-103 | formatting leaves exactly that state, or panics if and only if the device has no room for the free map and three more sectors |
| FileSysRuns.RunFromBoot | prj1/pintos/src/filesys/filesys.c:45-103 | so everything proved of runs holds of every run from a formatted disk |
| FileSysRuns.FilesApart | prj1/pintos/src/filesys/inode.c:72-106 | the data of two files never overlaps, and no inode lies in data |
| FileSysRuns.WriteTouchesOneFile | prj1/pintos/src/filesys/inode.c:257-318 | a write to one file leaves every other file and every inode sector |
| FileSysRuns.UsedMeansOwned | prj1/pintos/src/filesys/free-map.c:27-50 | a sector is marked used if and only if it belongs to an inode or to data lost by a failed create |
| FileSysRuns.CreateKeeps | prj1/pintos/src/filesys/filesys.c:45-59 | create makes exactly one name, or leaves all names and inodes as they were |
| FileSysRuns.CreateLosesSpace | prj1/pintos/src/filesys/filesys.c:51-56 | whatever fails: create succeeds if and only if its allocations do, the name is valid and not bound, and a slot is free; data sectors are lost if and only if the allocations succeed, the file is not empty, and the rest does not hold |
| FileSysRuns.LosesOnce | prj1/pintos/src/filesys/filesys.c:51-56 | a formatted disk on which creating a file without a name loses a sector |
| FileSysRuns.FileCloseKeeps | prj1/pintos/src/filesys/inode.c:163-186 | closing frees the inode and its data if and only if it was removed and this was its last opener |
| FileSysRuns.DeleteKeeps | prj1/pintos/src/filesys/filesys.c:83-91 | remove takes exactly one name away; the inode goes at once only if nobody has it open |
| FileSysRuns.AllDeleted | prj1/pintos/src/filesys/filesys.c:83-91 | when all names are removed and all files closed, only the two inodes of the system are left |
| FileSysSteps.OpenKeeps | prj1/pintos/src/filesys/inode.c:111-142 | opening an inode counts once more, or changes nothing |
| FileSysSteps.DenyKeeps | prj1/pintos/src/filesys/inode.c:322-338 | the deny count follows the file and stays within open_cnt, so the assertions hold |
| FileSysSteps.FreeKeeps | prj1/pintos/src/filesys/free-map.c:44-50 | the sectors of an inode are marked used when they are released, so the assertion holds, and no other owner's are touched |
| FileSysSteps.CloseKeeps | prj1/pintos/src/filesys/inode.c:163-186 | the last close of a removed inode frees it, any other close nothing |
| FileSysSteps.UnlinkKeeps | prj1/pintos/src/filesys/inode.c:190-195 | removing a name marks the open inode |
| FileSysSteps.LinkKeeps | prj1/pintos/src/filesys/filesys.c:45-59 | a new file has sectors of its own and its name |
| FileSysSteps.LeakKeeps | prj1/pintos/src/filesys/filesys.c:51-56 | what a failing dir_add loses is exactly the data of the new file |
| FileSystem.FileSys.AllocateMap | prj1/pintos/src/filesys/free-map.c:27-41 | the first free run of sectors, taken back when the map cannot be written |
| FileSystem.FileSys.Release | prj1/pintos/src/filesys/free-map.c:44-50 | exactly these sectors become free |
| FileSystem.FileSys.InodeOpen | prj1/pintos/src/filesys/inode.c:111-142 | the table of open inodes after inode_open |
| FileSystem.FileSys.InodeClose | prj1/pintos/src/filesys/inode.c:163-186 | the state after inode_close, with deferred deletion |
| FileSystem.FileSys.FileOpen | prj1/pintos/src/filesys/file.c:17-34 | file_open takes the inode over, or closes it |
| FileSystem.FileSys.FileSetDeny | prj1/pintos/src/filesys/file.c:118-141 | file_deny_write and file_allow_write |
| FileSystem.FileSys.FileClose | prj1/pintos/src/filesys/file.c:45-54 | file_close |
| FileSystem.FileSys.FilesysOpen | prj1/pintos/src/filesys/filesys.c:66-77 | filesys_open |
| FileSystem.FileSys.FilesysRemove | prj1/pintos/src/filesys/filesys.c:83-91 | filesys_remove |
| FileSystem.FileSys.FilesysCreate | prj1/pintos/src/filesys/filesys.c:45-59 | filesys_create: whatever fails, the inode sector is given back |
| Directory.LookupAgrees | prj1/pintos/src/filesys/directory.c:91-112 | lookup finds exactly what the map of names holds |
| Directory.AddInserts | prj1/pintos/src/filesys/directory.c:141-179 | dir_add inserts exactly one binding or changes nothing, and succeeds if and only if the name is valid and not bound and a slot is free |
| Directory.RemoveDeletes | prj1/pintos/src/filesys/directory.c:184-216 | dir_remove deletes exactly one binding or changes nothing |
| Directory.ListsTheMap | prj1/pintos/src/filesys/directory.c:221-236 | iterating yields every bound name exactly once, and no other |
| Directory.FilledReads | prj1/pintos/src/filesys/directory.c:171-175 | a slot that was filled reads back |
| Directory.OpenDir.Find | prj1/pintos/src/filesys/directory.c:91-112 | the loop finds the slot |
| Directory.OpenDir.AddEntry | prj1/pintos/src/filesys/directory.c:141-179 | the directory after dir_add |
| Directory.OpenDir.RemoveEntry | prj1/pintos/src/filesys/directory.c:184-216 | the directory after dir_remove |
| Directory.OpenDir.NextName | prj1/pintos/src/filesys/directory.c:221-236 | the next name from the position on |
| Pte.PdeFields | prj1/pintos/src/threads/pte.h:70-81 | a directory entry leads back to its table |
| Pte.PteFields | prj1/pintos/src/threads/pte.h:84-104 | a page table entry reads back: page, present, user, writable, neither accessed nor dirty |
| Pte.SetDirtyAlone | prj1/pintos/src/userprog/pagedir.c:172-186 | changing the dirty bit changes nothing else |
| Pte.SetAccessedAlone | prj1/pintos/src/userprog/pagedir.c:201-215 | changing the accessed bit changes nothing else |
| Pte.ClearPresentAlone | prj1/pintos/src/userprog/pagedir.c:143-157 | clearing the present bit changes nothing else |
| PageDir.SetPageMaps | prj1/pintos/src/userprog/pagedir.c:98-119 | pagedir_set_page adds exactly one mapping or, without memory for a table, changes nothing; pagedir_get_page then returns frame plus offset |
| PageDir.ClearPageUnmaps | prj1/pintos/src/userprog/pagedir.c:143-157 | pagedir_clear_page takes exactly one mapping away and keeps its bits |
| PageDir.SetPageDirtySets | prj1/pintos/src/userprog/pagedir.c:172-186 | pagedir_set_dirty changes one bit of one mapping |
| PageDir.SetPageAccessedSets | prj1/pintos/src/userprog/pagedir.c:201-215 | pagedir_set_accessed likewise |
| PageDir.StoreReads | prj1/pintos/src/userprog/pagedir.c:56-86 | storing an entry changes what is read for that page alone |
| PageDir.AddTableReads | prj1/pintos/src/userprog/pagedir.c:66-81 | a new page table changes no mapping |
| PageDir.RunKeeps | prj1/pintos/src/userprog/pagedir.c:254-263 | over every run of operations and processor accesses each cached translation agrees with a present entry |
| PageDir.TranslationAgrees | prj1/pintos/src/userprog/pagedir.c:125-137 | a cached translation leads where pagedir_get_page says |
| PageDir.WritesAreSeen | prj1/pintos/src/userprog/pagedir.c:172-186 | a write through the tables or the cache always shows in the dirty bit |
| PageDir.DestroyFrees | prj1/pintos/src/userprog/pagedir.c:27-48 | pagedir_destroy frees a frame as many times as pages map it, and once more if it is a page table |
| PageDir.FreedOnce | prj1/pintos/src/userprog/pagedir.c:27-48 | no frame is freed twice if and only if none is mapped at two pages and no table is mapped |
| PageDir.CreatedKeeps | prj1/pintos/src/userprog/pagedir.c:15-22 | the user half of a directory as pagedir_create leaves it, with an empty cache, is in order and maps nothing |
| PageDir.PageDirectory.LookupPage | prj1/pintos/src/userprog/pagedir.c:56-86 | the entry, with a new table if asked for and possible |
| PageDir.PageDirectory.Destroy | prj1/pintos/src/userprog/pagedir.c:27-48 | the loops free exactly these frames, in order |
| ElfLoad.ValidFits | prj2/pintos/src/userprog/process.c:455-496 | for a segment that validates nothing wraps around, the counters make up whole pages that just cover it, and all of them are user pages above page zero |
| ElfLoad.LoadsImage | prj2/pintos/src/userprog/process.c:512-555 | load_segment maps pages, none mapped before, whose bytes are those of the file and then zero: all of the segment if it succeeds, else those up to some page; every other page stays as it was |
| ElfLoad.LoadSucceeds | prj2/pintos/src/userprog/process.c:512-555 | it succeeds if and only if no page of the segment is mapped, user pages and pages for the missing tables suffice, and the file reaches the last byte to read |
| ElfLoad.SegmentLoads | prj2/pintos/src/userprog/process.c:354-383 | the same for a program header: it loads if and only if it validates and its pages can be loaded |
| ElfLoad.SegmentImage | prj2/pintos/src/userprog/process.c:354-383 | for a segment that validates and loads, memory at p_vaddr + k is file byte p_offset + k for k < p_filesz and zero up to p_memsz |
| ElfLoad.SegmentTouchesNothingElse | prj2/pintos/src/userprog/process.c:512-555 | successful or not, loading leaves every page that was mapped and every page outside of the segment |
| ElfLoad.InstallKeeps | prj2/pintos/src/userprog/process.c:586-595 | install_page maps one page that was not mapped, and changes no other |
| ElfLoad.Process.LoadSegment | prj2/pintos/src/userprog/process.c:512-555 | the loop over counters and pages is the specification |

## Left out

- Interleavings inside a primitive: each is one atomic step, as with interrupts disabled.
- Reuse of the memory of a thread after it exits; thread names, stacks and the context switch.
- Scheduling order and priorities under `thread_mlfqs`: only its arithmetic and the tick are modelled.
- The links of kernel lists: lists are sequences, and insertion and sorting in priority order are stable.
- Wrap-around of the unsigned value of a semaphore.
- `calloc`, and the bytes of arena headers and free-list links: they are separate state, and `LiveBlocks` proves that they lie outside of every live block.
- MallocRuns.ReallocKeeps: requires that the copy fits the new block; `ReallocCopies` has the exact condition, and what the copy overwrites beyond that is not modelled.
- Allocator.Heaps.Resize: requires the same.
- HeapSort.Heapify: elements are swapped whole, not byte by byte as in `do_swap`; so too in `Sort`.
- Kernel.Scheduler.ThreadExit: `all_list` and the page of the thread, which only the first part of the next `thread_schedule_tail` frees, are not in the state.
- Kernel.Scheduler.ThreadCreate: thread identifiers are positions, so `tid_lock` and the first stack frames are not in the state.
- ThreadRuns.BootKeeps: the state after `thread_start` is given as a value; the handshake with the idle thread is not modelled.
- Palloc.Pools.GetMultiple: the pools record which pages are taken, not their bytes, so the zeros of PAL_ZERO and the panic of PAL_ASSERT are not modelled.
- Palloc.Pools.FreeMultiple: for the same reason neither is the fill with 0xcc here; `DropPages` in `MallocState` has it.
- The page pool of `malloc` is used by `malloc` alone in the model.
- Mlfqs.Accounting.Tick: the priorities that every fourth tick computes from recent_cpu and nice are not modelled.
- `printf`: fetching arguments, `parse_conversion` and the conversions other than integers.
- The bytes of inodes and of the free map on disk, and reading the map back at boot: the model has their values.
- Errors of block devices, and the partition code.
- The zeros that `inode_create` writes to the data of a new file: the model of names and that of contents are separate, joined by `WriteTouchesOneFile`.
- Directory.OpenDir.AddEntry: directory reads and writes find memory for their bounce buffers; a short transfer is not modelled.
- Directory.OpenDir.RemoveEntry: the same; opening and closing the inode of the name is in `FileSystem`.
- The root directory, which each operation on names opens and closes again, is counted only for as long as the operation lasts.
- `pagedir_activate` as a hardware effect, and the kernel half of a page directory, which `pagedir_create` copies.
- Program headers other than PT_LOAD, the loop over them, the stack and the arguments of a program.
- The fixed-point operations that the update formulas do not use.
- Port input and output, boot, timer calibration, console, keyboard, and system calls.
