# A verified model of the kernel's synchronisation and allocation code

The repository is a small preemptive teaching kernel. This project models the parts of it
in which correctness depends on many steps, many processes or many calls, and proves what
they promise, or exactly when they keep it:

- the dining philosophers with seats that are added and removed while others eat
  (`Ring`, `Philosophers`, `PhilosopherInvariants`, `PhilosopherTheorems`,
  `PhilosopherStarvation`);
- the blocking mutex with direct hand-off and the condition variables on top of it
  (`LinkedQueue`, `Mutex`, `CondVariable`, `CondSignals`, `CondLost`);
- named pipes over a circular buffer, and the producer/consumer protocol built from two of
  them (`CircularBuffer`, `Pipe`, `ProducerConsumer`);
- the round-robin scheduler and the timer's sleep list (`Scheduler`, `SchedulerTicks`, `Timer`, `Process`);
- the page allocators, the pages of a process and its teardown, and the BMFS directory
  (`Pages`, `ProcessPages`, `PageLeaks`, `PageCalls`, `Bmfs`, `BmfsAllocation`, `BmfsNames`);
- `itoa` and `atoi` (`Numerals`). `Common` holds what several of these need.

Code that changes things in place is a class or a method with loops, proved against a
function of the old state; what the source promises is then proved about those functions.
Protocols are state machines: `Step` is one uninterruptible step, `Legal` says which
sequences of steps can happen, and the theorems quantify over every legal sequence, hence
over every interleaving of any number of processes.

`dafny verify dfyconfig.toml` checks everything.

## How the model reads the source

- The bodies of `mutex_lock` and `mutex_unlock` are single steps, which is the intent stated
  at Kernel/kernelMutex.c:109-112. Queue nodes come from `new`, not from the page allocator,
  whose own mutex would clear the superlock.
- `cond_wait` keeps its separate steps: unlock, enqueue, block, lock again. So do `cond_signal`
  and each turn of `cond_broadcast`: dequeue, unblock. `sync_enqueue` and `sync_dequeue` are
  single steps, and nobody else gets at the queue during a broadcast, which holds its mutex.
- `sleep` is two steps, joining the list and blocking; a tick can come between them.
- `fifo_read` on an empty pipe is one step: enqueue, unlock and block.
- In the philosophers, `critical_m` is an abstract lock; `Mutex.HandOffIsReleaseThenAcquire`
  shows that a disciplined mutex is one. A process inside `cond_wait` may wake at any moment,
  which covers every signal, early, late or lost: the results are safety results. Statements
  that run under `critical_m` without touching another process's view are merged.
- A killed process keeps its status for as long as a queue or the sleep list names it. In the
  source the scheduler's walk destroys it while it may still be queued
  (Kernel/processManager.c:140-144), and its descriptor page is the next one handed out; what
  `mutex_unlock` and `timer_handler` then read is not modelled.
- A `memcpy` whose sizes leave the buffer has no defined result; the methods say exactly when it
  happens and return `None`.
- Random numbers, sleeping times, rendering and the moment of a context switch are the free
  choice of the next step.
- Signed 32-bit overflow, 64-bit and 8-bit truncation are written out where they matter;
  signed overflow is taken to wrap around.
- `qsort` is an insertion sort with the same comparison function.

## Where the code falls short of its promise

- A hungry philosopher has an eating neighbour, unless inserting a seat took its last one away
  and it has not been tested since. `InsertionOrphansExactly` says which seats that is, and
  `StarvationIsReachable` gives a run that ends with a single philosopher, blocked. He stays so
  until a seat is added, and `remove_philosopher` does not return (`StrandedUntilAdd`).
- `cond_wait` can lose a wake-up, exactly when its process blocks after a whole signal has
  dequeued its entry and unblocked it (`LostExactlyByLateBlock`, `LostWakeUpIsReachable`); a
  process that blocks between the two halves of a signal still wakes (`LateBlockCanStillWake`). A
  blocked process can be woken exactly if it is not lost (`WakesIffNotLost`).
- `sleep` can be lost in the same way, exactly when all its ticks fall between joining the list
  and blocking (`SleepIsLostIff`, `LostSleepIsReachable`).
- Anybody can unlock a mutex. An unlock makes mutual exclusion breakable exactly if somebody
  else holds the mutex (`ForeignUnlockBreaksIff`, `ForeignUnlockAdmitsTwo`).
- A write to a pipe copies out of range exactly if the buffer is full or the sum of its size and
  the fill overflows (`WriteSizeFitsIff`, `PiecesInRangeIff`).
- The producer/consumer protocol accepts any buffer size of at least 1; it is safe exactly up
  to 256 (`SafeExactlyUpTo256`).
- A process that ends stays in the scheduler's ring exactly if some process was added to a ring
  of one and nothing was switched or ended since, because `prev` is then stale
  (`PrevIsStaleIff`, `EndStaysInRingIff`, `StaleEndIsReachable`). The process that is current in
  that situation after start-up is number 0, which in this kernel never ends
  (Kernel/init.c:24-26).
- `get_page` on an exhausted stack locks its mutex a second time instead of unlocking it, and
  nobody allocates again (`ExhaustionWedgesAllocator`). The page that holds the fractal
  parameters is at the bottom of the stack and is handed out when all others are in use
  (`ParametersHandedOutIffAllUsed`).
- A page is neither free, nor the kernel's, nor any live process's, exactly if a process with a
  full table got it and it was not freed since (`MissingExactly`, `TeardownLosesAPage`). Removing
  the NULL page makes teardown lose a page exactly if the table is neither empty nor full
  (`RemoveThenTeardownIff`, `RemoveNullLosesAPage`), and storing it puts page 0 on the stack
  (`NullIsPageZero`).
- BMFS `create` can hand out blocks in use when a deleted record is in the way and nothing
  fits (`CreatesWellIffNotMisled`, `DeletedRecordMisleads`), and when the directory has no end
  marker (`WithoutEndMarker`, `MissingEndMarkerMisleads`). With no end marker and an unused first
  record it drops every other file (`CreateWipes`, `CreateWipesADirectory`); this is the only way
  for the directory to stop behaving as a map of names (`DirectoryRefinesMapIff`).
- `itoa` writes digits for a negative number only in base 10, and not for the least integer
  (`TextDenotesIff`, `RoundTripIff`).

## Model

| member | source | states |
|---|---|---|
| Ring.MayEatIffNoEatingNeighbour | Kernel/philo.c:272-279 | the test on LEFT and RIGHT passes for a hungry seat exactly if no distinct ring neighbour is EATING, for every number of seats |
| Ring.EatKeepsApart | Kernel/philo.c:272-279 | a seat that passes the test can start eating without two neighbours eating |
| Ring.EatServes | Kernel/philo.c:272-279 | a seat that starts eating leaves no hungry seat without an eating neighbour and needs none itself |
| Ring.TestedIsServed | Kernel/philo.c:272-279 | a seat that fails the test is not hungry or has an eating neighbour |
| Ring.RiseServes | Kernel/philo.c:253-264 | a seat that stops eating can leave only its two neighbours without an eating neighbour |
| Ring.JoinServes | Kernel/philo.c:129-156 | a new last seat keeps neighbours apart and leaves nobody without an eating neighbour but the orphaned seats |
| Ring.LeaveKeeps | Kernel/philo.c:220-243 | when seat N-1 leaves under the guard of should_die, seats N-2 and 0 do not both eat as new neighbours, and nobody loses an eating neighbour |
| PhilosopherInvariants.StepKeepsInvariants | Kernel/philo.c:112-279 | every step of every philosopher and of the commander keeps the control invariant (who holds what, which seat mutex is unlocked, which seat is marked) and the table manners |
| PhilosopherInvariants.RunKeepsInvariants | Kernel/philo.c:112-279 | so does every run |
| PhilosopherTheorems.NeighboursNeverBothEat | Kernel/philo.c:129-170 | in every run, with seats coming and going, no two distinct adjacent seats are both EATING, and at most one philosopher is inside critical_m |
| PhilosopherTheorems.HungryWaitsForEater | Kernel/philo.c:220-279 | whenever critical_m is free, a HUNGRY philosopher has an EATING neighbour that is not blocked, unless an insertion orphaned it since its last test |
| PhilosopherTheorems.PermitsAreExact | Kernel/philo.c:245-279 | a seat mutex is unlocked exactly between the grant and the lock in take_forks; past take_forks the seat is EATING; no permit is lost or doubled, whoever ran test |
| PhilosopherTheorems.RemoveReturnsAfterDeparture | Kernel/philo.c:158-170 | remove_philosopher leaves its wait loop only when the count has dropped by one |
| PhilosopherTheorems.DyingWaitsIffSurrounded | Kernel/philo.c:226-231 | in every run, a marked philosopher waits exactly while it has a neighbour and all its neighbours are EATING; otherwise its next step is to leave |
| PhilosopherTheorems.LeavingGivesUpTheSeat | Kernel/philo.c:232-240 | in every run, a philosopher that leaves is the last one; count and mark go, nobody else is touched, and critical_m is free afterwards |
| Ring.InsertionOrphansExactly | Kernel/philo.c:129-156 | inserting a seat takes a hungry seat's last eating neighbour exactly if that seat is 0 or N-1, N is at least 3, and the other of the two was its only eating neighbour |
| PhilosopherStarvation.StarvationIsReachable | Kernel/philo.c:129-170 | some legal run ends with one philosopher, HUNGRY and blocked, and the commander listening |
| PhilosopherStarvation.StrandedUntilAdd | Kernel/philo.c:158-170 | from there, in every run without a new seat, no philosopher can take a step and a remove_philosopher that is begun never returns |
| LinkedQueue.Queue.Enqueue | Kernel/queueADT.c:37-52 | appends at the end of the queue's sequence and keeps the linked structure |
| LinkedQueue.Queue.Dequeue | Kernel/queueADT.c:60-73 | removes and returns the first element, or nothing from an empty queue |
| LinkedQueue.Queue.Peek | Kernel/queueADT.c:54-58 | returns the first element and changes nothing |
| LinkedQueue.Queue.Drain | Kernel/queueADT.c:23-28 | removes every element, in order |
| Process.Process.Block | Kernel/process.c:292-295 | a killed process stays killed, any other becomes BLOCKED |
| Process.Process.Unblock | Kernel/process.c:297-300 | a killed process stays killed, any other becomes READY |
| Process.Process.Kill | Kernel/process.c:256-261 | marks every process but 0 and 1 |
| Mutex.SkipDeadIsFirstLive | Kernel/kernelMutex.c:136-139 | the loop drops exactly the killed processes at the front of the queue |
| Mutex.ReleaseFreesIffAllDead | Kernel/kernelMutex.c:129-153 | unlocking frees the mutex exactly if all waiters are killed, and then leaves the queue empty |
| Mutex.KernelMutex.LockFor | Kernel/kernelMutex.c:99-127 | acquires an unlocked mutex; otherwise queues the caller last and blocks it |
| Mutex.KernelMutex.DequeueLive | Kernel/kernelMutex.c:136-139 | returns the first live waiter and leaves the queue behind it |
| Mutex.KernelMutex.Unlock | Kernel/kernelMutex.c:129-153 | hands the lock to the first live waiter, wakes it and nobody else, and unlocks only if there is none |
| Mutex.StepKeepsInv | Kernel/kernelMutex.c:99-153 | every lock, unlock and kill keeps: a free mutex has no waiters; acquisitions are at most unlocks plus one; acquired calls precede queued ones; a call that is neither was killed |
| Mutex.FifoHandOff | Kernel/kernelMutex.c:99-153 | in every run acquisitions happen in the order of the lock calls, nobody is overtaken unless killed, and acquisitions never exceed unlocks plus one |
| Mutex.WaiterIsServed | Kernel/kernelMutex.c:129-153 | a waiter at position i that is not killed acquires within i + 1 unlocks |
| Mutex.KillKeepsOut | Kernel/kernelMutex.c:136-139 | in every run, a waiter that is killed never acquires afterwards |
| Mutex.HandOffIsReleaseThenAcquire | Kernel/kernelMutex.c:99-153 | seen from outside, each step of a disciplined mutex is a move of an abstract lock |
| Mutex.MutualExclusion | Kernel/asm/test_lock.asm:3-6 | over all interleavings in which nobody unlocks what another one holds, there is at most one holder, and none exactly if the word is unlocked |
| Mutex.ForeignUnlockBreaksIff | Kernel/kernelMutex.c:99-153 | after any disciplined run, an unlock leaves two processes able to be inside, by disciplined steps alone, exactly if the mutex is locked and the caller does not hold it |
| Mutex.ForeignUnlockAdmitsTwo | Kernel/kernelMutex.c:129-153 | a legal run with two holders |
| CondVariable.CondQueue.Signal | Kernel/condVariable.c:89-99 | takes the earliest entry and makes its process ready unless it was killed; nobody else is touched |
| CondVariable.CondQueue.Broadcast | Kernel/condVariable.c:101-112 | terminates with an empty queue, every queued process ready or killed |
| CondVariable.WaitReturnsHolding | Kernel/condVariable.c:74-87 | whenever a process leaves cond_wait it holds the lock, alone, and its entry had been dequeued, and it unblocked, before it woke |
| CondVariable.EntriesLeaveOnceInOrder | Kernel/condVariable.c:89-140 | over every run, dequeued entries followed by queued ones are all entries in the order they were made, each once; signal and each turn of broadcast take the earliest; a broadcast that ends has taken all and unblocked all it took |
| CondSignals.SignalTakesEarliest | Kernel/condVariable.c:89-140 | in every reachable state, a signal and a turn of a broadcast move the earliest entry to the caller's duty and leave the others queued, a signal on an empty queue does nothing, and the unblock frees that entry's process and no other |
| CondSignals.WokenBySignals | Kernel/condVariable.c:89-99 | in every reachable state, a process asleep with k entries before its own is awake after n signals, each with its unblock, exactly if n is more than k |
| CondSignals.BroadcastWakesAll | Kernel/condVariable.c:101-112 | in every reachable state, a broadcast run through wakes exactly the processes with queued entries and empties the queue |
| CondSignals.BroadcastProgresses | Kernel/condVariable.c:101-112 | a broadcaster always has a next step, each brings it nearer to the end, and nobody else's step takes it further away |
| CondLost.LostExactlyByLateBlock | Kernel/condVariable.c:78-99 | a process becomes asleep with no entry and nobody about to unblock it exactly by blocking after its entry was dequeued and it was unblocked |
| CondLost.LostIsForever | Kernel/condVariable.c:74-112 | no continuation wakes it |
| CondLost.WakesIffNotLost | Kernel/condVariable.c:74-112 | after every run, some continuation wakes a process blocked in cond_wait exactly if it is not lost |
| CondLost.LostWakeUpIsReachable | Kernel/condVariable.c:74-99 | a legal run with a whole signal between sync_enqueue and block_process loses a wake-up |
| CondLost.LateBlockCanStillWake | Kernel/condVariable.c:74-99 | a legal run in which a process blocks after its entry was dequeued, is unblocked by the second half of the signal, and returns with the lock |
| CircularBuffer.PiecesInRangeIff | Kernel/fifo.c:226-267 | both memcpy pieces are in range and add up exactly if the transfer has between 1 and BUF_SIZE bytes, for every position: wrapped, unwrapped or ending at the end |
| CircularBuffer.WriteSizeFitsIff | Kernel/fifo.c:227 | the size computed for a write is what fits exactly if the 32-bit sum does not overflow, and is a possible size exactly if the buffer is not full besides |
| CircularBuffer.Buffer.CopyRound | Kernel/fifo.c:232-241 | the two copies lay the source round the buffer and change nothing else |
| CircularBuffer.Buffer.CopyOut | Kernel/fifo.c:253-262 | the two copies read the bytes round the buffer |
| CircularBuffer.Buffer.Write | Kernel/fifo.c:226-245 | appends as many bytes as fit to the contents; copies out of range exactly if the buffer is full or the sum overflows |
| CircularBuffer.Buffer.Read | Kernel/fifo.c:247-267 | removes and returns a prefix of the contents |
| CircularBuffer.AppendRefinesConcat | Kernel/fifo.c:226-245 | laying bytes behind the contents, modulo the size, is concatenation |
| CircularBuffer.DropRefinesSuffix | Kernel/fifo.c:247-267 | advancing the read position, modulo the size, is dropping a prefix |
| Pipe.ServeConserves | Kernel/fifo.c:144-150 | what readers get, in order, followed by what stays buffered is what was buffered |
| Pipe.ServeIsFair | Kernel/fifo.c:144-150 | readers are served from the front; each served one gets what it asked for or all that is left, at least 1 byte; one is left only if the buffer is empty |
| Pipe.Fifo.TryRead | Kernel/fifo.c:134-142 | succeeds exactly if a byte is buffered, and then moves the prefix asked for |
| Pipe.Fifo.SendToReaders | Kernel/fifo.c:144-150 | the loop serves exactly the readers the specification serves, gives them their bytes and unblocks them; every other request and process keeps what it had, and a killed process stays killed |
| Pipe.Fifo.FifoWrite | Kernel/fifo.c:109-132 | returns what fits, appends it, then serves and unblocks the waiting readers and nobody else; 0 for a size that is not positive; no defined result exactly if the buffer is full or the sum overflows |
| Pipe.Fifo.FifoRead | Kernel/fifo.c:161-198 | reads at once if nobody waits and a byte is buffered, with its status unchanged; otherwise joins the queue last and blocks, unless killed |
| Pipe.Fifo.WriteStep | Kernel/fifo.c:109-132 | a write is one step of the pipe of the run theorems, in what it delivers, leaves queued, leaves buffered and returns |
| Pipe.Fifo.ReadStep | Kernel/fifo.c:161-198 | so is a read |
| Pipe.CallsTakeTheLesser | Kernel/fifo.c:226-267 | in every step a write accepts the lesser of its size and the room, and a read that does not wait takes the lesser of what it asks for and what is buffered |
| Pipe.StepKeepsInv | Kernel/fifo.c:109-198 | every read and write keeps the stream invariant, with "a waiting reader implies an empty buffer" |
| Pipe.LosslessStream | Kernel/fifo.c:109-198 | over every run, deliveries in reader arrival order followed by the buffer are the bytes accepted, and every request is served once or waiting |
| ProducerConsumer.FillEmptySlots | Kernel/producerConsumer.c:25-27 | the loop puts one token per slot into the pipe |
| ProducerConsumer.UnitWrite | Kernel/fifo.c:109-150 | a write that fits is accepted whole and goes to the one waiting reader or to the buffer |
| ProducerConsumer.SlotsAreConserved | Kernel/producerConsumer.c:18-75 | for 1 to 256 slots and every run: tokens, token in hand, items in the pipe and item in hand add up to the slots; no write is short or meets a full buffer; items arrive whole, in order, none lost; the producer receives only tokens; both sides are never blocked at once |
| ProducerConsumer.SafeExactlyUpTo256 | Kernel/commands.c:273-286 | no run overruns a pipe exactly if there are at most 256 slots, although any positive number is accepted |
| Scheduler.FirstRunnableIsFirst | Kernel/processManager.c:136-150 | the position searched for is runnable and everything before it is not |
| Scheduler.ProcessRing.AddProcess | Kernel/processManager.c:84-104 | the new process comes right after the current one with one quantum; the ring stays closed, and no other quantum changes |
| Scheduler.ProcessRing.UnlinkCurrent | Kernel/processManager.c:140-144 | takes a killed process out of the closed ring and destroys it |
| Scheduler.ProcessRing.WalkTo | Kernel/processManager.c:136-150 | the loop ends at the first runnable node, having destroyed exactly the killed ones it passed, in order |
| Scheduler.ProcessRing.SetNextCurrent | Kernel/processManager.c:136-150 | with a runnable process in the ring it ends at the first one, unlinks exactly the killed ones passed, keeps the order of the rest, and leaves prev right before current |
| Scheduler.ProcessRing.NextProcess | Kernel/processManager.c:44-68 | switches exactly if the quantum is used up and the superlock is free; then the process that ran has a fresh quantum and the walk starts behind it, which needs a runnable process only in that case; nobody else's quantum changes |
| Scheduler.ProcessRing.YieldProcess | Kernel/processManager.c:106-110 | the current process has no quantum left, the next one gets one more, nobody else is affected |
| Scheduler.ProcessRing.DetachCurrent | Kernel/processManager.c:121-123 | unlinks the current node, unless prev is stale, when the ring only turns |
| Scheduler.ProcessRing.EndProcess | Kernel/processManager.c:113-134 | destroys the current process, walks on, and gives the process found one more quantum |
| Scheduler.WalkedInFull | Kernel/processManager.c:136-150 | walking j nodes gives the rest of the ring followed by the live ones passed, in order |
| Scheduler.NextRingMembers | Kernel/processManager.c:136-150 | after the walk the ring holds exactly the nodes not passed and the live ones passed |
| Scheduler.PrevStaysLast | Kernel/processManager.c:136-150 | a walk that starts with prev right before current, and moves it over live nodes only, ends so |
| Scheduler.EndUnlinksIffSettled | Kernel/processManager.c:113-134 | the ended process leaves the ring exactly if prev was right before it, even if it had been killed |
| Scheduler.PrevIsStaleIff | Kernel/processManager.c:60-104 | over every run from a ring of one, prev is not right before current exactly if a process was added to a ring of one and nothing was switched or ended since |
| Scheduler.EndStaysInRingIff | Kernel/processManager.c:84-134 | after every such run, an ended process stays in the ring exactly then |
| Scheduler.StaleEndIsReachable | Kernel/processManager.c:84-134 | a legal run where it does |
| Scheduler.BoundedWaiting | Kernel/processManager.c:44-134 | a process that stays ready at ring distance d is current within d switches and ends plus one per process added meanwhile, whatever the others do, with prev settled or stale |
| Scheduler.StatusChanges | Kernel/process.c:256-300 | the events of the runs change statuses as block_process, unblock_process and kill_process do |
| SchedulerTicks.BoundedWaitingInTicks | Kernel/processManager.c:44-158 | a process that stays ready is current within as many ticks with a free superlock as those ahead of it need for their quanta, plus one per quantum given away and per process added meanwhile |
| SchedulerTicks.OneTickPerPlace | Kernel/processManager.c:44-158 | with ordinary quanta ahead that is one tick per place |
| Timer.TicksAge | Kernel/timer.c:20-45 | after k ticks the list holds exactly the sleepers with more than k ticks left, each reduced by k, in the same order |
| Timer.SleepList.Unlink | Kernel/timer.c:28-37 | takes one node out of the linked list and keeps the rest in order |
| Timer.SleepList.Visit | Kernel/timer.c:25-44 | one turn of the loop counts one sleeper down and unlinks it exactly if that was its last tick |
| Timer.SleepList.Handle | Kernel/timer.c:20-45 | the loop leaves exactly the sleepers with ticks left, counted down, and reports the others in list order |
| Timer.TimerHandler | Kernel/timer.c:20-45 | the list stays well formed, and exactly the processes whose last tick it was, and that have not been killed, become ready |
| Timer.Sleep | Kernel/timer.c:48-78 | less than 55 ms is no sleep; otherwise the process is put first on the list with its ticks and blocked |
| Timer.SleepersWakeOnTime | Kernel/timer.c:20-78 | over every run of sleeps, blocks and ticks, the handler unblocks each sleeper at most once, exactly at its tick, and until then it is on the list with the ticks it has left; the tick of a call is as many ticks after it as there are whole 55 ms in what it asked for |
| Timer.SleepIsLostIff | Kernel/timer.c:48-66 | over every run, a caller that has blocked is still blocked exactly if its tick has not come, or came before it blocked |
| Timer.LostSleepIsReachable | Kernel/timer.c:48-66 | a legal run with a tick between joining the list and blocking, after which the caller is blocked for good |
| Pages.OutstandingCount | Kernel/memoryAllocator.c:8-9 | the stack index is the number of pages handed out |
| Pages.TakeKeepsPartition | Kernel/memoryAllocator.c:33-36 | an allocation hands out a page nobody holds and keeps free and outstanding pages a partition |
| Pages.GiveKeepsPartitionIff | Kernel/memoryAllocator.c:42-51 | giving an address back keeps the partition exactly if it was outstanding, or nothing was |
| Pages.GiveThenTake | Kernel/memoryAllocator.c:31-51 | a page freed is the next one allocated |
| Pages.AddressRoundTrip | Kernel/memoryAllocator.c:34-45 | page number to address and back is the identity, from anywhere inside the page |
| Pages.NullIsPageZero | Kernel/memoryAllocator.c:45 | the index computed for the address 0 is that of page 0 |
| Pages.RegionsAreDisjoint | Kernel/memoryAllocator.c:58-63 | data pages and downward growing stacks never overlap |
| Pages.FreshPagesPartitioned | Kernel/memoryAllocator.c:17-21 | the initialised stack holds the 255 pages 0 to 254, once each, all free |
| Pages.FreshStacksPartitioned | Kernel/memoryAllocator.c:58-63 | the initialised stack holds 128 distinct stacks, all free |
| Pages.PageAllocator.GetPage | Kernel/memoryAllocator.c:31-40 | queues behind a holder of the mutex; otherwise hands out the top page and releases the mutex, or, when exhausted, leaves the mutex locked with the caller itself waiting |
| Pages.PageAllocator.StorePage | Kernel/memoryAllocator.c:42-51 | queues behind a holder of the mutex; otherwise puts the address's page on top, or refuses when nothing is outstanding |
| Pages.StackAllocator.GetStackPage | Kernel/memoryAllocator.c:69-78 | hands out the top stack, or 0 when exhausted |
| Pages.StackAllocator.StoreStackPage | Kernel/memoryAllocator.c:80-89 | puts the stack on top, or refuses when nothing is outstanding |
| Pages.PagesAreConserved | Kernel/memoryAllocator.c:17-89 | over every run that frees only outstanding pages and does not allocate when exhausted, free and outstanding pages partition all of them, for both allocators |
| Pages.ParametersHandedOutIffAllUsed | Kernel/memoryAllocator.c:15-21 | the page of the fractal parameters is handed out exactly in the runs that use every page at once |
| Pages.ExhaustionWedgesAllocator | Kernel/memoryAllocator.c:31-40 | after any holder of the memory mutex, however it got it and whoever is queued, locks it again, nobody ever acquires it |
| ProcessPages.PageTable.AddDataPage | Kernel/process.c:177-187 | records the page in the first empty slot and counts it; nothing when full |
| ProcessPages.PageTable.RemoveDataPage | Kernel/process.c:189-200 | clears the first slot with that page and counts it off |
| ProcessPages.PageTable.FreeDataPages | Kernel/process.c:244-253 | stores the first n recorded pages in slot order |
| ProcessPages.PageTable.Destroy | Kernel/process.c:229-241 | stores the recorded pages, then the stack, then the descriptor |
| ProcessPages.AddKeepsCountIff | Kernel/process.c:177-187 | the count stays the number of slots in use exactly if the page is not NULL or the table is full |
| ProcessPages.RemoveKeepsCountIff | Kernel/process.c:189-200 | likewise for removal: NULL is the page that breaks it |
| ProcessPages.FirstPagesAreHeld | Kernel/process.c:244-253 | the loop stores the lesser of count and slots in use, only recorded pages, none twice |
| ProcessPages.TeardownReturnsAllIff | Kernel/process.c:244-253 | every recorded page is given back exactly if the count is not below the slots in use |
| ProcessPages.RemoveThenTeardownIff | Kernel/process.c:189-253 | after a removal, teardown gives every recorded page back exactly if the page removed is not NULL, or the table was empty or full |
| ProcessPages.RemoveNullLosesAPage | Kernel/process.c:189-253 | a table with one page where removing NULL makes teardown give nothing back |
| ProcessPages.TeardownReturnsOwned | Kernel/process.c:229-253 | teardown gives back exactly the pages recorded for that process, each once |
| ProcessPages.EveryPageIsAccountedFor | Kernel/systemCalls.c:217-227 | over every run of creation, malloc, free, destruction and kernel allocations, each page and stack is free or has one owner; once all processes are gone all stacks are free and only kernel pages and unrecorded pages are missing |
| PageCalls.CreateDoes | Kernel/process.c:149-175 | takes the first free page and the first free stack for a process with an empty table, and touches no other process |
| PageCalls.MallocDoes | Kernel/systemCalls.c:217-221 | hands out the first free page and records it exactly if the table has room |
| PageCalls.FreeDoes | Kernel/systemCalls.c:223-227 | puts the page first among the free ones and out of the table, and nothing else |
| PageCalls.DestroyDoes | Kernel/process.c:229-241 | takes the process away and frees its stack |
| PageCalls.DestroyFrees | Kernel/process.c:229-253 | the pages freed are the descriptor and those in the table, and no others |
| PageCalls.ReachedStatesKnow | Kernel/memoryAllocator.c:31-51 | every reachable state meets what these lemmas ask of it |
| PageLeaks.UnaccountedSince | Kernel/process.c:177-200 | over every run, a page is unrecorded exactly if it was and was not freed, or a malloc with a full table handed it out and it was not freed since |
| PageLeaks.MissingExactly | Kernel/process.c:149-253 | at every point of every run, a page is not free exactly if the kernel keeps it, or it is a live process's descriptor or in its table, or a malloc with a full table handed it out and it was not freed since |
| PageLeaks.TeardownLosesAPage | Kernel/process.c:177-253 | a reachable state with a page nobody owns: a second process makes 65 allocations and ends while the first lives on |
| Bmfs.Directory.FindFile | Bootloader/BMFS/bmfs.c:203-229 | returns the first file record of that name before the end marker |
| Bmfs.Directory.CountEntries | Bootloader/BMFS/bmfs.c:633-649 | finds the end marker and the record to fill; the count stays 0 without an end marker |
| Bmfs.Directory.FindGap | Bootloader/BMFS/bmfs.c:657-683 | the loop over the sorted copy finds the start the specification finds |
| Bmfs.Directory.CreateFile | Bootloader/BMFS/bmfs.c:608-717 | the outcome and the new directory are those of the specification, in every error case unchanged |
| Bmfs.Directory.DeleteFile | Bootloader/BMFS/bmfs.c:800-819 | marks the record found unused; nothing otherwise |
| Bmfs.FindSound | Bootloader/BMFS/bmfs.c:203-229 | the record found is a file of that name and the first one; none found means there is none |
| Bmfs.BlocksHold | Bootloader/BMFS/bmfs.c:613-618 | the blocks reserved hold the size asked for, and fewer would not |
| BmfsAllocation.CreateTouches | Bootloader/BMFS/bmfs.c:691-704 | create fills the first free record with the name and an extent that holds the size and no more, makes the next one the end marker exactly if the first free one was, and changes no other record |
| BmfsAllocation.DeleteTouches | Bootloader/BMFS/bmfs.c:800-819 | delete turns the file into an unused record with the same extent and changes no other record |
| BmfsAllocation.CmpIsPosition | Bootloader/BMFS/bmfs.c:595-606 | on records in range that do not overlap, the comparison is disk order with unused records last, in spite of its truncation to int |
| BmfsAllocation.SortIsSorted | Bootloader/BMFS/bmfs.c:657-659 | the sorted copy is a permutation in that order |
| BmfsAllocation.ScanFiles | Bootloader/BMFS/bmfs.c:660-683 | the gap loop, from any record, gives the lowest start that fits, or 0, or the misled answer after an unused record |
| BmfsAllocation.NewStartAnswers | Bootloader/BMFS/bmfs.c:657-689 | so does the whole search, on every good directory with an end marker |
| BmfsAllocation.GoodIffFits | Bootloader/BMFS/bmfs.c:691-704 | writing the record keeps files disjoint and inside the disk exactly if its range fits |
| BmfsAllocation.OutcomeIs | Bootloader/BMFS/bmfs.c:616-655 | create reports an existing name exactly if a file has it, and a full directory exactly if otherwise all records are files |
| BmfsAllocation.CreatesWellIffNotMisled | Bootloader/BMFS/bmfs.c:608-704 | create takes the lowest gap, reserves as many blocks as hold the size and no more, keeps files disjoint and fails only if nothing fits, exactly if something fits or no unused record misleads it |
| BmfsAllocation.MisledCreateOverlaps | Bootloader/BMFS/bmfs.c:657-704 | otherwise it creates a file that breaks the directory |
| BmfsAllocation.DeletedRecordMisleads | Bootloader/BMFS/bmfs.c:657-704 | a concrete good directory where this happens |
| BmfsAllocation.WithoutEndMarker | Bootloader/BMFS/bmfs.c:634-704 | without an end marker, create does what it should exactly if block 1 happens to fit or the disk is too small for anything |
| BmfsNames.FindIsLookup | Bootloader/BMFS/bmfs.c:203-229 | findfile is the lookup of the map from names to extents |
| BmfsNames.CreateRepresents | Bootloader/BMFS/bmfs.c:608-717 | create fails on a name in the map, adds its name otherwise, and touches no other name, with end marker and reused slots |
| BmfsNames.CreateWipes | Bootloader/BMFS/bmfs.c:698-704 | with no end marker and an unused first record, the new file is the only one left |
| BmfsNames.CreateRefinesIff | Bootloader/BMFS/bmfs.c:608-717 | create does to the map what it should exactly if there is an end marker, or the first record is in use, or no file or this very name is listed, or the file is too large for the disk |
| BmfsNames.MissingEndMarkerMisleads | Bootloader/BMFS/bmfs.c:634-704 | a full directory with its second record deleted, where create writes over the first file |
| BmfsNames.CreateWipesADirectory | Bootloader/BMFS/bmfs.c:698-704 | a full directory with its first record deleted, where create loses 63 files |
| BmfsNames.DeleteRepresents | Bootloader/BMFS/bmfs.c:800-819 | delete removes its name and no other |
| BmfsNames.DeleteKeepsGood | Bootloader/BMFS/bmfs.c:800-819 | deleting keeps files disjoint and inside the disk |
| BmfsNames.DirectoryRefinesMapIff | Bootloader/BMFS/bmfs.c:608-819 | over every sequence of creates and deletes, on every directory, with or without end marker and with reused slots, the directory represents the map throughout exactly if every create is safe for names |
| BmfsNames.CreateKeepsGoodIff | Bootloader/BMFS/bmfs.c:608-717 | a create keeps files disjoint and inside the disk exactly if the name exists, or no record is free, or with an end marker something fits or nothing misleads, or without one block 1 fits, or is too near the end, or the first record is unused |
| BmfsNames.DirectoryStaysGoodIff | Bootloader/BMFS/bmfs.c:608-819 | over every sequence of creates and deletes, files stay disjoint and inside the disk throughout exactly if that holds before every create |
| Numerals.ReverseInPlace | Kernel/lib.c:80-90 | reverses the part of the buffer and nothing else |
| Numerals.WriteDigits | Kernel/lib.c:68-75 | writes the digits, least significant first |
| Numerals.Itoa | Kernel/lib.c:56-93 | writes the text and its terminator, changes nothing behind them, and returns the length of the text |
| Numerals.NumeralDenotes | Kernel/lib.c:68-75 | in every base from 2 to 36 the digits of a number that is not negative are digits of the base, denote it, and have no leading zero |
| Numerals.TextDenotesIff | Kernel/lib.c:56-93 | in every base from 2 to 36 the text denotes the number exactly if it is not negative, or the base is 10 and it is not the least integer |
| Numerals.Atoi | Kernel/lib.c:96-115 | the three loops compute the parse of the string, overflow included |
| Numerals.ShiftIsStepwise | Kernel/lib.c:110 | wrapping after each operation is wrapping once |
| Numerals.RoundTripIff | Kernel/lib.c:56-115 | parsing what was printed gives the number back exactly if it is not the least 32-bit integer |
| Numerals.PrintParsed | Kernel/lib.c:56-115 | printing what was parsed gives back every decimal text without leading zeros that is in range |
| Numerals.ParsedIs | Kernel/lib.c:96-115 | for blanks, a sign or none, digits and any tail, atoi gives the value of the digits with that sign modulo 32 bits |
| Numerals.CutExists | Kernel/lib.c:96-115 | every string is of that form |

## Left out

- Boot code, interrupts, stack frames, the video driver, the shell, printf and scanf, and the system-call dispatch: hardware set-up and plumbing.
- The philosophers' kill-all command, killed lock holders, and closing a mutex, pipe or condition variable in use: they break the protocols' assumptions.
- Opening and closing by name (mutex_open, cond_open, fifo_open and the file descriptor bits): the objects are modelled open.
- File I/O of the BMFS utility (initialize, format, read, write, list): only the directory in memory is modelled; a name is the C string in its field, of at most 31 characters.
- The process table, the foreground process, names and pids.
- Pipe.LosslessStream: writes that copy out of range (see `Pipe.Fifo.FifoWrite`) are not part of a run.
- Pipe.Fifo.FifoRead: the queue of readers is a sequence, which `LinkedQueue.Queue` stores; readers killed while waiting are not modelled.
- Scheduler.ProcessRing.EndProcess: freeing the list node is not modelled, and destroy_process is a log of the processes destroyed; `ProcessPages` models what it gives back.
- Scheduler.BoundedWaiting: the run has a runnable process at every switch and end; without one the source's loop does not stop.
- Timer.TimerHandler: unblocking follows the walk over the list instead of being part of it; both happen inside one interrupt, and unblocking changes a status field only.
- Timer.Sleep: the method joins the list and blocks with no tick in between (`Timer.SleepIsLostIff` has the tick), and the extra quantum and the yield are not part of it.
- Pages.PageAllocator.GetPage: the call is one step; what a caller that was queued does when it is woken is not part of it.
- Pages.PageAllocator.StorePage: likewise.
- ProcessPages.PageTable.FreeDataPages: nobody else holds the memory mutex during the loop; with waiting in between, the pages given back are the same.
- ProcessPages.PageTable.Destroy: likewise.
- BmfsNames.DirectoryRefinesMapIff: names have 1 to 31 characters, which is what the field holds, and do not start with the byte 1, which marks an unused record though the command line accepts it; sizes are at least 1 MiB, which the command line demands.
- BmfsNames.DirectoryStaysGoodIff: the same names and sizes, and disks of 2 to 2147483648 blocks.
- ProcessPages.EveryPageIsAccountedFor: allocations happen only while pages and stacks last, and a process frees only pages it was given.
- Numerals.Itoa: bases below 2 are excluded; base 0 traps and base 1 does not end.
- PhilosopherTheorems.HungryWaitsForEater: no freedom from starvation is claimed; it is false (`PhilosopherStarvation.StarvationIsReachable`).
