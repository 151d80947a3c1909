# Concurrent primitives, verified

A Dafny model of the hand-built Go primitives in `stack/`, `queue/`, `syncx/`, `park/`, `mapx/` and
`ratelimit/`, with proofs of what they promise. `dafny verify dfyconfig.toml` checks everything.

## How the code is modelled

**Lock-free and blocking protocols are step machines.** A state holds the shared memory and, for each
of any number of threads, a program counter with its local variables. One step is one shared access of
one thread; Go's atomics are one sequentially consistent order, so every interleaving is a schedule.
A blocked thread's step changes nothing. `Schedules` defines runs and the induction over them, and
"in every run" in the table below means: for every schedule, number of threads, ring size, spin limit
and argument. Machines carry a few bookkeeping fields that no step reads; each file names its own.

**Linearizability is refinement of an atomic object.** `Linearizability` defines an object that serves
each thread in three moves (call, effect, return). A run is linearizable when effects can be placed
between its calls and returns so that the object allows the whole history, answers included.

**"Left alone"** in the table means: after any run, wherever the other threads have stopped, only this
thread moves. Such results say what a call answers and after how many of its moves, so that a call that
does the right thing never, late or twice does not satisfy them. "From every state" needs no run before.

**Code under a mutex, and plain sequential code, is a class**: `SyncLRU` (map plus doubly-linked list
of `Node` objects), `RingQueue` and `MutexMPMC` (arrays), `TokenBucket`. Each method states its whole
new abstract state in terms of the old one, as a function of `LruSpec`, `BoundedFifo` or
`TokenBucketSpec`, about which the laws are then proved.

**Machine integers** are written out where they matter: the packed 64-bit word of `WaitGroup`, the
`uint32` epoch of the barrier, the `uint64` cursors of the SPSC rings and of `MutexMPMC`, and every
64-bit conversion, sum and product in `TokenBucket`.

The files: `EliminationStack`, `EliminationOffers`, `EliminationStackRuns`, `EliminationExact`,
`EliminationProgress` (Treiber stack with elimination array); `BoundedFifo`, `MutexMpmc`, `MpmcRing`,
`MpmcProgress`, `MpscRing`, `MpscProgress`, `SpscQueue`, `SpscProgress` (rings); `McsLock`, `ClhLock`,
`MutexLock`, `SeqLock`, `WaitGroup`, `WaitGroupRules`, `Barrier`, `RuntimeSemaphore`, `MutexSemaphore` (blocking);
`LruSpec`, `SyncLru`, `RingQueue`, `TokenBucketSpec`, `TokenBucket` (sequential); `Schedules`,
`Linearizability`, `Counting`, `Arithmetic`, `Bits`, `Wrappers` (shared).

## Where the code falls short of what it says

- A Pop of the elimination stack that gives up its second wait (`stack/elimination_backoff_mpmc.go:181`)
  can fetch the value (`:182`) before its partner has stored it (`:129`) and return the zero value nobody
  pushed. Every run in which no such Pop returns is linearizable, and in runs that never push the zero
  value no other is: `EliminationExact.LinearizableIff`.
- An `MCSLock` holder's Unlock can panic: the nil store of the previous Unlock (`syncx/lock.go:395`)
  comes after its tail CAS and can erase the new holder's owner word. `McsLock.UnlockPanicsIff`: a thread
  panics exactly when that has happened to it and it goes on to its nil check. Exclusion and order hold in
  every run.
- The comments on `MutexLock` (`syncx/lock.go:106-108`) read state 1 as "nobody is parked". A thread can
  be parked beside state 1. The comment holds throughout a run if and only if no Lock takes the fast path
  (`:156`) while somebody is parked: `MutexLock.WordOneIsTrueIff`. No wakeup is lost either way.
- `WaitGroup`: it is not enough to keep positive Adds at counter zero away from Waits; an `Add(0)` there
  can panic too. `WaitGroupRules.AddIsSafeIffPermitted` gives the exact rule, which is weaker than
  keeping Adds and Waits apart.
- `TokenBucket`: `tokens + added` (`ratelimit/token_bucket.go:127`) wraps, and tokens vanish, for
  capacities near 2^64. The product at `:110` overflows for waits beyond 292 years, and the second try
  then comes too early. The last 10^9 rates below 2^64 give negative intervals: each |interval| can then bring
  a whole bucket instead of a token, and no more (`TokenBucketSpec.EveryWindow`), so with a capacity of 2 or
  more the promised rate is exceeded, and only then (`TokenBucketSpec.RateIsKeptIff`). Rates between them
  and 10^9 never refill.
- "Calling Release without a prior Acquire panics" (`syncx/semaphore.go:14`) is true of `MutexSemaphore` and not of
  `RuntimeSemaphore`, which does not notice (`RuntimeSemaphore.ReleaseGoesUnnoticed`); from then on, and
  only then, more callers than init can hold a permit (`RuntimeSemaphore.ExceedsIffOverReleased`).
- The top-level README lists `MutexLock`, the CLH lock and the SPSC queues as scaffolds (`README.md:90`,
  `README.md:118`); all are implemented, and modelled as they are.

## Model

| member | source | states |
|---|---|---|
| EliminationStack.StackIsLinearizable | stack/elimination_backoff_mpmc.go:45-193 | Every run in which no Pop fetches a value (:176, :182) before its partner has stored it (:129) is linearizable to an atomic LIFO stack whose Pop answers empty exactly when nothing is on it; central operations take effect at the head CASes, an eliminated pair as push then pop at the CAS that takes the offer |
| EliminationStack.StepKeepsInv | stack/elimination_backoff_mpmc.go:45-193 | One shared access of any thread, other than such a fetch, extends the linearization found so far |
| EliminationStack.PushThenPop | stack/elimination_backoff_mpmc.go:127-131 | An eliminated pair is two atomic operations in a row, push then pop, that leave the stack as it was and both callers answered |
| EliminationStack.PlainFieldsAreOwned | stack/elimination_backoff_mpmc.go:48-153 | In every such run, of two threads that can both move only one is about to touch a given n.next or op.value, and no reference dangles |
| EliminationOffers.OfferIsRemovedOnce | stack/elimination_backoff_mpmc.go:117-183 | In every run of the code an offer leaves the array at most once: exactly once if it has been taken, finished or withdrawn, not at all before |
| EliminationOffers.OnlyOwnerOrPartnerRemoves | stack/elimination_backoff_mpmc.go:127-180 | In every run a slot is emptied of an offer only by its owner's withdrawal or by a thread of the opposite kind that takes it |
| EliminationOffers.StepKeepsShape | stack/elimination_backoff_mpmc.go:117-193 | Each access of any thread, early fetches included, keeps slots, offers and what their owners and takers know in agreement |
| EliminationStackRuns.Conservation | stack/elimination_backoff_mpmc.go:45-84 | Every copy of a pushed value has been popped, is on the stack or is inside a call, exactly once |
| EliminationStackRuns.NothingLostNothingTwice | stack/elimination_backoff_mpmc.go:45-84 | In every such run no value is returned more often than it was pushed; with no call in progress, pushed = returned + still linked from head |
| EliminationStackRuns.EarlyReturn | stack/elimination_backoff_mpmc.go:173-183 | At the moment a Pop gives up its second wait, fetching at once yields its partner's value if and only if the partner's plain store :129 has happened (or stores the zero value) |
| EliminationStackRuns.ImpatientPopIsNotLinearizable | stack/elimination_backoff_mpmc.go:181-182 | For every spin limit the unrestricted code has a run, two Pushes and a Pop on one slot, that is not linearizable |
| EliminationExact.LinearizableUnlessReturnedEarly | stack/elimination_backoff_mpmc.go:173-183 | Every run of the unrestricted code in which no Pop returns what it fetched before the partner's store is linearizable, whatever waits were given up |
| EliminationExact.NotLinearizableIfReturnedEarly | stack/elimination_backoff_mpmc.go:181-182 | If the zero value was never pushed, a run in which some Pop has returned what it fetched before that store is not linearizable |
| EliminationExact.LinearizableIff | stack/elimination_backoff_mpmc.go:45-193 | The two together: for all schedules that never push the zero value, linearizable if and only if no Pop has fetched early and returned |
| EliminationExact.PatientRunsAreRaceFree | stack/elimination_backoff_mpmc.go:181-193 | When every Pop waits for `done`, no two threads are ever about to touch the same n.next or op.value |
| EliminationProgress.HeadPathAlone | stack/elimination_backoff_mpmc.go:45-84 | In every run of the unrestricted code a Pop begun on a nonempty stack and left alone returns the value of the head node after five moves and head is the next node; a Push returns after five with its value on top; nothing else in the heap changes |
| EliminationProgress.PopAnswersTop | stack/elimination_backoff_mpmc.go:61-84 | In runs without an early fetch that value is the top of a stack that explains the run |
| EliminationProgress.EmptyPopAlone | stack/elimination_backoff_mpmc.go:61-115 | With nobody else inside, a Pop on an empty stack answers empty after exactly 2 * spinLimit + 15 moves, whatever slots it picks |
| EliminationProgress.PartnersMeet | stack/elimination_backoff_mpmc.go:117-193 | In every run a thread that visits a slot holding an offer of the opposite kind returns after six moves, and then the offer's owner after two to four: the Push is done and the Pop has its value |
| EliminationProgress.AloneReturns | stack/elimination_backoff_mpmc.go:45-193 | In every run any thread, at any point of its call, left alone has returned after at most 4 * spinLimit + 28 moves |
| EliminationProgress.FailuresAreBounded | stack/elimination_backoff_mpmc.go:51-77 | In every run a call has been sent to the array by a failed head CAS at most as often as head has changed since the call began |
| MpmcRing.RingIsLinearizable | queue/lockfree_mpmc.go:19-75 | For any number of threads and any N >= 2 every run is linearizable to a FIFO of capacity N, taking effect at the ticket CASes; a false answer needs a full (empty) queue or an operation of the other kind that has taken effect and not returned |
| MpmcRing.SeqnoOf | queue/lockfree_mpmc.go:28-33 | What the sequence number of a ticket's slot can show, for tickets before, inside and at the end of the current window |
| MpmcRing.RefusalsInRuns | queue/lockfree_mpmc.go:19-75 | In every run 0 <= tail - head <= N, and a look finds its slot's sequence number too small if and only if its ticket is still current and the ring is full (empty) or the slot's previous user is between its CAS and its seq store |
| MpmcRing.ValIsOwned | queue/lockfree_mpmc.go:43-70 | In every run the plain val of a slot is only touched by the one thread whose CAS won it |
| MpmcRing.RetriesAreBounded | queue/lockfree_mpmc.go:25-74 | Lock-freedom as a bound: a call has retried at most as often as the counter it competes for has grown since the call began |
| MpmcProgress.FalseIffJustified | queue/lockfree_mpmc.go:28-36 | In every run a thread returns false with its next two moves if and only if it is at its look and that condition holds |
| MpmcProgress.EnqueueAlone | queue/lockfree_mpmc.go:19-46 | In every run an Enqueue begun and left alone answers true after seven moves, or false after four exactly when the ring is full or the next slot is still being emptied |
| MpmcProgress.DequeueAlone | queue/lockfree_mpmc.go:48-75 | A Dequeue answers the oldest element of a queue that explains the run after eight moves, or false after four exactly when the ring is empty or its oldest element is still being written |
| MpmcProgress.AloneReturns | queue/lockfree_mpmc.go:19-75 | In every run any thread, at any point of its call, left alone has returned after at most nine moves |
| MpmcProgress.RoundsAreBounded | queue/lockfree_mpmc.go:25-74 | Counted by the moves of the run: a call has gone back to its first load at most as often as the counter it competes for has grown since the call began |
| MpmcRing.SizeOneOverfills | queue/lockfree_mpmc.go:28-44 | With N = 1 an Enqueue succeeds on a full ring, so N >= 2 is needed |
| MpscRing.RingIsLinearizable | queue/lockfree_mpsc.go:19-62 | With any number of producers, one consumer and N >= 2, every run is linearizable to the bounded FIFO, Dequeues at their seq store; Enqueue's false is exact |
| MpscRing.RefusalsAndOwnership | queue/lockfree_mpsc.go:19-62 | In every run 0 <= tail - freed <= N; a look finds its slot unusable if and only if the ring is full (for a Dequeue: is empty, or its oldest element is still being written); each slot's val is touched by one thread at a time |
| MpscProgress.FalseIffJustified | queue/lockfree_mpsc.go:29-54 | In every run a thread returns false with its next two moves if and only if it is at its look and that condition holds |
| MpscProgress.EnqueueAlone | queue/lockfree_mpsc.go:19-42 | In every run an Enqueue begun and left alone answers true after seven moves, or false after four exactly when the ring is full |
| MpscProgress.DequeueAlone | queue/lockfree_mpsc.go:45-62 | A Dequeue answers the oldest element of a queue that explains the run after seven moves, or false after three exactly when nothing is ready |
| MpscProgress.AloneReturns | queue/lockfree_mpsc.go:19-62 | In every run any thread, at any point of its call, left alone has returned after at most eight moves |
| MpscProgress.RoundsAreBounded | queue/lockfree_mpsc.go:26-41 | An Enqueue has gone back to its first load at most as often as the tail has grown since the call began |
| SpscQueue.QueueIsExact | queue/lockfree_spsc.go:19-99 | Both SPSC rings, from any cursor position and with counters wrapping modulo 2^64, are linearizable to the exact bounded FIFO: false means full (empty) at the cross-side load |
| SpscQueue.CellsAreExclusive | queue/lockfree_spsc.go:70-99 | However stale the cached cursors, producer and consumer never touch the same array cell |
| SpscProgress.EnqueueAlone | queue/lockfree_spsc.go:19-82 | In every run an Enqueue left alone answers false after four moves exactly when the ring is full; otherwise true after six, or after seven when the cached ring has to make the cross-side load |
| SpscProgress.DequeueAlone | queue/lockfree_spsc.go:33-99 | A Dequeue answers false after four moves exactly when the ring is empty; otherwise the oldest element of a queue that explains the run after six, or after seven with the cross-side load |
| SpscProgress.FalseIffFullOrEmpty | queue/lockfree_spsc.go:21-91 | At the cross-side load, in every run: what the next moves answer is false if and only if the ring is full (empty) then |
| SpscQueue.WordMod | queue/lockfree_spsc.go:27 | Indexing by a wrapped cursor is indexing by the count it stands for, because N divides 2^64 |
| MutexMpmcs.MutexMPMC.Enqueue | queue/mutex_mpmc.go:16-30 | Appends to the contents and answers true, or answers false and changes nothing, exactly as the bounded FIFO does |
| MutexMpmcs.MutexMPMC.Dequeue | queue/mutex_mpmc.go:32-48 | Returns and removes the oldest element, or answers false with the zero value, exactly as the bounded FIFO does |
| McsLock.MutualExclusion | syncx/lock.go:373-405 | In every run at most one thread is between the end of Lock's wait and the step by which Unlock lets go |
| McsLock.GrantsFollowSwaps | syncx/lock.go:373-405 | In every run Lock returns in the order of the tail swaps |
| McsLock.UnlockIsSound | syncx/lock.go:386-405 | An Unlock past its nil check works on its own node; if its tail CAS is going to fail, or it waits for the link, a successor's next store has happened or is pending |
| McsLock.NeverStuck | syncx/lock.go:373-405 | While anyone is in the queue someone in it can move, or an Unlock has panicked with the lock in its hands |
| McsLock.StepKeepsInv | syncx/lock.go:373-405 | One access of any thread keeps the queue of nodes and the order of grants |
| McsLock.UnlockPanicsIff | syncx/lock.go:386-396 | In every run a thread has panicked if and only if a nil store :395 of another erased the owner word while it held the lock before its nil check :388, and it has made its moves up to that check since; so runs without such a store have no panic |
| McsLock.ErasedHolderPanics | syncx/lock.go:387-395 | After any such store in any run, the owner word stays nil in every continuation until that holder panics, which it does within two moves of its own |
| McsLock.HolderCanPanic | syncx/lock.go:394-395 | Such a run exists with two threads |
| McsLock.LogsAreMoves | syncx/lock.go:373-384 | The two logs are the swaps and the returns from Lock that the run has made, in order |
| McsLock.FreeLockAlone | syncx/lock.go:373-384 | From every state a Lock that nobody queues for, left alone, returns after three moves |
| McsLock.LastUnlockAlone | syncx/lock.go:386-396 | From every state the Unlock of a holder whose owner word stands, with nobody behind, returns after five moves and leaves no queue and no owner |
| McsLock.HandOverAlone | syncx/lock.go:386-405 | With a linked successor it returns after five and has unlocked the successor's node |
| McsLock.UnlinkedHandOver | syncx/lock.go:394-405 | With a successor that has swapped and not linked it waits for the link after four, and returns three moves after the link |
| McsLock.GrantedAlone | syncx/lock.go:380-383 | A spinning thread whose node is unlocked has the lock and the owner word after two moves |
| ClhLock.ExclusiveAndFifo | syncx/lock.go:323-340 | In every run at most one holder, and Lock returns in the order of the tail swaps |
| ClhLock.NeverStuck | syncx/lock.go:323-340 | While anyone is in the queue, someone in it can move |
| ClhLock.StepKeepsInv | syncx/lock.go:323-340 | One access of any thread keeps the implicit queue: each waiter spins on the node of the thread before it |
| ClhLock.LogsAreMoves | syncx/lock.go:323-331 | The two logs are the swaps and the returns from Lock that the run has made, in order |
| ClhLock.LockAlone | syncx/lock.go:323-331 | From every state a Lock with nobody ahead, left alone, returns after two moves, or three when there is a released node to look at |
| ClhLock.UnlockAlone | syncx/lock.go:338-340 | From every state Unlock is done after two moves, and whoever spins on the holder's node has the lock with its next move |
| MutexLock.MutexIsSound | syncx/lock.go:154-177 | In every run at most one holder, state 0 exactly when nobody holds, and no wakeup is lost: a sleeper without a stored permit means state 2, an Unpark to come or an awake thread about to Swap |
| MutexLock.NoSleepOnFreeLock | park/park.go:93-99 | No run is stuck with a free lock and a thread asleep |
| MutexLock.WakeupKept | syncx/lock.go:160-177 | Each step keeps the no-lost-wakeup condition |
| MutexLock.WordOneBesideASleeper | syncx/lock.go:104-108 | A run in which state is 1, the lock is held and a thread is parked, against the comment |
| MutexLock.WordOneIsTrueIff | syncx/lock.go:104-108 | In every run state 1 always means that nobody is parked if and only if no fast-path CAS :156 succeeds while somebody is parked, whether parked means inside Park or inside it without a stored permit |
| MutexLock.StepLiesIff | syncx/lock.go:154-177 | From a state in which 1 does not stand beside a parked thread, the one step that leads to such a state is a fast-path CAS that succeeds beside one |
| MutexLock.LockAlone | syncx/lock.go:154-168 | From every state a Lock left alone takes a free lock in two moves and leaves state 1; on a held lock it is parked after three with state 2 |
| MutexLock.UnlockAlone | syncx/lock.go:170-177 | From every state Unlock frees a lock in state 1 in two moves and wakes nobody, one in state 2 in four and stores a permit |
| MutexLock.WokenAlone | syncx/lock.go:160-166 | From every state a parked thread with a permit stored takes it and after two moves holds the lock if it is free, and is parked again if not, with state 2 |
| MutexLock.PermitsCount | park/park.go:93-99 | In every run the stored permits are the Unparks made less the Parks that have returned |
| SeqLock.SnapshotsAreCommitted | syncx/lock.go:235-264 | Any writers, readers and words, read one at a time in any order: a snapshot accepted by Read or ReadValidate is one committed version, and one reader's versions never go back |
| SeqLock.NumberTellsWriters | syncx/lock.go:235-243 | Writers exclude each other and seq is odd exactly while one is inside |
| SeqLock.AcceptedIff | syncx/lock.go:245-264 | In every run a reader accepts if and only if no writer was inside at its Begin and no writer has made one of its two Adds since; its snapshot is then of exactly the words it read, as they were at its Begin. Otherwise Read begins again and ReadValidate reports failure; only Read waits while a writer is inside |
| SeqLock.WritesAreApplied | syncx/lock.go:235-243 | While a writer is inside, the words change by its writes, in order, and by nobody else's |
| SeqLock.WriteLockAlone | syncx/lock.go:235-238 | From every state WriteLock left alone gets a free mutex and is inside after three moves with the number bumped |
| SeqLock.WriteUnlockAlone | syncx/lock.go:240-243 | From every state WriteUnlock is done after three moves, the number bumped and the words committed |
| WaitGroup.NoPanicAndConservation | syncx/latch.go:251-299 | Used by the rules, no run panics, and registered waiters = waiters in the word + releases owed + permits stored, at every step |
| WaitGroupRules.AddIsSafeIffPermitted | syncx/latch.go:251-276 | The rules are exact: in every run that kept them so far, an Add of 32 bits keeps them if and only if the calls in progress cannot panic after it without a further Add |
| WaitGroupRules.BreakingAddPanics | syncx/latch.go:256-295 | An Add out of range, a positive Add at zero beside a registered waiter (even with none in the word), or an Add(0) at zero with waiters in the word: each has a continuation that panics |
| WaitGroup.WaitReturnsAfterZero | syncx/latch.go:282-299 | Wait returns only after the counter was zero during the call |
| WaitGroup.NoStrandedWaiter | syncx/latch.go:272-275 | While the counter is zero and someone sleeps, someone can move towards waking him |
| WaitGroup.CounterIsSum | syncx/latch.go:251-276 | In every ruled run the counter is the sum of the deltas of the Adds made |
| WaitGroup.AddAlone | syncx/latch.go:251-266 | A permitted Add left alone has moved the counter by delta, and nothing else, after two moves, and has returned unless the counter is zero with waiters in the word |
| WaitGroup.CloserAlone | syncx/latch.go:267-275 | The Add that brings the counter to zero, left alone, stores exactly one permit for each waiter in the word, clears it and returns |
| WaitGroup.WaitAlone | syncx/latch.go:282-291 | From every state a Wait left alone returns with its second move if the counter is zero, and otherwise has registered one waiter and sleeps after its third |
| WaitGroup.WokenAlone | syncx/latch.go:291-297 | A sleeper with a permit stored takes it and returns after two moves |
| WaitGroup.ZerosCount | syncx/latch.go:251-276 | The count of falls to zero used above is that of the moves of the run |
| WaitGroup.AddMovesCounter | syncx/latch.go:252-254 | The 64-bit addition of a shifted, possibly negative delta moves the counter by delta and leaves the waiters alone |
| WaitGroup.AddInHighHalf | syncx/latch.go:252 | For any delta, only its low 32 bits reach the counter, modulo 2^32 |
| WaitGroup.AddKeepsInv | syncx/latch.go:251-270 | A permitted Add keeps the balance and never takes a panicking branch |
| WaitGroup.AddZeroCanPanic | syncx/latch.go:260-270 | With only positive Adds kept away from Waits, a panic is reachable |
| Barrier.RoundsAreSeparated | syncx/barriers.go:103-115 | Nobody returns from a round before everyone has taken a seat in it; parties are at most one round apart; over any number of rounds, epoch wrapping included |
| Barrier.NotAllStuck | syncx/barriers.go:103-115 | Not all parties can be stuck spinning |
| Barrier.PublishKeepsInv | syncx/barriers.go:106-110 | The last arriver's release ends the round: all were seated in it and none is seated in the next |
| Barrier.RoundsGoOn | syncx/barriers.go:103-115 | In every run the parties make, spinning not counted, at most 6 * count moves a round: so many more, and a further round has ended |
| Barrier.CountsAreMoves | syncx/barriers.go:103-115 | Seats taken and Waits returned are counted by the moves of the run |
| RuntimeSemaphore.HoldersAreBounded | syncx/semaphore.go:332-348 | Counted by the moves of the run, Releases without a permit included: the counter is init - Acquires through their CAS + Releases through their Add; Acquires returned - Releases = init - free permits - permits in sema - wakeups pending; holders are that difference plus the Releases too many, at most init exactly while every invented permit is unclaimed |
| RuntimeSemaphore.ExceedsIffOverReleased | syncx/semaphore.go:344-348 | In every run with no Release about to add its permit, Acquires alone can bring the holders above init if and only if some Release was made while no permit was held |
| RuntimeSemaphore.ReleaseGoesUnnoticed | syncx/semaphore.go:344-348 | A Release on a fresh semaphore returns as any other and leaves init + 1 permits |
| RuntimeSemaphore.SleepersMeanExhausted | syncx/semaphore.go:332-348 | A thread sleeps with no wakeup stored or pending only while Acquires returned - Releases = init |
| RuntimeSemaphore.AcquireAlone | syncx/semaphore.go:332-342 | From every state an Acquire left alone returns with a free permit, or sleeps, after three moves; a sleeper with a wakeup stored returns with its next |
| RuntimeSemaphore.ReleaseAlone | syncx/semaphore.go:344-348 | From every state a Release returns after two moves with one permit more, or after three with a wakeup stored too when somebody is counted as asleep |
| RuntimeSemaphore.StepBalances | syncx/semaphore.go:332-348 | What a step adds to one of these places it takes from another |
| MutexSemaphore.FairAndBounded | syncx/semaphore.go:100-133 | In every run permits are granted strictly in arrival order, at most init are out, and a thread waits only while all are |
| MutexSemaphore.LogsAreCalls | syncx/semaphore.go:100-133 | Arrivals are the Acquires of the run in order; grants are the Acquires that have returned and those whose gate is open, who return with their next move; Acquires returned - Releases gone through <= init |
| MutexSemaphore.AcquireAlone | syncx/semaphore.go:100-114 | In every run an Acquire returns at once if and only if, counted by calls, a permit is free |
| MutexSemaphore.HandoffKeepsInv | syncx/semaphore.go:125-131 | A Release with waiters hands its permit to the oldest one and leaves the count |
| MutexSemaphore.PanicsIffNoneOut | syncx/semaphore.go:121-123 | Release panics exactly when every permit granted has been given back |
| LruSpec.RunIsCache | mapx/lru.go:71-95 | After any trace the keys are distinct and at most cap |
| LruSpec.RunIsInOrder | mapx/lru.go:71-112 | After any trace the entries are ordered by last request, and each carries the value last put |
| LruSpec.EvictsLeastRecent | mapx/lru.go:86-94 | A Put of a new key into a full cache drops exactly the key requested longest ago |
| LruSpec.RunsAreIncluded | mapx/lru.go:71-112 | On the same trace the entries of the smaller cache are those of the larger with some left out, same order and values |
| LruSpec.LargerCacheHoldsMore | mapx/lru.go:71-112 | Inclusion: whatever the smaller cache holds, the larger holds with the same value |
| SyncLru.SyncLRU.Put | mapx/lru.go:71-95 | On the heap: map, links and sentinels stay consistent and the recency list becomes the ideal cache's after the Put |
| SyncLru.SyncLRU.Get | mapx/lru.go:97-112 | Hits exactly the keys held, with their value, and moves the key to the recent end; a miss changes nothing |
| SyncLru.SyncLRU.constructor | mapx/lru.go:63-69 | An empty valid cache between two linked sentinels |
| SyncLru.SyncLRU.RemoveNode | mapx/lru.go:114-123 | Takes one node out of the list, keeps the others linked both ways in order, and clears the node's links |
| SyncLru.SyncLRU.AppendTail | mapx/lru.go:125-133 | Puts a node at the recent end and keeps the others |
| SyncLru.SyncLRU.Evict | mapx/lru.go:87-89 | The oldest entry leaves list and map together |
| SyncLru.SyncLRU.MapFinds | mapx/lru.go:79-111 | The map and the list hold the same keys, each once, and agree on the value |
| SyncLru.FitsWithoutOldest | mapx/lru.go:87-89 | Map and list agree again after the oldest node leaves both |
| SyncLru.FitsMoved | mapx/lru.go:107-108 | Moving a node to the recent end leaves map and list in agreement and the other entries in order |
| RingQueues.RingQueue.Push | syncx/channel.go:52-59 | Appends to the contents whether or not the array grows; all elements ever copied by grow are at most twice the pushes |
| RingQueues.RingQueue.Peek | syncx/channel.go:61-67 | The oldest element if there is one, and no change |
| RingQueues.RingQueue.Pop | syncx/channel.go:69-79 | Returns and removes the oldest element; cells outside the queue hold the zero value |
| RingQueues.RingQueue.Grow | syncx/channel.go:81-90 | Doubles a full, possibly wrapped ring without changing its contents; mask = length - 1 and the power of two are kept |
| RingQueues.RingQueue.Unroll | syncx/channel.go:82-85 | The two copies lay the wrapped ring out from cell 0 in order |
| RingQueues.NextCell | syncx/channel.go:57 | Masking the next index is wrapping it at the end of the array |
| RingQueues.Select | syncx/channel.go:100-120 | One pass of the mediator keeps: sent followed by buffered = received; it stops only after all input |
| RingQueues.OrderedChannel | syncx/channel.go:92-132 | Whatever select chooses, the output is the input |
| Bits.MaskIsMod | queue/queue.go:10-13 | And-ing with a mask of k ones is the remainder modulo 2^k |
| TokenBucketSpec.EveryWindow | ratelimit/token_bucket.go:74-129 | Over any window of any run of attempts the tokens granted are at most capacity + ceil(length / interval); with a negative interval at most capacity * (1 + ceil(length / abs(interval))) |
| TokenBucketSpec.WindowBound | ratelimit/token_bucket.go:74-129 | The same from any level of the bucket, for a window given by its end points |
| TokenBucketSpec.SinceCreation | ratelimit/token_bucket.go:57-129 | Since creation at most capacity + floor(elapsed / interval), and capacity times as many for a negative interval, for every capacity and any idle time |
| TokenBucketSpec.RunSpendsCredit | ratelimit/token_bucket.go:74-129 | Tokens granted, held and still to be brought by a given time never increase over a run |
| TokenBucketSpec.BucketIsIdeal | ratelimit/token_bucket.go:57-129 | A bucket that cannot wrap answers every run since its creation exactly as an ideal limiter that gains one token at each whole interval and keeps at most its capacity: no part of an interval is ever lost or counted twice |
| TokenBucketSpec.CreditExact | ratelimit/token_bucket.go:74-129 | Over a run without cut-offs, granted + credit left = credit before |
| TokenBucketSpec.PayableIsGranted | ratelimit/token_bucket.go:74-129 | After such a run a request is granted if tokens at the start + whole intervals elapsed - granted can pay for it |
| TokenBucketSpec.KeepsRateIff | ratelimit/token_bucket.go:74-129 | Every window of every run keeps the bound capacity + ceil(length / abs(interval)) (capacity alone for interval 0) if and only if the interval is not negative or the capacity is at most 1 |
| TokenBucketSpec.RateIsKeptIff | ratelimit/token_bucket.go:57-68 | In terms of the constructor's arguments: if and only if the rate is below 2^64 - 10^9 or the capacity is at most 1 |
| TokenBucketSpec.LosesNothingIff | ratelimit/token_bucket.go:126-127 | Refilling yields min(capacity, tokens + earned) always if and only if capacity + (2^63 - 1) / interval < 2^64 |
| TokenBucketSpec.ComposesIff | ratelimit/token_bucket.go:121-129 | Refilling at t1 then t2 equals refilling at t2 if and only if the same condition holds, or capacity is 2^64 - 1 |
| TokenBucketSpec.FailureIsInvisible | ratelimit/token_bucket.go:74-86 | Deleting a failed attempt from a run changes no later answer, for every capacity and every interval, wraps included |
| TokenBucketSpec.SecondTryIff | ratelimit/token_bucket.go:109-117 | With no competitor the try after the timer always succeeds if and only if needed * interval fits an int64 |
| TokenBucketSpec.SecondTry | ratelimit/token_bucket.go:92-119 | From any level, when neither the sum at :127 nor a full wait overflows: a first try that fails is followed by a second that succeeds |
| TokenBucketSpec.IntervalOf | ratelimit/token_bucket.go:58-61 | Which rates give positive, zero and negative intervals, and how close interval comes to 1/rate |
| TokenBucketSpec.ZeroIntervalNeverRefills | ratelimit/token_bucket.go:122-124 | With interval 0 the tokens granted and left over any run are those there at its start |
| TokenBucketSpec.NegativeIntervalRefill | ratelimit/token_bucket.go:125-128 | A negative interval takes tokens away as time passes, and when it takes more than there are the bucket fills up |
| TokenBucketSpec.NegativeIntervalOverspends | ratelimit/token_bucket.go:74-129 | With any negative interval and a capacity of 2 or more the bucket grants its whole capacity at once and again one abs(interval) later, above the promised bound |
| TokenBuckets.TokenBucket.constructor | ratelimit/token_bucket.go:57-68 | A full bucket with the interval of its rate |
| TokenBuckets.TokenBucket.RefillLocked | ratelimit/token_bucket.go:121-129 | The fields become those of the refill function, wraps included |
| TokenBuckets.TokenBucket.AllowN | ratelimit/token_bucket.go:74-86 | Grants, or refuses and takes nothing; requests above capacity do not even refill |
| TokenBuckets.TokenBucket.WaitN | ratelimit/token_bucket.go:92-119 | Is a run of attempts, each set by the timer after the one before, of which at most the last one takes tokens; oversized requests fail at once; Cancelled exactly when the context is done during the select after the last attempt; a zero interval blocks until cancelled; alone, not cancelled and within the conditions of SecondTry it succeeds by its second attempt |

## Left out

- TokenBucketSpec.EveryWindow: leaves interval 0 to ZeroIntervalNeverRefills, and assumes less than 2^63 ns (292 years) between creation and the end of the window, since time.Since saturates there; SinceCreation needs no such bound.
- TokenBucketSpec.KeepsRateIff: speaks of windows that end within 292 years of creation, for the same reason.
- TokenBucketSpec.FailureIsInvisible: assumes less than 292 years between the last refill and the last attempt, for the same reason.
- TokenBuckets.TokenBucket.WaitN: the method is one caller alone; competing callers are the arbitrary attempts between its own in the runs of TokenBucketSpec.
- EliminationStack.StackIsLinearizable: leaves out the early fetches; EliminationExact.LinearizableIff covers all runs that never push the zero value, and LinearizableUnlessReturnedEarly all others one way.
- MpmcRing.RingIsLinearizable: tickets are unbounded numbers, so overflow of the uint64 counters is not modelled, and N is at least 2; SizeOneOverfills shows why.
- MpscRing.RingIsLinearizable: unbounded tickets and N at least 2, as for MpmcRing.
- SeqLock.SnapshotsAreCommitted: the sequence number does not wrap.
- WaitGroup.NoPanicAndConservation: assumes fewer than 2^32 threads and the rules of use named by `Permitted`, which WaitGroupRules shows exact for deltas of 32 bits; of a wider delta only the low half reaches the counter (AddInHighHalf).
- RuntimeSemaphore.HoldersAreBounded: init is not negative, and the counter does not overflow an int64.
- MutexLock.MutexIsSound: Unlock is called only by the holder; the code does not check. The same goes for McsLock and ClhLock.
- Barrier.RoundsAreSeparated: exactly `count` threads take part; the constructor's panic for count <= 0 is left out.
- RingQueues.OrderedChannel: the input is finite and then closed, and a receiver that stops reading is a run that has not ended; the goroutine and the channels themselves are parameters.
- The lock-free and blocking protocols work on values, one state per step, not on Go objects: interleaving cannot be expressed in a class.
- Runtime semaphores are counters whose acquire blocks at zero, sync.Mutex is an atomic section, time.Now is an input, the random slot is chosen by the schedule; panics end a thread.
- Liveness under fair scheduling; shown are the absence of stuck states, bounds on retries and rounds, and what a thread left alone does.
- TokenBucketSpec.BucketIsIdeal: assumes the condition of LosesNothingIff, and windows that end within 292 years of creation.
- TokenBucketSpec.CreditExact: the same; runs with cut-offs are covered by BucketIsIdeal.
- TokenBucketSpec.PayableIsGranted: the same.
- The plain Treiber stack of stack/lockfree_mpmc.go has no machine of its own; it is the CAS path of the elimination stack.
- queue/lockfree_padded_mpmc.go, queue/mutex_mpsc.go and the mutex stacks repeat algorithms modelled here.
- LockfreeSemaphore ignores the result of its waiter queue's Enqueue, so an exact wakeup claim does not hold for it.
- SpinLock, TicketLock, CountingBarrier, the spin and channel latches, ChannelSemaphore, CondSemaphore and UnorderedChannel would add easy members only.
- Types with empty bodies (tree, tournament, dissemination and butterfly barriers, SemaLatch, NotifyListLatch, RCULock) and the packages that are indexes.
- Worker pools, promises and futures, broadcast, and peterson/peterson.go, whose plain racy fields an interleaving proof would not describe.
