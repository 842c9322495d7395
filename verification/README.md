# FlowKernel: a verified model

FlowKernel is a three-priority message kernel. Zenoh callback threads verify frames and hand them to one
reactor thread: CRITICAL and NORMAL frames through one bounded ring, BACKGROUND frames through latest-only
slots. The reactor drains both, runs the subscribers' callbacks, and sleeps on an eventfd watched by io_uring.
This project models that machinery in Dafny and proves what it keeps over every run. Check it with
`dafny verify dfyconfig.toml`.

The code is modelled in two forms that meet in shared specifications.

* **State machines over atomic steps**, one program counter per thread, for everything that is concurrent.
  Runs are sequences of states and steps of any length, with any number of threads, and every theorem about a
  run quantifies over every interleaving.
  * `RingSteps` is the ring (`include/robot_dataflow/mpsc_queue.hpp:55-94`, in Rust
    `flowkernel-rs/crates/flowkernel-queue/src/mpsc.rs:67-109`): lock, load tail, load head, construct, store tail,
    unlock; load head, load tail, move out, destroy, store head. Each index load may return *any* published value no
    older than the last one the thread has seen itself or has been handed through the lock. `RingSafety` proves the
    ring safe under such loads; `RingRefinement` proves it a bounded FIFO.
  * `SlotSteps` is the latest-only slot, with the Rust drain's `try_write` as a step that passes a held slot over; it
    refines the one-place register of `LatestOnly`.
  * `Kernel` is the whole system: callback threads, the reactor's `run` and `handle_events`, the eventfd, the
    one-shot poll, `stop` and `reset_stats`. The ring and the slots in it are the two machines above. `KernelInv`,
    `KernelWakeup`, `KernelDelivery`, `KernelScan`, `KernelConservation`, `KernelAccounting`, `KernelWrites`, `KernelCycle`, `KernelTurns` and `Progress` prove its properties.
  * `StaleWakeup` is the wakeup protocol over the ring with stale loads: the eventfd hands over what its writers have seen.
  * `RustReactor` is the Rust reactor: workers, event loop, wakeup permit and the blocking pool that runs NORMAL and
    BACKGROUND callbacks later, over a bounded queue and latest-only slots; `RustOrder` says in which order callbacks
    run, `RustCounters` what the counters count and `RustCycle` how the loop goes round.
  * `Sessions` is the last-seen table of robots, with the callbacks that update it and a reader that reports ages.
* **Classes with heap state**, for the code that works in place: `MpscQueue.MPSCQueue` over an array,
  `LatestCache.LatestSampleSlot` and `LatestSampleCache`, and `Reactor.DataFlowReactor`, whose `HandleEvents`
  drains the other two and whose `HandleFrame` fills them. Each method is proved against a function or relation, and
  those have their own theorems: `BoundedFifo` for the ring and `LatestOnly` for the slot, which the step machines refine
  too, and `Routing`, `Accounting` and `Latency`.

`Fnv`, `Mask` and `Routing` hold the hash, the index arithmetic and the handler index; `Collections` holds
the shared definitions.

Where the code and its comments differ, the model follows the code:

* CRITICAL and NORMAL frames share one FIFO (`src/reactor.cpp:64-68`), so a CRITICAL frame never overtakes a NORMAL
  frame accepted before it, although `README.md:36` separates the priorities. What the code does give is
  `KernelDelivery.BoundedBypass`.
* "No drop" for NORMAL frames means dropped only when the ring is full, and counted.
* `src/reactor.cpp:188` promises that a failed arming is retried by the next `handle_events`; no such retry exists.
  It is not needed: `KernelWakeup.PollToken` shows that the submission queue never fills.
* The `static_assert` on the capacity admits powers of two and also 0 (`Mask.StaticAssertAccepts`).
* A robot's last-seen time can go backwards, because callbacks read the clock before they take the lock.
  `Sessions.SightingGoesBack` is such a run. It takes two callback threads, and two suffice (`Sessions.GoesBackNeedsTwo`); it
  cannot happen while one callback at a time handles a robot (`Sessions.OneWriterMonotone`).
* `new_dropped * critical_count_last_` can wrap. The two drop counters still add up to the ring's
  (`Accounting.AttributionComplete`); the split is the proportional one exactly when it does not wrap
  (`Accounting.PartExact`).
* The Rust reactor spawns NORMAL and BACKGROUND callbacks onto a thread pool, where their order is lost
  (`RustOrder.PoolReorders`); a ring handler's callbacks always keep their place before what is accepted later exactly when
  the handler is CRITICAL (`RustOrder.FirstExactly`). `normal_processed` and `background_processed` count callbacks when they
  are launched (`RustCounters.CountersTellRun`).
* With colliding hashes the C++ index keeps the first handler and the Rust index the last one; the two agree exactly
  when the hashes are distinct (`Routing.IndicesAgree`).
* A Rust worker notifies for a CRITICAL frame even when its push was refused; the C++ callback does not wake then.

## Model

| member | source | states |
|---|---|---|
| `RingSafety.NextInv` | include/robot_dataflow/mpsc_queue.hpp:55-94 | every atomic step of any producer or of the consumer keeps the ring invariant, with index loads that may be stale; its core is that whoever holds the push lock has last seen a head less than a lap behind the tail |
| `RingSafety.RunSafe` | include/robot_dataflow/mpsc_queue.hpp:55-94 | in every run, any number of producers, any power-of-two capacity, stale loads: no object is constructed over an unconsumed one, no raw storage is read or destroyed, and at most capacity - 1 items are queued |
| `RingSafety.LoadHeadInv` | include/robot_dataflow/mpsc_queue.hpp:63-71 | the full test on masked indices refuses exactly when the head it loaded, old or not, is capacity - 1 items behind the tail |
| `RingSafety.OldHeadPassesTest` | include/robot_dataflow/mpsc_queue.hpp:55-66 | in a full ring a push testing an older head would pass the test, for every head less than a lap old; only a view that covers the queue is refused, which is why the lock must hand on what its holder saw |
| `RingRefinement.StepRefines` | include/robot_dataflow/mpsc_queue.hpp:55-94 | each atomic step is one operation of a FIFO of capacity - 1 items or none; with fresh loads push gives up at an instant when the queue is full, and only then, and pop when it is empty, and only then |
| `RingRefinement.RunIsFifo` | flowkernel-rs/crates/flowkernel-queue/src/mpsc.rs:67-109 | a sequentially consistent run of any length is a run of the bounded FIFO |
| `RingRefinement.RunConserves` | include/robot_dataflow/mpsc_queue.hpp:55-94 | over any run, stale loads included, accepted items in lock order equal the items handed out followed by the items still queued |
| `RingRefinement.ProducerOrder` | include/robot_dataflow/mpsc_queue.hpp:55-77 | each producer's accepted items are exactly those of its successful calls, in the order it made them |
| `RingRefinement.NoItemLost` | include/robot_dataflow/mpsc_queue.hpp:66-77 | every item of every push call is still with its producer, accepted, or refused, as often as it was pushed; the drop counter is the number of refusals |
| `RingRefinement.WalkDestroys` | include/robot_dataflow/mpsc_queue.hpp:34-41 | the destructor's walk from head to tail visits exactly the live slots, across the wrap, in construction order, and leaves all storage raw |
| `RingRefinement.DestroyedOnce` | include/robot_dataflow/mpsc_queue.hpp:34-41 | over any run that ends in destruction each object placed in the ring is destroyed exactly once, by pop or by the destructor, and nothing stays live |
| `MpscQueue.PopItems` | include/robot_dataflow/mpsc_queue.hpp:90-92 | emptying the head slot and advancing the masked head removes the oldest item and no other, across the wrap |
| `MpscQueue.MPSCQueue.Push` | include/robot_dataflow/mpsc_queue.hpp:55-77 | the array ring refines the same FIFO: appends and returns true exactly when fewer than capacity - 1 items are queued, otherwise changes only the drop counter |
| `MpscQueue.MPSCQueue.Pop` | include/robot_dataflow/mpsc_queue.hpp:85-94 | hands out the oldest item, or nothing exactly when the queue is empty |
| `MpscQueue.MPSCQueue.Destroy` | include/robot_dataflow/mpsc_queue.hpp:34-41 | the loop terminates, destroys the queued items once each, oldest first, and leaves every slot raw |
| `MpscQueue.MPSCQueue.Len` | flowkernel-rs/crates/flowkernel-queue/src/mpsc.rs:117-121 | the masked wrapping difference is the exact number of queued items |
| `MpscQueue.MPSCQueue.IsFull` | flowkernel-rs/crates/flowkernel-queue/src/mpsc.rs:129-134 | true exactly when capacity - 1 items are queued |
| `Mask.MaskIsMod` | include/robot_dataflow/mpsc_queue.hpp:64-64 | x & (2^k - 1) = x mod 2^k for all x and k, with & defined digit by digit |
| `Mask.StaticAssertAccepts` | include/robot_dataflow/mpsc_queue.hpp:30-30 | Capacity & (Capacity - 1) = 0 holds exactly for the powers of two and for 0 |
| `Mask.LenExact` | flowkernel-rs/crates/flowkernel-queue/src/mpsc.rs:117-121 | the masked 64-bit difference of two masked indices is tail position minus head position exactly when the head has not overtaken the tail and they are less than a lap apart |
| `Mask.FullExact` | flowkernel-rs/crates/flowkernel-queue/src/mpsc.rs:129-134 | the masked full test succeeds exactly when capacity - 1 items are queued |
| `SlotSteps.NextInv` | include/robot_dataflow/latest_cache.hpp:39-78 | every atomic step of any putter or the taker, or of a drain that skips a held lock, keeps the slot invariant: one lock holder, one fate per sample, only the newest can wait |
| `SlotSteps.EveryPutAccounted` | include/robot_dataflow/latest_cache.hpp:39-78 | puts = takes + drop count + 1 if one waits, in every state; taken samples and overwritten samples are the puts with that fate, in put order |
| `SlotSteps.TakeIsLatest` | include/robot_dataflow/latest_cache.hpp:62-78 | a take under the lock hands out the last sample put before it, or nothing when that one was taken already |
| `SlotSteps.RunIsLatestOnly` | include/robot_dataflow/latest_cache.hpp:39-78 | a run of any length with any number of putters is a run of the latest-only register with its 64-bit drop counter, and every take hands out the register |
| `SlotSteps.NoSampleLost` | flowkernel-rs/crates/flowkernel-cache/src/latest.rs:93-106 | no sample vanishes or is duplicated, even when the drain skips a slot whose lock is held |
| `LatestCache.LatestSampleSlot.Put` | include/robot_dataflow/latest_cache.hpp:39-56 | the put of the latest-only register that the step machine refines: the new sample replaces the old one, and the 64-bit drop counter moves exactly when there was one |
| `LatestCache.LatestSampleSlot.Take` | include/robot_dataflow/latest_cache.hpp:62-78 | the take of that register: hands out the content, leaves the slot empty and the counter alone |
| `LatestCache.LatestSampleCache.PreAllocate` | include/robot_dataflow/latest_cache.hpp:101-104 | an empty slot for a new hash; a hash that has a slot keeps it with its content |
| `LatestCache.LatestSampleCache.GetSlotFast` | include/robot_dataflow/latest_cache.hpp:116-120 | a slot is returned exactly when the hash was allocated, it is the one drained at the place of that hash and at no other place, and its state is the one shown there |
| `LatestCache.OfferCounted` | include/robot_dataflow/latest_cache.hpp:39-56 | putting into an allocated slot keeps or counts: the new sample waits, and samples waiting plus samples dropped grow by exactly one, modulo 2^64 |
| `LatestCache.LatestSampleCache.Drain` | include/robot_dataflow/latest_cache.hpp:134-142 | hands out the sample of every occupied slot in iteration order and empties it; slots whose lock is held are passed over unchanged |
| `LatestCache.LatestSampleCache.GetTotalDropped` | include/robot_dataflow/latest_cache.hpp:147-154 | the sum of the slots' drop counters modulo 2^64 |
| `LatestCache.NothingLost` | flowkernel-rs/crates/flowkernel-cache/src/latest.rs:93-106 | what a drain hands out and what it leaves for the next one is exactly what was waiting, whichever locks were held |
| `LatestCache.DrainedAll` | flowkernel-rs/crates/flowkernel-cache/src/latest.rs:93-106 | a slot whose lock is held keeps its sample and every other slot ends empty, each with its drop counter |
| `LatestCache.WaitingInOrder` | include/robot_dataflow/latest_cache.hpp:134-142 | samples are handed out slot by slot in iteration order, one for each occupied slot that is not held |
| `LatestCache.DrainDropsNothing` | include/robot_dataflow/latest_cache.hpp:134-142 | a drain moves no drop counter |
| `KernelInv.NextInv` | src/reactor.cpp:195-277 | every step of every thread of the whole kernel keeps the global invariant: embedded machines, agreement of program counters, routed hashes |
| `KernelInv.EveryLookupSucceeds` | src/reactor.cpp:478-508 | in every run no frame is left unrouted: every hash in the ring or a slot is in the index and every BACKGROUND callback finds its slot |
| `KernelWakeup.PollToken` | src/reactor.cpp:184-193 | in every run exactly one of poll armed, completion pending, reactor about to arm; so the submission queue never fills and a completion always means a readable eventfd |
| `KernelWrites.ReadableSinceWrite` | src/reactor.cpp:535-539 | in every run the eventfd is readable if and only if a callback or a stop has written it since it was last read |
| `KernelWrites.WakeupsPaid` | src/reactor.cpp:534-542 | in every run the completions the reactor has waited for are at most the writes of the eventfd, so an old write never wakes it twice |
| `KernelWrites.WritesExact` | src/reactor.cpp:70-78 | in every run the eventfd writes by callbacks, plus the callbacks that have still to write, are exactly as many as the CRITICAL frames accepted into the ring: one write each and none for any other frame |
| `KernelWrites.CallbacksReturn` | src/reactor.cpp:64-86 | in every run each frame offered has had its callback return exactly once, or a callback is still busy with it |
| `KernelWakeup.NoLostWakeup` | src/reactor.cpp:68-77 | whenever the reactor waits while a CRITICAL frame is queued whose eventfd write is done, the eventfd is positive and the wait's completion is pending or can be produced at once: the timeout is not needed |
| `StaleWakeup.NoLostWakeup` | src/reactor.cpp:68-77 | with every stale load the ring allows: once the eventfd write for an accepted CRITICAL frame is done, the eventfd is readable or the reactor has seen the frame, in which case no pop reports empty before it is popped; and past the empty observation with the frame still queued the wait can end without the timeout |
| `StaleWakeup.WakeupsPaid` | src/reactor.cpp:535-539 | the same bound on wakeups with stale loads |
| `KernelWakeup.BoundedAfterStop` | src/reactor.cpp:264-277 | once stop has stored the flag, only a handle_events call already in progress completes, whatever the other threads do |
| `KernelWakeup.StopWakes` | src/reactor.cpp:270-277 | once a stop has returned, a waiting reactor can be woken at once and a reactor at the loop test exits |
| `KernelCycle.PartsInOrder` | src/reactor.cpp:264-266 | in every run the loop test, the load of the drop counter, the empty observation, the slot drain, the scan, the wait, and after a completion the read, the acknowledgement and the renewal of the poll follow each other: each has been done as often as the next, and once more exactly while the reactor is between them |
| `KernelCycle.CyclesBegun` | src/reactor.cpp:264-266 | completed calls of handle_events plus the one in progress are exactly the loop tests that found the flag set |
| `KernelCycle.EndsOnlyStopped` | src/reactor.cpp:264-272 | the loop ends, and the flag is cleared, only in runs in which some stop has stored it |
| `Progress.ReactorCanStep` | src/reactor.cpp:455-544 | in every run the reactor has a next step until it exits, unless the lock of the slot it takes from is held |
| `Progress.LockHeld` | include/robot_dataflow/mpsc_queue.hpp:55-77 | in every run with stale loads a held push lock is held by a producer that is between taking and clearing it |
| `Progress.PushCanStep` | include/robot_dataflow/mpsc_queue.hpp:55-77 | a producer inside push always has a next step unless it spins on a held lock |
| `Progress.SlotLockHeld` | include/robot_dataflow/latest_cache.hpp:39-78 | in every run a held slot lock is held by a putter or taker that is between taking and clearing it |
| `KernelDelivery.DeliveredInOrder` | src/reactor.cpp:473-519 | in every run the ring frames whose callbacks have run are the first accepted ones, once each, in acceptance order, each by the handler the index names; slot frames are delivered as taken |
| `KernelDelivery.ReachesExactly` | src/reactor.cpp:478-487 | in every run a dispatch reaches a handler with the hash of the subscribing one, and the subscribing one itself exactly when no earlier handler has its hash |
| `KernelDelivery.CycleOrder` | src/reactor.cpp:477-518 | in every cycle, ring frames in acceptance order and then at most one frame per slot; a BACKGROUND callback runs only after every frame accepted before the empty observation |
| `KernelTurns.EverySlotVisited` | include/robot_dataflow/latest_cache.hpp:134-142 | in every run, between the step that finds the ring empty and the end of the drain that follows, every slot is visited exactly once, in order |
| `KernelTurns.WaitingServed` | src/reactor.cpp:505-518 | whatever the callbacks do meanwhile, every BACKGROUND sample that had been put into its slot when the ring was found empty has been taken for delivery or overwritten when that drain ends |
| `KernelDelivery.BoundedBypass` | src/reactor.cpp:473-518 | between acceptance of a frame and its callback at most (C - 2) + max(1, B) other callbacks run, B the number of slots, whatever the producers do |
| `KernelConservation.ExactlyOnePlace` | src/reactor.cpp:64-85 | in every reachable state each offered frame is in exactly one of: with its callback thread, in the ring, in a slot, in the reactor's hand, delivered to one callback, counted once in a drop counter |
| `KernelConservation.CountersExact` | include/robot_dataflow/mpsc_queue.hpp:66-70 | the ring's counter is the number of refused frames, each slot's the number of overwritten ones, in every reachable state |
| `KernelScan.ScanBracketed` | include/robot_dataflow/latest_cache.hpp:147-154 | a scan's total lies between the true totals at its start and end and never below the last scan's, so the unsigned difference never wraps; reported drops are the scanned total minus the one at the last reset |
| `KernelScan.ScanAdds` | src/reactor.cpp:521-525 | over every run: the total a scan leaves lies between the true totals when it began and when it ended; what it adds to the reported drops is its growth over the total before it, and a reset leaves the reported drops at zero |
| `Accounting.AttributionComplete` | src/reactor.cpp:459-471 | over any sequence of cycles and resets, CRITICAL plus NORMAL drops equal the ring's count at the last sync minus its count at the last reset, modulo 2^64, without further hypotheses |
| `Accounting.AttributionExact` | src/reactor.cpp:459-471 | over any history with fewer than 2^64 drops since the reset and cycle counts that add up in 64 bits, CRITICAL plus NORMAL drops equal, as integers, what the ring dropped from the last reset to the last sync, and no subtraction in a sync since the last reset underflows |
| `Accounting.CountsMustFit` | src/reactor.cpp:463-467 | the second hypothesis is needed: counts 2^64 - 1 and 2 and five drops give 2^64 - 5 CRITICAL and 10 NORMAL drops |
| `KernelAccounting.DropsAttributed` | src/reactor.cpp:459-499 | in every run of the kernel, producers dropping at any moment, with fewer than 2^64 drops and callbacks: the two counters add up to the growth of the ring counter between the loads of the last reset and the last sync, without underflow; right after a sync that is every frame refused since the reset |
| `KernelAccounting.CountsOfCycle` | src/reactor.cpp:489-499 | in every run, while the ring is emptied, the counts the next split will use are the callbacks of this cycle that reached CRITICAL handlers, and the others |
| `KernelAccounting.DropsProportional` | src/reactor.cpp:462-471 | in every run of the kernel in which drops times callbacks stay below 2^64: the CRITICAL counter is, as an integer, the parts of the splitting syncs since the reset plus the drops credited whole; the parts are at most the exact shares and less than one below them per sync |
| `Accounting.PartWithin` | src/reactor.cpp:465-467 | the CRITICAL part never exceeds the new drops, even when the product wraps, so the subtraction does not underflow |
| `Accounting.PartExact` | src/reactor.cpp:465-465 | the part is the proportional share rounded down exactly when the product fits in 64 bits, and smaller otherwise |
| `Accounting.AttributionProportional` | src/reactor.cpp:459-471 | over n proportional syncs without product overflow the CRITICAL drops are at most the exact shares and less than n below them |
| `Accounting.CountsAreLast` | src/reactor.cpp:463-465 | a split uses the CRITICAL and the NORMAL count of the last drain since the reset, in these roles |
| `Accounting.CycleReplayed` | src/reactor.cpp:459-499 | one cycle of the object is one synchronisation followed by one drain of the history, so the theorems about histories are about it |
| `Fnv.Fnv1aHash` | include/robot_dataflow/common.hpp:27-34 | the loop computes the fold of the FNV-1a round over the bytes |
| `Fnv.PublishedHash` | include/robot_dataflow/common.hpp:28-31 | the hash of "a" is 0xaf63dc4c8601ec8c, the published FNV-1a value, which fixes offset and prime |
| `Fnv.RoundUndone` | include/robot_dataflow/common.hpp:30-31 | each round is undone by multiplying with 0xce965057aff6957b modulo 2^64 and xoring the byte |
| `Fnv.RoundOnto` | include/robot_dataflow/common.hpp:30-31 | every 64-bit value is the result of a round: the step is a bijection of the state |
| `Fnv.RoundsUndone` | include/robot_dataflow/common.hpp:27-34 | running the inverse rounds backwards over any path recovers the starting state |
| `Fnv.CommonSuffix` | flowkernel-rs/crates/flowkernel-core/src/reactor.rs:376-383 | appending a common suffix neither creates nor removes a collision |
| `Fnv.OneByteApart` | include/robot_dataflow/common.hpp:27-34 | paths of equal length that differ in exactly one byte never collide |
| `Routing.IndexIsFirst` | src/reactor.cpp:279-289 | after any registrations each registered hash is found, at the smallest handler position with that hash |
| `Routing.CollectedIsLast` | flowkernel-rs/crates/flowkernel-core/src/reactor.rs:209-215 | the collected Rust index finds the largest position |
| `Routing.ReachesSubscriber` | src/reactor.cpp:478-487 | dispatch by hash reaches the subscribing handler exactly when no earlier handler has its hash |
| `Routing.IndicesAgree` | flowkernel-rs/crates/flowkernel-core/src/reactor.rs:235-296 | the C++ index, the Rust index and the carried position agree if and only if the path hashes are distinct |
| `Routing.NumberedPathsRouted` | include/robot_dataflow/common.hpp:27-34 | paths that differ in one byte are routed to different handlers, whatever else is registered |
| `RustReactor.NextInv` | flowkernel-rs/crates/flowkernel-core/src/reactor.rs:250-335 | every step of the workers, the event loop and the pool keeps routing, the callback ledger, the launch order and the wakeup invariant |
| `RustReactor.FramesAccounted` | flowkernel-rs/crates/flowkernel-core/src/reactor.rs:253-324 | in every state each received frame is in exactly one place: queued, refused, waiting in a slot, overwritten there, on the pool, or run once; and every callback that ran is the one meant for its frame (carried position, or the collected index for BACKGROUND) |
| `RustCycle.EverySlotVisited` | flowkernel-rs/crates/flowkernel-core/src/reactor.rs:313-324 | in every run, between the publication of the ring counts and the end of the drain that follows, every slot has its turn exactly once, in order |
| `RustCycle.TurnLaunches` | flowkernel-rs/crates/flowkernel-cache/src/latest.rs:93-106 | the turn of a slot that is not passed over launches the frame that waits there, for the handler it is meant for |
| `RustCycle.WaitingServed` | flowkernel-rs/crates/flowkernel-core/src/reactor.rs:313-324 | when no slot is passed over, every frame that waited in a slot when the drain began has been launched or overwritten, once, when it ends |
| `RustCycle.PartsInOrder` | flowkernel-rs/crates/flowkernel-core/src/reactor.rs:287-334 | in every run the empty observation, the publication, the slot drain and the wait follow each other: each has been done as often as the next, and once more exactly while the loop is between them |
| `RustOrder.FirstExactly` | flowkernel-rs/crates/flowkernel-core/src/reactor.rs:253-309 | from any start with a queue that can hold a frame: in every run the callbacks of a ring handler run before those of all ring frames accepted after its frames, if and only if the handler is CRITICAL |
| `RustOrder.CriticalRunsFirst` | flowkernel-rs/crates/flowkernel-core/src/reactor.rs:300-302 | in every run each callback of a ring frame is preceded by the callback of every CRITICAL frame accepted before it, of whatever handler |
| `RustOrder.CriticalInOrder` | flowkernel-rs/crates/flowkernel-core/src/reactor.rs:287-303 | the event loop launches ring frames in acceptance order, and the CRITICAL callbacks that have run are exactly the CRITICAL frames popped, in that order |
| `RustOrder.PoolReorders` | flowkernel-rs/crates/flowkernel-core/src/reactor.rs:303-309 | a run in which two NORMAL frames and a later CRITICAL one run in the opposite order |
| `RustCounters.CountersExact` | flowkernel-rs/crates/flowkernel-core/src/reactor.rs:310-324 | whenever the event loop waits each processed counter is, modulo 2^64, the number of callbacks launched for its priority |
| `RustCounters.CountersTellRun` | flowkernel-rs/crates/flowkernel-core/src/reactor.rs:310-324 | at the wait, with fewer than 2^64 callbacks, a processed counter is the number of callbacks of its priority that have run if and only if none of them is on the pool; for CRITICAL always |
| `RustCounters.CountedBeforeRun` | flowkernel-rs/crates/flowkernel-core/src/reactor.rs:303-311 | from any start without BACKGROUND handlers, a run in which a NORMAL callback is counted as processed and none has run |
| `RustReactor.NoLostPermit` | flowkernel-rs/crates/flowkernel-core/src/reactor.rs:266-334 | whenever the event loop waits while a CRITICAL frame is queued whose worker has notified, the wait can end without its timeout |
| `RustCycle.WakeupsPaid` | flowkernel-rs/crates/flowkernel-core/src/reactor.rs:327-330 | in every run the loop has been woken by the permit at most as often as workers have notified |
| `RustCycle.NotifiesExact` | flowkernel-rs/crates/flowkernel-core/src/reactor.rs:270-272 | in every run the notifications, plus those still due, are exactly as many as the CRITICAL frames received, accepted or refused: none for other frames |
| `RustReactor.NormalNeedsTimeout` | flowkernel-rs/crates/flowkernel-core/src/reactor.rs:326-334 | a run in which the loop waits with a NORMAL frame queued and only the timeout enabled |
| `Latency.WindowIsSuffix` | src/reactor.cpp:423-446 | after any record history each window is exactly the last min(n, 1000) samples since the reset |
| `Latency.Permuted` | src/reactor.cpp:305-308 | sorting a copy moves no sample across a threshold, from above or from below, and changes no sum |
| `Latency.StatsMeaning` | src/reactor.cpp:298-315 | the average times the number of samples is the sum of the window and lies between the extremes; p95 (p99) is a sample with fewer than 5% (1%) of the window above it and at least 5% (1%) at or above it; the clamp to the last index never takes effect |
| `Sessions.RobotOfFormat` | src/reactor.cpp:52-55 | a key `robot/<id>/...` yields `robot/<id>` |
| `Sessions.AgesSound` | src/reactor.cpp:355-370 | in every interleaving of the callbacks with the reader, which takes the lock, reads the clock and visits the entries one by one, every reported age is non-negative, and a finished report names exactly the key prefixes up to the first slash at or after index 6 of the keys stored |
| `Sessions.AgeIsTimeSince` | src/reactor.cpp:56-363 | in every interleaving each reported age is the time from the clock reading of the callback that last updated the robot to the clock reading of the reader |
| `Sessions.LockGivenBack` | src/reactor.cpp:356-370 | the reader takes and gives back the lock in turn |
| `Sessions.ClockFirstGoesNegative` | src/reactor.cpp:355-360 | the order matters: a run in which a reader that read the clock before taking the lock reports a negative age |
| `Sessions.SightingGoesBack` | src/reactor.cpp:56-59 | a concrete run in which a robot's last-seen time decreases |
| `Sessions.GoesBackNeedsTwo` | src/reactor.cpp:56-59 | for every robot that some key names and every number of callback threads: some run moves the robot's sighting back if and only if there are at least two threads |
| `Sessions.GoesBackExactly` | src/reactor.cpp:56-59 | while the reader does not hold the lock, storing the stamps now held, and taking no new ones, can move a robot's sighting back if and only if two of them differ or one is older than the sighting |
| `Sessions.OneWriterMonotone` | src/reactor.cpp:56-59 | over any run in which at most one callback at a time handles a robot its last-seen time never decreases |
| `Reactor.DataFlowReactor.RegisterHandler` | src/reactor.cpp:279-289 | appends the handler and keeps the index equal to the first-wins index of the handler list |
| `Reactor.DataFlowReactor.AllocateSlots` | src/reactor.cpp:200-205 | slots that exist keep their state; every other hash of a BACKGROUND handler gets a blank one; from a cache without foreign slots, as on the first run, exactly the BACKGROUND hashes have one |
| `Reactor.DataFlowReactor.HandleFrame` | src/reactor.cpp:64-85 | a BACKGROUND frame is put into the slot of its hash; any other is appended to the ring when there is room and counted when not; the eventfd is written exactly for an accepted CRITICAL frame |
| `Reactor.DataFlowReactor.SyncDropped` | src/reactor.cpp:459-471 | one step of the drop account whose whole-history theorems are in Accounting |
| `Reactor.DataFlowReactor.RecordLatency` | src/reactor.cpp:423-446 | the sample enters the window of its own priority, the oldest leaves beyond 1000, the other windows stay |
| `Reactor.DataFlowReactor.ResetStats` | src/reactor.cpp:398-416 | counters and windows emptied, both drop baselines at the counters' current values |
| `Reactor.DataFlowReactor.DispatchRing` | src/reactor.cpp:478-494 | one callback, of the handler the index names; it counts as CRITICAL exactly when that handler is, and its latency enters the window of that priority and no other; nothing for an unknown hash |
| `Reactor.DataFlowReactor.DispatchSlot` | src/reactor.cpp:507-518 | one callback, of the handler the index names, counted once, its latency in the BACKGROUND window; nothing for an unknown hash |
| `Reactor.DataFlowReactor.DrainQueue` | src/reactor.cpp:473-495 | the loop empties the ring and runs the callbacks of all frames queued, in order; the counts are those of CRITICAL handlers and the rest; every window grows by the callbacks of its priority, up to 1000 |
| `Reactor.DataFlowReactor.DrainCache` | src/reactor.cpp:505-518 | every slot is emptied and the callbacks of what waited run, once each, in slot order |
| `Reactor.DataFlowReactor.HandleEvents` | src/reactor.cpp:455-525 | one cycle up to its wait: ring callbacks in order, then slot callbacks; both channels left empty; the CRITICAL count is the number of ring callbacks whose handler is CRITICAL; drop account, processed counters, window sizes and BACKGROUND drop baseline all follow |
| `Reactor.CountIsCardinality` | src/reactor.cpp:489-493 | the count of a priority is the number of callbacks whose handler has it |
| `Reactor.RunsComplete` | src/reactor.cpp:477-495 | when all hashes are registered the callbacks run are one per frame, each the indexed handler with that frame's payload, in order |
| `Reactor.HashesOfBackground` | src/reactor.cpp:200-205 | the hashes that get a slot are exactly those of BACKGROUND handlers |

## Left out

- Liveness of the spin locks and of the drain loop under endless producers: only safety, bounds and enabledness are stated (`Progress`).
- `AgeIsTimeSince`: the `online` flag of a report, age below 5000 ms, is not modelled.
- The C++ memory model beyond the ring's indices: the kernel machine uses fresh loads; the ring's safety, FIFO order and conservation, and the wakeup of CRITICAL frames, are also proved for stale loads.
- `StaleWakeup.NoLostWakeup`: for runs in which no callback's eventfd write fails at the maximum of 2^64 - 2; the poll is one step that is enabled while the eventfd is readable, which `PollToken` justifies.
- `RunIsFifo`: exact negative answers are stated for fresh loads only; with a stale load a push may be refused, or a pop report empty, at an instant when the queue is not full, or not empty.
- Counter widths inside the step machines: drop counters of `RingSteps`, `SlotSteps` and `Kernel` are unbounded; the classes and `Accounting` wrap at 2^64.
- `HandleEvents`: the object model runs one cycle without other threads and stops before the wait; interleaving and waiting are in `Kernel`. The user callbacks are a log of what ran, and latencies are arbitrary reals.
- `DrainQueue`, `Drain`: the sequential methods do not capture producers that push while the loop runs; `Kernel` does.
- `AllocateSlots`, `Drain`: the iteration order of the hash map is a fixed order of the keys.
- `ResetStats`: runs between two cycles, as in `Kernel`; a reset that races with a cycle is not modelled.
- Stop before `run`: `run` stores the running flag when it is entered, so the stop theorems are about stops issued after that store. Running a reactor a second time is not modelled.
- io_uring, eventfd and tokio internals: an abstract counter that saturates as eventfd does, a one-shot poll, a permit; submission is assumed to succeed, and a wait that returns any error counts as a timeout.
- `RustReactor`: one atomic step per queue or slot operation, justified by `RunIsFifo` and `RunIsLatestOnly`; a callback on the pool is one step. The Rust reactor never updates its dropped counters, so drop accounting is about the C++ reactor.
- `StatsMeaning`: the percentile index is the integer floor of n * 95 / 100, not a product of doubles; `std::sort` is any sorted permutation.
- `PartWithin`, `AttributionExact`: the two dispatch counts of one cycle add up below 2^64; `DropsAttributed` derives that from the length of the run.
- `DropsAttributed`: stated for runs with fewer than 2^64 drops and callbacks; `AttributionComplete` covers the rest modulo 2^64.
- `PartExact`, `AttributionProportional`: shares are exact reals.
- The Rust ring's `Drop`, which pops until the ring is empty: by `StepRefines` that destroys the same items in the same order as the C++ walk; its push lock is a mutex, which only removes interleavings.
- Capacity 0, which the `static_assert` admits: the ring machines require a positive power of two.
- FlatBuffers verification: frames are the verified ones. Payload bytes are opaque to the step machines.
- Zenoh session, subscriptions, key expressions and the liveliness callback; the TUI, logging, YAML configuration, benchmarks and scripts; the unused memory pool and cache-line alignment.
