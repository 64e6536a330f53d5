# A model of the Hermes load balancer and its proofs

Hermes spreads new connections over worker processes with a closed feedback loop: workers publish
load counters in a shared status table, a scheduler pass (Algorithm 1) turns the table into a
bitmap of candidates, a dispatcher (Algorithm 2) turns bitmap and connection hash into a worker,
and a queue hands the connection over. The repository has this loop twice: as a simulation of
forked processes over shared memory (`userspace_simulation`), and as an eBPF version over real
sockets (`hermes`, `hermes-ebpf`, `hermes-common`). This project models both and proves what they
promise, over every input, every run and every interleaving.

## How the model is built

| file | what it models | form |
|---|---|---|
| `Words.dfy` | 32- and 64-bit words, bit operators, division facts | functions |
| `Dispatcher.dfy` | Algorithm 2 in the simulation and in the kernel program | functions; the two bit scans as loops |
| `HashStream.dfy` | the generator's connection hash | functions |
| `Scheduler.dfy` | Algorithm 1 | functions |
| `SpscRing.dfy` | push, pop and len as separate memory accesses of two concurrent sides | state machine, refined to an atomic bounded queue |
| `Simulation.dfy` | generator, W workers, W rings, status table and bitmap | state machine, one shared access per step |
| `WorkerInvariant.dfy`, `SystemInvariant.dfy` | what each step keeps | invariants |
| `WorkerHistory.dfy`, `Dispatches.dfy` | what a state says about its past: the clock readings, table reads, services and dispatches behind it | theorems over finite runs |
| `Guarantees.dfy`, `Eviction.dfy` | what every run promises | theorems over finite runs |
| `Termination.dfy`, `HangDetection.dfy` | what every run comes to | liveness over infinite schedules |
| `ConnQueue.dfy`, `SimWorker.dfy`, `Generator.dfy` | the queue, the worker loop and the generator loop as the objects they are | classes and loops |
| `Wire.dfy`, `Framing.dfy`, `RealWorker.dfy` | wire codec, stream framing, and the socket worker with its connection table | in-place codec, functions, class and loops |

A state of the machine in `Simulation.dfy` holds every process's program counter with its live
locals. A run is any finite sequence of actions: the clock advances, the generator takes a step, a
worker takes a step. `Termination.dfy` and `HangDetection.dfy` are about infinite schedules.

### Assumptions

* Interleavings are sequentially consistent. The shutdown flag is loaded Relaxed
  (`userspace_simulation/src/shm.rs:122-124`), so drain-before-exit is a theorem of this model.
* The monotonic clock never runs backwards. Timers (hang time, burst time, poll timeout) and sleeps
  are decided by the schedule, so the theorems hold for all timings.
* `f64` is idealised as `real`. The `i64` sum of Algorithm 1 is an `int`; `SumFitsInI64` says when
  that is the same.
* The worker count is any W from 1 to 64 (the source fixes 4). The queue capacity is any divisor of
  2^32 below 2^32 (the source fixes 512); `AddressingIffDivides` shows that dividing is what it
  takes. The hang threshold is any positive number (the source fixes 200 ms).
* For the socket worker: epoll reports a registered descriptor at most once per batch, and accept
  returns descriptors that are not open. Reads, writes and failures are otherwise arbitrary.

### Where the code does not do what one might expect

* **Eviction of a hung worker has a gap.** Reading the clock and storing the stamp are two steps
  (`userspace_simulation/src/worker.rs:55`). A scheduler pass that read a worker's zero stamp before
  its delayed first store treats it as alive however stale it is when the pass publishes.
  `StaleBitSetIff` gives the exact condition on the published bit, `ColdReadDefeatsEviction` a
  complete run at the source's constants. For all other passes `PublishEvicts`, `EvictionLasts` and
  `HungWorkerStaysOut` give the guarantee, and `HungWorkerIsEvicted` shows that the gap closes: in
  the end the worker is out for good.
* **The popcount covers 64 bits, the scan W** (`userspace_simulation/src/dispatcher.rs:47,64`;
  `hermes-ebpf/src/main.rs:57,78`). With two or more bits set, the kernel selects somebody for every
  hash exactly when no bit lies at or above W (`KernelTotalIffNoHighBit`); the simulation picks a set
  bit for every hash exactly when that is so or bit W-1 is set (`SimulationPicksSetBitIff`, with
  `HighBitMisroutes` for a bitmap where it does not). No run reaches a bitmap with a high bit
  (`BitmapAlwaysUsable`), so no connection is misrouted by this.
* **A load filter is not idempotent** (`FilterNotIdempotent`). A second pass changes nothing exactly
  when the heaviest survivor of the first is below the survivors' own cutoff
  (`SecondPassChangesNothingIff`).
* **Requests answered depend on how the event went.** A hang-up, an end-of-file or a read error
  discards complete frames still buffered (`hermes/src/worker.rs:203-227`), a failed write those
  after it: `EventAnswersAllIff`.
* **A request header does not survive decoding and re-encoding** if its reserved bytes are not zero:
  `RequestRoundTripBack`.
* **The connection counter would leave the table's size** if an event closed a descriptor that is
  not in the table (`hermes/src/worker.rs:257-264`): `CountsPartIff`. Under the assumptions on epoll
  and accept above this does not occur: `CountersAtEveryBoundary` has every reported descriptor in
  the table when its turn comes.
* Burst follow-ups are logged like connections; conservation counts the "accept" rows.

## Model

| member | source | states |
|---|---|---|
| SpscRing.StepRefines | userspace_simulation/src/shm.rs:73-102 | each single load, slot access or store, at any interleaving and after any number of index wrap-arounds, is one an atomic bounded queue allows, and the coupling with that queue survives it |
| SpscRing.RunRefines | userspace_simulation/src/shm.rs:73-102 | any interleaved run from a coupled state is a history of the atomic queue and extends its accepted and popped sequences by the run's events |
| SpscRing.RingRefinesFifo | userspace_simulation/src/shm.rs:53-107 | from an empty ring every interleaving is a history of the atomic queue: push fails only when full, pop only when empty, popped values are a prefix of accepted ones at most the capacity behind, and no slot is written while read |
| SpscRing.NoSlotRace | userspace_simulation/src/shm.rs:67-69 | when both sides stand before their slot access the slots differ |
| SpscRing.LenIsALength | userspace_simulation/src/shm.rs:98-102 | a concurrent len() lies in 0..cap and is the queue length at an instant of the call: the second load for the producer, the first for the consumer |
| SpscRing.AddressingIffDivides | userspace_simulation/src/shm.rs:79 | slot addressing survives u32 wrap-around for every index if and only if the capacity divides 2^32 |
| ConnQueues.ConnQueue.constructor | userspace_simulation/src/shm.rs:57-65 | a zeroed queue is valid and empty |
| ConnQueues.ConnQueue.Push | userspace_simulation/src/shm.rs:73-82 | appends exactly when not full, otherwise changes nothing; equals the ring machine's four accesses in a row |
| ConnQueues.ConnQueue.Pop | userspace_simulation/src/shm.rs:85-94 | removes and returns the oldest, None exactly when empty; equals the ring machine's accesses in a row |
| ConnQueues.ConnQueue.Len | userspace_simulation/src/shm.rs:98-102 | the number of queued connections, at most the capacity |
| ConnQueues.ConnQueue.IsEmpty | userspace_simulation/src/shm.rs:104-106 | true exactly when nothing is queued |
| WorkerInvariant.WorkerStepOk | userspace_simulation/src/worker.rs:53-188 | every step of a worker keeps its counters exact, its log equal to what it popped minus what it holds, its control state consistent and its times ordered |
| WorkerInvariant.PollMeaning | userspace_simulation/src/worker.rs:204-216 | a look ends with a full batch or an empty queue; the wait is over exactly with a connection in hand, the timer run out or shutdown seen |
| WorkerInvariant.BranchMeaning | userspace_simulation/src/worker.rs:103-128 | the follow-ups served are the front of the backlog, up to four; without a backlog the worker polls |
| Simulation.Ids | userspace_simulation/src/worker.rs:89 | the ids of the open connections, in order |
| WorkerHistory.NotesAreExact | userspace_simulation/src/worker.rs:53-188 | in every run a worker's state is what an observer of the clock, its control points and the table would have noted: the stamp is its last loop entry, only the named worker hangs and once, each lap stamps, checks, expires, serves and passes once in this order, open connections, follow-ups, log times and scheduler pass are exact |
| WorkerHistory.OpenConnectionsOfARun | userspace_simulation/src/worker.rs:142-146 | in every run each open connection was accepted and its deadline is the end of its service plus the lifetime; every accepted connection whose deadline is above the last expiry reading is still open |
| WorkerHistory.FollowUpsOfARun | userspace_simulation/src/worker.rs:87-126 | follow-up lines are about the connections open when the burst fired, in order and each once, and bear its time and cost |
| WorkerHistory.PublishIsOfWhatWasRead | userspace_simulation/src/worker.rs:162-164 | what a pass publishes is Algorithm 1 of the clock it began with and of the table fields it read since, row by row |
| SystemInvariant.InitOk | userspace_simulation/src/shm.rs:131-153 | the zeroed mapping satisfies the system invariant |
| SystemInvariant.StepKeepsInv | userspace_simulation/src/worker.rs:53-217 | every action of any process keeps the system invariant |
| SystemInvariant.RunKeepsInv | userspace_simulation/src/generator.rs:38-71 | the invariant holds after any schedule |
| SystemInvariant.WorkerDrain | userspace_simulation/src/worker.rs:184-186 | a worker tests its ring only after seeing the shutdown flag, and is gone only with ring and backlog empty |
| SystemInvariant.CountersNonNegative | userspace_simulation/src/wst.rs:47-53 | no field of the status table is ever negative, so no reader sees a negative counter |
| Guarantees.CountersAndLatencies | userspace_simulation/src/worker.rs:73-82 | in every reachable state pending_events is the unhandled part of the counted batch, accumulated_conns the open connections plus one being opened; 0 and the open count at loop entry; no logged latency is negative |
| Guarantees.NoRaceInAnyRun | userspace_simulation/src/shm.rs:67-94 | in no reachable state of the whole system do generator and worker stand at the same slot |
| Guarantees.ExitedWorkerServedItsQueue | userspace_simulation/src/worker.rs:128-186 | a worker that has exited logged as accepted exactly the connections queued for it, in push order, each id once |
| Guarantees.Conservation | userspace_simulation/src/generator.rs:60-71 | when all workers have exited: generated = accept rows + dropped, generated = ceil(duration / interval), and each worker's dispatched count is its accept rows plus its drops |
| Guarantees.FateAddsUp | userspace_simulation/src/generator.rs:61-67 | every connection was queued at one worker or dropped |
| Guarantees.PacingStops | userspace_simulation/src/generator.rs:38-68 | the paced loop makes exactly ceil(duration / interval) connections |
| Guarantees.BitmapAlwaysUsable | userspace_simulation/src/worker.rs:162-164 | in every reachable state M_Sel has no bit at or above the worker count, and with two or more bits the pick is a set bit |
| Guarantees.EveryPublishKeepsANinth | userspace_simulation/src/scheduler.rs:40-69 | every published map keeps at least a ninth of the workers its pass found alive, and is 0 exactly if it found none |
| Guarantees.OthersNeverPublish | userspace_simulation/src/worker.rs:162-168 | under the other policies no pass ever begins and M_Sel stays zero |
| Dispatches.ConnectionsAreAsMade | userspace_simulation/src/generator.rs:45-59 | every connection of every run has the hash and lifetime of its id, the clock at the moment it was made as arrival, and the cost sampled then |
| Dispatches.HermesFollowsBitmap | userspace_simulation/src/dispatcher.rs:35-53 | under Hermes every connection of every run went where the bitmap at one moment of its dispatch sends its hash: the candidate of the scaled rank, or with at most one candidate the plain-hash worker |
| Dispatches.ClearBitGetsNothing | userspace_simulation/src/dispatcher.rs:46-53 | while a worker's bit is clear, a connection begun since goes to it only at a moment with at most one candidate |
| Dispatches.HungWorkerGetsNothing | userspace_simulation/src/dispatcher.rs:46-53 | so an evicted worker gets no connection begun after its eviction while two or more candidates stand |
| Guarantees.ReuseportFollowsHash | userspace_simulation/src/dispatcher.rs:35-41 | under the reuseport policy every connection of every run carries its own hash and went where it says |
| Guarantees.ReuseportSpreadsEvenly | userspace_simulation/src/generator.rs:45-60 | once an aligned block of 2^32 connections is generated each worker was handed floor or ceil of 2^32/W of it; 2^30 each of four |
| Guarantees.ExamIsTrue | userspace_simulation/src/dispatcher.rs:89-98 | every queue length and pending count the LIFO dispatcher has recorded for the current connection was true at some moment of that examination |
| Guarantees.LifoDropsOnlyWhenAllFull | userspace_simulation/src/dispatcher.rs:88-99 | under LIFO a connection is dropped only if every worker's ring was full at some moment of its examination, although workers pop meanwhile |
| Guarantees.LifoPicksIdleOrShortest | userspace_simulation/src/dispatcher.rs:89-98 | the LIFO pick was read with pending count 0, its ring is empty still, and every higher worker was found not idle; or all were found not idle and its ring was the shortest when examined, ties to the later worker |
| Eviction.LetThroughIffColdRead | userspace_simulation/src/scheduler.rs:46-53 | with w stale at a pass's clock reading, stage 1 lets w through if and only if the pass read w's zero stamp |
| Eviction.StaleBitSetIff | userspace_simulation/src/worker.rs:162-164 | the map such a pass publishes has bit w set if and only if it read w's zero stamp and both of w's counters, as read, pass the load filters |
| Eviction.PublishEvicts | userspace_simulation/src/worker.rs:162-164 | the publish of a pass timed at or after stamp + threshold evicts w, if no earlier-timed pass and no pass holding the zero stamp is unpublished |
| Eviction.EvictionLasts | userspace_simulation/src/worker.rs:55-71 | an evicted worker's bit stays clear in every continuation in which it does not stamp, whatever the others publish |
| Eviction.HungWorkerStaysOut | userspace_simulation/src/worker.rs:55-164 | both for whole runs from the zeroed mapping; with two or more candidates the dispatcher then never picks w |
| Eviction.FreshStampReadmits | userspace_simulation/src/worker.rs:162-164 | in any run, a pass that reads its clock while w's stamp is younger than the threshold lets w through stage 1 when it publishes, whatever happens in between; the load filters alone then decide w's bit |
| Eviction.ColdReadDefeatsEviction | userspace_simulation/src/worker.rs:55 | at the source's constants, a complete run in which a worker stale by a full threshold has its bit set by a pass timed at stamp + threshold, with no other pass unfinished |
| Eviction.WarmReadEvicts | userspace_simulation/src/worker.rs:55-164 | the same run with the stamp stored before it is read meets every condition of HungWorkerStaysOut and evicts the worker |
| Termination.WorkerCloser | userspace_simulation/src/worker.rs:59-188 | after shutdown each step of a worker strictly lowers (hang pending, burst pending, backlog + ring length, lap, distance in lap) |
| Termination.GenTurnCloser | userspace_simulation/src/generator.rs:38-71 | each step of the generator strictly lowers its own measure, whatever the workers do |
| Termination.GeneratorFinishes | userspace_simulation/src/generator.rs:38-72 | under every fair schedule the generator signals shutdown |
| Termination.WorkerFinishes | userspace_simulation/src/worker.rs:184-186 | after shutdown, under every fair schedule, each worker exits |
| Termination.EveryFairRunEnds | userspace_simulation/src/generator.rs:28-73 | every fair run from the zeroed mapping reaches a state where all have exited, and conservation holds there |
| Termination.RoundRobinIsFair | userspace_simulation/src/worker.rs:53-188 | fair schedules exist for any number of workers |
| Termination.SomeRunEnds | userspace_simulation/src/worker.rs:184-186 | every configuration has a finite run in which all exit, so the statements about exited workers are not empty |
| HangDetection.StepNearer | userspace_simulation/src/worker.rs:53-188 | before shutdown each step of a worker outside its wait for work brings it nearer to its next scheduler pass |
| HangDetection.ReachesPass | userspace_simulation/src/worker.rs:161-164 | a worker that is scheduled again and again, and whose polls return, comes to a pass after any point |
| HangDetection.PassPublishes | userspace_simulation/src/worker.rs:162-164 | a worker that is scheduled again and again publishes the pass it is in |
| HangDetection.Settles | userspace_simulation/src/worker.rs:162-164 | every worker finishes a pass timed too early, or never takes it up again |
| HangDetection.TimersKeepWorkerGoing | userspace_simulation/src/worker.rs:198-217 | polls return if the poll timers run out |
| HangDetection.HungWorkerIsEvicted | userspace_simulation/src/worker.rs:55-164 | liveness of hang detection: before shutdown, with time passing and some worker that keeps going, a worker that has stamped and never stamps again has its bit clear for good from some point on |
| HangDetection.SomeWorkerIsEvicted | userspace_simulation/src/worker.rs:55-164 | for every configuration of two or more workers there is a run that meets those conditions |
| SimWorkers.SimWorker.constructor | userspace_simulation/src/worker.rs:44-51 | a new worker has balanced counters and nothing open, waiting or logged |
| SimWorkers.SimWorker.ExpireConns | userspace_simulation/src/worker.rs:73-82 | keeps exactly the unexpired connections in order, one counter update per closed one |
| SimWorkers.SimWorker.FireBurst | userspace_simulation/src/worker.rs:87-98 | when due, once, every open connection becomes one waiting follow-up |
| SimWorkers.SimWorker.ServeBurst | userspace_simulation/src/worker.rs:103-126 | serves and logs the first MAX_EVENTS follow-ups in order; the pending counter is back where it was |
| SimWorkers.SimWorker.PollAcceptQueue | userspace_simulation/src/worker.rs:198-217 | returns and removes the first min(length, MAX_EVENTS) connections as soon as a look finds any, those pushed during the wait included; none exactly if the wait ends by timeout or shutdown without any |
| SimWorkers.SimWorker.ServeBatch | userspace_simulation/src/worker.rs:130-158 | opens and logs each connection of the batch in order; pending back, connection count up by the batch |
| SimWorkers.SimWorker.ServeReady | userspace_simulation/src/worker.rs:103-159 | follow-ups before the accept queue; the accept log followed by the queue grows by exactly what came in during the wait |
| SimWorkers.SimWorker.Iteration | userspace_simulation/src/worker.rs:53-188 | one pass of the loop, with its separate clock readings: what is stamped, expired, triggered, served, logged and published, counters balanced again, exit exactly when shut down with nothing left, log plus queue conserved |
| SimWorkers.ServedLog | userspace_simulation/src/worker.rs:148-157 | serving a batch logs exactly its connections as accepted, once each, in order |
| SimWorkers.StillOpenMeaning | userspace_simulation/src/worker.rs:75-82 | an expiry keeps each connection whose deadline is above the reading, as often as it is open, and no other |
| SimWorkers.StillOpenConcat | userspace_simulation/src/worker.rs:75-82 | and keeps them in order |
| SimWorkers.BatchTimes | userspace_simulation/src/worker.rs:133-158 | line k of a batch is about its connection k and bears the clock readings before and after its service, in turn; the connection opened ends its lifetime in milliseconds after the service |
| SimWorkers.BurstTimes | userspace_simulation/src/worker.rs:108-126 | the same for follow-ups |
| SimWorkers.CameInMeaning | userspace_simulation/src/worker.rs:203-216 | what comes in during a wait is the first non-empty offer, up to the capacity, if made before the timeout and before shutdown is seen |
| SimWorkers.BurstLogsNoAccept | userspace_simulation/src/worker.rs:116-125 | follow-ups add no accept row |
| SimWorkers.BatchConserves | userspace_simulation/src/worker.rs:128-158 | serving the oldest queued connections moves them from the queue to the accept log |
| SimWorkers.MachineExpiresAlike | userspace_simulation/src/worker.rs:75-82 | the machine's step-by-step expiry ends with the connections ExpireConns keeps |
| Generators.Generator.constructor | userspace_simulation/src/generator.rs:32-36 | accounts start at zero and agree with the empty queues |
| Generators.Generator.DispatchLifo | userspace_simulation/src/dispatcher.rs:88-99 | the highest idle worker, or, with none idle, the shortest queue, ties to the higher index |
| Generators.Generator.Dispatch | userspace_simulation/src/dispatcher.rs:35-41 | the worker each policy's rule names, LIFO included |
| Generators.Generator.Offer | userspace_simulation/src/generator.rs:60-67 | queued if the target had room, else counted as dropped there; all accounts stay in agreement |
| Generators.Generator.GenerateOne | userspace_simulation/src/generator.rs:45-67 | one more connection with the next id and its hash, sent where the policy says given the queues at that moment, queued exactly if there was room, accounts in agreement |
| Generators.Generator.Run | userspace_simulation/src/generator.rs:38-72 | ceil(duration / interval) connections, each made, sent and queued as one turn demands, accounts in agreement, then shutdown |
| Scheduler.BaselineInIntegers | userspace_simulation/src/scheduler.rs:77-84 | the cutoff average + max(half the average, 1) is the integer test 2km < 3 sum or km < sum + k |
| Scheduler.FilterMeaning | userspace_simulation/src/scheduler.rs:73-86 | a pass keeps exactly the candidates that meet the integer test |
| Scheduler.FilterKeepsOrder | userspace_simulation/src/scheduler.rs:81-85 | the survivors are distinct and in increasing order |
| Scheduler.FilterNeverEmpties | userspace_simulation/src/scheduler.rs:73-86 | for metrics of any sign a pass empties only the empty set |
| Scheduler.FilterKeepsAThird | userspace_simulation/src/scheduler.rs:73-86 | for non-negative metrics a pass keeps at least a third of any number of candidates |
| Scheduler.ThirdIsTight | userspace_simulation/src/scheduler.rs:73-86 | the third is attained |
| Scheduler.FilterLowersMean | userspace_simulation/src/scheduler.rs:73-86 | a pass never raises the mean |
| Scheduler.FilterDownwardClosed | userspace_simulation/src/scheduler.rs:84 | whoever is no more loaded than a survivor survives |
| Scheduler.PassChangesNothingIff | userspace_simulation/src/scheduler.rs:73-86 | a pass changes nothing if and only if its heaviest candidate meets the integer test |
| Scheduler.SecondPassChangesNothingIff | userspace_simulation/src/scheduler.rs:73-86 | repeating a pass changes nothing if and only if the heaviest survivor meets the integer test among the survivors |
| Scheduler.FilterNotIdempotent | userspace_simulation/src/scheduler.rs:73-86 | an input on which a second pass drops more |
| Scheduler.BitmapOfCandidates | userspace_simulation/src/scheduler.rs:61 | the folded map has exactly the candidates' bits, none at or above W, popcount their number |
| Scheduler.ScheduleBitmap | hermes/src/scheduler.rs:39-68 | popcount = after_stage3 <= after_stage2 <= after_stage1; a bit per stage-3 survivor; 0 exactly when stage 1 kept nobody |
| Scheduler.SetBitIff | userspace_simulation/src/scheduler.rs:45-61 | a bit is set if and only if the worker is alive, its connections pass the integer test against all live workers, and its pending events against the stage-2 survivors |
| Scheduler.StageCounts | userspace_simulation/src/scheduler.rs:63-68 | after_stage1 counts the live workers, after_stage2 those of them passing the integer test on connections, after_stage3 those of these passing it on pending events |
| Scheduler.SetBitMeansAlive | userspace_simulation/src/scheduler.rs:46-53 | a worker whose stamp is non-zero and a threshold old, the pass's own worker included, has its bit clear |
| Scheduler.CascadeKeepsANinth | userspace_simulation/src/scheduler.rs:55-59 | with non-negative counters at least a ninth of the live workers survive both filters |
| Scheduler.SumFitsInI64 | userspace_simulation/src/scheduler.rs:77 | with at most 64 rows and counters below 2^57 the i64 sum does not overflow |
| Scheduler.ScheduleCommutesWithRenumbering | userspace_simulation/src/scheduler.rs:40-69 | renumbering the workers renumbers the map and leaves every stage's count |
| Dispatcher.SelectFrom | userspace_simulation/src/dispatcher.rs:64-71 | the scan stops at a set bit of the wanted rank, or there is none |
| Dispatcher.FindNthSetBit | userspace_simulation/src/dispatcher.rs:62-74 | the loop returns the set bit of rank nth, or W-1 when there is none |
| Dispatcher.FindNthSetBitInKernel | hermes-ebpf/src/main.rs:76-87 | the loop returns Some of the set bit of rank nth exactly when nth is below the number of scannable bits |
| Dispatcher.SelectInvertsRank | userspace_simulation/src/dispatcher.rs:61-74 | selection finds a candidate for exactly the ranks below the number of candidates, and of that rank |
| Dispatcher.RankInvertsSelect | userspace_simulation/src/dispatcher.rs:61-74 | selecting by a candidate's own rank gives it back |
| Dispatcher.ReciprocalScaleInRange | userspace_simulation/src/dispatcher.rs:57-59 | the scaled hash is below n; the product fits 64 bits and the truncation loses nothing |
| Dispatcher.ScaleBalance | userspace_simulation/src/dispatcher.rs:55-59 | each of n values gets floor or ceil of 2^32/n of the 2^32 hashes |
| Dispatcher.HermesPicksCandidate | userspace_simulation/src/dispatcher.rs:46-53 | with two or more candidates below W the pick is the candidate whose rank is the scaled hash; the fall-through is unreachable |
| Dispatcher.HermesBalance | userspace_simulation/src/dispatcher.rs:46-74 | each of n candidates gets floor or ceil of 2^32/n of the hashes, every other worker none |
| Dispatcher.DispatchInRange | userspace_simulation/src/dispatcher.rs:46-79 | whatever the bitmap, the pick is an existing worker |
| Dispatcher.FallbackIsPlainHash | userspace_simulation/src/dispatcher.rs:48-50 | with at most one candidate the pick is the low hash word scaled to all W workers |
| Dispatcher.FallbackBalance | userspace_simulation/src/dispatcher.rs:48-50 | then each worker, the lone candidate included, gets floor or ceil of 2^32/W of the hashes |
| Dispatcher.HermesMeaning | userspace_simulation/src/dispatcher.rs:46-79 | the pick for every bitmap and hash: plain hash, set bit of the scaled rank, or W-1 when the scan finds none |
| Dispatcher.TrySelectMeaning | hermes-ebpf/src/main.rs:52-87 | the kernel's pick for every packet and bitmap, high bits included |
| Dispatcher.KernelAgreesWithSimulation | hermes-ebpf/src/main.rs:52-63 | the kernel selects exactly for TCP, a map hit and two or more candidates, and then picks what the simulation picks for every 64-bit hash with those low bits |
| Dispatcher.KernelTotalIffNoHighBit | hermes-ebpf/src/main.rs:57-86 | with two or more bits set the kernel selects somebody for every hash if and only if no bit is at or above W |
| Dispatcher.SimulationPicksSetBitIff | userspace_simulation/src/dispatcher.rs:46-74 | with two or more bits set the simulation picks a set bit for every hash if and only if no bit is at or above W or bit W-1 is set |
| Dispatcher.HighBitMisroutes | userspace_simulation/src/dispatcher.rs:72-73 | a bitmap where it does not: with bits 0 and W set the largest hash goes to the non-candidate W-1 |
| HashStream.HashBijection | userspace_simulation/src/generator.rs:48-49 | the hash is a bijection on 64-bit ids, with its inverse written out |
| HashStream.HashInjective | userspace_simulation/src/generator.rs:48-49 | distinct ids have distinct hashes |
| HashStream.UnseededHash | userspace_simulation/src/generator.rs:48-49 | with seed 0 the hash is the id times 0x9e3779b97f4a7c15 modulo 2^64 |
| HashStream.SeedPermutesIds | userspace_simulation/src/generator.rs:48-49 | a seed only xors its multiple of 0xff51afd7ed558ccd into the id first |
| HashStream.BlockCoversEveryLowHash | userspace_simulation/src/generator.rs:48-49 | over an aligned block of 2^32 ids the low word takes each value exactly once |
| HashStream.ReuseportBalance | userspace_simulation/src/dispatcher.rs:77-79 | over any such block each of W workers gets floor or ceil of 2^32/W ids |
| HashStream.ReuseportBalanceOfFour | userspace_simulation/src/dispatcher.rs:77-79 | with four workers, exactly 2^30 each |
| Wire.EncodeRequest | hermes-common/src/lib.rs:34-40 | fills the caller's 24 bytes so that they decode to the request |
| Wire.EncodeResponse | hermes-common/src/lib.rs:58-62 | fills the caller's 16 bytes so that they decode to the response |
| Wire.RequestLayout | hermes-common/src/lib.rs:35-39 | where each byte of an encoded request lies, least significant first, four zeros before the timestamp |
| Wire.ResponseLayout | hermes-common/src/lib.rs:59-61 | the same for responses |
| Wire.WordIsTwosComplement | hermes-common/src/lib.rs:39 | a timestamp's word is congruent to it modulo 2^64 |
| Wire.DecodesIffMagic | hermes-common/src/lib.rs:43-52 | a header decodes if and only if its first four bytes are 0x4d 0x52 0x45 0x48, whatever the rest |
| Wire.DecodedFields | hermes-common/src/lib.rs:48-51 | each decoded field is the value of its bytes in the layout |
| Wire.RequestRoundTrip | hermes-common/src/lib.rs:34-52 | decode after encode is the identity, for all u32 fields and signed timestamps |
| Wire.ResponseRoundTrip | hermes-common/src/lib.rs:58-69 | the same for responses |
| Wire.ResponseRoundTripBack | hermes-common/src/lib.rs:58-69 | encode after decode is the identity on 16 bytes |
| Wire.RequestRoundTripBack | hermes-common/src/lib.rs:34-52 | encode after decode restores the 24 bytes if and only if the reserved ones are zero |
| Framing.ServeSendsReplies | hermes/src/worker.rs:227-254 | serving a buffer answers its frames up to the first bad magic, closes exactly at one, and otherwise keeps less than a frame |
| Framing.GoodFramesIff | hermes/src/worker.rs:229-241 | k frames are good if and only if the stream holds k whole frames and each decodes |
| Framing.ConcatAppends | hermes/src/worker.rs:207-212 | the bytes of several reads are appended in the order read |
| Framing.BytesAppend | hermes/src/worker.rs:205-225 | the stream of several events is what they read, in order |
| Framing.StreamSplits | hermes/src/worker.rs:207-236 | appending bytes to a stream changes nothing before its leftover |
| Framing.StreamDecidesResponses | hermes/src/worker.rs:203-255 | for any division of a stream into reads and events whose drains end in would-block, the responses are those of the whole stream; while open, bytes = 24 * responses + buffered, buffered < 24 |
| Framing.ReplyMeaning | hermes/src/worker.rs:237-249 | response k decodes to frame k's number and timestamp and this worker's id |
| Framing.ServeSendsDelivered | hermes/src/worker.rs:227-254 | whatever writes fail, the responses sent are the buffer's first replies, up to the first failure |
| Framing.ServeEnds | hermes/src/worker.rs:227-254 | whatever writes fail, serving closes exactly at a failed write or a bad frame and otherwise keeps the leftover |
| Framing.EventMeaning | hermes/src/worker.rs:203-257 | for any event: whether the connection stays open (if and only if), what it then keeps, and what it sends |
| Framing.EventAnswersAllIff | hermes/src/worker.rs:203-255 | for any event: all complete frames are answered if and only if there were none, or there was no hang-up, the drain ended in would-block and every write succeeded |
| Framing.RequestsComeBack | hermes-common/src/lib.rs:34-69 | end to end: any encoded requests, cut up in any way, come back in order as (seq, worker, send_ns) |
| RealWorkers.WriteAll | hermes/src/worker.rs:274-294 | succeeds exactly if the sink takes all bytes before a failure and within 1000 blocked tries; a failure leaves a prefix |
| RealWorkers.ThousandSpins | hermes/src/worker.rs:285-288 | a socket that blocks n times and then takes everything is written to if and only if n is at most 1000 |
| RealWorkers.RealWorker.constructor | hermes/src/worker.rs:73-78 | a new worker has no connections and zero counters |
| RealWorkers.RealWorker.AcceptAll | hermes/src/worker.rs:158-190 | registers each arrival with an empty buffer, counting it unless its registration failed |
| RealWorkers.RealWorker.DrainReads | hermes/src/worker.rs:205-225 | appends all bytes read to the connection's buffer, drops them for an unknown descriptor, and closes unless the drain ended in would-block |
| RealWorkers.RealWorker.ServeBuffered | hermes/src/worker.rs:227-255 | the in-place loop sends, keeps and closes as the framing function says, and does nothing for an unknown descriptor |
| RealWorkers.RealWorker.HandleConnEvent | hermes/src/worker.rs:194-269 | one event's effect on table, counter and responses |
| RealWorkers.RealWorker.RunBatch | hermes/src/worker.rs:101-119 | the whole batch's effect, entry by entry, with the responses of each |
| RealWorkers.RealWorker.Iteration | hermes/src/worker.rs:80-147 | one pass: stop, hang without re-stamping, leave on a failed epoll_wait, or batch and publish |
| RealWorkers.AcceptedCounts | hermes/src/worker.rs:166-189 | accepting, failed registrations included, keeps counter minus table size |
| RealWorkers.ListenerEventMeaning | hermes/src/worker.rs:158-190 | with fresh descriptors: a connection is in the table afterwards if and only if it was before or an arrival registered it; new ones have nothing buffered, old ones are as they were; the count grows by the number registered |
| RealWorkers.ConnEventMeaning | hermes/src/worker.rs:194-269 | a known connection is still there if and only if there was no hang-up, the drain ended in would-block, no bad frame is buffered and every good frame's response was written, then with its leftover; otherwise it is gone and the count one lower; nothing else changes |
| RealWorkers.ConnEventSends | hermes/src/worker.rs:227-254 | which responses an event sends: the replies to what is buffered up to the first failed write, none after a hang-up, an end of the drain or on an unknown descriptor |
| RealWorkers.BatchSplits | hermes/src/worker.rs:106-119 | a batch is its entries one after the other |
| RealWorkers.ResponsesOnGrow | hermes/src/worker.rs:106-119 | a connection's responses in a batch are those of its own entries, in order |
| RealWorkers.HandledCounts | hermes/src/worker.rs:257-264 | so does any event on a known connection, closing included |
| RealWorkers.CountsPartIff | hermes/src/worker.rs:257-264 | counter and table part exactly when an unknown descriptor is closed |
| RealWorkers.CountersAtEveryBoundary | hermes/src/worker.rs:101-119 | at every event boundary accumulated_conns is the table's size and pending_events the events left in the batch |
| RealWorkers.BatchActsPerConnection | hermes/src/worker.rs:106-115 | whatever else a batch reports, an open connection sends and buffers what its own events alone determine |

## Left out

- Weak memory: Relaxed and Acquire/Release orderings are not distinguished; every interleaving is sequentially consistent.
- f64 rounding: the average and the offset are exact reals; the `as u32` casts of service time and lifetime are not modelled either.
- Integer widths where nothing is claimed about them: the i64 counters and clock and the u64 connection ids are unbounded (the hash takes ids modulo 2^64); ring indices, hashes, bitmaps and wire fields have their widths.
- Real time: sleeps and the pacing sleep only appear as clock advances between steps.
- SimWorkers.SimWorker.Iteration: the generator interferes only during the wait in the poll; full interleaving with it and with other workers is the subject of Simulation, which the ring's Push and Pop are tied to access by access and the expiry loop step by step.
- Generators.Generator.Run: the same, with queues that no worker drains meanwhile.
- RealWorkers.RealWorker.Iteration: whether the M_Sel map write succeeds (a failure is only logged), a failed write of the metrics row, which ends the loop, and the listener setup are not modelled.
- Tick rows: the second table snapshot and queue length taken for metrics only; LenIsALength covers the length read.
- Metrics shards, CSV, printing, percentiles, shard merging: output and statistics.
- Workload tables, service-time sampling, command line and environment: the sampled cost is a parameter of each generated connection.
- fork, mmap, sockets, epoll set-up, accept and read system calls, eBPF loading and map pinning: decided by the environment through parameters.
- `select_reuseport` failing open and the kernel's own default pick: not part of the repository's code; agreement is stated up to the decision to fall back.
- The worker's clean-up after its loop (closing descriptors, flushing metrics).
- The asynchronous benchmark client: only its use of the codec matters here.
- Latency and ranking claims of the documentation: empirical, not decided by the code.
