# Verified models of NEXUS-OMEGA's stateful algorithms

The repository is a trading and research platform; most of it is glue, I/O and neural
networks.  This project models the self-contained algorithms in it that keep intricate
state, and proves what each of them is for.

| part of the system | Dafny files |
|---|---|
| L3 order slab: free list and price-level queues threaded through one table | `L3SlabModel`, `L3SlabProofs`, `L3Slab` |
| isotonic correction (pool adjacent violators) | `PavaModel`, `PavaProofs`, `PavaOptimality`, `PavaInput`, `PavaUnique`, `PavaChecks`, `Pava` |
| GPU scheduler with quota, queues and preemption | `GpuSchedulerModel`, `GpuSchedulerProofs`, `GpuSchedulerHeads`, `GpuSchedulerOrder`, `GpuSchedulerAnswers`, `GpuScheduler` |
| lock-free position tracker | `TrackerProtocol` and `TrackerCalls` (all interleavings), `PositionModel`, `PositionTracker` (one thread) |
| governance of value updates | `GovernanceModel`, `GovernanceProofs`, `GovernanceSigning`, `Governance` |
| Merkle root of a day's execution log | `MerkleTree`, `MerkleModel`, `Merkle` |
| liquidation state machine | `FlattenModel`, `FlattenProofs`, `FlattenOrders`, `FlattenCycle`, `FlattenReports`, `FlattenChoices`, `FlattenFsm`, `OrderedDict` |
| fixed-point arithmetic and decimal printing | `Int64`, `FixedPoint`, `Decimal`, `DecimalFormat` |
| volume bars | `VolumeBarModel`, `VolumeBarRuns`, `VolumeBarAnswers`, `VolumeBar` |
| rolling windows and cumulative average price | `RollingModel`, `RollingWindow` |
| shared pieces | `Wrappers`, `Reals`, `Sequences` |

Each stateful part comes in three layers: the operations as functions of a state value, the
theorems about them (over every run where the operations form a protocol), and a class that
updates its fields and arrays in place, every method of which is proved to do to its `View()`
exactly what the function does.  The theorems are stated against something other than the
code: a book of abstract queues, the mean over a run, a recursive hash tree, a decimal
parser, the arguments of the calls in a schedule, the order of submissions, the tick stream
cut into pieces.

Several things the code or its documentation promise turn out not to hold.  In each case
the code is modelled as it is, and it is proved when the promise does hold:

- The isotonic correction is documented as a least-squares projection.  3, 0, 2.9 is a
  counterexample (`NotAlwaysNearest`).  It is one exactly for the inputs in which every value
  that an earlier one exceeds is joined to what precedes it: some stretch ending just before
  it has at least the mean of some stretch starting with it (`NearestIffDropsJoined`).
- `get_vwap` of a volume bar sums price times volume in 64 bits.  In the documented units a
  single unit at 100 dollars overflows (`SingleTickOverflow`); `VwapExactIff` says when the
  average is exact.  Unchecked release arithmetic is assumed where a debug build would panic.
- `completed_bars` counts the ticks at and after completion, not bars (`CountsTicksNotBars`).
  It counts bars exactly if no tick that meets a complete bar leaves the volume register at
  the threshold (`CountsBarsIff`), which, while no single bar overflows, means that every
  completed bar is taken before the next tick (`CountsBarsIffTakenInTime`).
- Volume is conserved across bars exactly if no single bar overflows its register, however
  long the run (`VolumeConserved`).
- Cancelling a queued job does not reschedule, so it can leave a job at the head of its queue
  that could be placed; `WithdrawSettledIff` and `StepSettledIff` say exactly when.
- `submit_job` answers whether the scheduling pass started some job, not whether it started
  the submitted one; `SubmitAnswerIff` says when it answers true.
- A negative execution report makes a flatten order larger than its position
  (`NegativeReportDoubles`); without one, no order ever is (`RunOrdersClose`).
- A rolling window keeps its capacity rounded up to a multiple of eight, so the unit test that
  expects the last four values of a window of four disagrees with the code (`SmallRun`,
  `KeepsRequestedIff`).
- Freeing a queued order without unlinking it keeps its level intact exactly when it is the
  last one (`FreeAloneRenumbersNothing`).
- Filling every order of a flatten cycle does not always complete it: a position too small to
  get an order (`DustStalls`) and progress left from an earlier liquidation
  (`StaleProgressStalls`) both stall it.  `FlattenCompletesIff` says exactly when it completes,
  `FreshRunCompletesIff` says it for a fresh machine in terms of the quantities alone.
- Two overlapping fills can leave a wrong average price (`AverageCanBeStale`); while fills do
  not overlap, it is the sequential one (`ApartFillsAreSequential`).
- Validating several non-positive values divides by zero (`DividesByZeroIff`).
- The Merkle root does not bind side, order id, fill id and venue: `EqualRootsIff` lists the
  fields it does bind.

## Model

| member | source | states |
|---|---|---|
| L3SlabProofs.RunRepresents | crates/nexus_orderbook/src/l3_slab_allocator.rs:138-343 | every disciplined run of allocate, new level, append at a true tail, unlink-then-free and clear keeps the records a faithful representation of an abstract book: the free chain visits exactly the unoccupied slots once, each level is an acyclic doubly linked list with next and prev inverse and the k-th order at queue position k, and levels, free list and loose orders are disjoint |
| L3SlabProofs.StepRepresents | crates/nexus_orderbook/src/l3_slab_allocator.rs:138-343 | one operation on the records is the plain list operation on the book |
| L3SlabProofs.InitialRepresents | crates/nexus_orderbook/src/l3_slab_allocator.rs:138-156 | a new slab represents the empty book with all slots free in order |
| L3SlabProofs.AllocateRepresents | crates/nexus_orderbook/src/l3_slab_allocator.rs:159-183 | allocation takes the first free slot of the book, or fails exactly when none is free |
| L3SlabProofs.AppendRepresents | crates/nexus_orderbook/src/l3_slab_allocator.rs:270-304 | inserting after a true tail appends to that level's queue, returns the new position and changes no other level |
| L3SlabProofs.RemoveFromOneLevel | crates/nexus_orderbook/src/l3_slab_allocator.rs:307-343 | unlinking any order leaves exactly the old queue minus that order, renumbered, and touches no record outside the queue |
| L3SlabProofs.RenumberTail | crates/nexus_orderbook/src/l3_slab_allocator.rs:328-340 | the renumbering loop ends without an error and changes precisely the successors, each to its place in the list |
| L3SlabProofs.CancelRepresents | crates/nexus_orderbook/src/lob_reconstructor.rs:318-326 | unlink followed by free, which applies stale links a second time, removes the order from the book, and succeeds exactly for live orders |
| L3SlabProofs.FreeAloneRenumbersNothing | crates/nexus_orderbook/src/l3_slab_allocator.rs:186-237 | free without unlinking represents the shortened book exactly when the order was the last of its level |
| L3SlabProofs.MisuseIsRefused | crates/nexus_orderbook/src/l3_slab_allocator.rs:186-343 | freeing, inserting, unlinking or cancelling what is not a live order, or inserting behind what is not one, is an error that changes nothing |
| L3SlabProofs.FindIsLookup | crates/nexus_orderbook/src/l3_slab_allocator.rs:240-251 | when live ids are unique, the linear scan is the lookup of a map of live ids |
| L3SlabProofs.WalkIsFreeList | crates/nexus_orderbook/src/l3_slab_allocator.rs:126-156 | following next links from the head yields the free list and then ends, after table size minus allocated count steps |
| L3SlabProofs.FreeApartFromLevels | crates/nexus_orderbook/src/l3_slab_allocator.rs:270-343 | no level shares a slot with the free list |
| L3SlabModel.RenumberChangesOnlyPositions | crates/nexus_orderbook/src/l3_slab_allocator.rs:328-340 | on any table whatever, cyclic links included, the renumbering changes nothing but positions |
| L3Slab.L3SlabAllocator.constructor | crates/nexus_orderbook/src/l3_slab_allocator.rs:138-156 | the table is filled with a chain through all slots |
| L3Slab.L3SlabAllocator.Allocate | crates/nexus_orderbook/src/l3_slab_allocator.rs:159-183 | the update in place is the model's allocation |
| L3Slab.L3SlabAllocator.Free | crates/nexus_orderbook/src/l3_slab_allocator.rs:186-237 | the update in place is the model's free, errors included |
| L3Slab.L3SlabAllocator.FindByOrderId | crates/nexus_orderbook/src/l3_slab_allocator.rs:240-251 | the lowest occupied slot with that id, or none |
| L3Slab.L3SlabAllocator.InsertIntoLevel | crates/nexus_orderbook/src/l3_slab_allocator.rs:270-304 | the update in place is the model's insertion, errors included |
| L3Slab.L3SlabAllocator.RemoveFromLevel | crates/nexus_orderbook/src/l3_slab_allocator.rs:307-343 | the loop over successors is the model's renumbering, errors included |
| L3Slab.L3SlabAllocator.Clear | crates/nexus_orderbook/src/l3_slab_allocator.rs:365-378 | the slab becomes a new one |
| Pava.CorrectSequence | core_engine/rl/safe_rl/quantile_huber_regression.py:190-222 | the in-place loop ends although it steps back after every merge, and computes the one-pass pooling |
| Pava.CutsAfterMerge | core_engine/rl/safe_rl/quantile_huber_regression.py:203-220 | why it ends: a merge removes a block boundary, or keeps them all and steps back inside the block just enlarged |
| Pava.MergeAt | core_engine/rl/safe_rl/quantile_huber_regression.py:205-214 | one round replaces the violator and the values below it that follow by their mean |
| Pava.MeanOf | core_engine/rl/safe_rl/quantile_huber_regression.py:211-213 | the mean of a stretch of the array |
| Pava.Correct | core_engine/rl/safe_rl/quantile_huber_regression.py:160-187 | every (sample, action) column of the batch is corrected on its own, the input is left alone, and the monotonicity check passes on the whole result |
| PavaProofs.MergePreservesPava | core_engine/rl/safe_rl/quantile_huber_regression.py:200-220 | a round at the first violation does not change the final result |
| PavaProofs.PavaSorted | core_engine/rl/safe_rl/quantile_huber_regression.py:190-222 | the result is non-decreasing, for every input |
| PavaProofs.RunValueIsMean | core_engine/rl/safe_rl/quantile_huber_regression.py:190-222 | on every maximal constant run the value is the mean of the input over that run |
| PavaProofs.PavaBalanced | core_engine/rl/safe_rl/quantile_huber_regression.py:190-222 | sums agree up to every run boundary, in particular in total |
| PavaProofs.PavaWithinBounds | core_engine/rl/safe_rl/quantile_huber_regression.py:190-222 | no corrected value leaves the range of the inputs |
| PavaProofs.SortedUnchanged | core_engine/rl/safe_rl/quantile_huber_regression.py:203-222 | a non-decreasing input is returned as it is |
| PavaProofs.PavaIdempotent | core_engine/rl/safe_rl/quantile_huber_regression.py:190-222 | correcting twice is correcting once |
| PavaInput.NearestIffDropsJoined | core_engine/rl/safe_rl/quantile_huber_regression.py:149-157 | the documented least-squares claim holds exactly for the inputs in which every value that an earlier one exceeds follows a stretch with at least the mean of some stretch starting with it |
| PavaInput.PavaPooling | core_engine/rl/safe_rl/quantile_huber_regression.py:190-222 | the result changes value only at inputs that no earlier input exceeds, and there no prefix of it sums to more than the same prefix of the input |
| PavaUnique.CorrectedIff | core_engine/rl/safe_rl/quantile_huber_regression.py:190-222 | the result is the one and only non-decreasing sequence that steps up only at inputs no earlier input exceeds, with the input's prefix sum there, and that exceeds the input's prefix sum at no such input |
| PavaOptimality.NotAlwaysNearest | core_engine/rl/safe_rl/quantile_huber_regression.py:149-157 | the documented claim fails on 3, 0, 2.9 |
| PavaChecks.CorrectedIsMonotonic | core_engine/rl/safe_rl/quantile_huber_regression.py:344-362 | the monotonicity check on a corrected batch reports no violation and a rate of zero |
| PavaChecks.MonotonicIff | core_engine/rl/safe_rl/quantile_huber_regression.py:344-362 | the check passes exactly when every column is non-decreasing; the rate is a share between 0 and 1, and zero exactly then |
| PavaChecks.RateOfColumn | core_engine/rl/safe_rl/quantile_huber_regression.py:344-362 | for one column the rate is the number of steps down over the number of steps |
| PavaChecks.CrossingPenaltyAfterCorrection | core_engine/rl/safe_rl/quantile_huber_regression.py:113-146 | with a positive margin and weight, both the crossing penalty of a corrected batch and its number of violating pairs are zero exactly when every column of the prediction had all its gaps at the margin already |
| GpuSchedulerProofs.RunInv | core_engine/mlops/distributed_gpu_scheduler.py:111-360 | in every reachable cluster each active job holds exactly its requested GPUs, each busy GPU belongs to one active job, free GPUs have no memory allocated, the total held is within the quota, every submitted job is in exactly one of a queue, the active and the completed jobs, and there are no others |
| GpuSchedulerProofs.StepInv | core_engine/mlops/distributed_gpu_scheduler.py:111-360 | every operation keeps this invariant |
| GpuSchedulerProofs.InitialInv | core_engine/mlops/distributed_gpu_scheduler.py:71-109 | a new cluster satisfies it |
| GpuSchedulerProofs.QuotaWithinCluster | core_engine/mlops/distributed_gpu_scheduler.py:98-100 | for a quota between 0 and 1 the limit is the largest whole number of GPUs within that share, never more than the cluster has |
| GpuSchedulerProofs.CanScheduleIffQuota | core_engine/mlops/distributed_gpu_scheduler.py:170-187 | in a consistent cluster the placement test is a question of the quota alone, and enough fitting GPUs are then free |
| GpuSchedulerProofs.PhaseEnds | core_engine/mlops/distributed_gpu_scheduler.py:144-168 | the loop on one queue ends at an empty queue or an unplaceable head; a CRITICAL head that waits with preemption on means that every active job is CRITICAL and held plus requested GPUs exceed the quota |
| GpuSchedulerProofs.PassLeavesNoPlaceableHead | core_engine/mlops/distributed_gpu_scheduler.py:144-168 | when a pass returns, no queue's head could be placed |
| GpuSchedulerHeads.RunSettled | core_engine/mlops/distributed_gpu_scheduler.py:111-360 | over runs in which every operation reschedules or spares the heads, no queue's head can ever be placed |
| GpuSchedulerHeads.InitialSettled | core_engine/mlops/distributed_gpu_scheduler.py:71-109 | in a new cluster no head can be placed, so such runs may start there |
| GpuSchedulerHeads.StepSettledIff | core_engine/mlops/distributed_gpu_scheduler.py:111-360 | one operation keeps that exactly if it ends in a pass or does not withdraw a head whose successor could be placed |
| GpuSchedulerHeads.WithdrawSettledIff | core_engine/mlops/distributed_gpu_scheduler.py:351-358 | cancelling a queued job keeps it exactly if the job was not the head, or was alone, or the next one exceeds the quota |
| GpuSchedulerHeads.RescheduleSettles | core_engine/mlops/distributed_gpu_scheduler.py:111-282 | every submission, completion and cancellation of an active job restores it |
| GpuSchedulerProofs.CriticalHeadRunsIff | core_engine/mlops/distributed_gpu_scheduler.py:144-248 | with preemption, a pass runs the first CRITICAL job exactly when it fits beside the CRITICAL jobs already running |
| GpuSchedulerProofs.WaitingCriticalMeansCriticalFull | core_engine/mlops/distributed_gpu_scheduler.py:144-248 | a CRITICAL job still waiting after a pass does not fit beside the CRITICAL jobs running then |
| GpuSchedulerOrder.FirstComeFirstServed | core_engine/mlops/distributed_gpu_scheduler.py:126-168 | in every run, of two jobs of one priority the one submitted later has not started while the earlier one still waits for its first start |
| GpuSchedulerOrder.QueuesInSubmissionOrder | core_engine/mlops/distributed_gpu_scheduler.py:136-168 | in every reachable cluster each queue holds its jobs in the order of their submissions, except among preempted jobs, all of which stand at the front |
| GpuSchedulerOrder.RunFifo | core_engine/mlops/distributed_gpu_scheduler.py:111-360 | the invariant behind both, over every run: jobs that have started precede, by number of submission, those of their priority that wait for their first start |
| GpuSchedulerOrder.SubmittedAsAsked | core_engine/mlops/distributed_gpu_scheduler.py:122-136 | wherever a submitted job is after any run, it has the priority named or MEDIUM, and the GPUs and memory asked for, cut down to the quota and to one GPU's memory |
| GpuSchedulerAnswers.HigherFirst | core_engine/mlops/distributed_gpu_scheduler.py:146-168 | a job left at the head of its queue after a pass does not fit beside the running jobs even without those of lower priority that the pass started |
| GpuSchedulerAnswers.PassAnswerIff | core_engine/mlops/distributed_gpu_scheduler.py:144-168 | a pass reports success exactly if some head could be placed before it or a CRITICAL job waited beside a running job of lower priority, with preemption on |
| GpuSchedulerAnswers.SubmitAnswerIff | core_engine/mlops/distributed_gpu_scheduler.py:135-142 | when all heads wait, a submission is answered with true exactly if the new job is alone in its queue and within the quota, or a CRITICAL job now waits beside running jobs that it may preempt |
| GpuSchedulerAnswers.CompleteOutcome | core_engine/mlops/distributed_gpu_scheduler.py:250-282 | completing is answered with true exactly for a running job, and adds just that job to the history as completed or failed; otherwise nothing changes |
| GpuSchedulerAnswers.CancelAnswerIff | core_engine/mlops/distributed_gpu_scheduler.py:344-360 | cancelling is answered with true exactly for a job that runs or waits, and otherwise changes nothing |
| GpuSchedulerAnswers.CancelRecords | core_engine/mlops/distributed_gpu_scheduler.py:344-360 | the history gains just that job, failed if it ran and cancelled if it waited |
| GpuSchedulerAnswers.TakesFirstFitting | core_engine/mlops/distributed_gpu_scheduler.py:194-203 | a GPU is given to the job exactly if it fits and fewer than needed before it do; the others do not change |
| GpuSchedulerProofs.SubmitInv | core_engine/mlops/distributed_gpu_scheduler.py:111-142 | a submission adds exactly one job with the id, the priority named or MEDIUM, and the requests cut down to the quota and to one GPU's memory; all others stay somewhere, preempted ones included |
| GpuSchedulerProofs.CompleteInv | core_engine/mlops/distributed_gpu_scheduler.py:250-282 | when an active job ends its GPUs are freed, the queues are worked through again, and no job is lost or duplicated |
| GpuSchedulerProofs.CancelInv | core_engine/mlops/distributed_gpu_scheduler.py:344-360 | so does cancellation, queued or active |
| GpuScheduler.DistributedGPUScheduler.SubmitJob | core_engine/mlops/distributed_gpu_scheduler.py:111-142 | the update of the fields is the model's submission |
| GpuScheduler.DistributedGPUScheduler.TryScheduleJobs | core_engine/mlops/distributed_gpu_scheduler.py:144-168 | the nested loop with preemption is the model's pass, and it ends |
| GpuScheduler.DistributedGPUScheduler.CanScheduleJob | core_engine/mlops/distributed_gpu_scheduler.py:170-187 | the counting loop is the model's test |
| GpuScheduler.DistributedGPUScheduler.AllocateGpus | core_engine/mlops/distributed_gpu_scheduler.py:189-207 | the loop assigns the first fitting GPUs |
| GpuScheduler.DistributedGPUScheduler.TryPreemptForJob | core_engine/mlops/distributed_gpu_scheduler.py:209-229 | the scan picks the first active job of the lowest priority, if that is below the waiting one |
| GpuScheduler.DistributedGPUScheduler.PreemptJob | core_engine/mlops/distributed_gpu_scheduler.py:231-248 | the preempted job loses its GPUs and goes to the front of its queue |
| GpuScheduler.DistributedGPUScheduler.CompleteJob | core_engine/mlops/distributed_gpu_scheduler.py:250-282 | the update of the fields is the model's completion |
| GpuScheduler.DistributedGPUScheduler.CancelJob | core_engine/mlops/distributed_gpu_scheduler.py:344-360 | the update of the fields is the model's cancellation |
| TrackerProtocol.EveryInterleaving | crates/nexus_oms/src/lock_free_position_tracker.rs:138-271 | in every interleaving of any number of threads' loads, compare-and-swaps and stores: position is the sum of committed fills, sequence numbers are gap-free, available is initial minus reserved plus released and never negative, account plus in-flight P&L is initial plus realized P&L, absent saturation |
| TrackerCalls.NothingLostOrInvented | crates/nexus_oms/src/lock_free_position_tracker.rs:138-271 | in every interleaving from the start, for every signed fill, P&L amount, reservation and release: applied (or refused) plus still under way is exactly the number of calls begun that ask for it, a sell asking for the negated quantity |
| TrackerCalls.IdlePosition | crates/nexus_oms/src/lock_free_position_tracker.rs:138-271 | once all threads are idle, the position is what the calls of the schedule bought minus what they sold, in 64 bits, and every call has been dealt with once |
| TrackerProtocol.StepInv | crates/nexus_oms/src/lock_free_position_tracker.rs:138-271 | every atomic step of any thread keeps the invariant behind this, spurious failures included |
| TrackerProtocol.RunInv | crates/nexus_oms/src/lock_free_position_tracker.rs:138-271 | every schedule keeps it |
| TrackerProtocol.SequenceNumbersDistinct | crates/nexus_oms/src/lock_free_position_tracker.rs:187-194 | fewer than 2^64 fills get distinct sequence numbers |
| TrackerProtocol.Quiescent | crates/nexus_oms/src/lock_free_position_tracker.rs:199-232 | with all threads idle each committed fill has its number, and account is initial plus realized P&L |
| TrackerProtocol.UninterruptedFill | crates/nexus_oms/src/lock_free_position_tracker.rs:138-194 | run alone, the atomic steps of a fill have the effect of the sequential method |
| TrackerCalls.FillAlone | crates/nexus_oms/src/lock_free_position_tracker.rs:138-194 | a whole call run alone, from its first step: a buy moves the position up by its quantity and a sell down, and average, margin and sequence go with it |
| TrackerCalls.PnlAlone | crates/nexus_oms/src/lock_free_position_tracker.rs:199-232 | a P&L call run alone adds its amount once to the realized P&L and once to the account, saturating |
| TrackerCalls.ReserveAlone | crates/nexus_oms/src/lock_free_position_tracker.rs:236-254 | a reservation that the available balance covers takes its amount from it |
| TrackerCalls.RefuseAlone | crates/nexus_oms/src/lock_free_position_tracker.rs:240-244 | one that it does not cover is refused and changes no register |
| TrackerCalls.ReleaseAlone | crates/nexus_oms/src/lock_free_position_tracker.rs:258-271 | a release gives its amount back to the available balance, saturating |
| TrackerProtocol.OverlappedFills | crates/nexus_oms/src/lock_free_position_tracker.rs:147-189 | a schedule in which two fills overlap leaves an average computed from a stale one |
| TrackerProtocol.AverageCanBeStale | crates/nexus_oms/src/lock_free_position_tracker.rs:147-189 | from the start, two overlapping buys of 10 at 100 can leave an average of 50 where one after the other they leave 100 |
| TrackerProtocol.ApartFillsAreSequential | crates/nexus_oms/src/lock_free_position_tracker.rs:138-194 | in every schedule in which no two threads are in a fill at once, whatever else interleaves and fails spuriously, position, average price and margin between fills are those of the committed fills applied one by one |
| TrackerProtocol.ApartFillsWithinBuys | crates/nexus_oms/src/lock_free_position_tracker.rs:138-194 | in such schedules, if no committed fill leaves the position short, the average between fills lies within the prices bought at |
| PositionTracker.LockFreePositionTracker.UpdateOnFill | crates/nexus_oms/src/lock_free_position_tracker.rs:138-194 | alone, and after any number of spurious failures, a fill updates position, average, margin and sequence once |
| PositionTracker.LockFreePositionTracker.AddRealizedPnl | crates/nexus_oms/src/lock_free_position_tracker.rs:199-215 | realized P&L and account balance grow by the same amount, saturating |
| PositionTracker.LockFreePositionTracker.UpdateAccountBalance | crates/nexus_oms/src/lock_free_position_tracker.rs:218-232 | the retry loop applies the delta once, saturating |
| PositionTracker.LockFreePositionTracker.TryReserveMargin | crates/nexus_oms/src/lock_free_position_tracker.rs:236-254 | reserves exactly when the available balance covers it |
| PositionTracker.LockFreePositionTracker.ReleaseMargin | crates/nexus_oms/src/lock_free_position_tracker.rs:258-271 | the retry loop gives the amount back once, saturating |
| PositionModel.AverageWithinPrices | crates/nexus_oms/src/lock_free_position_tracker.rs:150-176 | after any buys from flat the average lies between the lowest and the highest fill price |
| PositionModel.AverageNearMean | crates/nexus_oms/src/lock_free_position_tracker.rs:150-176 | after n buys it is less than n raw units away from the exact weighted mean, and not above it for non-negative prices |
| PositionModel.SellsKeepAverage | crates/nexus_oms/src/lock_free_position_tracker.rs:150-176 | sells that only reduce a long leave its average alone; the one that closes it sets zero |
| PositionModel.LongAverageWithinBuys | crates/nexus_oms/src/lock_free_position_tracker.rs:150-176 | in any run mixing buys and sells that never goes short, the quantity is the sum of the fills and the average of a position lies within the prices bought at |
| PositionModel.SameDirectionAverages | crates/nexus_oms/src/lock_free_position_tracker.rs:161-174 | a fill in the position's own direction sets the average to the signed total value over the absolute quantity, truncated, where that fits 64 bits |
| PositionModel.OtherDirectionKeeps | crates/nexus_oms/src/lock_free_position_tracker.rs:174-178 | any other fill keeps the average, even across zero, and only closing resets it |
| PositionModel.MarginIsTenthIff | crates/nexus_oms/src/lock_free_position_tracker.rs:180-182 | the margin of a long is ten percent of its notional value, rounded down, exactly if that fits 64 bits |
| PositionModel.MarginNonNegative | crates/nexus_oms/src/lock_free_position_tracker.rs:182-182 | a margin is never negative |
| PositionModel.WeightedSumFitsIff | crates/nexus_oms/src/lock_free_position_tracker.rs:163-167 | the 128-bit weighted sum fits unless quantity, average, signed fill and price are all the least 64-bit value |
| PositionModel.OverflowIsHarmless | crates/nexus_oms/src/lock_free_position_tracker.rs:163-171 | in that case quantity and average are zero whatever the sum |
| GovernanceProofs.EveryRun | core_engine/alignment/value_lock_in_prevention.py:98-308 | in every run with a non-decreasing clock the invariant holds and any span of at most a day contains at most three executed updates |
| GovernanceProofs.StepInv | core_engine/alignment/value_lock_in_prevention.py:98-308 | every operation keeps: signatures distinct and authorised when given, each proposal in exactly one of pending, approved and rejected, once, recent list a suffix of the execution times with the older ones a day old, version 1 plus approved plus overrides |
| GovernanceProofs.RunInv | core_engine/alignment/value_lock_in_prevention.py:98-308 | every run keeps it |
| GovernanceProofs.ChangeNeedsSignatures | core_engine/alignment/value_lock_in_prevention.py:143-212 | outside an override the values change only by executing one pending proposal with enough distinct authorised signatures, once, and to its validated target |
| GovernanceSigning.EnoughSignaturesExecute | core_engine/alignment/value_lock_in_prevention.py:143-212 | an authorised signature that makes the distinct ones at least as many as required, with fewer than three updates in the last day and a meaningful target, makes the proposal the last approved one, puts its values in force and raises the version by one |
| GovernanceSigning.EnoughSignaturesReject | core_engine/alignment/value_lock_in_prevention.py:169-190 | with three updates in the last day, or a value that is no number, it becomes the last rejected one instead and the values stay |
| GovernanceSigning.EnoughSignaturesRaise | core_engine/alignment/value_lock_in_prevention.py:169-184 | with several numbers none of which is positive the execution raises and the proposal stays pending with its signatures |
| GovernanceSigning.TooFewCollect | core_engine/alignment/value_lock_in_prevention.py:162-172 | with fewer signatures nothing but the proposal's list of distinct signatures changes |
| GovernanceSigning.StrangersAreRefused | core_engine/alignment/value_lock_in_prevention.py:154-160 | an unknown signer or an id that is not pending is refused and changes nothing |
| GovernanceSigning.PendingHasTooFew | core_engine/alignment/value_lock_in_prevention.py:143-212 | in every run, if a positive number of signatures is required, a pending proposal has fewer, unless its target cannot be scaled |
| GovernanceSigning.SignersCarry | core_engine/alignment/value_lock_in_prevention.py:143-212 | when just the missing number of authorised signers sign one after the other, the last signature executes the proposal |
| GovernanceSigning.RegisteredMaySign | core_engine/alignment/value_lock_in_prevention.py:98-101 | a registered signer is authorised from then on, and nobody else is |
| GovernanceSigning.ProposedWaits | core_engine/alignment/value_lock_in_prevention.py:103-141 | a proposal waits under its id, unsigned, with the target as it was proposed, unless a value that is no number stands under a known key; then it is not stored |
| GovernanceSigning.OverrideInForce | core_engine/alignment/value_lock_in_prevention.py:286-308 | an accepted override puts its values in force, raises the version and leaves the proposals alone; a refused code changes nothing |
| GovernanceProofs.AtMostThreePerDay | core_engine/alignment/value_lock_in_prevention.py:249-260 | the rate limit bounds the executions of every window, although the list is pruned at the check and stamped later |
| GovernanceProofs.PruneSuffix | core_engine/alignment/value_lock_in_prevention.py:251-256 | pruning an ordered list drops precisely the prefix that is a day old |
| GovernanceProofs.AcceptedValues | core_engine/alignment/value_lock_in_prevention.py:262-284 | accepted values keep the keys in order, lie between 0 and 1, and several of them sum to 1 within the tolerance |
| GovernanceSigning.AcceptedIff | core_engine/alignment/value_lock_in_prevention.py:262-284 | a target is accepted as certain values exactly if these are its numbers, clipped to the unit interval, in proportion to their sum where several of them sum to more than a tenth off one |
| GovernanceProofs.DividesByZeroIff | core_engine/alignment/value_lock_in_prevention.py:278-284 | normalisation divides by zero exactly on several numbers none of which is positive |
| Governance.ValueLockInPrevention.RegisterSigner | core_engine/alignment/value_lock_in_prevention.py:98-101 | the update of the fields is the model's registration |
| Governance.ValueLockInPrevention.ProposeUpdate | core_engine/alignment/value_lock_in_prevention.py:103-141 | the proposal is stored under its id, unless assessing its impact raises, and then nothing is |
| Governance.ValueLockInPrevention.AssessImpact | core_engine/alignment/value_lock_in_prevention.py:214-247 | the loop raises exactly on a value that is no number under a key that already has one |
| Governance.ValueLockInPrevention.SignProposal | core_engine/alignment/value_lock_in_prevention.py:143-172 | the update of the fields is the model's signature, execution included |
| Governance.ValueLockInPrevention.ExecuteUpdate | core_engine/alignment/value_lock_in_prevention.py:174-212 | the update of the fields is the model's execution or rejection |
| Governance.ValueLockInPrevention.ValidateValues | core_engine/alignment/value_lock_in_prevention.py:262-284 | the loops are the model's validation |
| Governance.ValueLockInPrevention.CheckRateLimit | core_engine/alignment/value_lock_in_prevention.py:249-260 | the recent list is pruned and allows one more if fewer than three are left |
| Governance.ValueLockInPrevention.EmergencyOverride | core_engine/alignment/value_lock_in_prevention.py:286-308 | the update of the fields is the model's override |
| MerkleModel.RootIsTreeHash | core_engine/legal/zk_regulatory_oracle.py:76-99 | the level-by-level root is the recursive tree hash that splits at the largest power of two below n, the shape of section 2.1 of RFC 6962 without its prefix bytes; an empty batch has the hash of EMPTY_BATCH |
| MerkleTree.FoldIsTree | core_engine/legal/zk_regulatory_oracle.py:88-99 | the same for any digests and any way of combining two |
| MerkleTree.TreeOfLevel | core_engine/legal/zk_regulatory_oracle.py:89-97 | one level of pairing with odd promotion keeps the tree hash of every aligned stretch |
| MerkleTree.SplitIsLargestPower | core_engine/legal/zk_regulatory_oracle.py:88-97 | the split is a power of two below n and at least half of it |
| MerkleTree.LeavesOfFold | core_engine/legal/zk_regulatory_oracle.py:88-97 | the tree built has the given leaves, in order |
| MerkleModel.EqualDigests | core_engine/legal/zk_regulatory_oracle.py:76-99 | without collisions, trees with equal digests are equal whatever their sizes, since leaf texts contain a colon and inner inputs do not |
| MerkleModel.EqualRootsEqualTexts | core_engine/legal/zk_regulatory_oracle.py:76-99 | equal roots mean equal sequences of leaf texts, empty batches included |
| MerkleModel.ReadLeafText | core_engine/legal/zk_regulatory_oracle.py:82-86 | round trip: reading the hashed text between its colons gives back timestamp, strategy, symbol, quantity and price, even when the symbol has colons |
| MerkleModel.LeafTextInjective | core_engine/legal/zk_regulatory_oracle.py:82-86 | the text determines the fields in it even when a symbol contains colons |
| MerkleModel.EqualRootsIff | core_engine/legal/zk_regulatory_oracle.py:76-99 | two batches have the same root exactly when they agree entry by entry in the fields that are hashed |
| Merkle.DailyBatch.MerkleRoot | core_engine/legal/zk_regulatory_oracle.py:76-99 | the while loop over levels ends and computes the model's root |
| Merkle.DailyBatch.AddLog | core_engine/legal/zk_regulatory_oracle.py:61-66 | the entry goes last and the counters stay those of the log |
| FlattenProofs.NoWayBack | core_engine/rl/safe_rl/deterministic_flatten_fsm.py:101-136 | from a liquidation stage no run returns to an earlier one except through COMPLETE, ERROR or a reset |
| FlattenProofs.TransitionOutcome | core_engine/rl/safe_rl/deterministic_flatten_fsm.py:101-151 | a request is refused without effect exactly when its edge is missing, and otherwise ends in the requested state or where its entry actions escalate to |
| FlattenProofs.TriggerOutcome | core_engine/rl/safe_rl/deterministic_flatten_fsm.py:153-211 | assessment ends in risk reduction or, exactly when left-over progress exceeds half the positions, in aggressive selling; without positions the refused edge to COMPLETE leaves it in assessment |
| FlattenReports.ReportOutcome | core_engine/rl/safe_rl/deterministic_flatten_fsm.py:270-309 | a report on a known asset sets its entry to min(1, old fraction + executed / quantity), changes no other, and moves the machine to COMPLETE exactly if it was liquidating and now every entry is at least 0.99; otherwise state, positions and orders stay |
| FlattenReports.UnknownReportOutcome | core_engine/rl/safe_rl/deterministic_flatten_fsm.py:270-309 | a report on an unknown asset changes no entry, and ends a liquidation exactly if every entry is at least 0.99 already |
| FlattenReports.RaisingReport | core_engine/rl/safe_rl/deterministic_flatten_fsm.py:281-290 | a zero quantity raises before anything is recorded, a zero expected price after the entry is set, and neither moves the machine |
| FlattenReports.NoEarlyEnd | core_engine/rl/safe_rl/deterministic_flatten_fsm.py:270-309 | after no run does a report move the machine while some entry is below 0.99 |
| FlattenReports.GrantedIff | core_engine/rl/safe_rl/deterministic_flatten_fsm.py:107-119 | the table of transitions as a rule: which requests are granted, for every pair of states |
| FlattenReports.ClosingEffects | core_engine/rl/safe_rl/deterministic_flatten_fsm.py:148-151 | COMPLETE drops positions and pending orders and keeps the entries; IDLE and ERROR keep everything |
| FlattenReports.SellingEffects | core_engine/rl/safe_rl/deterministic_flatten_fsm.py:178-268 | a selling stage replaces the pending orders and touches neither positions nor entries |
| FlattenReports.AssessingEffects | core_engine/rl/safe_rl/deterministic_flatten_fsm.py:153-173 | assessing zeroes the entry of each position, keeps the others and sets nothing but urgencies |
| FlattenReports.RemovedIsForgotten | core_engine/rl/safe_rl/deterministic_flatten_fsm.py:326-331 | in every reachable state, removing an asset forgets its position and entry and nothing else |
| FlattenReports.UpdatedIsStored | core_engine/rl/safe_rl/deterministic_flatten_fsm.py:322-324 | an update stores the position under its asset and changes no other |
| FlattenReports.GivenAreStored | core_engine/rl/safe_rl/deterministic_flatten_fsm.py:388-389 | a trigger stores all positions it is given over those there are |
| FlattenReports.ClearedAreExecuted | core_engine/rl/safe_rl/deterministic_flatten_fsm.py:344-347 | clearing appends the pending orders to the executed ones |
| FlattenProofs.TransitionPendingWithin | core_engine/rl/safe_rl/deterministic_flatten_fsm.py:178-268 | after every accepted transition into a liquidation stage each pending order is on the closing side of some position and at most what remains of it |
| FlattenProofs.GeneratedWithin | core_engine/rl/safe_rl/deterministic_flatten_fsm.py:178-268 | each generator's order is within its position; flattening skips a position exactly below the minimum size and otherwise orders all that remains |
| FlattenChoices.ReductionIsMostUrgent | core_engine/rl/safe_rl/deterministic_flatten_fsm.py:182-206 | risk reduction leaves pending exactly the orders due for ten positions, or all if there are fewer, such that no position left out is more urgent |
| FlattenChoices.EveryPositionOrdered | core_engine/rl/safe_rl/deterministic_flatten_fsm.py:213-268 | aggressive selling and flattening leave pending exactly the orders due for all positions |
| FlattenChoices.AmountIs | core_engine/rl/safe_rl/deterministic_flatten_fsm.py:190-264 | each kind of order is made exactly if a fifth, half or all of what remains is at least 0.01, and is for that amount |
| FlattenChoices.FilledOrderLeaves | core_engine/rl/safe_rl/deterministic_flatten_fsm.py:190-281 | reporting an order as filled leaves four fifths of what remained, half or nothing, by kind of order |
| FlattenChoices.OrderTerms | core_engine/rl/safe_rl/deterministic_flatten_fsm.py:196-267 | longs are sold and shorts bought, with limits half a percent or one percent behind the price or at the market |
| FlattenChoices.IcebergIff | core_engine/rl/safe_rl/deterministic_flatten_fsm.py:226-245 | an iceberg showing a tenth of itself exactly for aggressive orders above 100 |
| FlattenChoices.UrgencyMonotonic | core_engine/rl/safe_rl/deterministic_flatten_fsm.py:160-169 | larger, worse and less liquid positions are never less urgent |
| FlattenChoices.UrgencyScale | core_engine/rl/safe_rl/deterministic_flatten_fsm.py:160-169 | the three weights and where they saturate |
| FlattenOrders.RunOrdersClose | core_engine/rl/safe_rl/deterministic_flatten_fsm.py:101-357 | after any run without negative reports, every order that an accepted transition leaves pending closes some position, on the right side and never for more than its quantity |
| FlattenOrders.RunKeepsFractions | core_engine/rl/safe_rl/deterministic_flatten_fsm.py:270-331 | in such runs every recorded progress stays between zero and one |
| FlattenOrders.NegativeReportDoubles | core_engine/rl/safe_rl/deterministic_flatten_fsm.py:270-281 | a reported execution of -1 on a position of 1 makes the flatten order 2 |
| FlattenProofs.SortSorts | core_engine/rl/safe_rl/deterministic_flatten_fsm.py:182-187 | positions are taken most urgent first, none lost |
| FlattenCycle.FlattenCompletesIff | core_engine/rl/safe_rl/deterministic_flatten_fsm.py:248-309 | executing every order of a non-empty flatten cycle in full ends in COMPLETE exactly when every progress entry that no order belongs to is at 0.99 already, and otherwise leaves FLATTENING, whatever the sizes of the positions |
| FlattenCycle.WholePositionsCompleteIff | core_engine/rl/safe_rl/deterministic_flatten_fsm.py:248-309 | with positions of at least one unit only entries of assets without a position can stand in the way |
| FlattenCycle.FreshFlattenCompletes | core_engine/rl/safe_rl/deterministic_flatten_fsm.py:248-309 | when progress concerns current positions only, the cycle completes exactly if each such position gets an order or is done |
| FlattenCycle.FreshRunCompletesIff | core_engine/rl/safe_rl/deterministic_flatten_fsm.py:101-309 | a fresh machine that is triggered, told to flatten and sees all its orders executed is complete exactly if no position is below the minimum order size of 0.01 |
| FlattenCycle.DustStalls | core_engine/rl/safe_rl/deterministic_flatten_fsm.py:248-309 | positions of 0.005 and 1.0: every order filled, nothing left over, and the machine stays in FLATTENING |
| FlattenCycle.StaleProgressStalls | core_engine/rl/safe_rl/deterministic_flatten_fsm.py:295-315 | as a run from a new machine: half-finished progress of a vanished asset leaves the next liquidation in FLATTENING with every order filled |
| FlattenProofs.RunKeepsBooks | core_engine/rl/safe_rl/deterministic_flatten_fsm.py:101-357 | in every reachable state no recorded progress exceeds one |
| FlattenFsm.DeterministicFlattenFSM.TransitionTo | core_engine/rl/safe_rl/deterministic_flatten_fsm.py:101-132 | the mutual recursion with the entry actions ends by a rank of states and is the model's transition |
| FlattenFsm.DeterministicFlattenFSM.OnEnterState | core_engine/rl/safe_rl/deterministic_flatten_fsm.py:138-151 | the entry actions are the model's |
| FlattenFsm.DeterministicFlattenFSM.AssessPositions | core_engine/rl/safe_rl/deterministic_flatten_fsm.py:153-176 | urgency and progress are set in place before the next transition is requested |
| FlattenFsm.DeterministicFlattenFSM.GenerateReduceOrders | core_engine/rl/safe_rl/deterministic_flatten_fsm.py:178-211 | orders for the most urgent positions, then perhaps escalation |
| FlattenFsm.DeterministicFlattenFSM.GenerateAggressiveOrders | core_engine/rl/safe_rl/deterministic_flatten_fsm.py:213-246 | half of what remains of each position |
| FlattenFsm.DeterministicFlattenFSM.GenerateFlattenOrders | core_engine/rl/safe_rl/deterministic_flatten_fsm.py:248-268 | all that remains of each position |
| FlattenFsm.DeterministicFlattenFSM.ReportOrderExecution | core_engine/rl/safe_rl/deterministic_flatten_fsm.py:270-293 | progress is capped at one, and both divisions by zero are named |
| FlattenFsm.DeterministicFlattenFSM.CheckCompletion | core_engine/rl/safe_rl/deterministic_flatten_fsm.py:295-309 | completes exactly in a liquidation stage with all progress at 0.99 |
| FlattenFsm.DeterministicFlattenFSM.OnLiquidationComplete | core_engine/rl/safe_rl/deterministic_flatten_fsm.py:311-315 | positions and pending orders are dropped |
| FlattenFsm.DeterministicFlattenFSM.UpdatePosition | core_engine/rl/safe_rl/deterministic_flatten_fsm.py:322-324 | one entry is stored, the others stay |
| FlattenFsm.DeterministicFlattenFSM.RemovePosition | core_engine/rl/safe_rl/deterministic_flatten_fsm.py:326-331 | the position goes together with its progress |
| FlattenFsm.DeterministicFlattenFSM.ClearOrders | core_engine/rl/safe_rl/deterministic_flatten_fsm.py:344-347 | pending orders become executed ones |
| FlattenFsm.DeterministicFlattenFSM.Reset | core_engine/rl/safe_rl/deterministic_flatten_fsm.py:349-357 | the machine is as new |
| FlattenFsm.DeterministicFlattenFSM.TriggerEmergencyFlatten | core_engine/rl/safe_rl/deterministic_flatten_fsm.py:384-391 | all given positions are stored before the assessment |
| FixedPoint.SumsAreExact | crates/nexus_oms/src/fixed_point_math.rs:73-87 | sum and difference are exact or fail precisely outside 64 bits, with Overflow and Underflow, and addition inverts subtraction |
| FixedPoint.MulIsExact | crates/nexus_oms/src/fixed_point_math.rs:92-104 | the product fits 128 bits; the result is the exact quotient truncated toward zero, or Overflow precisely when that is outside 64 bits |
| FixedPoint.DivIsExact | crates/nexus_oms/src/fixed_point_math.rs:107-121 | the same of division, with a zero divisor named |
| FixedPoint.MulThenDiv | crates/nexus_oms/src/fixed_point_math.rs:89-121 | multiplying and dividing by the same value succeeds, never moves away from zero, and loses less than SCALE/abs(b) + 1 raw units |
| DecimalFormat.FormatFixedPoint | crates/nexus_adapters/src/fix_binary_encoder.rs:206-234 | the text pushed piece by piece is the specified one and has at most 21 characters |
| DecimalFormat.FormatLength | crates/nexus_adapters/src/fix_binary_encoder.rs:206-234 | the 32-byte string never overflows |
| DecimalFormat.FormatDenotesValue | crates/nexus_adapters/src/fix_binary_encoder.rs:206-234 | reading the printed decimal gives exactly raw / 10^8 |
| DecimalFormat.ParseOfFormat | crates/nexus_adapters/src/fix_binary_encoder.rs:206-234 | the reference parser recovers sign, whole and fraction |
| DecimalFormat.FormatInjective | crates/nexus_adapters/src/fix_binary_encoder.rs:206-234 | different values are printed differently, despite padding and trimming |
| DecimalFormat.FractionIsTrimmed | crates/nexus_adapters/src/fix_binary_encoder.rs:225-231 | no trailing zero is printed, except a single one |
| VolumeBarModel.PricesOfBar | crates/nexus_features/src/volume_bar_aggregator.rs:155-178 | open, high, low and close are the first nonzero, highest, lowest and last price of the bar's ticks |
| VolumeBarModel.RegistersHoldSums | crates/nexus_features/src/volume_bar_aggregator.rs:180-190 | volume, price times volume and tick count are the sums over the ticks modulo 2^64 |
| VolumeBarModel.CompleteIff | crates/nexus_features/src/volume_bar_aggregator.rs:192-201 | a bar is complete exactly when its volume stood at the threshold after some tick |
| VolumeBarModel.VwapExactIff | crates/nexus_features/src/volume_bar_aggregator.rs:100-108 | with a volume that fits 64 bits the average is the true one, rounded down, exactly when the sum of price times volume fits as well |
| VolumeBarModel.VwapBetween | crates/nexus_features/src/volume_bar_aggregator.rs:100-108 | it then lies between the bar's low and high |
| VolumeBarModel.SingleTickOverflow | crates/nexus_features/src/volume_bar_aggregator.rs:184-187 | one unit at 100 dollars in the documented units gives an average below the bar's low |
| VolumeBarRuns.RunFollowsCut | crates/nexus_features/src/volume_bar_aggregator.rs:155-237 | in every run of ticks and takes the taken bars and the open one are the bars of consecutive pieces of the tick stream, and the counter counts late ticks |
| VolumeBarRuns.CutJoins | crates/nexus_features/src/volume_bar_aggregator.rs:155-237 | these pieces joined are the whole stream |
| VolumeBarRuns.VolumeConserved | crates/nexus_features/src/volume_bar_aggregator.rs:155-237 | taken and open volume add up to the ticks' volume modulo 2^64, and exactly if and only if no single bar of the run holds 2^64 or more |
| VolumeBarRuns.EagerBars | crates/nexus_features/src/volume_bar_aggregator.rs:155-237 | if completed bars are taken at once, each was below the threshold before its last tick and at it after, as far as the registers do not wrap, the pieces and the open bar make up all ticks, and the counter is the number of bars |
| VolumeBarRuns.EagerBarsFit | crates/nexus_features/src/volume_bar_aggregator.rs:155-237 | then no bar wraps if no tick can carry an unfinished bar past 64 bits |
| VolumeBarAnswers.AnswerIff | crates/nexus_features/src/volume_bar_aggregator.rs:155-201 | after any run, a tick is answered with true exactly if it leaves the volume of the open piece of the stream, in 64 bits, at the threshold or above |
| VolumeBarAnswers.ObedienceSuffices | crates/nexus_features/src/volume_bar_aggregator.rs:192-237 | a caller that takes a bar only when told that it is complete gets the same bars and counter as one that tries after every tick |
| VolumeBarAnswers.ObedientBars | crates/nexus_features/src/volume_bar_aggregator.rs:155-237 | each bar it takes reached the threshold with its last tick and not before, and the open one has not |
| VolumeBarRuns.CountsTicksNotBars | crates/nexus_features/src/volume_bar_aggregator.rs:192-201 | an untaken bar is counted again by every further tick |
| VolumeBarRuns.CountsBarsIff | crates/nexus_features/src/volume_bar_aggregator.rs:192-237 | in runs of fewer than 2^64 operations, overflowing or not, the counter is the number of bars taken or waiting exactly when no tick that meets a complete bar leaves the register at the threshold |
| VolumeBarRuns.CountsBarsIffTakenInTime | crates/nexus_features/src/volume_bar_aggregator.rs:192-237 | while no single bar overflows, that is exactly when every completed bar is taken before the next tick |
| VolumeBarRuns.CountedTwice | crates/nexus_features/src/volume_bar_aggregator.rs:192-237 | in general the counter exceeds that number by the ticks counted again, overflowing or not |
| VolumeBar.VolumeBarAggregator.constructor | crates/nexus_features/src/volume_bar_aggregator.rs:139-150 | an empty bar and no bars counted |
| VolumeBar.VolumeBarAggregator.ProcessTick | crates/nexus_features/src/volume_bar_aggregator.rs:155-201 | the register updates are the model's tick |
| VolumeBar.VolumeBarAggregator.TakeBar | crates/nexus_features/src/volume_bar_aggregator.rs:211-237 | a completed bar is handed out as a copy and the aggregator starts a new one |
| VolumeBar.OhlcvBar.GetVwap | crates/nexus_features/src/volume_bar_aggregator.rs:100-108 | the model's average |
| VolumeBar.OhlcvBar.Reset | crates/nexus_features/src/volume_bar_aggregator.rs:87-97 | the bar is empty again |
| RollingModel.WindowRunSum | crates/nexus_features/src/simd_rolling_windows.rs:57-119 | whatever is pushed and cleared, the incremental sum is the sum of the last values since the last clear that fit, and the count their number |
| RollingModel.WindowRunMean | crates/nexus_features/src/simd_rolling_windows.rs:78-89 | in every run the mean is the sum of those values over their number, and zero without any |
| RollingModel.RunningSum | crates/nexus_features/src/simd_rolling_windows.rs:57-76 | the same after any pushes |
| RollingModel.BufferHolds | crates/nexus_features/src/simd_rolling_windows.rs:57-64 | each kept value sits in its own slot of the circular buffer, unused slots hold zero |
| RollingModel.SliceIsKept | crates/nexus_features/src/simd_rolling_windows.rs:121-126 | the slice is a permutation of the kept values, in order until the buffer wraps |
| RollingModel.MeanBetween | crates/nexus_features/src/simd_rolling_windows.rs:78-89 | the mean lies between any bounds on the kept values |
| RollingModel.KeepsRequestedIff | crates/nexus_features/src/simd_rolling_windows.rs:41-57 | the window always keeps the requested number of values exactly when that is a multiple of eight |
| RollingModel.SmallRun | crates/nexus_features/src/simd_rolling_windows.rs:302-312 | a window of four holds six values after six pushes, with mean 3.5 |
| RollingModel.CalculatorSums | crates/nexus_features/src/simd_rolling_windows.rs:161-202 | the cumulative sums cover the ticks since the last reset, the price and volume windows go back past it |
| RollingModel.VwapBetween | crates/nexus_features/src/simd_rolling_windows.rs:180-202 | the average is the quotient of the two sums and lies between the lowest and highest price for non-negative volumes, zero if nothing traded |
| RollingWindow.SimdRollingWindow.constructor | crates/nexus_features/src/simd_rolling_windows.rs:41-57 | an empty window of the aligned capacity |
| RollingWindow.SimdRollingWindow.Push | crates/nexus_features/src/simd_rolling_windows.rs:57-76 | the update of the circular array is the model's push |
| RollingWindow.SimdRollingWindow.Mean | crates/nexus_features/src/simd_rolling_windows.rs:78-89 | the model's mean |
| RollingWindow.SimdRollingWindow.Clear | crates/nexus_features/src/simd_rolling_windows.rs:110-119 | the loop leaves an empty window |
| RollingWindow.SimdRollingWindow.AsSlice | crates/nexus_features/src/simd_rolling_windows.rs:121-126 | the slice holds exactly the last values pushed that fit, and in the order pushed until the buffer wraps |
| RollingWindow.SimdVwapCalculator.AddTick | crates/nexus_features/src/simd_rolling_windows.rs:161-177 | both windows and both sums take the tick |
| RollingWindow.SimdVwapCalculator.VwapNow | crates/nexus_features/src/simd_rolling_windows.rs:180-192 | the model's average |
| RollingWindow.SimdVwapCalculator.ResetCumulative | crates/nexus_features/src/simd_rolling_windows.rs:196-202 | the sums are reset, the windows are not |

## Left out

- Floating point: prices, quantiles, quantities, progress and times are exact reals; rounding, NaN and infinities are not modelled.
- Concurrent use of the slab: `allocate` hides the head for a moment and the retry in `free` does not refresh the link, so only the sequential behaviour is modelled; 32-bit wrap of queue positions, volume changes and trades on a stored order, and statistics other than the counts are not.
- L3SlabProofs.RunRepresents: covers the callers' discipline (insert a live unqueued order behind a true tail, unlink before free), not arbitrary calls; what the operations do outside it is in the functions of `L3SlabModel`.  The book reconstructor itself never looks up a tail (`get_level_tail` always answers that there is none), so in it every order starts a level of its own.
- GpuSchedulerProofs.RunInv: assumes that submitted job ids are new, requests are non-negative and the quota is between 0 and 1, as a caller would see to.
- Scheduler timestamps, model ids, maximum durations, GPU hours, utilisation figures, the pending-time estimate and the status reports; each only records.
- PositionModel.AverageWithinPrices: long positions only, since averaging a short divides a signed value by an absolute quantity; margins derived from that, the maintenance margin and torn reads in `get_position_snapshot` are left out with it.
- Weak memory: the steps of `TrackerProtocol` are sequentially consistent, while the source orders its atomics by Acquire and Release only; `Balanced` and `ApartFillsAreSequential` relate several of them.
- TrackerProtocol.EveryInterleaving: ties the registers to the steps' history, and `TrackerCalls` the history to the calls' arguments; it claims nothing about average price and initial margin, which are stored after the compare-and-swap; `ApartFillsAreSequential` does, for fills that do not overlap.  Overlapping fills can still leave the right average by coincidence, so that condition is not a necessary one.
- The figures of the impact assessment (only whether it raises matters to the state), history hashes, proposal mechanisms, value locks (never consulted on execution) and audit trail of the governance; checking an override code is a boolean parameter; proposal ids and clock readings are arguments.
- Hash functions: any function from strings to digests, assumed free of collisions on the strings actually hashed; UTF-8 encoding, order-to-trade ratio, proofs and the memory arena of the regulatory oracle.
- Wall-clock rate limiting of `get_pending_orders`, slippage and value totals, state entry times and error printing of the liquidation machine; sharing of position objects between the caller's dictionary and the machine's.
- FlattenCycle.FlattenCompletesIff: positions are filed under their own asset id, and progress is at most one, which every run keeps.
- Bar start and end times; the time bar aggregator, which has no completed bar to take.
- The order book imbalance and micro-price calculators and the batch processor of the rolling windows, vector arithmetic, and wrap-around of the write index.
- The FIX message builder, operator overloads and comparisons of the fixed-point type, and `f64` conversion.
- Tensors with fewer than three dimensions, and the mean of a batch without adjacent pairs, which is not a number.
- Neural networks, simulation, adapters, portals, Ray actors, file and network I/O, and text-pattern auditors.
