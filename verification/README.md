# Zettide data node: a verified model of its concurrent I/O core

This project models the data-node side of Zettide in Dafny: the raw read lane and the io_uring
engine, the catalog volume worker, the SPDK storage context, the SPDK adapters in C (provider,
dispatcher, endpoint, runtime, NVMe-oF export) and the endpoint registry with its control requests.
It proves what holds over every interleaving, every answer of the kernel or of SPDK, every run.

Two forms are used, following the program:

- Code that several threads run at once is a state machine. A `Step` is one atomic operation or one
  mutex section, `Enabled` and `Apply` say what it does, `IsRun` is any finite schedule, `Inv` is kept
  by every step (`NextInv`) and so holds in every state of every run (`RunInv`). The theorems are about
  all runs. That a protocol comes to its end is proved in two parts: between new calls every step makes a
  measure smaller, however the threads are scheduled (`FinishesWithin`), and a state in which no such step
  is possible is one in which everything asked for has been done (`StuckOnlyWhenDone`).
- Code that one thread runs is a class or a method with loops, proved against a specification. What
  the kernel, SPDK, the store or a callback does comes from a finite script that the method reads; when
  a script is used up the next answer is a failure. Every execution that returns uses finitely many
  answers, so every one of them is covered. The io_uring kernel may also be one that grants everything
  once its script is used up; the calls are proved to succeed on it.

`dafny verify dfyconfig.toml` checks the whole project.

| file | models |
|---|---|
| `AsyncLane.dfy` | the many-producer ring of `services/data-node/v3/linux_raw_storage.zig` |
| `IoUring.dfy` | the engine of `services/data-node/linux_io_uring.zig`, over the file algebra of `Bytes.dfy` |
| `VolumeWorker.dfy` | the worker of `services/data-node/spdk/catalog_volume_backend.zig` |
| `StorageRefs.dfy` | the reference count and task pool of `services/data-node/spdk/storage.zig` |
| `ProviderBatch.dfy`, `IovCopy.dfy` | batched completion and vector copies of `services/data-node/spdk/bdev_provider.c` |
| `ReadBatch.dfy`, `Rendezvous.dfy` | read batches and the command rendezvous of `services/data-node/spdk/bdev_dispatcher.c` |
| `BdevEndpoint.dfy` | requests, ranges and buffers of `services/data-node/spdk/bdev_endpoint.c` |
| `Codec.dfy`, `EndpointRegistry.dfy` | the desired-state file and the registry of `services/data-node/endpoint_registry.zig` |
| `EndpointControl.dfy` | `dispatch` of `services/data-node/endpoint_control.zig`, and whole daemon runs |
| `RuntimeLifecycle.dfy`, `DispatcherOwners.dfy` | `services/data-node/spdk/runtime.c` |
| `NvmfExport.dfy`, `CatalogExport.dfy` | the export layers: `nvmf_tcp_export.c`, `catalog_nvmf_export.zig`, `catalog_endpoint_backend.zig` |

`Wrappers.dfy` and `Collections.dfy` hold the optional values and the facts about sets and sequences
that the others share.

## Findings

What one might expect of the code and does not hold, with an input where it fails and the exact condition.

| expectation | fails at | holds exactly when |
|---|---|---|
| A lease on a ready runtime comes with an owner thread. `stop` puts the state back to `READY` when its message cannot be sent, even if the application has ended meanwhile, and `acquire` then succeeds with no owner | `RuntimeLifecycle.LeaseWithoutOwner` is such a run | `RuntimeLifecycle.ReadyOwnerIffRunning`: a ready runtime has an owner if and only if its application runs; `RuntimeLifecycle.OwnerlessExactlyIfPutBack`: it has none if and only if its last change of state was such a `stop`, its send failing after the application had ended |
| `submit` on a lane accepts a task while fewer than 128 are in the ring | `AsyncLane.RefusedWithRoom` is a run with 127, one task having been dequeued and its slot not yet handed back | `AsyncLane.RefusedExactlyWhenFull`: it refuses if and only if 128 positions are claimed and not handed back |
| A lane has run every accepted task when `stop` returns | `AsyncLane.AcceptedTaskLeft` is a run in which a task whose `submit` returned true before `stop` was called is published between the lane's last poll and its test of the stop flag, and is never run | `AsyncLane.ExitRunsAccepted`: it has run every task whose `submit` has returned true if and only if none of them was passed by at its last empty poll, that is, claimed after the poll, or waiting at the poll behind a `submit` that had claimed the head and not published it. For tasks that are claimed, accepted or not, the condition is another one (`AsyncLane.ExitLeaves`), and `AsyncLane.UnacceptedTaskLeft` is a run where the two differ |
| The registry restarts from whatever it has stored | `EndpointRegistry.FullStoreRefused`: 1024 endpoints, whose file has exactly the length of the read limit, if the limit of `readFileAlloc` may not be reached | `EndpointControl.Restart`: it is refused if and only if 1024 endpoints are stored and the limit itself is not readable. Whether it is belongs to the standard library and is a parameter of the store |

## Model

| member | source | states |
|---|---|---|
| `AsyncLane.SequenceMeaning` | services/data-node/v3/linux_raw_storage.zig:108-142 | A slot's sequence tells, for any position, whether the slot is free for it, still occupied by the previous lap, or already past it |
| `AsyncLane.NextInv` | services/data-node/v3/linux_raw_storage.zig:90-158 | Every step of every producer, of the consumer and of `stop` keeps the invariant of the ring |
| `AsyncLane.RunInv` | services/data-node/v3/linux_raw_storage.zig:90-158 | The invariant holds in every state of every run |
| `AsyncLane.DequeuedInClaimOrder` | services/data-node/v3/linux_raw_storage.zig:108-142 | The dequeued tasks are always a prefix of the claimed tasks in claim order, and both lists only grow: none is lost, duplicated or reordered; each is the task the call was made with that won its position |
| `AsyncLane.CallCarriesItsTask` | services/data-node/v3/linux_raw_storage.zig:108-132 | From entry to return a call of `submit` carries exactly the task it was made with, through every retry; once it has swapped it holds the position it won |
| `AsyncLane.ClaimIsOneCallsTask` | services/data-node/v3/linux_raw_storage.zig:108-132 | Every entry of the claim list is the task of exactly one call, the one whose compare-and-swap won that position |
| `AsyncLane.OneClaimPerCall` | services/data-node/v3/linux_raw_storage.zig:108-132 | A call of `submit` claims at most one position |
| `AsyncLane.AcceptedTaskIsTheCallers` | services/data-node/v3/linux_raw_storage.zig:108-142 | A call that returns true has won a position, where its own task is claimed for ever after; when the lane takes that position it takes that task |
| `AsyncLane.ExecutesWhatItDequeues` | services/data-node/v3/linux_raw_storage.zig:134-158 | The lane executes the tasks it dequeues, each once and in order, at most the last one being still to be executed |
| `AsyncLane.PublishedUntilDequeued` | services/data-node/v3/linux_raw_storage.zig:118-142 | A published task stays in its slot unchanged until the consumer has taken it |
| `AsyncLane.SlotsAreExclusive` | services/data-node/v3/linux_raw_storage.zig:118-141 | No two threads write or read one slot's task at once |
| `AsyncLane.RefusedExactlyWhenFull` | services/data-node/v3/linux_raw_storage.zig:108-132 | `submit` gives up at its sequence load if and only if its position is current and 128 positions are claimed and not handed back |
| `AsyncLane.RefusedWithRoom` | services/data-node/v3/linux_raw_storage.zig:108-142 | A run in which `submit` is refused with 127 tasks in the ring, because the consumer has dequeued one and not handed its slot back |
| `AsyncLane.FilledRun` | services/data-node/v3/linux_raw_storage.zig:108-132 | For every number up to 128 there is a run of whole submissions that leaves that many tasks in the ring |
| `AsyncLane.NoLostWakeup` | services/data-node/v3/linux_raw_storage.zig:102-158 | The lane never sleeps on an unset event with a published head or a requested stop, unless the responsible thread has still to call `set` |
| `AsyncLane.SleepingLaneIsDrained` | services/data-node/v3/linux_raw_storage.zig:144-158 | Once every call has returned, a sleeping lane has dequeued every claimed task and no stop is pending |
| `AsyncLane.StuckOnlyWhenDone` | services/data-node/v3/linux_raw_storage.zig:90-158 | A state in which nothing can move but by a new call has every `submit` returned; without a stop the lane sleeps and has executed every claimed task, and a `stop` that was called has returned |
| `AsyncLane.FinishesWithin` | services/data-node/v3/linux_raw_storage.zig:90-158 | Without new calls and spurious failures of a swap every step lowers a measure, in any schedule, so such a state is reached: no retry loop of the producers and no loop of the lane goes on for ever |
| `AsyncLane.ExitRunsAccepted` | services/data-node/v3/linux_raw_storage.zig:102-158 | When the lane has exited, an accepted task (one whose `submit` has returned true) is left if and only if the last empty poll passed it by: it was claimed later, or it waited behind a `submit` that held the head unpublished; so all accepted tasks have been taken if and only if none was passed by |
| `AsyncLane.AcceptedExactlyWhenReturned` | services/data-node/v3/linux_raw_storage.zig:108-132 | A call of `submit` returns true exactly at the step that counts as accepting its position, which is where the task it was called with is claimed |
| `AsyncLane.ExitLeaves` | services/data-node/v3/linux_raw_storage.zig:144-158 | When the lane has exited, the claimed tasks left, accepted or not, are exactly those from the head of its last empty poll on; no claim is left if and only if nothing was claimed untaken at that poll and nothing since |
| `AsyncLane.AcceptedTaskLeft` | services/data-node/v3/linux_raw_storage.zig:102-158 | A run in which `stop` returns and a task whose `submit` returned true, before `stop` was called, has not been dequeued |
| `AsyncLane.UnacceptedTaskLeft` | services/data-node/v3/linux_raw_storage.zig:102-158 | A run in which `stop` returns and a claimed task is left although no `submit` ever returned true |
| `AsyncLane.WrapDifference` | services/data-node/v3/linux_raw_storage.zig:178-180 | The wrapped signed difference of two 64-bit counters is the true one within half the range |
| `AsyncLane.WrappedStep` | services/data-node/v3/linux_raw_storage.zig:108-142 | One step on 64-bit counters is the image of the step on unbounded ones |
| `AsyncLane.WordRunFollowsUnboundedRun` | services/data-node/v3/linux_raw_storage.zig:90-180 | Every run of the 64-bit program is the image of an unbounded run, up to the first comparison by a producer overtaken by 2^63 - 128 claims, if any |
| `IoUring.Engine.WriteAllManyAt` | services/data-node/linux_io_uring.zig:206-269 | On success with non-overlapping writes the file is all writes applied one by one; whatever happens no byte outside them changes; argument faults change nothing; the engine ends idle or inactive; on an inactive engine nothing changes, neither file nor ring nor engine, and writes without fault fail; a call fails only for its arguments, for a request the kernel failed (not by an interrupt), with that errno's error, or because the kernel refused a call, took too few or too many requests or completed one wrongly, which alone makes the engine inactive; on a kernel that grants everything it succeeds |
| `IoUring.Engine.Serve` | services/data-node/linux_io_uring.zig:98-327 | Over any sequence of read and write calls: once inactive the engine stays inactive, the file keeps what it held then, and every later call that asks for anything fails; each call does to the file what it does alone and fails only for the reasons it may |
| `IoUring.Engine.ServeOne` | services/data-node/linux_io_uring.zig:98-327 | The same for one call |
| `IoUring.Engine.WriteBatches` | services/data-node/linux_io_uring.zig:214-269 | The same for writes without fault |
| `IoUring.Engine.WriteSome` | services/data-node/linux_io_uring.zig:216-268 | One batch, vectored or not, lands whole if its writes do not overlap, and changes nothing outside them; errors have their causes as above |
| `IoUring.Engine.WriteBatch` | services/data-node/linux_io_uring.zig:223-266 | One batch of scalar writes lands whole, whatever the order, the short counts and the interrupts |
| `IoUring.Engine.FinishWrites` | services/data-node/linux_io_uring.zig:256-266 | Each short or interrupted write of a batch is completed, and the others are spared; it fails only with a failed request's error or because the engine gives up, and succeeds on a kernel that grants everything |
| `IoUring.Engine.WriteAllVectoredLocked` | services/data-node/linux_io_uring.zig:440-475 | A contiguous batch lands as its joined write |
| `IoUring.Engine.WriteIovecs` | services/data-node/linux_io_uring.zig:447-475 | The vectored loop resumes after short and interrupted writes and ends with all bytes written, also when it changes to scalar writes part-way |
| `IoUring.Engine.WritevOnce` | services/data-node/linux_io_uring.zig:450-473 | One vectored request writes a prefix of what is left, or tells that vectored writes are not supported |
| `IoUring.Engine.WriteScalars` | services/data-node/linux_io_uring.zig:459-468 | The fallback writes exactly the rest of the iovecs |
| `IoUring.Engine.WriteAllLocked` | services/data-node/linux_io_uring.zig:420-438 | On success all the bytes are at their place and nothing else changed; an inactive engine is left as it is |
| `IoUring.Engine.ReadManyAt` | services/data-node/linux_io_uring.zig:98-164 | On success every result without a failure holds exactly the file's bytes up to the buffer's end or the end of file; the file is unchanged; the engine ends idle or inactive; on an inactive engine nothing changes, and reads without fault fail; a result reports a failure only if a request into its own buffer failed (not by an interrupt), with that errno's error; the call itself fails only for its arguments or because the engine gives up, for the reasons above; on a kernel that grants everything it succeeds with no failure |
| `IoUring.Engine.ReadBatches` | services/data-node/linux_io_uring.zig:104-163 | The same for reads without fault |
| `IoUring.Engine.ReadBatch` | services/data-node/linux_io_uring.zig:109-163 | The same for one batch, other buffers being spared |
| `IoUring.Engine.FinishReads` | services/data-node/linux_io_uring.zig:142-161 | The same for the results of a batch that has been answered |
| `IoUring.Engine.FinishRead` | services/data-node/linux_io_uring.zig:142-161 | A short or interrupted read of a batch is completed to the same result; it reports a failure only if the batch did or a retry's request failed |
| `IoUring.Engine.ReadAtLocked` | services/data-node/linux_io_uring.zig:166-191 | The buffer is filled to its end or to the end of file with the file's bytes, and the amount says how far; an inactive engine is left as it is |
| `IoUring.Engine.SubmitBatch` | services/data-node/linux_io_uring.zig:350-392 | Either exactly the queued requests are in flight, once each, or the engine is inactive |
| `IoUring.Engine.SubmitPolled` | services/data-node/linux_io_uring.zig:351-366 | With a polled queue the requests are submitted and counted as taken, or the engine is inactive for the kernel's fault |
| `IoUring.Engine.SubmitCounted` | services/data-node/linux_io_uring.zig:367-391 | Without one, the kernel's counts are added up to the whole batch, interrupts being retried, or the engine is inactive for the kernel's fault |
| `IoUring.Engine.CollectBatch` | services/data-node/linux_io_uring.zig:128-141 | On success the completions the kernel handed out are a permutation of the batch, each with its request's token; nothing is in flight, and each tracker entry says what its request did; otherwise the engine is inactive |
| `IoUring.Engine.CollectOne` | services/data-node/linux_io_uring.zig:135-141 | A completion is filed under a request not filed before, or the engine fails |
| `IoUring.Engine.RunBatch` | services/data-node/linux_io_uring.zig:116-141 | A batch is queued, submitted and answered as a whole, or the engine is inactive |
| `IoUring.Engine.Complete` | services/data-node/linux_io_uring.zig:339-348 | The one request's amount or its own error, as its completion reported it; any other outcome leaves the engine inactive |
| `IoUring.ErrorMeans` | services/data-node/linux_io_uring.zig:541-553 | Each errno is reported as the error the table names, and no other errno is |
| `IoUring.Engine.CopyCompletion` | services/data-node/linux_io_uring.zig:394-418 | Interrupts are retried, and one completion is taken off what is in flight |
| `IoUring.Engine.Await` | services/data-node/linux_io_uring.zig:341-348 | The only request's amount or its own error, as its completion reported it; any other outcome leaves the engine inactive, for the kernel's fault |
| `IoUring.Engine.FailAfterDrain` | services/data-node/linux_io_uring.zig:329-332 | The engine ends inactive, and what was in flight changed only its own writes' bytes |
| `IoUring.Engine.NextToken` | services/data-node/linux_io_uring.zig:308-313 | The next 64-bit token, skipping zero |
| `IoUring.TokensDistinct` | services/data-node/linux_io_uring.zig:308-313 | The tokens of a batch are pairwise distinct, across the counter's wrap-around |
| `IoUring.ConsumeIovecs` | services/data-node/linux_io_uring.zig:503-516 | The iovecs left joined are the iovecs before without their first `amount` bytes; false exactly when they hold fewer |
| `IoUring.BatchTracker.Record` | services/data-node/linux_io_uring.zig:518-539 | A completion is filed exactly if its token's request is known, not yet seen and long enough, and only there |
| `IoUring.CheckWrites` | services/data-node/linux_io_uring.zig:206-210 | The first write at fault decides the error; none is at fault exactly if each is within the request limit and none ends beyond 64 bits |
| `IoUring.CheckReads` | services/data-node/linux_io_uring.zig:98-103 | The same for reads |
| `Bytes.ApplyJoined` | services/data-node/linux_io_uring.zig:493-501 | Adjacent writes applied one by one are the joined write applied once |
| `VolumeWorker.RefinesFifo` | services/data-node/spdk/catalog_volume_backend.zig:109-205 | In every state of every run each completion carries the status and the data that one-at-a-time execution in submit order gives it, where both may depend on the volume the request finds; and these are, in numbers and bytes, what `AnswersMean` says |
| `VolumeWorker.AnswersMean` | services/data-node/spdk/catalog_volume_backend.zig:178-227 | In every run a completion's status is 0 exactly for a reset and for a read, write or flush in bounds that the backend does not fail on the volume the earlier requests leave; otherwise it is the number of that error; a read delivers that volume's bytes |
| `VolumeWorker.VolumeGrowsByWrites` | services/data-node/spdk/catalog_volume_backend.zig:188-194 | Byte by byte, a write in bounds stores its bytes at its place, all of them unless the backend fails it, and no request changes anything else |
| `VolumeWorker.AcceptedAreSubmitted` | services/data-node/spdk/catalog_volume_backend.zig:109-135 | The accepted requests are those of the calls that reached the queue before the stop flag was set, unchanged and in order |
| `VolumeWorker.SubmittedRun` | services/data-node/spdk/catalog_volume_backend.zig:109-135 | For any list of requests there is a run that submits them one after the other and has accepted exactly that list |
| `VolumeWorker.StatusTellsOrder` | services/data-node/spdk/catalog_volume_backend.zig:178-205 | A read that fails on the volume before a write and not after it has different statuses on the two sides, so the refinement tells the order |
| `VolumeWorker.WritesRunAlone` | services/data-node/spdk/catalog_volume_backend.zig:153-165 | While the worker executes a write or flush no read is in flight, and all earlier requests are complete |
| `VolumeWorker.NoLostWakeup` | services/data-node/spdk/catalog_volume_backend.zig:99-176 | The worker never sleeps with a queued request or a stop, unless the thread that gave it holds the mutex and has still to signal |
| `VolumeWorker.CloseCompletesAll` | services/data-node/spdk/catalog_volume_backend.zig:99-107 | When `close` returns every accepted request has completed exactly once, and the volume is what sequential execution leaves |
| `VolumeWorker.StuckOnlyWhenDone` | services/data-node/spdk/catalog_volume_backend.zig:99-205 | A state in which nothing can move but by a new call has every accepted request answered, and `close` returned if it was called; otherwise the worker sleeps |
| `VolumeWorker.FinishesWithin` | services/data-node/spdk/catalog_volume_backend.zig:99-205 | Without new calls and spurious wake-ups every step lowers a measure, in any schedule, so such a state is reached |
| `VolumeWorker.NextInv` | services/data-node/spdk/catalog_volume_backend.zig:99-205 | Every step of the submitters, the worker, the readers and `close` keeps the invariant |
| `VolumeWorker.RunInv` | services/data-node/spdk/catalog_volume_backend.zig:99-205 | The invariant holds in every state of every run |
| `StorageRefs.TornDownUnreferenced` | services/data-node/spdk/storage.zig:293-342 | Teardown runs only when no submit frame and no completion holds a reference |
| `StorageRefs.NoneGainedAfterClosing` | services/data-node/spdk/storage.zig:293-326 | Once the closing bit is set it stays, and no reference is gained |
| `StorageRefs.DrainSetOnce` | services/data-node/spdk/storage.zig:293-342 | The drain event is set at most once, and by teardown exactly if references were outstanding at the `fetchOr` |
| `StorageRefs.CountIsReferences` | services/data-node/spdk/storage.zig:317-342 | The count is the number of references held, and a release never sees zero |
| `StorageRefs.TasksApart` | services/data-node/spdk/storage.zig:139-259 | No task is both pooled and owned, or owned twice, and `close` leaves none |
| `StorageRefs.PoolEmptyAfterClose` | services/data-node/spdk/storage.zig:293-315 | The pool is empty once `close` has returned |
| `StorageRefs.PoolBounded` | services/data-node/spdk/storage.zig:139-259 | The pool never keeps more than 1024 tasks |
| `StorageRefs.AcquireDecides` | services/data-node/spdk/storage.zig:317-342 | A call is turned away exactly on the closing bit or a count that two more references would overflow, and gets its two references exactly if the word it saw is still there |
| `StorageRefs.HandedOverRun` | services/data-node/spdk/storage.zig:139-259 | There is a run with any number of reads in flight that the count has room for, each holding two references |
| `StorageRefs.StuckOnlyWhenDone` | services/data-node/spdk/storage.zig:139-342 | A state in which nothing can move but by a new call has every call returned, every completion over, and the context torn down if `close` was called |
| `StorageRefs.FinishesWithin` | services/data-node/spdk/storage.zig:139-342 | Without new calls and spurious failures every step lowers a measure, in any schedule, although a swap that loses to another is tried again |
| `StorageRefs.NextInv` | services/data-node/spdk/storage.zig:139-342 | Every step of the calls, the completions and `close` keeps the invariant |
| `StorageRefs.RunInv` | services/data-node/spdk/storage.zig:139-342 | The invariant holds in every state of every run |
| `ProviderBatch.CompleteBatch` | services/data-node/spdk/bdev_provider.c:208-250 | For distinct requests, what is delivered is each request once on its own thread with its own status, and one message to each other thread that submitted one, although a handed-over request may change at once |
| `ProviderBatch.EachCompletedOnce` | services/data-node/spdk/bdev_provider.c:208-250 | The completions of the groups are, as a multiset, each request once on its own thread with its own status |
| `ProviderBatch.OneMessagePerThread` | services/data-node/spdk/bdev_provider.c:237-249 | One message goes to each other thread that submitted a request of the batch, and none elsewhere |
| `ProviderBatch.Place` | services/data-node/spdk/bdev_provider.c:217-236 | The intrusive lists stay well linked, the request joins its thread's list or heads a new one, and no other request's status changes |
| `ProviderBatch.GroupsPartition` | services/data-node/spdk/bdev_provider.c:217-236 | The groups together are the requests of the batch, none lost or repeated |
| `ProviderBatch.GroupsByThread` | services/data-node/spdk/bdev_provider.c:225-235 | Each group is one thread's and no two groups share a thread |
| `ProviderBatch.HandOver` | services/data-node/spdk/bdev_provider.c:237-249 | Every group is handed over once, on the current thread or by a message, each link being read before its list goes |
| `ProviderBatch.CompleteProviderIoBatch` | services/data-node/spdk/bdev_provider.c:195-206 | The list is completed in order, each link being read before its request goes |
| `IovCopy.CopyFromIovs` | services/data-node/spdk/bdev_provider.c:126-143 | The buffer gets a prefix of the vectors joined; true exactly if they are long enough |
| `IovCopy.CopyToIovs` | services/data-node/spdk/bdev_provider.c:145-162 | The vectors joined get the buffer as a prefix and keep the rest; true exactly if they are long enough |
| `IovCopy.RoundTrip` | services/data-node/spdk/bdev_provider.c:126-162 | What one copy scatters the other gathers back |
| `ReadBatch.SubmitReadMany` | services/data-node/spdk/bdev_dispatcher.c:498-549 | The answer is the first obstacle's, and zero exactly on valid arguments; then every status is the one the device reported for the read, or that of a preparation that failed; every buffer that meets no other and whose status is zero holds, byte by byte, what the device holds from the read's offset on, and a bounced one that failed keeps its bytes; the caller is called back once, batch and bounce buffer are freed once; a refused call changes no status, no memory and nothing at the device, calls nobody back, and leaves no batch allocated |
| `ReadBatch.Run` | services/data-node/spdk/bdev_dispatcher.c:215-246 | The same for the run on the owner thread, for any mix of inline, refused and later completions in any order; the batch's fields can only be reached through members that need its allocation, so none is touched after the free |
| `ReadBatch.Batch.ItemComplete` | services/data-node/spdk/bdev_dispatcher.c:140-153 | The item's status is recorded; the batch ends exactly at the last completion after submission |
| `ReadBatch.Batch.Finish` | services/data-node/spdk/bdev_dispatcher.c:118-138 | Every destination that stands alone and succeeded holds what the device holds, directly or bounced; a bounced one that failed is untouched; freed and called back once; also for a batch that could not be prepared, with all its items failed |
| `ReadBatch.CopiedOutSlice` | services/data-node/spdk/bdev_dispatcher.c:126-133 | After the copies out, such a destination has its bounce slice if its status is zero, and its old bytes otherwise |
| `ReadBatch.Prepare` | services/data-node/spdk/bdev_dispatcher.c:155-213 | Direct exactly if every buffer is DMA capable; otherwise slices aligned, disjoint and inside the allocation, or the one of no device, overflow and out of memory that applies, each exactly when it does |
| `ReadBatch.LayOut` | services/data-node/spdk/bdev_dispatcher.c:185-203 | The slices are aligned, in order and within the size; it fails exactly if the layout exceeds the address space |
| `ReadBatch.FailAll` | services/data-node/spdk/bdev_dispatcher.c:222-231 | A failed preparation gives every item its status and ends the batch once through the same finish, memory untouched |
| `ReadBatch.Device.Drain` | services/data-node/spdk/bdev_dispatcher.c:140-153 | Completing what is pending in any order ends the batch once |
| `Rendezvous.OneSignalByTheLast` | services/data-node/spdk/bdev_dispatcher.c:78-110 | At most one signal is sent, by whichever of completion and owner exit comes last, and one has been once both are through |
| `Rendezvous.ReturnsAfterBoth` | services/data-node/spdk/bdev_dispatcher.c:320-369 | The caller returns only when both have happened, with the completed status |
| `Rendezvous.NoAccessAfterReturn` | services/data-node/spdk/bdev_dispatcher.c:78-110 | After the return no thread touches the command but for the end of an unlock under way |
| `Rendezvous.CallerIsWoken` | services/data-node/spdk/bdev_dispatcher.c:353-358 | Once both are through the caller is not left waiting and can go on |
| `Rendezvous.StuckOnlyWhenDone` | services/data-node/spdk/bdev_dispatcher.c:78-116 | If nothing can move any more, both sides have finished and the caller has returned with the completed status |
| `Rendezvous.FinishesWithin` | services/data-node/spdk/bdev_dispatcher.c:78-116 | Without spurious wake-ups every step lowers a measure, in any schedule, so this state is reached |
| `Rendezvous.ReturningRun` | services/data-node/spdk/bdev_dispatcher.c:78-116 | For either order of the two sides and any status there is a run in which the caller returns with it |
| `Rendezvous.NextInv` | services/data-node/spdk/bdev_dispatcher.c:78-116 | Every step keeps the invariant |
| `BdevEndpoint.Endpoint.Submit` | services/data-node/spdk/bdev_endpoint.c:345-374 | The answer is recorded, and is the device's or that of its waiting list: zero exactly if the request is live or was called back once; the count stays the number of live requests through any re-entry |
| `BdevEndpoint.Endpoint.Issue` | services/data-node/spdk/bdev_endpoint.c:314-343 | Zero gives the request to the device or parks it; anything else leaves it with the caller and the endpoint alive |
| `BdevEndpoint.Endpoint.Complete` | services/data-node/spdk/bdev_endpoint.c:279-296 | The request is called back once, with the status of its completion and of a removal seen before |
| `BdevEndpoint.Endpoint.Retry` | services/data-node/spdk/bdev_endpoint.c:298-312 | A parked request is issued again or called back once with the error |
| `BdevEndpoint.Endpoint.Finish` | services/data-node/spdk/bdev_endpoint.c:267-277 | The count drops and the callback is made once, after which anything may happen |
| `BdevEndpoint.Endpoint.Close` | services/data-node/spdk/bdev_endpoint.c:162-178 | It succeeds on the owner thread exactly if no request is live |
| `BdevEndpoint.Endpoint.Remove` | services/data-node/spdk/bdev_endpoint.c:77-87 | From the removal event on the endpoint counts as removed |
| `BdevEndpoint.Endpoint.Activity` | services/data-node/spdk/bdev_endpoint.c:267-374 | Any nested run of completions, retries, submissions, closes and removals keeps the invariant and every other call's request |
| `BdevEndpoint.CalledBackOnce` | services/data-node/spdk/bdev_endpoint.c:267-374 | A submission that answered zero has no callback while live and exactly one afterwards; one that answered otherwise has none; a closed endpoint owes none |
| `BdevEndpoint.CompletionStatus` | services/data-node/spdk/bdev_endpoint.c:279-296 | Zero exactly on success, never positive, and no device if it was removed |
| `BdevEndpoint.ValidateRange` | services/data-node/spdk/bdev_endpoint.c:227-265 | Zero exactly for whole, aligned blocks inside the device, in write units when writing; otherwise the code of the first fault |
| `BdevEndpoint.BufferIsDmaCapable` | services/data-node/spdk/bdev_endpoint.c:195-225 | True exactly if the buffer is aligned, does not wrap and every byte of it is mapped |
| `Codec.Layout` | services/data-node/endpoint_registry.zig:376-393 | The bytes of a file at their offsets: magic, version 2, record size 52, count and checksum with low bytes first, then the records |
| `Codec.RecordLayout` | services/data-node/endpoint_registry.zig:384-390 | The bytes of a record: the ids at 0, 16 and 32, the frontend 3 at 48, zeros after it |
| `Codec.FrontendMeans` | services/data-node/endpoint_registry.zig:413-428 | A record with nonzero padding is invalid, with frontend 1, 2 or 4 retired, with any other than 3 invalid; otherwise it gives its three ids |
| `Codec.DecodeOfEncode` | services/data-node/endpoint_registry.zig:376-430 | Decoding the encoding of at most 1024 endpoints gives them back |
| `Codec.EncodeOfDecode` | services/data-node/endpoint_registry.zig:376-430 | Bytes that decode are the encoding of what they decode to |
| `Codec.AcceptsExactlyEncodings` | services/data-node/endpoint_registry.zig:395-430 | The accepted byte strings are exactly the encodings of lists of at most 1024 |
| `Codec.BadFrontendRejects` | services/data-node/endpoint_registry.zig:413-421 | A retired or unknown frontend byte in any record rejects the whole file |
| `Codec.RetiredExactly` | services/data-node/endpoint_registry.zig:395-421 | The retired-frontend error comes exactly for version 1 files and for framed files whose first undecodable record is a retired frontend's |
| `Codec.FirstBadDecides` | services/data-node/endpoint_registry.zig:413-428 | The first record that does not decode decides the error |
| `Codec.Encode` | services/data-node/endpoint_registry.zig:376-393 | The buffer filled in place is the encoding; more than 1024 endpoints are refused |
| `Codec.Decode` | services/data-node/endpoint_registry.zig:395-430 | The checks and the record loop compute the decoding |
| `Codec.LittleOfRead` | services/data-node/endpoint_registry.zig:398-408 | Little-endian fields read back to the bytes they came from |
| `EndpointRegistry.Store.Replace` | services/data-node/endpoint_registry.zig:356-369 | The file holds the new list and the history grows by it, or nothing changes; if the process ends inside, either |
| `EndpointRegistry.Store.Load` | services/data-node/endpoint_registry.zig:341-354 | It succeeds exactly if the file is readable and decodes, with the stored list; a missing file is the empty list |
| `EndpointRegistry.Store.ReadableUnlessFull` | services/data-node/endpoint_registry.zig:331-347 | The file is readable exactly if fewer than 1024 endpoints are stored or the limit itself is readable |
| `EndpointRegistry.FullStoreRefused` | services/data-node/endpoint_registry.zig:331-354 | A registry takes 1024 good endpoints through `ensure`, one by one from an empty store, and a restart refuses what it stored |
| `EndpointRegistry.EnsureSample` | services/data-node/endpoint_registry.zig:150-176 | `ensure` of one more endpoint that clashes with none stores it at the end of the list, although its instance does not start |
| `EndpointRegistry.SamplesGood` | services/data-node/endpoint_registry.zig:121-138 | There are lists of any length up to 1024 that `init` accepts |
| `EndpointRegistry.Registry.Init` | services/data-node/endpoint_registry.zig:114-140 | It succeeds exactly on a readable, decodable list of at most 1024 valid specs with distinct endpoints and pools, and starts with every entry pending |
| `EndpointRegistry.Registry.Ensure` | services/data-node/endpoint_registry.zig:150-176 | It is refused with an error exactly for that error's reason; a new endpoint is durable before it is started; success implies it is stored, and the view tells its entry's state and its instance's locator; the invariant is kept; a crash leaves the list before or the list with the endpoint |
| `EndpointRegistry.AdmitMeans` | services/data-node/endpoint_registry.zig:150-163 | Each refusal has its exact reason: a zero id, the first entry sharing endpoint or pool being another's, stopping or of another spec, or 1024 desired endpoints |
| `EndpointRegistry.LocatorMeans` | services/data-node/endpoint_registry.zig:438-452 | A locator is valid exactly if its three strings are UTF-8 of 1 to 256 bytes and its namespace is not 0 |
| `EndpointRegistry.ViewTells` | services/data-node/endpoint_registry.zig:309-319 | A view is active, pending or failed exactly as its entry is, and has a locator exactly if active: that of the instance running for the spec |
| `EndpointRegistry.Registry.Scan` | services/data-node/endpoint_registry.zig:150-163 | The scan finds the verdict of the first entry that shares the endpoint or the pool |
| `EndpointRegistry.Registry.StartEntry` | services/data-node/endpoint_registry.zig:268-291 | It succeeds exactly if the backend starts an instance with a valid locator, and makes the entry active with it; failure leaves it failed with no instance; no other entry changes |
| `EndpointRegistry.Registry.StartInstance` | services/data-node/endpoint_registry.zig:268-283 | It succeeds exactly if the backend starts an instance with a valid locator; one with an invalid locator is stopped again; the error is the backend's or names the locator |
| `EndpointRegistry.Registry.Release` | services/data-node/endpoint_registry.zig:197-227 | Nothing changes unless a list without the endpoint is durable; then the entry is gone, or kept stopping with its instance; the invariant is kept; a crash leaves either list |
| `EndpointRegistry.Registry.Inspect` | services/data-node/endpoint_registry.zig:178-184 | It finds the endpoint exactly if it is stored, and tells its entry's state and its instance's locator |
| `EndpointRegistry.Registry.List` | services/data-node/endpoint_registry.zig:186-195 | The views are in stored order, each telling a desired entry's state and its instance's locator; an error exactly if there is no memory for them |
| `EndpointRegistry.Registry.Reconcile` | services/data-node/endpoint_registry.zig:229-240 | Exactly the desired entries without an instance are started; the counts are those that now run and those that do not; the process ends in it only where a backend call ends it or a roll-back fails |
| `EndpointRegistry.Registry.Shutdown` | services/data-node/endpoint_registry.zig:242-266 | The desired list is kept; without an error no instance is left and every entry is pending; an error is the first one a stop gave |
| `EndpointRegistry.GoodDesired` | services/data-node/endpoint_registry.zig:121-138 | The desired specs of a valid registry are a list that `init` accepts |
| `EndpointRegistry.RemovedWithout` | services/data-node/endpoint_registry.zig:203-215 | The list written by `release` is the stored list without the endpoint |
| `EndpointRegistry.StoredIffDesired` | services/data-node/endpoint_registry.zig:178-184 | An endpoint is on the stored list exactly if its entry is desired |
| `EndpointRegistry.RunsStarted` | services/data-node/endpoint_registry.zig:284-285 | Starting one entry keeps the live instances exactly the entries' |
| `EndpointControl.Dispatch` | services/data-node/endpoint_control.zig:65-101 | `released:true` is answered exactly if the endpoint is absent from the stored list after the call; an endpoint answer to `ensure` implies that very spec is stored; every view answered tells the state of its entry and the locator of its running instance; errors carry the reason of the refusal or the store's failure, and change nothing durable; `inspect` and `list` show the stored list; a crash at any step leaves the list before or the one written |
| `EndpointControl.AnswerEnsure` | services/data-node/endpoint_control.zig:72-83 | An endpoint that is stored but did not start is answered as failed; an error answer carries the exact reason and means nothing durable changed |
| `EndpointControl.AnswerRelease` | services/data-node/endpoint_control.zig:93-99 | Released exactly if absent from the stored list, `stopping` exactly if its entry is still there |
| `EndpointControl.Run` | services/data-node/endpoint_registry.zig:114-320 | Over any requests, reconciliations and shutdowns, with the process ending between them or inside them at any call of the store or the backend, every list the file has held can be started from, the file changes at most once per event, and a restart is refused only in the one full-file case |
| `EndpointControl.Handle` | services/data-node/endpoint_registry.zig:150-266 | After any event, ended or cut short by a crash at any step, the stored list is the one before or the one the operation wrote, and the answer to a request is true of the registry |
| `EndpointControl.RestartFrom` | services/data-node/endpoint_registry.zig:114-140 | A store holding any list of the history restarts to exactly that list, pending, with the full file as the only refusal |
| `EndpointControl.Restart` | services/data-node/endpoint_registry.zig:114-140 | A restart is refused exactly if 1024 endpoints are stored and the limit itself is not readable; otherwise it has the stored list |
| `RuntimeLifecycle.LeasesOnlyWhileUp` | services/data-node/spdk/runtime.c:373-534 | Leases are held only in `READY` or `FAILED`, and never on a freed runtime |
| `RuntimeLifecycle.SlotTakenOnce` | services/data-node/spdk/runtime.c:269-452 | The process slot is taken exactly while one runtime holds it; each takes it once and releases it once, when its start fails or its stop ends |
| `RuntimeLifecycle.ThreadJoinedOnce` | services/data-node/spdk/runtime.c:340-452 | The thread is joined at most once, after it exited, and once for every runtime stopped; a freed runtime has no thread left |
| `RuntimeLifecycle.OneShutdown` | services/data-node/spdk/runtime.c:155-183 | At most one stop call is under way, and the owner thread is told to stop the owners at most once |
| `RuntimeLifecycle.StopDecides` | services/data-node/spdk/runtime.c:373-425 | A stop is taken on exactly if the runtime is ready or failed without a lease, and sends its message exactly if the application still runs; otherwise it only waits for the thread |
| `RuntimeLifecycle.ReadyOwnerIffRunning` | services/data-node/spdk/runtime.c:155-223 | In every state of every run a ready runtime has its owner thread exactly while its application runs |
| `RuntimeLifecycle.OwnerlessExactlyIfPutBack` | services/data-node/spdk/runtime.c:407-436 | A ready runtime has no owner if and only if its last change of state was a stop call whose send failed when the application had ended |
| `RuntimeLifecycle.LeaseWithoutOwner` | services/data-node/spdk/runtime.c:422-495 | A run that ends with a lease taken on a ready runtime that has no owner |
| `RuntimeLifecycle.AssertionsHold` | services/data-node/spdk/runtime.c:143-223 | The states the code asserts are the states it finds, and whoever releases the slot finds it taken |
| `RuntimeLifecycle.TalliesAre` | services/data-node/spdk/runtime.c:373-534 | The leases of a runtime are those taken less those given back, and its owner thread was told to stop as often as a failed start or a stop told it |
| `RuntimeLifecycle.FreedByDestroy` | services/data-node/spdk/runtime.c:454-470 | A runtime that was started is freed exactly if it has been destroyed after its stop |
| `RuntimeLifecycle.StuckOnlyWhenDone` | services/data-node/spdk/runtime.c:155-452 | A state in which nothing can move but by a new call has every start and every stop returned and no thread running |
| `RuntimeLifecycle.FinishesWithin` | services/data-node/spdk/runtime.c:155-452 | Without new calls every step lowers a measure, in any schedule |
| `RuntimeLifecycle.NextInv` | services/data-node/spdk/runtime.c:155-534 | Every step of starters, runtime threads, lease takers, stoppers and destroyers keeps the invariant |
| `RuntimeLifecycle.RunInv` | services/data-node/spdk/runtime.c:155-534 | The invariant holds in every state of every run |
| `DispatcherOwners.EveryOwnerEqually` | services/data-node/spdk/runtime.c:513-517 | Any `k` times `n` turns in a row over `n` owners have each owner's turn exactly `k` times, wherever they begin |
| `DispatcherOwners.HandedTurns` | services/data-node/spdk/runtime.c:513-517 | An owner is handed out exactly as often as it has its turn |
| `DispatcherOwners.HandedEqually` | services/data-node/spdk/runtime.c:513-517 | Any `k` times `n` acquires in a row over `n` distinct owners hand out each owner exactly `k` times |
| `DispatcherOwners.Owners.AcquireDispatcher` | services/data-node/spdk/runtime.c:497-521 | When ready the owner whose turn it is, with a lease; otherwise nothing |
| `DispatcherOwners.Owners.AcquireMany` | services/data-node/spdk/runtime.c:497-521 | Acquires in a row hand out the owners in turn, and in whole rounds each distinct owner once per round |
| `DispatcherOwners.AppStopsAfterOwners` | services/data-node/spdk/runtime.c:50-97 | While no send fails the application is stopped at most once, only after every other owner exited, and it is once all have answered |
| `DispatcherOwners.FailedSendStops` | services/data-node/spdk/runtime.c:70-96 | A failed send stops the application all the same |
| `DispatcherOwners.StuckOnlyWhenDone` | services/data-node/spdk/runtime.c:50-97 | A shutdown that cannot go on has stopped the application; if no send failed, once, with every other owner exited |
| `DispatcherOwners.FinishesWithin` | services/data-node/spdk/runtime.c:50-97 | Every step of a shutdown lowers a measure, in any schedule |
| `DispatcherOwners.BegunRun` | services/data-node/spdk/runtime.c:80-97 | A shutdown can begin with any number of owners |
| `DispatcherOwners.CounterNeverUnderflows` | services/data-node/spdk/runtime.c:55-57 | Every answer taken finds the counter above zero |
| `DispatcherOwners.ExitsOnce` | services/data-node/spdk/runtime.c:63-74 | No owner exits twice |
| `DispatcherOwners.RunInv` | services/data-node/spdk/runtime.c:50-97 | The invariant of the shutdown holds in every state of every run |
| `NvmfExport.Export.RunCreate` | services/data-node/spdk/nvmf_tcp_export.c:205-309 | Unless the process aborts the command completes once, with the status of the first call that failed; on failure nothing of the export is left in the target, on success all of it is; it aborts exactly if a roll-back fails |
| `NvmfExport.CreateEndMeans` | services/data-node/spdk/nvmf_tcp_export.c:205-309 | An export is created exactly if the target is there, the name is free and SPDK grants all seven calls; the process aborts only in a roll-back that fails |
| `NvmfExport.Export.Build` | services/data-node/spdk/nvmf_tcp_export.c:205-276 | The calls are made in order up to the first that fails, which decides the status; what has been added by then is exactly what came before it |
| `NvmfExport.Export.RollBack` | services/data-node/spdk/nvmf_tcp_export.c:143-203 | Whatever had been added is taken out, and the command completes once with the failure |
| `NvmfExport.Export.RunClose` | services/data-node/spdk/nvmf_tcp_export.c:311-386 | The command completes once, with the first answer that is no success, or zero exactly if nothing is left; otherwise the handle still knows what is |
| `NvmfExport.CloseStatusMeans` | services/data-node/spdk/nvmf_tcp_export.c:311-386 | A close succeeds exactly if SPDK grants every call that what is left makes necessary |
| `NvmfExport.Export.Close` | services/data-node/spdk/nvmf_tcp_export.c:522-541 | Only success frees the handle and gives the lease back |
| `NvmfExport.Create` | services/data-node/spdk/nvmf_tcp_export.c:441-500 | The status is that of the first obstacle; a failure leaves no lease and nothing in the target |
| `CatalogExport.CreateCatalog` | services/data-node/spdk/catalog_nvmf_export.zig:32-82 | The outcome is that of the first obstacle; a failure leaves no worker, no block device, no export and no lease; success leaves one lease each for the block device and the export |
| `CatalogExport.World.CreateBdev` | services/data-node/spdk/bdev_provider.c:557-594 | The block device exists, with its lease, exactly on success; a failure gives the lease back |
| `CatalogExport.World.DeleteBdev` | services/data-node/spdk/bdev_provider.c:632-703 | On success the block device is gone and its lease and the deletion's are given back; a failure changes nothing |
| `CatalogExport.Catalog.Close` | services/data-node/spdk/catalog_nvmf_export.zig:84-90 | Layers are closed from the top, each once, up to the first that fails, whose status is the outcome; a retry goes on where the last try stopped |
| `CatalogExport.Start` | services/data-node/spdk/catalog_endpoint_backend.zig:163-198 | The outcome is that of the first obstacle; a failure leaves no layer open; success leaves all of them open |
| `CatalogExport.StartEndMeans` | services/data-node/spdk/catalog_endpoint_backend.zig:163-198 | An endpoint starts exactly if its address, memory, pool, block size and runtime are right and every layer below grants every call |
| `CatalogExport.Instance.Stop` | services/data-node/spdk/catalog_endpoint_backend.zig:200-209 | Success means export, block device, worker and pool were each closed once, in that order, and every lease given back; failure that a prefix of them was |
| `CatalogExport.Instance.StopWithRetries` | services/data-node/spdk/catalog_endpoint_backend.zig:200-209 | The same after any sequence of failed tries and a success; a try that meets no obstacle succeeds |

## Left out

Modelling assumptions:

- Memory is sequentially consistent; orderings of the atomics and weak-memory effects are not modelled.
- A finite script stands for the kernel, SPDK, the store, the backend and the callbacks; executions that never return are not described.
- Concurrent protocols are modelled on values as state machines, so aliasing inside them is not captured: the worker's linked queue is a sequence, the task pool a sequence of task numbers.
- Where an operation calls into code that would run later on the same waiting thread, the later answer is taken at that point.
- A kernel request writes only inside its own range; buffers of one batch are separate.
- Memory allocation failures appear where the code handles them; allocation sizes are taken from the source's structures.

Parts of the program:

- The pool, member, journal, quorum and catalog protocols of the documents: the engine that implements them is not part of this model.
- `AsyncReadExecutor.submit`, which chooses a lane, and what a lane does with a task it dequeued.
- `Engine.sync`, `readAt`, `readAllAt`, `writeAllAt`, the set-up of the ring and the statistics of the engine; `IORING_SETUP_SQPOLL` shows only in how requests are taken.
- The argument checks of the worker's `submit`, and its lease on the volume. What a request meets may depend on the bytes of the volume it finds.
- Calls on the storage context that have not yet taken a reference when it is torn down are the caller's duty, as in the program.
- Registration of the provider's block device with SPDK, its option checks, and its single-vector shortcut.
- Opening endpoints and dispatchers, geometry refresh, and the dispatcher's single reads, writes and flushes beyond the rendezvous they share.
- `nvme_controller.c`, whose commands use the same rendezvous.
- A store replace that fails after the rename has taken effect, and a provider unregister that completes with an error.
- The frontend mismatch branch of `startEntry`: there is one frontend, so it cannot be taken.
- JSON, sockets, signals, command lines, option strings and the hexadecimal names of exports.
- Option validation of exports and runtimes is one flag.

Contracts that say less than they could:

- ProviderBatch.CompleteBatch: runs a message's list when it is sent, because the order between threads does not matter to what is delivered; the copy into the caller's vectors on completion is in `IovCopy`.
- IoUring.Engine.ReadManyAt: does not say what the buffers hold after an error, because the program promises nothing then.
- IoUring.Engine.WriteAllManyAt: says nothing about the bytes of overlapping writes beyond staying inside them, because their order in the kernel is not fixed.
- ReadBatch.SubmitReadMany: says nothing about destinations that overlap one another, nor about a failed destination read directly, because the device may have written anything there.
- EndpointRegistry.Registry.StartEntry: takes UTF-8 validity of locator strings as a given predicate.
