# hipFile, AMD side: a verified model

hipFile moves bytes between files and GPU memory. This project models the part of it that does so on AMD hardware, and
proves what that part is for: the transfer engines copy exactly the bytes they report, the asynchronous pipeline looks
like one indivisible transfer, the completion thread loses no wake-up and releases every operation once, and the driver's
registries keep files, buffers and descriptors alive exactly as long as somebody uses them.

`dafny verify dfyconfig.toml` checks the whole project (Dafny 4.11).

## How it is laid out

| file | what it models |
|---|---|
| `Bits.dfy` | 64-bit masks, the power-of-two test, rounding up, the transfer limit `getMaxRwCount()` |
| `Memory.dfy`, `Posix.dfy`, `Device.dfy` | bytes and stores; contracts of `pread`, `pwrite`, `fdatasync`, `mmap`; HIP allocations, buffers and `paramsValid` |
| `Fallback.dfy` | the synchronous bounce-buffer loop |
| `Dispatch.dfy` | backend scores and selection, the fast path, its retry through the fallback, `hipFileIo` |
| `Aiscp.dfy` | the `aiscp` copy program as a client of those calls |
| `Kernel.dfy` | the copy kernel, threads interleaving byte by byte |
| `AsyncOp.dfy`, `AsyncOpFallback.dfy` | one asynchronous operation: its stages as functions and as a mutable object |
| `Runs.dfy`, `StreamQueue.dfy`, `StreamOrder.dfy`, `StreamProgress.dfy`, `Interleave.dfy` | concurrent submission to one stream, the order of its queue, its progress, several streams at once |
| `Monitor.dfy`, `MonitorProgress.dfy`, `AsyncMonitor.dfy` | the completion monitor: every interleaving, its progress at shutdown, and the object itself |
| `RefCounts.dfy`, `FileRegistry.dfy`, `BufferRegistry.dfy`, `Descriptor.dfy`, `FdLedger.dfy` | use counts, the two file indexes, the buffer map, descriptor objects and who owns each descriptor |
| `Driver.dfy`, `DriverSafety.dfy`, `DriverState.dfy` | the driver state as a machine split at its locks, what holds over whole runs, and the objects that implement its steps |
| `Batch.dfy` | batch operations and contexts |
| `Api.dfy` | a whole read or write call: driver lookup, buffer from HIP's answer, dispatch, references given back |
| `Lifetime.dfy` | streams, completion monitor, driver and batch contexts as one machine: who holds what, and for how long |

Code that updates fields or buffers is modelled by classes, arrays and loops whose contracts tie the new state to a
function of the old one; protocols are state machines whose runs are sequences of events, so that "in every reachable
state" quantifies over every interleaving. Loops over system calls terminate because interrupts (and writes that move
nothing) are finitely many; a short transfer may have any length. Offsets and addresses have the types of the source
(64-bit, signed or unsigned), and device memory and bounce buffers are arrays, so that every sum and every access in the
loops is proved in range, from the buffer constructors and the parameter check on. The environment records its failures
(system calls other than interrupted ones, device copies, direct transfers), so that contracts say not only what an error
leaves behind but that there is none unless something failed, and which.

## What the code does not do

Each of these is a statement about the code as it is, with a concrete input and the exact condition where there is one.

* With all three parameters fixed nothing clamps an asynchronous request to its bounce buffer, since only binding does.
  An access leaves the buffers exactly when such a request exceeds the transfer limit and is a write, or a read for which
  more bytes than the limit arrive (`AsyncOp.OverrunsExactlyOutsideDomain`, `AsyncOp.OverrunExample`).
* The stream lock does not keep an operation's stages contiguous once a call fails: the handler enqueues the cleanup
  after the lock is gone, possibly between another operation's stages (`StreamOrder.StrayCleanupSplitsStages`). A run
  keeps them contiguous exactly when each launch and each retried cleanup finds no other operation's entry behind its own
  (`StreamOrder.ReachableContiguity`). The effect is serial all the same, because cleanups commute with other operations'
  stages (`StreamQueue.ConcurrentSubmissionsSerialise`).
* After a read whose kernel could not be launched the reported count can claim bytes that never reached the device:
  `AsyncOp.FailedLaunch` says exactly when, `AsyncOp.FailedLaunchExample` gives a one-byte read.
* `hipFileDriverClose` checks and decrements under separate locks: overlapping closes can both succeed after one open, or
  take a later open's reference (`DriverSafety.OverlappingClosesStealAnOpen`, `DriverSafety.PendingClosesFinish`,
  `DriverSafety.FittingClosesAreExact`). The count still never becomes negative.
* `align_up` wraps near the top of the address range (`Bits.AlignUpIsLeastMultiple`, `Bits.AlignUpWraps`); its
  documentation says "the next multiple", and a value that already is a multiple is returned unchanged.
* `aiscp` rounds what is left of a chunk up to whole blocks. After a write that stopped inside a block the rounded request
  can end past the buffer, and the copy then fails although nothing else did: always so when it does after clamping, and
  never while every write ends on a block boundary (`Aiscp.WritePiece`, `Aiscp.AlignedPieceFits`,
  `Aiscp.UnalignedPieceOverruns`).
* `aiscp` leaves an existing destination as it is when the source is empty, and reports success when the final truncation
  fails (`Aiscp.Copy`).
* A buffer registration that is refused still opens an uninitialised driver (`DriverSafety.FirstRegistrationOpens`).

## Model

| member | source | states |
|---|---|---|
| `Bits.PowerOfTwoTest` | examples/aiscp/aiscp.cpp:94-98 | the bit test holds exactly for the powers of two |
| `Bits.MaskTestIsDivisibility` | src/amd_detail/backend/fastpath.cpp:154-160 | masking with a power-of-two alignment minus one is the remainder by that alignment |
| `Bits.AlignUpIsLeastMultiple` | examples/aiscp/aiscp.cpp:85-89 | rounding up yields the least multiple at or above its argument if and only if the addition does not wrap |
| `Bits.AlignUpWraps` | examples/aiscp/aiscp.cpp:85-89 | a concrete argument that is rounded "up" to zero |
| `Bits.LeastIsLeast` | examples/aiscp/aiscp.cpp:81-89 | no other multiple at or above the argument is smaller than the rounded one |
| `Bits.MaxRwCount` | src/amd_detail/backend.h:36-50 | the transfer limit is the largest multiple of the page size not above INT_MAX, for every power-of-two page size |
| `Bits.MaxRwCountOfDefaultPage` | src/amd_detail/backend.h:36-50 | for 4096-byte pages the limit is 0x7ffff000 |
| `Bits.ClampKeepsAlignment` | src/amd_detail/backend/fastpath.cpp:183-187 | clamping a size to the limit keeps every alignment that divides the page size |
| `Device.AcceptedRequestsStayInside` | src/amd_detail/buffer.cpp:23-91 | registration accepts exactly the regions inside the HIP allocation, a temporary buffer reaches to its end, and whatever the parameter check then accepts lies inside it without any wrapped sum |
| `Device.BufferOutcomes` | src/amd_detail/buffer.cpp:56-91 | for every pointer and every answer of HIP, exactly which buffer or which refusal each constructor yields |
| `Device.ParamsValidExactly` | src/amd_detail/io.cpp:11-28 | the check holds exactly when both offsets are non-negative, the buffer offset lies inside the buffer and the request ends inside it |
| `Device.ParamsValidShrinks` | src/amd_detail/io.cpp:11-28 | a smaller size never makes valid parameters invalid |
| `Fallback.ReadLoop` | src/amd_detail/backend/fallback.cpp:90-131 | for every chunk size, every split into short reads and finitely many EINTRs the loop ends, having copied exactly min(size, bytes left in the file), and raises an error if and only if a call failed for another reason, then that one; all other device bytes are unchanged, also after an error |
| `Fallback.WriteLoop` | src/amd_detail/backend/fallback.cpp:90-131 | also when a chunk is redone after an EINTR from fdatasync, each target byte is old (zero in a gap) or the matching device byte, all others are preserved, the returned prefix is the device data and has been flushed; it is short only after a write that moved nothing, and an error is raised if and only if a call failed for good, then that one |
| `Fallback.ReadChunk` | src/amd_detail/backend/fallback.cpp:92-107 | one pass of a read extends the copy by exactly what the read returned, or leaves it as it was |
| `Fallback.WriteChunk` | src/amd_detail/backend/fallback.cpp:108-115 | one pass of a write extends the written prefix by what it reports; an interrupted flush hides bytes but spoils none |
| `Fallback.IoImpl` | src/amd_detail/backend/fallback.cpp:71-145 | the whole call: exactly which error is raised when, nothing moves before the checks pass, interruptions raise nothing, the result and the data do not depend on the chunk size, and one counter grows by the returned count |
| `Dispatch.MaskAlignedIsDivisibility` | src/amd_detail/backend/fastpath.cpp:154-160 | the fast path's alignment test on 64-bit patterns is divisibility |
| `Dispatch.FastPathRequestsAreAligned` | src/amd_detail/backend/fastpath.cpp:131-187 | the fast path takes a request if and only if it is enabled, file and buffer qualify, direct I/O has alignments (not zero) and offset, size and address are multiples of them; the clamped size is one too when the alignment divides the page size |
| `Dispatch.SelectBackend` | src/amd_detail/hipfile.cpp:173-191 | the chosen backend is the first of maximal score, and none is chosen exactly when every score is negative |
| `Dispatch.FastTransfer` | src/amd_detail/backend/fastpath.cpp:189-210 | what an admitted fast transfer may touch, in success and in failure, and how its counters move |
| `Dispatch.RetryComposes` | src/amd_detail/backend.cpp:42-53 | a fallback transfer after a failed attempt is a right transfer as seen from before the attempt, whatever the attempt left in the region |
| `Dispatch.ThroughFallback` | src/amd_detail/backend.cpp:44-48 | an enabled fallback cannot reject parameters the fast path accepted, and its prefix is right |
| `Dispatch.RetryIo` | src/amd_detail/backend.cpp:29-55 | a request is retried if and only if the attempt failed with ENODEV or EREMOTEIO and the fallback is usable; the caller sees one transfer, and exactly one counter grows, by the result |
| `Dispatch.HipFileIo` | src/amd_detail/hipfile.cpp:173-219 | the fast path serves exactly when its score is not negative, the fallback when only its own is not, and otherwise nothing moves; whichever serves, the caller sees the same kind of transfer; only its counters move, by the result; a negative result has a recorded cause; zero is returned only at end of file, for an empty request or after a stalled write |
| `Dispatch.CleanCallsSucceed` | src/amd_detail/hipfile.cpp:168-194 | unless something fails, a valid request that a backend takes succeeds, through the fallback with all the bytes there are to read; a direct call is made exactly when the fast path was chosen |
| `Dispatch.ResultCodes` | src/amd_detail/hipfile.cpp:195-219 | what each negative result says, by number, about parameters, system calls, HIP and backends |
| `Api.CallBufferIsOwned` | src/amd_detail/buffer.cpp:56-91 | over every run in which buffers are made from HIP's answers, the buffer a call works on, registered or temporary, lies inside the allocation of its pointer |
| `Api.RunKeepsBacked` | src/amd_detail/buffer.cpp:123-172 | over such runs every buffer the driver knows that starts inside an allocation ends inside it |
| `Api.LookUp` | src/amd_detail/state.cpp:192-204 | a call's lookup succeeds exactly when the driver is open, the file registered and a buffer there or makeable, and tells which of these failed |
| `Api.GiveBack` | src/amd_detail/hipfile.cpp:172-194 | the references a call took are given back and a temporary buffer is destroyed: the driver is as before the call |
| `Api.IoCall` | src/amd_detail/hipfile.cpp:168-219 | a whole call, from handle and pointer to bytes: a failed lookup moves nothing and returns its code, otherwise the transfer is the promised one on a buffer inside its allocation, and the driver ends as it was |
| `Aiscp.WriteExtendsPrefix` | examples/aiscp/aiscp.cpp:166-176 | a block-rounded write extends the copied prefix although it leaves stale bytes behind it |
| `Aiscp.AlignedPieceFits` | examples/aiscp/aiscp.cpp:149-169 | while every write ends on a block boundary the rounded rest of a chunk stays inside the buffer |
| `Aiscp.UnalignedPieceOverruns` | examples/aiscp/aiscp.cpp:166-169 | after 100 of 4096 bytes the next request would end past a 4096-byte buffer |
| `Aiscp.ReadNext` | examples/aiscp/aiscp.cpp:158-163 | the next chunk is the source's, zero means end of file, and with the fallback to rely on an error means a recorded failure |
| `Aiscp.WritePiece` | examples/aiscp/aiscp.cpp:166-176 | one write call moves the prefix on by what it reports; it fails only when something failed or the rounded request leaves the buffer, and always when the clamped one does |
| `Aiscp.WriteOut` | examples/aiscp/aiscp.cpp:165-176 | the inner loop writes the whole chunk, or something failed, or a write stopped inside a block; it ends if writes stall finitely often |
| `Aiscp.CopyChunks` | examples/aiscp/aiscp.cpp:156-178 | the copy loop ends with the whole source in place, or fails for such a reason |
| `Aiscp.Copy` | examples/aiscp/aiscp.cpp:121-205 | for every pattern of short reads and writes, a successful copy of a non-empty source has tried to truncate, and equals the source if that worked; otherwise the source is its prefix; an empty source leaves the destination alone; with the fallback to rely on a copy fails only for a recorded failure, a refused open, allocation, mapping or close, or a write that stopped inside a block |
| `Kernel.StoresOwnBytes` | src/amd_detail/backend/memcpy-kernel.hip:64-101 | in every reachable state a thread only stores bytes it owns, so no byte is stored by two threads |
| `Kernel.FrontierMoves` | src/amd_detail/backend/memcpy-kernel.hip:66-73 | a step passes no byte its thread owns without storing it: the strided words and the tail leave nothing out |
| `Kernel.RunKeepsInv` | src/amd_detail/backend/memcpy-kernel.hip:15-102 | over every schedule, destination bytes are old or copied, and every owned byte below a thread's frontier is copied |
| `Kernel.KernelIsMemcpy` | src/amd_detail/backend/memcpy-kernel.hip:15-102 | every interleaving in which all threads finish is one memcpy of exactly the requested bytes; on an error exit nothing is copied and the error is recorded |
| `Kernel.RunKeepsErrorInv` | src/amd_detail/backend/memcpy-kernel.hip:22-59 | when the result is already negative or a parameter is unbound no thread ever copies |
| `Kernel.ThreadsFinish` | src/amd_detail/backend/memcpy-kernel.hip:15-102 | every step of an unfinished thread, in a copying or a failing launch, decreases its remaining work |
| `Kernel.ScheduleIsBounded` | src/amd_detail/backend/memcpy-kernel.hip:15-102 | whatever the schedule, the threads of a launch take boundedly many steps together |
| `Kernel.LaunchFinishes` | src/amd_detail/backend/memcpy-kernel.hip:15-102 | every launch, failing ones included, has a schedule in which all threads finish, and its effect is the memcpy or the recorded error |
| `Kernel.ThreadBody` | src/amd_detail/backend/memcpy-kernel.hip:62-101 | one thread run alone stores exactly the bytes it owns |
| `AsyncOp.NewOpIsSubmitted` | src/amd_detail/backend/asyncop-fallback.cpp:41-56 | a new operation has a bounce buffer of the clamped size and valid fixed parameters, and is within the clamped domain exactly when a parameter is late or the size is within the limit |
| `AsyncOp.NewOpParams` | src/amd_detail/async.cpp:94-107 | each parameter is late exactly when its own flag is not set, and otherwise has its own value at submission |
| `AsyncOp.KernelStepIsKernel` | src/amd_detail/backend/memcpy-kernel.hip:15-102 | the kernel stage of the pipeline is what every finished interleaving of its threads does |
| `AsyncOp.DataStagesRun` | src/amd_detail/backend/fallback.cpp:221-303 | after any number of data stages there is no fault and the references are still held; the caller's data is untouched until the last stage, which completes the transfer |
| `AsyncOp.AsyncRefinement` | src/amd_detail/backend/fallback.cpp:147-303 | the pipeline equals one atomic transfer with the values at bind time, or reports -hipFileInvalidValue and changes neither file nor device |
| `AsyncOp.SubmittedRefinement` | src/amd_detail/backend/fallback.cpp:147-303 | from submission to result: one atomic transfer whose size and offsets are those at submission where the stream declares them fixed and those at bind time where it does not, or -hipFileInvalidValue and no change |
| `AsyncOp.FailedLaunch` | src/amd_detail/backend/fallback.cpp:207-217 | when a launch fails the data is moved entirely or not at all; the count is wrong exactly after a read whose copy ran and found data and whose kernel was not launched |
| `AsyncOp.FailedLaunchExample` | src/amd_detail/backend/fallback.cpp:207-217 | a one-byte read whose kernel launch fails reports one byte and leaves the device as it was |
| `AsyncOp.OverrunsExactlyOutsideDomain` | src/amd_detail/backend/fallback.cpp:258-303 | an access leaves its buffers if and only if all parameters are fixed, the size exceeds the limit, and it is a write or a read for which more bytes than the limit arrive |
| `AsyncOp.UnclampedReadFits` | src/amd_detail/backend/fallback.cpp:271-301 | a read above the limit whose bytes fit the bounce buffer runs through without leaving it |
| `AsyncOp.OverrunExample` | src/amd_detail/async.cpp:94-107 | a concrete accepted request that does |
| `AsyncOpFallback.Operation.constructor` | src/amd_detail/backend/asyncop-fallback.cpp:41-56 | the object starts as the operation the pipeline theorems are about, each parameter fixed or late by its own flag |
| `AsyncOpFallback.BeginAsyncIo` | src/amd_detail/backend/fallback.cpp:147-169 | a call is refused exactly when its clamped parameters are invalid or the buffer is on another device, does nothing for a size of zero, and otherwise makes the operation |
| `AsyncOpFallback.Operation.Bind` | src/amd_detail/backend/fallback.cpp:221-241 | binding the object in place is the bind stage |
| `AsyncOpFallback.Operation.CpuCopy` | src/amd_detail/backend/fallback.cpp:258-303 | the retrying copy loop is the copy stage for some choice of the environment; it fails if and only if a system call failed for another reason than EINTR, and falls short of a write only after a stall |
| `AsyncOpFallback.Operation.ReadAll` | src/amd_detail/backend/fallback.cpp:271-301 | all bytes up to the end of the file arrive in the bounce buffer, at every split and interruption |
| `AsyncOpFallback.Operation.WriteAll` | src/amd_detail/backend/fallback.cpp:271-301 | the file receives exactly the counted prefix of the bounce buffer |
| `StreamQueue.ExecBlock` | src/amd_detail/backend/fallback.cpp:179-205 | consecutive stages of one operation run as they would alone |
| `StreamQueue.LogIsSerial` | src/amd_detail/backend/fallback.cpp:174-217 | running the stages in submission order equals folding atomic transfers; no stage finds a cleared reference |
| `StreamQueue.CleanupCommutes` | src/amd_detail/backend/fallback.cpp:207-211 | one operation's cleanup commutes with every stage of another |
| `StreamQueue.EventKeepsInv` | src/amd_detail/backend/fallback.cpp:174-217 | every step of every call keeps the lock's meaning: only its holder launches, and each call leaves its mark once |
| `StreamQueue.ConcurrentSubmissionsSerialise` | src/amd_detail/backend/fallback.cpp:174-217 | however concurrent calls interleave, fail and recover, at every moment, also while a call holds the lock, running the queue is serial: files, memory and results are those of atomic transfers in submission order |
| `StreamOrder.ReachableQueueOrder` | src/amd_detail/backend/fallback.cpp:168-218 | in every run each operation has at most one cleanup, nothing of it follows its cleanup, and only cleanups of failed calls come between its stages |
| `StreamOrder.QueueOrder` | src/amd_detail/backend/fallback.cpp:168-218 | every step of every run keeps that order |
| `StreamOrder.ContiguousIffNoSplit` | src/amd_detail/backend/fallback.cpp:177-211 | from any state, a run ends contiguous if and only if it started so and each of its launches and retried cleanups adjoined its own operation's entries |
| `StreamOrder.ReachableContiguity` | src/amd_detail/backend/fallback.cpp:177-211 | the same for every run from the start |
| `StreamOrder.StrayCleanupSplitsStages` | src/amd_detail/backend/fallback.cpp:207-211 | for any two operations a run in which the cleanup of one lands between the stages of the other |
| `StreamProgress.CallsAreBounded` | src/amd_detail/backend/fallback.cpp:174-217 | under every schedule a call takes boundedly many steps |
| `StreamProgress.StuckOnlyWhenSettled` | src/amd_detail/backend/fallback.cpp:174-217 | some call can take a step if and only if some call has not settled; once all have, the lock is free |
| `Interleave.EntriesCommute` | src/amd_detail/backend/fallback.cpp:221-303 | stages of operations with different files and disjoint buffers commute |
| `Interleave.EveryInterleavingAgrees` | src/amd_detail/backend/fallback.cpp:174-206 | any number of streams whose operations share no file and overlap in no device region leave the same world under every interleaving of their queues |
| `Monitor.StepKeepsInv` | src/amd_detail/async.cpp:34-92 | every step of clients, host functions, worker and destructor keeps the monitor's invariants |
| `Monitor.PushFindsOp` | src/amd_detail/async.cpp:60-62 | a running cleanup finds its operation submitted and not yet completed: the throw is unreachable |
| `Monitor.FinishedWorkerStaysAwake` | src/amd_detail/async.cpp:34-41 | once shutdown has been requested the worker never goes to sleep again |
| `Monitor.WorkerDecides` | src/amd_detail/async.cpp:71-92 | the worker sleeps, leaves or takes an operation exactly as the collections and the flag say, and goes back to sleep after a spurious wake-up |
| `Monitor.LastReferenceDestroys` | src/amd_detail/async.cpp:77-83 | an operation dies with its last reference, the caller's or the monitor's, whichever goes last |
| `Monitor.WorkerLeavesDrained` | src/amd_detail/async.cpp:71-92 | the worker leaves only when every operation whose completion was pushed has been released, and what it had drained by then stays fixed |
| `Monitor.ReachableMonitorIsSafe` | src/amd_detail/async.cpp:34-92 | in every reachable state no wake-up is lost, completed operations are distinct and submitted, each is released and destroyed at most once and only after its cleanup, and the worker releases without the mutex |
| `Monitor.DestructorLogsExactlyLeftovers` | src/amd_detail/async.cpp:34-46 | the destructor logs if and only if the completion of some added operation had not been pushed when the worker left; the operations that had are exactly the released ones |
| `MonitorProgress.StuckOnlyWhenDone` | src/amd_detail/async.cpp:71-92 | the library's threads are all blocked if and only if no host function runs and the worker sleeps with nothing to do or shutdown is complete: releasing outside the lock rules out the deadlock with hipHostFree |
| `MonitorProgress.ShutdownIsBounded` | src/amd_detail/async.cpp:34-92 | after shutdown was requested the steps of the library's threads are bounded by a measure that only starting host functions can raise |
| `MonitorProgress.ShutdownDrains` | src/amd_detail/async.cpp:34-92 | a run after shutdown that cannot go on has drained: the worker has left, the destructor has joined it, everything completed before it left has been released, and what is still completed was completed after it left |
| `AsyncMonitor.TurnIsWorkerStep` | src/amd_detail/async.cpp:71-92 | one turn of the worker's loop is exactly the locked step of the interleaving model |
| `AsyncMonitor.AsyncMonitor.AddOp` | src/amd_detail/async.cpp:48-53 | adding is the corresponding step, and the operation holds its references |
| `AsyncMonitor.AsyncMonitor.CompleteOp` | src/amd_detail/async.cpp:55-69 | an unknown operation is refused without change; otherwise its references are dropped as it becomes completed |
| `AsyncMonitor.AsyncMonitor.Turn` | src/amd_detail/async.cpp:71-92 | the loop body takes the latest completed operation out of both collections, waits, or leaves |
| `AsyncMonitor.AsyncMonitor.Drain` | src/amd_detail/async.cpp:71-92 | left alone after shutdown the worker drops every completed operation, the latest first, and leaves the others submitted |
| `RefCounts.UseCountTest` | src/amd_detail/file.cpp:175-177 | comparing the use count with the registry's share is testing for the absence of holders |
| `FileRegistry.RegisterKeepsOk` | src/amd_detail/file.cpp:153-165 | registration keeps both indexes in agreement and the use counts exact |
| `FileRegistry.DeregisterKeepsOk` | src/amd_detail/file.cpp:167-182 | deregistration does |
| `FileRegistry.ClearKeepsOk` | src/amd_detail/file.cpp:184-189 | clearing does, with holders still around |
| `FileRegistry.DropUndoesGet` | src/amd_detail/state.cpp:203 | dropping the reference a lookup took restores the registry exactly |
| `FileRegistry.DeregisterIffUnheld` | src/amd_detail/file.cpp:167-182 | deregistration succeeds if and only if the handle is registered and unheld; the use count is two plus the holders |
| `FileRegistry.RegisterAdds` | src/amd_detail/file.cpp:153-165 | registration succeeds exactly when the descriptor is free, then enters the file in both indexes with a use count of two, and changes nothing else |
| `FileRegistry.DeregisterRemoves` | src/amd_detail/file.cpp:167-182 | on success the handle and the descriptor are gone from the indexes, every other entry is as before, and the file has no use left; a refusal changes nothing |
| `FileRegistry.DeregisterUndoesRegister` | src/amd_detail/file.cpp:153-182 | deregistering what was just registered restores indexes, use counts and holders |
| `FileRegistry.DropGivesUp` | src/amd_detail/async.cpp:63-65 | dropping a reference removes one holder and one use, and nothing else |
| `FileRegistry.ClearReleases` | src/amd_detail/file.cpp:184-189 | clearing takes exactly the registry's references: what is left of every use count is its holders |
| `FileRegistry.IndexesAgree` | src/amd_detail/file.cpp:142-189 | both indexes hold the same files, each once, and both are injective |
| `BufferRegistry.RegisterBufferKeepsOk` | src/amd_detail/buffer.cpp:123-132 | registering a buffer keeps it under its own address and the use counts exact |
| `BufferRegistry.GetBufferKeepsOk` | src/amd_detail/buffer.cpp:160-172 | a lookup, temporary buffers included, keeps the use counts exact |
| `BufferRegistry.DeregisterBufferIffUnheld` | src/amd_detail/buffer.cpp:134-147 | deregistration succeeds if and only if the pointer is registered and unheld; the use count is one plus the holders |
| `BufferRegistry.RegisterBufferAdds` | src/amd_detail/buffer.cpp:123-132 | registration succeeds exactly for a new pointer whose buffer could be made, and enters that buffer with a use count of one |
| `BufferRegistry.DeregisterBufferRemoves` | src/amd_detail/buffer.cpp:134-147 | on success the pointer is gone and its buffer has no use left; a refusal changes nothing |
| `BufferRegistry.DeregisterUndoesRegisterBuffer` | src/amd_detail/buffer.cpp:123-147 | deregistering what was just registered restores the map, use counts and holders |
| `BufferRegistry.GetBufferTakes` | src/amd_detail/buffer.cpp:160-172 | a lookup takes one use of the registered buffer, or makes a temporary one with a single use |
| `BufferRegistry.ClearBuffersReleases` | src/amd_detail/buffer.cpp:174-178 | clearing takes exactly the map's references |
| `Descriptor.Unregistered` | src/amd_detail/file.cpp:25-65 | which failures of statx, fcntl, the mount lookup and the second open make the constructor throw, which descriptor the file owns, and that EINVAL on the direct open gives no unbuffered descriptor and zero alignments |
| `Descriptor.MakeUnregistered` | src/amd_detail/file.cpp:25-65 | building the object member by member yields that file and closes nothing, or throws |
| `Descriptor.FileDescriptor.Move` | src/amd_detail/file-descriptor.cpp:41-45 | moving hands the descriptor over: held before and after is the same |
| `Descriptor.FileDescriptor.Assign` | src/amd_detail/file-descriptor.cpp:47-60 | move assignment closes what the target held, conserves held plus closed descriptors, and does nothing to itself |
| `Descriptor.FileDescriptor.Destroy` | src/amd_detail/file-descriptor.cpp:32-39 | destruction closes exactly a managed descriptor, and a second one closes nothing |
| `Descriptor.FileObject.Move` | src/amd_detail/file.cpp:73-83 | a File takes over the descriptors; the moved-from object closes nothing when destroyed |
| `Descriptor.FileObject.Destroy` | src/amd_detail/file.cpp:73-83 | destroying a file closes exactly the descriptors it holds |
| `FdLedger.ConstructKeepsLedger` | src/amd_detail/file.cpp:25-65 | a newly opened descriptor has exactly one owner |
| `FdLedger.MoveKeepsLedger` | src/amd_detail/file.cpp:159-163 | registration moves ownership without opening or closing |
| `FdLedger.DiscardKeepsLedger` | src/amd_detail/file.cpp:155-157 | the UnregisteredFile of a duplicate registration closes what it owns, once |
| `FdLedger.DestroyKeepsLedger` | src/amd_detail/file-descriptor.cpp:32-39 | a destroyed file closes what it owns, once, and nobody else's descriptors |
| `FdLedger.ClosesOnlyItsOwn` | src/amd_detail/file-descriptor.cpp:32-39 | what a file would close is open, opened by the library, and neither the client's nor another file's |
| `Driver.StepKeepsInv` | src/amd_detail/state.cpp:68-272 | every locked section, holder, destructor and client step keeps count, indexes, use counts and descriptor ownership right |
| `DriverSafety.CountIsSafe` | src/amd_detail/state.cpp:234-254 | in every run the count is never negative, the throw for it is unreachable, and at zero both maps are empty |
| `DriverSafety.CloseUndoesOpen` | src/amd_detail/state.cpp:226-254 | an open followed by a close leaves the count, both registries and every use count as they were |
| `DriverSafety.InitialisedOnce` | src/amd_detail/state.cpp:264-272 | the implicit initialisation takes effect once, touches no registry, and after it no call is refused for want of an initialised driver |
| `DriverSafety.FirstRegistrationOpens` | src/amd_detail/state.cpp:68-132 | registering opens an uninitialised driver: for a file always successfully, for a buffer also when the registration is refused |
| `DriverSafety.LookupFindsCurrent` | src/amd_detail/state.cpp:192-204 | a lookup succeeds exactly when the file is registered and the buffer is or can be made; it yields a live file registered since the count last reached zero |
| `DriverSafety.DeregisterIffNobodyHolds` | src/amd_detail/state.cpp:82-142 | in every reachable state of the driver deregistration succeeds if and only if no reference beyond the registry's own is held; the use count is two, or one, plus those |
| `DriverSafety.DeregisteredIsForgotten` | src/amd_detail/state.cpp:134-158 | after a successful deregistration the handle is not found, its descriptor can be registered again, and the file dies and closes its descriptors |
| `DriverSafety.DeregisteredBufferIsForgotten` | src/amd_detail/state.cpp:82-92 | after a successful deregistration the pointer can be registered again and the buffer dies |
| `DriverSafety.RegisteredIsFound` | src/amd_detail/state.cpp:120-132 | after a successful registration the handle leads to the file, its descriptor cannot be registered again, and it can be deregistered |
| `DriverSafety.RegisteredBufferIsFound` | src/amd_detail/state.cpp:68-80 | the same for a buffer |
| `DriverSafety.DyingFileCloses` | src/amd_detail/file-descriptor.cpp:32-39 | a file without references dies and closes exactly its own descriptors |
| `DriverSafety.NewFileWaits` | src/amd_detail/hipfile.cpp:78-82 | a constructed file waits for registration with the one descriptor the library opened for it |
| `DriverSafety.DiscardedFileCloses` | src/amd_detail/hipfile.cpp:78-92 | a file that is not registered after all closes what it holds |
| `DriverSafety.ReachableIndexesAgree` | src/amd_detail/file.cpp:142-189 | in every reachable state each client descriptor has at most one registered handle and both indexes hold the same files |
| `DriverSafety.DescriptorsBalance` | src/amd_detail/file-descriptor.cpp:24-60 | every descriptor the library opened is closed at most once, and exactly once when no file is left |
| `DriverSafety.ClosesAreOwned` | src/amd_detail/file-descriptor.cpp:32-39 | each close is for a descriptor the library has open at that moment, never one the client has open |
| `DriverSafety.HeldFileStaysOpen` | src/amd_detail/state.cpp:192-204 | over any run a file stays alive and its descriptors stay open until its holder lets go, whatever is deregistered or closed meanwhile |
| `DriverSafety.PendingClosesFinish` | src/amd_detail/hipfile.cpp:261-274 | the closes in flight waste exactly as many decrements as they outnumber the count |
| `DriverSafety.FittingClosesAreExact` | src/amd_detail/hipfile.cpp:261-274 | while concurrent closes stay within the count, it is opens minus successful closes |
| `DriverSafety.OverlappingClosesStealAnOpen` | src/amd_detail/hipfile.cpp:261-274 | two overlapping closes after one open both succeed, and can undo a later open |
| `DriverState.FileMap.Register` | src/amd_detail/file.cpp:153-165 | taking and dropping references one by one amounts to registering with a use count of two |
| `DriverState.FileMap.Deregister` | src/amd_detail/file.cpp:167-182 | the in-place deregistration is the specified one |
| `DriverState.FileMap.Get` | src/amd_detail/file.cpp:142-151 | a lookup makes its caller a holder, or finds nothing and changes nothing |
| `DriverState.FileMap.Clear` | src/amd_detail/file.cpp:184-189 | emptying both maps entry by entry releases two references of each file |
| `DriverState.BufferMap.Register` | src/amd_detail/buffer.cpp:123-132 | the in-place registration is the specified one; a rejected buffer leaves the map alone |
| `DriverState.BufferMap.Get` | src/amd_detail/buffer.cpp:160-172 | the registered buffer, or a temporary one owned by its caller alone |
| `DriverState.BufferMap.Deregister` | src/amd_detail/buffer.cpp:134-147 | the in-place deregistration is the specified one |
| `DriverState.BufferMap.Clear` | src/amd_detail/buffer.cpp:174-178 | emptying the map releases one reference of each buffer, and held buffers survive |
| `DriverState.DriverState.DecrRefCount` | src/amd_detail/state.cpp:234-254 | the decrement is the machine's step, clears at zero, and never reaches its throw |
| `DriverState.DriverState.RegisterFile` | src/amd_detail/state.cpp:120-132 | registering through the driver is the machine's step |
| `DriverState.DriverState.DeregisterFile` | src/amd_detail/state.cpp:134-144 | deregistering through the driver is the machine's step |
| `DriverState.DriverState.RegisterBuffer` | src/amd_detail/state.cpp:68-80 | so is registering a buffer |
| `DriverState.DriverState.DeregisterBuffer` | src/amd_detail/state.cpp:82-92 | so is deregistering one |
| `DriverState.DriverState.GetFileAndBuffer` | src/amd_detail/state.cpp:192-204 | a combined lookup takes both references or leaves none behind |
| `Batch.AcceptedIffParamsValid` | src/amd_detail/batch/batch.cpp:25-84 | an operation is accepted exactly when the shared parameter check accepts it for the buffer and file its parameters name, and its opcode and mode are known |
| `Batch.RefusalIsFirstFailure` | src/amd_detail/batch/batch.cpp:29-83 | a refusal names the first check that fails, and comes exactly when one does |
| `Batch.RoomIsExact` | src/amd_detail/batch/batch.cpp:107-114 | the unsigned subtraction is exact exactly while the outstanding operations do not exceed the capacity |
| `Batch.BatchContext.Submit` | src/amd_detail/batch/batch.cpp:102-134 | a submission adds all its operations or none, exactly when they fit and each is admissible; otherwise the first bad one is reported; outstanding operations stay within the capacity and valid |
| `Batch.MakeContext` | src/amd_detail/batch/batch.cpp:86-94 | contexts exist exactly for capacities 1 to 128 and start empty |
| `Batch.DriverAnswersAreNamed` | src/amd_detail/batch/batch.cpp:121-126 | the driver's lookup always answers with the named file and buffer, so acceptance is the parameter check, the opcode and the mode |
| `Lifetime.MonitorIsReady` | src/amd_detail/backend/fallback.cpp:168-217 | whatever a stream's calls and queue do on their own guards, the monitor is ready for it: each cleanup is enqueued while its operation is launching, so at most once, and begins while it is queued |
| `Lifetime.DriverIsReady` | src/amd_detail/async.cpp:55-69 | what a completion or the end of a batch context gives back is held until then |
| `Lifetime.CompletionGivesBack` | src/amd_detail/async.cpp:55-69 | from every reachable state, completing an operation gives its file and its buffer up: one holder and one use less each, nothing else changes |
| `Lifetime.LastCompletionFrees` | src/amd_detail/async.cpp:55-69 | so the last completion on a file, or on a buffer, lets it be deregistered |
| `Lifetime.DestructionGivesBack` | src/amd_detail/batch/batch.cpp:157-171 | destroying a batch context gives up the references of all its outstanding operations, and no others |
| `Lifetime.SubmissionTakesAll` | src/amd_detail/batch/batch.cpp:102-134 | a batch submission takes over the references of all its operations, each counting against the capacity of its context alone |
| `Lifetime.StreamsProject` | src/amd_detail/backend/fallback.cpp:174-217 | a step of the whole library is a step of the one stream it names, and running an entry moves that stream on by one |
| `Lifetime.StepKeepsInv` | src/amd_detail/async.cpp:48-69 | every step keeps the references of incomplete operations and outstanding batch operations held, each by its owner |
| `Lifetime.PartsAreReachable` | src/amd_detail/backend/fallback.cpp:147-256 | every run of the whole library projects to a run of the monitor and a run of the driver, so all results about them hold together |
| `Lifetime.UsersHoldTheirObjects` | src/amd_detail/async.cpp:55-69 | an operation that has not been completed, or an outstanding batch operation, holds a live file and buffer, and deregistering either fails |
| `Lifetime.DeregistrationIsExact` | src/amd_detail/file.cpp:167-182 | deregistering a file succeeds if and only if it is registered and no incomplete asynchronous operation, outstanding batch operation or call in progress holds it |
| `Lifetime.StageFindsReferences` | src/amd_detail/backend/fallback.cpp:221-303 | whatever stage a stream runs next, its operation is alive with its references set, its file and buffer alive and the file's descriptors open |
| `Lifetime.BatchesFit` | src/amd_detail/batch/batch.cpp:86-114 | outstanding operations never exceed the capacity, nor that 128, over whole runs |

## Left out

- System, HIP and libmount wrappers: they appear as contracts only. A failing `pread`, `pwrite` or `hipMemcpy` moves
  nothing; a zero-byte read of a non-empty request means end of file; a failing direct transfer may leave anything in its
  target region; a direct read of a non-empty request returns zero only at end of file, and direct writes that move
  nothing are finitely many; HIP's address range contains the pointer, does not wrap, and is the same for every pointer of one
  allocation while the library uses it; `hipAmdFileRead` and `hipAmdFileWrite` return
  no more than they were asked for, so the branch for a negative count in `BackendWithFallback::io` is not modelled.
- `hipHostFree` waits until no host function is running, as the comment in the monitor's worker says; nothing else about
  HIP's scheduling is assumed.
- The inside of `async_io_cleanup`: it is one step, although it reads the operation after handing it to the monitor.
- `devPtr()` throwing between adding an operation and the `try` block.
- Callers changing size or offsets while `async_io` itself runs; changes after submission are modelled.
- Unregistered streams: every call builds a `Stream` with a mutex of its own, so nothing orders concurrent submissions.
- Reuse of freed addresses as handles or operation keys: identities are fresh. Descriptor numbers are reused.
- The driver's 64-bit reference count as a bounded integer: it is unbounded here.
- The stream map, the batch context map, `getRegisteredBuffer` and the log messages of the destructors: easy members.
- Error-code decoding, error strings, version query; an `IoType` that is neither read nor write.
- The NVIDIA side, the statistics server and tools (four counters are kept), configuration parsing (it is constant during
  a call), and the parts of the API that are not implemented.
- Aiscp.Copy: the two paths name different files, so that the source does not change, and the transfer limit is not zero.
- Dispatch.RetryIo: has no branch for a negative byte count, because the direct transfers return no more than asked for.
- Batch.BatchContext.Submit: takes the answers of its lookups as given and does not count references; that those of
  outstanding operations are held, and that others go back with their calls, is stated by the Lifetime machine.
- Lifetime: an operation takes over the references of one lookup; further copies that a call makes while it runs are
  references of a call in progress.
- AsyncOp.SubmittedRefinement: assumes, with all three parameters fixed, a request within the transfer limit; beyond it
  `AsyncOp.OverrunsExactlyOutsideDomain` says what happens.
- Fallback.ReadLoop: termination rests on finitely many EINTRs, a budget carried by the file.
