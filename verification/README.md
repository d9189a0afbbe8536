# StreamFusion native core: model and proofs

StreamFusion runs Flink operators as native plans over Arrow batches. This project models the
parts of its native core whose correctness spans several functions or a whole run, and proves
what they promise. `dafny verify dfyconfig.toml` checks everything.

Code that the system updates step by step is a class or a loop here, proved equal to a step
function on values; the theorems are about that function, over all inputs or all runs.

- `Fanout`, `Invocation`: one stream shared by several readers through a single batch slot, and
  the three-valued invocation word around streams, fan-outs, regions and state calls. Readers,
  source answers, wake-ups, drops and clients are events of a state machine; a lock is one
  atomic step. `FanoutAnswers` and `InvocationOutcomes` say what clients observe: the answers of
  every poll over a run, and how and when invocations start, end and require recovery.
- `SnapshotCodec`, `RocksState`: the SFS1 key-group snapshot in its three forms (contiguous
  encoder, admitted writer, borrowed iterator) and the ordered store that measures and writes it
  in two scans.
- `MemoryPool`: credit of host reservations, DataFusion pools and Arrow on shared brokers.
- `TwosComplement`, `RowLayout`, `RowCanonical`, `BinaryRow`: the Flink BinaryRow key encoding,
  down to bytes, and exactly which cells encode.
- `KeyGroups`, `Routing`, `ManagedRouting`: hash exchange in both framing modes, and the same
  exchange under memory admission.
- `WireMemory`, `PlanIds`: plan admission, a protobuf scan that prices a plan without decoding
  it, and the two-pass identity allocator.
- `RegionOutput`, `RegionCalls`, `RegionEvents`: handles to region outputs used concurrently, what
  each call receives, and the event queue behind one handle.
- `Bytes`: byte order, bitwise OR and sequence facts used by the others.

Points where a reader may look for more or expect something else:

- Wake-ups. "A parked reader implies that the source holds a live waker" is false between a
  wake-up and the poll it causes (`Fanout.WakerMayBeSpent`). It holds exactly while the source
  holds a waker at all (`Fanout.SourceHoldsWaiterUntilFired`), and when it does not hold some
  unfinished reader is due to be polled (`Fanout.NoLostWakeup`).
- Compact timestamps. With precision up to 3 the encoder drops the sub-millisecond part, so a
  field reads back exactly when there is none (`BinaryRow.RowRoundTrip`), and two keys are equal
  exactly when they agree down to the millisecond there and fully elsewhere
  (`BinaryRow.EqualBytesIffEqualKept`; `BinaryRow.CompactTimestampsCollide` is an instance).
- Long rows. A byte field longer than seven bytes whose region starts from 2^31 up to 2^32 looks
  inline to a reader and is lost (`RowLayout.LongBytesAreLost`). Fields that start below 2^31 and
  are shorter than 2^32 bytes read back, also in longer rows (`RowLayout.LayoutRoundTrip`).
- Memory brokers. The ledger follows the JVM broker: a transfer to Arrow keeps the bytes charged
  as pending credit until Arrow allocates or the transfer is finished; other holders of the slot
  are part of the limit. A broker that does not forward transfers releases them.
- Rust's machine integers are explicit: lengths are checked against `usize`, `u32` and `i64`
  where the code checks or converts them, 32-bit saturation and the 64-bit shift are written out.

## Model

| member | source | states |
|---|---|---|
| `Fanout.EveryReaderSeesTheStream` | streamfusion-native/src/execution_context/fanout.rs:104-165 | in every run of polls, source answers, drops and wake-ups a reader has received everything pulled from the source or all but the last batch; a reader that saw the end received all of it |
| `Fanout.SourcePolledOnlyWhenDrained` | streamfusion-native/src/execution_context/fanout.rs:119-164 | a poll reaches the source only while the source exists (its unwrap cannot fail) and only when every reader has taken every batch pulled so far |
| `Fanout.PulledIsFinal` | streamfusion-native/src/execution_context/fanout.rs:69-81 | after the end or a failure, in any continuation of the run, nothing more is pulled, the slot stays empty and the cause stays |
| `Fanout.WaitersAreRegistered` | streamfusion-native/src/execution_context/fanout.rs:124-136 | a waiting reader has exactly its waker registered and waits while no batch, end or failure is available to it |
| `Fanout.NoLostWakeup` | streamfusion-native/src/execution_context/fanout.rs:60-67 | while any reader is unfinished, some unfinished reader is runnable or the source holds the waker of one that waits |
| `Fanout.SourceHoldsWaiterUntilFired` | streamfusion-native/src/execution_context/fanout.rs:119-164 | the exact rule: while a reader waits and no batch is held, the source holds the waker of a waiting live reader if and only if it holds a waker at all, so it fails exactly from a firing to the next pending answer |
| `Fanout.FiredStep` | streamfusion-native/src/execution_context/fanout.rs:104-185 | every event keeps the rule: a waker the source holds while someone waits is the waker of a waiting reader |
| `Fanout.WakerMayBeSpent` | streamfusion-native/src/execution_context/fanout.rs:159-162 | a concrete run in which a reader waits and the source holds no waker, because the woken reader has not been polled yet: without the condition the rule is false |
| `Fanout.CompletionRunsOnce` | streamfusion-native/src/execution_context/fanout.rs:69-92 | the completion callback runs at most once, after source and batch are released; with success exactly when all readers saw the end, with failure exactly when the stream failed; it has run once every reader is gone |
| `Fanout.StepInv` | streamfusion-native/src/execution_context/fanout.rs:101-185 | every event preserves deliveries, endings, completions and wake-ups together |
| `Fanout.RunInv` | streamfusion-native/src/execution_context/fanout.rs:101-184 | the invariant holds after every sequence of events |
| `Fanout.StepKeeps` | streamfusion-native/src/execution_context/fanout.rs:119-165 | callbacks are never taken back, a lost source never returns, and a poll that reaches the source keeps it exactly on a pending answer or a batch |
| `Fanout.SharedStream.constructor` | streamfusion-native/src/execution_context/fanout.rs:20-47 | splitting a stream starts the shared state with the invariant in place |
| `Fanout.SharedStream.WakeAll` | streamfusion-native/src/execution_context/fanout.rs:61-67 | takes and wakes every registered waker |
| `Fanout.SharedStream.FailWith` | streamfusion-native/src/execution_context/fanout.rs:69-81 | only the first failure counts; source and batch go before the callback |
| `Fanout.SharedStream.DropAt` | streamfusion-native/src/execution_context/fanout.rs:174-185 | dropping an unfinished reader cancels all of them, a finished one nobody |
| `Fanout.SharedStream.TakeAt` | streamfusion-native/src/execution_context/fanout.rs:124-132 | hands over the held batch; the last reader frees the slot and wakes the others |
| `Fanout.SharedStream.ParkAt` | streamfusion-native/src/execution_context/fanout.rs:134-135 | registers the waker of a reader that has to wait |
| `Fanout.SharedStream.ObserveEofAt` | streamfusion-native/src/execution_context/fanout.rs:137-146 | counts a reader that saw the end; the last one completes successfully |
| `Fanout.SharedStream.Accept` | streamfusion-native/src/execution_context/fanout.rs:147-163 | what each answer of the source does to the shared state |
| `Fanout.SharedStream.PollAt` | streamfusion-native/src/execution_context/fanout.rs:104-165 | the polling loop as written computes the step function of the state machine and its answer, whose meaning over whole runs FanoutAnswers states |
| `FanoutAnswers.ReadersAreToldTheTruth` | streamfusion-native/src/execution_context/fanout.rs:101-165 | over any run, the items a reader was answered are exactly what was delivered to it; it is answered batches and pending until it finishes, then exactly once how (the end if it saw the end, the cause of the first failure otherwise), and only ends afterwards; while it waits its last answer was pending |
| `FanoutAnswers.AvailableIsAnswered` | streamfusion-native/src/execution_context/fanout.rs:104-165 | a live reader is answered at once whatever is available to it: the failure, the held batch it has not taken, the end, or what the source said; pending only when it took the held batch or the source is pending |
| `FanoutAnswers.EventsDecide` | streamfusion-native/src/execution_context/fanout.rs:69-81 | one event: what is pulled, the end and the cause of failure follow from the answer of the source and from cancellations alone |
| `FanoutAnswers.RunFollowsTheSource` | streamfusion-native/src/execution_context/fanout.rs:147-163 | over any run the stream is what the source said: its batches in order, ended exactly when the source ended, failed for the producer exactly when the source failed |
| `Invocation.EveryInvocationFinishesOnce` | streamfusion-native/src/execution_context/invocation.rs:16-50 | in every reachable world the invocations that began have finished exactly once each and in order, except the active one |
| `Invocation.OneOwnerPerInvocation` | streamfusion-native/src/execution_context/stream.rs:128-163 | the word is active exactly when one owner (stream, fan-out or region completion) still has to finish, and that owner belongs to the latest invocation |
| `Invocation.FinishedOwnersAreInert` | streamfusion-native/src/execution_context/stream.rs:226-279 | polling, fanning out, calling back or dropping an owner that already finished never touches a newer invocation |
| `Invocation.OnlyIdleBegins` | streamfusion-native/src/execution_context/invocation.rs:17-25 | nothing begins while an invocation is active or recovery is required |
| `Invocation.RecoveryIsAbsorbing` | streamfusion-native/src/execution_context/invocation.rs:53-79 | once recovery is required no sequence of actions changes the context again |
| `Invocation.StatelessNeverRecovers` | streamfusion-native/src/execution_context/invocation.rs:56-75 | only persistent or region plans reach recovery; whenever no invocation is active all input slots and control events are empty |
| `Invocation.FailureRequiresRecovery` | streamfusion-native/src/execution_context/stream.rs:204-279 | a stream error, a dropped or refused stream and a failed region end in recovery exactly for persistent or region plans, in idle otherwise |
| `Invocation.FanoutDecides` | streamfusion-native/src/execution_context/stream.rs:215-223 | the fan-out event that finishes the invocation decides its outcome: success exactly when every reader saw the end |
| `Invocation.RunInv` | streamfusion-native/src/execution_context/invocation.rs:16-79 | the ownership invariant holds after every sequence of actions of all clients |
| `Invocation.NativeExecutionContext.Begin` | streamfusion-native/src/execution_context/invocation.rs:17-32 | claims the word exactly when it is idle |
| `Invocation.NativeExecutionContext.FinishInvocation` | streamfusion-native/src/execution_context/invocation.rs:53-79 | clears controls and every input slot, then publishes idle or recovery |
| `Invocation.NativeExecutionContext.DropGuard` | streamfusion-native/src/execution_context/invocation.rs:43-50 | an armed guard finishes with success unless execution began and did not succeed |
| `Invocation.NativeExecutionContext.PrepareExecution` | streamfusion-native/src/execution_context.rs:404-499 | lowers the plan once, replaces all input slots or clears them all |
| `Invocation.NativeExecutionContext.PreparePlanFor` | streamfusion-native/src/execution_context.rs:390-400 | refuses a region plan before touching any slot |
| `Invocation.NativeExecutionContext.InstallControls` | streamfusion-native/src/execution_context/stream.rs:134-136 | installs the control request of an invocation, or reports that it is invalid |
| `Invocation.NativeExecutionContext.Execute` | streamfusion-native/src/execution_context.rs:324-340 | the whole synchronous call equals its step of the state machine on every path |
| `Invocation.NativeExecutionContext.ControlState` | streamfusion-native/src/execution_context/state.rs:338-356 | the guard of a state operation equals its step on every path |
| `Invocation.NativeExecutionContext.RestoreReader` | streamfusion-native/src/execution_context/state.rs:377-413 | preparation failures stay outside execution, reader failures inside |
| `Invocation.NativeExecutionContext.StartStream` | streamfusion-native/src/execution_context/stream.rs:128-163 | hands the guard over to a stream, reusing a retained stream when allowed, or ends the invocation itself |
| `Invocation.NativeExecutionContext.StartRegionOutput` | streamfusion-native/src/execution_context/region.rs:54-83 | hands the guard to the completion object before the region starts; a failed start finishes through it |
| `Invocation.NativePlanStream.PollNext` | streamfusion-native/src/execution_context/stream.rs:235-265 | the poll as written equals its step, answer included; InvocationOutcomes states how each answer ends the invocation and what the consumer is told |
| `Invocation.NativePlanStream.DropIt` | streamfusion-native/src/execution_context/stream.rs:272-279 | dropping a live stream finishes with failure, a terminal one does nothing |
| `Invocation.SharedPlanStream.PollReader` | streamfusion-native/src/execution_context/fanout.rs:104-165 | a poll of a shared plan stream, from the reader through the plan stream to finish_invocation, equals its step of the state machine |
| `Invocation.SharedPlanStream.DropReader` | streamfusion-native/src/execution_context/fanout.rs:174-185 | so does the drop of a reader |
| `Invocation.NativePlanStream.FanOutTo` | streamfusion-native/src/execution_context/stream.rs:204-224 | a refused fan-out drops the stream; an accepted one passes completion to a freshly split shared stream |
| `Invocation.StateCallsEndPrecisely` | streamfusion-native/src/execution_context/state.rs:338-413 | a state call on an idle context ends within itself, in recovery exactly when the plan is persistent, the node is bound and a mutation or a restore failed |
| `InvocationOutcomes.HowInvocationsEnd` | streamfusion-native/src/execution_context/stream.rs:204-279 | for every reachable world, unfinished stream or region and action on it: recovery if and only if the plan recovers and the action is an error, a drop, a refused fan-out or a failed callback; idle after a normal end, a reusable stream going pending or a successful callback; active otherwise. Only the reusable stream leaves its execution retained; whatever ends leaves slots and controls empty |
| `InvocationOutcomes.StartsExactly` | streamfusion-native/src/execution_context/stream.rs:128-163 | an idle tree starts a stream exactly when the control request is valid, the plan fits the batches and an execution is built or retained; the active invocation then holds exactly its batches and controls and the new stream alone owns its completion |
| `InvocationOutcomes.RegionStartsExactly` | streamfusion-native/src/execution_context/region.rs:54-83 | a region starts exactly when the request is valid, the plan fits and the region starts; recovery exactly when only the start failed |
| `InvocationOutcomes.ExecuteExactly` | streamfusion-native/src/execution_context.rs:324-340 | a synchronous call ends within itself: recovery exactly when a recovering plan was prepared and failed; a prepared call leaves no retained stream |
| `InvocationOutcomes.ActiveKeepsInputs` | streamfusion-native/src/execution_context/invocation.rs:53-79 | while an invocation stays active no action touches its filled slots, its controls or the counts |
| `InvocationOutcomes.PrepareExactly` | streamfusion-native/src/execution_context.rs:404-499 | preparing succeeds exactly when the plan lowers or was lowered and number and schemas of the batches agree; then every slot holds its batch; a schema change leaves no slot filled; nothing else changes |
| `InvocationOutcomes.SchemasAreStable` | streamfusion-native/src/execution_context.rs:404-499 | a plan is lowered once: its inputs keep number and schemas under every action |
| `InvocationOutcomes.StreamYieldsTheExecution` | streamfusion-native/src/execution_context/stream.rs:235-265 | over any sequence of polls, batches, pending answers and the first error come through unchanged, a reusable stream ends where its execution goes pending, and every poll after the first terminal answer ends |
| `SnapshotCodec.DecodeInvertsEncode` | streamfusion-state-abi/src/lib.rs:173-205 | decoding the frame of any encodable entry list returns that list |
| `SnapshotCodec.EncodeInvertsDecode` | streamfusion-state-abi/src/lib.rs:192-249 | re-encoding whatever validation accepted gives the same bytes |
| `SnapshotCodec.AcceptsExactlyFrames` | streamfusion-state-abi/src/lib.rs:209-249 | a byte string is accepted exactly when it is the frame of some encodable entry list |
| `SnapshotCodec.PrefixFree` | streamfusion-state-abi/src/lib.rs:209-249 | no proper prefix or extension of an accepted frame is accepted |
| `SnapshotCodec.EncodeKeyGroupSnapshot` | streamfusion-state-abi/src/lib.rs:173-189 | returns the canonical frame exactly for encodable lists and reports a too long length otherwise |
| `SnapshotCodec.ValidateKeyGroupSnapshot` | streamfusion-state-abi/src/lib.rs:209-249 | the cursor loop accepts and rejects exactly as the parse function, with the same error |
| `SnapshotCodec.DecodeKeyGroupSnapshot` | streamfusion-state-abi/src/lib.rs:192-205 | decodes exactly the frames, never failing after validation |
| `SnapshotCodec.SnapshotInput.ReadExact` | streamfusion-state-abi/src/lib.rs:283-294 | reads in bounds and advances, or fails and stays |
| `SnapshotCodec.SnapshotInput.ReadU32` | streamfusion-state-abi/src/lib.rs:272-276 | one little-endian word |
| `SnapshotCodec.SnapshotInput.ReadBytes` | streamfusion-state-abi/src/lib.rs:278-281 | a length word and that many bytes |
| `SnapshotCodec.SnapshotInput.ReadEntry` | streamfusion-state-abi/src/lib.rs:197-203 | a key and a value, each behind its length word |
| `SnapshotCodec.Entries.constructor` | streamfusion-state-abi/src/snapshot_entries.rs:8-16 | the borrowed iterator starts with exactly the decoded entries ahead of it |
| `SnapshotCodec.Entries.Next` | streamfusion-state-abi/src/snapshot_entries.rs:25-43 | yields the next decoded entry and never reaches its expect |
| `SnapshotCodec.CollectEntries` | streamfusion-state-abi/src/snapshot_entries.rs:8-48 | draining the borrowed iterator gives what the copying decoder returns, errors included |
| `SnapshotCodec.SnapshotWriter.Append` | streamfusion-state-abi/src/snapshot_writer.rs:45-68 | appends one entry within the admission, or rejects it and leaves the writer unchanged |
| `SnapshotCodec.SnapshotWriter.Finish` | streamfusion-state-abi/src/snapshot_writer.rs:70-77 | returns the bytes exactly when count and size match the admission |
| `SnapshotCodec.WriterRunExtends` | streamfusion-state-abi/src/snapshot_writer.rs:45-68 | after any run of appends the output is the header and the body of the accepted entries |
| `SnapshotCodec.WriterAgreesWithEncoder` | streamfusion-state-abi/src/snapshot_writer.rs:33-77 | finish succeeds exactly when accepted count and size equal the admission, and then equals the contiguous encoding |
| `SnapshotCodec.WriterReproducesFrame` | streamfusion-state-abi/src/snapshot_writer.rs:33-77 | an exact admission accepts every entry and reproduces the contiguous frame |
| `SnapshotCodec.WriterStartsExactly` | streamfusion-state-abi/src/snapshot_writer.rs:5-43 | a writer starts exactly when the count fits its word and the admission holds the header and the length words |
| `SnapshotCodec.WriterNeverExceeds` | streamfusion-state-abi/src/snapshot_writer.rs:45-68 | whatever is offered, the writer never holds more bytes or entries than were admitted |
| `SnapshotCodec.AppendIsExact` | streamfusion-state-abi/src/snapshot_writer.rs:45-68 | an append is refused exactly when the entry is too long, no entry is left, or it would exceed the admission |
| `SnapshotCodec.HeaderDecides` | streamfusion-state-abi/src/lib.rs:209-236 | exactly which header bytes draw the magic, version, key-group and count refusals |
| `SnapshotCodec.RefusalsAreNamed` | streamfusion-state-abi/src/lib.rs:209-249 | a frame with anything behind it is refused for trailing bytes, a frame of another group for its group |
| `SnapshotCodec.EntriesTruncate` | streamfusion-state-abi/src/lib.rs:272-294 | reading entries fails only by truncation: no length word overflows the offset |
| `RocksState.PrefixContiguous` | streamfusion-state-rocksdb/src/rocks_state.rs:441-446 | in lexicographic order keys that share a prefix are contiguous and start at the prefix |
| `RocksState.VisitedLists` | streamfusion-state-rocksdb/src/rocks_state.rs:436-454 | a scan from the prefix that stops at the first other key lists exactly the keys with the prefix, in order |
| `RocksState.ListingUnique` | streamfusion-state-rocksdb/src/rocks_state.rs:427-475 | an ordered listing is determined by its contents |
| `RocksState.GroupEntriesListGroup` | streamfusion-state-rocksdb/src/rocks_state.rs:427-475 | the scan lists exactly one key group, whole and in key order |
| `RocksState.SameGroupSameEntries` | streamfusion-state-rocksdb/src/rocks_state.rs:427-475 | stores that agree on a group snapshot it identically |
| `RocksState.GroupPrefixInjective` | streamfusion-state-rocksdb/src/rocks_state.rs:601-606 | different key groups have different key prefixes |
| `RocksState.RocksStateBackend.FlushBatches` | streamfusion-state-rocksdb/src/rocks_state/write.rs:14-41 | writes go out in order, each as soon as it has 500 mutations or the byte limit, the rest at the end; either all mutations are applied or exactly the writes before the first one the database does not complete |
| `RocksState.RocksStateBackend.WriteBatchRefs` | streamfusion-state-rocksdb/src/rocks_state.rs:407-420 | one unowned key group rejects the batch and changes nothing |
| `RocksState.RocksStateBackend.SnapshotKeyGroupAdmitted` | streamfusion-state-rocksdb/src/rocks_state.rs:427-475 | the measured size is exactly what is written: the result is the canonical frame of the group, or one of the named refusals |
| `RocksState.RocksStateBackend.WritePass` | streamfusion-state-rocksdb/src/rocks_state.rs:457-474 | the second pass never exceeds or misses the admission; finish cannot reject |
| `RocksState.RocksStateBackend.RestoreKeyGroup` | streamfusion-state-rocksdb/src/rocks_state.rs:477-488 | decodes before writing; a refusal changes nothing; a failed write leaves a proper prefix of the entries applied and nothing else |
| `RocksState.PutsEffect` | streamfusion-state-rocksdb/src/rocks_state.rs:477-488 | restoring writes exactly the entries of the group |
| `RocksState.LastMutationDecides` | streamfusion-state-rocksdb/src/rocks_state.rs:407-420 | for any mutation list and key the last mutation naming the key decides: its value is stored or the key is deleted; keys not named keep what they had |
| `RocksState.ApplyEffect` | streamfusion-state-rocksdb/src/rocks_state/write.rs:14-41 | one mutation puts or deletes its own key and touches no other |
| `RocksState.SnapshotThenRestore` | streamfusion-state-rocksdb/src/rocks_state.rs:427-488 | snapshot then restore into a store without the group reproduces it and leaves every other group as it was |
| `MemoryPool.CreditIsConserved` | streamfusion-native/src/memory_pool.rs:53-193 | after any sequence of operations on any number of reservations, pools and brokers, each ledger is what its owners and Arrow hold, within its limit |
| `MemoryPool.DroppingEveryOwnerReturnsTheCredit` | streamfusion-native/src/memory_pool.rs:185-193 | dropping every owner leaves only what Arrow still holds |
| `MemoryPool.ReleasesSucceed` | streamfusion-native/src/memory_pool.rs:467-479 | no destructor and no pool shrink can fail on its broker |
| `MemoryPool.AdmissionIsExact` | streamfusion-native/src/memory_pool.rs:426-453 | for every pool limit, a request is granted exactly when the slot has room and the limit allows it; overflow and range errors cannot occur |
| `MemoryPool.MoveConserves` | streamfusion-native/src/memory_pool.rs:103-133 | split and grow_from change no broker and keep the total |
| `MemoryPool.DropConserves` | streamfusion-native/src/memory_pool.rs:185-193 | a drop returns exactly what the owner held |
| `MemoryPool.GrowBalances` | streamfusion-native/src/memory_pool.rs:75-97 | growth moves the ledger by what the owner gained; a failure changes nothing |
| `MemoryPool.ResizeBalances` | streamfusion-native/src/memory_pool.rs:135-144 | so does a resize in either direction |
| `MemoryPool.TransferBalances` | streamfusion-native/src/memory_pool.rs:146-156 | so does a transfer to Arrow, which keeps the bytes charged or releases them |
| `MemoryPool.PoolOperationsBalance` | streamfusion-native/src/memory_pool.rs:408-453 | so do growth and shrinking of a pool |
| `MemoryPool.SuccessMovesTheBytes` | streamfusion-native/src/memory_pool.rs:75-156 | growth, transfer and shrink that succeed move exactly the bytes asked for between owner, ledger and Arrow |
| `MemoryPool.ResizeMovesTheDifference` | streamfusion-native/src/memory_pool.rs:135-144 | a resize that succeeds leaves the owner at the size asked for and the ledger moved by the difference |
| `MemoryPool.HostOperationsTakeEffect` | streamfusion-native/src/memory_pool.rs:75-193 | in any conserved system: exactly when grow, resize, transfer, split and drop of a reservation take effect, and on whom |
| `MemoryPool.PoolOperationsTakeEffect` | streamfusion-native/src/memory_pool.rs:408-453 | the same for grow, shrink and drop of a pool under its own limit |
| `MemoryPool.GrowFromTakesEffect` | streamfusion-native/src/memory_pool.rs:118-133 | credit moves between two reservations exactly when they share a broker and the giver has it |
| `MemoryPool.ArrowIsExact` | streamfusion-native/src/memory_pool.rs:321-341 | Arrow spends pending credit first and room of the slot for the rest; finishing a transfer returns what it did not use |
| `MemoryPool.HostMemoryReservation.TryGrow` | streamfusion-native/src/memory_pool.rs:75-97 | equals the grow step on broker and size |
| `MemoryPool.HostMemoryReservation.Split` | streamfusion-native/src/memory_pool.rs:105-116 | moves exactly the bytes to a new owner on the same broker, or refuses |
| `MemoryPool.HostMemoryReservation.GrowFrom` | streamfusion-native/src/memory_pool.rs:120-133 | succeeds exactly on one broker with enough credit and no overflow, and keeps the sum |
| `MemoryPool.HostMemoryReservation.ResizeTo` | streamfusion-native/src/memory_pool.rs:135-144 | equals the resize step |
| `MemoryPool.HostMemoryReservation.TransferOut` | streamfusion-native/src/memory_pool.rs:146-156 | equals the transfer step |
| `MemoryPool.HostMemoryReservation.DropIt` | streamfusion-native/src/memory_pool.rs:185-193 | returns everything to the broker |
| `MemoryPool.FlinkMemoryPool.TryGrow` | streamfusion-native/src/memory_pool.rs:426-453 | the pool limit is checked before the broker is asked |
| `MemoryPool.FlinkMemoryPool.Shrink` | streamfusion-native/src/memory_pool.rs:408-424 | equals the shrink step |
| `MemoryPool.MemoryBroker.Reserve` | streamfusion-native/src/memory_pool.rs:260-277 | grants within the limit shared with the rest of the slot |
| `MemoryPool.MemoryBroker.GiveBack` | streamfusion-native/src/memory_pool.rs:279-299 | refuses to release more than is reserved |
| `MemoryPool.MemoryBroker.HandOver` | streamfusion-native/src/memory_pool.rs:321-341 | one pending transfer at a time stays charged |
| `TwosComplement.MinimalTwosComplement` | streamfusion-native/src/exchange/binary_row.rs:376-389 | the trimming loop computes the minimal form |
| `TwosComplement.MinimalFormIsExact` | streamfusion-native/src/exchange/binary_row.rs:376-389 | the minimal form has the value, and no shorter big-endian form has it |
| `TwosComplement.TrimKeepsValue` | streamfusion-native/src/exchange/binary_row.rs:379-387 | dropping redundant sign bytes keeps the value |
| `TwosComplement.NoShorter` | streamfusion-native/src/exchange/binary_row.rs:379-387 | a byte string without a redundant lead is the shortest of its value |
| `RowLayout.LayoutRoundTrip` | streamfusion-native/src/exchange/binary_row.rs:306-374 | a type-directed reader recovers every null, fixed, inline, out-of-line, timestamp and decimal field whose own region is addressable, however long the row is |
| `RowLayout.SmallRowsAreAddressable` | streamfusion-native/src/exchange/binary_row.rs:306-374 | in a row below 2^31 bytes that is every field |
| `RowLayout.LongBytesAreLost` | streamfusion-native/src/exchange/binary_row.rs:355-356 | long bytes whose region starts from 2^31 up to 2^32 are never read back, whatever they are |
| `RowLayout.RegionsAreDisjoint` | streamfusion-native/src/exchange/binary_row.rs:342-373 | out-of-line regions lie behind the fixed part, inside the row, in order and apart from each other |
| `RowLayout.WriteKeepsOthers` | streamfusion-native/src/exchange/binary_row.rs:332-373 | writing a field leaves null bit, slot and region of every other field alone |
| `RowLayout.WriteThenRead` | streamfusion-native/src/exchange/binary_row.rs:332-373 | a field just written reads back, and its region starts where the row ended |
| `RowLayout.WordValue` | streamfusion-native/src/exchange/binary_row.rs:355-356 | offset and length share one word without mixing, and the top byte is the top of the offset |
| `RowLayout.BuiltAligned` | streamfusion-native/src/exchange/binary_row.rs:314-374 | rows are whole words, as the hash demands |
| `RowCanonical.WriterIsCanonical` | streamfusion-native/src/exchange/binary_row.rs:306-374 | the in-place writer produces, byte for byte and paddings included, a form written by concatenation alone: bitmap, slots with running offsets, zero-padded regions |
| `BinaryRow.RowRoundTrip` | streamfusion-native/src/exchange/binary_row.rs:102-237 | what is read is what the cell means exactly when the field is not a compact timestamp with a sub-millisecond part |
| `BinaryRow.EqualBytesIffEqualKept` | streamfusion-native/src/exchange/binary_row.rs:102-237 | two rows of one key schema have the same bytes exactly when every field keeps the same of both cells, for all cells that encode |
| `BinaryRow.EqualBytesIffEqualKeys` | streamfusion-native/src/exchange/binary_row.rs:102-237 | for rows without sub-millisecond parts in compact timestamps that is exactly when all fields mean the same |
| `BinaryRow.RowReadsKept` | streamfusion-native/src/exchange/binary_row.rs:102-237 | every field of an encoded row reads back as what it keeps of its cell |
| `BinaryRow.DecodeIsKept` | streamfusion-native/src/exchange/binary_row.rs:149-237 | a stored field decodes to its cell, a compact timestamp to its millisecond |
| `BinaryRow.SameKeptSameRow` | streamfusion-native/src/exchange/binary_row.rs:149-237 | cells of which the fields keep the same encode alike, at any row size |
| `BinaryRow.SameMeaningSameRow` | streamfusion-native/src/exchange/binary_row.rs:149-237 | cells with one meaning encode alike whatever Arrow type or unit carries them, at any row size |
| `BinaryRow.CompactTimestampsCollide` | streamfusion-native/src/exchange/binary_row.rs:214-221 | two instants a nanosecond apart share one precision-3 key |
| `BinaryRow.ValueRoundTrip` | streamfusion-native/src/exchange/binary_row.rs:149-237 | a stored field decodes to its cell exactly when it is lossless |
| `BinaryRow.PartsAreTheInstant` | streamfusion-native/src/exchange/binary_row.rs:256-294 | milliseconds and nanoseconds of every unit add up to the instant, also before the epoch |
| `BinaryRow.EncodesExactly` | streamfusion-native/src/exchange/binary_row.rs:149-294 | a cell encodes exactly when it is null, or its Arrow type is one its key type accepts and its value is in range; a wrong type and a value out of range are told apart |
| `BinaryRow.RowEncodesExactly` | streamfusion-native/src/exchange/binary_row.rs:102-147 | a row of cells encodes exactly when every field does |
| `BinaryRow.EncodeRowExactly` | streamfusion-native/src/exchange/binary_row.rs:102-147 | a row of a batch encodes exactly when it exists and every key column encodes, or the preencoded key is there |
| `BinaryRow.PreencodedIsVerbatim` | streamfusion-native/src/exchange/binary_row.rs:114-138 | a preencoded key is passed through byte for byte |
| `BinaryRow.BatchKeysAreExact` | streamfusion-native/src/exchange/binary_row.rs:102-147 | two rows of a batch have one key exactly when each key column keeps the same of both |
| `BinaryRow.BinaryRowWriter.constructor` | streamfusion-native/src/exchange/binary_row.rs:315-326 | whatever the scratch vector held is gone |
| `BinaryRow.BinaryRowWriter.SetNull` | streamfusion-native/src/exchange/binary_row.rs:332-335 | sets the null bit of the field |
| `BinaryRow.BinaryRowWriter.WriteFixed` | streamfusion-native/src/exchange/binary_row.rs:337-340 | writes the start of the slot |
| `BinaryRow.BinaryRowWriter.WriteBytes` | streamfusion-native/src/exchange/binary_row.rs:342-357 | inline up to seven bytes, otherwise an aligned region |
| `BinaryRow.BinaryRowWriter.WriteNoncompactTimestamp` | streamfusion-native/src/exchange/binary_row.rs:359-364 | eight bytes out of line, nanoseconds in the slot |
| `BinaryRow.BinaryRowWriter.WriteNoncompactDecimal` | streamfusion-native/src/exchange/binary_row.rs:366-373 | sixteen bytes out of line holding the minimal form |
| `BinaryRow.BinaryRowWriter.WriteValue` | streamfusion-native/src/exchange/binary_row.rs:149-237 | dispatches as the store function does, errors included; EncodesExactly says when it succeeds |
| `BinaryRow.EncodeBinaryRowInto` | streamfusion-native/src/exchange/binary_row.rs:102-147 | the key depends on the row alone, never on the earlier scratch contents; errors as the pure encoder reports them |
| `KeyGroups.BinaryRowHash` | streamfusion-native/src/exchange/key_group.rs:9-17 | the word loop computes the row hash |
| `KeyGroups.Magnitude` | streamfusion-native/src/exchange/key_group.rs:19-29 | the hash result is never negative, the most negative word included |
| `KeyGroups.KeyGroup` | streamfusion-native/src/exchange/key_group.rs:31-34 | a key group below the maximum |
| `KeyGroups.AssignKeyGroup` | streamfusion-native/src/exchange/key_group.rs:31-34 | hash and group of a word-aligned key |
| `KeyGroups.EveryWordCounts` | streamfusion-native/src/exchange/key_group.rs:9-17 | keys of one length that differ in exactly one word, at any position, have different row hashes |
| `KeyGroups.GroupIsTheHash` | streamfusion-native/src/exchange/key_group.rs:31-34 | a key group is the non-negative hash modulo the number of groups |
| `Routing.VisitKeyGroups` | streamfusion-native/src/exchange/partitioner/routing_rows.rs:26-91 | the key group of every row in input order through one scratch vector, or the first error |
| `Routing.EqualKeysTravelTogether` | streamfusion-native/src/exchange/partitioner/routing_rows.rs:26-91 | rows whose key columns keep the same, encoded or preencoded, always get the same key group |
| `Routing.RoutesExactly` | streamfusion-native/src/exchange/partitioner/routing_rows.rs:26-91 | a batch has key groups exactly when 32 bits index its rows, its key columns exist, a preencoded key stands alone in a binary column, and every row has a usable key |
| `Routing.SelectsExactly` | streamfusion-native/src/exchange/partitioner.rs:90-176 | a batch is accepted exactly when the geometry is valid and it is routable |
| `Routing.RouteByKeyGroup` | streamfusion-native/src/exchange/partitioner.rs:85-110 | runs tile the batch, are uniform and maximal |
| `Routing.RunsAreMaximal` | streamfusion-native/src/exchange/partitioner.rs:97-108 | extending the last run in place keeps runs tiling, uniform and maximal |
| `Routing.RoutingRows` | streamfusion-native/src/exchange/partitioner/routing_rows.rs:11-23 | each destination gets its rows in input order |
| `Routing.RowsForIsExact` | streamfusion-native/src/exchange/partitioner/routing_rows.rs:17-22 | row i is listed for destination d exactly when d * max <= group * p < (d + 1) * max, in increasing order |
| `Routing.DestinationIsTheShare` | streamfusion-native/src/exchange/partitioner/routing_rows.rs:19-20 | destination d has the d-th of p equal shares of the key groups |
| `Routing.DestinationInRange` | streamfusion-native/src/exchange/partitioner/routing_rows.rs:19-20 | the destination index never leaves the table |
| `Routing.RouteByDestination` | streamfusion-native/src/exchange/partitioner.rs:164-175 | one selection per destination that has rows |
| `Routing.AlignedTagMapsBack` | streamfusion-native/src/exchange/exchange_framer.rs:107-112 | the aligned tag is below the maximum, maps back to its destination, and its 32-bit arithmetic never saturates |
| `Routing.RunsDeliver` | streamfusion-native/src/exchange/partitioner.rs:82-110 | run mode delivers every destination exactly its rows in input order |
| `Routing.GathersDeliver` | streamfusion-native/src/exchange/partitioner.rs:153-176 | aligned mode does too |
| `Routing.BothModesDeliver` | streamfusion-native/src/exchange/exchange_framer.rs:77-119 | both framing modes deliver the same complete sequence to every destination |
| `Routing.GatheredIsPicked` | streamfusion-native/src/exchange/partitioner.rs:112-150 | the gathered columns, read row by row, are the selected rows |
| `Routing.Materialize` | streamfusion-native/src/exchange/partitioner.rs:112-150 | succeeds exactly when the columns exist and Arrow can gather them; slicing and gathering both give exactly the selected rows, projected to the transport columns |
| `Routing.SliceBatch` | streamfusion-native/src/exchange/partitioner.rs:37-53 | a projected slice holds exactly the rows of its run |
| `Routing.Select` | streamfusion-native/src/exchange/partitioner.rs:90-110 | validation errors and selections of both modes |
| `Routing.EncodeFrames` | streamfusion-native/src/exchange/exchange_framer.rs:86-118 | one frame per selection with its tag and its rows; succeeds exactly when every selection materializes |
| `Routing.FrameHashExchangeBatch` | streamfusion-native/src/exchange/exchange_framer.rs:47-64 | end to end: succeeds exactly for accepted batches whose selections materialize, and then every destination decodes exactly its rows of the batch in input order, in either mode |
| `ManagedRouting.FramesAreCovered` | streamfusion-native/src/exchange/managed_routing.rs:117-155 | for any frames, successful or not, credit covers routing and retained bytes, and broker calls are at most two plus retained bytes over a quarter workspace (at least one byte) |
| `ManagedRouting.AdmittedFrameIsCovered` | streamfusion-native/src/exchange/managed_routing.rs:118-133 | before a frame is built credit covers routing, retained bytes and one workspace |
| `ManagedRouting.FrameKeeps` | streamfusion-native/src/exchange/managed_routing.rs:117-155 | each frame, accepted or refused, keeps the coverage and the amortized call bound |
| `ManagedRouting.RetainedIsTheSum` | streamfusion-native/src/exchange/managed_routing.rs:135-155 | what is retained is exactly what the frames occupy |
| `ManagedRouting.CreditStaysTight` | streamfusion-native/src/exchange/managed_routing.rs:118-155 | for any frames, accepted or refused, the credit held is at most routing, retained bytes and one and a quarter workspaces |
| `ManagedRouting.FramesFit` | streamfusion-native/src/exchange/managed_routing.rs:118-155 | frames within the workspace are all accepted when the broker has room for them and for one and a quarter workspaces |
| `ManagedRouting.BigFramesAreRefused` | streamfusion-native/src/exchange/managed_routing.rs:135-155 | a frame above the workspace is always refused |
| `ManagedRouting.RoomSuffices` | streamfusion-native/src/exchange/managed_routing.rs:71-108 | a routable batch whose frames fit the workspace is routed whenever the broker has room for routing state, frames, vector and one and a quarter workspaces |
| `ManagedRouting.RoutingMemory.Before` | streamfusion-native/src/exchange/managed_routing.rs:118-133 | asks for the deficit or a quarter workspace, whichever is more, and only when needed |
| `ManagedRouting.RoutingMemory.Retain` | streamfusion-native/src/exchange/managed_routing.rs:135-155 | rejects a frame above its workspace |
| `ManagedRouting.FrameBytes` | streamfusion-native/src/exchange/managed_routing.rs:87-101 | the checked sum of all capacities |
| `ManagedRouting.EncodeFramesAccounted` | streamfusion-native/src/exchange/exchange_framer.rs:77-119 | succeeds exactly when every selection is framed and every frame admitted; admission before, retention after every frame; at every exit coverage and the ledger hold and the broker was called at most two plus retained bytes over a quarter workspace times |
| `ManagedRouting.RouteRecordBatch` | streamfusion-native/src/exchange/managed_routing.rs:71-108 | succeeds exactly when routing state, selections, frames and the final resize are all admitted; a failure leaves the broker as it was; success leaves it charged exactly the frame bytes and delivers every destination its rows; either way broker calls are bounded by the retained bytes, not by the number of frames |
| `WireMemory.VarintExact` | streamfusion-native/src/execution_context/wire_memory.rs:141-154 | varint accepts exactly the encodings of at most ten bytes that denote a number below 2^64, and returns it |
| `WireMemory.VarintOfEncoded` | streamfusion-native/src/execution_context/wire_memory.rs:141-154 | reading an encoded number returns it and its length |
| `WireMemory.ReadVarint` | streamfusion-native/src/execution_context/wire_memory.rs:141-154 | the shift loop computes the varint function |
| `WireMemory.PlanMemory.Scan` | streamfusion-native/src/execution_context/wire_memory.rs:53-120 | the scanning loop with its recursion computes the scan function, which ScanIsTreeCost and DeepTreesAreRefused pin on every message tree |
| `WireMemory.PlanMemory.Total` | streamfusion-native/src/execution_context/wire_memory.rs:47-52 | checked copies of structure and payload |
| `WireMemory.ScanIsTreeCost` | streamfusion-native/src/execution_context/wire_memory.rs:53-120 | scanning the serialization of any message tree nested less than 100 deep adds exactly its cost (stated through membership in the layout), unknown fields free, and fails only on overflow of the counters |
| `WireMemory.DeepTreesAreRefused` | streamfusion-native/src/execution_context/wire_memory.rs:53-57 | a tree nested 100 deep or more is refused, for its depth unless the counters overflow first |
| `WireMemory.FindIsExact` | streamfusion-native/src/execution_context/wire_memory.rs:75-79 | the lookup finds a field exactly when the layout declares its number, and gives the kind of the first such entry |
| `WireMemory.FieldsAreExact` | streamfusion-native/src/execution_context/wire_memory.rs:63-120 | the scanner takes a field off the front exactly when one is there: a tag of a known wire type with a number from 1 to 2^32 - 1, and its whole value |
| `WireMemory.ScanBounded` | streamfusion-native/src/execution_context/wire_memory.rs:53-120 | on every accepted input structural cost is at most K times one plus the length, and payload at most the length |
| `PlanIds.IdentitiesAreAssigned` | streamfusion-native/src/lib.rs:42-96 | decoding succeeds exactly for allowed trees with distinct explicit identities in range and no more nodes than identities; explicit ones stay, anonymous nodes in preorder get the smallest free ones, nothing else changes; the overflow error needs more than 2^64 - 1 nodes |
| `PlanIds.IdentitiesAreDistinct` | streamfusion-native/src/lib.rs:51-59 | visited nodes end with positive, pairwise distinct identities |
| `PlanIds.RefusalsAreNamed` | streamfusion-native/src/lib.rs:42-96 | every refusal names its cause: the protocol version, an operator it does not permit, an identity no Java long holds, a repeated one, or more nodes than identities |
| `PlanIds.AllowedExactly` | streamfusion-native/src/lib.rs:63-208 | the protocol checks pass exactly when every visited node is permitted by the version |
| `PlanIds.NeverOverflows` | streamfusion-native/src/lib.rs:88-93 | the search for a free identity ends without overflow |
| `PlanIds.SearchFails` | streamfusion-native/src/lib.rs:89-93 | the search overflows exactly when every identity is taken |
| `PlanIds.TreeIsList` | streamfusion-native/src/lib.rs:63-208 | the recursive visitor does in both passes what a pass over the preorder list does |
| `PlanIds.Reserve` | streamfusion-native/src/lib.rs:76-87 | the first pass accepts exactly distinct in-range explicit identities and reserves them |
| `PlanIds.Fill` | streamfusion-native/src/lib.rs:88-96 | the second pass succeeds exactly when identities are left for all anonymous nodes, and fills the gaps in increasing order |
| `PlanIds.FindFree` | streamfusion-native/src/lib.rs:89-93 | the search loop |
| `PlanIds.AssignPlanNodeIds` | streamfusion-native/src/lib.rs:63-208 | the visitor as written |
| `PlanIds.DecodeRoot` | streamfusion-native/src/lib.rs:45-60 | both passes after the protocol check |
| `RegionOutput.OutputsAreOwnedLinearly` | streamfusion-native/src/jni_bridge/region_output.rs:211-298 | under every interleaving an output is in exactly one of its slot, one call, or the dropped ones, and is dropped at most once |
| `RegionOutput.ClosedIsFinal` | streamfusion-native/src/jni_bridge/region_output.rs:287-298 | nothing is ever put back into a closed slot |
| `RegionOutput.ReturnAfterCloseDrops` | streamfusion-native/src/jni_bridge/region_output.rs:276-284 | a call returning after close drops the output |
| `RegionOutput.QuiescentMeansDropped` | streamfusion-native/src/jni_bridge/region_output.rs:258-298 | with no call in progress and no handle left every output was dropped exactly once |
| `RegionOutput.RunKeeps` | streamfusion-native/src/jni_bridge/region_output.rs:224-298 | the ownership invariant holds after every interleaving |
| `RegionOutput.Registry.Add` | streamfusion-native/src/jni_bridge/region_output.rs:224-239 | a fresh positive handle, or none when the counter overflowed, and then the output is dropped at once |
| `RegionOutput.Registry.LookUpEntry` | streamfusion-native/src/jni_bridge/region_output.rs:262-269 | finds the slot of a live handle |
| `RegionOutput.Registry.TakeOutput` | streamfusion-native/src/jni_bridge/region_output.rs:270-275 | takes the output out of its slot, or finds it busy or closed; RegionCalls states who gets what |
| `RegionOutput.Registry.ReturnOutput` | streamfusion-native/src/jni_bridge/region_output.rs:277-283 | puts it back unless the slot was closed meanwhile |
| `RegionOutput.Registry.RemoveEntry` | streamfusion-native/src/jni_bridge/region_output.rs:288-289 | unregisters the handle |
| `RegionOutput.Registry.MarkClosed` | streamfusion-native/src/jni_bridge/region_output.rs:290-294 | closes the slot and takes what it holds |
| `RegionOutput.Registry.DropOutput` | streamfusion-native/src/jni_bridge/region_output.rs:295-296 | drops what the call holds |
| `RegionCalls.TakeMovesTheOutput` | streamfusion-native/src/jni_bridge/region_output.rs:270-275 | after any run, a take that returns an output leaves the slot empty and the call holding exactly that output; one that returns none changes nothing |
| `RegionCalls.CallsAreExclusive` | streamfusion-native/src/jni_bridge/region_output.rs:258-284 | from the take to its own return, whatever else happens, the call alone holds the output, it is not dropped, and every other take on the slot returns none |
| `RegionCalls.LiveHandlesGiveTheirOutput` | streamfusion-native/src/jni_bridge/region_output.rs:262-275 | a lookup of a live handle followed by a take returns the output of that handle, exactly unless another call works on it; any other handle is refused |
| `RegionCalls.EmptyMeansBusy` | streamfusion-native/src/jni_bridge/region_output.rs:270-284 | an open slot is empty exactly while some call works on its output |
| `RegionCalls.HandlesAreStable` | streamfusion-native/src/jni_bridge/region_output.rs:224-298 | a handle keeps its slot until removed and is never given out again |
| `RegionCalls.RegisterGivesAHandle` | streamfusion-native/src/jni_bridge/region_output.rs:224-239 | a registered output sits in the open slot of a fresh handle; past the last positive 64-bit handle it is dropped |
| `RegionCalls.ReturnIsExact` | streamfusion-native/src/jni_bridge/region_output.rs:276-284 | a return puts the output back into an open slot and drops it when the slot was closed |
| `RegionCalls.CloseIsExact` | streamfusion-native/src/jni_bridge/region_output.rs:287-298 | closing removes the handle, closes the slot and drops an idle output exactly once; a busy one is left to its call |
| `RegionCalls.ClosedGivesNothing` | streamfusion-native/src/jni_bridge/region_output.rs:258-298 | a closed slot stays closed and empty, and every take on it returns none |
| `RegionEvents.EventsFollowTheStream` | streamfusion-native/src/jni_bridge/region_output.rs:97-198 | whatever is called, events are the deliveries owed by the stream in order and without gaps; the end is reported only when all were delivered; each port sends its schema exactly with its first batch; a failed output fails for good |
| `RegionEvents.EndedMeansAllDelivered` | streamfusion-native/src/jni_bridge/region_output.rs:97-198 | when an output has ended, the Arrow edge of every port and every router have received exactly their batches of the stream, in order, once per binding |
| `RegionEvents.EveryoneGetsTheirShare` | streamfusion-native/src/jni_bridge/region_output.rs:150-163 | the deliveries owed to a port and to a router are exactly the batches of the ports bound to them, once per occurrence |
| `RegionEvents.SoundStreamsAreDelivered` | streamfusion-native/src/jni_bridge/region_output.rs:97-198 | on a sound stream calls that can export never fail, and one call more than there are deliveries reports the end |
| `RegionEvents.GoodExactly` | streamfusion-native/src/jni_bridge/region_output.rs:130-165 | an arrival is accepted exactly when its port is declared, its schema unchanged, its memory granted and its port bound |
| `RegionEvents.NextEventDelivers` | streamfusion-native/src/jni_bridge/region_output.rs:97-198 | one call delivers the next thing owed, ends exactly when nothing is owed, or poisons the output |
| `RegionEvents.RefillKeepsPlan` | streamfusion-native/src/jni_bridge/region_output.rs:130-165 | the waiting loop only moves deliveries from stream to queue |
| `RegionEvents.Output.Fill` | streamfusion-native/src/jni_bridge/region_output.rs:130-165 | the loop as written, with its port, schema and lease errors |
| `RegionEvents.Output.Pull` | streamfusion-native/src/jni_bridge/region_output.rs:120-198 | one event from the queue |
| `RegionEvents.Output.Next` | streamfusion-native/src/jni_bridge/region_output.rs:97-119 | a failure clears the queue and drops the stream |

## Left out

- JNI bridges, C Data and C Stream exports, Arrow IPC bytes and DataFusion plans: foreign semantics; a batch is its columns, and the encoded size of a frame is a parameter.
- Nested BinaryRow fields (lists, maps, structs) and `KeyField::from_arrow_type`: key fields are the flat types.
- Generated routing keys and the workspace formulas of managed routing: workspace sizes are parameters.
- RocksDB options, statistics, checkpoints, file I/O and read errors of the iterator: the store is a map with an ordered iterator; write failures are a parameter.
- Mutex poisoning, panics and the direct store of the recovery state in `execute_single_batch`.
- Memory of plan preparation, clock-input validation and region lowering: preparing succeeds or fails as a parameter.
- Metrics, error texts and consumer names; error variants are kept where code branches on them or callers tell them apart.
- Quality of the Murmur mixing beyond `KeyGroups.EveryWordCounts`: routing needs range and determinism.
- Closing of the JVM memory manager, and allocation failures reported back by Arrow.
- Invocation.NativeExecutionContext.PrepareExecution: does not model the credit of the cached plan, because lowering is a parameter.
- PlanIds.AssignPlanNodeIds: returns a rebuilt tree instead of updating the owned tree in place; absent optional inputs are not listed among a node's inputs.
- BinaryRow.RowReadsKept: for rows below 2^31 bytes, where every field is addressable; single fields of longer rows are covered by the layout alone.
- BinaryRow.EqualBytesIffEqualKept: one of the rows is below 2^31 bytes, for the same reason.
- BinaryRow.BatchKeysAreExact: one of the rows is below 2^31 bytes, for the same reason.
- WireMemory.ScanIsTreeCost: for serializations below 2^64 bytes, the range of a length word.
- WireMemory.DeepTreesAreRefused: for serializations below 2^64 bytes, as well.
- BinaryRow.EncodeBinaryRowInto: says nothing about the scratch contents after an error, as the encoder may stop midway.
- Routing.VisitKeyGroups: returns the visited groups as a sequence where the code calls back per row; both callers keep nothing when it fails.
- Routing.Materialize: row indices are in range, as both routers guarantee; Arrow refuses to gather a batch without columns.
- Fanout.SharedStream.PollAt: the answer of the source is a parameter of the poll, since the source is the environment.
