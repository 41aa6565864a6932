# Verification of the deterministic Monte Carlo engine

A Dafny model of a parallel Monte Carlo engine with a crash-consistent run store, and proofs about it. The
engine promises that a run's result does not depend on scheduling, worker count, crashes or restarts: every
block of scenarios counts exactly once in one fixed reduction tree. The project follows that promise through
four layers.

- **The durable run** (`Snapshot`, `StoreMachine`, `StoreInvariant`, `StorePreservation`, `StoreTheorems`,
  `StoreOpening`, `StoreCheckpoint`, `StoreOutcome`, `StoreFailure`, `StoreLostWork`, `StoreProgress`, `DurableRun`,
  `RunStoreLoops`, `Filenames`, `Preflight`, `StorePreflight`).
  The disk holds temporary files, result files keyed by (block, incarnation, epoch) and manifests keyed by
  sequence; memory holds the store and the coordinator. The steps are temporary creation, rename, memory update,
  orphan removal, crash and reopen, and an installed file may become unreadable while keeping its name.
  `StoreInvariant.Inv` is carried through every step; the theorems are statements about every finite run.
  `DurableRun` is the same code as a class with fields updated in place, proved to take the machine's steps.
- **The concurrent engine** (`Queues`, `Engine`, `EngineSafety`, `EngineTheorems`, `EngineBounds`). One scheduler, W workers and
  the coordinating thread interleave atomic steps over two bounded closable queues, an error slot and the worker
  counter. A wait on a condition variable is the guard of the step. `DurableEngine` puts this engine in front of
  the durable consumer.
- **The binary formats** (`Words`, `Crc32c`, `Codec`, `RecordCodec`, `ManifestCodec`, `Layouts`, `CodecLoops`,
  `StoreCodec`). Serializers and parsers with round trips in both directions, every field at its byte offset, the
  imperative reader and appenders proved equal to them, and CRC32C proved to be polynomial division that detects
  every burst of 32 bits.
- **Algebra and fast forms** (`Reduction`, `Blocks`, `Coordinator`, `Statistics`, `Sha256`, `Philox`, `Sampler`).

`Types` holds the shared records, `Basics` arithmetic facts. `dafny verify dfyconfig.toml` checks everything.

Modelling decisions:

- In the store, engine and codec, doubles are opaque 64-bit patterns and `merge`, the block kernel, the aggregate
  invariant, SHA-256 and the text that explains a rejection are arbitrary functions given as parameters;
  `Statistics` uses exact reals.
- Integers are unbounded with explicit 64-bit ranges; wrap-around is written out where the code relies on it
  (SHA-256 length, splitmix64, Philox, the rejection threshold).
- A message delivered to the coordinator may be stale, duplicated, corrupt or foreign, but one whose payload
  matches its own checksum carries the aggregate of its block (`StoreMachine.Deliverable`): workers are
  deterministic and the checksum is not forged.
- Files are kept as decoded values; `StoreCodec` shows that every manifest, and every result file a manifest
  names, survives as bytes where merge keeps aggregates well formed and the manifest limit is at least the bound
  that preflight checks (for a failed run, plus the longest reason, which the codec limits to 4096 bytes).
- Every process has its own checkpoint interval, given to the step that starts it.
- Free space: a write of n bytes takes n bytes, and nobody else uses the disk.
- `execute_missing_blocks` returns at once when nothing is missing; the engine machine starts with at least one
  missing block.
- Machine words under bitwise operations are sequences of bits, least significant first. `KnownWords` links them to
  bit vectors, on which the published answers of CRC32C, Philox and splitmix64 are computed.
- What an operation computes is stated twice: as the function that its method is proved equal to, and by laws that do
  not mention that function (exact conditions, offsets, closed forms, published answers).

Where code and documentation disagree: docs/R2_DURABLE_RECOVERY.md states that the manifest-sequence high-water
mark prevents an incarnation collision whenever recovery falls back to an older snapshot. The code does not
guarantee this before the first checkpoint manifest: the store starts at sequence 0 with incarnation 1, so a
fallback from an unreadable recovery manifest 1 (incarnation 2) picks incarnation 2 again.
`StoreTheorems.IncarnationCanRepeat` constructs that run and `StoreTheorems.FreshIncarnation` gives the exact
condition. Crash safety is not affected: it is proved without freshness.

## Model

| member | source | states |
|---|---|---|
| `StoreTheorems.CrashSafety` | src/runtime/engine.cpp:521-664 | Over every finite run of the durable store (processes that die at any step of open, record_result or checkpoint, arbitrary deliveries, files that become unreadable in between), a process that finishes returns the fixed-tree reduction of every block's own aggregate, and its counts add up to the number of blocks; what each count, the sequence number and the incarnation are is stated by OutcomeCounts. |
| `StorePreservation.StepKeepsInv` | src/run_store.cpp:1063-1479 | The global invariant of disk, manifest history and process memory is kept by every step: start, crash, decay of a file, temporary creation, rename, memory update, orphan removal, delivery. |
| `StorePreservation.RunKeepsInv` | src/run_store.cpp:1063-1479 | Hence it holds in every reachable state. |
| `StoreOpening.RecoveryRaisesLeases` | src/run_store.cpp:1216-1262 | Recovery of a running snapshot in every reachable state, decayed or not: open gives up exactly if an identity or a lease epoch is exhausted; otherwise it is about to install, as number highest + 1, the same commit set and aggregate with an incarnation above the snapshot's and above every manifest name and every lease epoch raised by one, and it hands out exactly these leases. |
| `StoreOpening.LeasesRise` | src/run_store.cpp:1244-1260 | Over every run with crashes only, of two installed manifests the later one has the same leases if its incarnation is the same, and otherwise a larger incarnation and a larger epoch for every block. |
| `StoreOpening.FreshOpen` | src/run_store.cpp:1165-1204 | A directory without manifests starts at sequence 0 and incarnation 1 with every lease epoch 1 and nothing committed. |
| `StoreOpening.TerminalOpen` | src/run_store.cpp:1204-1216 | A complete or failed snapshot is taken over as it is: nothing is installed and no lease is raised. |
| `StoreOpening.NothingSelectable` | src/run_store.cpp:1154-1163 | With manifests of which none is valid, open gives up and touches nothing. |
| `StoreOpening.MetadataDecides` | src/run_store.cpp:1120-1153 | Open gets past the metadata exactly when it is the run's own, and writes it exactly in an empty store. |
| `StoreOpening.ForeignRunIsUntouched` | src/run_store.cpp:1120-1153 | Whatever processes are started on a directory of another run, or with missing or unreadable metadata, none gets past the metadata and no result or manifest is added, removed or changed. |
| `StoreOpening.NamesHaveNoGaps` | src/run_store.cpp:1216-1226 | In every run, decayed or not, the manifest numbers on disk are consecutive from zero. |
| `StoreOpening.TemporariesAreGone` | src/run_store.cpp:395-421 | In every run a process that is past the temporary files leaves none behind but the one it is writing. |
| `StoreOutcome.OutcomeCounts` | src/runtime/engine.cpp:640-664 | In every run, decayed or not: a process that finishes reports as recovered the committed rows of the snapshot it selected, as computed the result files it has installed since, and the sequence number and incarnation of an installed manifest, the newest one unless it took over the selected snapshot unchanged. |
| `StoreOutcome.OutcomeIsNewest` | src/runtime/engine.cpp:640-664 | With crashes only that manifest is the newest one and complete. |
| `StoreFailure.FatalDeliveryLeaves` | src/runtime/engine.cpp:576-606 | A message that is neither accepted nor benign ends the process and leaves exactly one more manifest: failed, naming every received block, with the status, the message's lease and checksum as observed and the table's checksum as committed. |
| `StoreFailure.CorruptionStopsTheRun` | src/runtime/engine.cpp:576-606 | A message of this run for one of its blocks whose payload contradicts its checksum always stops the process and is recorded as corrupt. |
| `StoreFailure.TerminalIsFinal` | src/runtime/engine.cpp:530-540 | Once the newest manifest is complete or failed, no sequence of processes and crashes installs another manifest or waits for results, and behind a failed one none ever finishes. |
| `StoreCheckpoint.CheckpointWhenDue` | src/runtime/engine.cpp:616-629 | In every run, after an accepted result a checkpoint is installed exactly when as many result files as the configured interval are unnamed and a block is missing; it is the next running manifest and names exactly the received blocks. |
| `StoreCheckpoint.CheckpointExactly` | src/run_store.cpp:1370-1448 | On an arbitrary memory, consistent or not, checkpoint goes through exactly for a running store with the coordinator of its run and incarnation, evidence for every received block, no missing block if complete, a failure record exactly if failed, and a sequence number left. |
| `StoreCheckpoint.CheckpointContains` | src/run_store.cpp:1400-1448 | What it then writes: the store's identity and leases, the next sequence number, and as rows exactly the received durable results. |
| `StoreCheckpoint.SameBytesExactly` | src/run_store.cpp:601-617 | Writing over an existing file succeeds exactly when that changes nothing. |
| `StoreCheckpoint.ConflictStops` | src/run_store.cpp:601-617 | In any state a taken name lets the process go on exactly if writing again would change nothing; otherwise it gives up, and the file stays. |
| `StoreCheckpoint.RecordDecides` | src/run_store.cpp:1345-1368 | In any memory record_result gives up exactly on messages it does not allow and on a block with other evidence, takes the same evidence silently, and otherwise writes the result under its block, incarnation and epoch. |
| `StoreCheckpoint.InstalledAlone` | src/run_store.cpp:601-727 | A free name is taken by the new file and no other file changes. |
| `StoreTheorems.DiskStaysValid` | src/run_store.cpp:792-977 | With crashes only, every installed manifest passes validate_manifest_snapshot in every reachable state; commit sets carry over; two manifests of one incarnation have equal lease epochs and a later incarnation has raised every epoch; only a running manifest has a successor; the newest manifest is the one recovery selects. |
| `StoreLostWork.LostWorkIsBounded` | src/runtime/engine.cpp:567-640 | With crashes only, the blocks with a result file that the newest manifest does not name never exceed the largest checkpoint interval that any process of the run so far was configured with, so the next process recomputes at most that many recorded blocks. |
| `StoreLostWork.RunLost` | src/run_store.cpp:1204-1479 | Over every run of crashes and restarts, with another interval in each process, the result files that the newest manifest does not name stay within a bound that covers the intervals used. |
| `StoreTheorems.InstallNeverConflicts` | src/run_store.cpp:601-617 | In every run, decayed or not, the name of a file about to be installed is free, so "already exists with different bytes" cannot happen for results or manifests. |
| `StoreTheorems.CleanupIsExact` | src/run_store.cpp:422-468 | In every run, decayed or not, when open hands over the store a result file is on disk exactly when the recovered snapshot references it. |
| `StoreTheorems.FilesMatchMemory` | src/run_store.cpp:1345-1368 | And it stays exact: in every run, while a process waits for results or has just accepted one, the result files on disk are exactly those of the results it holds. |
| `StoreTheorems.LogIsHistory` | src/run_store.cpp:1205-1275 | The manifest log of the model never forgets or changes an entry: it is the list of every manifest ever installed. |
| `StoreTheorems.IncarnationsStayClose` | src/run_store.cpp:1181-1187 | Every manifest ever installed has an incarnation between 1 and sequence + 1, and incarnations never decrease with the sequence. |
| `StoreTheorems.FreshIncarnation` | src/run_store.cpp:1216-1254 | Exact freshness: the incarnation recovery picks is above that of every manifest ever installed if and only if recovery did not fall back to an older snapshot or some checkpoint (or earlier fallback) has been installed, whichever manifests are unreadable now. |
| `StoreTheorems.VisiblyFresh` | src/run_store.cpp:1216-1254 | A guard that open can evaluate and that guarantees freshness: the selected manifest has the newest name on disk, or its incarnation does not exceed its sequence number. |
| `StoreTheorems.IncarnationCanRepeat` | docs/R2_DURABLE_RECOVERY.md:75-78 | The documented claim that the sequence high-water mark always prevents a collision is false: for every run there is a history of two processes and one unreadable recovery manifest after which recovery picks an incarnation that an installed manifest already has. |
| `StoreTheorems.CompletedRunIsReloaded` | src/run_store.cpp:1204-1216 | A completed run is loaded as it is: the next process comes to cleanup with the same disk, and its result reports every block as recovered, none as computed, and the sequence number, incarnation and aggregate of the manifest it found. |
| `StoreProgress.NeverWedged` | src/run_store.cpp:1063-1281 | No crash point wedges the store: with crashes only, from every reachable state whose newest manifest is not a failure and leaves 64-bit identities to continue with, some continuation finishes. |
| `StoreProgress.ServingFinishes` | src/runtime/engine.cpp:567-640 | From any serving state, delivering the missing blocks one by one, with the checkpoints that fall due, reaches a finished run. |
| `DurableEngine.AnyOrderFinishes` | src/runtime/engine.cpp:571-664 | From any reachable serving state, decayed files or not, every sequence of current results that brings each missing block at least once, in any order and with any repetition, finishes the run in the present process with the fixed-tree result. |
| `DurableEngine.CurrentIsClassified` | src/runtime/coordinator.cpp:68-133 | A result computed for one of the store's leases is accepted if its block is missing and is a duplicate otherwise. |
| `DurableEngine.ConsumerFollowsEngine` | src/runtime/engine.cpp:571-629 | In every reachable state of the concurrent engine started for a store, after every schedule and whatever throws, the durable consumer that has seen the same completions is still serving, with the same received bitmap and leaves. |
| `DurableEngine.StoreStarts` | src/runtime/engine.cpp:536-577 | The engine can be started for every store that misses a block. |
| `DurableEngine.EveryScheduleFinishes` | src/runtime/engine.cpp:521-664 | For every worker count, queue capacities and fault-free schedule that cannot be continued, the engine has returned without an error and the durable consumer fed with its completions finishes with the fixed-tree reduction of every block's own aggregate. |
| `StoreProgress.HonestAccepted` | src/runtime/coordinator.cpp:68-133 | A result computed under the current lease for a block not yet received is accepted. |
| `StoreProgress.MetadataRun` | src/run_store.cpp:1124-1153 | Without decay the metadata on disk is the run's own, and nothing is on disk before it. |
| `StorePreservation.AcceptedIsHonest` | src/run_store.cpp:1305-1344 | An accepted message carries the aggregate its block determines, holds the current lease of a block without durable evidence. |
| `StorePreservation.RecordedExactly` | src/run_store.cpp:1305-1344 | The two independent checks agree: record_result lets through exactly the messages that pass every check of validate_result under the current lease. |
| `StorePreservation.CheckpointFindsEvidence` | src/run_store.cpp:1414-1439 | In every reachable store each received leaf has matching durable evidence, and un-received leaves are empty, so checkpoint names exactly the durable results. |
| `StorePreservation.CheckpointIsValid` | src/run_store.cpp:1400-1469 | The manifest that checkpoint builds passes snapshot validation against the disk. |
| `StorePreservation.OpenedUniverseIsCanonical` | src/runtime/engine.cpp:536-541 | The block universe open hands over is one that make_coordinator_state accepts. |
| `StorePreservation.RecoverInstallOK` | src/run_store.cpp:1205-1260 | The recovery manifest has a free name, is valid, fits the history and extends the newest manifest: same commit set, a larger incarnation and a larger epoch for every block. |
| `StoreMachine.LatestSelectable` | src/run_store.cpp:879-937 | The selected sequence number is the largest one whose manifest is valid; none is selected exactly when none is valid. |
| `DurableRun.DurableRunStore.AtomicWrite` | src/run_store.cpp:601-727 | An existing file is accepted only with the same bytes (exactly when installing it again would change nothing, SameBytesExactly) and left alone; otherwise the file is installed and nothing else changes (InstalledAlone). |
| `DurableRun.DurableRunStore.RecordResult` | src/run_store.cpp:1345-1368 | A message that fails one of the checks of record_result is refused; evidence that is already there is accepted silently exactly when checksum and lease are the same; otherwise the record is installed under (block, incarnation, epoch) and remembered. |
| `DurableRun.DurableRunStore.Checkpoint` | src/run_store.cpp:1370-1479 | The manifest is installed first and the memory follows; where the checks refuse, nothing changes. |
| `DurableRun.DurableRunStore.Consume` | src/runtime/engine.cpp:575-629 | The consumer of run_parallel_durable on live fields takes exactly the machine's uninterrupted steps for a message and keeps the invariant; CorruptionStopsTheRun, FatalDeliveryLeaves and BenignExactly say which messages end the run and what they leave. |
| `DurableRun.DurableRunStore.Finish` | src/runtime/engine.cpp:630-664 | The end of the run returns a result exactly when the machine finishes: the fixed-tree reduction of every block's own aggregate, the rows recovered at open, the results accepted since, and the sequence number and incarnation of the complete manifest that it leaves on disk. |
| `DurableRun.RunParallelDurable` | src/runtime/engine.cpp:571-664 | Whatever deliverable messages arrive in whatever order, a result that is returned is the fixed-tree reduction; it reports as recovered the blocks received at the start (less those this process had computed), as computed the rest, and names a complete manifest on disk. |
| `DurableRun.DeliveredIsRun` | src/runtime/engine.cpp:575-629 | An uninterrupted delivery is a run of the machine without crash, restart or decay. |
| `DurableRun.EndedIsRun` | src/runtime/engine.cpp:630-640 | So is the uninterrupted end of the block loop. |
| `Snapshot.MakeManifestFromResults` | src/run_store.cpp:939-977 | The loop builds the lease table, the committed rows in block order and the tree aggregate of the given results. |
| `Snapshot.EntriesAreTheTable` | src/run_store.cpp:955-970 | A row is in the committed table exactly when it describes one of the present results. |
| `Snapshot.EntriesIncrease` | src/run_store.cpp:955-970 | The committed rows are strictly increasing in block id. |
| `Snapshot.BuiltSnapshotIsValid` | src/run_store.cpp:792-877 | A manifest built from honest leased results that are on disk passes validation. |
| `Snapshot.LoadedIsTheTable` | src/run_store.cpp:792-877 | What validation loads from such a manifest is the table it was built from. |
| `Snapshot.LoadedIsGood` | src/run_store.cpp:792-877 | Recovery from any valid snapshot of an honest disk yields honest results in their places, whatever other files say. |
| `Snapshot.SnapshotStable` | src/run_store.cpp:792-877 | Validity of a snapshot depends only on the files it references. |
| `Snapshot.ValidExactly` | src/run_store.cpp:792-877 | On arbitrary directories validation passes if and only if the snapshot has this run's header and records results that are on disk, that the coordinator itself would accept from the holders of their leases, under leases not ahead of the snapshot's. |
| `Snapshot.LoadedWouldBeAccepted` | src/run_store.cpp:792-877 | Recovery takes over nothing that the coordinator would not have accepted, whatever the result files say. |
| `Snapshot.TamperEvident` | src/run_store.cpp:792-877 | Two directories that back the same manifest agree on every block and aggregate, unless two aggregates have the same SHA-256. |
| `RunStoreLoops.ValidateManifestSnapshot` | src/run_store.cpp:792-877 | The validation loop with its early exits returns the loaded results exactly when the snapshot predicate holds. |
| `RunStoreLoops.SortCandidates` | src/run_store.cpp:886-911 | The candidates come out in descending order and are a permutation of the names found. |
| `RunStoreLoops.LoadLatestValidManifest` | src/run_store.cpp:879-937 | The newest-first scan returns the latest selectable manifest and the highest sequence seen. |
| `RunStoreLoops.RemoveOrphanBlockResults` | src/run_store.cpp:422-468 | After the directory pass a canonically named result file is present exactly when it was present and is not an orphan of the snapshot; no other name is touched. |
| `RunStoreLoops.CollectRows` | src/run_store.cpp:1414-1439 | The checkpoint loop over the received bitmap succeeds exactly when every received leaf has matching evidence, and yields the lease table and committed rows. |
| `RunStoreLoops.BuildCheckpoint` | src/run_store.cpp:1370-1448 | The body of checkpoint up to the write yields the manifest of the state machine, or refuses in exactly the same cases. |
| `Filenames.FieldRoundTrip` | src/run_store.cpp:120-125 | A padded field parses to v exactly when it is the 20-digit zero-padded decimal form of v, for every 64-bit v. |
| `Filenames.ManifestNameRoundTrip` | src/run_store.cpp:166-199 | A file name parses as manifest v exactly when it is the name printed for v. |
| `Filenames.BlockNameRoundTrip` | src/run_store.cpp:172-244 | A file name parses to (block, incarnation, epoch) exactly when it is the name printed for them. |
| `Filenames.FirstManifestName` | docs/R2_DURABLE_RECOVERY.md:7-17 | Manifest 0 is named as the storage layout documents it. |
| `Filenames.BlockNameReads` | src/run_store.cpp:172-178 | Which of the three numbers stands where in the name, between which literals. |
| `Filenames.FirstBlockName` | docs/R2_DURABLE_RECOVERY.md:7-17 | So is the result of block 0 under the first lease. |
| `StoreCodec.ManifestsSurviveAsBytes` | src/persistence_codec.cpp:518-711 | Every manifest on disk after any crashes, of running, complete and failed runs, is readable, is accepted by the encoder, and decodes from its bytes to itself under every limit of at least 512 + 64 N bytes (for a failed run, plus the longest reason). Assumes the current statistics schema, that merge keeps aggregates well formed and that the coordinator explains a rejection within 4096 bytes. |
| `StoreCodec.SnapshotWellFormed` | src/run_store.cpp:792-877 | A valid snapshot has a well-formed aggregate, because merge keeps well-formedness up the tree. |
| `StoreCodec.RunReason` | src/run_store.cpp:1400-1448 | In every run the reasons of failed manifests, on disk or about to be installed, stay within the codec's 4096 bytes if the coordinator's explanations do. |
| `StoreCodec.NamedRecordsSurviveAsBytes` | src/persistence_codec.cpp:459-516 | Every result file that an installed manifest names is present and decodes from its encoding to itself. |
| `Coordinator.CommittedNeverChanges` | src/runtime/coordinator.cpp:68-148 | Over every finite sequence of arbitrary messages a committed checksum never changes. |
| `Coordinator.PassingExactly` | src/runtime/coordinator.cpp:119-133 | Among the messages that pass the run, generation, block, aggregate and payload checks: Duplicate exactly if the committed checksum is the message's, DeterminismError exactly if it is another one, StaleLease exactly if nothing is committed and the epoch differs, Accepted exactly if it agrees. |
| `Coordinator.CorruptPayloadExactly` | src/runtime/coordinator.cpp:113-116 | CorruptPayload is answered exactly if all earlier checks pass and the payload's hash is not the checksum. |
| `Coordinator.RefusalsExactly` | src/runtime/coordinator.cpp:68-112 | Every other refusal is answered exactly if its condition is the first one that fails. |
| `Coordinator.BenignExactly` | src/runtime/coordinator.cpp:143-148 | A rejection is benign exactly for duplicates of the committed payload for messages of another incarnation and for sound messages under another lease; a payload that contradicts its checksum is ignored only from another incarnation. |
| `Coordinator.LaterMessageIsClassified` | src/runtime/coordinator.cpp:68-133 | Once a message for a block has been accepted, every later message for it that passes the identity, range and payload checks is a duplicate or a determinism error according to its checksum, whatever arrived in between. |
| `Coordinator.HonestDeliverySettles` | src/runtime/coordinator.cpp:135-148 | Honest messages commit exactly the blocks for which one of them is current, with the checksum the block determines. |
| `Coordinator.DeliveryOrderIrrelevant` | src/runtime/coordinator.cpp:135-148 | Honest deliveries of the same messages in any order and multiplicity commit the same table. |
| `Coordinator.MakeCoordinatorState` | src/runtime/coordinator.cpp:12-66 | The contiguity loop accepts exactly the canonical block universes of the layout (both directions) and starts with an empty table. |
| `Coordinator.CoordinatorObject.Commit` | src/runtime/coordinator.cpp:135-142 | commit_result classifies against the old state, each status under the exact condition given by PassingExactly, CorruptPayloadExactly and RefusalsExactly, and records the checksum in place exactly on acceptance. |
| `Blocks.MakeBlocks` | src/runtime/engine.cpp:417-441 | The loop succeeds exactly on valid layouts within the limit and yields the blocks of the layout in order. |
| `Blocks.StartInRange` | src/runtime/engine.cpp:433-438 | Every product the loop forms stays below the scenario count, so nothing wraps. |
| `Blocks.BlocksPartition` | src/runtime/engine.cpp:433-438 | The blocks are consecutive from 0 to the scenario count. |
| `Blocks.ScenarioInOneBlock` | src/runtime/engine.cpp:433-438 | Every scenario lies in exactly one block. |
| `Blocks.BlocksRespectPairs` | src/runtime/engine.cpp:433-438 | With antithetic sampling no block splits a pair. |
| `Blocks.BlockSizes` | src/runtime/engine.cpp:433-438 | Every block but the last has the configured size, and the last has what remains. |
| `Blocks.ObservationsAddUp` | src/runtime/coordinator.cpp:12-66 | The observations expected of the blocks add up to those of the run: the scenarios, or the pairs with antithetic sampling. |
| `Reduction.ReduceBlockResults` | src/runtime/engine.cpp:447-466 | For any binary operator, associative or not, the level-by-level loop equals the recursive tree that splits at the largest power of two below the number of leaves. |
| `Reduction.TreeOfLevel` | src/runtime/engine.cpp:452-464 | One level of pairwise merges leaves the tree unchanged, for any operator. |
| `Reduction.SplitPointIsPowerOfTwo` | src/runtime/engine.cpp:447-466 | The split point is a power of two. |
| `Reduction.TreeIsSequential` | src/runtime/engine.cpp:447-466 | For every associative operator, commutative or not, the tree is the left-to-right merge of the leaves. |
| `Reduction.MissingLeavesAreNeutral` | src/aggregation/aggregate.cpp:91-96 | With the empty aggregate as identity, missing leaves leave the merges of the present ones as they are. |
| `Queues.BoundedQueue.Push` | include/mc/bounded_queue.hpp:29-48 | A push into an open queue appends, into a closed one is refused; over its life the queue delivers a prefix of what it accepted, in order. |
| `Queues.BoundedQueue.Pop` | include/mc/bounded_queue.hpp:50-65 | A pop takes the oldest item; it fails only on a closed queue from which everything accepted has been delivered. |
| `Queues.BoundedQueue.Close` | include/mc/bounded_queue.hpp:67-72 | Closing keeps the items. |
| `Engine.PendingIndices` | src/runtime/engine.cpp:150-159 | The loop lists the missing indices in block order. |
| `EngineBounds.PendingIsOrdered` | src/runtime/engine.cpp:150-159 | They are strictly increasing. |
| `EngineBounds.BoundedMemory` | src/runtime/engine.cpp:163-176 | Under every schedule there are as many workers as configured or as blocks are missing, whichever is less, neither queue exceeds its capacity (the configured one, or two places per worker), and the queue of assignments holds consecutive missing blocks in block order. |
| `EngineBounds.FirstErrorIsKept` | src/runtime/engine.cpp:186-195 | The first recorded error is never replaced, under every schedule. |
| `EngineBounds.ErrorStopsEverybody` | src/runtime/engine.cpp:186-195 | In every reachable state with an error, both queues are closed or the failing thread is just closing them. |
| `EngineTheorems.RunInv` | src/runtime/engine.cpp:138-387 | The engine invariant (queue closings, worker counter, conservation of blocks, consumer tables) holds after every schedule, whatever throws. |
| `EngineTheorems.NoDeadlock` | src/runtime/engine.cpp:212-371 | In every reachable state, also while an error is closing the queues, the call has returned or some thread can take its next step. |
| `EngineTheorems.StepDecreases` | src/runtime/engine.cpp:212-371 | Every step of every thread decreases a measure over unscheduled, queued, held and completed blocks and thread positions. |
| `EngineTheorems.EveryRunTerminates` | src/runtime/engine.cpp:138-387 | No schedule takes more than 6P + 8W + 8 steps for P missing blocks and W workers, and one that cannot be continued has returned. |
| `EngineTheorems.AtMostOnce` | src/runtime/engine.cpp:138-387 | Whatever fails and when, no block is consumed twice and none that was already received. |
| `EngineTheorems.ScheduleIndependence` | src/runtime/engine.cpp:138-387 | For every interleaving, worker count and queue capacity, an error-free return has consumed each missing block exactly once and left the consumer's tables as a sequential pass would. |
| `EngineTheorems.ParallelEqualsSequential` | src/runtime/engine.cpp:468-519 | run_parallel without an error reduces to the sequential fixed tree over block order. |
| `EngineTheorems.NoSpuriousErrors` | src/runtime/engine.cpp:488-503 | If nothing throws and the kernel is sound, the coordinator accepts every result, so no schedule records an error. |
| `EngineTheorems.FaultFreeRunSucceeds` | src/runtime/engine.cpp:138-387 | A fault-free schedule that cannot be continued has returned with every block received. |
| `EngineSafety.SomeoneElseActive` | src/runtime/engine.cpp:280-282 | The worker that does not take the counter to zero leaves another one behind, so the last to leave closes the completions. |
| `Crc32c.Crc32cRange` | src/persistence_codec.cpp:46-54 | For every byte string the table-driven loop yields the complemented remainder of schoolbook division of the message polynomial by the Castagnoli generator of section 12.1 of RFC 3720. |
| `Crc32c.MakeTable` | src/persistence_codec.cpp:29-44 | Entry i of the table is the register i after eight bit steps. |
| `Crc32c.PolynomialIsGenerator` | src/persistence_codec.cpp:36 | The constant 0x82F63B78 is the reflected generator, term by term. |
| `Crc32c.KnownAnswer` | tests/test_main.cpp:1162-1166 | The checksum of the nine digits is 0xE3069283. |
| `Crc32c.RegisterDivides` | src/persistence_codec.cpp:46-54 | The bit-at-a-time register computes the remainder of polynomial long division. |
| `Crc32c.TableStep` | src/persistence_codec.cpp:48-52 | One table lookup does the work of eight bit steps. |
| `Crc32c.SealedIffResidue` | src/persistence_codec.cpp:201-213 | A string ends in its own checksum exactly when the register over all of it ends in one fixed residue. |
| `Crc32c.BurstDetected` | src/persistence_codec.cpp:201-213 | Any change confined to 32 consecutive bits of a sealed string of any length, the stored checksum included, breaks the seal. |
| `Crc32c.ByteChangeDetected` | src/persistence_codec.cpp:201-213 | Any change confined to four consecutive bytes breaks the seal. |
| `Codec.OpenOfMake` | src/persistence_codec.cpp:171-218 | Opening a freshly made envelope that fits the limit yields its payload. |
| `Codec.MakeOfOpen` | src/persistence_codec.cpp:184-218 | Every envelope that opens is the one made from its payload. |
| `Codec.EnvelopeDetectsChange` | src/persistence_codec.cpp:184-218 | Changing any bytes within four consecutive positions of an accepted envelope always makes open_envelope reject it. |
| `Codec.StatusCodes` | src/persistence_codec.cpp:287-366 | Storage codes and statuses correspond one to one. |
| `Layouts.EnvelopeLayout` | src/persistence_codec.cpp:171-182 | Byte by byte, without serializer or parser: magic, the number 1, the payload's length, the payload and the CRC of everything before, numbers least significant byte first. |
| `Layouts.EmptyIsZeros` | src/aggregation/aggregate.cpp:52-57 | The empty aggregate is encoded in its canonical zero form. |
| `Layouts.RecordLayout` | src/persistence_codec.cpp:459-486 | A block result is 296 bytes with the magic MCR2BLK_ and every field at its offset. |
| `Layouts.ManifestLayout` | src/persistence_codec.cpp:562-609 | A manifest has the magic MCR2MAN_, every header field, lease epoch and committed row at its offset, the aggregate, the failure flag and details, and the numeric status codes of the storage schema. |
| `Codec.AggregateField` | src/codec.cpp:80-101 | An encoded aggregate decodes to itself. |
| `Codec.AggregateExact` | src/persistence_codec.cpp:266-285 | Every accepted aggregate payload is the encoding of its value. |
| `RecordCodec.BlockRecordRoundTrip` | src/persistence_codec.cpp:459-516 | Every record the encoder accepts takes 296 bytes, within 512, and decodes to itself. |
| `RecordCodec.BlockRecordCanonical` | src/persistence_codec.cpp:488-516 | Every accepted record string is the encoding of its record. |
| `RecordCodec.IdsFit` | src/persistence_codec.cpp:655-660 | Strictly increasing block ids below n number at most n. |
| `RecordCodec.EntriesField` | src/persistence_codec.cpp:655-682 | A canonical committed table parses back from its bytes. |
| `RecordCodec.EntriesExact` | src/persistence_codec.cpp:655-682 | What parses as a committed table is canonical and the bytes are its encoding. |
| `ManifestCodec.ManifestRoundTrip` | src/persistence_codec.cpp:518-711 | Every manifest the encoder accepts and whose bytes fit the limit decodes back to itself. |
| `ManifestCodec.ManifestCanonical` | src/persistence_codec.cpp:612-711 | Every byte string the decoder accepts with the current statistics schema re-encodes to the same bytes. |
| `ManifestCodec.ReencodesIffCurrentSchema` | src/persistence_codec.cpp:612-711 | Of what the decoder accepts, the encoder reproduces the bytes if and only if the statistics schema is the current one. |
| `ManifestCodec.ForeignSchemaDecodes` | src/persistence_codec.cpp:612-711 | Manifests with another schema do decode, and the encoder refuses them. |
| `ManifestCodec.ManifestSize` | src/persistence_codec.cpp:562-609 | The exact encoded size: at most 512 + 64 N, and for a failed run the longest reason more. |
| `ManifestCodec.EncoderAcceptsExactly` | src/persistence_codec.cpp:518-561 | The encoder accepts exactly the manifests that meet the rules, one by one, and have statistics schema 1; a complete manifest names every block. |
| `ManifestCodec.DecodedMeetsRules` | src/persistence_codec.cpp:612-711 | Whatever bytes the decoder accepts, the manifest it returns meets the same rules, and no more than limit bytes were read. |
| `CodecLoops.AppendLE` | src/persistence_codec.cpp:56-70 | The shifting loop appends the low-order bytes, least significant first. |
| `CodecLoops.Reader.Number` | src/persistence_codec.cpp:101-120 | The shift-and-or loop reads the little-endian value, or refuses a short payload. |
| `CodecLoops.ReadEpochs` | src/persistence_codec.cpp:641-653 | The lease loop agrees with the parser on value, remaining bytes and refusal. |
| `CodecLoops.ReadEntries` | src/persistence_codec.cpp:655-682 | The committed-table loop with its running previous id agrees with the parser. |
| `CodecLoops.ReadAggregate` | src/persistence_codec.cpp:266-285 | The nested reader over the length-prefixed aggregate agrees with the parser. |
| `CodecLoops.ReadFailure` | src/persistence_codec.cpp:686-700 | The failure details, including the bounded string, agree with the parser. |
| `CodecLoops.OpenEnvelopeBytes` | src/persistence_codec.cpp:184-218 | open_envelope, reader and CRC loop included, accepts exactly the envelopes of the specification. |
| `CodecLoops.MakeEnvelopeBytes` | src/persistence_codec.cpp:171-182 | make_envelope appends header, length, payload and checksum. |
| `CodecLoops.DecodeManifestBytes` | src/persistence_codec.cpp:612-711 | The imperative decoder equals the specification decoder on every byte string and limit. |
| `CodecLoops.CheckEntries` | src/persistence_codec.cpp:539-556 | Comparing neighbours accepts exactly the canonical, strictly increasing tables. |
| `CodecLoops.EncodeManifestBytes` | src/persistence_codec.cpp:518-610 | The imperative encoder equals the specification encoder, refusals included. |
| `Preflight.PreflightSuffices` | src/run_store.cpp:503-576 | If the completion estimate of open passes, none of the remaining writes meets the byte, file-count, manifest-size or free-space limit. |
| `Preflight.EstimateExactly` | src/run_store.cpp:503-552 | The estimate with its overflow checks passes if and only if a full manifest fits its limit and the exact totals keep every limit. |
| `Preflight.LimitsAreEnforced` | src/run_store.cpp:554-576 | Whatever is written, in whatever order: if all of it goes through, bytes, files, free space and manifest sizes are within the limits, and a write is refused only if it would break one of them. |
| `Preflight.CountIsLeast` | src/run_store.cpp:1138-1146 | The number of checkpoints the estimate allows for is the least one that covers the missing blocks. |
| `Preflight.CadenceIsLeast` | src/run_store.cpp:489-501 | The automatic cadence is the least one from 1024 blocks on with at most 1024 checkpoints in a whole run. |
| `StorePreflight.LoopWritesFollow` | src/runtime/engine.cpp:575-640 | In every run of the consumer that finishes, whatever messages arrive in whatever order, the artifacts the state machine installs follow the write order that the estimate counts, and the encoders accept each of them. |
| `StorePreflight.RunWritesRemain` | src/run_store.cpp:1124-1281 | With the metadata and the manifest of open in front they are the remaining writes of Preflight. |
| `StorePreflight.PreflightCoversRun` | src/run_store.cpp:1138-1260 | Hence, if the estimate that open makes for the store it hands over passes, no artifact that a finishing run of the machine installs is stopped by a storage limit. |
| `Preflight.LoopCounts` | src/runtime/engine.cpp:604-639 | From m missing blocks the consumer writes m records and exactly 1 + (m + p - 1) / interval snapshots, p being the results since the last checkpoint. |
| `Preflight.RemainingCounts` | src/run_store.cpp:1138-1146 | The remaining run writes one record per missing block and at most two snapshots more than the checkpoint count of the estimate. |
| `Preflight.SizeBound` | src/run_store.cpp:511-514 | Every record takes at most 512 bytes and every non-failed manifest at most 512 + 64 N. |
| `Preflight.StorageCounters.AtomicWrite` | src/run_store.cpp:554-576 | A write is refused exactly when it would exceed the byte, file-count or manifest limit or leave less than the configured free space; otherwise bytes, files and free space are advanced by its size. |
| `Preflight.ExecuteWrites` | src/run_store.cpp:601-727 | From counters within the limits, a sequence of writes that goes through leaves bytes, files and free space within them and every manifest within its limit; one that stops had a write that would have broken one of them. |
| `Preflight.CadenceCapsManifests` | src/run_store.cpp:489-501 | The automatic cadence is at least 1024 blocks and caps a run at 1024 checkpoints. |
| `Sha256.Sha256Hasher.Update` | src/hash.cpp:103-127 | Absorbing bytes in any pieces only extends the message; buffer, chain and counter keep standing for it. |
| `Sha256.Sha256Hasher.Finalize` | src/hash.cpp:129-155 | The digest is the fold of the compression function over the message padded as in section 5.1.1 of FIPS 180-4; the hasher is not modified. |
| `Sha256.HashPieces` | src/hash.cpp:103-161 | However a message is cut into update calls, the digest is the one-shot hash of the whole. |
| `Sha256.Sha256OneShot` | src/hash.cpp:157-161 | The one-shot function is the same fold. |
| `Sha256.ZeroCountIsLeast` | src/hash.cpp:135-136 | The padding uses the least number of zero bytes that completes a block. |
| `Sha256.LengthField` | src/hash.cpp:137-141 | Although the byte counter and the shift wrap modulo 2^64, the length field is that of the true length. |
| `Sha256.LengthIsExact` | src/hash.cpp:137-141 | Below 2^61 bytes the length field is the exact bit length. |
| `Sha256.InitialIsSquareRoots` | src/hash.cpp:98-101 | The initial words are the first 32 bits of the fractional parts of the square roots of the first eight primes, as section 5.3.3 of FIPS 180-4 demands. |
| `Sha256.PaddedLayout` | src/hash.cpp:129-142 | The padded message is whole blocks: the message, 0x80, fewer than 64 zeros and eight bytes. |
| `Sha256.DigestIsBigEndian` | src/hash.cpp:147-153 | Each chaining word is four bytes of the digest, most significant first. |
| `Sha256.ShortMessage` | src/hash.cpp:129-155 | The hash of at most 55 bytes is one application of the compression function to the initial words. |
| `Statistics.FoldIsOf` | src/aggregation/aggregate.cpp:10-30 | Over exact reals, adding the observations one by one gives their count, mean, sum of squared deviations, minimum and maximum. |
| `Statistics.MergeIsConcat` | src/aggregation/aggregate.cpp:82-117 | Merging the statistics of two lists gives those of their concatenation. |
| `Statistics.AddIsMerge` | src/aggregation/aggregate.cpp:10-30 | The one-observation update is the merge with a single observation. |
| `Statistics.TreeIsOnePass` | src/runtime/engine.cpp:447-466 | Reducing block aggregates along the fixed tree equals one pass over all observations, for any blocks. |
| `Statistics.OfIsConsistent` | src/aggregation/aggregate.cpp:47-80 | Every aggregate of a list meets invariant_error, with the mean between the extremes even without tolerance. |
| `Statistics.InvariantErrorExactly` | src/aggregation/aggregate.cpp:47-80 | What invariant_error rejects, exactly, case by case, with the tolerance written out. |
| `Statistics.CheckedMergeIsConcat` | src/aggregation/aggregate.cpp:82-117 | merge with its checks fails on aggregates of lists exactly when both are non-empty and the counts overflow. |
| `Statistics.ExtremesBound` | src/aggregation/aggregate.cpp:28-29 | The minimum and maximum are observations and bound every observation. |
| `Statistics.ComputeBlock` | src/runtime/engine.cpp:100-129 | The accumulator loop over a block's observations yields their statistics. |
| `Statistics.Accumulator.Observe` | src/aggregation/aggregate.cpp:10-30 | add updates the five fields in place as specified. |
| `Philox.RoundInverse` | src/rng/philox_rng.cpp:20-39 | Each round has a two-sided inverse for every key. |
| `Philox.RoundsInverse` | src/rng/philox_rng.cpp:43-50 | For every key and any number of rounds the map on 128-bit counters is a permutation with an explicit inverse. |
| `Philox.RoundComputes` | src/rng/philox_rng.cpp:20-39 | What a round computes: each of the two products is split into its low half, which becomes a word, and its high half, which is the other word xored with a source word and the key. |
| `Philox.XorWordBits` | src/rng/philox_rng.cpp:31-38 | The exclusive or of two words, bit by bit. |
| `Philox.Schedule` | src/rng/philox_rng.cpp:43-50 | The key of round i in closed form: both words advanced i times by their Weyl constants modulo 2^32. |
| `Philox.KnownAnswer` | tests/test_main.cpp:302-306 | Counter and key zero give 6627E8D5 E169C58D BC57AC4C 9B00DBD8. |
| `Philox.Philox4x32Ten` | src/rng/philox_rng.cpp:43-50 | The ten-round loop with its key schedule computes Rounds; Schedule gives the key of each round in closed form, RoundComputes what a round does to the words, and KnownAnswer the published vector. |
| `Philox.OrOfFields` | src/rng/philox_rng.cpp:70-77 | The bit fields of a counter word do not overlap. |
| `Philox.PackedFields` | src/rng/philox_rng.cpp:52-77 | Where each coordinate stands in the counter words. |
| `Philox.EveryScenarioHasACounter` | src/rng/philox_rng.cpp:52-68 | Every scenario of every valid layout is an accepted coordinate. |
| `Philox.ScenariosFillTheField` | src/rng/philox_rng.cpp:52-68 | A scenario number belongs to some valid run exactly if it fits the 40 bits of its counter field. |
| `Philox.PackInjective` | src/rng/philox_rng.cpp:52-77 | Packing is injective on the accepted coordinates. |
| `Philox.CoordinatesNeverCollide` | src/rng/philox_rng.cpp:20-77 | Under one seed two different coordinates never share a 128-bit output block. |
| `Sampler.MixInverse` | tools/checkpoint_gate_stats.cpp:41-47 | The output map of splitmix64 is a bijection of the 64-bit words, with an explicit inverse. |
| `Sampler.XorShiftInverse` | tools/checkpoint_gate_stats.cpp:44-46 | x ^ (x >> s) is a permutation of the words. |
| `Sampler.XorShiftBits` | tools/checkpoint_gate_stats.cpp:44-46 | Bit i of x ^ (x >> s) is bit i of x xor bit i + s. |
| `Sampler.KnownAnswer` | tools/checkpoint_gate_stats.cpp:41-47 | The first word from state zero is E220A8397B1DCDAF, the published splitmix64 output. |
| `Sampler.StatesDiffer` | tools/checkpoint_gate_stats.cpp:42 | 2^64 successive states are pairwise different. |
| `Sampler.SampleIndex` | tools/checkpoint_gate_stats.cpp:49-59 | From any state the loop ends after at most 2^64 mod count rejections with the first word that reaches the threshold, reduced modulo count. |
| `Sampler.AcceptedWords` | tools/checkpoint_gate_stats.cpp:49-59 | Every index has exactly floor(2^64 / count) accepted words. |
| `Sampler.EveryIndexEquallyLikely` | tools/checkpoint_gate_stats.cpp:41-59 | Every index is produced on the first draw by exactly floor(2^64 / count) of the 2^64 states. |

## Left out

- Real file-system calls, fsync, flock, directory iteration errors, power loss and torn writes: only visible disk state with atomic rename is modelled.
- Exceptions inside a process other than a crash: an I/O error, or `merge` or an encoder refusing a value, ends the process in the model, and retries after such an error within one process are not modelled.
- Other users of the disk and the file system's own overhead: `Preflight` compares with the space that this run leaves.
- `DurableRunStore::open` is a sequence of machine steps on values with its loops as methods in `RunStoreLoops`; only record_result, checkpoint and the consumer are also methods of a class. Move construction and aliasing of the store are not captured.
- Failure to create a thread (src/runtime/engine.cpp:285-293 and 317-324) and memory-model effects weaker than atomic steps.
- The metadata file's own encoding and the run specification payload: fixed fields in the same style as the records.
- StoreCodec.ManifestsSurviveAsBytes: assumes that merge keeps aggregates well formed, which the source tests on every merge and binary64 arithmetic decides, and that explanations of rejections fit the codec's limit, which most do as fixed short texts; a limit below the stated bound may still refuse a failed run's manifest.
- StoreProgress.NeverWedged: assumes a kernel whose aggregates are well formed with the expected counts, and identities that are not exhausted; its continuation may restart the process first, while `DurableEngine.AnyOrderFinishes` and `DurableEngine.EveryScheduleFinishes` stay in the present one under the same assumptions.
- Statistics.Accumulator.Observe: does not model binary64 rounding, the finiteness test or wrap-around of the observation count, because the algebra is over exact reals.
- GBM and Heston kernels, payoffs, inverse normal CDF and quadrature: floating-point numerics, a parameter here.
- The compression function of SHA-256 and any collision-resistance claim: an arbitrary function here.
- The result's worker count, scenario counts and `resumed` flag, which copy inputs.
- Metrics, timers, benchmark drivers, the remaining gate statistics, command line, JSON and the replay descriptor: plumbing that would only add easy members.
