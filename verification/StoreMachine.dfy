/** The durable run as a state machine over its visible steps: open, record_result, checkpoint and the
    consumer of run_parallel_durable, with crashes and decaying files in between
    (src/run_store.cpp, src/runtime/engine.cpp). */
module StoreMachine {
  import opened Types
  import opened Blocks
  import opened Coordinator
  import opened Reduction
  import opened Snapshot

  /** Process memory: DurableRunStore together with the locals of run_parallel_durable. */
  datatype Store = Store(
    sequence: u64, incarnation: u64, status: RunStatus,
    committed: Table,             // recovery_state_.committed_results
    durable: Table,               // durable_results_
    coordinator: CoordinatorState,
    leaves: seq<AggregateStats>, received: seq<bool>,
    recovered: nat, computed: nat, pending: nat,
    interval: u64)                // checkpoint_interval_blocks of this process

  datatype Outcome = Outcome(
    aggregate: AggregateStats, blockCount: nat, sequence: u64, incarnation: u64,
    recovered: nat, computed: nat)

  /** How far atomic_write has come. */
  datatype Stage = Unwritten | Written(nonce: nat) | Renamed

  /** What happens in memory once a file is installed. */
  datatype Continuation =
    | ToLoad
    | ToCleanup(recovering: Store)
    | ToAccepted(accepted: Store)
    | ToServing(checkpointed: Store)
    | ToFinish(final: Store)
    | ToFailure

  datatype Phase =
    | Down
    | RemoveTemporaries
    | CheckMetadata
    | LoadManifest
    | Install(artifact: Artifact, stage: Stage, slack: bool, next: Continuation)
    | Cleanup(recovering: Store)
    | Serving(store: Store)
    | ResultAccepted(store: Store)
    | Finished(outcome: Outcome)

  /** What was installed under a manifest name. slack marks a checkpoint, or a recovery that had to
      fall back to an older snapshot. */
  datatype LogEntry = LogEntry(incarnation: u64, slack: bool)

  /** interval is the configuration of the present process. log and pristine are history variables: every
      manifest ever installed, and whether every installed file is still as it was written. */
  datatype State = State(
    disk: Disk, phase: Phase, interval: u64, log: map<u64, LogEntry>, pristine: bool)

  datatype Action =
    | Start(interval: u64)
    | Crash
    | SpoilMetadata
    | SpoilResult(key: ResultKey)
    | SpoilManifest(sequence: u64)
    | DropTemporary(nonce: nat)
    | CreateTemporary(nonce: nat)
    | DropOrphan(key: ResultKey)
    | Deliver(message: BlockResult)
    | Advance

  const EMPTY_DISK := Disk(None, map[], map[], map[])

  function Init(): State
  {
    State(EMPTY_DISK, Down, 1, map[], true)
  }

  // ---------------------------------------------------------------- atomic_write

  predicate Exists(d: Disk, a: Artifact)
  {
    match a
    case MetadataFile(_) => d.metadata.Some?
    case ResultFile(record) => KeyOf(record.result) in d.results
    case ManifestFile(m) => m.sequence in d.manifests
  }

  predicate SameBytes(d: Disk, a: Artifact)
    requires Exists(d, a)
  {
    match a
    case MetadataFile(x) => d.metadata.value == Readable(x)
    case ResultFile(record) => d.results[KeyOf(record.result)] == Readable(record)
    case ManifestFile(m) => d.manifests[m.sequence] == Readable(m)
  }

  function Installed(d: Disk, a: Artifact): Disk
  {
    match a
    case MetadataFile(x) => d.(metadata := Some(Readable(x)))
    case ResultFile(record) => d.(results := d.results[KeyOf(record.result) := Readable(record)])
    case ManifestFile(m) => d.(manifests := d.manifests[m.sequence := Readable(m)])
  }

  ghost predicate IsHighest(names: set<u64>, h: u64)
  {
    h in names && forall n :: n in names ==> n <= h
  }

  /** The largest sequence number among the manifest names. */
  ghost function Highest(names: set<u64>): (h: u64)
    requires names != {}
    ensures IsHighest(names, h)
  {
    HighestExists(names);
    var h :| IsHighest(names, h);
    h
  }

  lemma {:induction false} HighestExists(names: set<u64>)
    requires names != {}
    ensures exists h :: IsHighest(names, h)
  {
    var x :| x in names;
    if names == {x} {
      assert IsHighest(names, x);
    } else {
      var rest := names - {x};
      HighestExists(rest);
      var h :| IsHighest(rest, h);
      assert forall n :: n in names ==> n == x || n in rest;
      assert IsHighest(names, if h < x then x else h);
    }
  }

  // ---------------------------------------------------------------- open

  ghost function SelectableSet(w: World, d: Disk): set<u64>
    requires ValidLayout(w.layout)
  {
    set x | x in d.manifests && Selectable(w, d, x)
  }

  /** load_latest_valid_manifest: the highest-numbered manifest that is still valid. */
  ghost function LatestSelectable(w: World, d: Disk): (r: Option<u64>)
    requires ValidLayout(w.layout)
    ensures r.Some? ==> Selectable(w, d, r.value)
    ensures r.Some? ==> forall x :: x in d.manifests && Selectable(w, d, x) ==> x <= r.value
    ensures r.None? ==> forall x :: x in d.manifests ==> !Selectable(w, d, x)
  {
    var valid := SelectableSet(w, d);
    if valid == {} then
      assert forall x :: x in d.manifests && Selectable(w, d, x) ==> x in valid;
      None
    else
      assert forall x :: x in d.manifests && Selectable(w, d, x) ==> x in valid;
      Some(Highest(valid))
  }

  function LeasedBlocks(w: World, incarnation: u64, epochs: seq<u64>): (s: seq<ScenarioBlock>)
    requires ValidLayout(w.layout) && |epochs| == N(w)
    ensures |s| == N(w)
    ensures forall i :: 0 <= i < N(w) ==> s[i] == Block(w.layout, i, incarnation, epochs[i])
  {
    seq(N(w), i requires 0 <= i < N(w) => Block(w.layout, i, incarnation, epochs[i]))
  }

  function CountTrue(s: seq<bool>): nat
  {
    if |s| == 0 then 0 else CountTrue(s[..|s| - 1]) + if s[|s| - 1] then 1 else 0
  }

  function PayloadsOf(results: Table): (s: seq<Option<Digest>>)
    ensures |s| == |results|
    ensures forall i :: 0 <= i < |s| ==>
      s[i] == if results[i].Some? then Some(results[i].value.checksum) else None
  {
    seq(|results|, i requires 0 <= i < |results| =>
      if results[i].Some? then Some(results[i].value.checksum) else None)
  }

  function ReceivedOf(results: Table): (s: seq<bool>)
    ensures |s| == |results|
    ensures forall i :: 0 <= i < |s| ==> s[i] == results[i].Some?
  {
    seq(|results|, i requires 0 <= i < |results| => results[i].Some?)
  }

  /** The memory of a process that has opened the store, before it consumes any result. */
  function Opened(
    w: World, sequence: u64, incarnation: u64, status: RunStatus, epochs: seq<u64>,
    results: Table, interval: u64): Store
    requires ValidLayout(w.layout) && |epochs| == N(w)
  {
    Store(sequence, incarnation, status, results, results,
          CoordinatorState(w.identity, incarnation, w.layout.antithetic,
                           LeasedBlocks(w, incarnation, epochs), PayloadsOf(results)),
          LeavesOf(results), ReceivedOf(results),
          CountTrue(ReceivedOf(results)), 0, 0, interval)
  }

  function NoResults(w: World): (t: Table)
    requires ValidLayout(w.layout)
    ensures |t| == N(w) && forall i :: 0 <= i < N(w) ==> t[i].None?
  {
    seq(N(w), _ => None)
  }

  function FirstEpochs(w: World): (s: seq<u64>)
    requires ValidLayout(w.layout)
    ensures |s| == N(w) && forall i :: 0 <= i < N(w) ==> s[i] == 1
  {
    seq(N(w), _ => 1)
  }

  function NextEpochs(epochs: seq<u64>): (s: seq<u64>)
    requires forall i :: 0 <= i < |epochs| ==> epochs[i] != U64_MAX
    ensures |s| == |epochs| && forall i :: 0 <= i < |s| ==> s[i] == epochs[i] + 1
  {
    seq(|epochs|, i requires 0 <= i < |epochs| => epochs[i] + 1)
  }

  /** The manifest that open installs for a freshly opened store. */
  function OpeningManifest(w: World, st: Store): RunManifest
    requires ValidLayout(w.layout)
  {
    MakeManifest(w, st.sequence, st.incarnation, Running, st.coordinator.blocks, st.committed,
                 LeavesOf(st.committed), None)
  }

  function Max(a: u64, b: u64): u64
  {
    if a >= b then a else b
  }

  /** Neither the identities nor a lease epoch are exhausted. */
  predicate CanRecover(m: RunManifest, highest: u64)
  {
    && m.incarnation != U64_MAX && highest != U64_MAX
    && forall i :: 0 <= i < |m.epochs| ==> m.epochs[i] != U64_MAX
  }

  /** The store that open recovers from the running snapshot m, given the highest manifest name. */
  function Recovered(w: World, files: Results, m: RunManifest, highest: u64, interval: u64): Store
    requires ValidLayout(w.layout) && ValidSnapshot(w, files, m) && CanRecover(m, highest)
  {
    Opened(w, highest + 1, Max(m.incarnation + 1, highest + 1), Running, NextEpochs(m.epochs),
           Loaded(w, files, m), interval)
  }

  function OpenInstall(w: World, st: Store, slack: bool): Phase
    requires ValidLayout(w.layout)
  {
    Install(ManifestFile(OpeningManifest(w, st)), Unwritten, slack, ToCleanup(st))
  }

  ghost function RecoverPhase(w: World, d: Disk, sequence: u64, highest: u64, interval: u64): Phase
    requires ValidLayout(w.layout) && Selectable(w, d, sequence)
  {
    var m := d.manifests[sequence].content;
    if m.status != Running then
      Cleanup(Opened(w, m.sequence, m.incarnation, m.status, m.epochs, Loaded(w, d.results, m), interval))
    else if !CanRecover(m, highest) then Down
    else OpenInstall(w, Recovered(w, d.results, m, highest, interval), sequence != highest)
  }

  function InitialStore(w: World, interval: u64): Store
    requires ValidLayout(w.layout)
  {
    Opened(w, 0, 1, Running, FirstEpochs(w), NoResults(w), interval)
  }

  ghost function StepLoad(w: World, s: State): State
    requires ValidLayout(w.layout)
  {
    if s.disk.manifests == map[] then s.(phase := OpenInstall(w, InitialStore(w, s.interval), false))
    else match LatestSelectable(w, s.disk)
      case None => s.(phase := Down)
      case Some(sequence) =>
        s.(phase := RecoverPhase(w, s.disk, sequence, Highest(s.disk.manifests.Keys), s.interval))
  }

  function StepMetadata(w: World, s: State): State
  {
    var expected := Metadata(w.runId, w.identity);
    match s.disk.metadata
    case None =>
      if s.disk.results != map[] || s.disk.manifests != map[] then s.(phase := Down)
      else s.(phase := Install(MetadataFile(expected), Unwritten, false, ToLoad))
    case Some(f) => s.(phase := if f == Readable(expected) then LoadManifest else Down)
  }

  /** A result file that the recovered snapshot does not reference. */
  predicate IsOrphan(st: Store, k: ResultKey)
  {
    !(k.block < |st.committed| && st.committed[k.block].Some? &&
      st.committed[k.block].value.block.incarnation == k.incarnation &&
      st.committed[k.block].value.block.epoch == k.epoch)
  }

  function OutcomeOf(w: World, st: Store): Outcome
  {
    Outcome(Tree(w.merge, EMPTY_AGGREGATE, st.leaves), |st.coordinator.blocks|, st.sequence,
            st.incarnation, st.recovered, st.computed)
  }

  function StepCleanup(w: World, s: State, st: Store): State
  {
    if exists k :: k in s.disk.results && IsOrphan(st, k) then s
    else match st.status
      case Running => s.(phase := Serving(st))
      case Complete => s.(phase := Finished(OutcomeOf(w, st)))
      case Failed => s.(phase := Down)
  }

  // ---------------------------------------------------------------- record_result and checkpoint

  /** The received rows of the durable results. */
  function Evidence(st: Store): (t: Table)
    requires |st.durable| == |st.received|
    ensures |t| == |st.received|
  {
    seq(|st.received|, i requires 0 <= i < |st.received| => if st.received[i] then st.durable[i] else None)
  }

  predicate SizesAgree(w: World, st: Store)
    requires ValidLayout(w.layout)
  {
    && |st.committed| == |st.durable| == |st.leaves| == |st.received| == N(w)
    && |st.coordinator.blocks| == |st.coordinator.payloads| == N(w)
  }

  predicate StoreReady(w: World, st: Store)
    requires ValidLayout(w.layout)
  {
    SizesAgree(w, st) && ValidState(st.coordinator)
  }

  /** Every received leaf has matching durable evidence. */
  predicate EvidenceMatches(st: Store)
    requires |st.durable| == |st.leaves| == |st.received| == |st.coordinator.payloads|
  {
    forall i :: 0 <= i < |st.received| && st.received[i] ==>
      && st.durable[i].Some?
      && st.coordinator.payloads[i] == Some(st.durable[i].value.checksum)
      && st.leaves[i] == st.durable[i].value.aggregate
  }

  /** The coordinator belongs to this run and incarnation. */
  predicate UniverseMatches(w: World, st: Store)
  {
    && st.coordinator.identity.specHash == w.identity.specHash
    && st.coordinator.identity.layoutHash == w.identity.layoutHash
    && st.coordinator.identity.buildFingerprint == w.identity.buildFingerprint
    && st.coordinator.incarnation == st.incarnation
  }

  /** The manifest that checkpoint installs, or None where it throws. */
  function CheckpointManifest(
    w: World, st: Store, status: RunStatus, failure: Option<FailureRecord>): Option<RunManifest>
    requires ValidLayout(w.layout) && SizesAgree(w, st)
  {
    if st.status != Running || !UniverseMatches(w, st) then None
    else if status == Complete && exists i :: 0 <= i < |st.received| && !st.received[i] then None
    else if (status == Failed) != failure.Some? then None
    else if !EvidenceMatches(st) || st.sequence == U64_MAX then None
    else Some(MakeManifest(w, st.sequence + 1, st.incarnation, status, st.coordinator.blocks,
                           Evidence(st), st.leaves, failure))
  }

  function CommittedAfter(st: Store): (t: Table)
    requires |st.committed| == |st.durable| == |st.received|
    ensures |t| == |st.committed|
    ensures forall i :: 0 <= i < |t| ==>
      t[i] == if st.received[i] && st.committed[i].None? then st.durable[i] else st.committed[i]
  {
    seq(|st.committed|, i requires 0 <= i < |st.committed| =>
      if st.received[i] && st.committed[i].None? then st.durable[i] else st.committed[i])
  }

  /** The memory update after the manifest is installed. */
  function Checkpointed(st: Store, status: RunStatus): Store
    requires st.sequence != U64_MAX && |st.committed| == |st.durable| == |st.received|
  {
    st.(sequence := st.sequence + 1, status := status, committed := CommittedAfter(st))
  }

  function AfterCheckpoint(st: Store): Continuation
  {
    match st.status
    case Running => ToServing(st.(pending := 0))
    case Complete => ToFinish(st)
    case Failed => ToFailure
  }

  function StepCheckpoint(
    w: World, s: State, st: Store, status: RunStatus, failure: Option<FailureRecord>): State
    requires ValidLayout(w.layout) && SizesAgree(w, st)
  {
    match CheckpointManifest(w, st, status, failure)
    case None => s.(phase := Down)
    case Some(m) =>
      s.(phase := Install(ManifestFile(m), Unwritten, true, AfterCheckpoint(Checkpointed(st, status))))
  }

  /** After an accepted result: the periodic checkpoint, unless this was the last block. */
  function StepAccepted(w: World, s: State, st: Store): State
    requires ValidLayout(w.layout) && SizesAgree(w, st)
  {
    if st.pending >= st.interval && st.recovered + st.computed < |st.coordinator.blocks|
    then StepCheckpoint(w, s, st, Running, None)
    else s.(phase := Serving(st))
  }

  /** execute_missing_blocks has returned: complete the run, or report missing blocks. */
  function StepEnd(w: World, s: State, st: Store): State
    requires ValidLayout(w.layout) && SizesAgree(w, st)
  {
    if exists i :: 0 <= i < |st.received| && !st.received[i] then s.(phase := Down)
    else StepCheckpoint(w, s, st, Complete, None)
  }

  /** The committed checksum reported for a block ID, clamped to the last block. */
  function ReportedChecksum(payloads: seq<Option<Digest>>, id: u64): Digest
    requires |payloads| >= 1
  {
    match payloads[if id < |payloads| then id else |payloads| - 1]
    case Some(c) => c
    case None => ZERO_DIGEST
  }

  function FailureOf(w: World, st: Store, msg: BlockResult, status: ValidationStatus): FailureRecord
    requires |st.coordinator.payloads| >= 1
  {
    FailureRecord(status, msg.block.id, msg.block.incarnation, msg.block.epoch, msg.checksum,
                  ReportedChecksum(st.coordinator.payloads, msg.block.id), w.reason(msg, status))
  }

  /** The memory after record_result, commit_result and the leaf update. */
  function AcceptedStore(w: World, st: Store, msg: BlockResult, durable: Table): Store
    requires ValidLayout(w.layout) && StoreReady(w, st)
    requires msg.block.id < N(w)
  {
    Store(st.sequence, st.incarnation, st.status, st.committed, durable,
          CommitResult(w.sem, msg, st.coordinator),
          st.leaves[msg.block.id := msg.aggregate], st.received[msg.block.id := true],
          st.recovered, st.computed + 1, st.pending + 1, st.interval)
  }

  predicate SameLease(a: ScenarioBlock, b: ScenarioBlock)
  {
    a.start == b.start && a.end == b.end && a.incarnation == b.incarnation && a.epoch == b.epoch
  }

  /** The checks of record_result, which do not rely on the caller's validation. */
  predicate RecordAllowed(w: World, st: Store, msg: BlockResult)
    requires ValidLayout(w.layout) && StoreReady(w, st)
  {
    && st.status == Running && msg.block.id < |st.coordinator.blocks|
    && msg.identity == w.identity && SameLease(msg.block, st.coordinator.blocks[msg.block.id])
    && msg.checksum == w.sem.hash(msg.aggregate)
    && msg.aggregate.n == ExpectedObservations(st.coordinator, msg.block.id) && w.sem.wellFormed(msg.aggregate)
  }

  /** record_result: evidence that is already there is accepted silently if it is the same. */
  function RecordPhase(w: World, st: Store, msg: BlockResult): Phase
    requires ValidLayout(w.layout) && StoreReady(w, st)
  {
    if !RecordAllowed(w, st, msg) then Down
    else match st.durable[msg.block.id]
    case Some(prior) =>
      if prior.checksum == msg.checksum && KeyOf(prior) == KeyOf(msg)
      then ResultAccepted(AcceptedStore(w, st, msg, st.durable)) else Down
    case None =>
      Install(ResultFile(DurableBlockRecord(w.runId, msg)), Unwritten, false,
              ToAccepted(AcceptedStore(w, st, msg, st.durable[msg.block.id := Some(msg)])))
  }

  function StepDeliver(w: World, s: State, st: Store, msg: BlockResult): State
    requires ValidLayout(w.layout) && StoreReady(w, st)
  {
    var v := ValidateResult(w.sem, msg, st.coordinator);
    if IsBenignRejection(v) then s
    else if v != Accepted then StepCheckpoint(w, s, st, Failed, Some(FailureOf(w, st, msg, v)))
    else s.(phase := RecordPhase(w, st, msg))
  }

  /** Messages may be stale, duplicated, corrupt or addressed to another run; but a payload that
      matches its own checksum is the one its block determines. */
  ghost predicate Deliverable(w: World, msg: BlockResult)
  {
    msg.checksum == w.sem.hash(msg.aggregate) ==> msg.aggregate == w.compute(msg.block.id)
  }

  // ---------------------------------------------------------------- the machine

  function Resume(w: World, next: Continuation): Phase
  {
    match next
    case ToLoad => LoadManifest
    case ToCleanup(st) => Cleanup(st)
    case ToAccepted(st) => ResultAccepted(st)
    case ToServing(st) => Serving(st)
    case ToFinish(st) => Finished(OutcomeOf(w, st))
    case ToFailure => Down
  }

  function Logged(log: map<u64, LogEntry>, a: Artifact, slack: bool): map<u64, LogEntry>
  {
    if a.ManifestFile? then log[a.manifest.sequence := LogEntry(a.manifest.incarnation, slack)] else log
  }

  function StepInstall(w: World, s: State, a: Artifact, stage: Stage, slack: bool, next: Continuation): State
  {
    match stage
    case Unwritten =>
      if !Exists(s.disk, a) then s
      else if SameBytes(s.disk, a) then s.(phase := Resume(w, next))
      else s.(phase := Down)
    case Written(nonce) =>
      s.(disk := Installed(s.disk.(tmp := s.disk.tmp - {nonce}), a),
         phase := Install(a, Renamed, slack, next), log := Logged(s.log, a, slack))
    case Renamed => s.(phase := Resume(w, next))
  }

  function StepCreate(s: State, nonce: nat): State
  {
    if s.phase.Install? && s.phase.stage == Unwritten && !Exists(s.disk, s.phase.artifact)
       && nonce !in s.disk.tmp
    then s.(disk := s.disk.(tmp := s.disk.tmp[nonce := s.phase.artifact]),
            phase := Install(s.phase.artifact, Written(nonce), s.phase.slack, s.phase.next))
    else s
  }

  ghost function StepAdvance(w: World, s: State): State
    requires ValidLayout(w.layout)
  {
    match s.phase
    case Down => s
    case RemoveTemporaries => if s.disk.tmp == map[] then s.(phase := CheckMetadata) else s
    case CheckMetadata => StepMetadata(w, s)
    case LoadManifest => StepLoad(w, s)
    case Install(a, stage, slack, next) => StepInstall(w, s, a, stage, slack, next)
    case Cleanup(st) => StepCleanup(w, s, st)
    case Serving(st) => if StoreReady(w, st) then StepEnd(w, s, st) else s
    case ResultAccepted(st) => if StoreReady(w, st) then StepAccepted(w, s, st) else s
    case Finished(_) => s
  }

  /** One step. An action that is not enabled leaves the state as it is. */
  ghost function Step(w: World, s: State, a: Action): State
    requires ValidLayout(w.layout)
  {
    match a
    case Start(interval) =>
      if s.phase.Down? && interval >= 1
      then s.(phase := RemoveTemporaries, interval := interval) else s
    case Crash => s.(phase := Down)
    case SpoilMetadata =>
      if s.disk.metadata.Some?
      then s.(disk := s.disk.(metadata := Some(Unreadable)), pristine := false) else s
    case SpoilResult(k) =>
      if k in s.disk.results
      then s.(disk := s.disk.(results := s.disk.results[k := Unreadable]), pristine := false) else s
    case SpoilManifest(x) =>
      if x in s.disk.manifests
      then s.(disk := s.disk.(manifests := s.disk.manifests[x := Unreadable]), pristine := false) else s
    case DropTemporary(nonce) =>
      if s.phase.RemoveTemporaries? then s.(disk := s.disk.(tmp := s.disk.tmp - {nonce})) else s
    case CreateTemporary(nonce) => StepCreate(s, nonce)
    case DropOrphan(k) =>
      if s.phase.Cleanup? && k in s.disk.results && IsOrphan(s.phase.recovering, k)
      then s.(disk := s.disk.(results := s.disk.results - {k})) else s
    case Deliver(msg) =>
      if s.phase.Serving? && StoreReady(w, s.phase.store) && Deliverable(w, msg)
      then StepDeliver(w, s, s.phase.store, msg) else s
    case Advance => StepAdvance(w, s)
  }

  ghost function Run(w: World, s: State, actions: seq<Action>): State
    requires ValidLayout(w.layout)
    decreases |actions|
  {
    if actions == [] then s else Run(w, Step(w, s, actions[0]), actions[1..])
  }
}
