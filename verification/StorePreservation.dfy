/** Every step of the durable run keeps the invariant. */
module StorePreservation {
  import opened Types
  import opened Basics
  import opened Blocks
  import opened Coordinator
  import opened Reduction
  import opened Snapshot
  import opened StoreMachine
  import opened StoreInvariant

  // ---------------------------------------------------------------- memory

  lemma {:induction false} CountAfterUpdate(s: seq<bool>, i: nat)
    requires i < |s| && !s[i]
    ensures CountTrue(s[i := true]) == CountTrue(s) + 1
  {
    var last := |s| - 1;
    var t := s[i := true];
    if i == last {
      assert t[..last] == s[..last];
    } else {
      assert t[..last] == s[..last][i := true];
      CountAfterUpdate(s[..last], i);
    }
  }

  lemma {:induction false} CountIsFull(s: seq<bool>)
    ensures CountTrue(s) <= |s|
    ensures CountTrue(s) == |s| <==> forall i :: 0 <= i < |s| ==> s[i]
  {
    if |s| > 0 {
      CountIsFull(s[..|s| - 1]);
    }
  }

  /** An accepted message is honest, new, and holds the current lease of its block. */
  lemma AcceptedIsHonest(w: World, st: Store, msg: BlockResult)
    requires ValidWorld(w) && StoreOK(w, st) && Deliverable(w, msg)
    requires ValidateResult(w.sem, msg, st.coordinator) == Accepted
    ensures HonestResult(w, msg) && st.durable[msg.block.id].None?
    ensures msg.block == st.coordinator.blocks[msg.block.id]
    ensures Leased(msg, st.incarnation, st.coordinator.blocks[msg.block.id].epoch)
  {
    var b := st.coordinator.blocks[msg.block.id];
    assert b == Block(w.layout, msg.block.id, st.incarnation, b.epoch);
    assert ExpectedObservations(st.coordinator, msg.block.id) == Observations(w.layout, msg.block.id);
    assert st.coordinator.payloads[msg.block.id] == PayloadsOf(st.durable)[msg.block.id];
  }

  /** The two independent checks agree: record_result lets through exactly the messages that pass every
      check of validate_result under the current lease, whether or not their block is already committed. */
  lemma RecordedExactly(w: World, st: Store, msg: BlockResult)
    requires ValidWorld(w) && StoreOK(w, st)
    ensures RecordAllowed(w, st, msg) <==> st.status == Running && Current(w.sem, msg, st.coordinator)
  {
    if msg.block.id < N(w) {
      assert st.coordinator.blocks[msg.block.id] ==
             Block(w.layout, msg.block.id, st.incarnation, st.coordinator.blocks[msg.block.id].epoch);
    }
  }

  /** record_result never refuses what validate_result has accepted. */
  lemma AcceptedIsRecordable(w: World, st: Store, msg: BlockResult)
    requires ValidWorld(w) && StoreOK(w, st) && st.status == Running
    requires ValidateResult(w.sem, msg, st.coordinator) == Accepted
    ensures RecordAllowed(w, st, msg)
  {
    RecordedExactly(w, st, msg);
  }

  /** Recording a row in all the tables at once. */
  lemma TablesAfterUpdate(t: Table, i: nat, r: BlockResult)
    requires i < |t|
    ensures ReceivedOf(t[i := Some(r)]) == ReceivedOf(t)[i := true]
    ensures LeavesOf(t[i := Some(r)]) == LeavesOf(t)[i := r.aggregate]
    ensures PayloadsOf(t[i := Some(r)]) == PayloadsOf(t)[i := Some(r.checksum)]
  {
  }

  lemma TableAfterUpdate(w: World, t: Table, incarnation: u64, blocks: seq<ScenarioBlock>, r: BlockResult)
    requires ValidWorld(w) && GoodTable(w, t, incarnation, blocks) && HonestResult(w, r) && r.block.id < |t|
    requires Leased(r, incarnation, blocks[r.block.id].epoch)
    ensures GoodTable(w, t[r.block.id := Some(r)], incarnation, blocks)
  {
    hide HonestResult, Leased;
  }

  lemma CommittedState(sem: Semantics, r: BlockResult, st: CoordinatorState)
    requires ValidState(st) && ValidateResult(sem, r, st) == Accepted
    ensures r.block.id < |st.blocks|
    ensures CommitResult(sem, r, st) == st.(payloads := st.payloads[r.block.id := Some(r.checksum)])
  {
  }

  lemma AcceptedStoreOK(w: World, st: Store, msg: BlockResult)
    requires ValidWorld(w) && StoreOK(w, st) && Deliverable(w, msg)
    requires ValidateResult(w.sem, msg, st.coordinator) == Accepted
    ensures StoreOK(w, AcceptedStore(w, st, msg, st.durable[msg.block.id := Some(msg)]))
  {
    hide ValidateResult, CommitResult, HonestResult, Leased, GoodTable;
    AcceptedIsHonest(w, st, msg);
    CommittedState(w.sem, msg, st.coordinator);
    TablesAfterUpdate(st.durable, msg.block.id, msg);
    TableAfterUpdate(w, st.durable, st.incarnation, st.coordinator.blocks, msg);
    CountAfterUpdate(st.received, msg.block.id);
  }

  /** checkpoint always finds its evidence: it names exactly the durable results. */
  lemma CheckpointFindsEvidence(w: World, st: Store)
    requires ValidWorld(w) && StoreOK(w, st)
    ensures EvidenceMatches(st) && Evidence(st) == st.durable
    ensures CommittedAfter(st) == st.durable
  {
    assert Evidence(st) == st.durable;
    assert CommittedAfter(st) == st.durable;
  }

  lemma CheckpointedStoreOK(w: World, st: Store, status: RunStatus, pending: nat)
    requires ValidWorld(w) && StoreOK(w, st) && st.sequence != U64_MAX
    ensures StoreOK(w, Checkpointed(st, status).(pending := pending))
    ensures StoreOK(w, Checkpointed(st, status))
  {
    CheckpointFindsEvidence(w, st);
  }

  /** The block universe handed to the coordinator is one it accepts. */
  lemma OpenedUniverseIsCanonical(w: World, st: Store)
    requires ValidWorld(w) && StoreOK(w, st)
    ensures CanonicalUniverse(w.layout, st.coordinator.blocks)
  {
    assert st.coordinator.blocks[0] == Block(w.layout, 0, st.incarnation, st.coordinator.blocks[0].epoch);
  }

  lemma OpenedStoreOK(
    w: World, sequence: u64, incarnation: u64, status: RunStatus, epochs: seq<u64>, results: Table,
    interval: u64)
    requires ValidWorld(w) && |epochs| == N(w) && incarnation != 0 && interval >= 1
    requires forall i :: 0 <= i < N(w) ==> epochs[i] != 0
    requires GoodTable(w, results, incarnation, LeasedBlocks(w, incarnation, epochs))
    ensures StoreOK(w, Opened(w, sequence, incarnation, status, epochs, results, interval))
  {
  }

  /** All results received: the reduction of the leaves is that of an uninterrupted run. */
  lemma FinishedOutcomeOK(w: World, st: Store)
    requires ValidWorld(w) && StoreOK(w, st) && AllReceived(st)
    ensures OutcomeOK(w, OutcomeOf(w, st))
  {
    CountIsFull(st.received);
    assert st.leaves == AllAggregates(w);
  }

  // ---------------------------------------------------------------- disk and log

  /** The new manifest fits the log: its incarnation is large enough and not too far ahead. */
  ghost predicate LogFits(log: map<u64, LogEntry>, sequence: u64, incarnation: u64, slack: bool)
  {
    && (forall x :: x in log ==> x < sequence && log[x].incarnation <= incarnation)
    && (forall y :: 0 <= y < sequence ==> y in log)
    && incarnation > 0
    && (if slack || exists y :: y in log && log[y].slack
        then incarnation <= sequence else incarnation == sequence + 1)
  }

  lemma SlackBefore(log: map<u64, LogEntry>, q: u64, entry: LogEntry, x: u64)
    requires x in log && x < q
    ensures SlackUpTo(log[q := entry], x) <==> SlackUpTo(log, x)
  {
    var log' := log[q := entry];
    if SlackUpTo(log', x) {
      var y :| y in log' && y <= x && log'[y].slack;
      assert y in log && log[y].slack;
    }
    if SlackUpTo(log, x) {
      var y :| y in log && y <= x && log[y].slack;
      assert y in log' && log'[y].slack;
    }
  }

  lemma SlackAtEnd(log: map<u64, LogEntry>, q: u64, entry: LogEntry)
    requires forall x :: x in log ==> x < q
    ensures SlackUpTo(log[q := entry], q) <==> entry.slack || exists y :: y in log && log[y].slack
  {
    var log' := log[q := entry];
    assert log'[q] == entry;
    if SlackUpTo(log', q) {
      var y :| y in log' && y <= q && log'[y].slack;
      assert y == q || (y in log && log[y].slack);
    }
    if y :| y in log && log[y].slack {
      assert y in log' && y <= q && log'[y].slack;
    }
  }

  lemma StillMonotone(log: map<u64, LogEntry>, q: u64, entry: LogEntry, x: u64, y: u64)
    requires LogShape(log) && LogFits(log, q, entry.incarnation, entry.slack)
    requires var log' := log[q := entry]; x in log' && y in log' && x < y
    ensures var log' := log[q := entry]; log'[x].incarnation <= log'[y].incarnation
  {
    hide SlackUpTo;
    assert x in log;
  }

  lemma StillConsecutive(log: map<u64, LogEntry>, q: u64, entry: LogEntry, x: u64, y: int)
    requires LogShape(log) && LogFits(log, q, entry.incarnation, entry.slack)
    requires x in log[q := entry] && 0 <= y < x
    ensures y in log[q := entry]
  {
    hide SlackUpTo;
    assert x == q || x in log;
  }

  /** The incarnation of an entry is at most one ahead of its sequence number, and exactly one before any
      slack. */
  ghost predicate CloseAt(log: map<u64, LogEntry>, x: u64)
    requires x in log
  {
    if SlackUpTo(log, x) then 0 < log[x].incarnation <= x else log[x].incarnation == x + 1
  }

  lemma StillClose(log: map<u64, LogEntry>, q: u64, entry: LogEntry, x: u64)
    requires LogShape(log) && LogFits(log, q, entry.incarnation, entry.slack) && x in log[q := entry]
    ensures CloseAt(log[q := entry], x)
  {
    SlackAtEnd(log, q, entry);
    hide SlackUpTo;
    if x != q {
      assert x in log;
      SlackBefore(log, q, entry, x);
    }
  }

  lemma LogShapeInstall(log: map<u64, LogEntry>, q: u64, entry: LogEntry)
    requires LogShape(log) && LogFits(log, q, entry.incarnation, entry.slack)
    ensures LogShape(log[q := entry])
  {
    var log' := log[q := entry];
    hide SlackUpTo, LogFits;
    forall x, y | x in log' && 0 <= y < x ensures y in log' {
      StillConsecutive(log, q, entry, x, y);
    }
    forall x, y | x in log' && y in log' && x < y ensures log'[x].incarnation <= log'[y].incarnation {
      StillMonotone(log, q, entry, x, y);
    }
    forall x | x in log' ensures CloseAt(log', x) {
      StillClose(log, q, entry, x);
    }
  }

  lemma LogInstallOK(d: Disk, log: map<u64, LogEntry>, m: RunManifest, slack: bool)
    requires LogOK(d, log) && LogFits(log, m.sequence, m.incarnation, slack)
    ensures var a := ManifestFile(m); LogOK(Installed(d, a), Logged(log, a, slack))
  {
    hide LogShape;
    LogShapeInstall(log, m.sequence, LogEntry(m.incarnation, slack));
  }

  lemma ManifestInstallOK(w: World, d: Disk, log: map<u64, LogEntry>, pristine: bool, m: RunManifest, slack: bool)
    requires ValidWorld(w) && BaseOK(w, d, log, pristine)
    requires LogFits(log, m.sequence, m.incarnation, slack)
    requires pristine ==> ValidSnapshot(w, d.results, m)
    requires pristine ==> forall x :: IsHighest(d.manifests.Keys, x) ==> Extends(d.manifests[x].content, m)
    ensures var a := ManifestFile(m);
            !Exists(d, a) && BaseOK(w, Installed(d, a), Logged(log, a, slack), pristine)
  {
    LogInstallOK(d, log, m, slack);
    if pristine {
      PristineManifestInstall(w, d, m);
    }
  }

  lemma ExtendsTransitive(a: RunManifest, b: RunManifest, c: RunManifest)
    requires Extends(a, b) && Extends(b, c)
    ensures Extends(a, c)
  {
  }

  lemma AllExtendTo(w: World, d: Disk, m: RunManifest, x: u64)
    requires ValidWorld(w) && PristineDisk(w, d) && x in d.manifests
    requires forall h :: IsHighest(d.manifests.Keys, h) ==> Extends(d.manifests[h].content, m)
    ensures Selectable(w, d, x) && Extends(d.manifests[x].content, m)
  {
    hide Extends, ValidSnapshot;
    var h := Highest(d.manifests.Keys);
    assert Selectable(w, d, x) && Selectable(w, d, h);
    if x < h {
      ExtendsTransitive(d.manifests[x].content, d.manifests[h].content, m);
    }
  }

  lemma PristineManifestInstall(w: World, d: Disk, m: RunManifest)
    requires ValidWorld(w) && PristineDisk(w, d) && ValidSnapshot(w, d.results, m)
    requires forall x :: x in d.manifests ==> x < m.sequence
    requires forall h :: IsHighest(d.manifests.Keys, h) ==> Extends(d.manifests[h].content, m)
    ensures PristineDisk(w, Installed(d, ManifestFile(m)))
  {
    hide ValidSnapshot, Extends;
    forall x | x in d.manifests ensures Selectable(w, d, x) && Extends(d.manifests[x].content, m) {
      AllExtendTo(w, d, m, x);
    }
    assert m.sequence in Installed(d, ManifestFile(m)).manifests.Keys;
  }

  /** A manifest built from a table names the files of that table. */
  lemma NamedOrOrphan(m: RunManifest, st: Store, k: ResultKey)
    requires InPlace(st.committed) && m.committed == EntriesOf(st.committed)
    ensures k in RefKeys(m) <==> !IsOrphan(st, k)
  {
    if k in RefKeys(m) {
      var e :| e in m.committed && EntryKey(e) == k;
      EntriesAreTheTable(st.committed, e);
    }
    if !IsOrphan(st, k) {
      var e := EntryOf(st.committed[k.block].value);
      EntriesAreTheTable(st.committed, e);
      assert EntryKey(e) == k;
    }
  }

  lemma CommittedInPlace(w: World, st: Store)
    requires ValidWorld(w) && StoreOK(w, st)
    ensures InPlace(st.committed) && InPlace(st.durable)
  {
  }

  // ---------------------------------------------------------------- record_result

  /** Snapshots stay selectable as long as the files they reference stay as they are. */
  lemma SnapshotsSurvive(w: World, d: Disk, d': Disk)
    requires ValidWorld(w) && d'.manifests == d.manifests
    requires forall x :: x in d.manifests ==> Selectable(w, d, x)
    requires forall x, k | x in d.manifests && d.manifests[x].Readable? && k in d.results ::
               k in RefKeys(d.manifests[x].content) ==> k in d'.results && d'.results[k] == d.results[k]
    ensures forall x :: x in d'.manifests ==> Selectable(w, d', x)
  {
    hide ValidSnapshot;
    forall x | x in d'.manifests ensures Selectable(w, d', x) {
      assert Selectable(w, d, x);
      SnapshotStable(w, d.results, d'.results, d.manifests[x].content);
    }
  }

  lemma RecordedTidy(files: Results, file: File<DurableBlockRecord>, st: Store, st': Store, msg: BlockResult)
    requires Tidy(files, st) && msg.block.id < |st.durable| && st.durable[msg.block.id].None?
    requires st'.durable == st.durable[msg.block.id := Some(msg)]
    ensures KeyOf(msg) !in files && Tidy(files[KeyOf(msg) := file], st')
  {
  }

  lemma RecordedTable(w: World, files: Results, st: Store, msg: BlockResult)
    requires TableOnDisk(w, files, st.durable) && msg.block.id < |st.durable| && KeyOf(msg) !in files
    ensures TableOnDisk(w, files[KeyOf(msg) := Readable(DurableBlockRecord(w.runId, msg))],
                        st.durable[msg.block.id := Some(msg)])
  {
  }

  lemma UncommittedGrows(files: Results, k: ResultKey, file: File<DurableBlockRecord>, st: Store, st': Store)
    requires st'.committed == st.committed && k !in files && IsOrphan(st, k)
    ensures |Uncommitted(files[k := file], st')| == |Uncommitted(files, st)| + 1
  {
    assert Uncommitted(files[k := file], st') == Uncommitted(files, st) + {k};
  }

  /** Recording a result: its name is free, and the disk and the memory stay consistent. */
  lemma ResultInstallOK(
    w: World, d: Disk, log: map<u64, LogEntry>, pristine: bool, st: Store, msg: BlockResult,
    d': Disk, st': Store)
    requires ValidWorld(w) && BaseOK(w, d, log, pristine)
    requires ServingOK(w, d, log, pristine, st) && Deliverable(w, msg)
    requires ValidateResult(w.sem, msg, st.coordinator) == Accepted
    requires d' == Installed(d, ResultFile(DurableBlockRecord(w.runId, msg)))
    requires st' == AcceptedStore(w, st, msg, st.durable[msg.block.id := Some(msg)])
    ensures KeyOf(msg) !in d.results
    ensures BaseOK(w, d', log, pristine)
    ensures Working(w, d', log, pristine, st')
  {
    hide StoreOK, ValidateResult, TableOnDisk, HonestResult, Tidy, Uncommitted, PristineDisk, LogShape, IsOrphan;
    AcceptedIsHonest(w, st, msg);
    AcceptedStoreOK(w, st, msg);
    var file := Readable(DurableBlockRecord(w.runId, msg));
    SpaceForOne(w, st, msg);
    RecordedTidy(d.results, file, st, st', msg);
    UncommittedGrows(d.results, KeyOf(msg), file, st, st');
    if pristine {
      RecordedTable(w, d.results, st, msg);
      PristineResultInstall(w, d, d', KeyOf(msg));
    }
  }

  /** An accepted message is for a block that is still missing, so the run is not yet complete. */
  lemma SpaceForOne(w: World, st: Store, msg: BlockResult)
    requires ValidWorld(w) && StoreOK(w, st) && msg.block.id < N(w) && st.durable[msg.block.id].None?
    ensures |st.durable| == N(w) && !AllReceived(st) && IsOrphan(st, KeyOf(msg))
  {
    assert !st.received[msg.block.id];
  }

  lemma PristineResultInstall(w: World, d: Disk, d': Disk, k: ResultKey)
    requires ValidWorld(w) && PristineDisk(w, d) && d.manifests != map[]
    requires d'.manifests == d.manifests && k !in d.results
    requires d'.results.Keys == d.results.Keys + {k} && d'.results[k].Readable?
    requires forall x :: x in d.results ==> d'.results[x] == d.results[x]
    ensures PristineDisk(w, d')
  {
    hide ValidSnapshot, Extends, RefKeys;
    SnapshotsSurvive(w, d, d');
    hide Selectable;
  }

  // ---------------------------------------------------------------- checkpoint

  /** The incarnations of a log, seen from its newest entry. */
  lemma LogBelow(log: map<u64, LogEntry>, h: u64, x: u64)
    requires LogShape(log) && IsHighest(log.Keys, h) && x in log
    ensures x <= h && log[x].incarnation <= log[h].incarnation <= h + 1
    ensures log[x].incarnation <= x + 1 && log[x].incarnation > 0
  {
  }

  lemma CheckpointFitsLog(d: Disk, log: map<u64, LogEntry>, st: Store)
    requires LogShape(log) && AtNewest(d, log, st) && st.sequence != U64_MAX
    ensures LogFits(log, st.sequence + 1, st.incarnation, true)
  {
    hide LogShape;
    forall x | x in log ensures x < st.sequence + 1 && log[x].incarnation <= st.incarnation {
      LogBelow(log, st.sequence, x);
    }
    LogBelow(log, st.sequence, st.sequence);
    NoGaps(log, st.sequence);
  }

  /** Everything up to the newest entry is in the log. */
  lemma NoGaps(log: map<u64, LogEntry>, h: u64)
    requires LogShape(log) && IsHighest(log.Keys, h)
    ensures forall y :: 0 <= y < h + 1 ==> y in log
  {
    hide SlackUpTo;
    forall y | 0 <= y < h + 1 ensures y in log {
      assert h in log && (y < h ==> y in log);
    }
  }

  lemma CheckpointExtends(w: World, d: Disk, st: Store, m: RunManifest)
    requires ValidWorld(w) && StoreOK(w, st) && MemoryMatchesDisk(w, d, st) && st.status == Running
    requires m.incarnation == st.incarnation && m.epochs == EpochsOf(st.coordinator.blocks)
    requires m.committed == EntriesOf(st.durable)
    ensures Extends(d.manifests[st.sequence].content, m)
  {
    CommittedInPlace(w, st);
    forall e | e in EntriesOf(st.committed) ensures e in EntriesOf(st.durable) {
      EntriesAreTheTable(st.committed, e);
      EntriesAreTheTable(st.durable, e);
    }
  }

  lemma CheckpointManifestIs(
    w: World, st: Store, status: RunStatus, failure: Option<FailureRecord>, m: RunManifest)
    requires ValidWorld(w) && StoreOK(w, st)
    requires CheckpointManifest(w, st, status, failure) == Some(m)
    ensures st.status == Running && st.sequence != U64_MAX
    ensures status == Failed <==> failure.Some?
    ensures status == Complete ==> AllReceived(st)
    ensures m == MakeManifest(w, st.sequence + 1, st.incarnation, status, st.coordinator.blocks,
                              st.durable, LeavesOf(st.durable), failure)
  {
    CheckpointFindsEvidence(w, st);
  }

  lemma CheckpointIsValid(
    w: World, d: Disk, st: Store, status: RunStatus, failure: Option<FailureRecord>, m: RunManifest)
    requires ValidWorld(w) && StoreOK(w, st) && TableOnDisk(w, d.results, st.durable)
    requires CheckpointManifest(w, st, status, failure) == Some(m)
    ensures ValidSnapshot(w, d.results, m)
  {
    CheckpointManifestIs(w, st, status, failure, m);
    hide CheckpointManifest;
    BuiltSnapshotIsValid(w, d.results, st.sequence + 1, st.incarnation, status, st.coordinator.blocks,
                         st.durable, failure);
  }

  /** Installing a checkpoint: the manifest name is free, the manifest is valid and extends the newest
      one, and the updated memory continues it. */
  lemma CheckpointInstallOK(
    w: World, d: Disk, log: map<u64, LogEntry>, pristine: bool, st: Store,
    status: RunStatus, failure: Option<FailureRecord>, m: RunManifest, d': Disk, log': map<u64, LogEntry>)
    requires ValidWorld(w) && BaseOK(w, d, log, pristine) && StoreAt(w, d, log, pristine, st)
    requires CheckpointManifest(w, st, status, failure) == Some(m)
    requires d' == Installed(d, ManifestFile(m)) && log' == Logged(log, ManifestFile(m), true)
    ensures st.sequence != U64_MAX
    ensures m.sequence !in d.manifests && BaseOK(w, d', log', pristine)
    ensures StoreAt(w, d', log', pristine, Checkpointed(st, status))
  {
    hide StoreOK, CheckpointManifest, LogShape, PristineDisk, TableOnDisk, ValidSnapshot, Extends, LogFits;
    CheckpointManifestIs(w, st, status, failure, m);
    CheckpointFitsLog(d, log, st);
    if pristine {
      CheckpointIsValid(w, d, st, status, failure, m);
      CheckpointExtends(w, d, st, m);
      OnlyNewest(d, log, st);
    }
    ManifestInstallOK(w, d, log, pristine, m, true);
    CheckpointedStoreOK(w, st, status, 0);
    CheckpointFindsEvidence(w, st);
  }

  lemma OnlyNewest(d: Disk, log: map<u64, LogEntry>, st: Store)
    requires log.Keys == d.manifests.Keys && AtNewest(d, log, st)
    ensures forall x :: IsHighest(d.manifests.Keys, x) ==> x == st.sequence
  {
  }

  // ---------------------------------------------------------------- open

  /** A store as open hands it over, before anything is computed. */
  ghost predicate JustOpened(w: World, st: Store)
    requires ValidLayout(w.layout)
  {
    && StoreOK(w, st) && st.status == Running && st.committed == st.durable
    && st.pending == 0 && st.computed == 0
  }

  lemma OpeningIsValid(w: World, d: Disk, st: Store)
    requires ValidWorld(w) && JustOpened(w, st) && TableOnDisk(w, d.results, st.durable)
    ensures ValidSnapshot(w, d.results, OpeningManifest(w, st))
  {
    assert GoodLeases(st.coordinator.blocks);
    hide ValidSnapshot;
    BuiltSnapshotIsValid(w, d.results, st.sequence, st.incarnation, Running, st.coordinator.blocks, st.durable, None);
  }

  lemma TableHasNames(w: World, files: Results, results: Table)
    requires TableOnDisk(w, files, results)
    ensures NamesOnDisk(files.Keys, results)
  {
  }

  lemma OpenInstallOK(
    w: World, d: Disk, log: map<u64, LogEntry>, pristine: bool, slack: bool, st: Store,
    m: RunManifest, d': Disk, log': map<u64, LogEntry>)
    requires ValidWorld(w) && BaseOK(w, d, log, pristine) && JustOpened(w, st)
    requires LogFits(log, st.sequence, st.incarnation, slack)
    requires m == OpeningManifest(w, st)
    requires NamesOnDisk(d.results.Keys, st.durable)
    requires pristine ==> TableOnDisk(w, d.results, st.durable)
    requires pristine ==> forall h :: IsHighest(d.manifests.Keys, h) ==> Extends(d.manifests[h].content, m)
    requires d' == Installed(d, ManifestFile(m)) && log' == Logged(log, ManifestFile(m), slack)
    ensures !Exists(d, ManifestFile(m)) && BaseOK(w, d', log', pristine)
    ensures RecoveringOK(w, d', log', pristine, st)
  {
    hide StoreOK, LogShape, PristineDisk, TableOnDisk, ValidSnapshot, Extends;
    if pristine {
      OpeningIsValid(w, d, st);
    }
    ManifestInstallOK(w, d, log, pristine, m, slack);
  }

  lemma InitialInstallOK(w: World, s: State)
    requires ValidWorld(w) && Inv(w, s) && s.disk.manifests == map[]
    ensures Inv(w, s.(phase := OpenInstall(w, InitialStore(w, s.interval), false)))
  {
    var st := InitialStore(w, s.interval);
    var m := OpeningManifest(w, st);
    OpenedStoreOK(w, 0, 1, Running, FirstEpochs(w), NoResults(w), s.interval);
    assert s.log == map[];
    hide StoreOK, PristineDisk, PhaseOK, HonestFiles;
    OpenInstallOK(w, s.disk, s.log, s.pristine, false, st, m,
                  Installed(s.disk, ManifestFile(m)), Logged(s.log, ManifestFile(m), false));
    hide BaseOK, RecoveringOK;
    InstallPhaseOK(w, s, ManifestFile(m), false, ToCleanup(st));
  }

  /** Beginning to install a file whose installation is sound. */
  lemma InstallPhaseOK(w: World, s: State, a: Artifact, slack: bool, next: Continuation)
    requires ValidWorld(w) && s.interval >= 1
    requires BaseOK(w, s.disk, s.log, s.pristine) && !Exists(s.disk, a)
    requires BaseOK(w, Installed(s.disk, a), Logged(s.log, a, slack), s.pristine)
    requires NextOK(w, Installed(s.disk, a), Logged(s.log, a, slack), s.pristine, next)
    ensures Inv(w, s.(phase := Install(a, Unwritten, slack, next)))
  {
    hide BaseOK, NextOK;
  }

  /** The recovered identity fits the log, whether or not recovery fell back. */
  lemma RecoveryFitsLog(log: map<u64, LogEntry>, highest: u64, sequence: u64)
    requires LogShape(log) && IsHighest(log.Keys, highest) && sequence in log
    requires highest != U64_MAX && log[sequence].incarnation != U64_MAX
    ensures LogFits(log, highest + 1, Max(log[sequence].incarnation + 1, highest + 1), sequence != highest)
  {
    var incarnation := Max(log[sequence].incarnation + 1, highest + 1);
    NewestIsClose(log, highest);
    NoGaps(log, highest);
    hide LogShape;
    forall x | x in log ensures x < highest + 1 && log[x].incarnation <= incarnation {
      LogBelow(log, highest, x);
    }
    LogBelow(log, highest, sequence);
  }

  /** The newest incarnation is one ahead of its sequence number exactly when there was no slack. */
  lemma NewestIsClose(log: map<u64, LogEntry>, highest: u64)
    requires LogShape(log) && IsHighest(log.Keys, highest)
    ensures if exists y :: y in log && log[y].slack then 0 < log[highest].incarnation <= highest
            else log[highest].incarnation == highest + 1
  {
    if y :| y in log && log[y].slack {
      assert SlackUpTo(log, highest);
    } else {
      assert !SlackUpTo(log, highest);
    }
  }

  /** Raising the incarnation and every epoch keeps a recovered table acceptable. */
  lemma RaisedTable(w: World, results: Table, incarnation: u64, epochs: seq<u64>, incarnation': u64, epochs': seq<u64>)
    requires ValidWorld(w) && |epochs| == |epochs'| == N(w)
    requires GoodTable(w, results, incarnation, LeasedBlocks(w, incarnation, epochs))
    requires incarnation < incarnation' && forall i :: 0 <= i < N(w) ==> epochs[i] < epochs'[i]
    ensures GoodTable(w, results, incarnation', LeasedBlocks(w, incarnation', epochs'))
  {
    hide HonestResult;
    forall i | 0 <= i < N(w) && results[i].Some?
      ensures Leased(results[i].value, incarnation', LeasedBlocks(w, incarnation', epochs')[i].epoch)
    {
      assert Leased(results[i].value, incarnation, LeasedBlocks(w, incarnation, epochs)[i].epoch);
    }
  }

  lemma LeasedEpochs(w: World, incarnation: u64, epochs: seq<u64>)
    requires ValidWorld(w) && |epochs| == N(w)
    ensures EpochsOf(LeasedBlocks(w, incarnation, epochs)) == epochs
  {
  }

  /** What a selected snapshot hands to recovery. */
  lemma SelectedIsGood(w: World, d: Disk, sequence: u64, m: RunManifest)
    requires ValidWorld(w) && HonestFiles(w, d.results) && Selectable(w, d, sequence)
    requires m == d.manifests[sequence].content
    ensures |m.epochs| == N(w) && m.incarnation != 0 && forall i :: 0 <= i < N(w) ==> m.epochs[i] != 0
    ensures GoodTable(w, Loaded(w, d.results, m), m.incarnation, LeasedBlocks(w, m.incarnation, m.epochs))
    ensures TableOnDisk(w, d.results, Loaded(w, d.results, m))
    ensures EntriesOf(Loaded(w, d.results, m)) == m.committed
  {
    LeasedEpochs(w, m.incarnation, m.epochs);
    LoadedIsGood(w, d.results, m, LeasedBlocks(w, m.incarnation, m.epochs));
  }

  lemma RecoveryExtends(w: World, d: Disk, m: RunManifest, highest: u64, interval: u64)
    requires ValidWorld(w) && ValidSnapshot(w, d.results, m) && CanRecover(m, highest)
    requires EntriesOf(Loaded(w, d.results, m)) == m.committed && m.status == Running
    ensures Extends(m, OpeningManifest(w, Recovered(w, d.results, m, highest, interval)))
  {
    LeasedEpochs(w, Max(m.incarnation + 1, highest + 1), NextEpochs(m.epochs));
  }

  lemma RecoveredIsOpened(
    w: World, d: Disk, sequence: u64, highest: u64, m: RunManifest, interval: u64)
    requires ValidWorld(w) && interval >= 1 && HonestFiles(w, d.results) && Selectable(w, d, sequence)
    requires m == d.manifests[sequence].content && CanRecover(m, highest) && m.status == Running
    ensures var st := Recovered(w, d.results, m, highest, interval);
            && JustOpened(w, st) && TableOnDisk(w, d.results, st.durable)
            && Extends(m, OpeningManifest(w, st))
  {
    SelectedIsGood(w, d, sequence, m);
    RecoveryExtends(w, d, m, highest, interval);
    var st := Recovered(w, d.results, m, highest, interval);
    hide TableOnDisk, GoodTable, Extends, ValidSnapshot;
    RaisedTable(w, Loaded(w, d.results, m), m.incarnation, m.epochs, st.incarnation, NextEpochs(m.epochs));
    OpenedStoreOK(w, st.sequence, st.incarnation, Running, NextEpochs(m.epochs), Loaded(w, d.results, m),
                  interval);
    hide StoreOK;
  }

  lemma RecoverInstallOK(w: World, s: State, sequence: u64, highest: u64, m: RunManifest)
    requires ValidWorld(w) && Inv(w, s)
    requires IsHighest(s.disk.manifests.Keys, highest) && Selectable(w, s.disk, sequence)
    requires s.pristine ==> sequence == highest
    requires m == s.disk.manifests[sequence].content && CanRecover(m, highest) && m.status == Running
    ensures var st := Recovered(w, s.disk.results, m, highest, s.interval);
      Inv(w, s.(phase := OpenInstall(w, st, sequence != highest)))
  {
    hide StoreOK, LogShape, PristineDisk, PhaseOK, TableOnDisk, Extends, LogFits, HonestFiles, JustOpened,
         ValidSnapshot, NamesOnDisk, RecoveringOK, EntriesOf, LeavesOf, Loaded, Tree, EpochsOf;
    var st := Recovered(w, s.disk.results, m, highest, s.interval);
    var a := ManifestFile(OpeningManifest(w, st));
    var slack := sequence != highest;
    RecoveredIsOpened(w, s.disk, sequence, highest, m, s.interval);
    TableHasNames(w, s.disk.results, st.durable);
    RecoveryFitsLog(s.log, highest, sequence);
    OpenInstallOK(w, s.disk, s.log, s.pristine, slack, st, a.manifest, Installed(s.disk, a), Logged(s.log, a, slack));
    hide BaseOK, RecoveringOK;
    InstallPhaseOK(w, s, a, slack, ToCleanup(st));
  }

  /** A terminal snapshot is taken over as it is. */
  lemma TerminalLoadOK(w: World, s: State, sequence: u64, m: RunManifest)
    requires ValidWorld(w) && Inv(w, s) && Selectable(w, s.disk, sequence)
    requires s.pristine ==> IsHighest(s.disk.manifests.Keys, sequence)
    requires m == s.disk.manifests[sequence].content && m.status != Running
    ensures TerminalOK(w, s.disk, s.log, s.pristine,
              Opened(w, m.sequence, m.incarnation, m.status, m.epochs, Loaded(w, s.disk.results, m), s.interval))
  {
    SelectedIsGood(w, s.disk, sequence, m);
    hide LogShape, PristineDisk, TableOnDisk, HonestFiles, EntriesOf, LeavesOf, Tree;
    LeasedEpochs(w, m.incarnation, m.epochs);
    OpenedStoreOK(w, m.sequence, m.incarnation, m.status, m.epochs, Loaded(w, s.disk.results, m), s.interval);
    hide StoreOK, GoodTable;
  }

  lemma LoadOK(w: World, s: State)
    requires ValidWorld(w) && Inv(w, s)
    ensures Inv(w, StepLoad(w, s))
  {
    hide StoreOK, LogShape, ValidSnapshot, HonestFiles, Ordered, OpenInstall, Recovered;
    if s.disk.manifests == map[] {
      InitialInstallOK(w, s);
    } else {
      var highest := Highest(s.disk.manifests.Keys);
      var r := LatestSelectable(w, s.disk);
      if r.Some? {
        var m := s.disk.manifests[r.value].content;
        if m.status != Running {
          TerminalLoadOK(w, s, r.value, m);
        } else if CanRecover(m, highest) {
          RecoverInstallOK(w, s, r.value, highest, m);
        }
      }
    }
  }

  // ---------------------------------------------------------------- cleanup

  /** An orphan of the newest snapshot is referenced by no snapshot at all. */
  lemma OrphanIsUnreferenced(w: World, d: Disk, log: map<u64, LogEntry>, st: Store, k: ResultKey, x: u64)
    requires ValidWorld(w) && PristineDisk(w, d) && StoreOK(w, st) && log.Keys == d.manifests.Keys
    requires AtNewest(d, log, st) && MemoryMatchesDisk(w, d, st) && IsOrphan(st, k) && x in d.manifests
    ensures d.manifests[x].Readable? && k !in RefKeys(d.manifests[x].content)
  {
    hide ValidSnapshot, Extends, RefKeys, TableOnDisk;
    var newest := d.manifests[st.sequence].content;
    assert Selectable(w, d, x);
    CommittedInPlace(w, st);
    NamedOrOrphan(newest, st, k);
    if x < st.sequence {
      RefsExtend(d.manifests[x].content, newest);
    }
  }

  lemma CleanupKeepsNames(w: World, names: set<ResultKey>, st: Store, k: ResultKey)
    requires ValidWorld(w) && StoreOK(w, st) && st.committed == st.durable && IsOrphan(st, k)
    requires NamesOnDisk(names, st.durable)
    ensures NamesOnDisk(names - {k}, st.durable)
  {
  }

  lemma CleanupKeepsTable(w: World, files: Results, st: Store, k: ResultKey)
    requires ValidWorld(w) && StoreOK(w, st) && st.committed == st.durable && IsOrphan(st, k)
    requires TableOnDisk(w, files, st.durable)
    ensures TableOnDisk(w, files - {k}, st.durable)
  {
  }

  lemma CleanupKeepsSnapshots(w: World, d: Disk, log: map<u64, LogEntry>, st: Store, k: ResultKey, d': Disk)
    requires ValidWorld(w) && PristineDisk(w, d) && StoreOK(w, st) && log.Keys == d.manifests.Keys
    requires AtNewest(d, log, st) && MemoryMatchesDisk(w, d, st) && IsOrphan(st, k)
    requires d' == d.(results := d.results - {k})
    ensures PristineDisk(w, d')
  {
    hide ValidSnapshot, Extends, RefKeys, StoreOK, MemoryMatchesDisk, AtNewest, IsOrphan;
    forall x | x in d.manifests
      ensures d.manifests[x].Readable? && k !in RefKeys(d.manifests[x].content)
    {
      OrphanIsUnreferenced(w, d, log, st, k, x);
    }
    SnapshotsSurvive(w, d, d');
  }

  lemma DropOrphanOK(w: World, s: State, k: ResultKey)
    requires ValidWorld(w) && Inv(w, s)
    ensures Inv(w, Step(w, s, DropOrphan(k)))
  {
    hide StoreOK, LogShape, PristineDisk, TableOnDisk, HonestResult, IsOrphan, AllReceived, NamesOnDisk;
    if s.phase.Cleanup? && k in s.disk.results && IsOrphan(s.phase.recovering, k) {
      var d' := s.disk.(results := s.disk.results - {k});
      CleanupKeepsNames(w, s.disk.results.Keys, s.phase.recovering, k);
      assert d'.results.Keys == s.disk.results.Keys - {k};
      if s.pristine {
        CleanupKeepsTable(w, s.disk.results, s.phase.recovering, k);
        CleanupKeepsSnapshots(w, s.disk, s.log, s.phase.recovering, k, d');
      }
    }
  }

  /** When no orphan is left, every result file belongs to the recovered snapshot. */
  lemma CleanIsTidy(w: World, files: Results, st: Store)
    requires ValidWorld(w) && StoreOK(w, st) && st.committed == st.durable
    requires forall k :: k in files ==> !IsOrphan(st, k)
    ensures Tidy(files, st) && Uncommitted(files, st) == {}
  {
    forall k | k in files ensures st.durable[k.block].Some? && KeyOf(st.durable[k.block].value) == k {
      assert !IsOrphan(st, k);
      assert st.durable[k.block].value.block.id == k.block;
    }
  }

  lemma HasInterval(w: World, st: Store)
    requires ValidWorld(w) && StoreOK(w, st)
    ensures st.interval >= 1
  {
  }

  /** A recovered store that is clean can serve. */
  lemma ServesAfterCleanup(w: World, d: Disk, log: map<u64, LogEntry>, pristine: bool, st: Store)
    requires ValidWorld(w) && RecoveringOK(w, d, log, pristine, st) && st.status == Running
    requires forall k :: k in d.results ==> !IsOrphan(st, k)
    ensures ServingOK(w, d, log, pristine, st)
  {
    hide StoreOK, MemoryMatchesDisk, Tidy, Uncommitted, IsOrphan, NamesOnDisk, AllReceived, AtNewest;
    HasInterval(w, st);
    CleanIsTidy(w, d.results, st);
  }

  lemma TerminalNamed(w: World, d: Disk, log: map<u64, LogEntry>, pristine: bool, st: Store)
    requires ValidWorld(w) && TerminalOK(w, d, log, pristine, st) && st.status == Complete
    ensures OutcomeNamed(d, log, pristine, OutcomeOf(w, st))
  {
    hide StoreOK, NamesOnDisk, AllReceived, TableOnDisk, Tree;
  }

  lemma FinishNamed(w: World, d: Disk, log: map<u64, LogEntry>, pristine: bool, st: Store)
    requires ValidWorld(w) && FinishOK(w, d, log, pristine, st)
    ensures StoreOK(w, st) && AllReceived(st) && OutcomeNamed(d, log, pristine, OutcomeOf(w, st))
  {
    hide StoreOK, NamesOnDisk, AllReceived, TableOnDisk, Tree;
  }

  lemma CleanupOK(w: World, s: State, st: Store)
    requires ValidWorld(w) && Inv(w, s) && s.phase == Cleanup(st)
    ensures Inv(w, StepCleanup(w, s, st))
  {
    hide StoreOK, BaseOK, StoreAt, ServingOK, OutcomeOK, IsOrphan, NamesOnDisk, MemoryMatchesDisk, AtNewest,
         OutcomeNamed;
    if !exists k :: k in s.disk.results && IsOrphan(st, k) {
      match st.status
      case Running => ServesAfterCleanup(w, s.disk, s.log, s.pristine, st);
      case Complete =>
        FinishedOutcomeOK(w, st);
        TerminalNamed(w, s.disk, s.log, s.pristine, st);
      case Failed =>
    }
  }

  // ---------------------------------------------------------------- decay

  /** Files may become unreadable; their names stay. */
  ghost predicate Decayed(d: Disk, d': Disk)
  {
    && d'.metadata.Some? == d.metadata.Some?
    && d'.results.Keys == d.results.Keys && d'.manifests.Keys == d.manifests.Keys
    && (forall k :: k in d.results ==> d'.results[k] == d.results[k] || d'.results[k] == Unreadable)
    && (forall x :: x in d.manifests ==> d'.manifests[x] == d.manifests[x] || d'.manifests[x] == Unreadable)
  }

  lemma DecayedBase(w: World, d: Disk, d': Disk, log: map<u64, LogEntry>, pristine: bool)
    requires ValidWorld(w) && BaseOK(w, d, log, pristine) && Decayed(d, d')
    ensures BaseOK(w, d', log, false)
  {
    hide LogShape, HonestResult, PristineDisk;
  }

  lemma DecayedWorking(w: World, d: Disk, d': Disk, log: map<u64, LogEntry>, pristine: bool, st: Store)
    requires ValidWorld(w) && Decayed(d, d') && Working(w, d, log, pristine, st)
    ensures Working(w, d', log, false, st)
  {
    hide StoreOK, MemoryMatchesDisk, IsOrphan;
    assert Uncommitted(d'.results, st) == Uncommitted(d.results, st);
  }

  lemma DecayedNext(w: World, d: Disk, d': Disk, log: map<u64, LogEntry>, pristine: bool, next: Continuation)
    requires ValidWorld(w) && Decayed(d, d') && NextOK(w, d, log, pristine, next)
    ensures NextOK(w, d', log, false, next)
  {
    hide StoreOK, MemoryMatchesDisk, Working, AllReceived;
    match next
    case ToAccepted(st) => DecayedWorking(w, d, d', log, pristine, st);
    case ToServing(st) => DecayedWorking(w, d, d', log, pristine, st);
    case _ =>
  }

  lemma DecayCommutes(d: Disk, d': Disk, a: Artifact)
    requires Decayed(d, d')
    ensures Exists(d, a) == Exists(d', a)
    ensures Decayed(Installed(d, a), Installed(d', a))
  {
  }

  lemma DecayedInstall(w: World, s: State, d': Disk)
    requires ValidWorld(w) && Inv(w, s) && Decayed(s.disk, d') && s.phase.Install?
    ensures InstallOK(w, s.(disk := d', pristine := false))
  {
    hide Decayed, BaseOK, NextOK, Installed, Exists, Logged;
    var a, next := s.phase.artifact, s.phase.next;
    if s.phase.stage == Renamed {
      DecayedNext(w, s.disk, d', s.log, s.pristine, next);
    } else {
      DecayCommutes(s.disk, d', a);
      var log' := Logged(s.log, a, s.phase.slack);
      DecayedBase(w, Installed(s.disk, a), Installed(d', a), log', s.pristine);
      DecayedNext(w, Installed(s.disk, a), Installed(d', a), log', s.pristine, next);
    }
  }

  lemma DecayedRecovery(w: World, s: State, d': Disk, st: Store)
    requires ValidWorld(w) && Inv(w, s) && Decayed(s.disk, d') && s.phase == Cleanup(st)
    ensures st.status == Running ==> RecoveringOK(w, d', s.log, false, st)
    ensures st.status != Running ==> TerminalOK(w, d', s.log, false, st)
  {
    assert d'.results.Keys == s.disk.results.Keys;
    hide StoreOK, MemoryMatchesDisk, BaseOK, Decayed, AllReceived, NamesOnDisk;
  }

  lemma DecayOK(w: World, s: State, d': Disk)
    requires ValidWorld(w) && Inv(w, s) && Decayed(s.disk, d')
    ensures Inv(w, s.(disk := d', pristine := false))
  {
    hide Working, BaseOK, Decayed, AllReceived, InstallOK, OutcomeOK, RecoveringOK, TerminalOK;
    DecayedBase(w, s.disk, d', s.log, s.pristine);
    match s.phase
    case Install(_, _, _, _) => DecayedInstall(w, s, d');
    case Cleanup(st) => DecayedRecovery(w, s, d', st);
    case Serving(st) => DecayedWorking(w, s.disk, d', s.log, s.pristine, st);
    case ResultAccepted(st) => DecayedWorking(w, s.disk, d', s.log, s.pristine, st);
    case _ =>
  }

  // ---------------------------------------------------------------- the machine

  /** The invariant sees only result files and manifests. */
  lemma OnlyFilesMatter(w: World, d: Disk, d': Disk, log: map<u64, LogEntry>, pristine: bool, next: Continuation)
    requires ValidWorld(w) && d'.results == d.results && d'.manifests == d.manifests
    ensures BaseOK(w, d, log, pristine) <==> BaseOK(w, d', log, pristine)
    ensures NextOK(w, d, log, pristine, next) <==> NextOK(w, d', log, pristine, next)
  {
    hide StoreOK, LogShape, ValidSnapshot, HonestFiles, Extends, TableOnDisk, Tidy, Uncommitted, AllReceived;
    assert PristineDisk(w, d) <==> PristineDisk(w, d');
  }

  lemma NothingUncommitted(w: World, files: Results, st: Store)
    requires ValidWorld(w) && StoreOK(w, st) && Tidy(files, st) && st.committed == st.durable
    ensures Uncommitted(files, st) == {}
  {
    forall k | k in files ensures !IsOrphan(st, k) {
      assert st.durable[k.block].Some?;
    }
  }

  /** After a periodic checkpoint the process serves on, with nothing recorded but uncommitted. */
  lemma CheckpointedServes(w: World, d: Disk, d': Disk, log': map<u64, LogEntry>, pristine: bool, st: Store, st': Store)
    requires ValidWorld(w) && StoreOK(w, st) && Tidy(d.results, st) && d'.results == d.results
    requires st.sequence != U64_MAX && st' == Checkpointed(st, Running)
    requires StoreAt(w, d', log', pristine, st')
    ensures ServingOK(w, d', log', pristine, st'.(pending := 0))
  {
    CheckpointFindsEvidence(w, st);
    CheckpointedStoreOK(w, st, Running, 0);
    hide StoreOK, AllReceived, TableOnDisk;
    NothingUncommitted(w, d'.results, st'.(pending := 0));
  }

  lemma WorkingIsReady(w: World, d: Disk, log: map<u64, LogEntry>, pristine: bool, st: Store)
    requires ValidWorld(w) && Working(w, d, log, pristine, st)
    ensures StoreReady(w, st) && StoreOK(w, st) && StoreAt(w, d, log, pristine, st)
  {
  }

  lemma CheckpointNextOK(
    w: World, d: Disk, log: map<u64, LogEntry>, pristine: bool, st: Store, status: RunStatus,
    failure: Option<FailureRecord>, m: RunManifest, d': Disk, log': map<u64, LogEntry>)
    requires ValidWorld(w) && BaseOK(w, d, log, pristine) && Working(w, d, log, pristine, st)
    requires StoreReady(w, st) && CheckpointManifest(w, st, status, failure) == Some(m)
    requires d' == Installed(d, ManifestFile(m)) && log' == Logged(log, ManifestFile(m), true)
    ensures st.sequence != U64_MAX && !Exists(d, ManifestFile(m)) && BaseOK(w, d', log', pristine)
    ensures NextOK(w, d', log', pristine, AfterCheckpoint(Checkpointed(st, status)))
  {
    hide StoreOK, CheckpointManifest, Tidy, Uncommitted, BaseOK, StoreAt, AllReceived, ServingOK;
    WorkingIsReady(w, d, log, pristine, st);
    CheckpointManifestIs(w, st, status, failure, m);
    CheckpointInstallOK(w, d, log, pristine, st, status, failure, m, d', log');
    if status == Running {
      CheckpointedServes(w, d, d', log', pristine, st, Checkpointed(st, status));
    } else if status == Complete {
      assert AllReceived(Checkpointed(st, status)) by { SameReceived(st, status); }
    }
  }

  lemma SameReceived(st: Store, status: RunStatus)
    requires st.sequence != U64_MAX && |st.committed| == |st.durable| == |st.received|
    ensures AllReceived(st) ==> AllReceived(Checkpointed(st, status))
  {
  }

  lemma CheckpointStepOK(w: World, s: State, st: Store, status: RunStatus, failure: Option<FailureRecord>)
    requires ValidWorld(w) && s.interval >= 1 && BaseOK(w, s.disk, s.log, s.pristine)
    requires Working(w, s.disk, s.log, s.pristine, st) && StoreReady(w, st)
    ensures Inv(w, StepCheckpoint(w, s, st, status, failure))
  {
    hide CheckpointManifest, Checkpointed, BaseOK, NextOK, Working;
    var c := CheckpointManifest(w, st, status, failure);
    if c.Some? {
      CheckpointNextOK(w, s.disk, s.log, s.pristine, st, status, failure, c.value,
                       Installed(s.disk, ManifestFile(c.value)), Logged(s.log, ManifestFile(c.value), true));
    }
  }

  lemma FullCount(w: World, st: Store)
    requires ValidWorld(w) && StoreOK(w, st)
    ensures st.recovered + st.computed >= |st.coordinator.blocks| <==> AllReceived(st)
  {
    CountIsFull(st.received);
  }

  lemma AcceptedStepOK(w: World, s: State, st: Store)
    requires ValidWorld(w) && Inv(w, s) && s.phase == ResultAccepted(st) && StoreReady(w, st)
    ensures Inv(w, StepAccepted(w, s, st))
  {
    hide StoreOK, StoreReady, BaseOK, StoreAt, Tidy, Uncommitted, AllReceived, StepCheckpoint;
    WorkingIsReady(w, s.disk, s.log, s.pristine, st);
    FullCount(w, st);
    if st.pending >= st.interval && st.recovered + st.computed < |st.coordinator.blocks| {
      CheckpointStepOK(w, s, st, Running, None);
    }
  }

  lemma EndStepOK(w: World, s: State, st: Store)
    requires ValidWorld(w) && Inv(w, s) && s.phase == Serving(st) && StoreReady(w, st)
    ensures Inv(w, StepEnd(w, s, st))
  {
    hide StoreReady, BaseOK, Working, AllReceived, StepCheckpoint;
    CheckpointStepOK(w, s, st, Complete, None);
  }

  lemma RecordStepOK(w: World, s: State, st: Store, msg: BlockResult)
    requires ValidWorld(w) && Inv(w, s) && s.phase == Serving(st) && StoreReady(w, st) && Deliverable(w, msg)
    requires ValidateResult(w.sem, msg, st.coordinator) == Accepted
    ensures msg.block.id < N(w) && Inv(w, s.(phase := RecordPhase(w, st, msg)))
  {
    hide StoreOK, BaseOK, StoreAt, Tidy, Uncommitted, ValidateResult, AllReceived, HonestResult;
    WorkingIsReady(w, s.disk, s.log, s.pristine, st);
    AcceptedIsHonest(w, st, msg);
    HonestIsInRange(w, msg);
    var a := ResultFile(DurableBlockRecord(w.runId, msg));
    var durable := st.durable[msg.block.id := Some(msg)];
    hide Working, ServingOK;
    ResultInstallOK(w, s.disk, s.log, s.pristine, st, msg, Installed(s.disk, a), AcceptedStore(w, st, msg, durable));
  }

  lemma HonestIsInRange(w: World, r: BlockResult)
    requires ValidWorld(w) && HonestResult(w, r)
    ensures r.block.id < N(w)
  {
  }

  lemma DeliverStepOK(w: World, s: State, st: Store, msg: BlockResult)
    requires ValidWorld(w) && Inv(w, s) && s.phase == Serving(st) && StoreReady(w, st) && Deliverable(w, msg)
    ensures Inv(w, StepDeliver(w, s, st, msg))
  {
    hide BaseOK, Working, StepCheckpoint, ValidateResult, RecordPhase, AllReceived;
    var v := ValidateResult(w.sem, msg, st.coordinator);
    if v == Accepted {
      RecordStepOK(w, s, st, msg);
    } else if !IsBenignRejection(v) {
      CheckpointStepOK(w, s, st, Failed, Some(FailureOf(w, st, msg, v)));
    }
  }

  lemma InstallStepOK(w: World, s: State)
    requires ValidWorld(w) && Inv(w, s) && s.phase.Install?
    ensures Inv(w, StepInstall(w, s, s.phase.artifact, s.phase.stage, s.phase.slack, s.phase.next))
  {
    hide StoreOK, BaseOK, StoreAt, Tidy, Uncommitted, AllReceived, OutcomeOK, OutcomeNamed;
    var p := s.phase;
    match p.stage
    case Unwritten =>
    case Written(nonce) =>
      var d := Installed(s.disk, p.artifact);
      OnlyFilesMatter(w, d, Installed(s.disk.(tmp := s.disk.tmp - {nonce}), p.artifact),
                      Logged(s.log, p.artifact, p.slack), s.pristine, p.next);
    case Renamed =>
      if p.next.ToFinish? {
        FinishNamed(w, s.disk, s.log, s.pristine, p.next.final);
        FinishedOutcomeOK(w, p.next.final);
      }
  }

  lemma CreateStepOK(w: World, s: State, nonce: nat)
    requires ValidWorld(w) && Inv(w, s)
    ensures Inv(w, StepCreate(s, nonce))
  {
    hide BaseOK, NextOK;
    if s.phase.Install? && s.phase.stage == Unwritten {
      var p := s.phase;
      var d := s.disk.(tmp := s.disk.tmp[nonce := p.artifact]);
      var log := Logged(s.log, p.artifact, p.slack);
      OnlyFilesMatter(w, s.disk, d, s.log, s.pristine, p.next);
      OnlyFilesMatter(w, Installed(s.disk, p.artifact), Installed(d, p.artifact), log, s.pristine, p.next);
    }
  }

  lemma MetadataStepOK(w: World, s: State)
    requires ValidWorld(w) && Inv(w, s) && s.phase == CheckMetadata
    ensures Inv(w, StepMetadata(w, s))
  {
    hide BaseOK;
    var a := MetadataFile(Metadata(w.runId, w.identity));
    OnlyFilesMatter(w, s.disk, Installed(s.disk, a), s.log, s.pristine, ToLoad);
  }

  /** Every step keeps the invariant: open, record_result, checkpoint, cleanup, crash and decay. */
  lemma StepKeepsInv(w: World, s: State, a: Action)
    requires ValidWorld(w) && Inv(w, s)
    ensures Inv(w, Step(w, s, a))
  {
    hide BaseOK, Working, ServingOK, RecoveringOK, TerminalOK, OutcomeOK, InstallOK, StoreReady,
         StepCreate, StepMetadata, StepLoad, StepInstall, StepCleanup, StepEnd, StepAccepted, StepDeliver;
    match a
    case SpoilMetadata => SpoilOK(w, s, s.disk.(metadata := Some(Unreadable)));
    case SpoilResult(k) => SpoilOK(w, s, s.disk.(results := s.disk.results[k := Unreadable]));
    case SpoilManifest(x) => SpoilOK(w, s, s.disk.(manifests := s.disk.manifests[x := Unreadable]));
    case DropTemporary(nonce) =>
      OnlyFilesMatter(w, s.disk, s.disk.(tmp := s.disk.tmp - {nonce}), s.log, s.pristine, ToLoad);
    case CreateTemporary(nonce) => CreateStepOK(w, s, nonce);
    case DropOrphan(k) => DropOrphanOK(w, s, k);
    case Deliver(msg) =>
      if s.phase.Serving? && StoreReady(w, s.phase.store) && Deliverable(w, msg) {
        DeliverStepOK(w, s, s.phase.store, msg);
      }
    case Advance => AdvanceOK(w, s);
    case _ =>
  }

  lemma SpoilOK(w: World, s: State, d': Disk)
    requires ValidWorld(w) && Inv(w, s)
    ensures Decayed(s.disk, d') ==> Inv(w, s.(disk := d', pristine := false))
  {
    hide Inv, Decayed;
    if Decayed(s.disk, d') {
      DecayOK(w, s, d');
    }
  }

  lemma NameIsFree(w: World, s: State)
    requires ValidWorld(w) && Inv(w, s) && s.phase.Install? && s.phase.stage != Renamed
    ensures !Exists(s.disk, s.phase.artifact)
  {
    hide BaseOK, NextOK, Exists;
  }

  lemma AdvanceOK(w: World, s: State)
    requires ValidWorld(w) && Inv(w, s)
    ensures Inv(w, StepAdvance(w, s))
  {
    hide BaseOK, Working, ServingOK, RecoveringOK, TerminalOK, OutcomeOK, InstallOK, StoreReady,
         StepMetadata, StepLoad, StepInstall, StepCleanup, StepEnd, StepAccepted;
    match s.phase
    case CheckMetadata => MetadataStepOK(w, s);
    case LoadManifest => LoadOK(w, s);
    case Install(_, _, _, _) => InstallStepOK(w, s);
    case Cleanup(st) => CleanupOK(w, s, st);
    case Serving(st) => if StoreReady(w, st) { EndStepOK(w, s, st); }
    case ResultAccepted(st) => if StoreReady(w, st) { AcceptedStepOK(w, s, st); }
    case _ =>
  }

  lemma InitOK(w: World)
    requires ValidWorld(w)
    ensures Inv(w, Init())
  {
  }

  /** Every state of every run satisfies the invariant. */
  lemma {:induction false} RunKeepsInv(w: World, s: State, actions: seq<Action>)
    requires ValidWorld(w) && Inv(w, s)
    ensures Inv(w, Run(w, s, actions))
    decreases |actions|
  {
    hide Inv, Step;
    if actions != [] {
      StepKeepsInv(w, s, actions[0]);
      RunKeepsInv(w, Step(w, s, actions[0]), actions[1..]);
    }
  }
}
