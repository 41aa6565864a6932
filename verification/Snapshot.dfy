/** Disk contents of a run store, manifest construction and snapshot validation (src/run_store.cpp). */
module Snapshot {
  import opened Types
  import opened Blocks
  import opened Coordinator
  import opened Reduction

  /** Everything a run is a function of. compute, merge, the payload functions and the text that explains a
      rejection are arbitrary. */
  datatype World = World(
    layout: Layout, identity: RunIdentity, runId: Digest, sem: Semantics,
    compute: nat -> AggregateStats, merge: (AggregateStats, AggregateStats) -> AggregateStats,
    reason: (BlockResult, ValidationStatus) -> seq<byte>)

  ghost predicate ValidWorld(w: World)
  {
    ValidLayout(w.layout)
  }

  function N(w: World): nat
    requires ValidLayout(w.layout)
  {
    BlockCount(w.layout)
  }

  /** What a result file is named after. */
  datatype ResultKey = ResultKey(block: u64, incarnation: u64, epoch: u64)

  /** A file that is present: its bytes decode to a value, or they no longer do. */
  datatype File<+T> = Readable(content: T) | Unreadable

  datatype Metadata = Metadata(runId: Digest, identity: RunIdentity)

  datatype Artifact =
    | MetadataFile(metadata: Metadata)
    | ResultFile(record: DurableBlockRecord)
    | ManifestFile(manifest: RunManifest)

  type Results = map<ResultKey, File<DurableBlockRecord>>

  datatype Disk = Disk(
    metadata: Option<File<Metadata>>,
    tmp: map<nat, Artifact>,
    results: Results,
    manifests: map<u64, File<RunManifest>>)

  function KeyOf(r: BlockResult): ResultKey
  {
    ResultKey(r.block.id, r.block.incarnation, r.block.epoch)
  }

  function EntryOf(r: BlockResult): ManifestEntry
  {
    ManifestEntry(r.block.id, r.block.incarnation, r.block.epoch, r.checksum)
  }

  function EntryKey(e: ManifestEntry): ResultKey
  {
    ResultKey(e.blockId, e.incarnation, e.epoch)
  }

  type Table = seq<Option<BlockResult>>

  /** The committed table of a manifest, in block order. */
  function EntriesOf(results: Table): seq<ManifestEntry>
  {
    if |results| == 0 then []
    else
      var last := results[|results| - 1];
      EntriesOf(results[..|results| - 1]) + (if last.Some? then [EntryOf(last.value)] else [])
  }

  function LeavesOf(results: Table): (s: seq<AggregateStats>)
    ensures |s| == |results|
  {
    seq(|results|, i requires 0 <= i < |results| =>
      if results[i].Some? then results[i].value.aggregate else EMPTY_AGGREGATE)
  }

  function EpochsOf(blocks: seq<ScenarioBlock>): (s: seq<u64>)
    ensures |s| == |blocks|
  {
    seq(|blocks|, i requires 0 <= i < |blocks| => blocks[i].epoch)
  }

  /** A full-snapshot manifest over a result table. */
  function MakeManifest(
    w: World, sequence: u64, incarnation: u64, status: RunStatus, blocks: seq<ScenarioBlock>,
    results: Table, leaves: seq<AggregateStats>, failure: Option<FailureRecord>): RunManifest
    requires ValidLayout(w.layout)
  {
    RunManifest(w.runId, w.identity, sequence, status, incarnation, N(w), EpochsOf(blocks),
                EntriesOf(results), Tree(w.merge, EMPTY_AGGREGATE, leaves), failure)
  }

  ghost predicate InPlace(results: Table)
  {
    forall i :: 0 <= i < |results| && results[i].Some? ==> results[i].value.block.id == i
  }

  /** make_manifest_from_results: one pass over the blocks collects leases, entries and leaves. */
  method MakeManifestFromResults(
    w: World, sequence: u64, incarnation: u64, status: RunStatus, blocks: seq<ScenarioBlock>,
    results: Table, failure: Option<FailureRecord>) returns (m: RunManifest)
    requires ValidLayout(w.layout) && |blocks| == |results|
    ensures m == MakeManifest(w, sequence, incarnation, status, blocks, results, LeavesOf(results), failure)
  {
    var epochs: seq<u64> := [];
    var committed: seq<ManifestEntry> := [];
    var leaves: seq<AggregateStats> := [];
    for index := 0 to |blocks|
      invariant |epochs| == |leaves| == index
      invariant forall i :: 0 <= i < index ==> epochs[i] == blocks[i].epoch
      invariant forall i :: 0 <= i < index ==> leaves[i] == LeavesOf(results)[i]
      invariant committed == EntriesOf(results[..index])
    {
      epochs := epochs + [blocks[index].epoch];
      assert results[..index + 1][..index] == results[..index];
      if results[index].Some? {
        committed := committed + [EntryOf(results[index].value)];
        leaves := leaves + [results[index].value.aggregate];
      } else {
        leaves := leaves + [EMPTY_AGGREGATE];
      }
    }
    assert results[..|blocks|] == results;
    assert epochs == EpochsOf(blocks) && leaves == LeavesOf(results);
    var aggregate := ReduceBlockResults(w.merge, EMPTY_AGGREGATE, leaves);
    m := RunManifest(w.runId, w.identity, sequence, status, incarnation, N(w), epochs,
                     committed, aggregate, failure);
  }

  lemma {:induction false} EntriesAreTheTable(results: Table, e: ManifestEntry)
    requires InPlace(results)
    ensures e in EntriesOf(results) <==>
      e.blockId < |results| && results[e.blockId].Some? && e == EntryOf(results[e.blockId].value)
  {
    if |results| > 0 {
      EntriesAreTheTable(results[..|results| - 1], e);
    }
  }

  lemma {:induction false} EntriesIncrease(results: Table)
    requires InPlace(results)
    ensures StrictlyIncreasing(EntriesOf(results))
  {
    if |results| > 0 {
      var front := results[..|results| - 1];
      EntriesIncrease(front);
      forall e | e in EntriesOf(front) ensures e.blockId < |front| {
        EntriesAreTheTable(front, e);
      }
      var es := EntriesOf(front);
      assert forall i :: 0 <= i < |es| ==> es[i] in es;
    }
  }

  lemma {:induction false} EntriesOfFullTable(results: Table)
    requires forall i :: 0 <= i < |results| ==> results[i].Some?
    ensures |EntriesOf(results)| == |results|
  {
    if |results| > 0 {
      EntriesOfFullTable(results[..|results| - 1]);
    }
  }

  /** The row for a block, if the manifest has one. */
  function FindEntry(es: seq<ManifestEntry>, id: nat): (r: Option<ManifestEntry>)
    ensures r.Some? ==> r.value in es && r.value.blockId == id
    ensures r.None? ==> forall e :: e in es ==> e.blockId != id
  {
    if |es| == 0 then None
    else if es[0].blockId == id then Some(es[0])
    else FindEntry(es[1..], id)
  }

  lemma FindEntryIsTheEntry(es: seq<ManifestEntry>, e: ManifestEntry)
    requires StrictlyIncreasing(es) && e in es
    ensures FindEntry(es, e.blockId) == Some(e)
  {
    var f := FindEntry(es, e.blockId);
    var i :| 0 <= i < |es| && es[i] == e;
    var j :| 0 <= j < |es| && es[j] == f.value;
    assert i == j;
  }

  /** The file that a manifest row names is there and agrees with the row, the run and the block. */
  predicate EntryBacked(w: World, files: Results, m: RunManifest, e: ManifestEntry)
    requires ValidLayout(w.layout)
  {
    && EntryKey(e) in files && files[EntryKey(e)].Readable?
    && e.blockId < N(w) && e.blockId < |m.epochs|
    && var record := files[EntryKey(e)].content;
       var r := record.result;
       && record.runId == w.runId && r.identity == w.identity
       && r.block == Block(w.layout, e.blockId, e.incarnation, e.epoch)
       && r.block.incarnation <= m.incarnation
       && r.checksum == e.checksum && r.checksum == w.sem.hash(r.aggregate)
       && (r.block.incarnation == m.incarnation ==> r.block.epoch == m.epochs[e.blockId])
       && r.aggregate.n == Observations(w.layout, e.blockId) && w.sem.wellFormed(r.aggregate)
  }

  predicate AllBacked(w: World, files: Results, m: RunManifest)
    requires ValidLayout(w.layout)
  {
    forall e :: e in m.committed ==> EntryBacked(w, files, m, e)
  }

  /** The results that recovery takes over from a snapshot. */
  function Loaded(w: World, files: Results, m: RunManifest): (t: Table)
    requires ValidLayout(w.layout) && AllBacked(w, files, m)
    ensures |t| == N(w)
  {
    seq(N(w), i requires 0 <= i < N(w) =>
      var f := FindEntry(m.committed, i);
      if f.Some? then
        assert EntryBacked(w, files, m, f.value);
        Some(files[EntryKey(f.value)].content.result)
      else None)
  }

  /** validate_manifest_snapshot succeeds (together with the decoder's own canonical-form rules). */
  predicate ValidSnapshot(w: World, files: Results, m: RunManifest)
    requires ValidLayout(w.layout)
  {
    && m.runId == w.runId && m.identity == w.identity && m.blockCount == N(w)
    && CanonicalManifest(m)
    && AllBacked(w, files, m)
    && Tree(w.merge, EMPTY_AGGREGATE, LeavesOf(Loaded(w, files, m))) == m.aggregate
    && (m.status == Complete ==> forall i :: 0 <= i < N(w) ==> Loaded(w, files, m)[i].Some?)
  }

  /** The manifest file with this sequence number is one that recovery may select. */
  predicate Selectable(w: World, d: Disk, sequence: u64)
    requires ValidLayout(w.layout)
  {
    && sequence in d.manifests && d.manifests[sequence].Readable?
    && d.manifests[sequence].content.sequence == sequence
    && ValidSnapshot(w, d.results, d.manifests[sequence].content)
  }

  /** The result a deterministic worker produces for a block under a lease. */
  ghost predicate HonestResult(w: World, r: BlockResult)
    requires ValidLayout(w.layout)
  {
    && r.block.id < N(w)
    && r.block == Block(w.layout, r.block.id, r.block.incarnation, r.block.epoch)
    && r.aggregate == w.compute(r.block.id)
    && r.checksum == w.sem.hash(r.aggregate)
    && r.aggregate.n == Observations(w.layout, r.block.id) && w.sem.wellFormed(r.aggregate)
    && r.identity == w.identity
  }

  /** A table row may appear in a manifest with these leases. */
  ghost predicate Leased(r: BlockResult, incarnation: u64, epoch: u64)
  {
    && 0 < r.block.incarnation <= incarnation
    && 0 < r.block.epoch <= epoch
    && (r.block.incarnation == incarnation ==> r.block.epoch == epoch)
  }

  ghost predicate GoodTable(w: World, results: Table, incarnation: u64, blocks: seq<ScenarioBlock>)
    requires ValidLayout(w.layout)
  {
    && |results| == |blocks| == N(w)
    && forall i :: 0 <= i < N(w) && results[i].Some? ==>
         var r := results[i].value;
         HonestResult(w, r) && r.block.id == i && Leased(r, incarnation, blocks[i].epoch)
  }

  ghost predicate TableOnDisk(w: World, files: Results, results: Table)
  {
    forall i :: 0 <= i < |results| && results[i].Some? ==>
      var r := results[i].value;
      KeyOf(r) in files && files[KeyOf(r)] == Readable(DurableBlockRecord(w.runId, r))
  }

  lemma LoadedIsTheTable(w: World, files: Results, m: RunManifest, results: Table)
    requires ValidLayout(w.layout) && AllBacked(w, files, m)
    requires |results| == N(w) && InPlace(results) && TableOnDisk(w, files, results)
    requires m.committed == EntriesOf(results)
    ensures Loaded(w, files, m) == results
  {
    EntriesIncrease(results);
    forall i | 0 <= i < N(w) ensures Loaded(w, files, m)[i] == results[i] {
      if results[i].Some? {
        var e := EntryOf(results[i].value);
        EntriesAreTheTable(results, e);
        FindEntryIsTheEntry(m.committed, e);
      } else {
        var f := FindEntry(m.committed, i);
        if f.Some? {
          EntriesAreTheTable(results, f.value);
        }
      }
    }
  }

  ghost predicate GoodLeases(blocks: seq<ScenarioBlock>)
  {
    forall i :: 0 <= i < |blocks| ==> blocks[i].epoch != 0
  }

  lemma TableIsCanonical(
    w: World, sequence: u64, incarnation: u64, status: RunStatus, blocks: seq<ScenarioBlock>,
    results: Table, failure: Option<FailureRecord>)
    requires ValidLayout(w.layout) && incarnation != 0
    requires GoodTable(w, results, incarnation, blocks) && GoodLeases(blocks)
    requires status == Failed <==> failure.Some?
    requires status == Complete ==> forall i :: 0 <= i < |results| ==> results[i].Some?
    ensures CanonicalManifest(
      MakeManifest(w, sequence, incarnation, status, blocks, results, LeavesOf(results), failure))
  {
    var m := MakeManifest(w, sequence, incarnation, status, blocks, results, LeavesOf(results), failure);
    EntriesIncrease(results);
    forall e | e in m.committed ensures CanonicalEntry(e, m.incarnation, m.epochs) {
      EntriesAreTheTable(results, e);
    }
    if status == Complete {
      EntriesOfFullTable(results);
    }
  }

  lemma TableIsBacked(
    w: World, files: Results, m: RunManifest, blocks: seq<ScenarioBlock>, results: Table)
    requires ValidLayout(w.layout)
    requires GoodTable(w, results, m.incarnation, blocks) && TableOnDisk(w, files, results)
    requires m.epochs == EpochsOf(blocks) && m.committed == EntriesOf(results)
    ensures AllBacked(w, files, m)
  {
    forall e | e in m.committed ensures EntryBacked(w, files, m, e) {
      EntriesAreTheTable(results, e);
    }
  }

  /** A manifest built over honest, durable results passes validation, and loading it gives the
      results back. */
  lemma BuiltSnapshotIsValid(
    w: World, files: Results, sequence: u64, incarnation: u64, status: RunStatus, blocks: seq<ScenarioBlock>,
    results: Table, failure: Option<FailureRecord>)
    requires ValidLayout(w.layout) && incarnation != 0
    requires GoodTable(w, results, incarnation, blocks) && GoodLeases(blocks)
    requires TableOnDisk(w, files, results)
    requires status == Failed <==> failure.Some?
    requires status == Complete ==> forall i :: 0 <= i < |results| ==> results[i].Some?
    ensures var m := MakeManifest(
              w, sequence, incarnation, status, blocks, results, LeavesOf(results), failure);
            ValidSnapshot(w, files, m) && Loaded(w, files, m) == results
  {
    var m := MakeManifest(w, sequence, incarnation, status, blocks, results, LeavesOf(results), failure);
    TableIsCanonical(w, sequence, incarnation, status, blocks, results, failure);
    TableIsBacked(w, files, m, blocks, results);
    LoadedIsTheTable(w, files, m, results);
  }

  function RefKeys(m: RunManifest): set<ResultKey>
  {
    set e | e in m.committed :: EntryKey(e)
  }

  /** Validity depends only on the files a snapshot references. */
  lemma SnapshotStable(w: World, files: Results, files': Results, m: RunManifest)
    requires ValidLayout(w.layout) && ValidSnapshot(w, files, m)
    requires forall k :: k in RefKeys(m) && k in files ==>
               k in files' && files'[k] == files[k]
    ensures ValidSnapshot(w, files', m) && Loaded(w, files', m) == Loaded(w, files, m)
  {
    forall e | e in m.committed ensures EntryBacked(w, files', m, e) {
      assert EntryBacked(w, files, m, e);
      assert EntryKey(e) in RefKeys(m);
    }
    forall i | 0 <= i < N(w) ensures Loaded(w, files', m)[i] == Loaded(w, files, m)[i] {
      var f := FindEntry(m.committed, i);
      if f.Some? {
        assert EntryBacked(w, files, m, f.value);
        assert EntryKey(f.value) in RefKeys(m);
      }
    }
    assert Loaded(w, files', m) == Loaded(w, files, m);
  }

  // ---------------------------------------------------------------- what validation protects from

  /** A coordinator that holds the lease under which r was computed and has committed nothing. */
  function LeaseHolder(w: World, r: BlockResult): (st: CoordinatorState)
    requires ValidLayout(w.layout)
    ensures ValidState(st)
  {
    CoordinatorState(w.identity, r.block.incarnation, w.layout.antithetic,
                     seq(N(w), i requires 0 <= i < N(w) => Block(w.layout, i, r.block.incarnation, r.block.epoch)),
                     seq(N(w), _ => None))
  }

  /** Recovery takes over nothing that the coordinator would not have accepted: whatever the result files say,
      each result loaded from a valid snapshot is named by a row with the same lease and checksum, its lease is
      not ahead of the snapshot's, its file belongs to this run, and validate_result accepts it for the holder
      of its lease. */
  lemma LoadedWouldBeAccepted(w: World, files: Results, m: RunManifest, i: nat)
    requires ValidLayout(w.layout) && ValidSnapshot(w, files, m) && i < N(w) && Loaded(w, files, m)[i].Some?
    ensures var r := Loaded(w, files, m)[i].value;
      && r.block.id == i && ValidateResult(w.sem, r, LeaseHolder(w, r)) == Accepted
      && ManifestEntry(i, r.block.incarnation, r.block.epoch, r.checksum) in m.committed
      && 0 < r.block.incarnation <= m.incarnation && i < |m.epochs| && 0 < r.block.epoch <= m.epochs[i]
      && (r.block.incarnation == m.incarnation ==> r.block.epoch == m.epochs[i])
      && var k := ResultKey(i, r.block.incarnation, r.block.epoch);
         k in files && files[k] == Readable(DurableBlockRecord(w.runId, r))
  {
    var e := FindEntry(m.committed, i).value;
    assert EntryBacked(w, files, m, e) && CanonicalEntry(e, m.incarnation, m.epochs);
    var r, st := Loaded(w, files, m)[i].value, LeaseHolder(w, Loaded(w, files, m)[i].value);
    assert st.blocks[i] == Block(w.layout, i, r.block.incarnation, r.block.epoch);
    assert ExpectedObservations(st, i) == Observations(w.layout, i);
  }

  /** Tampering is evident: two directories that both back the same manifest agree on which blocks it holds, and
      on every aggregate, unless two different aggregates have the same SHA-256. */
  lemma TamperEvident(w: World, files: Results, files': Results, m: RunManifest, i: nat)
    requires ValidLayout(w.layout) && ValidSnapshot(w, files, m) && ValidSnapshot(w, files', m) && i < N(w)
    ensures var a, b := Loaded(w, files, m)[i], Loaded(w, files', m)[i];
      && (a.Some? <==> b.Some?)
      && (a.Some? ==>
            && a.value.block == b.value.block && a.value.identity == b.value.identity
            && w.sem.hash(a.value.aggregate) == w.sem.hash(b.value.aggregate) == a.value.checksum)
  {
    if Loaded(w, files, m)[i].Some? {
      var e := FindEntry(m.committed, i).value;
      assert EntryBacked(w, files, m, e) && EntryBacked(w, files', m, e);
    }
  }

  /** Every readable result file holds the honest result its name announces. */
  ghost predicate HonestFiles(w: World, files: Results)
    requires ValidLayout(w.layout)
  {
    forall k :: k in files && files[k].Readable? ==>
      var record := files[k].content;
      && record.runId == w.runId && HonestResult(w, record.result) && KeyOf(record.result) == k
  }

  /** Loading loses and invents no row. */
  lemma LoadedEntries(w: World, files: Results, m: RunManifest)
    requires ValidLayout(w.layout) && AllBacked(w, files, m) && CanonicalManifest(m)
    ensures InPlace(Loaded(w, files, m)) && EntriesOf(Loaded(w, files, m)) == m.committed
  {
    var t := Loaded(w, files, m);
    forall i | 0 <= i < N(w) && t[i].Some? ensures t[i].value.block.id == i && EntryOf(t[i].value) in m.committed {
      assert EntryBacked(w, files, m, FindEntry(m.committed, i).value);
    }
    assert InPlace(t);
    forall e ensures e in EntriesOf(t) <==> e in m.committed {
      EntriesAreTheTable(t, e);
      if e in m.committed {
        assert EntryBacked(w, files, m, e);
        FindEntryIsTheEntry(m.committed, e);
      }
    }
    EntriesIncrease(t);
    SameEntries(EntriesOf(t), m.committed);
  }

  /** Results on disk that a coordinator holding their leases would accept, under leases the snapshot allows. */
  ghost predicate Acceptable(w: World, files: Results, m: RunManifest, t: Table)
    requires ValidLayout(w.layout)
  {
    && |t| == N(w) == |m.epochs| && TableOnDisk(w, files, t)
    && forall i :: 0 <= i < N(w) && t[i].Some? ==>
         && t[i].value.block.id == i && ValidateResult(w.sem, t[i].value, LeaseHolder(w, t[i].value)) == Accepted
         && Leased(t[i].value, m.incarnation, m.epochs[i])
  }

  /** m records exactly the results t. */
  ghost predicate Records(w: World, m: RunManifest, t: Table)
  {
    && m.committed == EntriesOf(t) && m.aggregate == Tree(w.merge, EMPTY_AGGREGATE, LeavesOf(t))
    && (m.status == Complete ==> forall i :: 0 <= i < |t| ==> t[i].Some?)
  }

  /** What holds of the header of every snapshot of this run. */
  ghost predicate OwnHeader(w: World, m: RunManifest)
    requires ValidLayout(w.layout)
  {
    && m.runId == w.runId && m.identity == w.identity && m.blockCount == N(w) && m.incarnation > 0
    && (forall i :: 0 <= i < |m.epochs| ==> m.epochs[i] > 0) && (m.status == Failed <==> m.failure.Some?)
  }

  lemma ValidRecords(w: World, files: Results, m: RunManifest)
    requires ValidLayout(w.layout) && ValidSnapshot(w, files, m)
    ensures OwnHeader(w, m) && Acceptable(w, files, m, Loaded(w, files, m)) && Records(w, m, Loaded(w, files, m))
  {
    var t := Loaded(w, files, m);
    LoadedEntries(w, files, m);
    forall i | 0 <= i < N(w) && t[i].Some?
      ensures t[i].value.block.id == i && ValidateResult(w.sem, t[i].value, LeaseHolder(w, t[i].value)) == Accepted
      ensures Leased(t[i].value, m.incarnation, m.epochs[i])
      ensures KeyOf(t[i].value) in files
      ensures files[KeyOf(t[i].value)] == Readable(DurableBlockRecord(w.runId, t[i].value))
    {
      LoadedWouldBeAccepted(w, files, m, i);
    }
  }

  lemma AcceptedFields(w: World, r: BlockResult)
    requires ValidLayout(w.layout) && ValidateResult(w.sem, r, LeaseHolder(w, r)) == Accepted
    ensures r.identity == w.identity && r.block.id < N(w) && r.checksum == w.sem.hash(r.aggregate)
    ensures r.block == Block(w.layout, r.block.id, r.block.incarnation, r.block.epoch)
    ensures r.aggregate.n == Observations(w.layout, r.block.id) && w.sem.wellFormed(r.aggregate)
  {
    var st := LeaseHolder(w, r);
    assert r.block.id < N(w) ==> ExpectedObservations(st, r.block.id) == Observations(w.layout, r.block.id);
  }

  lemma RecordsAreValid(w: World, files: Results, m: RunManifest, t: Table)
    requires ValidLayout(w.layout) && OwnHeader(w, m) && Acceptable(w, files, m, t) && Records(w, m, t)
    ensures ValidSnapshot(w, files, m)
  {
    EntriesIncrease(t);
    forall e | e in m.committed ensures CanonicalEntry(e, m.incarnation, m.epochs) && EntryBacked(w, files, m, e) {
      EntriesAreTheTable(t, e);
      AcceptedFields(w, t[e.blockId].value);
    }
    LoadedIsTheTable(w, files, m, t);
    if m.status == Complete {
      EntriesOfFullTable(t);
    }
  }

  /** validate_manifest_snapshot, exactly, on arbitrary directories: it passes if and only if the snapshot has
      this run's header and records results that are on disk and that the coordinator itself would accept from
      the holders of their leases. */
  lemma ValidExactly(w: World, files: Results, m: RunManifest)
    requires ValidLayout(w.layout)
    ensures ValidSnapshot(w, files, m) <==>
      OwnHeader(w, m) && exists t :: Acceptable(w, files, m, t) && Records(w, m, t)
  {
    hide Acceptable, Records, OwnHeader;
    if ValidSnapshot(w, files, m) {
      ValidRecords(w, files, m);
    } else if OwnHeader(w, m) && exists t :: Acceptable(w, files, m, t) && Records(w, m, t) {
      var t :| Acceptable(w, files, m, t) && Records(w, m, t);
      RecordsAreValid(w, files, m, t);
    }
  }

  /** Recovery from any valid snapshot of an honest disk yields honest results in their places. */
  lemma LoadedIsGood(w: World, files: Results, m: RunManifest, blocks: seq<ScenarioBlock>)
    requires ValidLayout(w.layout) && HonestFiles(w, files) && ValidSnapshot(w, files, m)
    requires |blocks| == N(w) && EpochsOf(blocks) == m.epochs
    ensures GoodTable(w, Loaded(w, files, m), m.incarnation, blocks)
    ensures TableOnDisk(w, files, Loaded(w, files, m))
    ensures EntriesOf(Loaded(w, files, m)) == m.committed
  {
    var t := Loaded(w, files, m);
    forall i | 0 <= i < N(w) && t[i].Some?
      ensures HonestResult(w, t[i].value) && t[i].value.block.id == i
      ensures Leased(t[i].value, m.incarnation, blocks[i].epoch)
      ensures KeyOf(t[i].value) in files
      ensures files[KeyOf(t[i].value)] == Readable(DurableBlockRecord(w.runId, t[i].value))
    {
      var e := FindEntry(m.committed, i).value;
      assert EntryBacked(w, files, m, e);
      assert CanonicalEntry(e, m.incarnation, m.epochs);
      assert m.epochs[i] == blocks[i].epoch;
      assert e == EntryOf(t[i].value);
    }
    LoadedEntries(w, files, m);
  }

  lemma NonEmptyHasMember(b: seq<ManifestEntry>)
    ensures b != [] ==> exists e :: e in b
  {
    if b != [] {
      assert b[0] in b;
    }
  }

  /** A strictly increasing sequence of rows is determined by its members. */
  lemma {:induction false} SameEntries(a: seq<ManifestEntry>, b: seq<ManifestEntry>)
    requires StrictlyIncreasing(a) && StrictlyIncreasing(b)
    requires forall e :: e in a <==> e in b
    ensures a == b
    decreases |a|
  {
    if |a| == 0 {
      NonEmptyHasMember(b);
    } else {
      assert a[0] in b && |b| > 0 && b[0] in a;
      var i :| 0 <= i < |b| && b[i] == a[0];
      var j :| 0 <= j < |a| && a[j] == b[0];
      assert i == 0 && j == 0;
      forall e ensures e in a[1..] <==> e in b[1..] {
        assert e in a[1..] ==> e.blockId > a[0].blockId;
        assert e in b[1..] ==> e.blockId > b[0].blockId;
        assert e in a <==> e == a[0] || e in a[1..];
        assert e in b <==> e == b[0] || e in b[1..];
      }
      SameEntries(a[1..], b[1..]);
      assert a == [a[0]] + a[1..] && b == [b[0]] + b[1..];
    }
  }
}
