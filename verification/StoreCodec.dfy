/** The disk model keeps decoded values. This is justified by the codec: what a run without decay leaves on
    disk survives being written as bytes and read back. */
module StoreCodec {
  import opened Types
  import opened Blocks
  import opened Coordinator
  import opened Reduction
  import opened RecordCodec
  import opened ManifestCodec
  import opened Codec
  import opened Snapshot
  import opened StoreMachine
  import opened StoreInvariant
  import opened StoreTheorems

  // ---------------------------------------------------------------- aggregates stay well formed

  /** merge of well-formed aggregates is well formed, as its own final check demands. */
  ghost predicate MergeKeeps(w: World)
  {
    && w.sem.wellFormed(EMPTY_AGGREGATE)
    && forall a, b :: w.sem.wellFormed(a) && w.sem.wellFormed(b) ==> w.sem.wellFormed(w.merge(a, b))
  }

  lemma {:induction false} TreeWellFormed(w: World, leaves: seq<AggregateStats>)
    requires MergeKeeps(w) && forall i :: 0 <= i < |leaves| ==> w.sem.wellFormed(leaves[i])
    ensures w.sem.wellFormed(Tree(w.merge, EMPTY_AGGREGATE, leaves))
    decreases |leaves|
  {
    if |leaves| >= 2 {
      var p := SplitPoint(|leaves|);
      TreeSplits(w.merge, EMPTY_AGGREGATE, leaves);
      TreeWellFormed(w, leaves[..p]);
      TreeWellFormed(w, leaves[p..]);
    }
  }

  lemma SnapshotWellFormed(w: World, files: Results, m: RunManifest)
    requires ValidLayout(w.layout) && MergeKeeps(w) && ValidSnapshot(w, files, m)
    ensures w.sem.wellFormed(m.aggregate)
  {
    var t := Loaded(w, files, m);
    forall i | 0 <= i < N(w) ensures w.sem.wellFormed(LeavesOf(t)[i]) {
      var f := FindEntry(m.committed, i);
      if f.Some? { assert EntryBacked(w, files, m, f.value); }
    }
    TreeWellFormed(w, LeavesOf(t));
  }

  // ---------------------------------------------------------------- failure reasons stay short

  /** The coordinator's explanations stay within the codec's limit. */
  ghost predicate ShortReasons(w: World)
  {
    forall m, v :: |w.reason(m, v)| <= MAX_REASON_BYTES
  }

  ghost predicate ReasonFits(m: RunManifest)
  {
    m.failure.Some? ==> |m.failure.value.reason| <= MAX_REASON_BYTES
  }

  ghost predicate ReasonsFit(s: State)
  {
    && (forall x :: x in s.disk.manifests && s.disk.manifests[x].Readable? ==>
          ReasonFits(s.disk.manifests[x].content))
    && (s.phase.Install? && s.phase.artifact.ManifestFile? ==> ReasonFits(s.phase.artifact.manifest))
  }

  lemma CheckpointReason(w: World, s: State, st: Store, status: RunStatus, failure: Option<FailureRecord>)
    requires ValidLayout(w.layout) && SizesAgree(w, st) && ReasonsFit(s) && !s.phase.Install?
    requires failure.Some? ==> |failure.value.reason| <= MAX_REASON_BYTES
    ensures ReasonsFit(StepCheckpoint(w, s, st, status, failure))
  {
    hide EvidenceMatches, EntriesOf, Tree, Evidence, EpochsOf, Checkpointed;
  }

  lemma DeliverReason(w: World, s: State, st: Store, msg: BlockResult)
    requires ValidLayout(w.layout) && StoreReady(w, st) && ShortReasons(w) && ReasonsFit(s) && s.phase == Serving(st)
    ensures ReasonsFit(StepDeliver(w, s, st, msg))
  {
    var v := ValidateResult(w.sem, msg, st.coordinator);
    assert v == Accepted ==> msg.block.id < N(w);
    hide ValidateResult, StepCheckpoint, AcceptedStore;
    if !IsBenignRejection(v) && v != Accepted {
      CheckpointReason(w, s, st, Failed, Some(FailureOf(w, st, msg, v)));
    }
  }

  lemma LoadReason(w: World, s: State)
    requires ValidLayout(w.layout) && ReasonsFit(s)
    ensures ReasonsFit(StepLoad(w, s))
  {
    hide LatestSelectable, ValidSnapshot, Opened, Recovered, EntriesOf, LeavesOf, Tree, EpochsOf, InitialStore;
  }

  lemma AdvanceReason(w: World, s: State)
    requires ValidLayout(w.layout) && ReasonsFit(s)
    ensures ReasonsFit(StepAdvance(w, s))
  {
    hide StepLoad, StepCheckpoint, IsOrphan, OutcomeOf, SameBytes, ReasonFits, ValidState;
    LoadReason(w, s);
    if s.phase.Serving? && StoreReady(w, s.phase.store) {
      CheckpointReason(w, s, s.phase.store, Complete, None);
    }
    if s.phase.ResultAccepted? && StoreReady(w, s.phase.store) {
      CheckpointReason(w, s, s.phase.store, Running, None);
    }
  }

  lemma StepReason(w: World, s: State, a: Action)
    requires ValidWorld(w) && ShortReasons(w) && ReasonsFit(s)
    ensures ReasonsFit(Step(w, s, a))
  {
    hide StepAdvance, StepDeliver, StoreReady, Deliverable, IsOrphan, ReasonFits, Exists;
    AdvanceReason(w, s);
    if a.Deliver? && s.phase.Serving? && StoreReady(w, s.phase.store) {
      DeliverReason(w, s, s.phase.store, a.message);
    }
  }

  lemma {:induction false} RunReason(w: World, s: State, actions: seq<Action>)
    requires ValidWorld(w) && ShortReasons(w) && ReasonsFit(s)
    ensures ReasonsFit(Run(w, s, actions))
    decreases |actions|
  {
    hide Step, ReasonsFit;
    if actions != [] {
      StepReason(w, s, actions[0]);
      RunReason(w, Step(w, s, actions[0]), actions[1..]);
    }
  }

  // ---------------------------------------------------------------- bytes

  /** Every manifest that is on disk after any crashes is accepted by the encoder and decodes from its bytes
      to itself under every limit that preflight's manifest bound, and for a failed run the longest reason,
      fits in. */
  lemma ManifestsSurviveAsBytes(w: World, actions: seq<Action>, x: u64, limit: u64)
    requires ValidWorld(w) && MergeKeeps(w) && ShortReasons(w) && w.identity.statsSchema == STATS_SCHEMA
    requires CrashesOnly(actions) && x in Run(w, Init(), actions).disk.manifests
    ensures var file := Run(w, Init(), actions).disk.manifests[x];
      && file.Readable? && EncodeManifest(w.sem, file.content).Some?
      && (limit >= ManifestBound(N(w)) + FailureAllowance(file.content) ==>
            DecodeManifest(w.sem, EncodeManifest(w.sem, file.content).value, limit) == Some(file.content))
  {
    hide Run, EncodeManifest, DecodeManifest, MergeKeeps, Inv, AllBacked, CanonicalManifest;
    CrashesOnlyInv(w, actions);
    RunReason(w, Init(), actions);
    var s := Run(w, Init(), actions);
    assert Selectable(w, s.disk, x);
    var m := s.disk.manifests[x].content;
    SnapshotWellFormed(w, s.disk.results, m);
    hide PristineDisk;
    assert ReasonFits(m);
    EncoderAccepts(w.sem, m);
    ManifestSize(w.sem, m);
    if limit >= ManifestBound(N(w)) + FailureAllowance(m) {
      ManifestRoundTrip(w.sem, m, limit);
    }
  }

  lemma EncoderAccepts(sem: Semantics, m: RunManifest)
    requires Encodable(sem, m)
    ensures EncodeManifest(sem, m).Some?
  {
  }

  /** Every result file that an installed manifest names decodes from its bytes to itself. */
  lemma NamedRecordsSurviveAsBytes(w: World, actions: seq<Action>, x: u64, e: ManifestEntry)
    requires ValidWorld(w) && CrashesOnly(actions) && w.identity.statsSchema == STATS_SCHEMA
    requires var d := Run(w, Init(), actions).disk;
      x in d.manifests && d.manifests[x].Readable? && e in d.manifests[x].content.committed
    ensures var files := Run(w, Init(), actions).disk.results;
      && EntryKey(e) in files && files[EntryKey(e)].Readable?
      && var r := files[EntryKey(e)].content;
         && EncodeBlockRecord(w.sem, r).Some?
         && DecodeBlockRecord(w.sem, EncodeBlockRecord(w.sem, r).value) == Some(r)
  {
    hide Run, EncodeBlockRecord, DecodeBlockRecord;
    CrashesOnlyInv(w, actions);
    var d := Run(w, Init(), actions).disk;
    assert Selectable(w, d, x);
    assert EntryBacked(w, d.results, d.manifests[x].content, e);
    assert CanonicalEntry(e, d.manifests[x].content.incarnation, d.manifests[x].content.epochs);
    assert HonestFiles(w, d.results);
    hide Inv, PristineDisk, AllBacked, CanonicalManifest, ValidSnapshot;
    var r := d.results[EntryKey(e)].content;
    RecordAccepted(w.sem, r);
    BlockRecordRoundTrip(w.sem, r);
  }
}
