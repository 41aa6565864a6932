/** What record_result, checkpoint and the write of one file leave behind, and when checkpoints are taken. */
module StoreCheckpoint {
  import opened Types
  import opened Blocks
  import opened Coordinator
  import opened Reduction
  import opened Snapshot
  import opened StoreMachine
  import opened StoreInvariant
  import opened StorePreservation
  import opened StoreLostWork

  // ---------------------------------------------------------------- one file

  /** Writing a file succeeds over an existing one exactly when that changes nothing. */
  lemma SameBytesExactly(d: Disk, a: Artifact)
    requires Exists(d, a)
    ensures SameBytes(d, a) <==> Installed(d, a) == d
  {
  }

  /** A taken name, in any state: the step goes on if writing the file again would change nothing, and otherwise the
      process gives up; the disk stays as it is either way. */
  lemma ConflictStops(w: World, s: State, a: Artifact, slack: bool, next: Continuation)
    requires ValidWorld(w) && s.phase == Install(a, Unwritten, slack, next) && Exists(s.disk, a)
    ensures var s' := Step(w, s, Advance);
      && s'.disk == s.disk
      && s'.phase == if Installed(s.disk, a) == s.disk then Resume(w, next) else Down
  {
    SameBytesExactly(s.disk, a);
    hide SameBytes, Installed, Exists, Resume;
  }

  /** A free name is taken by the new file and nothing else changes. */
  lemma InstalledAlone(d: Disk, a: Artifact)
    requires !Exists(d, a)
    ensures var d' := Installed(d, a);
      && Exists(d', a) && SameBytes(d', a) && d'.tmp == d.tmp
      && (!a.MetadataFile? ==> d'.metadata == d.metadata)
      && (forall k :: k in d'.results <==> k in d.results || (a.ResultFile? && k == KeyOf(a.record.result)))
      && (forall k :: k in d.results ==> d'.results[k] == d.results[k])
      && (forall x :: x in d'.manifests <==> x in d.manifests || (a.ManifestFile? && x == a.manifest.sequence))
      && (forall x :: x in d.manifests ==> d'.manifests[x] == d.manifests[x])
  {
  }

  // ---------------------------------------------------------------- recording a result

  /** record_result in any memory: it gives up on a message that it does not allow and on one whose block has other
      evidence; the same evidence is taken silently; without evidence the result is about to be written under its
      block, incarnation and epoch. */
  lemma RecordDecides(w: World, st: Store, msg: BlockResult)
    requires ValidWorld(w) && StoreReady(w, st)
    ensures var p := RecordPhase(w, st, msg);
      && (p.Down? || p.ResultAccepted? || p.Install?)
      && (p.Install? ==> p.stage == Unwritten && p.artifact == ResultFile(DurableBlockRecord(w.runId, msg)))
      && (p.Install? <==> RecordAllowed(w, st, msg) && st.durable[msg.block.id].None?)
      && (p.ResultAccepted? <==>
            && RecordAllowed(w, st, msg) && st.durable[msg.block.id].Some?
            && var prior := st.durable[msg.block.id].value;
               && prior.checksum == msg.checksum && prior.block.id == msg.block.id
               && prior.block.incarnation == msg.block.incarnation && prior.block.epoch == msg.block.epoch)
  {
    hide RecordAllowed, AcceptedStore;
    assert RecordAllowed(w, st, msg) ==> msg.block.id < N(w) by { AllowedIsInRange(w, st, msg); }
  }

  lemma AllowedIsInRange(w: World, st: Store, msg: BlockResult)
    requires ValidWorld(w) && StoreReady(w, st)
    ensures RecordAllowed(w, st, msg) ==> msg.block.id < |st.durable| == N(w)
  {
  }

  // ---------------------------------------------------------------- what a checkpoint contains

  /** A received block whose result is durable, with the committed checksum and the leaf it was given. */
  predicate HasEvidence(st: Store, i: nat)
    requires i < |st.durable| && i < |st.leaves| && i < |st.coordinator.payloads|
  {
    && st.durable[i].Some? && st.coordinator.payloads[i] == Some(st.durable[i].value.checksum)
    && st.durable[i].value.aggregate == st.leaves[i]
  }

  /** On an arbitrary memory, consistent or not: checkpoint goes through exactly for a running store with the
      coordinator of its run and incarnation, evidence for every received block, a complete run only if all are
      received, a failure record only for a failed one, and a sequence number left. */
  lemma CheckpointExactly(w: World, st: Store, status: RunStatus, failure: Option<FailureRecord>)
    requires ValidWorld(w) && SizesAgree(w, st)
    ensures CheckpointManifest(w, st, status, failure).Some? <==>
      && st.status == Running && st.coordinator.incarnation == st.incarnation && st.sequence < U64_MAX
      && st.coordinator.identity == w.identity.(rngVersion := st.coordinator.identity.rngVersion,
                                                statsSchema := st.coordinator.identity.statsSchema)
      && (status == Failed <==> failure.Some?) && (status == Complete ==> AllReceived(st))
      && forall i :: 0 <= i < N(w) && st.received[i] ==> HasEvidence(st, i)
  {
  }

  /** The rows are exactly the received durable results, and the header continues the store. */
  lemma CheckpointContains(w: World, st: Store, status: RunStatus, failure: Option<FailureRecord>, e: ManifestEntry)
    requires ValidWorld(w) && SizesAgree(w, st) && InPlace(st.durable)
    requires CheckpointManifest(w, st, status, failure).Some?
    ensures var m := CheckpointManifest(w, st, status, failure).value;
      && m.runId == w.runId && m.identity == w.identity && m.blockCount == N(w)
      && m.sequence as int == st.sequence as int + 1 && m.incarnation == st.incarnation
      && m.status == status && m.failure == failure
      && |m.epochs| == N(w) && (forall i :: 0 <= i < N(w) ==> m.epochs[i] == st.coordinator.blocks[i].epoch)
      && m.aggregate == Tree(w.merge, EMPTY_AGGREGATE, st.leaves) && StrictlyIncreasing(m.committed)
      && (e in m.committed <==>
            && e.blockId < N(w) && st.received[e.blockId] && st.durable[e.blockId].Some?
            && var r := st.durable[e.blockId].value;
               e == ManifestEntry(r.block.id, r.block.incarnation, r.block.epoch, r.checksum))
  {
    EntriesAreTheTable(Evidence(st), e);
    EntriesIncrease(Evidence(st));
    hide EvidenceMatches, Tree, EntriesOf;
  }

  // ---------------------------------------------------------------- when checkpoints are taken

  lemma {:induction false} RunOwnInterval(w: World, s: State, actions: seq<Action>)
    requires ValidWorld(w) && OwnInterval(s) && ResultsContinue(s.phase)
    ensures OwnInterval(Run(w, s, actions))
    decreases |actions|
  {
    hide Step, OwnInterval, ResultsContinue;
    if actions != [] {
      StepIntervals(w, s, actions[0], U64_MAX);
      RunOwnInterval(w, Step(w, s, actions[0]), actions[1..]);
    }
  }

  /** Enough result files are not named by the last manifest, and the run is not yet complete. */
  ghost predicate Due(s: State, st: Store)
  {
    |Uncommitted(s.disk.results, st)| >= s.interval && !AllReceived(st)
  }

  /** After an accepted result, in every run: a checkpoint is installed exactly when as many result files as the
      configured interval are unnamed and a block is missing; it is the next running manifest and names exactly
      the received blocks. Otherwise the process serves on. */
  lemma CheckpointWhenDue(w: World, actions: seq<Action>, st: Store, i: nat)
    requires ValidWorld(w) && Run(w, Init(), actions).phase == ResultAccepted(st)
    requires i < |st.received|
    ensures var s := Run(w, Init(), actions);
      var s' := Step(w, s, Advance);
      && s'.disk == s.disk && st.interval == s.interval
      && (!Due(s, st) ==> s'.phase == Serving(st))
      && (Due(s, st) && st.sequence == U64_MAX ==> s'.phase == Down)
      && (Due(s, st) && st.sequence < U64_MAX ==>
            && s'.phase.Install? && s'.phase.artifact.ManifestFile? && s'.phase.next.ToServing?
            && var m := s'.phase.artifact.manifest;
               && m.status == Running && m.sequence as int == st.sequence as int + 1
               && (st.received[i] <==> exists e :: e in m.committed && e.blockId == i))
  {
    hide Run, Inv;
    InitOK(w);
    RunKeepsInv(w, Init(), actions);
    RunOwnInterval(w, Init(), actions);
    var s := Run(w, Init(), actions);
    AcceptedPhase(w, s, st);
    AdvanceAccepted(w, s, st, i);
  }

  lemma AcceptedPhase(w: World, s: State, st: Store)
    requires ValidWorld(w) && Inv(w, s) && s.phase == ResultAccepted(st) && OwnInterval(s)
    ensures StoreOK(w, st) && StoreReady(w, st) && st.status == Running && st.interval == s.interval
    ensures |Uncommitted(s.disk.results, st)| == st.pending
  {
    hide BaseOK, Tidy, Uncommitted, MemoryMatchesDisk;
  }

  lemma AdvanceAccepted(w: World, s: State, st: Store, i: nat)
    requires ValidWorld(w) && s.phase == ResultAccepted(st) && StoreOK(w, st) && StoreReady(w, st)
    requires st.status == Running && st.interval == s.interval && |Uncommitted(s.disk.results, st)| == st.pending
    requires i < |st.received|
    ensures var s' := Step(w, s, Advance);
      && s'.disk == s.disk
      && (!Due(s, st) ==> s'.phase == Serving(st))
      && (Due(s, st) && st.sequence == U64_MAX ==> s'.phase == Down)
      && (Due(s, st) && st.sequence < U64_MAX ==>
            && s'.phase.Install? && s'.phase.artifact.ManifestFile? && s'.phase.next.ToServing?
            && var m := s'.phase.artifact.manifest;
               && m.status == Running && m.sequence as int == st.sequence as int + 1
               && (st.received[i] <==> exists e :: e in m.committed && e.blockId == i))
  {
    FullCount(w, st);
    RunningCheckpoint(w, st, i);
    hide StoreOK, StoreReady, CheckpointManifest, Uncommitted, AllReceived;
  }

  lemma RunningCheckpoint(w: World, st: Store, i: nat)
    requires ValidWorld(w) && StoreOK(w, st) && st.status == Running && i < |st.received|
    ensures SizesAgree(w, st)
    ensures CheckpointManifest(w, st, Running, None).Some? <==> st.sequence < U64_MAX
    ensures st.sequence < U64_MAX ==>
      var m := CheckpointManifest(w, st, Running, None).value;
      && m.status == Running && m.sequence as int == st.sequence as int + 1
      && (st.received[i] <==> exists e :: e in m.committed && e.blockId == i)
  {
    CheckpointFindsEvidence(w, st);
    if st.sequence < U64_MAX {
      var m := CheckpointManifest(w, st, Running, None).value;
      forall e ensures e in m.committed <==>
        e.blockId < N(w) && st.received[e.blockId] && e == EntryOf(st.durable[e.blockId].value)
      {
        CheckpointContains(w, st, Running, None, e);
      }
      if st.received[i] {
        assert EntryOf(st.durable[i].value) in m.committed;
      }
    }
    hide CheckpointManifest, Tree, EntriesOf;
  }
}
