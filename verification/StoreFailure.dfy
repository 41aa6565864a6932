/** What a rejected message leaves behind, and that a terminal run stays as it is. */
module StoreFailure {
  import opened Types
  import opened Blocks
  import opened Coordinator
  import opened Reduction
  import opened Snapshot
  import opened StoreMachine
  import opened StoreInvariant
  import opened StorePreservation
  import opened StoreTheorems
  import opened StoreLostWork
  import opened StoreProgress
  import opened DurableRun

  // ---------------------------------------------------------------- fatal messages

  /** The checksum committed for a block id, ids beyond the run counting as its last block; zeros if none is. */
  ghost predicate IsReported(payloads: seq<Option<Digest>>, id: u64, c: Digest)
    requires |payloads| >= 1
  {
    var entry := payloads[if id < |payloads| then id else |payloads| - 1];
    if entry.Some? then c == entry.value else c == ZERO_DIGEST
  }

  /** The manifest of a run that a message has ended. */
  ghost predicate FailedBy(w: World, st: Store, msg: BlockResult, status: ValidationStatus, m: RunManifest)
    requires ValidLayout(w.layout) && SizesAgree(w, st) && N(w) >= 1
  {
    && m.runId == w.runId && m.identity == w.identity && m.blockCount == N(w)
    && m.status == Failed && m.sequence as int == st.sequence as int + 1 && m.incarnation == st.incarnation
    && |m.epochs| == N(w) && (forall i :: 0 <= i < N(w) ==> m.epochs[i] == st.coordinator.blocks[i].epoch)
    && (forall e :: e in m.committed <==>
          e.blockId < N(w) && st.received[e.blockId] && st.durable[e.blockId].Some? &&
          e == EntryOf(st.durable[e.blockId].value))
    && m.aggregate == Tree(w.merge, EMPTY_AGGREGATE, st.leaves)
    && m.failure.Some?
    && var f := m.failure.value;
       && f.status == status && f.blockId == msg.block.id && f.incarnation == msg.block.incarnation
       && f.epoch == msg.block.epoch && f.observed == msg.checksum
       && IsReported(st.coordinator.payloads, msg.block.id, f.committed) && f.reason == w.reason(msg, status)
  }

  lemma FailureCheckpointExists(w: World, st: Store, f: FailureRecord)
    requires ValidWorld(w) && StoreOK(w, st) && st.status == Running
    ensures CheckpointManifest(w, st, Failed, Some(f)).Some? <==> st.sequence != U64_MAX
  {
    CheckpointFindsEvidence(w, st);
  }

  lemma FailureManifest(w: World, st: Store, msg: BlockResult, v: ValidationStatus, m: RunManifest)
    requires ValidWorld(w) && StoreOK(w, st) && SizesAgree(w, st)
    requires CheckpointManifest(w, st, Failed, Some(FailureOf(w, st, msg, v))) == Some(m)
    ensures FailedBy(w, st, msg, v, m)
  {
    CheckpointManifestIs(w, st, Failed, Some(FailureOf(w, st, msg, v)), m);
    CommittedInPlace(w, st);
    forall e ensures e in m.committed <==>
      e.blockId < N(w) && st.received[e.blockId] && st.durable[e.blockId].Some? &&
      e == EntryOf(st.durable[e.blockId].value)
    {
      EntriesAreTheTable(st.durable, e);
    }
    hide CheckpointManifest, GoodTable, LeavesOf, Tree;
  }

  /** A message that is neither accepted nor benign ends the process. If a sequence number is left it leaves
      exactly one more manifest, which names every received block and records the status, the message and the
      checksum that is committed; nothing else on disk changes. */
  lemma FatalDeliveryLeaves(w: World, s: State, st: Store, msg: BlockResult)
    requires ValidWorld(w) && Inv(w, s) && s.phase == Serving(st) && StoreOK(w, st) && SizesAgree(w, st)
    requires Deliverable(w, msg)
    requires var v := ValidateResult(w.sem, msg, st.coordinator); v != Accepted && !IsBenignRejection(v)
    ensures var v, t := ValidateResult(w.sem, msg, st.coordinator), Delivered(w, s, msg);
      && !t.phase.Serving?
      && if st.sequence == U64_MAX then t.disk == s.disk
         else
           exists m :: FailedBy(w, st, msg, v, m) &&
             t.disk == s.disk.(manifests := s.disk.manifests[m.sequence := Readable(m)])
  {
    hide Inv, StoreOK, Deliverable, ValidateResult, Delivered, CheckpointManifest, FailureOf, FailedBy;
    ServingFacts(w, s, st);
    BlocksExist(w, st);
    var v := ValidateResult(w.sem, msg, st.coordinator);
    FatalDelivery(w, s, st, msg, v);
    FailureCheckpointExists(w, st, FailureOf(w, st, msg, v));
    var c := CheckpointManifest(w, st, Failed, Some(FailureOf(w, st, msg, v)));
    if c.Some? {
      FailureManifest(w, st, msg, v, c.value);
    }
  }

  /** Corruption is never dropped silently: a message that is of this run, for a block of it and well formed, but
      whose payload contradicts its checksum, stops the process and is recorded as corrupt. */
  lemma CorruptionStopsTheRun(w: World, s: State, st: Store, msg: BlockResult)
    requires ValidWorld(w) && Inv(w, s) && s.phase == Serving(st) && StoreOK(w, st) && SizesAgree(w, st)
    requires st.sequence != U64_MAX
    requires msg.identity == w.identity && msg.block.id < N(w)
    requires msg.block == Block(w.layout, msg.block.id, st.incarnation, msg.block.epoch)
    requires msg.aggregate.n == Observations(w.layout, msg.block.id) && w.sem.wellFormed(msg.aggregate)
    requires w.sem.hash(msg.aggregate) != msg.checksum
    ensures var t := Delivered(w, s, msg);
      && !t.phase.Serving?
      && exists m :: FailedBy(w, st, msg, CorruptPayload, m) &&
           t.disk == s.disk.(manifests := s.disk.manifests[m.sequence := Readable(m)])
  {
    var b := st.coordinator.blocks[msg.block.id];
    assert b == Block(w.layout, msg.block.id, st.incarnation, b.epoch);
    assert ExpectedObservations(st.coordinator, msg.block.id) == Observations(w.layout, msg.block.id);
    hide Inv, StoreOK, Delivered, FailedBy;
    CorruptPayloadExactly(w.sem, msg, st.coordinator) by { CoordinatorIsReady(w, st); }
    FatalDeliveryLeaves(w, s, st, msg);
  }

  lemma CoordinatorIsReady(w: World, st: Store)
    requires ValidWorld(w) && StoreOK(w, st)
    ensures ValidState(st.coordinator)
  {
  }

  // ---------------------------------------------------------------- terminal runs

  /** The newest manifest of an undecayed disk is not running. */
  ghost predicate Terminal(d: Disk)
  {
    && d.manifests != map[]
    && var h := Highest(d.manifests.Keys);
       d.manifests[h].Readable? && d.manifests[h].content.status != Running
  }

  /** Nothing can be installed behind a terminal manifest. */
  lemma NoSuccessor(w: World, s: State)
    requires ValidWorld(w) && Inv(w, s) && s.pristine && Terminal(s.disk)
    requires s.phase.Install? && s.phase.stage != Renamed
    ensures !s.phase.artifact.ManifestFile?
  {
    if s.phase.artifact.ManifestFile? {
      var h := Highest(s.disk.manifests.Keys);
      BehindTheNewest(w, s, s.phase.artifact.manifest, h);
      InstallsInOrder(w, s);
      hide Inv;
      RunningBefore(s.disk, s.phase.artifact.manifest, h);
      assert false;
    }
  }

  lemma InstallsInOrder(w: World, s: State)
    requires ValidWorld(w) && Inv(w, s) && s.pristine && s.phase.Install? && s.phase.stage != Renamed
    ensures Ordered(Installed(s.disk, s.phase.artifact))
  {
    hide NextOK, LogOK, Ordered, Installed;
  }

  lemma RunningBefore(d: Disk, m: RunManifest, h: u64)
    requires Ordered(Installed(d, ManifestFile(m))) && h in d.manifests && d.manifests[h].Readable? && h < m.sequence
    ensures d.manifests[h].content.status == Running
  {
    var d' := Installed(d, ManifestFile(m));
    assert d'.manifests[h] == d.manifests[h] && d'.manifests[m.sequence] == Readable(m);
  }

  lemma BehindTheNewest(w: World, s: State, m: RunManifest, h: u64)
    requires ValidWorld(w) && Inv(w, s) && s.phase.Install? && s.phase.stage != Renamed
    requires s.phase.artifact == ManifestFile(m) && h in s.disk.manifests
    ensures m.sequence > h
  {
    hide Inv;
    NameIsFree(w, s);
    LogHasNoGaps(w, s);
  }

  lemma LogHasNoGaps(w: World, s: State)
    requires ValidWorld(w) && Inv(w, s)
    ensures forall x, y :: x in s.disk.manifests && 0 <= y < x ==> y in s.disk.manifests
  {
    hide PhaseOK, DiskOK, SlackUpTo;
  }

  /** A process that serves, or has finished, knows the newest manifest. */
  lemma TerminalPhases(w: World, s: State)
    requires ValidWorld(w) && Inv(w, s) && s.pristine && Terminal(s.disk)
    ensures !s.phase.Serving? && !s.phase.ResultAccepted?
    ensures s.phase.Finished? ==> s.disk.manifests[Highest(s.disk.manifests.Keys)].content.status == Complete
  {
    hide StoreOK, DiskOK, LogShape, TableOnDisk, NamesOnDisk, Tidy, Uncommitted, AllReceived, OutcomeOK, NextOK;
  }

  lemma TerminalStep(w: World, s: State, a: Action)
    requires ValidWorld(w) && Inv(w, s) && s.pristine && Terminal(s.disk)
    requires !a.SpoilMetadata? && !a.SpoilResult? && !a.SpoilManifest?
    ensures Step(w, s, a).disk.manifests == s.disk.manifests
  {
    hide Inv, Step, Terminal;
    StepFiles(w, s, a);
    if s.phase.Install? && s.phase.stage != Renamed {
      NoSuccessor(w, s);
    }
  }

  lemma {:induction false} TerminalRun(w: World, s: State, actions: seq<Action>)
    requires ValidWorld(w) && Inv(w, s) && s.pristine && Terminal(s.disk) && CrashesOnly(actions)
    ensures var t := Run(w, s, actions);
      t.disk.manifests == s.disk.manifests && Inv(w, t) && t.pristine
    decreases |actions|
  {
    hide Inv, Step, Terminal;
    if actions != [] {
      assert actions[0] in actions;
      TerminalStep(w, s, actions[0]);
      StepKeepsInv(w, s, actions[0]);
      StepKeepsPristine(w, s, actions[0]);
      var s' := Step(w, s, actions[0]);
      assert Terminal(s'.disk) by { SameNewest(s.disk, s'.disk); }
      TerminalRun(w, s', actions[1..]);
    }
  }

  lemma SameNewest(d: Disk, d': Disk)
    requires Terminal(d) && d'.manifests == d.manifests
    ensures Terminal(d')
  {
  }

  /** A terminal run is final: once the newest manifest is complete or failed, no sequence of processes and
      crashes ever installs another manifest or waits for results, and behind a failed manifest none ever
      finishes. */
  lemma TerminalIsFinal(w: World, before: seq<Action>, after: seq<Action>)
    requires ValidWorld(w) && CrashesOnly(before) && CrashesOnly(after)
    requires Terminal(Run(w, Init(), before).disk)
    ensures var s := Run(w, Init(), before);
      var t := Run(w, s, after);
      && t.disk.manifests == s.disk.manifests
      && !t.phase.Serving? && !t.phase.ResultAccepted?
      && (s.disk.manifests[Highest(s.disk.manifests.Keys)].content.status == Failed ==> !t.phase.Finished?)
  {
    hide Run, Inv, Terminal, PristineDisk;
    CrashesOnlyInv(w, before);
    var s := Run(w, Init(), before);
    TerminalRun(w, s, after);
    SameNewest(s.disk, Run(w, s, after).disk);
    TerminalPhases(w, Run(w, s, after));
  }
}
