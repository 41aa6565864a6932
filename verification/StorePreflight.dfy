/** What the durable run writes, and why the estimate that open makes covers it: the artifacts installed by
    uninterrupted calls of the state machine follow the loop that Preflight counts. */
module StorePreflight {
  import opened Types
  import opened Basics
  import opened Blocks
  import opened Coordinator
  import opened Reduction
  import opened RecordCodec
  import opened ManifestCodec
  import opened Codec
  import opened Snapshot
  import opened StoreMachine
  import opened StoreInvariant
  import opened StorePreservation
  import opened StoreProgress
  import opened StoreCodec
  import opened DurableRun
  import P = Preflight

  function WriteOf(a: Artifact): P.Write
  {
    match a
    case MetadataFile(_) => P.Metadata(0)
    case ResultFile(record) => P.Record(record)
    case ManifestFile(m) => P.Snapshot(m)
  }

  function InstallWrites(p: Phase): seq<P.Write>
  {
    if p.Install? then [WriteOf(p.artifact)] else []
  }

  /** The files that one uninterrupted delivery installs. */
  ghost function DeliveryWrites(w: World, s: State, msg: BlockResult): seq<P.Write>
    requires ValidLayout(w.layout)
  {
    var s1 := Step(w, s, Deliver(msg));
    if !s1.phase.Install? then []
    else
      var s2 := AfterInstall(w, s1);
      InstallWrites(s1.phase) +
      if s2.phase.ResultAccepted? then InstallWrites(Step(w, s2, Advance).phase) else []
  }

  ghost function MessageWrites(w: World, s: State, msgs: seq<BlockResult>): seq<P.Write>
    requires ValidLayout(w.layout)
    decreases |msgs|
  {
    if msgs == [] || !s.phase.Serving? then []
    else DeliveryWrites(w, s, msgs[0]) + MessageWrites(w, Delivered(w, s, msgs[0]), msgs[1..])
  }

  /** Everything the consumer and the end of the loop install. */
  ghost function LoopWrites(w: World, s: State, msgs: seq<BlockResult>): seq<P.Write>
    requires ValidLayout(w.layout)
  {
    MessageWrites(w, s, msgs) + InstallWrites(Step(w, AfterMessages(w, s, msgs), Advance).phase)
  }

  // ---------------------------------------------------------------- everything written can be encoded

  lemma LeavesWellFormed(w: World, t: Table, incarnation: u64, blocks: seq<ScenarioBlock>)
    requires ValidWorld(w) && MergeKeeps(w) && GoodTable(w, t, incarnation, blocks)
    ensures w.sem.wellFormed(Tree(w.merge, EMPTY_AGGREGATE, LeavesOf(t)))
  {
    forall i | 0 <= i < |t| ensures w.sem.wellFormed(LeavesOf(t)[i]) {
      if t[i].Some? { assert HonestResult(w, t[i].value); }
    }
    TreeWellFormed(w, LeavesOf(t));
  }

  lemma TableManifestWritable(
    w: World, sequence: u64, incarnation: u64, status: RunStatus, blocks: seq<ScenarioBlock>, t: Table)
    requires ValidWorld(w) && MergeKeeps(w) && w.identity.statsSchema == STATS_SCHEMA
    requires incarnation != 0 && GoodTable(w, t, incarnation, blocks) && GoodLeases(blocks) && status != Failed
    requires status == Complete ==> forall i :: 0 <= i < N(w) ==> t[i].Some?
    ensures var m := MakeManifest(w, sequence, incarnation, status, blocks, t, LeavesOf(t), None);
      P.Writable(w.sem, N(w), P.Snapshot(m))
  {
    hide MergeKeeps, CanonicalManifest;
    assert |t| == N(w) == |blocks|;
    TableIsCanonical(w, sequence, incarnation, status, blocks, t, None);
    LeavesWellFormed(w, t, incarnation, blocks);
    hide GoodTable;
  }

  lemma StoreManifestWritable(w: World, st: Store, sequence: u64, status: RunStatus)
    requires ValidWorld(w) && MergeKeeps(w) && w.identity.statsSchema == STATS_SCHEMA && StoreOK(w, st)
    requires status != Failed && (status == Complete ==> AllReceived(st))
    ensures var m := MakeManifest(w, sequence, st.incarnation, status, st.coordinator.blocks, st.durable,
                                  LeavesOf(st.durable), None);
      P.Writable(w.sem, N(w), P.Snapshot(m))
  {
    hide MergeKeeps, GoodTable;
    assert GoodLeases(st.coordinator.blocks);
    if status == Complete {
      forall i | 0 <= i < N(w) ensures st.durable[i].Some? { assert st.received[i]; }
    }
    TableManifestWritable(w, sequence, st.incarnation, status, st.coordinator.blocks, st.durable);
  }

  lemma CheckpointWritable(w: World, st: Store, status: RunStatus)
    requires ValidWorld(w) && MergeKeeps(w) && w.identity.statsSchema == STATS_SCHEMA && StoreOK(w, st)
    requires status != Failed && CheckpointManifest(w, st, status, None).Some?
    ensures P.Writable(w.sem, N(w), P.Snapshot(CheckpointManifest(w, st, status, None).value))
  {
    assert StoreReady(w, st);
    hide MergeKeeps, StoreOK, MakeManifest, CheckpointManifest, P.Writable, ValidState;
    CheckpointManifestIs(w, st, status, None, CheckpointManifest(w, st, status, None).value);
    StoreManifestWritable(w, st, st.sequence + 1, status);
  }

  lemma RecordWritable(w: World, st: Store, msg: BlockResult)
    requires ValidWorld(w) && w.identity.statsSchema == STATS_SCHEMA && StoreOK(w, st) && Deliverable(w, msg)
    requires ValidateResult(w.sem, msg, st.coordinator) == Accepted
    ensures P.Writable(w.sem, N(w), P.Record(DurableBlockRecord(w.runId, msg)))
  {
    hide ValidateResult;
    AcceptedIsHonest(w, st, msg);
  }

  // ---------------------------------------------------------------- the order of the writes

  /** The counters that decide about the periodic checkpoint count the missing blocks. */
  lemma CountersAgree(w: World, st: Store)
    requires ValidWorld(w) && StoreOK(w, st)
    ensures st.recovered + st.computed < |st.coordinator.blocks| <==> Missing(w, st) > 0
    ensures Missing(w, st) == 0 <==> AllReceived(st)
  {
    CountIsFull(st.received);
  }

  lemma OneLessMissing(w: World, st: Store, st1: Store, i: nat)
    requires ValidWorld(w) && StoreOK(w, st) && StoreOK(w, st1) && i < N(w) && st.durable[i].None?
    requires st1.received == st.received[i := true]
    ensures Missing(w, st) == Missing(w, st1) + 1
  {
    CountAfterUpdate(st.received, i);
  }

  /** Whether accepting one more result makes a checkpoint due. */
  ghost predicate Due(w: World, st: Store)
    requires ValidLayout(w.layout) && StoreOK(w, st)
  {
    st.pending + 1 >= st.interval && Missing(w, st) > 1
  }

  /** An accepted result is one record, and one snapshot when the checkpoint is due. */
  lemma AcceptedWrites(w: World, s: State, st: Store, msg: BlockResult) returns (st': Store)
    requires ValidWorld(w) && MergeKeeps(w) && w.identity.statsSchema == STATS_SCHEMA
    requires Inv(w, s) && s.phase == Serving(st) && StoreOK(w, st) && Deliverable(w, msg)
    requires ValidateResult(w.sem, msg, st.coordinator) == Accepted && Delivered(w, s, msg).phase.Serving?
    ensures Delivered(w, s, msg).phase == Serving(st') && StoreOK(w, st') && st'.interval == st.interval
    ensures Missing(w, st) == Missing(w, st') + 1
    ensures st'.pending == if Due(w, st) then 0 else st.pending + 1
    ensures var ws := DeliveryWrites(w, s, msg);
      && |ws| == (if Due(w, st) then 2 else 1) && ws[0].Record? && (Due(w, st) ==> ws[1].Snapshot?)
      && P.AllWritable(w.sem, N(w), ws)
  {
    hide Inv, StoreOK, Deliverable, ValidateResult, Delivered, Step, StepAccepted, Exists, CommitResult,
         AfterInstall, MergeKeeps, Missing, P.Writable, ValidState, CheckpointManifest, Checkpointed;
    ServingFacts(w, s, st);
    var st1, s2 := AcceptanceFacts(w, s, st, msg);
    AcceptedStoreOK(w, st, msg);
    AdvanceStep(w, s2, st1);
    PeriodicCheckpoint(w, s2, st1);
    OneLessMissing(w, st, st1, msg.block.id);
    CountersAgree(w, st1);
    RecordWritable(w, st, msg);
    if Due(w, st) {
      CheckpointWritable(w, st1, Running);
      CheckpointKeepsStore(w, st1);
      st' := Checkpointed(st1, Running).(pending := 0);
    } else {
      st' := st1;
    }
  }

  lemma CheckpointKeepsStore(w: World, st: Store)
    requires ValidWorld(w) && StoreOK(w, st) && st.sequence != U64_MAX
    ensures var st' := Checkpointed(st, Running).(pending := 0);
      StoreOK(w, st') && Missing(w, st') == Missing(w, st) && st'.interval == st.interval
  {
    CheckpointedStoreOK(w, st, Running, 0);
    hide StoreOK;
  }

  /** A process that no longer serves writes nothing more. */
  lemma {:induction false} NoLongerServing(w: World, s: State, msgs: seq<BlockResult>)
    requires ValidLayout(w.layout) && !s.phase.Serving?
    ensures AfterMessages(w, s, msgs) == s && MessageWrites(w, s, msgs) == []
  {
  }

  /** A message that is not accepted either ends the process or changes nothing. */
  lemma RejectedWrites(w: World, s: State, st: Store, msg: BlockResult)
    requires ValidWorld(w) && Inv(w, s) && s.phase == Serving(st) && Deliverable(w, msg)
    requires StoreReady(w, st) && ValidateResult(w.sem, msg, st.coordinator) != Accepted
    requires Delivered(w, s, msg).phase.Serving?
    ensures Delivered(w, s, msg) == s && DeliveryWrites(w, s, msg) == []
  {
    hide Inv, StoreOK, Deliverable, ValidateResult, Delivered, Step, FailureOf, CheckpointManifest;
    BlocksExist(w, st);
    var v := ValidateResult(w.sem, msg, st.coordinator);
    if IsBenignRejection(v) {
      BenignDelivery(w, s, st, msg);
      DeliverStep(w, s, st, msg);
    } else {
      FatalDelivery(w, s, st, msg, v);
    }
  }

  /** The end of the loop: with every block in, exactly the complete snapshot. */
  lemma EndWrites(w: World, s: State, st: Store)
    requires ValidWorld(w) && MergeKeeps(w) && w.identity.statsSchema == STATS_SCHEMA
    requires Inv(w, s) && s.phase == Serving(st) && StoreOK(w, st) && Ended(w, s).phase.Finished?
    ensures Missing(w, st) == 0
    ensures var ws := InstallWrites(Step(w, s, Advance).phase);
      |ws| == 1 && ws[0].Snapshot? && P.AllWritable(w.sem, N(w), ws)
  {
    hide Inv, StoreOK, Step, StepEnd, CheckpointManifest, Checkpointed, MergeKeeps, Missing, P.Writable,
         AfterInstall, ValidState, AllReceived;
    ServingFacts(w, s, st);
    AdvanceStep(w, s, st);
    FinalCheckpoint(w, s, st);
    CountersAgree(w, st);
    CheckpointWritable(w, st, Complete);
  }

  lemma AllWritableConcat(sem: Semantics, n: u64, a: seq<P.Write>, b: seq<P.Write>)
    requires P.AllWritable(sem, n, a) && P.AllWritable(sem, n, b)
    ensures P.AllWritable(sem, n, a + b)
  {
    hide P.Writable;
  }

  /** What an accepted result adds in front of the remaining writes. */
  lemma FollowsStep(head: seq<P.Write>, rest: seq<P.Write>, m: nat, p: nat, interval: nat)
    requires m > 0 && head != [] && head[0].Record?
    requires var due := p + 1 >= interval && m > 1;
      && |head| == (if due then 2 else 1) && (due ==> head[1].Snapshot?)
      && P.FollowsLoop(rest, m - 1, if due then 0 else p + 1, interval)
    ensures P.FollowsLoop(head + rest, m, p, interval)
  {
    if |head| == 2 {
      assert (head + rest)[2..] == rest;
    } else {
      assert (head + rest)[1..] == rest;
    }
  }

  /** Every run of the consumer that finishes, whatever messages arrive in whatever order, has installed
      artifacts that follow the loop of the estimate and that the encoders accept. */
  lemma {:induction false} LoopWritesFollow(w: World, s: State, st: Store, msgs: seq<BlockResult>)
    requires ValidWorld(w) && MergeKeeps(w) && w.identity.statsSchema == STATS_SCHEMA
    requires Inv(w, s) && s.phase == Serving(st) && StoreOK(w, st)
    requires forall m :: m in msgs ==> Deliverable(w, m)
    requires AfterMessages(w, s, msgs).phase.Serving? && Ended(w, AfterMessages(w, s, msgs)).phase.Finished?
    ensures P.FollowsLoop(LoopWrites(w, s, msgs), Missing(w, st), st.pending, st.interval)
    ensures P.AllWritable(w.sem, N(w), LoopWrites(w, s, msgs))
    decreases |msgs|
  {
    hide Inv, StoreOK, Deliverable, Delivered, Ended, Step, Missing, MergeKeeps, DeliveryWrites, InstallWrites,
         ValidateResult, P.FollowsLoop, P.AllWritable, ValidState;
    ServingFacts(w, s, st);
    if msgs == [] {
      EndWrites(w, s, st);
      FollowsEnd(InstallWrites(Step(w, s, Advance).phase), st.pending, st.interval);
      assert LoopWrites(w, s, msgs) == InstallWrites(Step(w, s, Advance).phase);
    } else {
      var msg, rest := msgs[0], msgs[1..];
      assert Deliverable(w, msg);
      var s' := Delivered(w, s, msg);
      DeliveredInv(w, s, st, msg);
      if !s'.phase.Serving? {
        NoLongerServing(w, s', rest);
        assert false;
      }
      if ValidateResult(w.sem, msg, st.coordinator) == Accepted {
        var st' := AcceptedWrites(w, s, st, msg);
        LoopWritesFollow(w, s', st', rest);
        var head, tail := DeliveryWrites(w, s, msg), LoopWrites(w, s', rest);
        assert LoopWrites(w, s, msgs) == head + tail;
        FollowsStep(head, tail, Missing(w, st), st.pending, st.interval);
        AllWritableConcat(w.sem, N(w), head, tail);
      } else {
        RejectedWrites(w, s, st, msg);
        LoopWritesFollow(w, s', st, rest);
        assert LoopWrites(w, s, msgs) == LoopWrites(w, s', rest);
      }
    }
  }

  lemma FollowsEnd(ws: seq<P.Write>, p: nat, interval: nat)
    requires |ws| == 1 && ws[0].Snapshot?
    ensures P.FollowsLoop(ws, 0, p, interval)
  {
  }

  // ---------------------------------------------------------------- the estimate covers the run

  /** Everything written from open's estimate on: the metadata of a new run, the manifest open installs, and
      the writes of the loop. */
  ghost function RunWrites(
    w: World, st: Store, s: State, msgs: seq<BlockResult>, metadata: Option<nat>): seq<P.Write>
    requires ValidLayout(w.layout)
  {
    (if metadata.Some? then [P.Metadata(metadata.value)] else [])
    + ([P.Snapshot(OpeningManifest(w, st))] + LoopWrites(w, s, msgs))
  }

  lemma OpeningWritable(w: World, st: Store)
    requires ValidWorld(w) && MergeKeeps(w) && w.identity.statsSchema == STATS_SCHEMA && JustOpened(w, st)
    ensures P.Writable(w.sem, N(w), P.Snapshot(OpeningManifest(w, st)))
  {
    hide MergeKeeps, StoreOK, MakeManifest, P.Writable;
    StoreManifestWritable(w, st, st.sequence, Running);
  }

  lemma RunWritesRemain(
    w: World, s: State, st: Store, msgs: seq<BlockResult>, metadata: Option<nat>)
    requires ValidWorld(w) && MergeKeeps(w) && w.identity.statsSchema == STATS_SCHEMA
    requires Inv(w, s) && s.phase == Serving(st) && JustOpened(w, st)
    requires forall m :: m in msgs ==> Deliverable(w, m)
    requires AfterMessages(w, s, msgs).phase.Serving? && Ended(w, AfterMessages(w, s, msgs)).phase.Finished?
    ensures var ws := RunWrites(w, st, s, msgs, metadata);
      && P.RemainingWrites(ws, metadata.Some?, Missing(w, st), st.interval)
      && P.AllWritable(w.sem, N(w), ws)
      && (metadata.Some? ==> ws[0].size == metadata.value)
  {
    hide Inv, StoreOK, Deliverable, AfterMessages, Ended, Missing, MergeKeeps, P.FollowsLoop, P.Writable,
         LoopWrites, OpeningManifest;
    OpeningWritable(w, st);
    LoopWritesFollow(w, s, st, msgs);
    var loop, first := LoopWrites(w, s, msgs), P.Snapshot(OpeningManifest(w, st));
    OneWritable(w.sem, N(w), first);
    AllWritableConcat(w.sem, N(w), [first], loop);
    assert ([first] + loop)[1..] == loop;
    if metadata.Some? {
      var meta := P.Metadata(metadata.value);
      OneWritable(w.sem, N(w), meta) by { MetadataWritable(w.sem, N(w), metadata.value); }
      AllWritableConcat(w.sem, N(w), [meta], [first] + loop);
      assert ([meta] + ([first] + loop))[2..] == loop;
    } else {
      assert [] + ([first] + loop) == [first] + loop;
    }
  }

  lemma OneWritable(sem: Semantics, n: u64, x: P.Write)
    requires P.Writable(sem, n, x)
    ensures P.AllWritable(sem, n, [x])
  {
  }

  lemma MetadataWritable(sem: Semantics, n: u64, size: nat)
    ensures P.Writable(sem, n, P.Metadata(size))
  {
  }

  lemma MissingFits(w: World, st: Store)
    requires ValidWorld(w) && StoreOK(w, st)
    ensures Missing(w, st) <= N(w) <= U64_MAX && st.interval >= 1
  {
  }

  /** The estimate that open makes for the store it is about to hand over. */
  ghost predicate EstimatePasses(
    w: World, st: Store, metadata: Option<nat>, limits: P.Limits, used: P.Usage)
    requires ValidWorld(w) && StoreOK(w, st)
  {
    MissingFits(w, st);
    P.CompletionFits(limits, used, N(w), Missing(w, st),
                     P.CheckpointCount(Missing(w, st), st.interval) + 2,
                     if metadata.Some? then metadata.value else 0, if metadata.Some? then 1 else 0)
  }

  lemma EstimateCovers(
    w: World, st: Store, ws: seq<P.Write>, metadata: Option<nat>, limits: P.Limits, used: P.Usage)
    requires ValidWorld(w) && StoreOK(w, st) && EstimatePasses(w, st, metadata, limits, used)
    requires P.RemainingWrites(ws, metadata.Some?, Missing(w, st), st.interval)
    requires P.AllWritable(w.sem, N(w), ws) && (metadata.Some? ==> ws[0].size == metadata.value)
    ensures P.Execute(w.sem, limits, used, ws).Some?
  {
    MissingFits(w, st);
    hide StoreOK, Missing, P.CompletionFits, P.Execute, P.AllWritable, P.FollowsLoop, P.CheckpointCount;
    P.PreflightSuffices(w.sem, limits, used, N(w), metadata.Some?, Missing(w, st), st.interval, ws);
  }

  /** Preflight covers the run of the machine: if the estimate that open makes for the store it is about to
      hand over passes, then in every run from there that finishes, whatever messages arrive in whatever
      order, no installed artifact meets the byte, file-count, manifest-size or free-space limit. */
  lemma PreflightCoversRun(
    w: World, s: State, st: Store, msgs: seq<BlockResult>, metadata: Option<nat>,
    limits: P.Limits, used: P.Usage)
    requires ValidWorld(w) && MergeKeeps(w) && w.identity.statsSchema == STATS_SCHEMA
    requires Inv(w, s) && s.phase == Serving(st) && JustOpened(w, st)
    requires forall m :: m in msgs ==> Deliverable(w, m)
    requires AfterMessages(w, s, msgs).phase.Serving? && Ended(w, AfterMessages(w, s, msgs)).phase.Finished?
    requires EstimatePasses(w, st, metadata, limits, used)
    ensures P.Execute(w.sem, limits, used, RunWrites(w, st, s, msgs, metadata)).Some?
  {
    hide Inv, StoreOK, Deliverable, AfterMessages, Ended, Missing, MergeKeeps, EstimatePasses, P.Execute,
         P.AllWritable, P.RemainingWrites, RunWrites;
    RunWritesRemain(w, s, st, msgs, metadata);
    EstimateCovers(w, st, RunWrites(w, st, s, msgs, metadata), metadata, limits, used);
  }
}
