/** Progress: with crashes only, no crash point wedges the store. From every reachable state whose newest
    manifest is not a failure, some continuation finishes, unless a 64-bit identity is exhausted. */
module StoreProgress {
  import opened Types
  import opened Basics
  import opened Blocks
  import opened Coordinator
  import opened Reduction
  import opened Snapshot
  import opened StoreMachine
  import opened StoreInvariant
  import opened StorePreservation
  import opened StoreTheorems

  /** Some continuation without decay ends in a finished process. */
  ghost predicate CanFinish(w: World, s: State)
    requires ValidWorld(w)
  {
    exists actions :: CrashesOnly(actions) && Run(w, s, actions).phase.Finished?
  }

  lemma FinishedCanFinish(w: World, s: State)
    requires ValidWorld(w) && s.phase.Finished?
    ensures CanFinish(w, s)
  {
    assert CrashesOnly([]) && Run(w, s, []) == s;
  }

  /** One step closer. */
  lemma Before(w: World, s: State, a: Action)
    requires ValidWorld(w) && CanFinish(w, Step(w, s, a))
    requires !a.SpoilMetadata? && !a.SpoilResult? && !a.SpoilManifest?
    ensures CanFinish(w, s)
  {
    hide Step;
    var rest :| CrashesOnly(rest) && Run(w, Step(w, s, a), rest).phase.Finished?;
    var actions := [a] + rest;
    assert actions[1..] == rest;
    assert CrashesOnly(actions);
    assert Run(w, s, actions) == Run(w, Step(w, s, a), rest);
  }

  // ---------------------------------------------------------------- installing a file

  lemma {:induction false} FreshNonce(used: set<nat>) returns (n: nat)
    ensures n !in used
  {
    n := BoundOf(used);
    assert n !in used;
  }

  lemma {:induction false} BoundOf(used: set<nat>) returns (n: nat)
    ensures forall x :: x in used ==> x < n
    decreases |used|
  {
    if used == {} {
      n := 0;
    } else {
      var x := Pick(used);
      var m := BoundOf(used - {x});
      n := if x < m then m else x + 1;
      forall y | y in used ensures y < n { assert y == x || y in used - {x}; }
    }
  }

  ghost function AfterInstall(w: World, s: State): State
    requires s.phase.Install?
  {
    s.(disk := Installed(s.disk, s.phase.artifact), phase := Resume(w, s.phase.next),
       log := Logged(s.log, s.phase.artifact, s.phase.slack))
  }

  lemma InstallPath(w: World, s: State) returns (n: nat)
    requires ValidWorld(w) && s.phase.Install? && s.phase.stage == Unwritten
    requires !Exists(s.disk, s.phase.artifact)
    ensures Step(w, Step(w, Step(w, s, CreateTemporary(n)), Advance), Advance) == AfterInstall(w, s)
  {
    hide Resume;
    n := FreshNonce(s.disk.tmp.Keys);
    var s1 := Step(w, s, CreateTemporary(n));
    assert s1.disk.tmp - {n} == s.disk.tmp;
  }

  lemma AfterInstallInv(w: World, s: State)
    requires ValidWorld(w) && Inv(w, s) && s.phase.Install? && s.phase.stage == Unwritten
    ensures !Exists(s.disk, s.phase.artifact) && Inv(w, AfterInstall(w, s))
  {
    assert !Exists(s.disk, s.phase.artifact) by { hide BaseOK, NextOK; }
    hide Inv, Step, AfterInstall, Exists;
    var n := InstallPath(w, s);
    StepKeepsInv(w, s, CreateTemporary(n));
    StepKeepsInv(w, Step(w, s, CreateTemporary(n)), Advance);
    StepKeepsInv(w, Step(w, Step(w, s, CreateTemporary(n)), Advance), Advance);
  }

  lemma InstallFinishes(w: World, s: State)
    requires ValidWorld(w) && s.phase.Install? && s.phase.stage == Unwritten
    requires !Exists(s.disk, s.phase.artifact) && CanFinish(w, AfterInstall(w, s))
    ensures CanFinish(w, s)
  {
    hide CanFinish, Step, AfterInstall, Exists;
    var n := InstallPath(w, s);
    var s1 := Step(w, s, CreateTemporary(n));
    Before(w, Step(w, s1, Advance), Advance);
    Before(w, s1, Advance);
    Before(w, s, CreateTemporary(n));
  }

  // ---------------------------------------------------------------- computing the missing blocks

  /** The kernel produces well-formed aggregates with the right number of observations. */
  ghost predicate SoundKernel(w: World)
    requires ValidLayout(w.layout)
  {
    forall i :: 0 <= i < N(w) ==> w.compute(i).n == Observations(w.layout, i) && w.sem.wellFormed(w.compute(i))
  }

  /** What a worker sends for block i under the current lease. */
  function HonestMessage(w: World, st: Store, i: nat): BlockResult
    requires i < |st.coordinator.blocks|
  {
    BlockResult(st.coordinator.blocks[i], w.compute(i), w.identity, w.sem.hash(w.compute(i)), 0)
  }

  lemma HonestAccepted(w: World, st: Store, i: nat)
    requires ValidWorld(w) && SoundKernel(w) && StoreOK(w, st) && i < N(w) && !st.received[i]
    ensures Deliverable(w, HonestMessage(w, st, i))
    ensures ValidateResult(w.sem, HonestMessage(w, st, i), st.coordinator) == Accepted
    ensures st.durable[i].None? && HonestMessage(w, st, i).block.id == i
  {
    var b := st.coordinator.blocks[i];
    assert b == Block(w.layout, i, st.incarnation, b.epoch);
    assert ExpectedObservations(st.coordinator, i) == Observations(w.layout, i);
    assert st.coordinator.payloads[i] == PayloadsOf(st.durable)[i];
  }

  ghost function Missing(w: World, st: Store): nat
    requires ValidLayout(w.layout) && StoreOK(w, st)
  {
    CountIsFull(st.received);
    N(w) - CountTrue(st.received)
  }

  /** There are sequence numbers left for a checkpoint per missing block and the final one. */
  ghost predicate Room(w: World, st: Store)
    requires ValidLayout(w.layout) && StoreOK(w, st)
  {
    st.sequence + Missing(w, st) + 1 <= U64_MAX
  }

  lemma CheckpointExists(w: World, st: Store, status: RunStatus)
    requires ValidWorld(w) && StoreOK(w, st) && st.status == Running && st.sequence != U64_MAX
    requires status != Failed && (status == Complete ==> AllReceived(st))
    ensures CheckpointManifest(w, st, status, None).Some?
  {
    CheckpointFindsEvidence(w, st);
  }

  lemma EndPhase(w: World, s: State, st: Store)
    requires ValidWorld(w) && s.phase == Serving(st) && StoreReady(w, st) && AllReceived(st)
    requires CheckpointManifest(w, st, Complete, None).Some? && st.sequence != U64_MAX
    ensures var m := CheckpointManifest(w, st, Complete, None).value;
      Step(w, s, Advance).phase ==
        Install(ManifestFile(m), Unwritten, true, ToFinish(Checkpointed(st, Complete)))
  {
    hide CheckpointManifest, CommittedAfter;
  }

  lemma LastCheckpointFinishes(w: World, s: State, st: Store)
    requires ValidWorld(w) && Inv(w, s) && s.phase == Serving(st) && StoreOK(w, st)
    requires st.status == Running && st.sequence != U64_MAX && AllReceived(st)
    ensures CanFinish(w, s)
  {
    CheckpointExists(w, st, Complete);
    hide Inv, CanFinish, CheckpointManifest, Checkpointed, Step, AllReceived;
    EndPhase(w, s, st);
    hide StoreOK;
    var s1 := Step(w, s, Advance);
    StepKeepsInv(w, s, Advance);
    AfterInstallInv(w, s1);
    FinishedCanFinish(w, AfterInstall(w, s1));
    InstallFinishes(w, s1);
    Before(w, s, Advance);
  }

  lemma ServingFacts(w: World, s: State, st: Store)
    requires ValidWorld(w) && Inv(w, s) && (s.phase == Serving(st) || s.phase == ResultAccepted(st))
    ensures StoreOK(w, st) && StoreReady(w, st) && st.status == Running
  {
    hide BaseOK, Tidy, Uncommitted, AllReceived;
  }

  lemma DeliverPhase(w: World, s: State, st: Store, i: nat)
    requires ValidWorld(w) && s.phase == Serving(st) && StoreReady(w, st) && i < N(w)
    requires Deliverable(w, HonestMessage(w, st, i)) && HonestMessage(w, st, i).block.id == i
    requires ValidateResult(w.sem, HonestMessage(w, st, i), st.coordinator) == Accepted
    requires st.durable[i].None? && RecordAllowed(w, st, HonestMessage(w, st, i))
    ensures var msg := HonestMessage(w, st, i);
      Step(w, s, Deliver(msg)).phase ==
        Install(ResultFile(DurableBlockRecord(w.runId, msg)), Unwritten, false,
                ToAccepted(AcceptedStore(w, st, msg, st.durable[i := Option.Some(msg)])))
  {
    hide ValidateResult, Deliverable, HonestMessage, AcceptedStore, CommitResult, RecordAllowed;
  }

  /** Delivering block i leads to a state that has accepted it. */
  lemma DeliverPath(w: World, s: State, st: Store, i: nat) returns (s1: State, st': Store)
    requires ValidWorld(w) && SoundKernel(w) && Inv(w, s) && s.phase == Serving(st) && StoreOK(w, st)
    requires i < N(w) && !st.received[i]
    ensures s1 == Step(w, s, Deliver(HonestMessage(w, st, i))) && Inv(w, s1)
    ensures s1.phase.Install? && s1.phase.stage == Unwritten && !Exists(s1.disk, s1.phase.artifact)
    ensures AfterInstall(w, s1).phase == ResultAccepted(st') && Inv(w, AfterInstall(w, s1))
    ensures st'.sequence == st.sequence && st'.received == st.received[i := true]
  {
    hide Inv, ValidateResult, Deliverable, HonestMessage, CommitResult, Step, Exists, SoundKernel, RecordAllowed;
    ServingFacts(w, s, st);
    HonestAccepted(w, st, i);
    AcceptedIsRecordable(w, st, HonestMessage(w, st, i));
    DeliverPhase(w, s, st, i);
    hide StoreOK;
    var msg := HonestMessage(w, st, i);
    s1 := Step(w, s, Deliver(msg));
    StepKeepsInv(w, s, Deliver(msg));
    st' := AcceptedStore(w, st, msg, st.durable[i := Option.Some(msg)]);
    AfterInstallInv(w, s1);
  }

  lemma AcceptedPhase(w: World, s: State, st: Store)
    requires ValidWorld(w) && s.phase == ResultAccepted(st) && StoreReady(w, st)
    requires CheckpointManifest(w, st, Running, None).Some? && st.sequence != U64_MAX
    ensures var m := CheckpointManifest(w, st, Running, None).value;
      || Step(w, s, Advance).phase == Serving(st)
      || Step(w, s, Advance).phase ==
           Install(ManifestFile(m), Unwritten, true, ToServing(Checkpointed(st, Running).(pending := 0)))
  {
    hide CheckpointManifest, CommittedAfter;
  }

  lemma ServesAgain(w: World, s: State, st: Store)
    requires ValidWorld(w) && s.phase.Install? && SizesAgree(w, st) && st.sequence != U64_MAX
    requires s.phase.next == ToServing(Checkpointed(st, Running).(pending := 0))
    ensures AfterInstall(w, s).phase == Serving(Checkpointed(st, Running).(pending := 0))
    ensures Checkpointed(st, Running).received == st.received
    ensures Checkpointed(st, Running).sequence == st.sequence + 1
  {
    hide CommittedAfter, Installed;
  }

  /** From there the process serves again, with a checkpoint in between when one is due. */
  lemma AcceptedPath(w: World, s: State, st: Store) returns (s1: State, st': Store)
    requires ValidWorld(w) && Inv(w, s) && s.phase == ResultAccepted(st) && StoreOK(w, st)
    requires st.status == Running && st.sequence != U64_MAX
    ensures s1.phase == Serving(st') && Inv(w, s1)
    ensures st'.received == st.received && st.sequence <= st'.sequence <= st.sequence + 1
    ensures CanFinish(w, s1) ==> CanFinish(w, s)
  {
    CheckpointExists(w, st, Running);
    hide Inv, CanFinish, CheckpointManifest, Checkpointed, Step, AfterInstall, ValidState;
    AcceptedPhase(w, s, st);
    hide StoreOK;
    var s0 := Step(w, s, Advance);
    StepKeepsInv(w, s, Advance);
    if s0.phase == Serving(st) {
      s1, st' := s0, st;
    } else {
      AfterInstallInv(w, s0);
      ServesAgain(w, s0, st);
      s1, st' := AfterInstall(w, s0), Checkpointed(st, Running).(pending := 0);
      if CanFinish(w, s1) { InstallFinishes(w, s0); }
    }
    if CanFinish(w, s1) { Before(w, s, Advance); }
  }

  lemma {:induction false} ServingFinishes(w: World, s: State, st: Store)
    requires ValidWorld(w) && SoundKernel(w) && Inv(w, s) && s.phase == Serving(st)
    requires StoreOK(w, st) && Room(w, st)
    ensures CanFinish(w, s)
    decreases Missing(w, st)
  {
    ServingFacts(w, s, st);
    CountIsFull(st.received);
    if AllReceived(st) {
      LastCheckpointFinishes(w, s, st);
    } else {
      var i :| 0 <= i < N(w) && !st.received[i];
      CountAfterUpdate(st.received, i);
      var s1, st1 := DeliverPath(w, s, st, i);
      var s2 := AfterInstall(w, s1);
      ServingFacts(w, s2, st1);
      CountIsFull(st1.received);
      var s3, st3 := AcceptedPath(w, s2, st1);
      ServingFacts(w, s3, st3);
      hide Inv, StoreOK, CanFinish, AfterInstall, Step, SoundKernel;
      ServingFinishes(w, s3, st3);
      InstallFinishes(w, s1);
      Before(w, s, Deliver(HonestMessage(w, st, i)));
    }
  }

  // ---------------------------------------------------------------- opening

  lemma CleanupFacts(w: World, s: State, st: Store)
    requires ValidWorld(w) && Inv(w, s) && s.phase == Cleanup(st)
    ensures StoreOK(w, st)
  {
    hide StoreOK, BaseOK, AllReceived, MemoryMatchesDisk;
  }

  lemma CleanupPhase(w: World, s: State, st: Store)
    requires ValidWorld(w) && s.phase == Cleanup(st) && Uncommitted(s.disk.results, st) == {}
    ensures st.status == Running ==> Step(w, s, Advance).phase == Serving(st)
    ensures st.status == Complete ==> Step(w, s, Advance).phase.Finished?
  {
    forall k | k in s.disk.results ensures !IsOrphan(st, k) {
      assert k !in Uncommitted(s.disk.results, st);
    }
    hide IsOrphan;
  }

  lemma {:induction false} CleanupFinishes(w: World, s: State, st: Store)
    requires ValidWorld(w) && SoundKernel(w) && Inv(w, s) && s.phase == Cleanup(st) && StoreOK(w, st)
    requires st.status != Failed && (st.status == Running ==> Room(w, st))
    ensures CanFinish(w, s)
    decreases |Uncommitted(s.disk.results, st)|
  {
    hide Inv, StoreOK, CanFinish, SoundKernel, IsOrphan;
    if Uncommitted(s.disk.results, st) == {} {
      CleanupPhase(w, s, st);
      hide Step;
      StepKeepsInv(w, s, Advance);
      if st.status == Running {
        ServingFinishes(w, Step(w, s, Advance), st);
      } else {
        FinishedCanFinish(w, Step(w, s, Advance));
      }
      Before(w, s, Advance);
    } else {
      var k := Pick(Uncommitted(s.disk.results, st));
      var s1 := Step(w, s, DropOrphan(k));
      StepKeepsInv(w, s, DropOrphan(k));
      assert Uncommitted(s1.disk.results, st) == Uncommitted(s.disk.results, st) - {k};
      hide Step;
      CleanupFinishes(w, s1, st);
      Before(w, s, DropOrphan(k));
    }
  }

  /** The newest manifest can be continued: it is not a failure, and if it is still running the 64-bit
      identities are not exhausted. */
  ghost predicate Continuable(w: World, d: Disk)
    requires ValidLayout(w.layout)
  {
    d.manifests != map[] ==>
      var h := Highest(d.manifests.Keys);
      && d.manifests[h].Readable? && d.manifests[h].content.status != Failed
      && (d.manifests[h].content.status == Running ==>
            CanRecover(d.manifests[h].content, h) && h + N(w) + 2 <= U64_MAX)
  }

  lemma FirstLoadPhase(w: World, s: State)
    requires ValidWorld(w) && s.phase == LoadManifest && s.disk.manifests == map[]
    ensures Step(w, s, Advance).phase == OpenInstall(w, InitialStore(w, s.interval), false)
    ensures InitialStore(w, s.interval).status == Running && InitialStore(w, s.interval).sequence == 0
  {
    hide OpenInstall;
  }

  lemma LoadPhase(w: World, s: State) returns (st: Store)
    requires ValidWorld(w) && s.phase == LoadManifest && s.disk.manifests != map[] && Continuable(w, s.disk)
    requires LatestSelectable(w, s.disk) == Option.Some(Highest(s.disk.manifests.Keys))
    ensures var s1 := Step(w, s, Advance);
      || (st.status == Complete && s1.phase == Cleanup(st))
      || (s1.phase == OpenInstall(w, st, false) && st.status == Running && st.sequence + N(w) + 1 <= U64_MAX)
  {
    var h := Highest(s.disk.manifests.Keys);
    var m := s.disk.manifests[h].content;
    hide OpenInstall, LatestSelectable, ValidSnapshot, AllBacked, EntriesOf, LeavesOf, Tree, EpochsOf;
    if m.status == Running {
      st := Recovered(w, s.disk.results, m, h, s.interval);
    } else {
      st := Opened(w, m.sequence, m.incarnation, m.status, m.epochs, Loaded(w, s.disk.results, m), s.interval);
    }
  }

  lemma OpenFinishes(w: World, s: State, st: Store)
    requires ValidWorld(w) && SoundKernel(w) && Inv(w, s) && s.phase == OpenInstall(w, st, false)
    requires st.status == Running && st.sequence + N(w) + 1 <= U64_MAX
    ensures CanFinish(w, s)
  {
    hide Inv, StoreOK, CanFinish, SoundKernel, OpeningManifest, Exists;
    AfterInstallInv(w, s);
    var s1 := AfterInstall(w, s);
    CleanupFacts(w, s1, st);
    CleanupFinishes(w, s1, st);
    InstallFinishes(w, s);
  }

  lemma LoadFinishes(w: World, s: State)
    requires ValidWorld(w) && SoundKernel(w) && Inv(w, s) && s.phase == LoadManifest && Continuable(w, s.disk)
    requires s.disk.manifests != map[] ==>
      LatestSelectable(w, s.disk) == Option.Some(Highest(s.disk.manifests.Keys))
    ensures CanFinish(w, s)
  {
    hide Inv, StoreOK, CanFinish, SoundKernel, OpenInstall, LatestSelectable, Step, InitialStore, Continuable;
    StepKeepsInv(w, s, Advance);
    var s1 := Step(w, s, Advance);
    if s.disk.manifests == map[] {
      FirstLoadPhase(w, s);
      OpenFinishes(w, s1, InitialStore(w, s.interval));
    } else {
      var st := LoadPhase(w, s);
      if s1.phase == Cleanup(st) && st.status == Complete {
        CleanupFacts(w, s1, st);
        CleanupFinishes(w, s1, st);
      } else {
        OpenFinishes(w, s1, st);
      }
    }
    Before(w, s, Advance);
  }

  // ---------------------------------------------------------------- metadata and temporaries

  function Expected(w: World): Metadata { Metadata(w.runId, w.identity) }

  /** Without decay the metadata is the run's own, and it is there before anything else. */
  ghost predicate MetadataOK(w: World, s: State)
  {
    && (s.disk.metadata.Some? ==> s.disk.metadata.value == Readable(Expected(w)))
    && (s.phase.Install? && s.phase.artifact.MetadataFile? ==> s.phase.artifact.metadata == Expected(w))
    && (s.disk.metadata.None? ==>
          && s.disk.results == map[] && s.disk.manifests == map[]
          && (s.phase.Down? || s.phase.RemoveTemporaries? || s.phase.CheckMetadata? ||
              (s.phase.Install? && s.phase.artifact.MetadataFile? && s.phase.stage != Renamed)))
  }

  lemma MetadataStep(w: World, s: State, a: Action)
    requires ValidWorld(w) && MetadataOK(w, s)
    requires !a.SpoilMetadata? && !a.SpoilResult? && !a.SpoilManifest?
    ensures MetadataOK(w, Step(w, s, a))
  {
    hide LatestSelectable, ValidSnapshot, CheckpointManifest, ValidateResult, Checkpointed, AcceptedStore,
         IsOrphan, OpeningManifest, Recovered, Opened, StoreReady, Deliverable, InitialStore;
  }

  lemma {:induction false} MetadataRun(w: World, s: State, actions: seq<Action>)
    requires ValidWorld(w) && MetadataOK(w, s) && CrashesOnly(actions)
    ensures MetadataOK(w, Run(w, s, actions))
    decreases |actions|
  {
    hide Step, MetadataOK;
    if actions != [] {
      assert actions[0] in actions;
      MetadataStep(w, s, actions[0]);
      MetadataRun(w, Step(w, s, actions[0]), actions[1..]);
    }
  }

  lemma MetadataFinishes(w: World, s: State)
    requires ValidWorld(w) && SoundKernel(w) && Inv(w, s) && s.phase == CheckMetadata && MetadataOK(w, s)
    requires Continuable(w, s.disk)
    requires s.disk.manifests != map[] ==>
      LatestSelectable(w, s.disk) == Option.Some(Highest(s.disk.manifests.Keys))
    ensures CanFinish(w, s)
  {
    hide Inv, CanFinish, SoundKernel, LatestSelectable, Continuable;
    var s1 := Step(w, s, Advance);
    StepKeepsInv(w, s, Advance);
    if s.disk.metadata.Some? {
      LoadFinishes(w, s1);
    } else {
      AfterInstallInv(w, s1);
      var s2 := AfterInstall(w, s1);
      assert Continuable(w, s2.disk) by { EmptyIsContinuable(w, s2.disk); }
      LoadFinishes(w, s2);
      InstallFinishes(w, s1);
    }
    Before(w, s, Advance);
  }

  lemma EmptyIsContinuable(w: World, d: Disk)
    requires ValidWorld(w) && d.manifests == map[]
    ensures Continuable(w, d)
  {
  }

  lemma {:induction false} StartupFinishes(w: World, s: State)
    requires ValidWorld(w) && SoundKernel(w) && Inv(w, s) && s.phase == RemoveTemporaries && MetadataOK(w, s)
    requires Continuable(w, s.disk)
    requires s.disk.manifests != map[] ==>
      LatestSelectable(w, s.disk) == Option.Some(Highest(s.disk.manifests.Keys))
    ensures CanFinish(w, s)
    decreases |s.disk.tmp|
  {
    hide Inv, CanFinish, SoundKernel, LatestSelectable, Continuable, ValidSnapshot;
    if s.disk.tmp == map[] {
      StepKeepsInv(w, s, Advance);
      MetadataFinishes(w, Step(w, s, Advance));
      Before(w, s, Advance);
    } else {
      var n := Pick(s.disk.tmp.Keys);
      var s1 := Step(w, s, DropTemporary(n));
      StepKeepsInv(w, s, DropTemporary(n));
      assert s1.disk.tmp.Keys == s.disk.tmp.Keys - {n};
      SameManifests(w, s.disk, s1.disk);
      StartupFinishes(w, s1);
      Before(w, s, DropTemporary(n));
    }
  }

  /** Temporary files play no part in recovery. */
  lemma SameManifests(w: World, d: Disk, d': Disk)
    requires ValidWorld(w) && d'.manifests == d.manifests && d'.results == d.results
    ensures LatestSelectable(w, d') == LatestSelectable(w, d)
    ensures Continuable(w, d') == Continuable(w, d)
  {
    hide ValidSnapshot;
    assert SelectableSet(w, d') == SelectableSet(w, d);
  }

  /** No crash point wedges the store: with crashes only, from every reachable state whose newest manifest
      is not a failure and leaves identities to continue with, some continuation finishes, and by crash
      safety with the right result. */
  lemma NeverWedged(w: World, actions: seq<Action>)
    requires ValidWorld(w) && SoundKernel(w) && CrashesOnly(actions)
    requires Continuable(w, Run(w, Init(), actions).disk)
    ensures CanFinish(w, Run(w, Init(), actions))
  {
    hide Inv, CanFinish, SoundKernel, LatestSelectable, Continuable, ValidSnapshot, PristineDisk, Run;
    CrashesOnlyInv(w, actions);
    DiskStaysValid(w, actions);
    MetadataRun(w, Init(), actions);
    var s := Run(w, Init(), actions);
    var s1 := Step(w, s, Crash);
    var s2 := Step(w, s1, Start(1));
    StepKeepsInv(w, s, Crash);
    StepKeepsInv(w, s1, Start(1));
    StartupFinishes(w, s2);
    Before(w, s1, Start(1));
    Before(w, s, Crash);
  }
}
