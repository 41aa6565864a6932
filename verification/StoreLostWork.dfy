/** How much recorded work a crash can lose. Every process chooses its own checkpoint interval. */
module StoreLostWork {
  import opened Types
  import opened Basics
  import opened Blocks
  import opened Coordinator
  import opened Snapshot
  import opened StoreMachine
  import opened StoreInvariant
  import opened StorePreservation
  import opened StoreTheorems

  /** Result files that a manifest does not name. */
  ghost function Unnamed(files: Results, m: RunManifest): set<ResultKey>
  {
    files.Keys - RefKeys(m)
  }

  /** The newest manifest leaves at most bound result files unnamed. */
  ghost predicate LostWithin(d: Disk, bound: nat)
  {
    forall x :: IsHighest(d.manifests.Keys, x) && d.manifests[x].Readable? ==>
      |Unnamed(d.results, d.manifests[x].content)| <= bound
  }

  /** The interval of the store that a continuation or phase carries. */
  function NextInterval(next: Continuation): nat
  {
    match next
    case ToCleanup(st) => st.interval
    case ToAccepted(st) => st.interval
    case ToServing(st) => st.interval
    case ToFinish(_) => 0
    case ToLoad => 0
    case ToFailure => 0
  }

  function PhaseInterval(p: Phase): nat
  {
    match p
    case Install(_, _, _, next) => NextInterval(next)
    case Cleanup(st) => st.interval
    case Serving(st) => st.interval
    case ResultAccepted(st) => st.interval
    case _ => 0
  }

  /** The process uses the interval it was started with. */
  predicate OwnInterval(s: State)
  {
    PhaseInterval(s.phase) == 0 || PhaseInterval(s.phase) == s.interval
  }

  ghost predicate LostOK(s: State, bound: nat)
  {
    s.interval <= bound && PhaseInterval(s.phase) <= bound && LostWithin(s.disk, bound)
  }

  lemma UnnamedIsUncommitted(files: Results, m: RunManifest, st: Store)
    requires InPlace(st.committed) && m.committed == EntriesOf(st.committed)
    ensures Unnamed(files, m) == Uncommitted(files, st)
  {
    forall k ensures k in Unnamed(files, m) <==> k in Uncommitted(files, st) {
      NamedOrOrphan(m, st, k);
    }
  }

  // ---------------------------------------------------------------- installing a file

  /** A recorded result is at most one more than the process may hold back. */
  lemma RecordedWithin(w: World, d: Disk, log: map<u64, LogEntry>, st: Store, bound: nat)
    requires ValidWorld(w) && LogOK(d, log) && Working(w, d, log, true, st) && st.interval <= bound
    ensures LostWithin(d, bound)
  {
    hide LogShape, Unnamed, Uncommitted, TableOnDisk, Tidy;
    CommittedInPlace(w, st);
    forall x | IsHighest(d.manifests.Keys, x) && d.manifests[x].Readable?
      ensures |Unnamed(d.results, d.manifests[x].content)| <= bound
    {
      assert x in log && st.sequence in d.manifests.Keys;
      UnnamedIsUncommitted(d.results, d.manifests[x].content, st);
    }
  }

  /** A new newest manifest names everything the one before it named. */
  lemma ManifestWithin(w: World, d: Disk, m: RunManifest, bound: nat)
    requires ValidWorld(w) && PristineDisk(w, d) && PristineDisk(w, Installed(d, ManifestFile(m)))
    requires m.sequence !in d.manifests && LostWithin(d, bound)
    ensures LostWithin(Installed(d, ManifestFile(m)), bound)
  {
    hide ValidSnapshot, RefKeys, Extends;
    var d' := Installed(d, ManifestFile(m));
    forall x | IsHighest(d'.manifests.Keys, x) && d'.manifests[x].Readable?
      ensures |Unnamed(d'.results, d'.manifests[x].content)| <= bound
    {
      if d.manifests == map[] {
        assert Unnamed(d'.results, d'.manifests[x].content) == {};
      } else {
        var h := Highest(d.manifests.Keys);
        assert h in d'.manifests && Selectable(w, d, h);
        if x != h {
          RefsExtend(d'.manifests[h].content, d'.manifests[x].content);
        }
        SubsetSize(Unnamed(d.results, d'.manifests[x].content), Unnamed(d.results, d.manifests[h].content));
      }
    }
  }

  lemma InstalledWithin(w: World, s: State, bound: nat)
    requires ValidWorld(w) && Inv(w, s) && s.pristine && LostOK(s, bound)
    requires s.phase.Install? && s.phase.stage != Renamed
    requires s.phase.artifact.ResultFile? ==> s.phase.next.ToAccepted?
    ensures LostWithin(Installed(s.disk, s.phase.artifact), bound)
  {
    hide LostWithin, PristineDisk, HonestFiles, LogShape, Working;
    match s.phase.artifact
    case MetadataFile(x) => SameFiles(s.disk, Installed(s.disk, s.phase.artifact), bound);
    case ResultFile(_) =>
      RecordedWithin(w, Installed(s.disk, s.phase.artifact), s.log, s.phase.next.accepted, bound);
    case ManifestFile(m) => ManifestWithin(w, s.disk, m, bound);
  }

  lemma SameFiles(d: Disk, d': Disk, bound: nat)
    requires d'.manifests == d.manifests && d'.results.Keys <= d.results.Keys && LostWithin(d, bound)
    ensures LostWithin(d', bound)
  {
    forall x | IsHighest(d'.manifests.Keys, x) && d'.manifests[x].Readable?
      ensures |Unnamed(d'.results, d'.manifests[x].content)| <= bound
    {
      SubsetSize(Unnamed(d'.results, d'.manifests[x].content), Unnamed(d.results, d.manifests[x].content));
    }
  }

  // ---------------------------------------------------------------- every step

  ghost predicate ResultsContinue(p: Phase)
  {
    p.Install? && p.artifact.ResultFile? ==> p.next.ToAccepted?
  }

  lemma CheckpointKeepsDisk(w: World, s: State, st: Store, status: RunStatus, failure: Option<FailureRecord>)
    requires ValidLayout(w.layout) && SizesAgree(w, st)
    ensures StepCheckpoint(w, s, st, status, failure).disk == s.disk
  {
    hide CheckpointManifest, Checkpointed;
  }

  /** Advancing changes the disk only by completing an installation. */
  lemma AdvanceFiles(w: World, s: State)
    requires ValidLayout(w.layout)
    ensures var d' := StepAdvance(w, s).disk;
      || d' == s.disk
      || (s.phase.Install? && s.phase.stage != Renamed &&
          d'.manifests == Installed(s.disk, s.phase.artifact).manifests &&
          d'.results == Installed(s.disk, s.phase.artifact).results)
  {
    hide LatestSelectable, RecoverPhase, OpenInstall, StepCheckpoint, IsOrphan, OutcomeOf, Resume, ValidState;
    if s.phase.Serving? && StoreReady(w, s.phase.store) {
      CheckpointKeepsDisk(w, s, s.phase.store, Complete, None);
    }
    if s.phase.ResultAccepted? && StoreReady(w, s.phase.store) {
      CheckpointKeepsDisk(w, s, s.phase.store, Running, None);
    }
  }

  lemma DeliverKeepsDisk(w: World, s: State, st: Store, msg: BlockResult)
    requires ValidLayout(w.layout) && StoreReady(w, st)
    ensures StepDeliver(w, s, st, msg).disk == s.disk
  {
    var v := ValidateResult(w.sem, msg, st.coordinator);
    assert v == Accepted ==> msg.block.id < N(w);
    hide ValidateResult, StepCheckpoint, FailureOf, RecordPhase;
    if !IsBenignRejection(v) && v != Accepted {
      CheckpointKeepsDisk(w, s, st, Failed, Some(FailureOf(w, st, msg, v)));
    }
  }

  /** What a step may do to the manifests and result files. */
  lemma StepFiles(w: World, s: State, a: Action)
    requires ValidWorld(w) && !a.SpoilMetadata? && !a.SpoilResult? && !a.SpoilManifest?
    ensures var d' := Step(w, s, a).disk;
      || (d'.manifests == s.disk.manifests && d'.results.Keys <= s.disk.results.Keys)
      || (s.phase.Install? && s.phase.stage != Renamed &&
          d'.manifests == Installed(s.disk, s.phase.artifact).manifests &&
          d'.results == Installed(s.disk, s.phase.artifact).results)
  {
    hide StepAdvance, StepDeliver, StoreReady, Deliverable, IsOrphan, Installed, Exists;
    AdvanceFiles(w, s);
    if a.Deliver? && s.phase.Serving? && StoreReady(w, s.phase.store) {
      DeliverKeepsDisk(w, s, s.phase.store, a.message);
    }
  }

  lemma CheckpointInterval(w: World, s: State, st: Store, status: RunStatus, failure: Option<FailureRecord>)
    requires ValidLayout(w.layout) && SizesAgree(w, st)
    ensures var p := StepCheckpoint(w, s, st, status, failure).phase;
      PhaseInterval(p) == 0 || PhaseInterval(p) == st.interval
    ensures ResultsContinue(StepCheckpoint(w, s, st, status, failure).phase)
    ensures StepCheckpoint(w, s, st, status, failure).interval == s.interval
  {
    assert CheckpointManifest(w, st, status, failure).Some? ==> st.sequence != U64_MAX;
    hide CheckpointManifest, CommittedAfter;
  }

  lemma DeliverInterval(w: World, s: State, st: Store, msg: BlockResult)
    requires ValidLayout(w.layout) && StoreReady(w, st) && s.phase == Serving(st)
    ensures var p := StepDeliver(w, s, st, msg).phase;
      PhaseInterval(p) == 0 || PhaseInterval(p) == st.interval
    ensures ResultsContinue(StepDeliver(w, s, st, msg).phase)
    ensures StepDeliver(w, s, st, msg).interval == s.interval
  {
    var v := ValidateResult(w.sem, msg, st.coordinator);
    assert v == Accepted ==> msg.block.id < N(w);
    hide ValidateResult, CommitResult, StepCheckpoint, FailureOf;
    if !IsBenignRejection(v) && v != Accepted {
      CheckpointInterval(w, s, st, Failed, Some(FailureOf(w, st, msg, v)));
    }
  }

  lemma LoadInterval(w: World, s: State)
    requires ValidLayout(w.layout)
    ensures var p := StepLoad(w, s).phase; PhaseInterval(p) == 0 || PhaseInterval(p) == s.interval
    ensures ResultsContinue(StepLoad(w, s).phase)
    ensures StepLoad(w, s).interval == s.interval
  {
    hide LatestSelectable, ValidSnapshot, Loaded, MakeManifest;
  }

  lemma AdvanceInterval(w: World, s: State)
    requires ValidLayout(w.layout) && ResultsContinue(s.phase)
    ensures var s' := StepAdvance(w, s);
      && s'.interval == s.interval && ResultsContinue(s'.phase)
      && (PhaseInterval(s'.phase) == 0 || PhaseInterval(s'.phase) == PhaseInterval(s.phase) ||
          PhaseInterval(s'.phase) == s.interval)
  {
    hide StepLoad, StepCheckpoint, IsOrphan, OutcomeOf, SameBytes;
    LoadInterval(w, s);
    if s.phase.Serving? && StoreReady(w, s.phase.store) {
      CheckpointInterval(w, s, s.phase.store, Complete, None);
    }
    if s.phase.ResultAccepted? && StoreReady(w, s.phase.store) {
      CheckpointInterval(w, s, s.phase.store, Running, None);
    }
  }

  lemma StepIntervals(w: World, s: State, a: Action, bound: nat)
    requires ValidWorld(w) && s.interval <= bound && PhaseInterval(s.phase) <= bound
    requires ResultsContinue(s.phase) && (a.Start? ==> a.interval <= bound)
    ensures Step(w, s, a).interval <= bound && PhaseInterval(Step(w, s, a).phase) <= bound
    ensures OwnInterval(s) ==> OwnInterval(Step(w, s, a))
    ensures ResultsContinue(Step(w, s, a).phase)
  {
    hide StepAdvance, StepDeliver, StoreReady, Deliverable, IsOrphan;
    AdvanceInterval(w, s);
    if a.Deliver? && s.phase.Serving? && StoreReady(w, s.phase.store) {
      DeliverInterval(w, s, s.phase.store, a.message);
    }
  }

  lemma StepLost(w: World, s: State, a: Action, bound: nat)
    requires ValidWorld(w) && Inv(w, s) && s.pristine && LostOK(s, bound) && ResultsContinue(s.phase)
    requires !a.SpoilMetadata? && !a.SpoilResult? && !a.SpoilManifest?
    requires a.Start? ==> a.interval <= bound
    ensures LostOK(Step(w, s, a), bound) && ResultsContinue(Step(w, s, a).phase)
  {
    StepIntervals(w, s, a, bound);
    StepFiles(w, s, a);
    hide Step, Inv, LostWithin, Installed;
    var d, d' := s.disk, Step(w, s, a).disk;
    if d'.manifests == d.manifests && d'.results.Keys <= d.results.Keys {
      SameFiles(d, d', bound);
    } else {
      InstalledWithin(w, s, bound);
      SameFiles(Installed(d, s.phase.artifact), d', bound);
    }
  }

  /** The largest interval that a process of the run was started with. */
  function LargestInterval(actions: seq<Action>): (n: nat)
    ensures n >= 1
    ensures forall a :: a in actions && a.Start? ==> a.interval <= n
  {
    if actions == [] then 1
    else
      var rest := LargestInterval(actions[1..]);
      if actions[0].Start? && actions[0].interval > rest then actions[0].interval else rest
  }

  lemma {:induction false} RunLost(w: World, s: State, actions: seq<Action>, bound: nat)
    requires ValidWorld(w) && Inv(w, s) && s.pristine && LostOK(s, bound) && ResultsContinue(s.phase)
    requires CrashesOnly(actions) && forall a :: a in actions && a.Start? ==> a.interval <= bound
    ensures LostOK(Run(w, s, actions), bound)
    decreases |actions|
  {
    hide Step, Inv, LostOK, ResultsContinue;
    if actions != [] {
      assert actions[0] in actions;
      StepLost(w, s, actions[0], bound);
      StepKeepsInv(w, s, actions[0]);
      StepKeepsPristine(w, s, actions[0]);
      RunLost(w, Step(w, s, actions[0]), actions[1..], bound);
    }
  }

  // ---------------------------------------------------------------- the bound

  /** Blocks with a result file whose row the snapshot does not have. */
  ghost function RecomputedBlocks(files: Results, m: RunManifest): set<u64>
  {
    set k | k in files && FindEntry(m.committed, k.block).None? :: k.block
  }

  lemma RecomputedAreUnnamed(files: Results, m: RunManifest)
    ensures |RecomputedBlocks(files, m)| <= |Unnamed(files, m)|
  {
    var blocks := set k | k in Unnamed(files, m) :: k.block;
    forall b | b in RecomputedBlocks(files, m) ensures b in blocks {
      var k :| k in files && FindEntry(m.committed, k.block).None? && k.block == b;
      assert k !in RefKeys(m);
      assert k in Unnamed(files, m);
    }
    NotMoreBlocksThanKeys(Unnamed(files, m));
    SubsetSize(RecomputedBlocks(files, m), blocks);
  }

  lemma {:induction false} NotMoreBlocksThanKeys(keys: set<ResultKey>)
    ensures |set k | k in keys :: k.block| <= |keys|
    decreases |keys|
  {
    if keys != {} {
      var x :| x in keys;
      var rest := keys - {x};
      NotMoreBlocksThanKeys(rest);
      assert (set k | k in keys :: k.block) == (set k | k in rest :: k.block) + {x.block};
    }
  }

  lemma NewestLoses(w: World, d: Disk, bound: nat)
    requires ValidWorld(w) && LostWithin(d, bound) && d.manifests != map[]
    requires forall x :: x in d.manifests ==> Selectable(w, d, x)
    ensures var newest := d.manifests[Highest(d.manifests.Keys)];
      newest.Readable? && |RecomputedBlocks(d.results, newest.content)| <= bound
  {
    hide ValidSnapshot, RecomputedBlocks, Unnamed;
    var h := Highest(d.manifests.Keys);
    assert Selectable(w, d, h);
    RecomputedAreUnnamed(d.results, d.manifests[h].content);
  }

  /** Bounded lost work: with crashes only, the blocks that are recorded on disk but that the next process
      will compute again never exceed the largest checkpoint interval used by any process so far. */
  lemma LostWorkIsBounded(w: World, actions: seq<Action>)
    requires ValidWorld(w) && CrashesOnly(actions)
    ensures var d := Run(w, Init(), actions).disk;
            && (d.manifests == map[] ==> d.results == map[])
            && (d.manifests != map[] ==>
                  var newest := d.manifests[Highest(d.manifests.Keys)];
                  && newest.Readable?
                  && |RecomputedBlocks(d.results, newest.content)| <= LargestInterval(actions))
  {
    hide Inv, Run, RecomputedBlocks, LostWithin, Selectable, Ordered;
    InitOK(w);
    NothingLost(LargestInterval(actions));
    CrashesOnlyInv(w, actions);
    RunLost(w, Init(), actions, LargestInterval(actions));
    var d := Run(w, Init(), actions).disk;
    if d.manifests != map[] {
      NewestLoses(w, d, LargestInterval(actions));
    }
  }

  lemma NothingLost(bound: nat)
    requires bound >= 1
    ensures LostOK(Init(), bound)
  {
  }
}
