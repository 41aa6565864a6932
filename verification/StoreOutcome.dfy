/** The counts and identities in the result of a durable run, over whole runs. */
module StoreOutcome {
  import opened Types
  import opened Basics
  import opened Blocks
  import opened Coordinator
  import opened Reduction
  import opened Snapshot
  import opened StoreMachine
  import opened StoreInvariant
  import opened StorePreservation
  import opened StoreTheorems
  import opened StoreProgress
  import opened StoreOpening

  /** The committed rows of the snapshot that open selects on a disk. */
  ghost function SelectedRows(w: World, d: Disk): nat
    requires ValidLayout(w.layout)
  {
    match LatestSelectable(w, d)
    case None => 0
    case Some(x) => |d.manifests[x].content.committed|
  }

  /** The number of result files that are on the second disk but not on the first. */
  ghost function Added(d: Disk, d': Disk): nat
  {
    |d'.results.Keys - d.results.Keys|
  }

  /** The result files that a run installs, counted step by step on the disk. */
  ghost function ResultsInstalled(w: World, s: State, actions: seq<Action>): nat
    requires ValidLayout(w.layout)
    decreases |actions|
  {
    if actions == [] then 0
    else
      var s' := Step(w, s, actions[0]);
      Added(s.disk, s'.disk) + ResultsInstalled(w, s', actions[1..])
  }

  // ---------------------------------------------------------------- rows of a snapshot

  lemma {:induction false} CountIsEntries(t: Table)
    ensures CountTrue(ReceivedOf(t)) == |EntriesOf(t)|
    decreases |t|
  {
    if |t| > 0 {
      CountIsEntries(t[..|t| - 1]);
      assert ReceivedOf(t)[..|t| - 1] == ReceivedOf(t[..|t| - 1]);
    }
  }

  lemma {:induction false} NothingReceived(s: seq<bool>)
    requires forall i :: 0 <= i < |s| ==> !s[i]
    ensures CountTrue(s) == 0
    decreases |s|
  {
    if |s| > 0 {
      NothingReceived(s[..|s| - 1]);
    }
  }

  lemma LoadedRows(w: World, d: Disk, x: u64)
    requires ValidWorld(w) && HonestFiles(w, d.results) && Selectable(w, d, x)
    ensures CountTrue(ReceivedOf(Loaded(w, d.results, d.manifests[x].content))) == |d.manifests[x].content.committed|
  {
    var m := d.manifests[x].content;
    SelectedIsGood(w, d, x, m);
    CountIsEntries(Loaded(w, d.results, m));
  }

  // ---------------------------------------------------------------- what one process carries along

  /** A process that selected rows committed rows and has since installed n result files. taken is the sequence
      number of the snapshot it selected. */
  ghost predicate Counts(s: State, rows: nat, taken: Option<u64>, n: nat)
  {
    match s.phase
    case Down => true
    case Install(a, stage, _, next) =>
      (match next
       case ToCleanup(st) => a.ManifestFile? && st.recovered == rows && st.computed == 0 == n
       case ToAccepted(st) =>
         a.ResultFile? && st.recovered == rows && st.computed == if stage == Renamed then n else n + 1
       case ToServing(st) => a.ManifestFile? && st.recovered == rows && st.computed == n
       case ToFinish(st) => a.ManifestFile? && st.recovered == rows && st.computed == n
       case ToLoad => false
       case ToFailure => a.ManifestFile?)
    case Cleanup(st) =>
      st.recovered == rows && st.computed == 0 == n && (st.status != Running ==> Some(st.sequence) == taken)
    case Serving(st) => st.recovered == rows && st.computed == n
    case ResultAccepted(st) => st.recovered == rows && st.computed == n
    case Finished(o) =>
      && o.recovered == rows && o.computed == n
      && (IsHighest(s.log.Keys, o.sequence) || (Some(o.sequence) == taken && n == 0))
    case _ => false
  }

  lemma NothingAdded(d: Disk, d': Disk)
    requires d'.results.Keys <= d.results.Keys
    ensures Added(d, d') == 0
  {
    assert d'.results.Keys - d.results.Keys == {};
  }

  lemma OneAdded(d: Disk, d': Disk, k: ResultKey)
    requires k !in d.results && d'.results.Keys == d.results.Keys + {k}
    ensures Added(d, d') == 1
  {
    assert d'.results.Keys - d.results.Keys == {k};
  }

  lemma DeliverCounts(w: World, s: State, st: Store, msg: BlockResult, rows: nat, taken: Option<u64>, n: nat)
    requires ValidWorld(w) && Inv(w, s) && s.phase == Serving(st) && StoreReady(w, st) && Deliverable(w, msg)
    requires Counts(s, rows, taken, n)
    ensures Counts(StepDeliver(w, s, st, msg), rows, taken, n) && StepDeliver(w, s, st, msg).disk == s.disk
  {
    hide Inv, ValidateResult, StoreOK, CheckpointManifest, CommitResult, HonestResult, Deliverable, RecordAllowed,
         CommittedAfter;
    ServingFacts(w, s, st);
    var v := ValidateResult(w.sem, msg, st.coordinator);
    if v == Accepted {
      AcceptedIsHonest(w, st, msg);
    } else if !IsBenignRejection(v) {
      CheckpointCounts(w, s, st, Failed, Some(FailureOf(w, st, msg, v)), rows, taken, n);
    }
  }

  lemma CheckpointCounts(
    w: World, s: State, st: Store, status: RunStatus, failure: Option<FailureRecord>, rows: nat,
    taken: Option<u64>, n: nat)
    requires ValidWorld(w) && SizesAgree(w, st) && st.recovered == rows && st.computed == n
    ensures Counts(StepCheckpoint(w, s, st, status, failure), rows, taken, n)
    ensures StepCheckpoint(w, s, st, status, failure).disk == s.disk
  {
    assert CheckpointManifest(w, st, status, failure).Some? ==> st.sequence != U64_MAX;
    hide CheckpointManifest, CommittedAfter;
  }

  lemma FinishedCounts(w: World, s: State, rows: nat, taken: Option<u64>, n: nat)
    requires ValidWorld(w) && Inv(w, s) && Counts(s, rows, taken, n)
    ensures s.phase.Cleanup? ==> Counts(StepCleanup(w, s, s.phase.recovering), rows, taken, n)
    ensures s.phase.Install? && s.phase.stage == Renamed ==>
      Counts(s.(phase := Resume(w, s.phase.next)), rows, taken, n)
  {
    hide BaseOK, StoreOK, MemoryMatchesDisk, Tree, IsOrphan, AllReceived, Tidy, Uncommitted, NamesOnDisk;
  }

  /** Renaming a temporary file adds a result file exactly if it is one. */
  lemma RenameCounts(w: World, s: State, nonce: nat, rows: nat, taken: Option<u64>, n: nat)
    requires ValidWorld(w) && s.phase.Install? && s.phase.stage == Written(nonce)
    requires !Exists(s.disk, s.phase.artifact) && Counts(s, rows, taken, n)
    ensures var s' := StepInstall(w, s, s.phase.artifact, s.phase.stage, s.phase.slack, s.phase.next);
      Counts(s', rows, taken, n + Added(s.disk, s'.disk))
  {
    var s' := StepInstall(w, s, s.phase.artifact, s.phase.stage, s.phase.slack, s.phase.next);
    RenamedCounts(s, s', rows, taken, n);
    RenameAdds(s.disk, s.disk.tmp - {nonce}, s.phase.artifact);
    hide Added, Counts, Installed, Exists, Logged;
  }

  lemma RenameAdds(d: Disk, tmp: map<nat, Artifact>, a: Artifact)
    requires !Exists(d, a)
    ensures Added(d, Installed(d.(tmp := tmp), a)) == if a.ResultFile? then 1 else 0
  {
    var d' := Installed(d.(tmp := tmp), a);
    if a.ResultFile? {
      OneAdded(d, d', KeyOf(a.record.result));
    } else {
      NothingAdded(d, d');
    }
  }

  lemma RenamedCounts(s: State, s': State, rows: nat, taken: Option<u64>, n: nat)
    requires Counts(s, rows, taken, n) && s.phase.Install? && s.phase.stage.Written?
    requires s'.phase == Install(s.phase.artifact, Renamed, s.phase.slack, s.phase.next)
    ensures Counts(s', rows, taken, if s.phase.artifact.ResultFile? then n + 1 else n)
  {
    hide IsHighest;
  }

  lemma InstallCounts(w: World, s: State, rows: nat, taken: Option<u64>, n: nat)
    requires ValidWorld(w) && Inv(w, s) && s.phase.Install? && Counts(s, rows, taken, n)
    ensures var s' := StepInstall(w, s, s.phase.artifact, s.phase.stage, s.phase.slack, s.phase.next);
      Counts(s', rows, taken, n + Added(s.disk, s'.disk))
  {
    hide Inv, Counts, Added, Resume, Installed, Exists;
    match s.phase.stage
    case Unwritten =>
      NameIsFree(w, s);
      NothingAdded(s.disk, s.disk);
    case Renamed =>
      FinishedCounts(w, s, rows, taken, n);
      NothingAdded(s.disk, s.disk);
    case Written(nonce) =>
      NameIsFree(w, s);
      RenameCounts(w, s, nonce, rows, taken, n);
  }

  lemma CleanupDisk(w: World, s: State, st: Store)
    ensures StepCleanup(w, s, st).disk == s.disk
  {
    hide IsOrphan, Tree;
  }

  lemma ServeCounts(w: World, s: State, st: Store, rows: nat, taken: Option<u64>, n: nat)
    requires ValidWorld(w) && StoreReady(w, st) && Counts(s, rows, taken, n)
    ensures s.phase == Serving(st) ==> Counts(StepEnd(w, s, st), rows, taken, n) && StepEnd(w, s, st).disk == s.disk
    ensures s.phase == ResultAccepted(st) ==>
      Counts(StepAccepted(w, s, st), rows, taken, n) && StepAccepted(w, s, st).disk == s.disk
  {
    hide StepCheckpoint, IsHighest;
    if s.phase == Serving(st) {
      CheckpointCounts(w, s, st, Complete, None, rows, taken, n);
    } else if s.phase == ResultAccepted(st) {
      CheckpointCounts(w, s, st, Running, None, rows, taken, n);
    }
  }

  lemma PastOpening(s: State, rows: nat, taken: Option<u64>, n: nat)
    requires Counts(s, rows, taken, n)
    ensures !s.phase.RemoveTemporaries? && !s.phase.CheckMetadata? && !s.phase.LoadManifest?
  {
  }

  /** The phases of open and of the consumer that read and write no file. */
  lemma QuietAdvance(w: World, s: State, rows: nat, taken: Option<u64>, n: nat)
    requires ValidWorld(w) && Inv(w, s) && Counts(s, rows, taken, n) && !s.phase.Install?
    ensures Counts(StepAdvance(w, s), rows, taken, n) && StepAdvance(w, s).disk == s.disk
  {
    PastOpening(s, rows, taken, n);
    hide Inv, Counts, StepMetadata, StepLoad, StepCleanup, StepEnd, StepAccepted, StepInstall, StoreReady;
    if s.phase.Cleanup? {
      FinishedCounts(w, s, rows, taken, n);
      CleanupDisk(w, s, s.phase.recovering);
    } else if s.phase.Serving? && StoreReady(w, s.phase.store) {
      ServeCounts(w, s, s.phase.store, rows, taken, n);
    } else if s.phase.ResultAccepted? && StoreReady(w, s.phase.store) {
      ServeCounts(w, s, s.phase.store, rows, taken, n);
    }
  }

  lemma AdvanceCounts(w: World, s: State, rows: nat, taken: Option<u64>, n: nat)
    requires ValidWorld(w) && Inv(w, s) && Counts(s, rows, taken, n)
    ensures var s' := Step(w, s, Advance); Counts(s', rows, taken, n + Added(s.disk, s'.disk))
  {
    hide Inv, Counts, Added;
    if s.phase.Install? {
      hide StepInstall;
      InstallCounts(w, s, rows, taken, n);
    } else {
      hide StepAdvance;
      QuietAdvance(w, s, rows, taken, n);
      NothingAdded(s.disk, s.disk);
    }
  }

  /** Steps that leave the phase alone, and crashes. */
  lemma QuietCounts(w: World, s: State, a: Action, rows: nat, taken: Option<u64>, n: nat)
    requires ValidWorld(w) && Counts(s, rows, taken, n) && !a.Start? && !a.Advance? && !a.Deliver?
    ensures Counts(Step(w, s, a), rows, taken, n) && Step(w, s, a).disk.results.Keys <= s.disk.results.Keys
  {
    hide IsOrphan, Exists, IsHighest;
  }

  lemma StepCounts(w: World, s: State, a: Action, rows: nat, taken: Option<u64>, n: nat)
    requires ValidWorld(w) && Inv(w, s) && Counts(s, rows, taken, n) && !a.Start?
    ensures var s' := Step(w, s, a); Counts(s', rows, taken, n + Added(s.disk, s'.disk))
  {
    hide Inv, Counts, Added, StepAdvance, StepDeliver, StoreReady, Deliverable, IsOrphan, StepCreate;
    if a.Advance? {
      AdvanceCounts(w, s, rows, taken, n);
    } else if a.Deliver? {
      NothingAdded(s.disk, s.disk);
      if s.phase.Serving? && StoreReady(w, s.phase.store) && Deliverable(w, a.message) {
        DeliverCounts(w, s, s.phase.store, a.message, rows, taken, n);
      }
    } else {
      QuietCounts(w, s, a, rows, taken, n);
      NothingAdded(s.disk, Step(w, s, a).disk);
    }
  }

  lemma {:induction false} RunCounts(
    w: World, s: State, actions: seq<Action>, rows: nat, taken: Option<u64>, n: nat)
    requires ValidWorld(w) && Inv(w, s) && Counts(s, rows, taken, n)
    requires forall a :: a in actions ==> !a.Start?
    ensures Counts(Run(w, s, actions), rows, taken, n + ResultsInstalled(w, s, actions))
    decreases |actions|
  {
    hide Step, Inv, Counts, Added;
    if actions != [] {
      var s' := Step(w, s, actions[0]);
      assert actions[0] in actions;
      StepCounts(w, s, actions[0], rows, taken, n);
      StepKeepsInv(w, s, actions[0]);
      RunCounts(w, s', actions[1..], rows, taken, n + Added(s.disk, s'.disk));
    }
  }

  // ---------------------------------------------------------------- from the selected snapshot on

  lemma LoadIsStep(w: World, s: State)
    requires ValidWorld(w) && s.phase == LoadManifest
    ensures Step(w, s, Advance) == StepLoad(w, s) && StepLoad(w, s).disk == s.disk
  {
    hide LatestSelectable, RecoverPhase, InitialStore, OpenInstall;
  }

  lemma DownCounts(s: State, rows: nat, taken: Option<u64>, n: nat)
    ensures Counts(s.(phase := Down), rows, taken, n)
  {
  }

  lemma LoadCounts(w: World, s: State)
    requires ValidWorld(w) && Inv(w, s) && s.phase == LoadManifest
    ensures Step(w, s, Advance).disk == s.disk
    ensures Counts(Step(w, s, Advance), SelectedRows(w, s.disk), LatestSelectable(w, s.disk), 0)
  {
    FilesAreHonest(w, s);
    hide Inv, LatestSelectable, HonestFiles, RecoverPhase, InitialStore, OpenInstall, Counts, Step;
    LoadIsStep(w, s);
    if s.disk.manifests == map[] {
      InitialCounts(w, s);
    } else if LatestSelectable(w, s.disk).Some? {
      SelectedCounts(w, s, LatestSelectable(w, s.disk).value);
    } else {
      DownCounts(s, 0, None, 0);
    }
  }

  lemma InitialCounts(w: World, s: State)
    requires ValidWorld(w) && s.disk.manifests == map[]
    ensures Counts(s.(phase := OpenInstall(w, InitialStore(w, s.interval), false)), 0, None, 0)
    ensures LatestSelectable(w, s.disk) == None
  {
    NothingReceived(ReceivedOf(NoResults(w))) by { assert forall i :: 0 <= i < N(w) ==> NoResults(w)[i].None?; }
    hide OpeningManifest, ReceivedOf, ValidSnapshot;
  }

  lemma SelectedCounts(w: World, s: State, x: u64)
    requires ValidWorld(w) && HonestFiles(w, s.disk.results) && Selectable(w, s.disk, x)
    requires s.disk.manifests != map[]
    ensures Counts(s.(phase := RecoverPhase(w, s.disk, x, Highest(s.disk.manifests.Keys), s.interval)),
                   |s.disk.manifests[x].content.committed|, Some(x), 0)
  {
    LoadedRows(w, s.disk, x);
    hide OpeningManifest, ReceivedOf, HonestFiles, Loaded, EntriesOf, LeavesOf, Tree;
  }

  /** The result of a run, in every run, decayed or not. Take the moment at which a process is about to load the
      manifests, and let it run on: if it finishes, it reports as recovered the committed rows of the snapshot
      it selected there, and as computed the result files it has installed since. The sequence number and
      incarnation it reports are those of an installed manifest: the newest one, unless the process took over
      the selected snapshot and installed nothing. */
  lemma OutcomeCounts(w: World, before: seq<Action>, after: seq<Action>)
    requires ValidWorld(w) && Run(w, Init(), before).phase == LoadManifest
    requires forall a :: a in after ==> !a.Start?
    ensures var s := Run(w, Init(), before);
      var t := Run(w, Step(w, s, Advance), after);
      t.phase.Finished? ==>
        var o := t.phase.outcome;
        && o.recovered == SelectedRows(w, s.disk)
        && o.computed == ResultsInstalled(w, Step(w, s, Advance), after)
        && o.sequence in t.log && t.log[o.sequence].incarnation == o.incarnation
        && (IsHighest(t.disk.manifests.Keys, o.sequence) ||
              (LatestSelectable(w, s.disk) == Some(o.sequence) && o.computed == 0))
  {
    hide Run, Step, Counts, SelectedRows, LatestSelectable, Inv;
    InitOK(w);
    RunKeepsInv(w, Init(), before);
    var s := Run(w, Init(), before);
    LoadCounts(w, s);
    var s1 := Step(w, s, Advance);
    StepKeepsInv(w, s, Advance);
    RunKeepsInv(w, s1, after);
    RunCounts(w, s1, after, SelectedRows(w, s.disk), LatestSelectable(w, s.disk), 0);
    if Run(w, s1, after).phase.Finished? {
      FinishedFacts(w, Run(w, s1, after), SelectedRows(w, s.disk), LatestSelectable(w, s.disk),
                    ResultsInstalled(w, s1, after));
    }
  }

  lemma FinishedFacts(w: World, t: State, rows: nat, taken: Option<u64>, n: nat)
    requires ValidWorld(w) && Inv(w, t) && Counts(t, rows, taken, n) && t.phase.Finished?
    ensures var o := t.phase.outcome;
      && o.recovered == rows && o.computed == n
      && o.sequence in t.log && t.log[o.sequence].incarnation == o.incarnation
      && (IsHighest(t.disk.manifests.Keys, o.sequence) || (taken == Some(o.sequence) && o.computed == 0))
  {
    hide DiskOK, LogShape, Tree;
  }

  /** With crashes only, the reported manifest is the newest one, it is complete, and it is of the reported
      incarnation. */
  lemma OutcomeIsNewest(w: World, actions: seq<Action>)
    requires ValidWorld(w) && CrashesOnly(actions)
    ensures var s := Run(w, Init(), actions);
      s.phase.Finished? ==>
        var o, d := s.phase.outcome, s.disk;
        && IsHighest(d.manifests.Keys, o.sequence) && d.manifests[o.sequence].Readable?
        && d.manifests[o.sequence].content.status == Complete
        && d.manifests[o.sequence].content.incarnation == o.incarnation
  {
    hide Run;
    CrashesOnlyInv(w, actions);
    hide PristineDisk, Inv;
    if Run(w, Init(), actions).phase.Finished? {
      FinishedIsNewest(w, Run(w, Init(), actions));
    }
  }

  lemma FinishedIsNewest(w: World, s: State)
    requires ValidWorld(w) && Inv(w, s) && s.pristine && s.phase.Finished?
    ensures var o, d := s.phase.outcome, s.disk;
        && IsHighest(d.manifests.Keys, o.sequence) && d.manifests[o.sequence].Readable?
        && d.manifests[o.sequence].content.status == Complete
        && d.manifests[o.sequence].content.incarnation == o.incarnation
  {
    hide DiskOK, LogShape, OutcomeOK;
  }
}
