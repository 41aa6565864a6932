/** What open does, stated on the files it finds and the file it is about to install: fresh directories, recovery
    of a running snapshot, terminal snapshots, directories it must refuse, and what it leaves of temporary
    files. */
module StoreOpening {
  import opened Types
  import opened Blocks
  import opened Coordinator
  import opened Reduction
  import opened Snapshot
  import opened StoreMachine
  import opened StoreInvariant
  import opened StorePreservation
  import opened StoreTheorems
  import opened StoreProgress

  // ---------------------------------------------------------------- the manifest that open installs

  /** The leases a process is handed are those of the manifest it installs. */
  ghost predicate HandsOut(w: World, st: Store, m: RunManifest)
    requires ValidLayout(w.layout)
  {
    && st.incarnation == m.incarnation && |st.coordinator.blocks| == |m.epochs| == N(w)
    && forall i :: 0 <= i < N(w) ==> st.coordinator.blocks[i] == Block(w.layout, i, m.incarnation, m.epochs[i])
  }

  /** A directory without manifests starts at sequence 0 and incarnation 1 with every lease epoch 1. */
  lemma FreshOpen(w: World, s: State)
    requires ValidWorld(w) && s.phase == LoadManifest && s.disk.manifests == map[]
    ensures var s' := Step(w, s, Advance);
      && s'.disk == s.disk && s'.phase.Install? && s'.phase.artifact.ManifestFile? && s'.phase.next.ToCleanup?
      && var m := s'.phase.artifact.manifest;
         && m.runId == w.runId && m.identity == w.identity && m.blockCount == N(w)
         && m.sequence == 0 && m.incarnation == 1 && m.status == Running && m.failure.None?
         && m.epochs == seq(N(w), _ => 1) && m.committed == []
         && HandsOut(w, s'.phase.next.recovering, m)
  {
    var st := InitialStore(w, s.interval);
    LeasedEpochs(w, 1, FirstEpochs(w));
    NoEntries(NoResults(w));
    assert FirstEpochs(w) == seq(N(w), _ => 1);
    hide LeavesOf, Tree;
  }

  lemma {:induction false} NoEntries(t: Table)
    requires forall i :: 0 <= i < |t| ==> t[i].None?
    ensures EntriesOf(t) == []
    decreases |t|
  {
    if |t| > 0 {
      NoEntries(t[..|t| - 1]);
    }
  }

  /** Some identity or lease epoch has no successor in 64 bits. */
  predicate Exhausted(m: RunManifest, highest: u64)
  {
    m.incarnation == U64_MAX || highest == U64_MAX || U64_MAX in m.epochs
  }

  /** The recovery manifest, given the selected running snapshot and the highest manifest name. */
  ghost predicate RaisesLeases(m: RunManifest, highest: u64, raised: RunManifest)
  {
    && raised.runId == m.runId && raised.identity == m.identity && raised.blockCount == m.blockCount
    && raised.sequence as int == highest as int + 1 && raised.status == Running && raised.failure.None?
    && raised.incarnation > m.incarnation && raised.incarnation > highest
    && (raised.incarnation as int == m.incarnation as int + 1 || raised.incarnation as int == highest as int + 1)
    && |raised.epochs| == |m.epochs|
    && (forall i :: 0 <= i < |m.epochs| ==> raised.epochs[i] as int == m.epochs[i] as int + 1)
    && raised.committed == m.committed && raised.aggregate == m.aggregate
  }

  /** Recovery of a running snapshot, in every reachable state, decayed or not: the process gives up if an
      identity is exhausted; otherwise it is about to install, under the next sequence number, the same commit
      set and aggregate with an incarnation above the snapshot's and above every manifest name, and with every
      lease epoch raised by one, and it hands out exactly these leases. */
  lemma RecoveryRaisesLeases(w: World, actions: seq<Action>, x: u64, highest: u64)
    requires ValidWorld(w)
    requires var s := Run(w, Init(), actions);
      && s.phase == LoadManifest && IsHighest(s.disk.manifests.Keys, highest)
      && LatestSelectable(w, s.disk) == Some(x) && s.disk.manifests[x].content.status == Running
    ensures var s := Run(w, Init(), actions);
      var m, s' := s.disk.manifests[x].content, Step(w, s, Advance);
      && s'.disk == s.disk
      && if Exhausted(m, highest) then s'.phase == Down
         else
           && s'.phase.Install? && s'.phase.artifact.ManifestFile? && s'.phase.next.ToCleanup?
           && RaisesLeases(m, highest, s'.phase.artifact.manifest)
           && HandsOut(w, s'.phase.next.recovering, s'.phase.artifact.manifest)
  {
    hide Run, LatestSelectable, ValidSnapshot, Inv, Recovered, OpeningManifest, RaisesLeases, HandsOut;
    InitOK(w);
    RunKeepsInv(w, Init(), actions);
    var s := Run(w, Init(), actions);
    assert highest == Highest(s.disk.manifests.Keys);
    FilesAreHonest(w, s);
    var m := s.disk.manifests[x].content;
    if !Exhausted(m, highest) {
      RecoveredManifest(w, s.disk, x, highest, s.interval);
    } else {
      assert !CanRecover(m, highest);
    }
  }

  lemma FilesAreHonest(w: World, s: State)
    requires ValidWorld(w) && Inv(w, s)
    ensures HonestFiles(w, s.disk.results) && s.interval >= 1
  {
    hide PhaseOK, HonestFiles;
  }

  lemma RecoveredManifest(w: World, d: Disk, x: u64, highest: u64, interval: u64)
    requires ValidWorld(w) && HonestFiles(w, d.results) && Selectable(w, d, x)
    requires var m := d.manifests[x].content; m.status == Running && !Exhausted(m, highest)
    ensures var m := d.manifests[x].content;
      && CanRecover(m, highest)
      && var st := Recovered(w, d.results, m, highest, interval);
         RaisesLeases(m, highest, OpeningManifest(w, st)) && HandsOut(w, st, OpeningManifest(w, st))
  {
    var m := d.manifests[x].content;
    SelectedIsGood(w, d, x, m);
    LeasedEpochs(w, Max(m.incarnation + 1, highest + 1), NextEpochs(m.epochs));
    hide GoodTable, TableOnDisk, EntriesOf, CanonicalManifest, AllBacked;
  }

  /** A terminal snapshot is taken over unchanged: nothing is installed and no lease is raised. */
  lemma TerminalOpen(w: World, s: State, x: u64)
    requires ValidWorld(w) && s.phase == LoadManifest && LatestSelectable(w, s.disk) == Some(x)
    requires s.disk.manifests[x].content.status != Running
    ensures var s', m := Step(w, s, Advance), s.disk.manifests[x].content;
      && s'.disk == s.disk && s'.phase.Cleanup?
      && s'.phase.recovering.sequence == x && s'.phase.recovering.status == m.status
      && HandsOut(w, s'.phase.recovering, m)
  {
    hide LatestSelectable, LeavesOf, Tree, EntriesOf;
  }

  /** With manifests of which none is valid, open gives up and touches nothing. */
  lemma NothingSelectable(w: World, s: State)
    requires ValidWorld(w) && s.phase == LoadManifest && s.disk.manifests != map[]
    requires forall x :: x in s.disk.manifests ==> !Selectable(w, s.disk, x)
    ensures Step(w, s, Advance) == s.(phase := Down)
  {
    hide ValidSnapshot;
  }

  // ---------------------------------------------------------------- over whole runs

  /** Leases over every run with crashes only: of two installed manifests the later one has the same leases if
      its incarnation is the same, and otherwise a larger incarnation and a larger epoch for every block. */
  lemma LeasesRise(w: World, actions: seq<Action>, x: u64, y: u64)
    requires ValidWorld(w) && CrashesOnly(actions)
    requires var d := Run(w, Init(), actions).disk; x in d.manifests && y in d.manifests && x < y
    ensures var d := Run(w, Init(), actions).disk;
      && d.manifests[x].Readable? && d.manifests[y].Readable?
      && var a, b := d.manifests[x].content, d.manifests[y].content;
         && |a.epochs| == |b.epochs| == N(w)
         && (a.incarnation == b.incarnation ==> a.epochs == b.epochs)
         && (a.incarnation != b.incarnation ==>
               a.incarnation < b.incarnation && forall i :: 0 <= i < N(w) ==> a.epochs[i] < b.epochs[i])
  {
    DiskStaysValid(w, actions);
    hide Run;
    var d := Run(w, Init(), actions).disk;
    assert Selectable(w, d, x) && Selectable(w, d, y);
  }

  /** The manifest names on disk are the numbers from zero to the highest one, whatever decays. */
  lemma NamesHaveNoGaps(w: World, actions: seq<Action>, x: u64, y: nat)
    requires ValidWorld(w) && x in Run(w, Init(), actions).disk.manifests && y <= x
    ensures y in Run(w, Init(), actions).disk.manifests
  {
    hide Run, PhaseOK, DiskOK;
    InitOK(w);
    RunKeepsInv(w, Init(), actions);
  }

  // ---------------------------------------------------------------- directories that are refused

  /** The directory belongs to another run, or its metadata is unreadable, or it is missing beside other files. */
  ghost predicate Refused(w: World, d: Disk)
  {
    match d.metadata
    case Some(f) => f != Readable(Metadata(w.runId, w.identity))
    case None => d.results != map[] || d.manifests != map[]
  }

  predicate BeforeLoading(p: Phase)
  {
    p.Down? || p.RemoveTemporaries? || p.CheckMetadata?
  }

  lemma RefusedStep(w: World, s: State, a: Action)
    requires ValidWorld(w) && Refused(w, s.disk) && BeforeLoading(s.phase)
    ensures Refused(w, Step(w, s, a).disk) && BeforeLoading(Step(w, s, a).phase)
    ensures Step(w, s, a).disk.results.Keys == s.disk.results.Keys
    ensures Step(w, s, a).disk.manifests.Keys == s.disk.manifests.Keys
    ensures !a.SpoilMetadata? && !a.SpoilResult? && !a.SpoilManifest? ==>
      Step(w, s, a).disk == s.disk.(tmp := Step(w, s, a).disk.tmp)
  {
    hide LatestSelectable, ValidSnapshot, CheckpointManifest, ValidateResult, StepLoad;
  }

  /** Incompatible directories: whatever processes are started on a directory of another run, or on one whose
      metadata is missing beside other files or unreadable, none gets past the metadata, no file is added or
      removed but stale temporaries, and without decay none is changed. */
  lemma {:induction false} ForeignRunIsUntouched(w: World, s: State, actions: seq<Action>)
    requires ValidWorld(w) && Refused(w, s.disk) && BeforeLoading(s.phase)
    ensures var t := Run(w, s, actions);
      && BeforeLoading(t.phase) && Refused(w, t.disk)
      && t.disk.results.Keys == s.disk.results.Keys && t.disk.manifests.Keys == s.disk.manifests.Keys
      && (CrashesOnly(actions) ==> t.disk == s.disk.(tmp := t.disk.tmp))
    decreases |actions|
  {
    hide Step, Refused;
    if actions != [] {
      assert actions[0] in actions;
      RefusedStep(w, s, actions[0]);
      ForeignRunIsUntouched(w, Step(w, s, actions[0]), actions[1..]);
    }
  }

  /** Open gets past the metadata exactly when it is the run's own, and writes it exactly in an empty store. */
  lemma MetadataDecides(w: World, s: State)
    requires ValidWorld(w) && s.phase == CheckMetadata
    ensures var s' := Step(w, s, Advance);
      && s'.disk == s.disk
      && (s'.phase == LoadManifest <==> s.disk.metadata == Some(Readable(Metadata(w.runId, w.identity))))
      && (s'.phase.Install? <==>
            s.disk.metadata.None? && s.disk.results == map[] && s.disk.manifests == map[])
      && (s'.phase.Install? ==> s'.phase.artifact == MetadataFile(Metadata(w.runId, w.identity)))
      && (s'.phase == Down <==> Refused(w, s.disk))
  {
  }

  // ---------------------------------------------------------------- temporary files

  /** Past the first step of open the only temporary file is the one that is being written, with its content. */
  ghost predicate TemporariesOK(s: State)
  {
    match s.phase
    case Down => true
    case RemoveTemporaries => true
    case Install(a, Written(nonce), _, _) => s.disk.tmp == map[nonce := a]
    case _ => s.disk.tmp == map[]
  }

  lemma TemporariesStep(w: World, s: State, a: Action)
    requires ValidWorld(w) && TemporariesOK(s)
    ensures TemporariesOK(Step(w, s, a))
  {
    hide LatestSelectable, ValidSnapshot, CheckpointManifest, ValidateResult, Checkpointed, AcceptedStore,
         IsOrphan, OpeningManifest, Recovered, Opened, StoreReady, Deliverable, InitialStore, RecordAllowed;
  }

  /** In every run, a process that waits for results or has finished has left no temporary file behind. */
  lemma {:induction false} TemporariesAreGone(w: World, s: State, actions: seq<Action>)
    requires ValidWorld(w) && TemporariesOK(s)
    ensures TemporariesOK(Run(w, s, actions))
    ensures var t := Run(w, s, actions);
      t.phase.LoadManifest? || t.phase.Cleanup? || t.phase.Serving? || t.phase.Finished? ==> t.disk.tmp == map[]
    decreases |actions|
  {
    hide Step;
    if actions != [] {
      TemporariesStep(w, s, actions[0]);
      TemporariesAreGone(w, Step(w, s, actions[0]), actions[1..]);
    }
  }
}
