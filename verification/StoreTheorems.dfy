/** What the durable run store guarantees over whole runs: any number of processes, each of which may die
    at any step, with files that may become unreadable in between. */
module StoreTheorems {
  import opened Types
  import opened Blocks
  import opened Coordinator
  import opened Reduction
  import opened Snapshot
  import opened StoreMachine
  import opened StoreInvariant
  import opened StorePreservation

  /** Crash safety: however many processes died before and wherever they died, whatever was delivered and
      whichever files decayed, a process that finishes returns the fixed-tree reduction of every block's
      own aggregate, and every block was either recovered or computed. */
  lemma CrashSafety(w: World, actions: seq<Action>)
    requires ValidWorld(w)
    ensures var s := Run(w, Init(), actions);
            s.phase.Finished? ==>
              && s.phase.outcome.aggregate == Tree(w.merge, EMPTY_AGGREGATE, AllAggregates(w))
              && s.phase.outcome.blockCount == N(w)
              && s.phase.outcome.recovered + s.phase.outcome.computed == N(w)
  {
    InitOK(w);
    RunKeepsInv(w, Init(), actions);
  }

  /** No file decays. */
  ghost predicate CrashesOnly(actions: seq<Action>)
  {
    forall a :: a in actions ==> !a.SpoilMetadata? && !a.SpoilResult? && !a.SpoilManifest?
  }

  lemma StepKeepsPristine(w: World, s: State, a: Action)
    requires ValidWorld(w) && !a.SpoilMetadata? && !a.SpoilResult? && !a.SpoilManifest?
    ensures Step(w, s, a).pristine == s.pristine
  {
    hide LatestSelectable, ValidSnapshot, CheckpointManifest, ValidateResult;
  }

  lemma {:induction false} CrashesKeepPristine(w: World, s: State, actions: seq<Action>)
    requires ValidWorld(w) && CrashesOnly(actions)
    ensures Run(w, s, actions).pristine == s.pristine
    decreases |actions|
  {
    hide Step;
    if actions != [] {
      assert actions[0] in actions;
      StepKeepsPristine(w, s, actions[0]);
      CrashesKeepPristine(w, Step(w, s, actions[0]), actions[1..]);
    }
  }

  lemma CrashesOnlyInv(w: World, actions: seq<Action>)
    requires ValidWorld(w) && CrashesOnly(actions)
    ensures var s := Run(w, Init(), actions); s.pristine && Inv(w, s) && PristineDisk(w, s.disk)
  {
    InitOK(w);
    RunKeepsInv(w, Init(), actions);
    CrashesKeepPristine(w, Init(), actions);
    hide PristineDisk, PhaseOK, LogOK;
  }

  lemma PristineIsOrdered(w: World, d: Disk)
    requires ValidWorld(w) && PristineDisk(w, d)
    ensures forall x :: x in d.manifests ==> Selectable(w, d, x)
    ensures forall x, y | x in d.manifests && y in d.manifests && x < y ::
              Extends(d.manifests[x].content, d.manifests[y].content)
  {
    hide ValidSnapshot, Extends;
    forall x, y | x in d.manifests && y in d.manifests && x < y
      ensures Extends(d.manifests[x].content, d.manifests[y].content)
    {
      assert Selectable(w, d, x) && Selectable(w, d, y);
    }
  }

  lemma NewestIsSelected(w: World, d: Disk)
    requires ValidWorld(w) && d.manifests != map[]
    requires forall x :: x in d.manifests ==> Selectable(w, d, x)
    ensures LatestSelectable(w, d) == Some(Highest(d.manifests.Keys))
  {
    hide LatestSelectable, ValidSnapshot;
    var h := Highest(d.manifests.Keys);
    assert Selectable(w, d, h);
  }

  /** Disk invariant: with crashes only, every installed manifest passes validation in every state, commit
      sets, lease epochs and incarnations never decrease with the sequence number, only a running manifest
      has a successor, and recovery therefore selects the newest manifest without falling back. */
  lemma DiskStaysValid(w: World, actions: seq<Action>)
    requires ValidWorld(w) && CrashesOnly(actions)
    ensures var d := Run(w, Init(), actions).disk;
            && (forall x :: x in d.manifests ==> Selectable(w, d, x))
            && (forall x, y | x in d.manifests && y in d.manifests && x < y ::
                  Extends(d.manifests[x].content, d.manifests[y].content))
            && (d.manifests != map[] ==> LatestSelectable(w, d) == Some(Highest(d.manifests.Keys)))
  {
    hide Inv, ValidSnapshot, Extends, PristineDisk, LatestSelectable, Run;
    CrashesOnlyInv(w, actions);
    var d := Run(w, Init(), actions).disk;
    PristineIsOrdered(w, d);
    if d.manifests != map[] {
      NewestIsSelected(w, d);
    }
  }

  /** Immutability: in every run, decayed or not, the name of a file that is about to be installed is free,
      so the conflict with an existing file of different bytes never arises, for results and manifests. */
  lemma InstallNeverConflicts(w: World, actions: seq<Action>)
    requires ValidWorld(w)
    ensures var s := Run(w, Init(), actions);
            s.phase.Install? && s.phase.stage != Renamed ==> !Exists(s.disk, s.phase.artifact)
  {
    InitOK(w);
    RunKeepsInv(w, Init(), actions);
  }

  /** Orphan cleanup: in every run, decayed or not, when open hands over the store the result files on disk
      are exactly those of the recovered snapshot. */
  lemma CleanupIsExact(w: World, actions: seq<Action>, k: ResultKey)
    requires ValidWorld(w)
    ensures var s := Run(w, Init(), actions);
            s.phase.Cleanup? && !Step(w, s, Advance).phase.Cleanup? ==>
              (k in s.disk.results <==> !IsOrphan(s.phase.recovering, k))
  {
    hide Run, IsOrphan, Inv;
    InitOK(w);
    RunKeepsInv(w, Init(), actions);
    var s := Run(w, Init(), actions);
    if s.phase.Cleanup? && !IsOrphan(s.phase.recovering, k) {
      RecoveringFacts(w, s);
      NotOrphanIsOnDisk(w, s.disk.results.Keys, s.phase.recovering, k);
    }
  }

  lemma RecoveringFacts(w: World, s: State)
    requires ValidWorld(w) && Inv(w, s) && s.phase.Cleanup?
    ensures var st := s.phase.recovering;
            && StoreOK(w, st) && st.committed == st.durable && st.computed == 0
            && (st.status == Complete ==> AllReceived(st))
            && NamesOnDisk(s.disk.results.Keys, st.durable)
  {
    hide StoreOK, MemoryMatchesDisk, BaseOK, AllReceived, NamesOnDisk;
  }

  lemma NotOrphanIsOnDisk(w: World, names: set<ResultKey>, st: Store, k: ResultKey)
    requires ValidWorld(w) && StoreOK(w, st) && st.committed == st.durable
    requires NamesOnDisk(names, st.durable) && !IsOrphan(st, k)
    ensures k in names
  {
    assert st.durable[k.block].value.block.id == k.block;
    assert KeyOf(st.durable[k.block].value) == k;
  }

  /** And it stays exact: in every run, while a process waits for results or has just accepted one, the result
      files on disk are exactly those of the results it holds. */
  lemma FilesMatchMemory(w: World, actions: seq<Action>, k: ResultKey)
    requires ValidWorld(w)
    ensures var s := Run(w, Init(), actions);
            s.phase.Serving? || s.phase.ResultAccepted? ==>
              (k in s.disk.results <==>
                 k.block < |s.phase.store.durable| && s.phase.store.durable[k.block].Some? &&
                 KeyOf(s.phase.store.durable[k.block].value) == k)
  {
    hide Run, Inv;
    InitOK(w);
    RunKeepsInv(w, Init(), actions);
    var s := Run(w, Init(), actions);
    if s.phase.Serving? || s.phase.ResultAccepted? {
      HeldFacts(w, s, s.phase.store);
    }
  }

  lemma HeldFacts(w: World, s: State, st: Store)
    requires ValidWorld(w) && Inv(w, s) && (s.phase == Serving(st) || s.phase == ResultAccepted(st))
    ensures NamesOnDisk(s.disk.results.Keys, st.durable) && Tidy(s.disk.results, st)
  {
    hide StoreOK, MemoryMatchesDisk, BaseOK, AllReceived, NamesOnDisk, Tidy, Uncommitted;
  }

  // ---------------------------------------------------------------- incarnations

  lemma StepKeepsLog(w: World, s: State, a: Action, x: u64)
    requires ValidWorld(w) && Inv(w, s) && x in s.log
    ensures x in Step(w, s, a).log && Step(w, s, a).log[x] == s.log[x]
  {
    hide LatestSelectable, ValidSnapshot, CheckpointManifest, ValidateResult, PristineDisk, LogShape, StoreOK,
         HonestFiles, NextOK, Working;
  }

  /** The log is the history of every manifest ever installed. */
  lemma {:induction false} LogIsHistory(w: World, s: State, actions: seq<Action>, x: u64)
    requires ValidWorld(w) && Inv(w, s) && x in s.log
    ensures x in Run(w, s, actions).log && Run(w, s, actions).log[x] == s.log[x]
    decreases |actions|
  {
    hide Step, Inv;
    if actions != [] {
      StepKeepsLog(w, s, actions[0], x);
      StepKeepsInv(w, s, actions[0]);
      LogIsHistory(w, Step(w, s, actions[0]), actions[1..], x);
    }
  }

  /** Every manifest ever installed keeps its incarnation at most one above its sequence number, and
      incarnations never decrease with the sequence number. */
  lemma IncarnationsStayClose(w: World, actions: seq<Action>, x: u64, y: u64)
    requires ValidWorld(w)
    ensures var log := Run(w, Init(), actions).log;
            && (x in log ==> 1 <= log[x].incarnation <= x + 1)
            && (x in log && y in log && x < y ==> log[x].incarnation <= log[y].incarnation)
  {
    InitOK(w);
    RunKeepsInv(w, Init(), actions);
  }

  /** Incarnation freshness, exactly: the incarnation that recovery picks is above that of every manifest
      ever installed if and only if recovery did not fall back to an older snapshot, or some checkpoint
      (or an earlier fallback recovery) has been installed before. Unreadable manifests count as long as
      their names are present. */
  lemma FreshIncarnation(w: World, actions: seq<Action>, sequence: u64)
    requires ValidWorld(w)
    requires var s := Run(w, Init(), actions);
             && LatestSelectable(w, s.disk) == Some(sequence)
             && s.disk.manifests[sequence].content.status == Running
             && CanRecover(s.disk.manifests[sequence].content, Highest(s.disk.manifests.Keys))
    ensures var s := Run(w, Init(), actions);
            var highest := Highest(s.disk.manifests.Keys);
            var picked := Recovered(w, s.disk.results, s.disk.manifests[sequence].content, highest,
                                    s.interval).incarnation;
            (forall x :: x in s.log ==> s.log[x].incarnation < picked) <==>
              (sequence == highest || exists x :: x in s.log && s.log[x].slack)
  {
    InitOK(w);
    RunKeepsInv(w, Init(), actions);
    var s := Run(w, Init(), actions);
    var highest := Highest(s.disk.manifests.Keys);
    hide Run, PhaseOK, ValidSnapshot, DiskOK, LogShape, Recovered, LatestSelectable, CanRecover;
    var m := s.disk.manifests[sequence].content;
    PickedIncarnation(w, s.disk.results, m, highest, s.interval);
    assert IsHighest(s.log.Keys, highest) && sequence in s.log && s.log[sequence].incarnation == m.incarnation;
    FreshPick(s.log, highest, sequence);
  }

  lemma PickedIncarnation(w: World, files: Results, m: RunManifest, highest: u64, interval: u64)
    requires ValidWorld(w) && ValidSnapshot(w, files, m) && CanRecover(m, highest)
    ensures Recovered(w, files, m, highest, interval).incarnation == Max(m.incarnation + 1, highest + 1)
    ensures m.incarnation != U64_MAX && highest != U64_MAX
  {
  }

  /** A guard on what open itself sees: recovery is fresh whenever the selected manifest is the newest name
      or its incarnation does not exceed its sequence number. */
  lemma VisiblyFresh(w: World, actions: seq<Action>, sequence: u64)
    requires ValidWorld(w)
    requires var s := Run(w, Init(), actions);
             && LatestSelectable(w, s.disk) == Some(sequence)
             && s.disk.manifests[sequence].content.status == Running
             && CanRecover(s.disk.manifests[sequence].content, Highest(s.disk.manifests.Keys))
             && (sequence == Highest(s.disk.manifests.Keys) ||
                 s.disk.manifests[sequence].content.incarnation <= sequence)
    ensures var s := Run(w, Init(), actions);
            var highest := Highest(s.disk.manifests.Keys);
            var picked := Recovered(w, s.disk.results, s.disk.manifests[sequence].content, highest,
                                    s.interval).incarnation;
            forall x :: x in s.log ==> s.log[x].incarnation < picked
  {
    hide Run, LatestSelectable, ValidSnapshot, Recovered;
    FreshIncarnation(w, actions, sequence);
    var s := Run(w, Init(), actions);
    InitOK(w);
    RunKeepsInv(w, Init(), actions);
    if s.disk.manifests[sequence].content.incarnation <= sequence {
      AheadUntilSlack(w, s, sequence);
    }
  }

  lemma AheadUntilSlack(w: World, s: State, x: u64)
    requires ValidWorld(w) && Inv(w, s) && x in s.disk.manifests && s.disk.manifests[x].Readable?
    requires s.disk.manifests[x].content.incarnation <= x
    ensures exists y :: y in s.log && s.log[y].slack
  {
    hide PhaseOK, DiskOK;
    assert x in s.log && SlackUpTo(s.log, x);
  }

  lemma FreshPick(log: map<u64, LogEntry>, highest: u64, sequence: u64)
    requires LogShape(log) && IsHighest(log.Keys, highest) && sequence in log
    requires highest != U64_MAX && log[sequence].incarnation != U64_MAX
    ensures var picked := Max(log[sequence].incarnation + 1, highest + 1);
            (forall x :: x in log ==> log[x].incarnation < picked) <==>
              (sequence == highest || exists x :: x in log && log[x].slack)
  {
    var picked := Max(log[sequence].incarnation + 1, highest + 1);
    LogBelow(log, highest, sequence);
    if exists x :: x in log && log[x].slack {
      assert SlackUpTo(log, highest);
    } else {
      assert !SlackUpTo(log, highest);
    }
    forall x | x in log ensures log[x].incarnation <= log[highest].incarnation {
      LogBelow(log, highest, x);
    }
  }

  // ---------------------------------------------------------------- a run that repeats an incarnation

  lemma {:induction false} RunSnoc(w: World, s: State, actions: seq<Action>, a: Action)
    requires ValidWorld(w)
    ensures Run(w, s, actions + [a]) == Step(w, Run(w, s, actions), a)
    decreases |actions|
  {
    hide Step;
    if actions == [] {
      assert [a][1..] == [];
    } else {
      assert (actions + [a])[1..] == actions[1..] + [a];
      RunSnoc(w, Step(w, s, actions[0]), actions[1..], a);
    }
  }

  lemma Continue(w: World, actions: seq<Action>, s: State, a: Action) returns (actions': seq<Action>, s': State)
    requires ValidWorld(w) && s == Run(w, Init(), actions)
    ensures s' == Run(w, Init(), actions') == Step(w, s, a)
  {
    RunSnoc(w, Init(), actions, a);
    actions', s' := actions + [a], Step(w, s, a);
  }

  /** The three steps of an undisturbed installation. */
  lemma InstallSteps(w: World, actions: seq<Action>, s: State) returns (actions': seq<Action>, s': State)
    requires ValidWorld(w) && s == Run(w, Init(), actions)
    requires s.phase.Install? && s.phase.stage == Unwritten && !Exists(s.disk, s.phase.artifact)
    requires s.disk.tmp == map[]
    ensures s' == Run(w, Init(), actions')
    ensures s' == s.(disk := Installed(s.disk, s.phase.artifact), phase := Resume(w, s.phase.next),
                     log := Logged(s.log, s.phase.artifact, s.phase.slack))
  {
    hide Run;
    actions', s' := Continue(w, actions, s, CreateTemporary(0));
    actions', s' := Continue(w, actions', s', Advance);
    assert map[0 := s.phase.artifact] - {0} == map[];
    actions', s' := Continue(w, actions', s', Advance);
  }

  /** A process starts, finds no temporary files, and comes to load the manifests. */
  lemma StartSteps(w: World, actions: seq<Action>, s: State) returns (actions': seq<Action>, s': State)
    requires ValidWorld(w) && s == Run(w, Init(), actions)
    requires s.disk.tmp == map[] && s.disk.metadata == Some(Readable(Metadata(w.runId, w.identity)))
    ensures s' == Run(w, Init(), actions') == s.(phase := LoadManifest, interval := 1)
  {
    hide Run;
    actions', s' := Continue(w, actions, s, Crash);
    actions', s' := Continue(w, actions', s', Start(1));
    actions', s' := Continue(w, actions', s', Advance);
    actions', s' := Continue(w, actions', s', Advance);
  }

  ghost function FirstDisk(w: World): Disk
    requires ValidLayout(w.layout)
  {
    Disk(Some(Readable(Metadata(w.runId, w.identity))), map[], map[],
         map[0 := Readable(OpeningManifest(w, InitialStore(w, 1)))])
  }

  lemma FirstProcess(w: World) returns (actions: seq<Action>, s: State)
    requires ValidWorld(w)
    ensures s == Run(w, Init(), actions)
    ensures s == State(FirstDisk(w), Cleanup(InitialStore(w, 1)), 1, map[0 := LogEntry(1, false)], true)
  {
    hide Run;
    actions, s := [], Init();
    assert s == Run(w, Init(), actions) by { RunNothing(w); }
    actions, s := Continue(w, actions, s, Start(1));
    actions, s := Continue(w, actions, s, Advance);
    actions, s := Continue(w, actions, s, Advance);
    actions, s := InstallSteps(w, actions, s);
    actions, s := Continue(w, actions, s, Advance);
    actions, s := InstallSteps(w, actions, s);
  }

  lemma RunNothing(w: World)
    requires ValidWorld(w)
    ensures Run(w, Init(), []) == Init()
  {
  }

  lemma FirstManifestIsSelected(w: World, d: Disk)
    requires ValidWorld(w) && d.results == map[] && 0 in d.manifests && d.manifests.Keys <= {0, 1}
    requires d.manifests[0] == Readable(OpeningManifest(w, InitialStore(w, 1)))
    requires 1 in d.manifests ==> d.manifests[1] == Unreadable
    ensures ValidSnapshot(w, map[], OpeningManifest(w, InitialStore(w, 1)))
    ensures LatestSelectable(w, d) == Some(0)
    ensures Highest(d.manifests.Keys) == if 1 in d.manifests then 1 else 0
    ensures CanRecover(OpeningManifest(w, InitialStore(w, 1)), Highest(d.manifests.Keys))
  {
    var st := InitialStore(w, 1);
    OpenedStoreOK(w, 0, 1, Running, FirstEpochs(w), NoResults(w), 1);
    OpeningIsValid(w, d, st);
    hide StoreOK, ValidSnapshot;
    assert Selectable(w, d, 0);
    var h := Highest(d.manifests.Keys);
    if 1 in d.manifests {
      assert !Selectable(w, d, 1);
    }
  }

  /** Freshness does fail without its condition: for every run specification there is a run, of two
      processes that die right after opening and one recovery manifest that becomes unreadable, after
      which recovery picks an incarnation that an installed manifest already has. */
  lemma IncarnationCanRepeat(w: World) returns (actions: seq<Action>)
    requires ValidWorld(w)
    ensures var s := Run(w, Init(), actions);
            && s.phase == LoadManifest
            && LatestSelectable(w, s.disk) == Some(0)
            && var m, highest := s.disk.manifests[0].content, Highest(s.disk.manifests.Keys);
               && CanRecover(m, highest) && m.status == Running
               && 1 in s.log && s.log[1].incarnation == Recovered(w, s.disk.results, m, highest, s.interval).incarnation
  {
    hide Run, ValidSnapshot, OpeningManifest, LatestSelectable, StoreOK;
    var s;
    actions, s := FirstProcess(w);
    FirstManifestIsSelected(w, s.disk);
    FirstManifestFields(w);
    actions, s := StartSteps(w, actions, s);
    actions, s := Continue(w, actions, s, Advance);
    var second := s.phase.artifact.manifest;
    SecondManifestFields(w);
    actions, s := InstallSteps(w, actions, s);
    actions, s := Continue(w, actions, s, SpoilManifest(1));
    actions, s := StartSteps(w, actions, s);
    FirstManifestIsSelected(w, s.disk);
  }

  lemma FirstManifestFields(w: World)
    requires ValidWorld(w)
    ensures var m := OpeningManifest(w, InitialStore(w, 1));
            m.sequence == 0 && m.incarnation == 1 && m.status == Running
  {
  }

  lemma SecondManifestFields(w: World)
    requires ValidWorld(w) && ValidSnapshot(w, map[], OpeningManifest(w, InitialStore(w, 1)))
    requires CanRecover(OpeningManifest(w, InitialStore(w, 1)), 0)
    ensures var m := OpeningManifest(w, Recovered(w, map[], OpeningManifest(w, InitialStore(w, 1)), 0, 1));
            m.sequence == 1 && m.incarnation == 2
  {
  }

  /** A completed run is loaded as it is: the next process reports every block as recovered and none as
      computed, under the sequence number, incarnation and aggregate of the manifest it found. */
  lemma CompletedRunIsReloaded(w: World, actions: seq<Action>)
    requires ValidWorld(w) && CrashesOnly(actions)
    requires var s := Run(w, Init(), actions);
             && s.phase == LoadManifest && s.disk.manifests != map[]
             && s.disk.manifests[Highest(s.disk.manifests.Keys)].Readable?
             && s.disk.manifests[Highest(s.disk.manifests.Keys)].content.status == Complete
    ensures var s' := Step(w, Run(w, Init(), actions), Advance);
            && s'.phase.Cleanup? && s'.disk == Run(w, Init(), actions).disk
            && var o := OutcomeOf(w, s'.phase.recovering);
               var m := s'.disk.manifests[Highest(s'.disk.manifests.Keys)].content;
               && OutcomeOK(w, o) && o.recovered == N(w) && o.computed == 0
               && o.sequence == m.sequence == Highest(s'.disk.manifests.Keys)
               && o.incarnation == m.incarnation && o.aggregate == m.aggregate
  {
    hide Run, ValidSnapshot, PristineDisk, LogShape, HonestFiles, StoreOK, RecoveringOK, TerminalOK, Opened,
         OutcomeOK, LatestSelectable;
    CrashesOnlyInv(w, actions);
    DiskStaysValid(w, actions);
    var s := Run(w, Init(), actions);
    LoadOK(w, s);
    var s' := Step(w, s, Advance);
    LoadedStatus(w, s);
    RecoveringFacts(w, s');
    FinishedOutcomeOK(w, s'.phase.recovering);
    ComputedNothing(w, s'.phase.recovering);
    hide Tree, Inv;
  }

  lemma LoadedStatus(w: World, s: State)
    requires ValidWorld(w) && s.phase == LoadManifest && s.disk.manifests != map[]
    requires LatestSelectable(w, s.disk) == Some(Highest(s.disk.manifests.Keys))
    requires s.disk.manifests[Highest(s.disk.manifests.Keys)].content.status == Complete
    ensures var s' := Step(w, s, Advance);
            && s'.phase.Cleanup? && s'.phase.recovering.status == Complete
            && s'.disk == s.disk && s'.pristine == s.pristine
            && var m := s.disk.manifests[Highest(s.disk.manifests.Keys)].content;
               && s'.phase.recovering.sequence == m.sequence == Highest(s.disk.manifests.Keys)
               && s'.phase.recovering.incarnation == m.incarnation
               && Tree(w.merge, EMPTY_AGGREGATE, s'.phase.recovering.leaves) == m.aggregate
  {
    hide LatestSelectable, CanonicalManifest, Tree;
  }

  lemma ComputedNothing(w: World, st: Store)
    requires ValidWorld(w) && StoreOK(w, st) && AllReceived(st) && st.computed == 0
    ensures st.recovered == N(w)
  {
    CountIsFull(st.received);
  }
}
