/** The imperative side of the durable run: DurableRunStore's record_result and checkpoint and the consumer
    of run_parallel_durable as methods that update fields. A call that is not interrupted takes exactly the
    steps of the state machine, so everything proved about its runs holds of the object. */
module DurableRun {
  import opened Types
  import opened Blocks
  import opened Coordinator
  import opened Reduction
  import opened Snapshot
  import opened StoreMachine
  import opened StoreInvariant
  import opened StorePreservation
  import opened StoreProgress
  import opened RunStoreLoops

  // ---------------------------------------------------------------- uninterrupted calls of the machine

  /** The state after one delivered message if the process does not die in between. */
  ghost function Delivered(w: World, s: State, msg: BlockResult): State
    requires ValidLayout(w.layout)
  {
    var s1 := Step(w, s, Deliver(msg));
    if !s1.phase.Install? then s1
    else
      var s2 := AfterInstall(w, s1);
      if !s2.phase.ResultAccepted? then s2
      else
        var s3 := Step(w, s2, Advance);
        if s3.phase.Install? then AfterInstall(w, s3) else s3
  }

  /** The state after the end of the block loop. */
  ghost function Ended(w: World, s: State): State
    requires ValidLayout(w.layout)
  {
    var s1 := Step(w, s, Advance);
    if s1.phase.Install? then AfterInstall(w, s1) else s1
  }

  /** The new phase of a step that leaves the disk alone. */
  lemma DeliverStep(w: World, s: State, st: Store, msg: BlockResult)
    requires ValidWorld(w) && s.phase == Serving(st) && StoreReady(w, st) && Deliverable(w, msg)
    ensures Step(w, s, Deliver(msg)) == StepDeliver(w, s, st, msg)
  {
    hide StepDeliver, Deliverable;
  }

  lemma AdvanceStep(w: World, s: State, st: Store)
    requires ValidWorld(w) && StoreReady(w, st)
    ensures s.phase == ResultAccepted(st) ==> Step(w, s, Advance) == StepAccepted(w, s, st)
    ensures s.phase == Serving(st) ==> Step(w, s, Advance) == StepEnd(w, s, st)
  {
    hide StepAccepted, StepEnd;
  }

  /** Every file a step is about to install is unwritten. */
  lemma FreshInstall(w: World, s: State, st: Store, msg: BlockResult)
    requires ValidWorld(w) && StoreReady(w, st)
    ensures var s1 := StepDeliver(w, s, st, msg);
      s1 != s && s1.phase.Install? ==> s1.phase.stage == Unwritten
    ensures var s1 := StepAccepted(w, s, st); s1.phase.Install? ==> s1.phase.stage == Unwritten
    ensures var s1 := StepEnd(w, s, st); s1.phase.Install? ==> s1.phase.stage == Unwritten
  {
    hide CheckpointManifest, ValidateResult, AcceptedStore, Checkpointed, AfterCheckpoint, FailureOf;
  }

  /** An uninterrupted call keeps the invariant of the machine. */
  lemma DeliveredInv(w: World, s: State, st: Store, msg: BlockResult)
    requires ValidWorld(w) && Inv(w, s) && s.phase == Serving(st) && Deliverable(w, msg)
    ensures Inv(w, Delivered(w, s, msg))
  {
    hide Inv, StepDeliver, StepAccepted, Deliverable, StoreOK, Step;
    ServingFacts(w, s, st);
    DeliverStep(w, s, st, msg);
    FreshInstall(w, s, st, msg);
    var s1 := Step(w, s, Deliver(msg));
    StepKeepsInv(w, s, Deliver(msg));
    if s1.phase.Install? {
      AfterInstallInv(w, s1);
      var s2 := AfterInstall(w, s1);
      if s2.phase.ResultAccepted? {
        var st2 := s2.phase.store;
        ServingFacts(w, s2, st2);
        AdvanceStep(w, s2, st2);
        FreshInstall(w, s2, st2, msg);
        StepKeepsInv(w, s2, Advance);
        if Step(w, s2, Advance).phase.Install? {
          AfterInstallInv(w, Step(w, s2, Advance));
        }
      }
    }
  }

  lemma EndedInv(w: World, s: State, st: Store)
    requires ValidWorld(w) && Inv(w, s) && s.phase == Serving(st)
    ensures Inv(w, Ended(w, s))
  {
    hide Inv, StepEnd, StoreOK, Step;
    ServingFacts(w, s, st);
    AdvanceStep(w, s, st);
    FreshInstall(w, s, st, HonestMessage(w, st, 0)) by { BlocksExist(w, st); }
    StepKeepsInv(w, s, Advance);
    if Step(w, s, Advance).phase.Install? {
      AfterInstallInv(w, Step(w, s, Advance));
    }
  }

  lemma BlocksExist(w: World, st: Store)
    requires ValidWorld(w) && StoreReady(w, st)
    ensures |st.coordinator.blocks| >= 1
  {
  }

  // ---------------------------------------------------------------- uninterrupted calls are runs

  /** The steps a live process takes by itself. */
  ghost predicate Uninterrupted(actions: seq<Action>)
  {
    forall a :: a in actions ==> a.CreateTemporary? || a.Deliver? || a.Advance?
  }

  /** t follows s by steps of the machine without a crash, a restart or a decayed file. */
  ghost predicate Reaches(w: World, s: State, t: State)
    requires ValidWorld(w)
  {
    exists actions :: Uninterrupted(actions) && Run(w, s, actions) == t
  }

  lemma ReachesItself(w: World, s: State)
    requires ValidWorld(w)
    ensures Reaches(w, s, s)
  {
    hide Step;
    assert Uninterrupted([]) && Run(w, s, []) == s;
  }

  lemma ReachesBefore(w: World, s: State, a: Action, t: State)
    requires ValidWorld(w) && Reaches(w, Step(w, s, a), t)
    requires a.CreateTemporary? || a.Deliver? || a.Advance?
    ensures Reaches(w, s, t)
  {
    hide Step;
    var rest :| Uninterrupted(rest) && Run(w, Step(w, s, a), rest) == t;
    var actions := [a] + rest;
    assert actions[1..] == rest;
    assert Uninterrupted(actions);
    assert Run(w, s, actions) == t;
  }

  lemma ReachesInstall(w: World, s: State, t: State)
    requires ValidWorld(w) && Inv(w, s) && s.phase.Install? && s.phase.stage == Unwritten
    requires Reaches(w, AfterInstall(w, s), t)
    ensures Reaches(w, s, t)
  {
    hide Inv, Step, AfterInstall, Reaches, Exists;
    AfterInstallInv(w, s);
    var n := InstallPath(w, s);
    var s1 := Step(w, s, CreateTemporary(n));
    ReachesBefore(w, Step(w, s1, Advance), Advance, t);
    ReachesBefore(w, s1, Advance, t);
    ReachesBefore(w, s, CreateTemporary(n), t);
  }

  /** An uninterrupted delivery is a run of the machine. */
  lemma DeliveredIsRun(w: World, s: State, st: Store, msg: BlockResult)
    requires ValidWorld(w) && Inv(w, s) && s.phase == Serving(st) && Deliverable(w, msg)
    ensures Reaches(w, s, Delivered(w, s, msg))
  {
    hide Inv, StepDeliver, StepAccepted, Deliverable, StoreOK, Step, Reaches;
    ServingFacts(w, s, st);
    DeliverStep(w, s, st, msg);
    FreshInstall(w, s, st, msg);
    var s1, t := Step(w, s, Deliver(msg)), Delivered(w, s, msg);
    StepKeepsInv(w, s, Deliver(msg));
    ReachesItself(w, t);
    if s1.phase.Install? {
      AfterInstallInv(w, s1);
      var s2 := AfterInstall(w, s1);
      if s2.phase.ResultAccepted? {
        var st2 := s2.phase.store;
        ServingFacts(w, s2, st2);
        AdvanceStep(w, s2, st2);
        FreshInstall(w, s2, st2, msg);
        StepKeepsInv(w, s2, Advance);
        if Step(w, s2, Advance).phase.Install? {
          ReachesInstall(w, Step(w, s2, Advance), t);
        }
        ReachesBefore(w, s2, Advance, t);
      }
      ReachesInstall(w, s1, t);
    }
    ReachesBefore(w, s, Deliver(msg), t);
  }

  lemma EndedIsRun(w: World, s: State, st: Store)
    requires ValidWorld(w) && Inv(w, s) && s.phase == Serving(st)
    ensures Reaches(w, s, Ended(w, s))
  {
    hide Inv, StepEnd, StoreOK, Step, Reaches;
    ServingFacts(w, s, st);
    BlocksExist(w, st);
    AdvanceStep(w, s, st);
    FreshInstall(w, s, st, HonestMessage(w, st, 0));
    StepKeepsInv(w, s, Advance);
    ReachesItself(w, Ended(w, s));
    if Step(w, s, Advance).phase.Install? {
      ReachesInstall(w, Step(w, s, Advance), Ended(w, s));
    }
    ReachesBefore(w, s, Advance, Ended(w, s));
  }

  /** The state after a sequence of messages, up to the first one that ends the process. */
  ghost function AfterMessages(w: World, s: State, msgs: seq<BlockResult>): State
    requires ValidLayout(w.layout)
    decreases |msgs|
  {
    if msgs == [] || !s.phase.Serving? then s else AfterMessages(w, Delivered(w, s, msgs[0]), msgs[1..])
  }

  lemma {:induction false} AfterMessagesSnoc(w: World, s: State, msgs: seq<BlockResult>, msg: BlockResult)
    requires ValidLayout(w.layout)
    ensures var t := AfterMessages(w, s, msgs);
      AfterMessages(w, s, msgs + [msg]) == if t.phase.Serving? then Delivered(w, t, msg) else t
    decreases |msgs|
  {
    hide Delivered;
    if s.phase.Serving? {
      if msgs == [] {
        assert [msg][1..] == [];
      } else {
        assert (msgs + [msg])[1..] == msgs[1..] + [msg];
        AfterMessagesSnoc(w, Delivered(w, s, msgs[0]), msgs[1..], msg);
      }
    }
  }

  lemma {:induction false} StoppedStays(w: World, s: State, msgs: seq<BlockResult>, i: nat)
    requires ValidLayout(w.layout) && i <= |msgs| && !AfterMessages(w, s, msgs[..i]).phase.Serving?
    ensures AfterMessages(w, s, msgs) == AfterMessages(w, s, msgs[..i])
    decreases |msgs| - i
  {
    hide AfterMessages, Delivered;
    if i == |msgs| {
      assert msgs[..i] == msgs;
    } else {
      assert msgs[..i + 1] == msgs[..i] + [msgs[i]];
      AfterMessagesSnoc(w, s, msgs[..i], msgs[i]);
      StoppedStays(w, s, msgs, i + 1);
    }
  }

  // ---------------------------------------------------------------- what an uninterrupted call amounts to

  lemma BenignDelivery(w: World, s: State, st: Store, msg: BlockResult)
    requires ValidWorld(w) && s.phase == Serving(st) && StoreReady(w, st) && Deliverable(w, msg)
    requires IsBenignRejection(ValidateResult(w.sem, msg, st.coordinator))
    ensures Delivered(w, s, msg) == s
  {
    hide ValidateResult, Deliverable, Step;
    DeliverStep(w, s, st, msg);
  }

  lemma FatalDelivery(w: World, s: State, st: Store, msg: BlockResult, v: ValidationStatus)
    requires ValidWorld(w) && s.phase == Serving(st) && StoreReady(w, st) && Deliverable(w, msg)
    requires v == ValidateResult(w.sem, msg, st.coordinator) && v != Accepted && !IsBenignRejection(v)
    requires |st.coordinator.payloads| >= 1
    ensures var m := CheckpointManifest(w, st, Failed, Some(FailureOf(w, st, msg, v)));
      && !Delivered(w, s, msg).phase.Serving?
      && Delivered(w, s, msg).disk == (if m.Some? then Installed(s.disk, ManifestFile(m.value)) else s.disk)
      && (m.Some? ==> Step(w, s, Deliver(msg)).phase.Install? &&
                      Step(w, s, Deliver(msg)).phase.artifact == ManifestFile(m.value) &&
                      Step(w, s, Deliver(msg)).disk == s.disk)
  {
    hide ValidateResult, Deliverable, Step, CheckpointManifest, FailureOf, CommittedAfter;
    DeliverStep(w, s, st, msg);
  }

  /** The name of the file a delivery is about to install is free. */
  lemma FreshDelivery(w: World, s: State, st: Store, msg: BlockResult)
    requires ValidWorld(w) && Inv(w, s) && s.phase == Serving(st) && Deliverable(w, msg)
    ensures var s1 := Step(w, s, Deliver(msg));
      s1.phase.Install? ==> !Exists(s1.disk, s1.phase.artifact) && Inv(w, AfterInstall(w, s1))
  {
    hide Inv, StoreOK, Deliverable, Step, StepDeliver, Exists;
    ServingFacts(w, s, st);
    DeliverStep(w, s, st, msg);
    FreshInstall(w, s, st, msg);
    StepKeepsInv(w, s, Deliver(msg));
    if Step(w, s, Deliver(msg)).phase.Install? {
      AfterInstallInv(w, Step(w, s, Deliver(msg)));
    }
  }

  lemma FreshCheckpoint(w: World, s: State, st: Store)
    requires ValidWorld(w) && Inv(w, s) && StoreReady(w, st)
    requires s.phase == ResultAccepted(st) || s.phase == Serving(st)
    ensures var s1 := if s.phase.Serving? then StepEnd(w, s, st) else StepAccepted(w, s, st);
      s1.phase.Install? ==> !Exists(s1.disk, s1.phase.artifact)
  {
    hide Inv, Step, StepEnd, StepAccepted, Exists;
    BlocksExist(w, st);
    AdvanceStep(w, s, st);
    FreshInstall(w, s, st, HonestMessage(w, st, 0));
    StepKeepsInv(w, s, Advance);
    if Step(w, s, Advance).phase.Install? {
      AfterInstallInv(w, Step(w, s, Advance));
    }
  }

  lemma AcceptedDelivery(w: World, s: State, st: Store, msg: BlockResult, st1: Store, s2: State)
    requires ValidWorld(w) && s.phase == Serving(st) && StoreReady(w, st) && Deliverable(w, msg)
    requires ValidateResult(w.sem, msg, st.coordinator) == Accepted
    requires msg.block.id < N(w) && st.durable[msg.block.id].None? && RecordAllowed(w, st, msg)
    requires st1 == AcceptedStore(w, st, msg, st.durable[msg.block.id := Some(msg)])
    requires s2 == s.(disk := Installed(s.disk, ResultFile(DurableBlockRecord(w.runId, msg))),
                      phase := ResultAccepted(st1))
    requires StoreReady(w, st1)
    ensures var s1 := Step(w, s, Deliver(msg));
      && s1.phase.Install? && s1.phase.artifact == ResultFile(DurableBlockRecord(w.runId, msg))
      && s1.disk == s.disk && AfterInstall(w, s1) == s2
    ensures var s3 := StepAccepted(w, s2, st1);
      Delivered(w, s, msg) == if s3.phase.Install? then AfterInstall(w, s3) else s3
  {
    hide ValidateResult, Deliverable, Step, AcceptedStore, StepAccepted, StoreReady, RecordAllowed;
    DeliverStep(w, s, st, msg);
    AdvanceStep(w, s2, st1);
  }

  /** Everything an accepting call needs to know, and the state it reaches before the checkpoint is due. */
  lemma AcceptanceFacts(w: World, s: State, st: Store, msg: BlockResult) returns (st1: Store, s2: State)
    requires ValidWorld(w) && Inv(w, s) && s.phase == Serving(st) && StoreReady(w, st) && Deliverable(w, msg)
    requires ValidateResult(w.sem, msg, st.coordinator) == Accepted
    ensures msg.block.id < N(w) && st.durable[msg.block.id].None? && StoreReady(w, st1)
    ensures RecordAllowed(w, st, msg)
    ensures !Exists(s.disk, ResultFile(DurableBlockRecord(w.runId, msg)))
    ensures st1 == AcceptedStore(w, st, msg, st.durable[msg.block.id := Some(msg)])
    ensures s2 == s.(disk := Installed(s.disk, ResultFile(DurableBlockRecord(w.runId, msg))),
                     phase := ResultAccepted(st1))
    ensures Inv(w, s2)
    ensures var s1 := Step(w, s, Deliver(msg));
      && s1.phase.Install? && s1.phase.artifact == ResultFile(DurableBlockRecord(w.runId, msg))
      && AfterInstall(w, s1) == s2
    ensures var s3 := StepAccepted(w, s2, st1);
      Delivered(w, s, msg) == if s3.phase.Install? then AfterInstall(w, s3) else s3
  {
    assert |st.durable| == N(w);
    hide Inv, StoreOK, Deliverable, ValidateResult, Delivered, Step, StepAccepted, Exists, AcceptedStore,
         HonestResult, Leased, StoreReady, Installed, AfterInstall, RecordAllowed;
    ServingFacts(w, s, st);
    AcceptedIsHonest(w, st, msg);
    AcceptedIsRecordable(w, st, msg);
    HonestIsInRange(w, msg);
    st1 := AcceptedStore(w, st, msg, st.durable[msg.block.id := Some(msg)]);
    AcceptedStoreOK(w, st, msg);
    StoreIsReady(w, st1);
    s2 := s.(disk := Installed(s.disk, ResultFile(DurableBlockRecord(w.runId, msg))), phase := ResultAccepted(st1));
    AcceptedDelivery(w, s, st, msg, st1, s2);
    FreshDelivery(w, s, st, msg);
  }

  lemma PeriodicCheckpoint(w: World, s: State, st: Store)
    requires ValidWorld(w) && StoreReady(w, st)
    ensures var s3, m := StepAccepted(w, s, st), CheckpointManifest(w, st, Running, None);
      if st.pending >= st.interval && st.recovered + st.computed < |st.coordinator.blocks| then
        if m.None? then s3 == s.(phase := Down)
        else
          && st.sequence != U64_MAX && s3.phase.Install? && s3.disk == s.disk
          && s3.phase.artifact == ManifestFile(m.value)
          && AfterInstall(w, s3) ==
             s.(disk := Installed(s.disk, ManifestFile(m.value)),
                phase := Serving(Checkpointed(st, Running).(pending := 0)),
                log := Logged(s.log, ManifestFile(m.value), true))
      else s3 == s.(phase := Serving(st))
  {
    assert CheckpointManifest(w, st, Running, None).Some? ==> st.sequence != U64_MAX;
    hide CheckpointManifest, CommittedAfter;
  }

  lemma FinalCheckpoint(w: World, s: State, st: Store)
    requires ValidWorld(w) && StoreReady(w, st)
    ensures var s1, m := StepEnd(w, s, st), CheckpointManifest(w, st, Complete, None);
      if AllReceived(st) && m.Some? then
        && st.sequence != U64_MAX && s1.phase.Install? && s1.disk == s.disk
        && s1.phase.artifact == ManifestFile(m.value)
        && AfterInstall(w, s1).phase == Finished(OutcomeOf(w, Checkpointed(st, Complete)))
        && AfterInstall(w, s1).disk == Installed(s.disk, ManifestFile(m.value))
      else s1 == s.(phase := Down)
  {
    assert CheckpointManifest(w, st, Complete, None).Some? ==> st.sequence != U64_MAX;
    hide CheckpointManifest, CommittedAfter, OutcomeOf;
  }

  /** The result names a complete manifest of its incarnation. */
  predicate NamesComplete(d: Disk, o: Outcome)
  {
    && o.sequence in d.manifests && d.manifests[o.sequence].Readable?
    && d.manifests[o.sequence].content.sequence == o.sequence
    && d.manifests[o.sequence].content.status == Complete
    && d.manifests[o.sequence].content.incarnation == o.incarnation
  }

  // ---------------------------------------------------------------- the object

  /** DurableRunStore together with the locals of run_parallel_durable, over the visible disk. log and
      pristine are the machine's history variables. */
  class DurableRunStore {
    const w: World
    const incarnation: u64
    const recovered: nat
    const interval: u64
    var disk: Disk
    var sequence: u64
    var status: RunStatus
    var committed: Table
    var durable: Table
    var coordinator: CoordinatorState
    var leaves: seq<AggregateStats>
    var received: seq<bool>
    var computed: nat
    var pending: nat
    ghost var log: map<u64, LogEntry>
    ghost const pristine: bool
    ghost const configured: u64

    function View(): Store
      reads this
    {
      Store(sequence, incarnation, status, committed, durable, coordinator, leaves, received,
            recovered, computed, pending, interval)
    }

    /** The machine state of a process that is waiting for results. */
    ghost function Machine(): State
      reads this
    {
      State(disk, Serving(View()), configured, log, pristine)
    }

    ghost predicate Valid()
      reads this
    {
      ValidWorld(w) && Inv(w, Machine())
    }

    /** The store as open hands it over. */
    constructor (w: World, s: State)
      requires ValidWorld(w) && Inv(w, s) && s.phase.Serving?
      ensures this.w == w && Valid() && Machine() == s
    {
      var st := s.phase.store;
      this.w, incarnation, recovered, interval, disk := w, st.incarnation, st.recovered, st.interval, s.disk;
      sequence, status, committed, durable := st.sequence, st.status, st.committed, st.durable;
      coordinator, leaves, received := st.coordinator, st.leaves, st.received;
      computed, pending, log, pristine, configured := st.computed, st.pending, s.log, s.pristine, s.interval;
    }

    /** atomic_write: an existing file must hold the same bytes; otherwise the file is installed. */
    method AtomicWrite(a: Artifact, ghost slack: bool) returns (ok: bool)
      modifies this`disk, this`log
      ensures ok == (!Exists(old(disk), a) || SameBytes(old(disk), a))
      ensures disk == (if Exists(old(disk), a) then old(disk) else Installed(old(disk), a))
      ensures log == (if Exists(old(disk), a) then old(log) else Logged(old(log), a, slack))
    {
      if Exists(disk, a) {
        return SameBytes(disk, a);
      }
      disk := Installed(disk, a);
      log := Logged(log, a, slack);
      return true;
    }

    /** checkpoint: the manifest is installed first, the memory follows. */
    method Checkpoint(next: RunStatus, failure: Option<FailureRecord>) returns (ok: bool)
      requires ValidLayout(w.layout) && SizesAgree(w, View())
      requires var m := CheckpointManifest(w, View(), next, failure);
        m.Some? ==> !Exists(disk, ManifestFile(m.value))
      modifies this`disk, this`log, this`sequence, this`status, this`committed
      ensures ok == CheckpointManifest(w, old(View()), next, failure).Some?
      ensures !ok ==> View() == old(View()) && disk == old(disk) && log == old(log)
      ensures ok ==>
        var a := ManifestFile(CheckpointManifest(w, old(View()), next, failure).value);
        && old(sequence) != U64_MAX && View() == Checkpointed(old(View()), next)
        && disk == Installed(old(disk), a) && log == Logged(old(log), a, true)
    {
      hide EvidenceMatches, Evidence, MakeManifest, Exists, CommittedAfter;
      var m := BuildCheckpoint(w, View(), next, failure);
      if m.None? {
        return false;
      }
      var rows := CommittedAfter(View());
      ok := AtomicWrite(ManifestFile(m.value), true);
      sequence, status, committed := sequence + 1, next, rows;
    }

    /** record_result: a message that fails a check is refused; evidence that is already there is accepted
        silently if it is the same; otherwise the record is installed under its own name and remembered. */
    method RecordResult(msg: BlockResult) returns (ok: bool)
      requires ValidLayout(w.layout) && StoreReady(w, View())
      requires RecordAllowed(w, View(), msg) && durable[msg.block.id].None? ==>
        !Exists(disk, ResultFile(DurableBlockRecord(w.runId, msg)))
      modifies this`disk, this`log, this`durable
      ensures log == old(log)
      ensures !ok ==> durable == old(durable) && disk == old(disk)
      ensures ok ==> RecordAllowed(w, old(View()), msg)
      ensures RecordAllowed(w, old(View()), msg) && old(durable)[msg.block.id].Some? ==>
        var prior := old(durable)[msg.block.id].value;
        && durable == old(durable) && disk == old(disk)
        && ok == (prior.checksum == msg.checksum && prior.block.id == msg.block.id &&
                  prior.block.incarnation == msg.block.incarnation && prior.block.epoch == msg.block.epoch)
      ensures RecordAllowed(w, old(View()), msg) && old(durable)[msg.block.id].None? ==>
        && ok && durable == old(durable)[msg.block.id := Some(msg)]
        && disk == old(disk).(results := old(disk).results[
             ResultKey(msg.block.id, msg.block.incarnation, msg.block.epoch) :=
               Readable(DurableBlockRecord(w.runId, msg))])
    {
      if !RecordAllowed(w, View(), msg) {
        return false;
      }
      if durable[msg.block.id].Some? {
        var prior := durable[msg.block.id].value;
        return prior.checksum == msg.checksum && KeyOf(prior) == KeyOf(msg);
      }
      ok := AtomicWrite(ResultFile(DurableBlockRecord(w.runId, msg)), false);
      durable := durable[msg.block.id := Some(msg)];
    }

    /** The consumer of run_parallel_durable: benign rejections are ignored, anything else but acceptance
        persists the failure, and an accepted result is recorded, committed and checkpointed when due. */
    method Consume(msg: BlockResult) returns (ok: bool)
      requires Valid() && Deliverable(w, msg)
      modifies this
      ensures ok == Delivered(w, old(Machine()), msg).phase.Serving?
      ensures ok ==> Machine() == Delivered(w, old(Machine()), msg) && Valid()
      ensures disk == Delivered(w, old(Machine()), msg).disk
    {
      hide Inv, StoreOK, Deliverable, ValidateResult, Delivered, Step, CheckpointManifest, AcceptedStore,
           StepAccepted, Exists, Checkpointed, FailureOf, CommitResult;
      ghost var s, st := Machine(), View();
      ServingFacts(w, s, st);
      BlocksExist(w, st);
      DeliveredInv(w, s, st, msg);
      var v := ValidateResult(w.sem, msg, coordinator);
      if IsBenignRejection(v) {
        BenignDelivery(w, s, st, msg);
        return true;
      }
      if v != Accepted {
        FatalDelivery(w, s, st, msg, v);
        FreshDelivery(w, s, st, msg);
        var _ := Checkpoint(Failed, Some(FailureOf(w, View(), msg, v)));
        return false;
      }
      ok := Accept(msg);
    }

    method Accept(msg: BlockResult) returns (ok: bool)
      requires Valid() && Deliverable(w, msg) && StoreReady(w, View())
      requires ValidateResult(w.sem, msg, coordinator) == Accepted
      modifies this
      ensures ok == Delivered(w, old(Machine()), msg).phase.Serving?
      ensures ok ==> Machine() == Delivered(w, old(Machine()), msg)
      ensures disk == Delivered(w, old(Machine()), msg).disk
    {
      hide Inv, StoreOK, Deliverable, ValidateResult, Delivered, Step, StepAccepted, Exists, CommitResult,
           AfterInstall;
      ghost var st1, s2 := AcceptanceFacts(w, Machine(), View(), msg);
      ok := RecordResult(msg);
      coordinator := CommitResult(w.sem, msg, coordinator);
      leaves, received := leaves[msg.block.id := msg.aggregate], received[msg.block.id := true];
      computed, pending := computed + 1, pending + 1;
      assert View() == st1 && disk == s2.disk && log == s2.log;
      ok := CheckpointIfDue();
    }

    /** The periodic checkpoint after an accepted result, unless it was the last one. */
    method CheckpointIfDue() returns (ok: bool)
      requires ValidWorld(w) && StoreReady(w, View())
      requires Inv(w, State(disk, ResultAccepted(View()), configured, log, pristine))
      modifies this
      ensures var s := State(old(disk), ResultAccepted(old(View())), configured, old(log), pristine);
        var s3 := StepAccepted(w, s, old(View()));
        var s4 := if s3.phase.Install? then AfterInstall(w, s3) else s3;
        && ok == s4.phase.Serving? && disk == s4.disk && (ok ==> Machine() == s4)
    {
      hide Inv, Step, CheckpointManifest, StepAccepted, Exists, Checkpointed;
      ghost var s := State(disk, ResultAccepted(View()), configured, log, pristine);
      PeriodicCheckpoint(w, s, View());
      FreshCheckpoint(w, s, View());
      if pending < interval || recovered + computed >= |coordinator.blocks| {
        return true;
      }
      ok := Checkpoint(Running, None);
      if ok {
        pending := 0;
      }
    }

    /** The end of the block loop: the complete checkpoint and the reduction of the leaves. */
    method Finish() returns (r: Option<Outcome>)
      requires Valid()
      modifies this
      ensures r.Some? <==> Ended(w, old(Machine())).phase.Finished?
      ensures r.Some? ==> Ended(w, old(Machine())).phase == Finished(r.value) && OutcomeOK(w, r.value)
      ensures r.Some? ==> r.value.recovered == recovered && r.value.computed == old(computed)
      ensures r.Some? ==> old(sequence) < U64_MAX && r.value.sequence == old(sequence) + 1
      ensures r.Some? ==> r.value.incarnation == incarnation
      ensures r.Some? ==> NamesComplete(disk, r.value)
      ensures disk == Ended(w, old(Machine())).disk
    {
      hide Inv, StoreOK, Step, CheckpointManifest, StepEnd, Exists, CommittedAfter, OutcomeOK, Tree;
      ghost var s, st := Machine(), View();
      ServingFacts(w, s, st);
      AdvanceStep(w, s, st);
      FinalCheckpoint(w, s, st);
      FreshCheckpoint(w, s, st);
      EndedInv(w, s, st);
      if exists i :: 0 <= i < |received| && !received[i] {
        return None;
      }
      if CheckpointManifest(w, st, Complete, None).Some? {
        CheckpointFields(w, st, Complete, None);
      }
      var ok := Checkpoint(Complete, None);
      if !ok {
        return None;
      }
      FinishedIsRight(w, Ended(w, s));
      var aggregate := ReduceBlockResults(w.merge, EMPTY_AGGREGATE, leaves);
      return Some(Outcome(aggregate, |coordinator.blocks|, sequence, incarnation, recovered, computed));
    }
  }

  /** The identity of the manifest that checkpoint builds. */
  lemma CheckpointFields(w: World, st: Store, status: RunStatus, failure: Option<FailureRecord>)
    requires ValidWorld(w) && SizesAgree(w, st) && CheckpointManifest(w, st, status, failure).Some?
    ensures var m := CheckpointManifest(w, st, status, failure).value;
      && st.sequence < U64_MAX && m.sequence == st.sequence + 1
      && m.status == status && m.incarnation == st.incarnation && m.failure == failure
  {
    hide EvidenceMatches, Evidence, EntriesOf, Tree;
  }

  lemma FinishedIsRight(w: World, s: State)
    requires ValidWorld(w) && Inv(w, s) && s.phase.Finished?
    ensures OutcomeOK(w, s.phase.outcome)
  {
    hide BaseOK, OutcomeOK;
  }

  /** The consumer fed with any deliverable messages, then the end of the loop: it takes the machine's steps,
      and a result it returns is the fixed-tree reduction of every block's own aggregate. */
  method RunParallelDurable(store: DurableRunStore, messages: seq<BlockResult>) returns (r: Option<Outcome>)
    requires store.Valid() && forall m :: m in messages ==> Deliverable(store.w, m)
    modifies store
    ensures var t := AfterMessages(store.w, old(store.Machine()), messages);
      && (r.Some? <==> t.phase.Serving? && Ended(store.w, t).phase.Finished?)
      && (r.Some? ==> Ended(store.w, t).phase == Finished(r.value))
      && store.disk == if t.phase.Serving? then Ended(store.w, t).disk else t.disk
    ensures r.Some? ==> OutcomeOK(store.w, r.value)
    ensures r.Some? ==> r.value.recovered == CountTrue(old(store.received)) - old(store.computed)
    ensures r.Some? ==> r.value.computed == old(store.computed) + N(store.w) - CountTrue(old(store.received))
    ensures r.Some? ==> NamesComplete(store.disk, r.value)
  {
    hide Inv, Delivered, Ended, Deliverable, OutcomeOK, AfterMessages, StoreOK;
    ghost var w, s := store.w, store.Machine();
    CountsAgree(w, s, store.View());
    assert AfterMessages(w, s, messages[..0]) == s by { NoMessages(w, s); }
    for i := 0 to |messages|
      invariant store.Valid() && store.Machine() == AfterMessages(w, s, messages[..i])
    {
      assert messages[..i + 1] == messages[..i] + [messages[i]];
      AfterMessagesSnoc(w, s, messages[..i], messages[i]);
      var ok := store.Consume(messages[i]);
      if !ok {
        StoppedStays(w, s, messages, i + 1);
        return None;
      }
    }
    assert messages[..|messages|] == messages;
    r := store.Finish();
    if r.Some? {
      OutcomeAddsUp(w, r.value);
    }
  }

  lemma CountsAgree(w: World, s: State, st: Store)
    requires ValidWorld(w) && Inv(w, s) && s.phase == Serving(st)
    ensures st.recovered + st.computed == CountTrue(st.received)
  {
    ServingFacts(w, s, st);
    hide Inv;
  }

  lemma OutcomeAddsUp(w: World, o: Outcome)
    requires ValidWorld(w) && OutcomeOK(w, o)
    ensures o.recovered + o.computed == N(w)
  {
    hide Tree;
  }

  lemma NoMessages(w: World, s: State)
    requires ValidLayout(w.layout)
    ensures AfterMessages(w, s, []) == s
  {
  }

  lemma StoreIsReady(w: World, st: Store)
    requires ValidWorld(w) && StoreOK(w, st)
    ensures StoreReady(w, st)
  {
  }
}
