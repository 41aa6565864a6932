/** The concurrent engine and the durable consumer together: for every schedule the consumer of
    run_parallel_durable accepts what the engine hands it, and every fault-free schedule finishes the run. */
module DurableEngine {
  import opened Types
  import opened Blocks
  import opened Coordinator
  import opened Snapshot
  import opened StoreMachine
  import opened StoreInvariant
  import opened StorePreservation
  import opened StoreProgress
  import opened DurableRun
  import E = Engine
  import ES = EngineSafety
  import ET = EngineTheorems

  // ---------------------------------------------------------------- any order of honest current results

  /** What some worker sends for one of the store's leases. */
  ghost predicate CurrentResult(w: World, st: Store, m: BlockResult)
  {
    && m.block.id < |st.coordinator.blocks|
    && m == HonestMessage(w, st, m.block.id).(workerId := m.workerId)
  }

  /** A current result is accepted if its block is missing and is a duplicate otherwise. */
  lemma CurrentIsClassified(w: World, st: Store, m: BlockResult)
    requires ValidWorld(w) && SoundKernel(w) && StoreOK(w, st) && CurrentResult(w, st, m)
    ensures Deliverable(w, m) && m.block.id < N(w) && m.block.id < |st.received|
    ensures ValidateResult(w.sem, m, st.coordinator) == if st.received[m.block.id] then Duplicate else Accepted
  {
    var i := m.block.id;
    var b := st.coordinator.blocks[i];
    assert b == Block(w.layout, i, st.incarnation, b.epoch);
    assert ExpectedObservations(st.coordinator, i) == Observations(w.layout, i);
    assert st.coordinator.payloads[i] == PayloadsOf(st.durable)[i];
    if st.received[i] {
      assert HonestResult(w, st.durable[i].value);
    }
  }

  /** What one more accepted result leaves unchanged, and what it adds. */
  lemma AcceptedServes(w: World, s: State, st: Store, m: BlockResult) returns (st': Store)
    requires ValidWorld(w) && Inv(w, s) && s.phase == Serving(st) && StoreOK(w, st) && Deliverable(w, m)
    requires ValidateResult(w.sem, m, st.coordinator) == Accepted && st.sequence != U64_MAX
    ensures Delivered(w, s, m).phase == Serving(st') && Inv(w, Delivered(w, s, m)) && StoreOK(w, st')
    ensures m.block.id < |st.received| && !st.received[m.block.id]
    ensures st'.received == st.received[m.block.id := true]
    ensures st'.coordinator.blocks == st.coordinator.blocks && st'.sequence <= st.sequence + 1
  {
    hide Inv, StoreOK, Deliverable, ValidateResult, Delivered, Step, StepAccepted, Exists, CheckpointManifest,
         AfterInstall, ValidState;
    ServingFacts(w, s, st);
    DeliveredInv(w, s, st, m);
    var st1, s2 := AcceptanceFacts(w, s, st, m);
    AcceptedStoreOK(w, st, m);
    CommittedState(w.sem, m, st.coordinator);
    NotYetReceived(w, st, m.block.id);
    CheckpointExists(w, st1, Running);
    PeriodicCheckpoint(w, s2, st1);
    CheckpointedStoreOK(w, st1, Running, 0);
    st' := Delivered(w, s, m).phase.store;
  }

  lemma NotYetReceived(w: World, st: Store, i: nat)
    requires ValidWorld(w) && StoreOK(w, st) && i < N(w) && st.durable[i].None?
    ensures |st.received| == N(w) && !st.received[i]
  {
  }

  ghost predicate Delivers(msgs: seq<BlockResult>, i: nat)
  {
    exists m :: m in msgs && m.block.id == i
  }

  /** One current result, accepted or duplicate. */
  lemma CurrentDelivery(w: World, s: State, st: Store, m: BlockResult) returns (st1: Store)
    requires ValidWorld(w) && SoundKernel(w) && Inv(w, s) && s.phase == Serving(st)
    requires StoreOK(w, st) && Room(w, st) && CurrentResult(w, st, m)
    ensures Delivered(w, s, m).phase == Serving(st1) && Inv(w, Delivered(w, s, m))
    ensures StoreOK(w, st1) && Room(w, st1) && st1.coordinator.blocks == st.coordinator.blocks
    ensures m.block.id < |st.received| && st1.received == st.received[m.block.id := true]
  {
    hide Inv, StoreOK, SoundKernel, Delivered, HonestMessage, ValidateResult, Deliverable, Missing;
    CurrentIsClassified(w, st, m);
    ServingFacts(w, s, st);
    if st.received[m.block.id] {
      BenignDelivery(w, s, st, m);
      st1 := st;
    } else {
      RoomLeft(w, st);
      st1 := AcceptedServes(w, s, st, m);
      RoomKept(w, st, st1, m.block.id);
    }
  }

  lemma FirstMessage(w: World, s: State, m: BlockResult, rest: seq<BlockResult>)
    requires ValidLayout(w.layout) && s.phase.Serving?
    ensures AfterMessages(w, s, [m] + rest) == AfterMessages(w, Delivered(w, s, m), rest)
  {
    assert ([m] + rest)[1..] == rest;
  }

  ghost predicate AllCurrent(w: World, st: Store, msgs: seq<BlockResult>)
  {
    forall m :: m in msgs ==> CurrentResult(w, st, m)
  }

  /** after has received what before had and what the messages bring. */
  ghost predicate ReceivedBy(before: seq<bool>, msgs: seq<BlockResult>, after: seq<bool>)
  {
    |after| == |before| &&
    forall i :: 0 <= i < |before| ==> (after[i] <==> before[i] || Delivers(msgs, i))
  }

  lemma ReceivedNothing(before: seq<bool>)
    ensures ReceivedBy(before, [], before)
  {
  }

  lemma ReceivedCons(before: seq<bool>, m: BlockResult, rest: seq<BlockResult>, after: seq<bool>)
    requires m.block.id < |before| && ReceivedBy(before[m.block.id := true], rest, after)
    ensures ReceivedBy(before, [m] + rest, after)
  {
    hide Delivers;
    forall i | 0 <= i < |before| ensures after[i] <==> before[i] || Delivers([m] + rest, i) {
      DeliversCons(m, rest, i);
    }
  }

  lemma CurrentParts(w: World, st: Store, m: BlockResult, rest: seq<BlockResult>, st1: Store)
    requires AllCurrent(w, st, [m] + rest) && st1.coordinator.blocks == st.coordinator.blocks
    ensures CurrentResult(w, st, m) && AllCurrent(w, st1, rest)
  {
    assert m in [m] + rest && forall x :: x in rest ==> x in [m] + rest;
    forall x | x in rest ensures CurrentResult(w, st1, x) {
      assert CurrentResult(w, st, x);
    }
  }

  /** Whatever current results arrive, in whatever order and however often, the process keeps serving and has
      received exactly what it had before and what they bring. */
  lemma {:induction false} CurrentDeliveries(w: World, s: State, st: Store, msgs: seq<BlockResult>)
    returns (st': Store)
    requires ValidWorld(w) && SoundKernel(w) && Inv(w, s) && s.phase == Serving(st)
    requires StoreOK(w, st) && Room(w, st) && AllCurrent(w, st, msgs)
    ensures AfterMessages(w, s, msgs).phase == Serving(st') && Inv(w, AfterMessages(w, s, msgs))
    ensures StoreOK(w, st') && Room(w, st') && ReceivedBy(st.received, msgs, st'.received)
    decreases |msgs|
  {
    hide Inv, StoreOK, SoundKernel, Delivered, AllCurrent, CurrentResult, Room, AfterMessages, ReceivedBy;
    if msgs == [] {
      NoMessages(w, s);
      ReceivedNothing(st.received);
      st' := st;
    } else {
      var m, rest := msgs[0], msgs[1..];
      assert msgs == [m] + rest;
      CurrentParts(w, st, m, rest, st);
      var st1 := CurrentDelivery(w, s, st, m);
      CurrentParts(w, st, m, rest, st1);
      st' := CurrentDeliveries(w, Delivered(w, s, m), st1, rest);
      FirstMessage(w, s, m, rest);
      ReceivedCons(st.received, m, rest, st'.received);
    }
  }

  lemma DeliversCons(m: BlockResult, rest: seq<BlockResult>, i: nat)
    ensures Delivers([m] + rest, i) <==> m.block.id == i || Delivers(rest, i)
  {
    assert forall x :: x in [m] + rest <==> x == m || x in rest;
    if m.block.id == i { assert m in [m] + rest; }
  }

  lemma TablesAligned(w: World, st: Store)
    requires ValidWorld(w) && StoreOK(w, st)
    ensures |st.received| == |st.coordinator.blocks| == |st.leaves| == N(w)
  {
  }

  lemma RoomLeft(w: World, st: Store)
    requires ValidWorld(w) && StoreOK(w, st) && Room(w, st)
    ensures st.sequence != U64_MAX
  {
  }

  lemma RoomKept(w: World, st: Store, st1: Store, i: nat)
    requires ValidWorld(w) && StoreOK(w, st) && StoreOK(w, st1) && Room(w, st) && i < |st.received|
    requires !st.received[i] && st1.received == st.received[i := true] && st1.sequence <= st.sequence + 1
    ensures Room(w, st1)
  {
    CountAfterUpdate(st.received, i);
  }

  /** With every block in, the end of the loop finishes with the right result. */
  lemma FullStoreFinishes(w: World, s: State, st: Store)
    requires ValidWorld(w) && Inv(w, s) && s.phase == Serving(st) && StoreOK(w, st)
    requires AllReceived(st) && st.sequence != U64_MAX
    ensures Ended(w, s).phase.Finished? && OutcomeOK(w, Ended(w, s).phase.outcome)
  {
    hide Inv, StoreOK, CheckpointManifest, AfterInstall, Step, StepEnd, OutcomeOK, OutcomeOf, ValidState;
    ServingFacts(w, s, st);
    CheckpointExists(w, st, Complete);
    AdvanceStep(w, s, st);
    FinalCheckpoint(w, s, st);
    EndedInv(w, s, st);
    FinishedIsRight(w, Ended(w, s));
  }

  /** Delivery order: from any reachable serving state, decayed files or not, every sequence of current results
      that brings each missing block at least once, in any order and with any repetition, finishes the run
      in the present process with the fixed-tree reduction of every block's own aggregate. */
  lemma AnyOrderFinishes(w: World, s: State, st: Store, msgs: seq<BlockResult>)
    requires ValidWorld(w) && SoundKernel(w) && Inv(w, s) && s.phase == Serving(st)
    requires StoreOK(w, st) && Room(w, st) && AllCurrent(w, st, msgs)
    requires |st.received| == N(w)
    requires forall i :: 0 <= i < N(w) && !st.received[i] ==> Delivers(msgs, i)
    ensures var t := AfterMessages(w, s, msgs);
      && t.phase.Serving? && Ended(w, t).phase.Finished?
      && OutcomeOK(w, Ended(w, t).phase.outcome)
  {
    hide Inv, StoreOK, SoundKernel, Ended, OutcomeOK, AfterMessages, Delivers;
    var st' := CurrentDeliveries(w, s, st, msgs);
    RoomLeft(w, st');
    FullStoreFinishes(w, AfterMessages(w, s, msgs), st');
  }

  // ---------------------------------------------------------------- the engine in front of the store

  /** The call of execute_missing_blocks that run_parallel_durable makes for a store. */
  function JobOf(w: World, st: Store, workers: nat, assignments: nat, completions: nat): E.Job
  {
    E.Job(st.coordinator.blocks, st.received, w.identity, w.sem, w.compute, workers, assignments, completions)
  }

  function CollectorOf(st: Store): E.Collector
  {
    E.Collector([], st.coordinator, st.leaves, st.received)
  }

  lemma StoreStarts(w: World, st: Store, workers: nat, assignments: nat, completions: nat)
    requires ValidWorld(w) && StoreOK(w, st) && !AllReceived(st) && 1 <= workers <= E.MAX_WORKERS
    ensures ET.Starts(JobOf(w, st, workers, assignments, completions), CollectorOf(st))
  {
    var job := JobOf(w, st, workers, assignments, completions);
    var i :| 0 <= i < |st.received| && !st.received[i];
    assert i in E.Pending(job);
    forall b | 0 <= b < |job.blocks|
      ensures job.blocks[b].id == b && (st.coordinator.payloads[b].Some? <==> job.received[b])
    {
      assert st.coordinator.blocks[b] == Block(w.layout, b, st.incarnation, st.coordinator.blocks[b].epoch);
    }
  }

  lemma StoreBehaves(w: World, st: Store, workers: nat, assignments: nat, completions: nat)
    requires ValidWorld(w) && SoundKernel(w) && StoreOK(w, st)
    requires ET.Starts(JobOf(w, st, workers, assignments, completions), CollectorOf(st))
    ensures ET.WellBehaved(JobOf(w, st, workers, assignments, completions), CollectorOf(st))
  {
    forall b | 0 <= b < N(w)
      ensures st.coordinator.blocks[b].incarnation == st.coordinator.incarnation
      ensures w.compute(b).n == ExpectedObservations(st.coordinator, b)
    {
      assert st.coordinator.blocks[b] == Block(w.layout, b, st.incarnation, st.coordinator.blocks[b].epoch);
    }
  }

  /** What the engine hands to its consumer is current for the store. */
  lemma ConsumedIsCurrent(
    w: World, st: Store, job: E.Job, consumed: seq<BlockResult>)
    requires job.blocks == st.coordinator.blocks && job.identity == w.identity && job.sem == w.sem
    requires job.compute == w.compute
    requires forall r :: r in consumed ==> ES.GoodResult(job, r)
    ensures AllCurrent(w, st, consumed)
  {
    forall r | r in consumed ensures CurrentResult(w, st, r) {
      assert ES.GoodResult(job, r);
    }
  }

  lemma {:induction false} DeliversIffCounted(msgs: seq<BlockResult>, i: nat)
    ensures Delivers(msgs, i) <==> ES.Sum(ES.IsResult(i), msgs) > 0
    decreases |msgs|
  {
    if msgs != [] {
      DeliversIffCounted(msgs[1..], i);
      DeliversCons(msgs[0], msgs[1..], i);
      assert [msgs[0]] + msgs[1..] == msgs;
    }
  }

  lemma LeavesAreHonest(w: World, st: Store, i: nat)
    requires ValidWorld(w) && StoreOK(w, st) && i < N(w)
    ensures |st.leaves| == |st.received| == N(w)
    ensures st.leaves[i] == if st.received[i] then w.compute(i) else EMPTY_AGGREGATE
  {
    if st.durable[i].Some? { assert HonestResult(w, st.durable[i].value); }
  }

  lemma InitTyped(job: E.Job, c: E.Collector)
    requires ET.Starts(job, c)
    ensures E.ValidJob(job) && E.WellTyped(E.Init(job, c))
  {
  }

  lemma EngineFacts(job: E.Job, c: E.Collector, u: E.State)
    requires E.ValidJob(job) && ES.Inv(job, c, u)
    ensures forall r :: r in u.collector.consumed ==> ES.GoodResult(job, r)
    ensures Collects(job, c, u.collector)
  {
    hide ES.Shape, ES.Closings, ES.Orderly, ES.Counted;
  }

  /** The engine's collector has what was received before and what was consumed. */
  ghost predicate Collects(job: E.Job, c: E.Collector, d: E.Collector)
  {
    && |d.leaves| == |d.received| == |c.leaves| == |job.blocks| == |job.received|
    && forall b :: 0 <= b < |job.blocks| ==>
         && (d.received[b] <==> job.received[b] || ES.Sum(ES.IsResult(b), d.consumed) > 0)
         && d.leaves[b] == (if ES.Sum(ES.IsResult(b), d.consumed) > 0 then job.compute(b) else c.leaves[b])
  }

  /** A durable consumer that is fed what a collector has consumed has the same tables. */
  lemma ConsumerFollowsCollector(w: World, s: State, st: Store, job: E.Job, d: E.Collector)
    requires ValidWorld(w) && SoundKernel(w) && Inv(w, s) && s.phase == Serving(st)
    requires StoreOK(w, st) && Room(w, st)
    requires job.blocks == st.coordinator.blocks && job.received == st.received && job.compute == w.compute
    requires Collects(job, CollectorOf(st), d) && AllCurrent(w, st, d.consumed)
    ensures var t := AfterMessages(w, s, d.consumed);
      t.phase.Serving? && t.phase.store.received == d.received && t.phase.store.leaves == d.leaves
  {
    hide Inv, StoreOK, SoundKernel, AfterMessages, Delivers, Room, AllCurrent, ES.Sum;
    TablesAligned(w, st);
    var st' := CurrentDeliveries(w, s, st, d.consumed);
    TablesAligned(w, st');
    forall b | 0 <= b < N(w) ensures st'.received[b] == d.received[b] && st'.leaves[b] == d.leaves[b] {
      DeliversIffCounted(d.consumed, b);
      LeavesAreHonest(w, st, b);
      LeavesAreHonest(w, st', b);
    }
  }

  /** In every reachable state of the engine, after every schedule and whatever throws, the durable consumer
      that has seen the same completions is still serving, with the same received bitmap and leaves. */
  lemma ConsumerFollowsEngine(
    w: World, s: State, st: Store, workers: nat, assignments: nat, completions: nat,
    schedule: seq<E.Action>)
    requires ValidWorld(w) && SoundKernel(w) && Inv(w, s) && s.phase == Serving(st)
    requires StoreOK(w, st) && Room(w, st) && !AllReceived(st) && 1 <= workers <= E.MAX_WORKERS
    requires var job, c := JobOf(w, st, workers, assignments, completions), CollectorOf(st);
      ET.Starts(job, c) && E.Schedulable(job, E.Init(job, c), schedule)
    ensures var job, c := JobOf(w, st, workers, assignments, completions), CollectorOf(st);
      var engine := E.Run(job, E.Init(job, c), schedule).collector;
      var t := AfterMessages(w, s, engine.consumed);
      && t.phase.Serving? && t.phase.store.received == engine.received
      && t.phase.store.leaves == engine.leaves
  {
    hide Inv, StoreOK, SoundKernel, ES.Inv, E.Run, E.Init, AfterMessages, Room, ES.GoodResult, AllCurrent,
         Collects, CollectorOf;
    var job, c := JobOf(w, st, workers, assignments, completions), CollectorOf(st);
    InitTyped(job, c);
    ET.InitInv(job, c);
    ET.RunInv(job, c, E.Init(job, c), schedule);
    hide ET.Starts;
    var u := E.Run(job, E.Init(job, c), schedule);
    EngineFacts(job, c, u);
    ConsumedIsCurrent(w, st, job, u.collector.consumed);
    ConsumerFollowsCollector(w, s, st, job, u.collector);
  }

  /** An error-free return has consumed a good result for every missing block. */
  lemma EngineDelivers(job: E.Job, c: E.Collector, schedule: seq<E.Action>)
    requires ET.Starts(job, c) && ET.WellBehaved(job, c)
    requires E.Schedulable(job, E.Init(job, c), schedule) && E.NeverThrows(schedule)
    requires forall t :: !E.Ready(job, E.Run(job, E.Init(job, c), schedule), t)
    ensures var u := E.Run(job, E.Init(job, c), schedule);
      && u.main.Returned? && u.shared.firstError.None?
      && (forall r :: r in u.collector.consumed ==> ES.GoodResult(job, r))
      && forall i :: 0 <= i < |job.blocks| && i < |job.received| && !job.received[i] ==>
           Delivers(u.collector.consumed, i)
  {
    ET.FaultFreeRunSucceeds(job, c, schedule);
    ET.ScheduleIndependence(job, c, schedule);
    ET.InitInv(job, c);
    ET.RunInv(job, c, E.Init(job, c), schedule);
    var u := E.Run(job, E.Init(job, c), schedule);
    EngineFacts(job, c, u);
    hide ES.Inv, ET.Starts, E.Run, E.Init, Delivers, E.Ready, ET.WellBehaved, ES.Sum;
    forall i | 0 <= i < |job.blocks| && i < |job.received| && !job.received[i]
      ensures Delivers(u.collector.consumed, i)
    {
      DeliversIffCounted(u.collector.consumed, i);
    }
  }

  /** The whole durable run: for every worker count, queue capacities and fault-free schedule that cannot be
      continued (StoreStarts shows that the engine can always be started), the engine has returned without
      an error, and the durable consumer fed with its completions in their order finishes with the
      fixed-tree reduction of every block's own aggregate. */
  lemma EveryScheduleFinishes(
    w: World, s: State, st: Store, workers: nat, assignments: nat, completions: nat,
    schedule: seq<E.Action>)
    requires ValidWorld(w) && SoundKernel(w) && Inv(w, s) && s.phase == Serving(st)
    requires StoreOK(w, st) && Room(w, st) && !AllReceived(st) && 1 <= workers <= E.MAX_WORKERS
    requires var job, c := JobOf(w, st, workers, assignments, completions), CollectorOf(st);
      && ET.Starts(job, c) && E.Schedulable(job, E.Init(job, c), schedule) && E.NeverThrows(schedule)
      && forall t :: !E.Ready(job, E.Run(job, E.Init(job, c), schedule), t)
    ensures var job, c := JobOf(w, st, workers, assignments, completions), CollectorOf(st);
      var u := E.Run(job, E.Init(job, c), schedule);
      var t := AfterMessages(w, s, u.collector.consumed);
      && u.main.Returned? && u.shared.firstError.None?
      && t.phase.Serving? && Ended(w, t).phase.Finished? && OutcomeOK(w, Ended(w, t).phase.outcome)
  {
    hide Inv, StoreOK, SoundKernel, E.Run, E.Init, AfterMessages, Delivers, Room, Ended, OutcomeOK, E.Ready,
         ET.Starts, ET.WellBehaved, E.NeverThrows, CollectorOf, ES.GoodResult, AllCurrent;
    var job, c := JobOf(w, st, workers, assignments, completions), CollectorOf(st);
    InitTyped(job, c);
    StoreBehaves(w, st, workers, assignments, completions);
    EngineDelivers(job, c, schedule);
    var consumed := E.Run(job, E.Init(job, c), schedule).collector.consumed;
    ConsumedIsCurrent(w, st, job, consumed);
    TablesAligned(w, st);
    AnyOrderFinishes(w, s, st, consumed);
  }
}
