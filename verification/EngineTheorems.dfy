/** Deadlock freedom, termination and schedule independence of the block engine. */
module EngineTheorems {
  import opened Types
  import opened Coordinator
  import opened Queues
  import opened Engine
  import opened EngineSafety
  import opened Reduction

  /** What the caller hands to the engine: a consumer whose tables agree with the received bitmap. */
  ghost predicate Starts(job: Job, c: Collector)
  {
    && ValidJob(job) && Pending(job) != []
    && c.Valid() && c.consumed == [] && c.coordinator.blocks == job.blocks && c.received == job.received
    && forall b :: 0 <= b < |job.blocks| ==> (c.coordinator.payloads[b].Some? <==> job.received[b])
  }

  lemma InitInv(job: Job, c: Collector)
    requires Starts(job, c)
    ensures Inv(job, c, Init(job, c))
  {
    var s := Init(job, c);
    SumConstant(Active(), s.workers, 1);
    assert s.workers[0].Starting?;
    forall b: nat ensures Total(job, s, b) == Sum(IsIndex(b), Pending(job)) {
      SumConstant(HoldsBlock(b), s.workers, 0);
      assert Pending(job)[0..] == Pending(job);
    }
  }

  lemma StepInv(job: Job, c: Collector, s: State, a: Action)
    requires Starts(job, c) && Inv(job, c, s) && WellTyped(s) && Ready(job, s, a.thread)
    ensures Inv(job, c, Step(job, s, a)) && WellTyped(Step(job, s, a))
  {
    hide Inv, PendingFrom, WorkerStep, SchedulerStep, MainStep, MainReady, WorkerReady, SchedulerReady;
    StepWellTyped(job, s, a);
    match a.thread
    case SchedulerThread => SchedulerInv(job, c, s, a.throws);
    case WorkerThread(i) => WorkerInv(job, c, s, i, a.throws);
    case MainThread => MainInv(job, c, s, a.throws);
  }

  /** The invariant holds after every schedule. */
  lemma {:induction false} RunInv(job: Job, c: Collector, s: State, schedule: seq<Action>)
    requires Starts(job, c) && Inv(job, c, s) && WellTyped(s) && Schedulable(job, s, schedule)
    ensures Inv(job, c, Run(job, s, schedule))
    decreases |schedule|
  {
    assert ValidJob(job);
    hide Inv, Starts, Step, Ready;
    if schedule != [] {
      StepInv(job, c, s, schedule[0]);
      RunInv(job, c, Step(job, s, schedule[0]), schedule[1..]);
    }
  }

  // ---------------------------------------------------------------- no deadlock

  /** With the completions closed, no worker waits. */
  lemma ClosedQueuesBlockNobody(s: State, i: nat)
    requires Closings(s) && s.shared.completions.closed && i < |s.workers| && !s.workers[i].Gone?
    ensures WorkerReady(s.shared, s.workers[i])
  {
  }

  /** In every state of the invariant the call has returned or some thread can take its next step. */
  lemma NoDeadlock(job: Job, c: Collector, s: State)
    requires ValidJob(job) && Inv(job, c, s) && !s.main.Returned?
    ensures exists t :: Ready(job, s, t)
  {
    if MainReady(s) {
      assert Ready(job, s, MainThread);
    } else if s.main.Collecting? {
      var i :| 0 <= i < |s.workers| && !s.workers[i].Gone?;
      if WorkerReady(s.shared, s.workers[i]) {
        assert Ready(job, s, WorkerThread(i));
      } else {
        assert Ready(job, s, SchedulerThread);
      }
    } else if s.main.JoinScheduler? {
      assert Ready(job, s, SchedulerThread);
    } else {
      ClosedQueuesBlockNobody(s, s.main.joined);
      assert Ready(job, s, WorkerThread(s.main.joined));
    }
  }

  // ---------------------------------------------------------------- termination

  function WorkerRank(): Worker -> nat
  {
    (w: Worker) =>
      match w
      case Computing(_) => 10
      case Pushing(_) => 9
      case Starting => 7
      case Popping => 6
      case Failing => 4
      case FailedOnce => 3
      case Leaving => 2
      case Closing => 1
      case Gone => 0
  }

  function SchedulerRank(s: Scheduler): nat
  {
    match s
    case Scheduling => 3
    case SFailing => 2
    case SFailed => 1
    case ClosingQueue => 1
    case SGone => 0
  }

  function MainRank(m: Main, workers: nat): nat
  {
    match m
    case Consuming(_) => workers + 6
    case Collecting => workers + 5
    case CFailing => workers + 4
    case CFailed => workers + 3
    case JoinScheduler => workers + 2
    case JoinWorkers(k) => if k <= workers then workers + 1 - k else 0
    case Returned => 0
  }

  /** Unscheduled, queued, held and completed blocks, and how far each thread still has to go. */
  ghost function Measure(job: Job, s: State): nat
    requires s.sent <= |Pending(job)|
  {
    6 * (|Pending(job)| - s.sent) + 5 * |s.shared.assignments.items| + Sum(WorkerRank(), s.workers)
    + 2 * |s.shared.completions.items| + SchedulerRank(s.scheduler) + MainRank(s.main, |s.workers|)
  }

  ghost function WorkerPart(g: Shared, w: Worker): nat
  {
    5 * |g.assignments.items| + WorkerRank()(w) + 2 * |g.completions.items|
  }

  lemma WorkerProgress(job: Job, g: Shared, w: Worker, i: u64, throws: bool)
    requires WorkerReady(g, w)
    ensures var (w', g') := WorkerMove(job, g, w, i, throws); WorkerPart(g', w') < WorkerPart(g, w)
  {
  }

  lemma SchedulerProgress(job: Job, s: State, throws: bool)
    requires ValidJob(job) && s.sent <= |Pending(job)| && SchedulerReady(job, s)
    ensures SchedulerStep(job, s, throws).sent <= |Pending(job)|
    ensures Measure(job, SchedulerStep(job, s, throws)) < Measure(job, s)
  {
    hide Sum, PendingFrom, Assignment;
  }

  lemma MainProgress(job: Job, s: State, throws: bool)
    requires s.sent <= |Pending(job)| && WellTyped(s) && Closings(s) && MainReady(s)
    ensures Measure(job, MainStep(job, s, throws)) < Measure(job, s)
  {
    assert s.main.JoinWorkers? ==> s.main.joined <= |s.workers|;
    hide Sum, PendingFrom, Closings, Collector.Consume, ValidState;
  }

  lemma StepDecreases(job: Job, c: Collector, s: State, a: Action)
    requires ValidJob(job) && Inv(job, c, s) && WellTyped(s) && Ready(job, s, a.thread)
    ensures Step(job, s, a).sent <= |Pending(job)|
    ensures Measure(job, Step(job, s, a)) < Measure(job, s)
  {
    match a.thread
    case SchedulerThread => SchedulerProgress(job, s, a.throws);
    case MainThread => MainProgress(job, s, a.throws);
    case WorkerThread(i) =>
      hide Sum, PendingFrom, Total, Genuine, Collected, Orderly, Closings, WorkerMove, WorkerRank;
      WorkerProgress(job, s.shared, s.workers[i], i, a.throws);
      SumUpdate(WorkerRank(), s.workers, i, Step(job, s, a).workers[i]);
  }

  lemma {:induction false} RunBounded(job: Job, c: Collector, s: State, schedule: seq<Action>)
    requires Starts(job, c) && Inv(job, c, s) && WellTyped(s) && Schedulable(job, s, schedule)
    ensures |schedule| <= Measure(job, s)
    decreases |schedule|
  {
    if schedule != [] {
      StepInv(job, c, s, schedule[0]);
      StepDecreases(job, c, s, schedule[0]);
      hide Inv, Starts, Step, Ready, Measure;
      RunBounded(job, c, Step(job, s, schedule[0]), schedule[1..]);
    }
  }

  /** Termination under every scheduling: no run takes more than 6P + 8W + 8 steps for P missing blocks
      and W workers, whatever throws, and a run that cannot be continued has returned. */
  lemma EveryRunTerminates(job: Job, c: Collector, schedule: seq<Action>)
    requires Starts(job, c) && Schedulable(job, Init(job, c), schedule)
    ensures |schedule| <= 6 * |Pending(job)| + 8 * Workers(job) + 8
    ensures var s := Run(job, Init(job, c), schedule);
      (forall t :: !Ready(job, s, t)) ==> s.main.Returned?
  {
    var s0 := Init(job, c);
    InitInv(job, c);
    RunBounded(job, c, s0, schedule);
    SumConstant(WorkerRank(), s0.workers, 7);
    RunInv(job, c, s0, schedule);
    var s := Run(job, s0, schedule);
    hide Inv, Run, Starts;
    if !s.main.Returned? {
      NoDeadlock(job, c, s);
    }
  }

  // ---------------------------------------------------------------- schedule independence

  lemma {:induction false} PendingCount(received: seq<bool>, from: nat, b: nat)
    requires from <= |received|
    ensures Sum(IsIndex(b), PendingFrom(received, from)) ==
            (if from <= b < |received| && !received[b] then 1 else 0)
    decreases |received| - from
  {
    if from < |received| {
      var rest := PendingFrom(received, from + 1);
      PendingCount(received, from + 1, b);
      if received[from] {
        assert PendingFrom(received, from) == rest;
      } else {
        assert PendingFrom(received, from) == [from] + rest;
        SumHead(IsIndex(b), [from] + rest);
        assert ([from] + rest)[1..] == rest;
      }
    }
  }

  /** Whatever fails and whenever, no block is consumed twice and none that was already received. */
  lemma AtMostOnce(job: Job, c: Collector, schedule: seq<Action>, b: nat)
    requires Starts(job, c) && Schedulable(job, Init(job, c), schedule)
    ensures Sum(IsResult(b), Run(job, Init(job, c), schedule).collector.consumed) <=
            (if b < |job.blocks| && !job.received[b] then 1 else 0)
  {
    InitInv(job, c);
    RunInv(job, c, Init(job, c), schedule);
    PendingCount(job.received, 0, b);
  }

  lemma ReturnedDrained(job: Job, c: Collector, s: State, b: nat)
    requires ValidJob(job) && Inv(job, c, s) && s.main.Returned? && s.shared.firstError.None?
    ensures Sum(IsResult(b), s.collector.consumed) ==
            (if b < |job.blocks| && !job.received[b] then 1 else 0)
  {
    PendingCount(job.received, 0, b);
    SumConstant(HoldsBlock(b), s.workers, 0);
    assert s.workers[0].Gone?;
    assert Pending(job)[s.sent..] == [];
  }

  /** Schedule independence: after every schedule that returns without an error, whatever the worker
      count and queue capacities, each missing block has been consumed exactly once and the consumer's
      tables are those of a sequential pass over the blocks. */
  lemma ScheduleIndependence(job: Job, c: Collector, schedule: seq<Action>)
    requires Starts(job, c) && Schedulable(job, Init(job, c), schedule)
    ensures var s := Run(job, Init(job, c), schedule);
      s.main.Returned? && s.shared.firstError.None? ==>
        && (forall b: nat :: Sum(IsResult(b), s.collector.consumed) ==
              if b < |job.blocks| && !job.received[b] then 1 else 0)
        && s.collector.received == seq(|job.blocks|, _ => true)
        && s.collector.leaves == seq(|job.blocks|, b requires 0 <= b < |job.blocks| =>
             if job.received[b] then c.leaves[b] else job.compute(b))
  {
    InitInv(job, c);
    RunInv(job, c, Init(job, c), schedule);
    var s := Run(job, Init(job, c), schedule);
    if s.main.Returned? && s.shared.firstError.None? {
      forall b: nat ensures Sum(IsResult(b), s.collector.consumed) ==
        if b < |job.blocks| && !job.received[b] then 1 else 0
      {
        ReturnedDrained(job, c, s, b);
      }
    }
  }

  /** The aggregates of all blocks, in block order. */
  function Leaves(job: Job): seq<AggregateStats>
  {
    seq(|job.blocks|, b requires 0 <= b => job.compute(b))
  }

  /** run_parallel: an error-free run reduces to the sequential fixed tree over block order. */
  lemma ParallelEqualsSequential(
    job: Job, c: Collector, schedule: seq<Action>,
    merge: (AggregateStats, AggregateStats) -> AggregateStats)
    requires Starts(job, c) && Schedulable(job, Init(job, c), schedule)
    requires forall b :: 0 <= b < |job.blocks| ==> !job.received[b]
    ensures var s := Run(job, Init(job, c), schedule);
      s.main.Returned? && s.shared.firstError.None? ==>
        Tree(merge, EMPTY_AGGREGATE, s.collector.leaves) ==
        Tree(merge, EMPTY_AGGREGATE, Leaves(job))
  {
    ScheduleIndependence(job, c, schedule);
    var s := Run(job, Init(job, c), schedule);
    hide Run, Starts, Tree;
    if s.main.Returned? && s.shared.firstError.None? {
      assert s.collector.leaves == Leaves(job);
    }
  }

  // ---------------------------------------------------------------- no error without a cause

  /** The kernel produces well-formed aggregates of the right size, for the current incarnation. */
  ghost predicate WellBehaved(job: Job, c: Collector)
    requires Starts(job, c)
  {
    && c.coordinator.identity == job.identity
    && forall b :: 0 <= b < |job.blocks| ==>
         && job.blocks[b].incarnation == c.coordinator.incarnation
         && job.compute(b).n == ExpectedObservations(c.coordinator, b)
         && job.sem.wellFormed(job.compute(b))
  }

  lemma ConsumerAccepts(job: Job, c: Collector, s: State)
    requires Starts(job, c) && WellBehaved(job, c) && Inv(job, c, s) && s.main.Consuming?
    ensures s.collector.Consume(job.sem, s.main.result).Some?
  {
    var b := s.main.result.block.id;
    assert Total(job, s, b) <= Sum(IsIndex(b), Pending(job));
    PendingCount(job.received, 0, b);
    hide Sum, Closings, Orderly, Workers, PendingFrom;
    assert Sum(IsResult(b), s.collector.consumed) == 0;
    assert s.collector.coordinator.payloads[b].None?;
  }

  lemma StepStaysErrorFree(job: Job, c: Collector, s: State, a: Action)
    requires Starts(job, c) && WellBehaved(job, c) && Inv(job, c, s) && WellTyped(s)
    requires Ready(job, s, a.thread) && !a.throws && s.shared.firstError.None?
    ensures Step(job, s, a).shared.firstError.None?
  {
    if s.main.Consuming? {
      ConsumerAccepts(job, c, s);
    }
    hide Inv, WellBehaved, PendingFrom, Assignment, MakeResult, Collector.Consume;
  }

  /** Without an exception from the kernel, an allocation or the consumer's storage, the coordinator
      accepts every result, so no schedule ends in an error. */
  lemma {:induction false} NoSpuriousErrors(job: Job, c: Collector, s: State, schedule: seq<Action>)
    requires Starts(job, c) && WellBehaved(job, c) && Inv(job, c, s) && WellTyped(s)
    requires s.shared.firstError.None? && Schedulable(job, s, schedule) && NeverThrows(schedule)
    ensures Run(job, s, schedule).shared.firstError.None?
    decreases |schedule|
  {
    assert ValidJob(job);
    hide Inv, Starts, Step, Ready, WellBehaved;
    if schedule != [] {
      StepInv(job, c, s, schedule[0]);
      StepStaysErrorFree(job, c, s, schedule[0]);
      NoSpuriousErrors(job, c, Step(job, s, schedule[0]), schedule[1..]);
    }
  }

  /** A fault-free run always ends with every block received and no error. */
  lemma FaultFreeRunSucceeds(job: Job, c: Collector, schedule: seq<Action>)
    requires Starts(job, c) && WellBehaved(job, c)
    requires Schedulable(job, Init(job, c), schedule) && NeverThrows(schedule)
    ensures var s := Run(job, Init(job, c), schedule);
      && s.shared.firstError.None?
      && ((forall t :: !Ready(job, s, t)) ==>
            s.main.Returned? && s.collector.received == seq(|job.blocks|, _ => true))
  {
    InitInv(job, c);
    NoSpuriousErrors(job, c, Init(job, c), schedule);
    EveryRunTerminates(job, c, schedule);
    ScheduleIndependence(job, c, schedule);
  }
}
