/** What the block engine promises its caller besides the result: bounded queues, blocks handed out in
    order, and one error that is kept and stops everybody. */
module EngineBounds {
  import opened Types
  import opened Coordinator
  import opened Queues
  import opened Engine
  import opened EngineSafety
  import opened EngineTheorems

  /** The missing blocks are listed in block order. */
  lemma {:induction false} PendingIsOrdered(received: seq<bool>, from: nat, i: nat, j: nat)
    requires from <= |received| && i < j < |PendingFrom(received, from)|
    ensures PendingFrom(received, from)[i] < PendingFrom(received, from)[j]
    decreases |received| - from
  {
    if received[from] {
      PendingIsOrdered(received, from + 1, i, j);
    } else if i > 0 {
      PendingIsOrdered(received, from + 1, i - 1, j - 1);
    } else {
      assert PendingFrom(received, from)[j] in PendingFrom(received, from + 1);
    }
  }

  // ---------------------------------------------------------------- queues

  /** The capacity of a queue: the configured one, or two places for every worker. */
  ghost predicate IsCapacity(configured: nat, workers: nat, capacity: nat)
  {
    (configured > 0 ==> capacity == configured) && (configured == 0 ==> capacity == 2 * workers)
  }

  /** The assignments in the queue are the last ones sent, in the order of the missing blocks. */
  ghost predicate InOrder(job: Job, s: State)
    requires ValidJob(job)
  {
    && |s.shared.assignments.items| <= s.sent <= |Pending(job)|
    && forall j :: 0 <= j < |s.shared.assignments.items| ==>
         s.shared.assignments.items[j] == Assignment(job, s.sent - |s.shared.assignments.items| + j)
  }

  /** What a queue allows for, what is in it and that it never exceeds this. */
  ghost predicate Bounded(job: Job, s: State)
  {
    && IsCapacity(job.assignmentCapacity, |s.workers|, s.shared.assignments.capacity)
    && IsCapacity(job.completionCapacity, |s.workers|, s.shared.completions.capacity)
    && |s.shared.assignments.items| <= s.shared.assignments.capacity
    && |s.shared.completions.items| <= s.shared.completions.capacity
  }

  lemma StepBounded(job: Job, s: State, a: Action)
    requires ValidJob(job) && WellTyped(s) && Ready(job, s, a.thread) && Bounded(job, s) && InOrder(job, s)
    ensures Bounded(job, Step(job, s, a)) && InOrder(job, Step(job, s, a))
  {
    hide PendingFrom, Assignment, MakeResult, ValidState, Collector.Consume;
    match a.thread
    case SchedulerThread => hide InOrder; SchedulerKeepsOrder(job, s, a.throws);
    case MainThread =>
    case WorkerThread(i) => hide InOrder, WorkerMove; MoveBounded(job, s, i, a.throws);
  }

  lemma SchedulerKeepsOrder(job: Job, s: State, throws: bool)
    requires ValidJob(job) && SchedulerReady(job, s) && InOrder(job, s)
    ensures InOrder(job, SchedulerStep(job, s, throws))
  {
    hide PendingFrom, Assignment;
  }

  lemma MoveBounded(job: Job, s: State, i: nat, throws: bool)
    requires ValidJob(job) && i < |s.workers| <= U64_MAX && WorkerReady(s.shared, s.workers[i])
    requires Bounded(job, s) && InOrder(job, s)
    ensures Bounded(job, WorkerStep(job, s, i, throws)) && InOrder(job, WorkerStep(job, s, i, throws))
  {
    hide PendingFrom, Assignment, MakeResult, ValidState;
  }

  lemma {:induction false} RunIsBounded(job: Job, s: State, schedule: seq<Action>)
    requires ValidJob(job) && WellTyped(s) && Schedulable(job, s, schedule) && Bounded(job, s) && InOrder(job, s)
    ensures Bounded(job, Run(job, s, schedule)) && InOrder(job, Run(job, s, schedule))
    ensures |Run(job, s, schedule).workers| == |s.workers|
    decreases |schedule|
  {
    hide Bounded, InOrder, Step, Ready;
    if schedule != [] {
      StepBounded(job, s, schedule[0]);
      StepKeepsWorkers(job, s, schedule[0]);
      StepWellTyped(job, s, schedule[0]);
      RunIsBounded(job, Step(job, s, schedule[0]), schedule[1..]);
    }
  }

  lemma StepKeepsWorkers(job: Job, s: State, a: Action)
    requires ValidJob(job) && WellTyped(s) && Ready(job, s, a.thread)
    ensures |Step(job, s, a).workers| == |s.workers|
  {
    hide PendingFrom, WorkerMove, ValidState, Collector.Consume;
  }

  /** Under every schedule there are as many workers as configured or as there are missing blocks, whichever
      is less; neither queue ever exceeds its capacity; and the queue of assignments always holds consecutive
      missing blocks in block order. */
  lemma BoundedMemory(job: Job, c: Collector, schedule: seq<Action>)
    requires Starts(job, c) && Schedulable(job, Init(job, c), schedule)
    ensures var s := Run(job, Init(job, c), schedule);
      && |s.workers| <= job.workerCount && |s.workers| <= |Pending(job)|
      && (|s.workers| == job.workerCount || |s.workers| == |Pending(job)|)
      && Bounded(job, s) && InOrder(job, s)
  {
    RunIsBounded(job, Init(job, c), schedule);
  }

  // ---------------------------------------------------------------- errors

  /** How far the closing of both queues has got on behalf of the recorded error. */
  ghost predicate Announced(s: State)
  {
    var both := s.shared.assignments.closed && s.shared.completions.closed;
    match s.shared.firstError
    case None => true
    case Some(SchedulerThread) =>
      both || s.scheduler.SFailing? || (s.scheduler.SFailed? && s.shared.assignments.closed)
    case Some(WorkerThread(i)) =>
      both || (i < |s.workers| && (s.workers[i].Failing? || (s.workers[i].FailedOnce? && s.shared.assignments.closed)))
    case Some(MainThread) =>
      both || s.main.CFailing? || (s.main.CFailed? && s.shared.assignments.closed)
  }

  lemma StepAnnounces(job: Job, s: State, a: Action)
    requires ValidJob(job) && WellTyped(s) && Ready(job, s, a.thread) && Announced(s)
    ensures Announced(Step(job, s, a))
    ensures s.shared.firstError.Some? ==> Step(job, s, a).shared.firstError == s.shared.firstError
  {
    hide PendingFrom, Assignment, MakeResult, ValidState, Collector.Consume;
  }

  /** The error of the first thread that fails is the one that is kept, through every schedule. */
  lemma {:induction false} FirstErrorIsKept(job: Job, s: State, schedule: seq<Action>)
    requires ValidJob(job) && WellTyped(s) && Schedulable(job, s, schedule) && Announced(s)
    ensures Announced(Run(job, s, schedule))
    ensures s.shared.firstError.Some? ==> Run(job, s, schedule).shared.firstError == s.shared.firstError
    decreases |schedule|
  {
    hide Announced, Step, Ready;
    if schedule != [] {
      StepAnnounces(job, s, schedule[0]);
      StepWellTyped(job, s, schedule[0]);
      FirstErrorIsKept(job, Step(job, s, schedule[0]), schedule[1..]);
    }
  }

  /** Once an error is recorded, the failing thread closes both queues before it does anything else, so that no
      assignment is sent and no completion is kept any more. */
  lemma ErrorStopsEverybody(job: Job, c: Collector, schedule: seq<Action>)
    requires Starts(job, c) && Schedulable(job, Init(job, c), schedule)
    ensures Announced(Run(job, Init(job, c), schedule))
  {
    FirstErrorIsKept(job, Init(job, c), schedule);
  }
}
