/** The concurrent block engine: execute_missing_blocks and run_parallel of src/runtime/engine.cpp as
    interleaved atomic steps of one scheduler, W workers and the coordinating thread. A step touches at
    most one piece of shared state: a queue, the error slot or the worker counter. */
module Engine {
  import opened Types
  import opened Coordinator
  import opened Queues

  const MAX_WORKERS := 256

  /** The inputs of execute_missing_blocks; compute is the kernel, a pure function of the block. */
  datatype Job = Job(
    blocks: seq<ScenarioBlock>, received: seq<bool>, identity: RunIdentity, sem: Semantics,
    compute: nat -> AggregateStats, workerCount: nat, assignmentCapacity: nat, completionCapacity: nat)

  predicate ValidJob(job: Job)
  {
    && |job.received| == |job.blocks| && 1 <= job.workerCount <= MAX_WORKERS
    && forall i :: 0 <= i < |job.blocks| ==> job.blocks[i].id == i
  }

  /** The indices not yet received, in block order. */
  function PendingFrom(received: seq<bool>, from: nat): (r: seq<nat>)
    requires from <= |received|
    ensures forall i :: i in r <==> from <= i < |received| && !received[i]
    decreases |received| - from
  {
    if from == |received| then []
    else if received[from] then PendingFrom(received, from + 1)
    else [from] + PendingFrom(received, from + 1)
  }

  method PendingIndices(received: seq<bool>) returns (pending: seq<nat>)
    ensures pending == PendingFrom(received, 0)
  {
    pending := [];
    for index := 0 to |received|
      invariant pending + PendingFrom(received, index) == PendingFrom(received, 0)
    {
      if !received[index] {
        assert [index] + PendingFrom(received, index + 1) == PendingFrom(received, index);
        pending := pending + [index];
      }
    }
  }

  function Pending(job: Job): seq<nat> { PendingFrom(job.received, 0) }

  function Assignment(job: Job, k: nat): ScenarioBlock
    requires ValidJob(job) && k < |Pending(job)|
  {
    assert Pending(job)[k] in Pending(job);
    job.blocks[Pending(job)[k]]
  }

  /** The number of threads: never more than there are missing blocks. */
  function Workers(job: Job): nat
  {
    if job.workerCount <= |Pending(job)| then job.workerCount else |Pending(job)|
  }

  function Capacity(configured: nat, workers: nat): nat
  {
    if configured != 0 then configured else if 2 * workers >= 1 then 2 * workers else 1
  }

  datatype Scheduler = Scheduling | ClosingQueue | SFailing | SFailed | SGone

  datatype Worker =
    | Starting | Popping | Computing(block: ScenarioBlock) | Pushing(result: BlockResult)
    | Failing | FailedOnce | Leaving | Closing | Gone

  datatype Main =
    | Collecting | Consuming(result: BlockResult) | CFailing | CFailed
    | JoinScheduler | JoinWorkers(joined: nat) | Returned

  datatype Thread = SchedulerThread | WorkerThread(index: nat) | MainThread

  /** What the threads share: the two queues, workers_remaining and first_error. */
  datatype Shared = Shared(
    assignments: Queue<ScenarioBlock>, completions: Queue<BlockResult>, remaining: nat,
    firstError: Option<Thread>)
  {
    function CloseAssignments(): Shared { this.(assignments := assignments.Close()) }

    function CloseCompletions(): Shared { this.(completions := completions.Close()) }

    /** record_error keeps the first error only. */
    function Record(t: Thread): Shared
    {
      if firstError.None? then this.(firstError := Some(t)) else this
    }
  }

  /** The variables of run_parallel's consumer, with the history of accepted completions. */
  datatype Collector = Collector(
    consumed: seq<BlockResult>, coordinator: CoordinatorState, leaves: seq<AggregateStats>,
    received: seq<bool>)
  {
    predicate Valid()
    {
      ValidState(coordinator) && |leaves| == |received| == |coordinator.blocks|
    }

    /** Anything but acceptance is thrown. */
    function Consume(sem: Semantics, r: BlockResult): (next: Option<Collector>)
      requires Valid()
      ensures next.Some? ==> next.value.Valid() && next.value.consumed == consumed + [r]
    {
      if ValidateResult(sem, r, coordinator) != Accepted then None
      else Some(Collector(consumed + [r], CommitResult(sem, r, coordinator),
                          leaves[r.block.id := r.aggregate], received[r.block.id := true]))
    }
  }

  /** sent counts the assignments pushed so far. */
  datatype State = State(
    sent: nat, shared: Shared, scheduler: Scheduler, workers: seq<Worker>, main: Main,
    collector: Collector)

  function Init(job: Job, collector: Collector): State
  {
    var w := Workers(job);
    State(0, Shared(Queue(Capacity(job.assignmentCapacity, w), [], false),
                    Queue(Capacity(job.completionCapacity, w), [], false), w, None),
          Scheduling, seq(w, _ => Starting), Collecting, collector)
  }

  // ---------------------------------------------------------------- scheduler

  predicate SchedulerReady(job: Job, s: State)
  {
    match s.scheduler
    case Scheduling => s.sent >= |Pending(job)| || s.shared.assignments.CanPush()
    case SGone => false
    case _ => true
  }

  function SchedulerStep(job: Job, s: State, throws: bool): State
    requires ValidJob(job)
  {
    var g := s.shared;
    match s.scheduler
    case Scheduling =>
      if s.sent >= |Pending(job)| || g.assignments.closed then s.(scheduler := ClosingQueue)
      else if throws then s.(shared := g.Record(SchedulerThread), scheduler := SFailing)
      else s.(shared := g.(assignments := g.assignments.Push(Assignment(job, s.sent))), sent := s.sent + 1)
    case ClosingQueue => s.(shared := g.CloseAssignments(), scheduler := SGone)
    case SFailing => s.(shared := g.CloseAssignments(), scheduler := SFailed)
    case SFailed => s.(shared := g.CloseCompletions(), scheduler := SGone)
    case SGone => s
  }

  // ---------------------------------------------------------------- workers

  function MakeResult(job: Job, block: ScenarioBlock, worker: u64): BlockResult
  {
    var aggregate := job.compute(block.id);
    BlockResult(block, aggregate, job.identity, job.sem.hash(aggregate), worker)
  }

  predicate WorkerReady(g: Shared, w: Worker)
  {
    match w
    case Popping => g.assignments.CanPop()
    case Pushing(_) => g.completions.CanPush()
    case Gone => false
    case _ => true
  }

  /** The next control state of worker i and what it does to the shared variables. */
  function WorkerMove(job: Job, g: Shared, w: Worker, i: u64, throws: bool): (Worker, Shared)
  {
    match w
    case Starting => if throws then (Failing, g.Record(WorkerThread(i))) else (Popping, g)
    case Popping =>
      (match g.assignments.Popped()
       case Some(block) => (Computing(block), g.(assignments := g.assignments.Pop()))
       case None => (Leaving, g))
    case Computing(block) =>
      if throws then (Failing, g.Record(WorkerThread(i))) else (Pushing(MakeResult(job, block, i)), g)
    case Pushing(result) =>
      if g.completions.closed then (Leaving, g)
      else if throws then (Failing, g.Record(WorkerThread(i)))
      else (Popping, g.(completions := g.completions.Push(result)))
    case Failing => (FailedOnce, g.CloseAssignments())
    case FailedOnce => (Leaving, g.CloseCompletions())
    case Leaving =>
      // fetch_sub: the worker that takes the counter from one to zero closes the completions
      if g.remaining == 1 then (Closing, g.(remaining := 0))
      else (Gone, g.(remaining := if g.remaining > 0 then g.remaining - 1 else 0))
    case Closing => (Gone, g.CloseCompletions())
    case Gone => (Gone, g)
  }

  function WorkerStep(job: Job, s: State, i: nat, throws: bool): State
    requires i < |s.workers| <= U64_MAX
  {
    var (w, g) := WorkerMove(job, s.shared, s.workers[i], i, throws);
    s.(shared := g, workers := s.workers[i := w])
  }

  // ---------------------------------------------------------------- coordinating thread

  predicate MainReady(s: State)
  {
    match s.main
    case Collecting => s.shared.completions.CanPop()
    case JoinScheduler => s.scheduler == SGone
    case JoinWorkers(k) => k < |s.workers| ==> s.workers[k] == Gone
    case Returned => false
    case _ => true
  }

  function MainStep(job: Job, s: State, throws: bool): State
    requires s.collector.Valid()
  {
    var g := s.shared;
    match s.main
    case Collecting =>
      (match g.completions.Popped()
       case Some(r) => s.(shared := g.(completions := g.completions.Pop()), main := Consuming(r))
       case None => s.(main := JoinScheduler))
    case Consuming(r) =>
      (match s.collector.Consume(job.sem, r)
       case Some(next) =>
         if throws then s.(shared := g.Record(MainThread), main := CFailing)
         else s.(collector := next, main := Collecting)
       case None => s.(shared := g.Record(MainThread), main := CFailing))
    case CFailing => s.(shared := g.CloseAssignments(), main := CFailed)
    case CFailed => s.(shared := g.CloseCompletions(), main := JoinScheduler)
    case JoinScheduler => s.(main := JoinWorkers(0))
    case JoinWorkers(k) => s.(main := if k < |s.workers| then JoinWorkers(k + 1) else Returned)
    case Returned => s
  }

  // ---------------------------------------------------------------- the machine

  /** One atomic step of a thread; throws asks the step to raise an exception where the code can raise
      one (kernel construction, block computation, queue allocation, the result consumer). */
  datatype Action = Action(thread: Thread, throws: bool)

  predicate Ready(job: Job, s: State, t: Thread)
  {
    match t
    case SchedulerThread => SchedulerReady(job, s)
    case WorkerThread(i) => i < |s.workers| && WorkerReady(s.shared, s.workers[i])
    case MainThread => MainReady(s)
  }

  predicate WellTyped(s: State)
  {
    s.collector.Valid() && |s.workers| <= U64_MAX
  }

  function Step(job: Job, s: State, a: Action): State
    requires ValidJob(job) && WellTyped(s) && Ready(job, s, a.thread)
  {
    match a.thread
    case SchedulerThread => SchedulerStep(job, s, a.throws)
    case WorkerThread(i) => WorkerStep(job, s, i, a.throws)
    case MainThread => MainStep(job, s, a.throws)
  }

  lemma StepWellTyped(job: Job, s: State, a: Action)
    requires ValidJob(job) && WellTyped(s) && Ready(job, s, a.thread)
    ensures WellTyped(Step(job, s, a))
  {
    hide ValidState, Collector.Consume, PendingFrom, WorkerMove;
  }

  /** Every action of the schedule is taken by a thread that is ready for it. */
  ghost predicate Schedulable(job: Job, s: State, schedule: seq<Action>)
    requires ValidJob(job) && WellTyped(s)
    decreases |schedule|
  {
    schedule != [] ==>
      && Ready(job, s, schedule[0].thread)
      && (StepWellTyped(job, s, schedule[0]);
          Schedulable(job, Step(job, s, schedule[0]), schedule[1..]))
  }

  /** The state after a schedule. */
  ghost function Run(job: Job, s: State, schedule: seq<Action>): (s': State)
    requires ValidJob(job) && WellTyped(s) && Schedulable(job, s, schedule)
    ensures WellTyped(s')
    decreases |schedule|
  {
    if schedule == [] then s
    else
      StepWellTyped(job, s, schedule[0]);
      Run(job, Step(job, s, schedule[0]), schedule[1..])
  }

  ghost predicate NeverThrows(schedule: seq<Action>)
  {
    forall a :: a in schedule ==> !a.throws
  }
}
