/** What every interleaving of the engine keeps. */
module EngineSafety {
  import opened Types
  import opened Coordinator
  import opened Queues
  import opened Engine

  // ---------------------------------------------------------------- sums over sequences

  ghost function Sum<T>(f: T -> nat, s: seq<T>): nat
  {
    if s == [] then 0 else f(s[0]) + Sum(f, s[1..])
  }

  lemma {:induction false} SumConcat<T>(f: T -> nat, a: seq<T>, b: seq<T>)
    ensures Sum(f, a + b) == Sum(f, a) + Sum(f, b)
    decreases |a|
  {
    if a == [] {
      assert a + b == b;
    } else {
      assert (a + b)[1..] == a[1..] + b;
      SumConcat(f, a[1..], b);
    }
  }

  lemma SumSnoc<T>(f: T -> nat, s: seq<T>, x: T)
    ensures Sum(f, s + [x]) == Sum(f, s) + f(x)
  {
    SumConcat(f, s, [x]);
    assert [x][1..] == [];
  }

  lemma {:induction false} SumUpdate<T>(f: T -> nat, s: seq<T>, i: nat, x: T)
    requires i < |s|
    ensures Sum(f, s[i := x]) + f(s[i]) == Sum(f, s) + f(x)
    ensures f(s[i]) <= Sum(f, s)
    decreases |s|
  {
    if i == 0 {
      assert s[0 := x][1..] == s[1..];
    } else {
      SumUpdate(f, s[1..], i - 1, x);
      assert s[i := x][1..] == s[1..][i - 1 := x];
    }
  }

  /** A positive sum has a positive term. */
  lemma {:induction false} SumTerm<T>(f: T -> nat, s: seq<T>) returns (i: nat)
    requires Sum(f, s) > 0
    ensures i < |s| && f(s[i]) > 0
    decreases |s|
  {
    if f(s[0]) > 0 {
      i := 0;
    } else {
      var k := SumTerm(f, s[1..]);
      i := k + 1;
    }
  }

  lemma {:induction false} SumConstant<T>(f: T -> nat, s: seq<T>, k: nat)
    requires forall i :: 0 <= i < |s| ==> f(s[i]) == k
    ensures Sum(f, s) == k * |s|
    decreases |s|
  {
    if s != [] {
      SumConstant(f, s[1..], k);
    }
  }

  // ---------------------------------------------------------------- counting a block

  function IsIndex(b: nat): nat -> nat { x => if x == b then 1 else 0 }

  function IsBlock(b: nat): ScenarioBlock -> nat { (x: ScenarioBlock) => if x.id == b then 1 else 0 }

  function IsResult(b: nat): BlockResult -> nat { (r: BlockResult) => if r.block.id == b then 1 else 0 }

  function HoldsBlock(b: nat): Worker -> nat
  {
    (w: Worker) =>
      match w
      case Computing(block) => if block.id == b then 1 else 0
      case Pushing(r) => if r.block.id == b then 1 else 0
      case _ => 0
  }

  function MainHolds(b: nat, m: Main): nat
  {
    if m.Consuming? && m.result.block.id == b then 1 else 0
  }

  /** How often block b is somewhere between the pending list and the consumer. */
  ghost function Total(job: Job, s: State, b: nat): nat
    requires s.sent <= |Pending(job)|
  {
    Sum(IsIndex(b), Pending(job)[s.sent..]) + Sum(IsBlock(b), s.shared.assignments.items)
    + Sum(HoldsBlock(b), s.workers) + Sum(IsResult(b), s.shared.completions.items)
    + MainHolds(b, s.main) + Sum(IsResult(b), s.collector.consumed)
  }

  // ---------------------------------------------------------------- the invariant

  function Active(): Worker -> nat { (w: Worker) => if w.Closing? || w.Gone? then 0 else 1 }

  ghost predicate Shape(job: Job, s: State)
  {
    && WellTyped(s) && s.sent <= |Pending(job)|
    && s.shared.assignments.Valid() && s.shared.completions.Valid()
    && 1 <= |s.workers| && |s.workers| == Workers(job)
    && s.shared.remaining == Sum(Active(), s.workers)
    && (forall i :: 0 <= i < |s.workers| && s.workers[i].Closing? ==> s.shared.remaining == 0)
  }

  predicate PastLoop(w: Worker) { w.FailedOnce? || w.Leaving? || w.Closing? || w.Gone? }

  predicate Joining(m: Main) { m.JoinScheduler? || m.JoinWorkers? || m.Returned? }

  /** Which closings have happened, by how far each thread has got. */
  ghost predicate Closings(s: State)
  {
    && (s.shared.completions.closed ==> s.shared.assignments.closed)
    && (forall i :: 0 <= i < |s.workers| && PastLoop(s.workers[i]) ==> s.shared.assignments.closed)
    && (s.scheduler.SFailed? || s.scheduler.SGone? ==> s.shared.assignments.closed)
    && (s.main.CFailed? ==> s.shared.assignments.closed)
    && ((forall i :: 0 <= i < |s.workers| ==> s.workers[i].Gone?) ==> s.shared.completions.closed)
    && (Joining(s.main) ==> s.shared.completions.closed)
    && (s.main.JoinWorkers? || s.main.Returned? ==> s.scheduler.SGone?)
    && (s.main.JoinWorkers? ==>
          s.main.joined <= |s.workers| && forall i :: 0 <= i < s.main.joined ==> s.workers[i].Gone?)
    && (s.main.Returned? ==> forall i :: 0 <= i < |s.workers| ==> s.workers[i].Gone?)
  }

  predicate Exited(w: Worker) { w.Leaving? || w.Closing? || w.Gone? }

  /** Without an error the queues close only because the work ran out. */
  ghost predicate Orderly(job: Job, s: State)
  {
    && !s.scheduler.SFailing? && !s.scheduler.SFailed? && !s.main.CFailing? && !s.main.CFailed?
    && (forall i :: 0 <= i < |s.workers| ==> !s.workers[i].Failing? && !s.workers[i].FailedOnce?)
    && (s.shared.assignments.closed ==> s.scheduler.SGone?)
    && (s.scheduler.ClosingQueue? || s.scheduler.SGone? ==> s.sent == |Pending(job)|)
    && (forall i :: 0 <= i < |s.workers| && Exited(s.workers[i]) ==> s.shared.assignments.items == [])
    && (s.shared.completions.closed ==> s.shared.remaining == 0)
    && (Joining(s.main) ==> s.shared.completions.items == [])
  }

  ghost predicate GoodBlock(job: Job, b: ScenarioBlock)
  {
    b.id < |job.blocks| && b == job.blocks[b.id]
  }

  ghost predicate GoodResult(job: Job, r: BlockResult)
  {
    GoodBlock(job, r.block) && r == MakeResult(job, r.block, r.workerId)
  }

  ghost predicate GenuineWorker(job: Job, w: Worker)
  {
    (w.Computing? ==> GoodBlock(job, w.block)) && (w.Pushing? ==> GoodResult(job, w.result))
  }

  ghost predicate GenuineQueues(job: Job, g: Shared)
  {
    && (forall b :: b in g.assignments.items ==> GoodBlock(job, b))
    && (forall r :: r in g.completions.items ==> GoodResult(job, r))
  }

  ghost predicate Genuine(job: Job, s: State)
  {
    && GenuineQueues(job, s.shared)
    && (forall r :: r in s.collector.consumed ==> GoodResult(job, r))
    && (forall i :: 0 <= i < |s.workers| ==> GenuineWorker(job, s.workers[i]))
    && (s.main.Consuming? ==> GoodResult(job, s.main.result))
  }

  /** The consumer's variables, given their values c0 at the start: a block is received exactly when it
      was received before or has been consumed, its leaf then being its aggregate. */
  ghost predicate Collected(job: Job, c0: Collector, c: Collector)
  {
    && c.coordinator == c0.coordinator.(payloads := c.coordinator.payloads)
    && |c.coordinator.payloads| == |c.leaves| == |c.received| == |c0.leaves| == |job.blocks|
    && |job.received| == |job.blocks|
    && forall b :: 0 <= b < |job.blocks| ==>
         && (c.received[b] <==> job.received[b] || Sum(IsResult(b), c.consumed) > 0)
         && (c.received[b] <==> c.coordinator.payloads[b].Some?)
         && c.leaves[b] == (if Sum(IsResult(b), c.consumed) > 0 then job.compute(b) else c0.leaves[b])
  }

  // ---------------------------------------------------------------- steps keep it

  /** The last worker to leave is the one that closes the completions. */
  lemma SomeoneElseActive(s: State, i: nat, ws: seq<Worker>)
    requires i < |s.workers| && s.workers[i].Leaving? && ws == s.workers[i := Gone]
    requires s.shared.remaining == Sum(Active(), s.workers) && s.shared.remaining != 1
    ensures exists k :: 0 <= k < |ws| && !ws[k].Gone?
  {
    SumUpdate(Active(), s.workers, i, Gone);
    var k := SumTerm(Active(), ws);
    assert !ws[k].Gone?;
  }

  lemma SchedulerKeeps(job: Job, s: State, throws: bool)
    requires ValidJob(job) && Shape(job, s) && Closings(s) && SchedulerReady(job, s)
    ensures var s' := SchedulerStep(job, s, throws);
      && Shape(job, s') && Closings(s')
      && (s'.shared.firstError.None? && Orderly(job, s) ==> Orderly(job, s'))
  {
    hide ValidState, PendingFrom, Sum, Assignment;
  }

  lemma MainKeeps(job: Job, s: State, throws: bool)
    requires ValidJob(job) && Shape(job, s) && Closings(s) && MainReady(s)
    ensures var s' := MainStep(job, s, throws);
      && Shape(job, s') && Closings(s')
      && (s'.shared.firstError.None? && Orderly(job, s) ==> Orderly(job, s'))
  {
    hide ValidState, Collector.Consume, PendingFrom, Sum;
  }

  lemma WorkerKeepsShape(job: Job, s: State, i: nat, throws: bool)
    requires ValidJob(job) && Shape(job, s) && i < |s.workers| && WorkerReady(s.shared, s.workers[i])
    ensures Shape(job, WorkerStep(job, s, i, throws))
  {
    hide ValidState, MakeResult, PendingFrom, Sum;
    var s' := WorkerStep(job, s, i, throws);
    SumUpdate(Active(), s.workers, i, s'.workers[i]);
    assert forall k :: 0 <= k < |s.workers| && k != i ==> s'.workers[k] == s.workers[k];
  }

  lemma WorkerKeepsClosings(job: Job, s: State, i: nat, throws: bool)
    requires ValidJob(job) && Shape(job, s) && Closings(s) && i < |s.workers| && WorkerReady(s.shared, s.workers[i])
    ensures Closings(WorkerStep(job, s, i, throws))
  {
    hide ValidState, MakeResult, PendingFrom, Sum;
    var s' := WorkerStep(job, s, i, throws);
    assert forall k :: 0 <= k < |s.workers| && k != i ==> s'.workers[k] == s.workers[k];
    if s.workers[i].Leaving? && s'.workers[i].Gone? {
      SomeoneElseActive(s, i, s'.workers);
    } else if !s'.workers[i].Gone? {
      assert !s'.workers[i].Gone?;
    }
  }

  lemma WorkerKeepsOrder(job: Job, s: State, i: nat, throws: bool)
    requires ValidJob(job) && Shape(job, s) && Closings(s) && i < |s.workers| && WorkerReady(s.shared, s.workers[i])
    requires Orderly(job, s) && WorkerStep(job, s, i, throws).shared.firstError.None?
    ensures Orderly(job, WorkerStep(job, s, i, throws))
  {
    hide ValidState, MakeResult, PendingFrom, Sum;
    var s' := WorkerStep(job, s, i, throws);
    assert forall k :: 0 <= k < |s.workers| && k != i ==> s'.workers[k] == s.workers[k];
    if s.workers[i].Pushing? {
      SumUpdate(Active(), s.workers, i, Leaving);
    }
  }

  lemma SchedulerKeepsGenuine(job: Job, s: State, throws: bool)
    requires ValidJob(job) && Shape(job, s) && Genuine(job, s) && SchedulerReady(job, s)
    ensures Genuine(job, SchedulerStep(job, s, throws))
  {
    if s.sent < |Pending(job)| {
      assert Pending(job)[s.sent] in Pending(job);
      assert GoodBlock(job, Assignment(job, s.sent));
    }
    hide ValidState, PendingFrom, Sum, Assignment, GoodBlock, GoodResult;
  }

  lemma MainKeepsGenuine(job: Job, s: State, throws: bool)
    requires ValidJob(job) && Shape(job, s) && Genuine(job, s) && MainReady(s)
    ensures Genuine(job, MainStep(job, s, throws))
  {
    hide ValidState, Collector.Consume, PendingFrom, Sum, GoodBlock, GoodResult;
  }

  lemma MoveKeepsGenuine(job: Job, g: Shared, w: Worker, i: u64, throws: bool)
    requires GenuineQueues(job, g) && GenuineWorker(job, w)
    ensures var (w', g') := WorkerMove(job, g, w, i, throws); GenuineQueues(job, g') && GenuineWorker(job, w')
  {
    assert w.Computing? ==> GoodResult(job, MakeResult(job, w.block, i));
    hide MakeResult, GoodBlock, GoodResult;
  }

  lemma WorkerKeepsGenuine(job: Job, s: State, i: nat, throws: bool)
    requires ValidJob(job) && Shape(job, s) && Genuine(job, s) && i < |s.workers| && WorkerReady(s.shared, s.workers[i])
    ensures Genuine(job, WorkerStep(job, s, i, throws))
  {
    hide ValidState, WorkerMove, PendingFrom, Sum, GoodBlock, GoodResult;
    var s' := WorkerStep(job, s, i, throws);
    MoveKeepsGenuine(job, s.shared, s.workers[i], i, throws);
    assert forall k :: 0 <= k < |s.workers| && k != i ==> s'.workers[k] == s.workers[k];
  }

  // ---------------------------------------------------------------- no block is lost or repeated

  /** Taking the head of a sequence takes its share of the sum. */
  lemma SumHead<T>(f: T -> nat, s: seq<T>)
    requires s != []
    ensures Sum(f, s) == f(s[0]) + Sum(f, s[1..])
  {
  }

  lemma SchedulerTotal(job: Job, s: State, throws: bool, b: nat)
    requires ValidJob(job) && Shape(job, s) && SchedulerReady(job, s)
    ensures var s' := SchedulerStep(job, s, throws);
      s'.sent <= |Pending(job)| && Total(job, s', b) == Total(job, s, b)
  {
    var pending, k := Pending(job), s.sent;
    if s.scheduler.Scheduling? && k < |pending| {
      assert pending[k] in pending;
      var block := Assignment(job, k);
      assert IsBlock(b)(block) == IsIndex(b)(pending[k]);
      SumHead(IsIndex(b), pending[k..]);
      assert pending[k..][1..] == pending[k + 1..];
      SumSnoc(IsBlock(b), s.shared.assignments.items, block);
    }
    hide ValidState, PendingFrom, Sum, Assignment, IsBlock, IsIndex;
  }

  /** A worker's share of the total: what it holds and what is in the two queues. */
  ghost function Share(g: Shared, w: Worker, b: nat): nat
  {
    Sum(IsBlock(b), g.assignments.items) + HoldsBlock(b)(w) + Sum(IsResult(b), g.completions.items)
  }

  lemma WorkerShare(job: Job, g: Shared, w: Worker, i: u64, throws: bool, b: nat)
    requires WorkerReady(g, w)
    ensures var (w', g') := WorkerMove(job, g, w, i, throws);
      && Share(g', w', b) <= Share(g, w, b)
      && (g'.firstError.None? && (w.Pushing? ==> !g.completions.closed) ==>
            Share(g', w', b) == Share(g, w, b))
  {
    if w.Pushing? {
      SumSnoc(IsResult(b), g.completions.items, w.result);
    }
    if g.assignments.items != [] {
      SumHead(IsBlock(b), g.assignments.items);
    }
    hide Sum;
  }

  lemma WorkerTotal(job: Job, s: State, i: nat, throws: bool, b: nat)
    requires ValidJob(job) && Shape(job, s) && i < |s.workers| && WorkerReady(s.shared, s.workers[i])
    ensures var s' := WorkerStep(job, s, i, throws);
      && Total(job, s', b) <= Total(job, s, b)
      && (s'.shared.firstError.None? && Orderly(job, s) ==> Total(job, s', b) == Total(job, s, b))
  {
    hide ValidState, PendingFrom, Sum, WorkerMove, HoldsBlock;
    var s' := WorkerStep(job, s, i, throws);
    SumUpdate(HoldsBlock(b), s.workers, i, s'.workers[i]);
    WorkerShare(job, s.shared, s.workers[i], i, throws, b);
    if s.workers[i].Pushing? {
      SumUpdate(Active(), s.workers, i, Leaving);
    }
  }

  lemma HeldResult(b: nat, r: BlockResult)
    ensures IsResult(b)(r) == MainHolds(b, Consuming(r))
  {
  }

  lemma MainTotal(job: Job, s: State, throws: bool, b: nat)
    requires ValidJob(job) && Shape(job, s) && MainReady(s)
    ensures var s' := MainStep(job, s, throws);
      && Total(job, s', b) <= Total(job, s, b)
      && (s'.shared.firstError.None? ==> Total(job, s', b) == Total(job, s, b))
  {
    hide ValidState, PendingFrom, Sum, Collector.Consume, IsResult, IsBlock, IsIndex, HoldsBlock, Workers;
    if s.main.Collecting? && s.shared.completions.items != [] {
      SumHead(IsResult(b), s.shared.completions.items);
      HeldResult(b, s.shared.completions.items[0]);
    } else if s.main.Consuming? {
      SumSnoc(IsResult(b), s.collector.consumed, s.main.result);
      HeldResult(b, s.main.result);
    }
  }

  // ---------------------------------------------------------------- the consumer

  lemma ConsumeKeeps(job: Job, c0: Collector, c: Collector, r: BlockResult)
    requires c.Valid() && c0.coordinator.blocks == job.blocks && Collected(job, c0, c)
    requires GoodResult(job, r) && c.Consume(job.sem, r).Some?
    ensures Collected(job, c0, c.Consume(job.sem, r).value)
  {
    var c' := c.Consume(job.sem, r).value;
    var id := r.block.id;
    assert c'.coordinator.payloads == c.coordinator.payloads[id := Some(r.checksum)];
    hide Sum, CommitResult, ValidateResult;
    forall b | 0 <= b < |job.blocks|
      ensures Sum(IsResult(b), c'.consumed) == Sum(IsResult(b), c.consumed) + if b == id then 1 else 0
    {
      SumSnoc(IsResult(b), c.consumed, r);
    }
  }

  ghost predicate Counted(job: Job, s: State)
  {
    && s.sent <= |Pending(job)|
    && (forall b: nat :: Total(job, s, b) <= Sum(IsIndex(b), Pending(job)))
    && (s.shared.firstError.None? ==>
          forall b: nat :: Total(job, s, b) == Sum(IsIndex(b), Pending(job)))
  }

  ghost predicate Inv(job: Job, c0: Collector, s: State)
  {
    && Shape(job, s) && Closings(s) && (s.shared.firstError.None? ==> Orderly(job, s))
    && Genuine(job, s) && Collected(job, c0, s.collector) && Counted(job, s)
  }

  lemma SchedulerInv(job: Job, c0: Collector, s: State, throws: bool)
    requires ValidJob(job) && Inv(job, c0, s) && SchedulerReady(job, s)
    ensures Inv(job, c0, SchedulerStep(job, s, throws))
  {
    hide Shape, Closings, Orderly, Genuine, Collected, Total, PendingFrom, SchedulerReady, Sum;
    var s' := SchedulerStep(job, s, throws);
    SchedulerKeeps(job, s, throws);
    SchedulerKeepsGenuine(job, s, throws);
    forall b: nat ensures s'.sent <= |Pending(job)| && Total(job, s', b) == Total(job, s, b) {
      SchedulerTotal(job, s, throws, b);
    }
  }

  lemma WorkerInv(job: Job, c0: Collector, s: State, i: nat, throws: bool)
    requires ValidJob(job) && Inv(job, c0, s) && i < |s.workers| && WorkerReady(s.shared, s.workers[i])
    requires WellTyped(s)
    ensures Inv(job, c0, WorkerStep(job, s, i, throws))
  {
    var s' := WorkerStep(job, s, i, throws);
    assert s'.shared.firstError.None? ==> s.shared.firstError.None?;
    hide Shape, Closings, Orderly, Genuine, Collected, Total, PendingFrom, WorkerReady, Sum, WorkerMove;
    WorkerKeepsShape(job, s, i, throws);
    WorkerKeepsClosings(job, s, i, throws);
    if s'.shared.firstError.None? { WorkerKeepsOrder(job, s, i, throws); }
    WorkerKeepsGenuine(job, s, i, throws);
    forall b: nat
      ensures Total(job, s', b) <= Total(job, s, b)
      ensures s'.shared.firstError.None? ==> Total(job, s', b) == Total(job, s, b)
    {
      WorkerTotal(job, s, i, throws, b);
    }
  }

  lemma MainInv(job: Job, c0: Collector, s: State, throws: bool)
    requires ValidJob(job) && Inv(job, c0, s) && MainReady(s) && WellTyped(s)
    requires c0.coordinator.blocks == job.blocks
    ensures Inv(job, c0, MainStep(job, s, throws))
  {
    var s' := MainStep(job, s, throws);
    assert s'.shared.firstError.None? ==> s.shared.firstError.None?;
    if s.main.Consuming? && s.collector.Consume(job.sem, s.main.result).Some? {
      ConsumeKeeps(job, c0, s.collector, s.main.result);
    }
    assert Collected(job, c0, s'.collector) by {
      hide Shape, Closings, Orderly, Genuine, Collected, Total, PendingFrom, Sum, Collector.Consume;
    }
    hide Shape, Closings, Orderly, Genuine, Collected, Total, PendingFrom, Sum, MainStep, MainReady;
    MainKeeps(job, s, throws);
    MainKeepsGenuine(job, s, throws);
    forall b: nat
      ensures Total(job, s', b) <= Total(job, s, b)
      ensures s'.shared.firstError.None? ==> Total(job, s', b) == Total(job, s, b)
    {
      MainTotal(job, s, throws, b);
    }
  }
}
