/** The result coordinator (src/runtime/coordinator.cpp). */
module Coordinator {
  import opened Types
  import opened Blocks

  /** The payload functions the coordinator treats as given: the SHA-256 of an encoded aggregate and
      the absence of an invariant error. */
  datatype Semantics = Semantics(hash: AggregateStats -> Digest, wellFormed: AggregateStats -> bool)

  datatype CoordinatorState = CoordinatorState(
    identity: RunIdentity, incarnation: u64, antithetic: bool,
    blocks: seq<ScenarioBlock>, payloads: seq<Option<Digest>>)

  predicate ValidState(st: CoordinatorState)
  {
    && |st.payloads| == |st.blocks|
    && forall i :: 0 <= i < |st.blocks| ==> st.blocks[i].start < st.blocks[i].end
  }

  function ExpectedObservations(st: CoordinatorState, i: nat): nat
    requires ValidState(st) && i < |st.blocks|
  {
    var count := st.blocks[i].end - st.blocks[i].start;
    if st.antithetic then count / 2 else count
  }

  /** The classification, in the order in which the checks are made. */
  function ValidateResult(sem: Semantics, r: BlockResult, st: CoordinatorState): ValidationStatus
    requires ValidState(st)
  {
    if r.identity.specHash != st.identity.specHash then InvalidRun
    else if r.identity.layoutHash != st.identity.layoutHash then ExecutionLayoutMismatch
    else if r.identity.buildFingerprint != st.identity.buildFingerprint then BuildMismatch
    else if r.block.incarnation != st.incarnation then StaleIncarnation
    else if r.identity.rngVersion != st.identity.rngVersion then RngVersionMismatch
    else if r.identity.statsSchema != st.identity.statsSchema then StatsSchemaMismatch
    else if r.block.id >= |st.blocks| then InvalidBlock
    else if r.block.start != st.blocks[r.block.id].start || r.block.end != st.blocks[r.block.id].end
      then InvalidBlock
    else if r.aggregate.n != ExpectedObservations(st, r.block.id) || !sem.wellFormed(r.aggregate)
      then InvalidAggregate
    else if sem.hash(r.aggregate) != r.checksum then CorruptPayload
    else match st.payloads[r.block.id]
      case Some(c) => if c == r.checksum then Duplicate else DeterminismError
      case None => if r.block.epoch != st.blocks[r.block.id].epoch then StaleLease else Accepted
  }

  /** The state after commit_result. */
  function CommitResult(sem: Semantics, r: BlockResult, st: CoordinatorState): (st': CoordinatorState)
    requires ValidState(st)
    ensures ValidState(st')
    ensures st' == st.(payloads := st'.payloads)
  {
    if ValidateResult(sem, r, st) == Accepted
    then st.(payloads := st.payloads[r.block.id := Some(r.checksum)])
    else st
  }

  predicate IsBenignRejection(s: ValidationStatus)
  {
    s == Duplicate || s == StaleIncarnation || s == StaleLease
  }

  /** Delivery of a sequence of messages. */
  function Deliver(sem: Semantics, msgs: seq<BlockResult>, st: CoordinatorState): (st': CoordinatorState)
    requires ValidState(st)
    ensures ValidState(st')
    ensures st' == st.(payloads := st'.payloads)
    decreases |msgs|
  {
    if msgs == [] then st else Deliver(sem, msgs[1..], CommitResult(sem, msgs[0], st))
  }

  lemma {:induction false} DeliverConcat(
    sem: Semantics, a: seq<BlockResult>, b: seq<BlockResult>, st: CoordinatorState)
    requires ValidState(st)
    ensures Deliver(sem, a + b, st) == Deliver(sem, b, Deliver(sem, a, st))
    decreases |a|
  {
    if a == [] {
      assert a + b == b;
    } else {
      assert (a + b)[1..] == a[1..] + b;
      DeliverConcat(sem, a[1..], b, CommitResult(sem, a[0], st));
    }
  }

  /** At most once: over every sequence of arbitrary messages, a committed checksum never changes. */
  lemma {:induction false} CommittedNeverChanges(
    sem: Semantics, msgs: seq<BlockResult>, st: CoordinatorState, i: nat)
    requires ValidState(st) && i < |st.blocks| && st.payloads[i].Some?
    ensures Deliver(sem, msgs, st).payloads[i] == st.payloads[i]
    decreases |msgs|
  {
    if msgs != [] {
      CommittedNeverChanges(sem, msgs[1..], CommitResult(sem, msgs[0], st), i);
    }
  }

  /** A message meets every identity, range and payload condition of the run. */
  ghost predicate PassesChecks(sem: Semantics, r: BlockResult, st: CoordinatorState)
    requires ValidState(st)
  {
    && r.identity == st.identity && r.block.incarnation == st.incarnation
    && r.block.id < |st.blocks|
    && r.block.start == st.blocks[r.block.id].start && r.block.end == st.blocks[r.block.id].end
    && r.aggregate.n == ExpectedObservations(st, r.block.id) && sem.wellFormed(r.aggregate)
    && sem.hash(r.aggregate) == r.checksum
  }

  // ---------------------------------------------------------------- exactly when each status is given

  /** The message belongs to the run: same specification, layout and build. */
  ghost predicate SameRun(r: BlockResult, st: CoordinatorState)
  {
    && r.identity.specHash == st.identity.specHash && r.identity.layoutHash == st.identity.layoutHash
    && r.identity.buildFingerprint == st.identity.buildFingerprint
  }

  /** ... and to its present incarnation and versions. */
  ghost predicate SameGeneration(r: BlockResult, st: CoordinatorState)
  {
    r.identity == st.identity && r.block.incarnation == st.incarnation
  }

  /** ... and is for one of its blocks, with the block's own range. */
  ghost predicate KnownBlock(r: BlockResult, st: CoordinatorState)
  {
    && r.block.id < |st.blocks|
    && r.block.start == st.blocks[r.block.id].start && r.block.end == st.blocks[r.block.id].end
  }

  /** ... and its aggregate has the block's number of observations and no invariant error. */
  ghost predicate SoundAggregate(sem: Semantics, r: BlockResult, st: CoordinatorState)
    requires ValidState(st) && KnownBlock(r, st)
  {
    && sem.wellFormed(r.aggregate)
    && if st.antithetic then r.aggregate.n == (st.blocks[r.block.id].end - st.blocks[r.block.id].start) / 2
       else r.aggregate.n == st.blocks[r.block.id].end - st.blocks[r.block.id].start
  }

  /** Acceptance and the three statuses of a message that passes every check. */
  lemma PassingExactly(sem: Semantics, r: BlockResult, st: CoordinatorState)
    requires ValidState(st)
    ensures PassesChecks(sem, r, st) <==>
      SameGeneration(r, st) && KnownBlock(r, st) && SoundAggregate(sem, r, st) && sem.hash(r.aggregate) == r.checksum
    ensures ValidateResult(sem, r, st) == Accepted <==>
      PassesChecks(sem, r, st) && st.payloads[r.block.id].None? && r.block.epoch == st.blocks[r.block.id].epoch
    ensures ValidateResult(sem, r, st) == StaleLease <==>
      PassesChecks(sem, r, st) && st.payloads[r.block.id].None? && r.block.epoch != st.blocks[r.block.id].epoch
    ensures ValidateResult(sem, r, st) == Duplicate <==>
      PassesChecks(sem, r, st) && st.payloads[r.block.id] == Some(r.checksum)
    ensures ValidateResult(sem, r, st) == DeterminismError <==>
      PassesChecks(sem, r, st) && st.payloads[r.block.id].Some? && st.payloads[r.block.id].value != r.checksum
  {
  }

  lemma CorruptPayloadExactly(sem: Semantics, r: BlockResult, st: CoordinatorState)
    requires ValidState(st)
    ensures ValidateResult(sem, r, st) == CorruptPayload <==>
      SameGeneration(r, st) && KnownBlock(r, st) && SoundAggregate(sem, r, st) && sem.hash(r.aggregate) != r.checksum
  {
  }

  /** The statuses of messages that fail an earlier check: each is given exactly when its own check is the first
      to fail. */
  lemma RefusalsExactly(sem: Semantics, r: BlockResult, st: CoordinatorState)
    requires ValidState(st)
    ensures ValidateResult(sem, r, st) == InvalidRun <==> r.identity.specHash != st.identity.specHash
    ensures ValidateResult(sem, r, st) == ExecutionLayoutMismatch <==>
      r.identity.specHash == st.identity.specHash && r.identity.layoutHash != st.identity.layoutHash
    ensures ValidateResult(sem, r, st) == BuildMismatch <==>
      && r.identity.specHash == st.identity.specHash && r.identity.layoutHash == st.identity.layoutHash
      && r.identity.buildFingerprint != st.identity.buildFingerprint
    ensures ValidateResult(sem, r, st) == StaleIncarnation <==>
      SameRun(r, st) && r.block.incarnation != st.incarnation
    ensures ValidateResult(sem, r, st) == RngVersionMismatch <==>
      && SameRun(r, st) && r.block.incarnation == st.incarnation
      && r.identity.rngVersion != st.identity.rngVersion
    ensures ValidateResult(sem, r, st) == StatsSchemaMismatch <==>
      && SameRun(r, st) && r.block.incarnation == st.incarnation
      && r.identity.rngVersion == st.identity.rngVersion && r.identity.statsSchema != st.identity.statsSchema
    ensures ValidateResult(sem, r, st) == InvalidBlock <==> SameGeneration(r, st) && !KnownBlock(r, st)
    ensures ValidateResult(sem, r, st) == InvalidAggregate <==>
      SameGeneration(r, st) && KnownBlock(r, st) && !SoundAggregate(sem, r, st)
  {
  }

  /** What is ignored without a trace is a duplicate, or a message of this run from another incarnation, or one
      that passes every check under another lease; a payload that contradicts its checksum is ignored only if the
      message is from another incarnation. */
  lemma BenignExactly(sem: Semantics, r: BlockResult, st: CoordinatorState)
    requires ValidState(st)
    ensures IsBenignRejection(ValidateResult(sem, r, st)) <==>
      || (SameRun(r, st) && r.block.incarnation != st.incarnation)
      || (PassesChecks(sem, r, st) &&
            if st.payloads[r.block.id].Some? then st.payloads[r.block.id].value == r.checksum
            else r.block.epoch != st.blocks[r.block.id].epoch)
    ensures sem.hash(r.aggregate) != r.checksum && IsBenignRejection(ValidateResult(sem, r, st)) ==>
      SameRun(r, st) && r.block.incarnation != st.incarnation
  {
    PassingExactly(sem, r, st);
    RefusalsExactly(sem, r, st);
    hide ValidateResult;
  }

  // ---------------------------------------------------------------- whole sequences of messages

  /** Once any message of a sequence has been accepted, every later well-formed message for that block,
      whatever its lease epoch, is a duplicate or a determinism error according to its checksum. */
  lemma LaterMessageIsClassified(
    sem: Semantics, before: seq<BlockResult>, first: BlockResult, between: seq<BlockResult>,
    later: BlockResult, st: CoordinatorState)
    requires ValidState(st)
    requires ValidateResult(sem, first, Deliver(sem, before, st)) == Accepted
    requires PassesChecks(sem, later, st) && later.block.id == first.block.id
    ensures var st' := Deliver(sem, before + [first] + between, st);
            && st'.payloads[first.block.id] == Some(first.checksum)
            && ValidateResult(sem, later, st') ==
               (if later.checksum == first.checksum then Duplicate else DeterminismError)
  {
    DeliverConcat(sem, before + [first], between, st);
    DeliverConcat(sem, before, [first], st);
    var accepted := CommitResult(sem, first, Deliver(sem, before, st));
    assert [first][1..] == [];
    assert Deliver(sem, [first], Deliver(sem, before, st)) == accepted;
    CommittedNeverChanges(sem, between, accepted, first.block.id);
  }

  /** A message of a deterministic worker: whatever its incarnation, lease epoch or worker, its payload
      is the one that the block determines. */
  ghost predicate Honest(sem: Semantics, compute: nat -> AggregateStats, r: BlockResult)
  {
    r.aggregate == compute(r.block.id) && r.checksum == sem.hash(r.aggregate)
  }

  ghost predicate Current(sem: Semantics, r: BlockResult, st: CoordinatorState)
    requires ValidState(st)
  {
    PassesChecks(sem, r, st) && r.block.epoch == st.blocks[r.block.id].epoch
  }

  /** The committed table that a set of honest messages determines. */
  ghost function Settled(
    sem: Semantics, compute: nat -> AggregateStats, msgs: seq<BlockResult>,
    st: CoordinatorState, i: nat): Option<Digest>
    requires ValidState(st) && i < |st.blocks|
  {
    if st.payloads[i].Some? then st.payloads[i]
    else if exists m :: m in msgs && m.block.id == i && Current(sem, m, st)
      then Some(sem.hash(compute(i)))
    else None
  }

  lemma {:induction false} HonestDeliverySettles(
    sem: Semantics, compute: nat -> AggregateStats, msgs: seq<BlockResult>,
    st: CoordinatorState, i: nat)
    requires ValidState(st) && i < |st.blocks|
    requires forall m :: m in msgs ==> Honest(sem, compute, m)
    ensures Deliver(sem, msgs, st).payloads[i] == Settled(sem, compute, msgs, st, i)
    decreases |msgs|
  {
    if msgs != [] {
      var head, rest := msgs[0], msgs[1..];
      var next := CommitResult(sem, head, st);
      HonestDeliverySettles(sem, compute, rest, next, i);
      assert forall m :: m in msgs <==> m == head || m in rest;
      assert Honest(sem, compute, head);
      assert forall m :: Current(sem, m, next) == Current(sem, m, st);
      assert head.block.id == i && st.payloads[i].None? && Current(sem, head, st) ==>
        next.payloads[i] == Some(sem.hash(compute(i)));
    }
  }

  /** Order independence: honest deliveries with the same messages, in any order and with any
      repetition, commit the same table. */
  lemma DeliveryOrderIrrelevant(
    sem: Semantics, compute: nat -> AggregateStats, a: seq<BlockResult>, b: seq<BlockResult>,
    st: CoordinatorState)
    requires ValidState(st)
    requires forall m :: m in a <==> m in b
    requires forall m :: m in a ==> Honest(sem, compute, m)
    ensures Deliver(sem, a, st) == Deliver(sem, b, st)
  {
    var x, y := Deliver(sem, a, st), Deliver(sem, b, st);
    forall i | 0 <= i < |st.blocks|
      ensures x.payloads[i] == y.payloads[i]
    {
      HonestDeliverySettles(sem, compute, a, st, i);
      HonestDeliverySettles(sem, compute, b, st, i);
    }
    assert x.payloads == y.payloads;
  }

  /** The block universe that make_coordinator_state accepts for a layout. */
  predicate CanonicalUniverse(l: Layout, blocks: seq<ScenarioBlock>)
    requires ValidLayout(l)
  {
    && |blocks| == BlockCount(l)
    && forall i :: 0 <= i < |blocks| ==>
         blocks[i] == Block(l, i, blocks[0].incarnation, blocks[i].epoch) && blocks[i].epoch != 0
  }

  /** The checks on one block, given where it must start. */
  predicate CanonicalBlock(l: Layout, block: ScenarioBlock, index: nat, start: nat, incarnation: u64)
    requires start < l.total
  {
    var rest := l.total - start;
    var end := start + if l.blockSize <= rest then l.blockSize else rest;
    && block.id == index && block.start == start && block.end == end && block.end > block.start
    && block.incarnation == incarnation && block.epoch != 0
    && (l.antithetic ==> block.start % 2 == 0 && block.end % 2 == 0)
  }

  lemma CanonicalBlockMeans(l: Layout, block: ScenarioBlock, index: nat, incarnation: u64)
    requires ValidLayout(l) && index < BlockCount(l)
    ensures CanonicalBlock(l, block, index, Start(l, index), incarnation) <==>
            block == Block(l, index, incarnation, block.epoch) && block.epoch != 0
  {
    if l.antithetic { BlocksRespectPairs(l, index); }
    hide BlockCount;
  }

  /** make_coordinator_state: the running end of the previous block is checked against each block. */
  method MakeCoordinatorState(l: Layout, identity: RunIdentity, blocks: seq<ScenarioBlock>)
    returns (r: Result<CoordinatorState>)
    ensures r.Ok? <==> ValidLayout(l) && CanonicalUniverse(l, blocks)
    ensures r.Ok? ==> r.value == CoordinatorState(
      identity, blocks[0].incarnation, l.antithetic, blocks, seq(|blocks|, _ => None))
  {
    if !ValidLayout(l) || |blocks| != BlockCount(l) {
      return Err("coordinator block universe has the wrong size");
    }
    hide CanonicalBlock, BlockCount, Start, End;
    var incarnation := blocks[0].incarnation;
    BlocksPartition(l, 0);
    var expectedStart := 0;
    for index := 0 to |blocks|
      invariant index < |blocks| ==> expectedStart == Start(l, index)
      invariant index == |blocks| ==> expectedStart == l.total
      invariant forall i :: 0 <= i < index ==>
        blocks[i] == Block(l, i, incarnation, blocks[i].epoch) && blocks[i].epoch != 0
    {
      BlocksPartition(l, index);
      CanonicalBlockMeans(l, blocks[index], index, incarnation);
      if !CanonicalBlock(l, blocks[index], index, expectedStart, incarnation) {
        return Err("coordinator block universe is not contiguous and canonical");
      }
      expectedStart := blocks[index].end;
    }
    if expectedStart != l.total {
      return Err("coordinator block universe does not cover every scenario");
    }
    return Ok(CoordinatorState(identity, incarnation, l.antithetic, blocks, seq(|blocks|, _ => None)));
  }

  /** The coordinator object: commit_result writes its table in place. */
  class CoordinatorObject {
    const sem: Semantics
    const identity: RunIdentity
    const incarnation: u64
    const antithetic: bool
    const blocks: seq<ScenarioBlock>
    var payloads: seq<Option<Digest>>

    ghost function View(): CoordinatorState
      reads this
    {
      CoordinatorState(identity, incarnation, antithetic, blocks, payloads)
    }

    constructor (sem: Semantics, st: CoordinatorState)
      requires ValidState(st)
      ensures View() == st && this.sem == sem
    {
      this.sem := sem;
      identity, incarnation, antithetic := st.identity, st.incarnation, st.antithetic;
      blocks, payloads := st.blocks, st.payloads;
    }

    method Commit(r: BlockResult) returns (status: ValidationStatus)
      requires ValidState(View())
      modifies this`payloads
      ensures status == ValidateResult(sem, r, old(View()))
      ensures View() == CommitResult(sem, r, old(View()))
      ensures ValidState(View())
    {
      status := ValidateResult(sem, r, CoordinatorState(identity, incarnation, antithetic, blocks, payloads));
      if status == Accepted {
        payloads := payloads[r.block.id := Some(r.checksum)];
      }
    }
  }
}
