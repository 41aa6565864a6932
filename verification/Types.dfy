/** Value types shared by the model: fixed-width integers, digests and the durable records. */
module Types {
  type byte = x: int | 0 <= x < 0x100
  type u32 = x: int | 0 <= x < 0x1_0000_0000
  type u64 = x: int | 0 <= x < 0x1_0000_0000_0000_0000

  const U64_MAX: u64 := 0xFFFF_FFFF_FFFF_FFFF

  /** A SHA-256 digest. */
  type Digest = s: seq<byte> | |s| == 32 witness seq(32, _ => 0)

  const ZERO_DIGEST: Digest := [
    0, 0, 0, 0, 0, 0, 0, 0, 0, 0, 0, 0, 0, 0, 0, 0,
    0, 0, 0, 0, 0, 0, 0, 0, 0, 0, 0, 0, 0, 0, 0, 0]

  datatype Option<+T> = None | Some(value: T)

  datatype Result<+T> = Ok(value: T) | Err(reason: string) {
    predicate IsFailure() { Err? }

    function PropagateFailure<U>(): Result<U>
      requires Err?
    {
      Err(reason)
    }

    function Extract(): T
      requires Ok?
    {
      value
    }
  }

  /** The aggregate of a block. The four statistics are opaque binary64 bit patterns, so equality
      of aggregates is the bitwise comparison that the run store uses. */
  datatype AggregateStats = AggregateStats(n: u64, mean: u64, m2: u64, min: u64, max: u64)

  const EMPTY_AGGREGATE := AggregateStats(0, 0, 0, 0, 0)

  datatype ScenarioBlock = ScenarioBlock(
    id: u64, start: u64, end: u64, incarnation: u64, epoch: u64)

  /** What must agree between a result, a manifest and the run they belong to. */
  datatype RunIdentity = RunIdentity(
    specHash: Digest, layoutHash: Digest, buildFingerprint: Digest, rngVersion: u64, statsSchema: u32)

  datatype BlockResult = BlockResult(
    block: ScenarioBlock, aggregate: AggregateStats, identity: RunIdentity,
    checksum: Digest, workerId: u64)

  datatype DurableBlockRecord = DurableBlockRecord(runId: Digest, result: BlockResult)

  datatype ManifestEntry = ManifestEntry(
    blockId: u64, incarnation: u64, epoch: u64, checksum: Digest)

  datatype ValidationStatus =
    | Accepted | Duplicate | InvalidRun | ExecutionLayoutMismatch | BuildMismatch
    | StaleIncarnation | RngVersionMismatch | StatsSchemaMismatch | InvalidAggregate
    | CorruptPayload | InvalidBlock | StaleLease | DeterminismError

  datatype RunStatus = Running | Complete | Failed

  datatype FailureRecord = FailureRecord(
    status: ValidationStatus, blockId: u64, incarnation: u64, epoch: u64,
    observed: Digest, committed: Digest, reason: seq<byte>)

  datatype RunManifest = RunManifest(
    runId: Digest, identity: RunIdentity, sequence: u64, status: RunStatus, incarnation: u64,
    blockCount: u64, epochs: seq<u64>, committed: seq<ManifestEntry>,
    aggregate: AggregateStats, failure: Option<FailureRecord>)

  /** One row of the committed table is acceptable for the lease table and incarnation. */
  predicate CanonicalEntry(e: ManifestEntry, incarnation: u64, epochs: seq<u64>)
  {
    && e.blockId < |epochs|
    && e.incarnation != 0 && e.epoch != 0
    && e.incarnation <= incarnation
    && e.epoch <= epochs[e.blockId]
    && (e.incarnation == incarnation ==> e.epoch == epochs[e.blockId])
  }

  predicate StrictlyIncreasing(es: seq<ManifestEntry>)
  {
    forall i, j :: 0 <= i < j < |es| ==> es[i].blockId < es[j].blockId
  }

  /** The manifest rules that the encoder and the decoder both enforce, apart from the aggregate. */
  predicate CanonicalManifest(m: RunManifest)
  {
    && m.incarnation != 0 && m.blockCount != 0
    && |m.epochs| == m.blockCount
    && (forall i :: 0 <= i < |m.epochs| ==> m.epochs[i] != 0)
    && (forall e :: e in m.committed ==> CanonicalEntry(e, m.incarnation, m.epochs))
    && StrictlyIncreasing(m.committed)
    && (m.status == Failed <==> m.failure.Some?)
    && (m.status == Complete ==> |m.committed| == m.blockCount)
  }
}
