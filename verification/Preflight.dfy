/** Storage limits of the run store (src/run_store.cpp): the completion estimate that open makes is
    enough for everything the rest of a fault-free run writes. */
module Preflight {
  import opened Types
  import opened Basics
  import opened Coordinator
  import opened RecordCodec
  import opened ManifestCodec

  /** max_storage_bytes, max_storage_files, max_manifest_bytes and min_free_space_bytes. */
  datatype Limits = Limits(bytes: u64, files: u64, manifest: u64, minFree: u64)

  /** What the store has counted, and the space that is left on the disk: nobody else uses it, and a write
      of n bytes takes n bytes. */
  datatype Usage = Usage(bytes: nat, files: nat, available: u64)
  {
    function After(size: nat): Usage
    {
      Usage(bytes + size, files + 1, if size <= available then available - size else 0)
    }
  }

  const MIN_CADENCE: u64 := 1024
  const MAX_PERIODIC: u64 := 1024

  // ---------------------------------------------------------------- the estimate

  function CheckedAdd(a: nat, b: nat): Option<nat>
  {
    if a + b > U64_MAX then None else Some(a + b)
  }

  function CheckedMultiply(a: nat, b: nat): Option<nat>
  {
    if a * b > U64_MAX then None else Some(a * b)
  }

  /** preflight_run_completion: every sum and product is checked for overflow before it is compared with a
      limit or with the available space. */
  predicate CompletionFits(
    limits: Limits, used: Usage, blocks: u64, missing: u64, manifests: nat, fixedBytes: nat, fixedFiles: nat)
  {
    var sized := CheckedMultiply(blocks, 64);
    sized.Some? &&
    var bound := CheckedAdd(512, sized.value);
    bound.Some? && bound.value <= limits.manifest &&
    var results := CheckedMultiply(missing, 512);
    results.Some? &&
    var snapshots := CheckedMultiply(manifests, bound.value);
    snapshots.Some? &&
    TotalsFit(limits, used, results.value, snapshots.value, missing, manifests, fixedBytes, fixedFiles)
  }

  /** The sums over the bytes of all records and all manifests. */
  predicate TotalsFit(
    limits: Limits, used: Usage, results: nat, snapshots: nat, missing: nat, manifests: nat, fixedBytes: nat,
    fixedFiles: nat)
  {
    var both := CheckedAdd(results, snapshots);
    both.Some? &&
    var bytes := CheckedAdd(both.value, fixedBytes);
    bytes.Some? &&
    var pair := CheckedAdd(missing, manifests);
    pair.Some? &&
    var files := CheckedAdd(pair.value, fixedFiles);
    files.Some? &&
    used.bytes <= limits.bytes && bytes.value <= limits.bytes - used.bytes &&
    used.files <= limits.files && files.value <= limits.files - used.files &&
    var required := CheckedAdd(bytes.value, limits.minFree);
    required.Some? && required.value <= used.available
  }

  /** The number of manifests open allows for beyond the two spare ones. */
  function CheckpointCount(missing: nat, interval: nat): nat
    requires interval >= 1
  {
    if missing == 0 then 0 else 1 + (missing - 1) / interval
  }

  // ---------------------------------------------------------------- the writes

  datatype Write = Metadata(size: nat) | Record(record: DurableBlockRecord) | Snapshot(manifest: RunManifest)

  /** The artifacts a fault-free run writes: valid records, and encodable manifests of the run's size
      without failure details. */
  ghost predicate Writable(sem: Semantics, blocks: u64, w: Write)
  {
    match w
    case Metadata(_) => true
    case Record(r) => ValidRecord(sem, r)
    case Snapshot(m) => Encodable(sem, m) && m.blockCount == blocks && m.failure.None?
  }

  function Size(sem: Semantics, w: Write): nat
  {
    match w
    case Metadata(size) => size
    case Record(r) => (match EncodeBlockRecord(sem, r) case Some(b) => |b| case None => 0)
    case Snapshot(m) => (match EncodeManifest(sem, m) case Some(b) => |b| case None => 0)
  }

  /** preflight_write, and the manifest limit that checkpoint tests first. */
  predicate WriteFits(sem: Semantics, limits: Limits, used: Usage, w: Write)
  {
    && Size(sem, w) <= limits.bytes && used.bytes <= limits.bytes - Size(sem, w)
    && used.files < limits.files
    && Size(sem, w) + limits.minFree <= U64_MAX && Size(sem, w) + limits.minFree <= used.available
    && (w.Snapshot? ==> Size(sem, w) <= limits.manifest)
  }

  /** atomic_write's counters after a sequence of writes; None when a limit stops one of them. */
  function Execute(sem: Semantics, limits: Limits, used: Usage, ws: seq<Write>): Option<Usage>
    decreases |ws|
  {
    if ws == [] then Some(used)
    else if !WriteFits(sem, limits, used, ws[0]) then None
    else Execute(sem, limits, used.After(Size(sem, ws[0])), ws[1..])
  }

  /** The order of writes in run_parallel_durable's consumer with m blocks still missing and p recorded
      since the last checkpoint: a record per block, a snapshot whenever p reaches the interval unless
      every block is in, and the complete snapshot at the end. */
  ghost predicate FollowsLoop(ws: seq<Write>, m: nat, p: nat, interval: nat)
    decreases m, |ws|
  {
    if m == 0 then |ws| == 1 && ws[0].Snapshot?
    else if ws == [] || !ws[0].Record? then false
    else if p + 1 >= interval && m - 1 > 0 then
      |ws| >= 2 && ws[1].Snapshot? && FollowsLoop(ws[2..], m - 1, 0, interval)
    else FollowsLoop(ws[1..], m - 1, p + 1, interval)
  }

  // ---------------------------------------------------------------- the limits hold

  /** A write is let through exactly when installing it keeps every limit. */
  lemma WriteFitsExactly(sem: Semantics, limits: Limits, used: Usage, w: Write)
    ensures WriteFits(sem, limits, used, w) <==>
      && used.bytes + Size(sem, w) <= limits.bytes && used.files + 1 <= limits.files
      && limits.minFree + Size(sem, w) <= used.available
      && (w.Snapshot? ==> Size(sem, w) <= limits.manifest)
  {
    hide Size;
  }

  function TotalSize(sem: Semantics, ws: seq<Write>): nat
  {
    if ws == [] then 0 else Size(sem, ws[0]) + TotalSize(sem, ws[1..])
  }

  /** The totals of a sequence of writes, taken at once, keep every limit. */
  ghost predicate KeepsLimits(sem: Semantics, limits: Limits, used: Usage, ws: seq<Write>)
  {
    && used.bytes + TotalSize(sem, ws) <= limits.bytes && used.files + |ws| <= limits.files
    && limits.minFree + TotalSize(sem, ws) <= used.available
    && forall i :: 0 <= i < |ws| && ws[i].Snapshot? ==> Size(sem, ws[i]) <= limits.manifest
  }

  lemma KeepsLimitsStep(sem: Semantics, limits: Limits, used: Usage, ws: seq<Write>)
    requires ws != [] && WriteFits(sem, limits, used, ws[0])
    ensures |ws| > 1 ==>
      (KeepsLimits(sem, limits, used, ws) <==> KeepsLimits(sem, limits, used.After(Size(sem, ws[0])), ws[1..]))
    ensures |ws| == 1 ==> KeepsLimits(sem, limits, used, ws)
  {
    WriteFitsExactly(sem, limits, used, ws[0]);
    hide WriteFits, Size;
    var rest := ws[1..];
    assert |ws| == 1 ==> TotalSize(sem, rest) == 0;
    assert forall i :: 0 <= i < |rest| ==> rest[i] == ws[i + 1];
    assert forall i :: 1 <= i < |ws| ==> ws[i] == rest[i - 1];
  }

  /** The limits are enforced, exactly: a sequence of writes goes through as a whole if and only if its totals keep
      every limit; the counters then stand at the totals, so no limit is ever exceeded and no write that would keep
      them is refused. */
  lemma {:induction false} LimitsAreEnforced(sem: Semantics, limits: Limits, used: Usage, ws: seq<Write>)
    requires ws != []
    ensures Execute(sem, limits, used, ws).Some? <==> KeepsLimits(sem, limits, used, ws)
    ensures Execute(sem, limits, used, ws).Some? ==>
      var total := TotalSize(sem, ws);
      && total <= used.available
      && Execute(sem, limits, used, ws).value == Usage(used.bytes + total, used.files + |ws|, used.available - total)
    decreases |ws|
  {
    hide WriteFits, Size, KeepsLimits;
    WriteFitsExactly(sem, limits, used, ws[0]);
    if WriteFits(sem, limits, used, ws[0]) {
      KeepsLimitsStep(sem, limits, used, ws);
      if |ws| > 1 {
        LimitsAreEnforced(sem, limits, used.After(Size(sem, ws[0])), ws[1..]);
      }
    } else {
      FirstBreaksLimits(sem, limits, used, ws);
    }
  }

  lemma FirstBreaksLimits(sem: Semantics, limits: Limits, used: Usage, ws: seq<Write>)
    requires ws != [] && !WriteFits(sem, limits, used, ws[0])
    ensures !KeepsLimits(sem, limits, used, ws)
  {
    WriteFitsExactly(sem, limits, used, ws[0]);
    hide WriteFits, Size;
  }

  function Records(ws: seq<Write>): nat
  {
    if ws == [] then 0 else (if ws[0].Record? then 1 else 0) + Records(ws[1..])
  }

  function Snapshots(ws: seq<Write>): nat
  {
    if ws == [] then 0 else (if ws[0].Snapshot? then 1 else 0) + Snapshots(ws[1..])
  }

  function FixedBytes(ws: seq<Write>): nat
  {
    if ws == [] then 0 else (if ws[0].Metadata? then ws[0].size else 0) + FixedBytes(ws[1..])
  }

  function FixedFiles(ws: seq<Write>): nat
  {
    if ws == [] then 0 else (if ws[0].Metadata? then 1 else 0) + FixedFiles(ws[1..])
  }

  // ---------------------------------------------------------------- the loop writes few manifests

  lemma CeilingStep(m: nat, interval: nat)
    requires m >= 2 && interval >= 1
    ensures (m + interval - 2) / interval == 1 + (m - 2) / interval
  {
    var k := (m - 2) / interval;
    assert m + interval - 2 == interval * (k + 1) + (m - 2) % interval;
    DivisionUnique(m + interval - 2, interval, k + 1, (m - 2) % interval);
  }

  lemma SmallQuotient(v: nat, d: nat)
    requires v < d
    ensures v / d == 0
  {
  }

  /** From m missing blocks with p recorded since the last checkpoint, the loop writes m records and one
      snapshot more than the checkpoints still due. */
  lemma {:induction false} LoopCounts(ws: seq<Write>, m: nat, p: nat, interval: nat)
    requires interval >= 1 && FollowsLoop(ws, m, p, interval) && (m > 0 ==> p < interval)
    ensures Records(ws) == m && FixedBytes(ws) == 0 && FixedFiles(ws) == 0
    ensures Snapshots(ws) == if m == 0 then 1 else 1 + (m + p - 1) / interval
    decreases m
  {
    if m == 0 {
      assert ws[1..] == [];
    } else if p + 1 >= interval && m - 1 > 0 {
      LoopCounts(ws[2..], m - 1, 0, interval);
      assert ws[1..][1..] == ws[2..];
      CeilingStep(m, interval);
    } else {
      LoopCounts(ws[1..], m - 1, p + 1, interval);
      if m == 1 {
        SmallQuotient(p, interval);
      }
    }
  }

  // ---------------------------------------------------------------- the estimate suffices

  ghost predicate AllWritable(sem: Semantics, blocks: u64, ws: seq<Write>)
  {
    forall i :: 0 <= i < |ws| ==> Writable(sem, blocks, ws[i])
  }

  lemma SizeBound(sem: Semantics, blocks: u64, w: Write)
    requires Writable(sem, blocks, w)
    ensures w.Record? ==> Size(sem, w) <= 512
    ensures w.Snapshot? ==> Size(sem, w) <= ManifestBound(blocks)
  {
    hide EncodeBlockRecord, EncodeManifest;
    match w
    case Metadata(_) =>
    case Record(r) =>
      BlockRecordRoundTrip(sem, r);
      assert EncodeBlockRecord(sem, r).Some? by { RecordAccepted(sem, r); }
    case Snapshot(m) => ManifestSize(sem, m);
  }

  /** The upper bound the estimate is made of. */
  function Budget(blocks: u64, ws: seq<Write>): nat
  {
    512 * Records(ws) + ManifestBound(blocks) * Snapshots(ws) + FixedBytes(ws)
  }

  lemma BudgetStep(blocks: u64, ws: seq<Write>)
    requires ws != []
    ensures Budget(blocks, ws) == Budget(blocks, ws[1..]) +
      match ws[0] { case Metadata(size) => size case Record(_) => 512 case Snapshot(_) => ManifestBound(blocks) }
  {
    assert ManifestBound(blocks) * (1 + Snapshots(ws[1..])) ==
           ManifestBound(blocks) + ManifestBound(blocks) * Snapshots(ws[1..]);
  }

  lemma {:induction false} WithinBudget(
    sem: Semantics, limits: Limits, used: Usage, blocks: u64, ws: seq<Write>)
    requires AllWritable(sem, blocks, ws) && ManifestBound(blocks) <= limits.manifest
    requires used.bytes + Budget(blocks, ws) <= limits.bytes && used.files + |ws| <= limits.files
    requires Budget(blocks, ws) + limits.minFree <= U64_MAX
    requires Budget(blocks, ws) + limits.minFree <= used.available
    ensures Execute(sem, limits, used, ws).Some?
    decreases |ws|
  {
    hide Size, Budget, Writable, ManifestBound;
    if ws != [] {
      SizeBound(sem, blocks, ws[0]);
      BudgetStep(blocks, ws);
      assert ws[0].Metadata? ==> Size(sem, ws[0]) == ws[0].size by { MetadataSize(sem, ws[0]); }
      WithinBudget(sem, limits, used.After(Size(sem, ws[0])), blocks, ws[1..]);
    }
  }

  lemma MetadataSize(sem: Semantics, w: Write)
    ensures w.Metadata? ==> Size(sem, w) == w.size
  {
  }

  lemma {:induction false} CountAll(ws: seq<Write>)
    ensures Records(ws) + Snapshots(ws) + FixedFiles(ws) == |ws|
    decreases |ws|
  {
    if ws != [] {
      CountAll(ws[1..]);
    }
  }

  /** What open and the run write from one estimate on: in a fresh directory the metadata first, then the
      initial or recovery manifest, then the loop. */
  ghost predicate RemainingWrites(ws: seq<Write>, newRun: bool, missing: nat, interval: nat)
  {
    if newRun then
      |ws| >= 2 && ws[0].Metadata? && ws[1].Snapshot? && FollowsLoop(ws[2..], missing, 0, interval)
    else
      |ws| >= 1 && ws[0].Snapshot? && FollowsLoop(ws[1..], missing, 0, interval)
  }

  /** The snapshots of the remaining run stay within the estimate's allowance. */
  lemma RemainingCounts(ws: seq<Write>, newRun: bool, missing: nat, interval: nat)
    requires interval >= 1 && RemainingWrites(ws, newRun, missing, interval)
    ensures Records(ws) == missing && Snapshots(ws) <= CheckpointCount(missing, interval) + 2
    ensures FixedFiles(ws) == (if newRun then 1 else 0)
    ensures FixedBytes(ws) == (if newRun then ws[0].size else 0)
  {
    hide FollowsLoop;
    if newRun {
      LoopCounts(ws[2..], missing, 0, interval);
      assert ws[1..][1..] == ws[2..];
    } else {
      LoopCounts(ws[1..], missing, 0, interval);
    }
  }

  /** The estimate is exact: it passes if and only if a full manifest fits the manifest limit and the totals it
      allows for (512 bytes a record, 512 + 64 N a manifest, and the fixed files) keep every limit; the overflow
      checks refuse nothing that fits. */
  lemma EstimateExactly(
    limits: Limits, used: Usage, blocks: u64, missing: u64, manifests: nat, fixedBytes: nat, fixedFiles: nat)
    ensures CompletionFits(limits, used, blocks, missing, manifests, fixedBytes, fixedFiles) <==>
      var total := 512 * missing + (512 + 64 * blocks) * manifests + fixedBytes;
      && 512 + 64 * blocks <= limits.manifest
      && used.bytes + total <= limits.bytes
      && used.files + missing + manifests + fixedFiles <= limits.files
      && total + limits.minFree <= used.available
  {
    hide TotalsFit;
    var p := (512 + 64 * blocks) * manifests;
    assert manifests * (512 + 64 * blocks) == p;
    TotalsFitExactly(limits, used, 512 * missing, p, missing, manifests, fixedBytes, fixedFiles);
  }

  lemma TotalsFitExactly(
    limits: Limits, used: Usage, results: nat, snapshots: nat, missing: nat, manifests: nat, fixedBytes: nat,
    fixedFiles: nat)
    ensures TotalsFit(limits, used, results, snapshots, missing, manifests, fixedBytes, fixedFiles) <==>
      var total := results + snapshots + fixedBytes;
      && used.bytes + total <= limits.bytes
      && used.files + missing + manifests + fixedFiles <= limits.files
      && total + limits.minFree <= used.available
    ensures TotalsFit(limits, used, results, snapshots, missing, manifests, fixedBytes, fixedFiles) ==>
      results <= U64_MAX && snapshots <= U64_MAX
  {
  }

  lemma EstimateMeans(
    limits: Limits, used: Usage, blocks: u64, missing: u64, manifests: nat, fixedBytes: nat, fixedFiles: nat)
    requires CompletionFits(limits, used, blocks, missing, manifests, fixedBytes, fixedFiles)
    ensures ManifestBound(blocks) <= limits.manifest
    ensures used.bytes + 512 * missing + ManifestBound(blocks) * manifests + fixedBytes <= limits.bytes
    ensures used.files + missing + manifests + fixedFiles <= limits.files
    ensures var total := 512 * missing + ManifestBound(blocks) * manifests + fixedBytes + limits.minFree;
      total <= U64_MAX && total <= used.available
  {
    EstimateExactly(limits, used, blocks, missing, manifests, fixedBytes, fixedFiles);
  }

  /** Preflight is sufficient: if open's estimate passes, no later write of the fault-free run meets the
      byte, file-count, manifest-size or free-space limit. */
  lemma PreflightSuffices(
    sem: Semantics, limits: Limits, used: Usage, blocks: u64, newRun: bool, missing: u64, interval: u64,
    ws: seq<Write>)
    requires interval >= 1 && RemainingWrites(ws, newRun, missing, interval) && AllWritable(sem, blocks, ws)
    requires CompletionFits(limits, used, blocks, missing, CheckpointCount(missing, interval) + 2,
                            if newRun then ws[0].size else 0, if newRun then 1 else 0)
    ensures Execute(sem, limits, used, ws).Some?
  {
    hide AllWritable, Execute, CompletionFits, CheckpointCount, ManifestBound, FollowsLoop;
    hide Records, Snapshots, FixedBytes, FixedFiles;
    var manifests := CheckpointCount(missing, interval) + 2;
    RemainingCounts(ws, newRun, missing, interval);
    CountAll(ws);
    EstimateMeans(limits, used, blocks, missing, manifests,
                  if newRun then ws[0].size else 0, if newRun then 1 else 0);
    MultiplyMonotone(ManifestBound(blocks), Snapshots(ws), manifests);
    WithinBudget(sem, limits, used, blocks, ws);
  }

  // ---------------------------------------------------------------- the counters

  /** current_storage_bytes_ and current_storage_files_, which atomic_write updates in place, next to the
      space it leaves on the disk. */
  class StorageCounters {
    var bytes: nat
    var files: nat
    var available: u64

    function View(): Usage
      reads this
    {
      Usage(bytes, files, available)
    }

    constructor (used: Usage)
      ensures View() == used
    {
      bytes, files, available := used.bytes, used.files, used.available;
    }

    method AtomicWrite(sem: Semantics, limits: Limits, w: Write) returns (installed: bool)
      modifies this
      ensures installed == WriteFits(sem, limits, old(View()), w)
      ensures installed <==>
        && old(bytes) + Size(sem, w) <= limits.bytes && old(files) + 1 <= limits.files
        && limits.minFree + Size(sem, w) <= old(available) && (w.Snapshot? ==> Size(sem, w) <= limits.manifest)
      ensures installed ==> bytes == old(bytes) + Size(sem, w) <= limits.bytes
      ensures installed ==> files == old(files) + 1 <= limits.files
      ensures installed ==> available == old(available) - Size(sem, w) >= limits.minFree
      ensures !installed ==> View() == old(View())
    {
      WriteFitsExactly(sem, limits, View(), w);
      installed := WriteFits(sem, limits, View(), w);
      if installed {
        bytes := bytes + Size(sem, w);
        files := files + 1;
        available := available - Size(sem, w);
      }
    }
  }

  /** A run's writes against the live counters stop exactly where Execute does. */
  method ExecuteWrites(sem: Semantics, limits: Limits, used: Usage, ws: seq<Write>) returns (r: Option<Usage>)
    ensures r == Execute(sem, limits, used, ws)
    ensures r.Some? <==> ws == [] || KeepsLimits(sem, limits, used, ws)
    ensures r.Some? ==> r.value.bytes == used.bytes + TotalSize(sem, ws) && r.value.files == used.files + |ws|
    ensures r.Some? ==> r.value.available == used.available - TotalSize(sem, ws)
  {
    if ws != [] {
      LimitsAreEnforced(sem, limits, used, ws);
    }
    hide WriteFits, Size, KeepsLimits;
    var counters := new StorageCounters(used);
    for i := 0 to |ws|
      invariant Execute(sem, limits, counters.View(), ws[i..]) == Execute(sem, limits, used, ws)
    {
      assert ws[i..][1..] == ws[i + 1..];
      var installed := counters.AtomicWrite(sem, limits, ws[i]);
      if !installed {
        return None;
      }
    }
    return Some(counters.View());
  }

  // ---------------------------------------------------------------- the automatic cadence

  /** resolve_checkpoint_cadence. */
  function ResolveCadence(requested: u64, blocks: u64): (interval: u64)
    requires blocks >= 1
    ensures interval >= 1
    ensures requested != 0 ==> interval == requested
    ensures requested == 0 ==> interval >= MIN_CADENCE
  {
    if requested != 0 then requested
    else
      var capped := 1 + (blocks - 1) / MAX_PERIODIC;
      if capped < MIN_CADENCE then MIN_CADENCE else capped
  }

  lemma QuotientBelow(n: nat, i: nat, c: nat)
    requires i >= 1
    ensures n / i < c <==> n < i * c
  {
    var q := n / i;
    assert i * q <= n < i * (q + 1);
    if q < c {
      MultiplyMonotone(i, q + 1, c);
    } else {
      MultiplyMonotone(i, c, q);
    }
  }

  /** The number of checkpoints allowed for is the least one that covers the missing blocks. */
  lemma CountIsLeast(missing: nat, interval: nat, c: nat)
    requires interval >= 1
    ensures CheckpointCount(missing, interval) <= c <==> missing <= interval * c
  {
    if missing > 0 {
      QuotientBelow(missing - 1, interval, c);
    }
  }

  /** The automatic cadence is the least one from 1024 blocks on with at most 1024 checkpoints in a whole run. */
  lemma CadenceIsLeast(blocks: u64, i: u64)
    requires blocks >= 1 && i >= 1024
    ensures CheckpointCount(blocks, i) <= 1024 <==> i >= ResolveCadence(0, blocks)
    ensures ResolveCadence(0, blocks) >= 1024
  {
    CountIsLeast(blocks, i, 1024);
    QuotientBelow(blocks - 1, 1024, i);
    hide CheckpointCount;
  }

  /** With the automatic cadence a whole run checkpoints at most 1024 times. */
  lemma CadenceCapsManifests(blocks: u64)
    requires blocks >= 1
    ensures CheckpointCount(blocks, ResolveCadence(0, blocks)) <= MAX_PERIODIC
  {
    CadenceIsLeast(blocks, ResolveCadence(0, blocks));
  }
}
