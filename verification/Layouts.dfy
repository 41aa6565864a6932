/** Where every field of the durable files is, byte by byte (src/persistence_codec.cpp): a statement of the
    formats that uses neither the serializers nor the parsers. */
module Layouts {
  import opened Types
  import opened Words
  import opened Crc32c
  import opened Coordinator
  import opened Codec
  import opened RecordCodec
  import opened ManifestCodec

  /** The bytes s stand in b from offset i on. */
  ghost predicate At(b: seq<byte>, i: nat, s: seq<byte>)
  {
    i + |s| <= |b| && b[i..i + |s|] == s
  }

  /** The number of k bytes at offset i, least significant byte first. */
  ghost function Little(b: seq<byte>, i: nat, k: nat): nat
    requires i + k <= |b|
    decreases k
  {
    if k == 0 then 0 else b[i] + 0x100 * Little(b, i + 1, k - 1)
  }

  /** The number v stands in the k bytes at offset i. */
  ghost predicate Stands(b: seq<byte>, i: nat, k: nat, v: nat)
  {
    i + k <= |b| && Little(b, i, k) == v
  }

  lemma {:induction false} LittleOfLE(b: seq<byte>, i: nat, v: nat, k: nat)
    requires v < Pow2(8 * k) && i + k <= |b| && b[i..i + k] == LE(v, k)
    ensures Little(b, i, k) == v
    decreases k
  {
    if k > 0 {
      Pow2Byte(8 * (k - 1));
      assert b[i..i + k][0] == b[i] && b[i..i + k][1..] == b[i + 1..i + 1 + (k - 1)];
      LittleOfLE(b, i + 1, v / 0x100, k - 1);
    }
  }

  /** Cuts the next field off what stands in b from offset i on. */
  lemma Cut(b: seq<byte>, i: nat, s: seq<byte>, tail: seq<byte>)
    requires i <= |b| && b[i..] == s + tail
    ensures At(b, i, s) && b[i + |s|..] == tail
  {
    assert b[i..][|s|..] == tail && b[i..][..|s|] == s;
  }

  lemma Cut64(b: seq<byte>, i: nat, v: u64, tail: seq<byte>)
    requires i <= |b| && b[i..] == LE(v, 8) + tail
    ensures Stands(b, i, 8, v) && b[i + 8..] == tail
  {
    Cut(b, i, LE(v, 8), tail);
    Pow2Values();
    LittleOfLE(b, i, v, 8);
  }

  lemma Cut32(b: seq<byte>, i: nat, v: u32, tail: seq<byte>)
    requires i <= |b| && b[i..] == LE(v, 4) + tail
    ensures Stands(b, i, 4, v) && b[i + 4..] == tail
  {
    Cut(b, i, LE(v, 4), tail);
    Pow2Values();
    LittleOfLE(b, i, v, 4);
  }

  // ---------------------------------------------------------------- the envelope

  /** Magic, the storage schema 1, the payload's length, the payload and the CRC32C of everything before. */
  ghost predicate IsEnvelope(b: seq<byte>, magic: string, payload: seq<byte>)
  {
    && |magic| == 8 && |b| == |payload| + 24
    && (forall i :: 0 <= i < 8 ==> b[i] == magic[i] as int)
    && Stands(b, 8, 4, 1) && Stands(b, 12, 8, |payload|) && At(b, 20, payload)
    && Stands(b, |b| - 4, 4, Checksum(b[..|b| - 4]))
  }

  lemma EnvelopeLayout(magic: seq<byte>, name: string, payload: seq<byte>)
    requires |magic| == |name| == 8 && forall i :: 0 <= i < 8 ==> magic[i] == name[i] as int
    requires |payload| <= U64_MAX
    ensures IsEnvelope(MakeEnvelope(magic, payload), name, payload)
    ensures var b := MakeEnvelope(magic, payload); |b| >= 24 && b[20..|b| - 4] == payload
  {
    hide LE, Checksum, Framed;
    var b := MakeEnvelope(magic, payload);
    var sum := Checksum(Framed(magic, payload));
    FramedSlices(magic, payload, LE(sum, 4));
    Cut32(b, 8, STORAGE_SCHEMA, LE(|payload|, 8) + (payload + LE(sum, 4)));
    Cut64(b, 12, |payload|, payload + LE(sum, 4));
    Cut(b, 20, payload, LE(sum, 4));
    Cut32(b, |b| - 4, sum, []);
  }

  // ---------------------------------------------------------------- the payloads' fields

  ghost predicate IdsStandAt(p: seq<byte>, i: nat, runId: Digest, id: RunIdentity)
  {
    && At(p, i, runId) && At(p, i + 32, id.specHash) && At(p, i + 64, id.layoutHash)
    && At(p, i + 96, id.buildFingerprint)
  }

  lemma CutIds(p: seq<byte>, i: nat, runId: Digest, id: RunIdentity, tail: seq<byte>)
    requires i <= |p| && p[i..] == PutIds(IdsOf(runId, id), tail)
    ensures IdsStandAt(p, i, runId, id) && p[i + 128..] == tail
  {
    var t3 := id.buildFingerprint + tail;
    var t2 := id.layoutHash + t3;
    var t1 := id.specHash + t2;
    hide At;
    Cut(p, i, runId, t1);
    Cut(p, i + 32, id.specHash, t2);
    Cut(p, i + 64, id.layoutHash, t3);
    Cut(p, i + 96, id.buildFingerprint, tail);
  }

  /** Length 48, tag 1, the schema, the count and the bit patterns of mean, squared deviations and extremes. */
  ghost predicate AggregateStandsAt(p: seq<byte>, i: nat, a: AggregateStats, schema: u32)
  {
    && Stands(p, i, 4, 48) && Stands(p, i + 4, 4, 1) && Stands(p, i + 8, 4, schema) && Stands(p, i + 12, 8, a.n)
    && Stands(p, i + 20, 8, a.mean) && Stands(p, i + 28, 8, a.m2) && Stands(p, i + 36, 8, a.min)
    && Stands(p, i + 44, 8, a.max)
  }

  lemma AggregateTail(a: AggregateStats, schema: u32, tail: seq<byte>)
    ensures AggregatePayload(a, schema) + tail == PutAggregate(a, schema, tail)
  {
    hide LE;
  }

  lemma CutAggregate(p: seq<byte>, i: nat, a: AggregateStats, schema: u32, tail: seq<byte>)
    requires i <= |p| && p[i..] == PutBlob(a, schema, tail)
    ensures AggregateStandsAt(p, i, a, schema) && p[i + 52..] == tail
  {
    hide LE, Stands;
    AggregateTail(a, schema, tail);
    var t6 := LE(a.max, 8) + tail;
    var t5 := LE(a.min, 8) + t6;
    var t4 := LE(a.m2, 8) + t5;
    var t3 := LE(a.mean, 8) + t4;
    var t2 := LE(a.n, 8) + t3;
    var t1 := LE(schema, 4) + t2;
    Cut32(p, i, AGGREGATE_BYTES, LE(AGGREGATE_TAG, 4) + t1);
    Cut32(p, i + 4, AGGREGATE_TAG, t1);
    Cut32(p, i + 8, schema, t2);
    Cut64(p, i + 12, a.n, t3);
    Cut64(p, i + 20, a.mean, t4);
    Cut64(p, i + 28, a.m2, t5);
    Cut64(p, i + 36, a.min, t6);
    Cut64(p, i + 44, a.max, tail);
  }

  ghost predicate AllZero(b: seq<byte>)
  {
    forall i :: 0 <= i < |b| ==> b[i] == 0
  }

  lemma {:induction false} ZeroBytes(k: nat)
    ensures AllZero(LE(0, k))
  {
    if k > 0 {
      ZeroBytes(k - 1);
    }
  }

  lemma ZerosConcat(a: seq<byte>, b: seq<byte>)
    requires AllZero(a) && AllZero(b)
    ensures AllZero(a + b)
  {
  }

  /** The empty aggregate is written as zeros, the canonical form that invariant_error demands. */
  lemma EmptyIsZeros(schema: u32)
    ensures AllZero(AggregatePayload(EMPTY_AGGREGATE, schema)[8..])
  {
    ZeroBytes(8);
    hide LE, AllZero;
    var z := LE(0, 8);
    assert AllZero([]) by { NothingIsZero(); }
    ZerosConcat(z, []);
    ZerosConcat(z, z + []);
    ZerosConcat(z, z + (z + []));
    ZerosConcat(z, z + (z + (z + [])));
    var numbers := z + (z + (z + (z + (z + []))));
    ZerosConcat(z, z + (z + (z + (z + []))));
    var p := LE(AGGREGATE_TAG, 4) + (LE(schema, 4) + numbers);
    assert p[8..] == numbers;
  }

  lemma NothingIsZero()
    ensures AllZero([])
  {
  }

  /** The digest that stands for a checksum nobody has committed. */
  lemma ZeroDigestIsZeros()
    ensures AllZero(ZERO_DIGEST)
  {
  }

  // ---------------------------------------------------------------- block records

  /** The payload of a block result. */
  ghost predicate IsRecord(p: seq<byte>, r: DurableBlockRecord)
  {
    var block, id := r.result.block, r.result.identity;
    && |p| == 272 && IdsStandAt(p, 0, r.runId, id)
    && Stands(p, 128, 8, block.id) && Stands(p, 136, 8, block.start) && Stands(p, 144, 8, block.end)
    && Stands(p, 152, 8, block.incarnation) && Stands(p, 160, 8, block.epoch)
    && Stands(p, 168, 8, id.rngVersion) && Stands(p, 176, 4, id.statsSchema) && Stands(p, 180, 8, r.result.workerId)
    && AggregateStandsAt(p, 188, r.result.aggregate, id.statsSchema) && At(p, 240, r.result.checksum)
  }

  lemma CutBlock(p: seq<byte>, i: nat, b: ScenarioBlock, tail: seq<byte>)
    requires i <= |p| && p[i..] == PutBlock(b, tail)
    ensures Stands(p, i, 8, b.id) && Stands(p, i + 8, 8, b.start) && Stands(p, i + 16, 8, b.end)
    ensures Stands(p, i + 24, 8, b.incarnation) && Stands(p, i + 32, 8, b.epoch) && p[i + 40..] == tail
  {
    hide LE, Stands;
    var t4 := LE(b.epoch, 8) + tail;
    var t3 := LE(b.incarnation, 8) + t4;
    var t2 := LE(b.end, 8) + t3;
    var t1 := LE(b.start, 8) + t2;
    Cut64(p, i, b.id, t1);
    Cut64(p, i + 8, b.start, t2);
    Cut64(p, i + 16, b.end, t3);
    Cut64(p, i + 24, b.incarnation, t4);
    Cut64(p, i + 32, b.epoch, tail);
  }

  /** A block result is 296 bytes: an envelope "MCR2BLK_" around the fields at these offsets. */
  lemma RecordLayout(sem: Semantics, r: DurableBlockRecord)
    requires EncodeBlockRecord(sem, r).Some?
    ensures var b := EncodeBlockRecord(sem, r).value;
      |b| == 296 && IsEnvelope(b, "MCR2BLK_", b[20..292]) && IsRecord(b[20..292], r)
  {
    var p := RecordPayload(r);
    RecordSize(r);
    PayloadOfRecord(r);
    hide RecordPayload, MakeEnvelope, IsRecord, IsEnvelope;
    EnvelopeLayout(BLOCK_MAGIC, "MCR2BLK_", p);
  }

  lemma PayloadOfRecord(r: DurableBlockRecord)
    ensures IsRecord(RecordPayload(r), r)
  {
    hide LE, Stands, At, PutIds, PutBlock, PutBlob, IdsStandAt, AggregateStandsAt;
    RecordSize(r);
    var p, id := RecordPayload(r), r.result.identity;
    var t5 := r.result.checksum + [];
    var t4 := PutBlob(r.result.aggregate, id.statsSchema, t5);
    var t3 := LE(r.result.workerId, 8) + t4;
    var t2 := LE(id.statsSchema, 4) + t3;
    var t1 := LE(id.rngVersion, 8) + t2;
    assert p[0..] == p;
    CutIds(p, 0, r.runId, id, PutBlock(r.result.block, t1));
    CutBlock(p, 128, r.result.block, t1);
    Cut64(p, 168, id.rngVersion, t2);
    Cut32(p, 176, id.statsSchema, t3);
    Cut64(p, 180, r.result.workerId, t4);
    CutAggregate(p, 188, r.result.aggregate, id.statsSchema, t5);
    Cut(p, 240, r.result.checksum, []);
  }

  // ---------------------------------------------------------------- manifests

  /** The header of a manifest's payload: identity, sequence, status, incarnation, versions and table size. */
  ghost predicate IsHeader(p: seq<byte>, m: RunManifest)
  {
    && |p| >= 184 && IdsStandAt(p, 0, m.runId, m.identity) && Stands(p, 128, 8, m.sequence)
    && (p[136] == 1 <==> m.status == Running) && (p[136] == 2 <==> m.status == Complete)
    && (p[136] == 3 <==> m.status == Failed) && (forall i :: 137 <= i < 144 ==> p[i] == 0)
    && Stands(p, 144, 8, m.incarnation) && Stands(p, 152, 8, m.identity.rngVersion)
    && Stands(p, 160, 4, m.identity.statsSchema) && Stands(p, 164, 4, 0)
    && Stands(p, 168, 8, m.blockCount) && Stands(p, 176, 8, |m.epochs|)
  }

  ghost predicate EntryStandsAt(p: seq<byte>, i: nat, e: ManifestEntry)
  {
    && Stands(p, i, 8, e.blockId) && Stands(p, i + 8, 8, e.incarnation) && Stands(p, i + 16, 8, e.epoch)
    && At(p, i + 24, e.checksum)
  }

  /** The validation statuses in the order of their storage codes. */
  const STORED_STATUSES: seq<ValidationStatus> := [
    Accepted, Duplicate, InvalidRun, ExecutionLayoutMismatch, BuildMismatch, StaleIncarnation, RngVersionMismatch,
    StatsSchemaMismatch, InvalidAggregate, CorruptPayload, InvalidBlock, StaleLease, DeterminismError]

  ghost predicate StatusStandsAt(p: seq<byte>, i: nat, s: ValidationStatus)
  {
    exists code :: 0 <= code < |STORED_STATUSES| && STORED_STATUSES[code] == s && Stands(p, i, 4, code)
  }

  /** A flag; after it the status, the block and its lease, both checksums and the reason with its length. */
  ghost predicate FailureStandsAt(p: seq<byte>, i: nat, failure: Option<FailureRecord>)
  {
    && i < |p| && p[i] == (if failure.Some? then 1 else 0)
    && (failure.Some? ==>
          var f := failure.value;
          && StatusStandsAt(p, i + 1, f.status) && Stands(p, i + 5, 8, f.blockId) && Stands(p, i + 13, 8, f.incarnation)
          && Stands(p, i + 21, 8, f.epoch) && At(p, i + 29, f.observed) && At(p, i + 61, f.committed)
          && Stands(p, i + 93, 4, |f.reason|) && At(p, i + 97, f.reason))
  }

  /** The payload of a manifest. */
  ghost predicate IsManifest(p: seq<byte>, m: RunManifest)
  {
    var n, c := |m.epochs|, |m.committed|;
    && IsHeader(p, m)
    && (forall i :: 0 <= i < n ==> Stands(p, 184 + 8 * i, 8, m.epochs[i]))
    && Stands(p, 184 + 8 * n, 8, c)
    && (forall j :: 0 <= j < c ==> EntryStandsAt(p, 192 + 8 * n + 56 * j, m.committed[j]))
    && AggregateStandsAt(p, 192 + 8 * n + 56 * c, m.aggregate, m.identity.statsSchema)
    && FailureStandsAt(p, 244 + 8 * n + 56 * c, m.failure)
    && |p| == 245 + 8 * n + 56 * c + if m.failure.Some? then 96 + |m.failure.value.reason| else 0
  }

  lemma CutCounts(p: seq<byte>, i: nat, h: Header, tail: seq<byte>)
    requires i <= |p| && p[i..] == PutCounts(h, tail)
    ensures Stands(p, i, 8, h.incarnation) && Stands(p, i + 8, 8, h.rng) && Stands(p, i + 16, 4, h.schema)
    ensures Stands(p, i + 20, 4, 0) && Stands(p, i + 24, 8, h.blockCount) && Stands(p, i + 32, 8, h.leaseCount)
    ensures p[i + 40..] == tail
  {
    hide LE, Stands;
    var t5 := LE(h.leaseCount, 8) + tail;
    var t4 := LE(h.blockCount, 8) + t5;
    var t3 := LE(0, 4) + t4;
    var t2 := LE(h.schema, 4) + t3;
    var t1 := LE(h.rng, 8) + t2;
    Cut64(p, i, h.incarnation, t1);
    Cut64(p, i + 8, h.rng, t2);
    Cut32(p, i + 16, h.schema, t3);
    Cut32(p, i + 20, 0, t4);
    Cut64(p, i + 24, h.blockCount, t5);
    Cut64(p, i + 32, h.leaseCount, tail);
  }

  lemma CutStatus(p: seq<byte>, i: nat, status: RunStatus, tail: seq<byte>)
    requires i <= |p| && p[i..] == [RunStatusCode(status)] + (RESERVED + tail)
    ensures i + 8 <= |p| && p[i] == RunStatusCode(status) && p[i + 8..] == tail
    ensures forall k :: i + 1 <= k < i + 8 ==> p[k] == 0
  {
    assert |p[i..]| >= 8;
    assert forall k :: i <= k < i + 8 ==> p[k] == p[i..][k - i];
    assert p[i..][8..] == tail;
  }

  lemma CutSequence(p: seq<byte>, i: nat, h: Header, tail: seq<byte>)
    requires i <= |p|
    requires p[i..] == LE(h.sequence, 8) + ([RunStatusCode(h.status)] + (RESERVED + PutCounts(h, tail)))
    ensures i + 56 <= |p| && Stands(p, i, 8, h.sequence) && p[i + 8] == RunStatusCode(h.status)
    ensures forall k :: i + 9 <= k < i + 16 ==> p[k] == 0
    ensures p[i + 16..] == PutCounts(h, tail)
  {
    assert |p[i..]| >= 56;
    hide LE, Stands, PutCounts;
    Cut64(p, i, h.sequence, [RunStatusCode(h.status)] + (RESERVED + PutCounts(h, tail)));
    CutStatus(p, i + 8, h.status, PutCounts(h, tail));
  }

  lemma HeaderParts(p: seq<byte>, h: Header, m: RunManifest)
    requires |m.epochs| <= U64_MAX && h == HeaderOf(m) && |p| >= 184 && IdsStandAt(p, 0, m.runId, m.identity)
    requires Stands(p, 128, 8, h.sequence) && p[136] == RunStatusCode(h.status)
    requires forall k :: 137 <= k < 144 ==> p[k] == 0
    requires Stands(p, 144, 8, h.incarnation) && Stands(p, 152, 8, h.rng) && Stands(p, 160, 4, h.schema)
    requires Stands(p, 164, 4, 0) && Stands(p, 168, 8, h.blockCount) && Stands(p, 176, 8, h.leaseCount)
    ensures IsHeader(p, m)
  {
    hide Stands, IdsStandAt;
  }

  lemma CutHeader(p: seq<byte>, i: nat, m: RunManifest, tail: seq<byte>)
    requires |m.epochs| <= U64_MAX && i == 0 && p[i..] == PutHeader(HeaderOf(m), tail)
    ensures IsHeader(p, m) && p[184..] == tail
  {
    hide LE, Stands, PutIds, IdsStandAt, PutCounts, At, IsHeader;
    var h := HeaderOf(m);
    var t0 := [RunStatusCode(h.status)] + (RESERVED + PutCounts(h, tail));
    assert |p[i..]| >= 184 by { HeaderSize(h, tail); }
    CutIds(p, i, m.runId, m.identity, LE(h.sequence, 8) + t0);
    hide PutHeader;
    CutSequence(p, i + 128, h, tail);
    CutCounts(p, i + 144, h, tail);
    HeaderParts(p, h, m);
  }

  lemma {:induction false} CutEpochs(p: seq<byte>, i: nat, es: seq<u64>, tail: seq<byte>)
    requires i <= |p| && p[i..] == PutEpochs(es, tail)
    ensures forall k :: 0 <= k < |es| ==> Stands(p, i + 8 * k, 8, es[k])
    ensures i + 8 * |es| <= |p| && p[i + 8 * |es|..] == tail
    decreases |es|
  {
    hide LE, Stands;
    if es != [] {
      var e, rest := es[0], es[1..];
      Cut64(p, i, e, PutEpochs(rest, tail));
      assert i + 8 <= |p| by { assert |p[i..]| >= 8; }
      CutEpochs(p, i + 8, rest, tail);
      forall k | 0 <= k < |es| ensures Stands(p, i + 8 * k, 8, es[k]) {
        if k > 0 {
          assert es[k] == rest[k - 1] && i + 8 * k == i + 8 + 8 * (k - 1);
        }
      }
    }
  }

  lemma CutEntry(p: seq<byte>, i: nat, e: ManifestEntry, tail: seq<byte>)
    requires i <= |p| && p[i..] == PutEntry(e, tail)
    ensures EntryStandsAt(p, i, e) && i + 56 <= |p| && p[i + 56..] == tail
  {
    assert |p[i..]| >= 56;
    hide LE, Stands, At;
    var t3 := e.checksum + tail;
    var t2 := LE(e.epoch, 8) + t3;
    var t1 := LE(e.incarnation, 8) + t2;
    Cut64(p, i, e.blockId, t1);
    Cut64(p, i + 8, e.incarnation, t2);
    Cut64(p, i + 16, e.epoch, t3);
    Cut(p, i + 24, e.checksum, tail);
  }

  lemma {:induction false} CutEntries(p: seq<byte>, i: nat, es: seq<ManifestEntry>, tail: seq<byte>)
    requires i <= |p| && p[i..] == PutEntries(es, tail)
    ensures forall k :: 0 <= k < |es| ==> EntryStandsAt(p, i + 56 * k, es[k])
    ensures i + 56 * |es| <= |p| && p[i + 56 * |es|..] == tail
    decreases |es|
  {
    hide PutEntry, EntryStandsAt;
    if es != [] {
      var e, rest := es[0], es[1..];
      CutEntry(p, i, e, PutEntries(rest, tail));
      CutEntries(p, i + 56, rest, tail);
      forall k | 0 <= k < |es| ensures EntryStandsAt(p, i + 56 * k, es[k]) {
        if k > 0 {
          assert es[k] == rest[k - 1] && i + 56 * k == i + 56 + 56 * (k - 1);
        }
      }
    }
  }

  lemma CutFailure(p: seq<byte>, i: nat, failure: Option<FailureRecord>)
    requires failure.Some? ==> |failure.value.reason| <= MAX_REASON_BYTES
    requires i <= |p| && p[i..] == PutFailure(failure, [])
    ensures FailureStandsAt(p, i, failure)
    ensures |p| == i + 1 + if failure.Some? then 96 + |failure.value.reason| else 0
  {
    FailureSize(failure);
    assert |p[i..]| == |p| - i && p[i] == p[i..][0];
    if failure.Some? {
      CutDetails(p, i + 1, failure.value);
    }
  }

  lemma CutDetails(p: seq<byte>, i: nat, f: FailureRecord)
    requires |f.reason| <= MAX_REASON_BYTES && i <= |p| && p[i..] == PutDetails(f, [])
    ensures StatusStandsAt(p, i, f.status) && Stands(p, i + 4, 8, f.blockId) && Stands(p, i + 12, 8, f.incarnation)
    ensures Stands(p, i + 20, 8, f.epoch) && At(p, i + 28, f.observed) && At(p, i + 60, f.committed)
    ensures Stands(p, i + 92, 4, |f.reason|) && At(p, i + 96, f.reason)
  {
    hide LE, Stands, At;
    var t7 := f.reason + [];
    var t6 := LE(|f.reason|, 4) + t7;
    var t5 := f.committed + t6;
    var t4 := f.observed + t5;
    var t3 := LE(f.epoch, 8) + t4;
    var t2 := LE(f.incarnation, 8) + t3;
    var t1 := LE(f.blockId, 8) + t2;
    Cut32(p, i, StatusCode(f.status), t1);
    assert STORED_STATUSES[StatusCode(f.status)] == f.status;
    Cut64(p, i + 4, f.blockId, t2);
    Cut64(p, i + 12, f.incarnation, t3);
    Cut64(p, i + 20, f.epoch, t4);
    Cut(p, i + 28, f.observed, t5);
    Cut(p, i + 60, f.committed, t6);
    Cut32(p, i + 92, |f.reason|, t7);
    Cut(p, i + 96, f.reason, []);
  }

  lemma PayloadOfManifest(sem: Semantics, m: RunManifest)
    requires Encodable(sem, m)
    ensures IsManifest(ManifestPayload(m), m)
  {
    hide LE, Stands, PutHeader, IsHeader, PutEpochs, PutEntries, EntryStandsAt, PutBlob, PutFailure;
    hide AggregateStandsAt, FailureStandsAt;
    var p, n, c := ManifestPayload(m), |m.epochs|, |m.committed|;
    IdsFit(m.committed, m.blockCount);
    var t2 := PutFailure(m.failure, []);
    var t1 := PutBlob(m.aggregate, m.identity.statsSchema, t2);
    assert p[0..] == p;
    CutHeader(p, 0, m, PutEpochs(m.epochs, PutCommitted(m)));
    assert |p| >= 184 by { HeaderSize(HeaderOf(m), PutEpochs(m.epochs, PutCommitted(m))); }
    CutEpochs(p, 184, m.epochs, PutCommitted(m));
    var at := 184 + 8 * n;
    Cut64(p, at, c, PutEntries(m.committed, t1));
    assert |p[at..]| >= 8;
    CutEntries(p, at + 8, m.committed, t1);
    var end := at + 8 + 56 * c;
    BlobSize(m.aggregate, m.identity.statsSchema, t2);
    assert |p[end..]| >= 52;
    CutAggregate(p, end, m.aggregate, m.identity.statsSchema, t2);
    CutFailure(p, end + 52, m.failure);
  }

  ghost predicate IsManifestFile(b: seq<byte>, m: RunManifest)
  {
    |b| >= 24 && IsEnvelope(b, "MCR2MAN_", b[20..|b| - 4]) && IsManifest(b[20..|b| - 4], m)
  }

  lemma FileOfPayload(p: seq<byte>, b: seq<byte>, m: RunManifest)
    requires |p| <= U64_MAX && b == MakeEnvelope(MANIFEST_MAGIC, p) && IsManifest(p, m)
    ensures IsManifestFile(b, m)
  {
    hide MakeEnvelope, IsEnvelope, IsManifest;
    EnvelopeLayout(MANIFEST_MAGIC, "MCR2MAN_", p);
  }

  /** A manifest is an envelope "MCR2MAN_" around the fields at these offsets. */
  lemma ManifestLayout(sem: Semantics, m: RunManifest)
    requires EncodeManifest(sem, m).Some? && |EncodeManifest(sem, m).value| <= U64_MAX
    ensures IsManifestFile(EncodeManifest(sem, m).value, m)
  {
    PayloadOfManifest(sem, m);
    var p := ManifestPayload(m);
    FileOfPayload(p, EncodeManifest(sem, m).value, m);
  }
}
