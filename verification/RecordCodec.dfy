/** Block records and manifests: encoders, decoders and their round trips in both directions
    (src/persistence_codec.cpp). */
module RecordCodec {
  import opened Types
  import opened Words
  import opened Coordinator
  import opened Codec

  // ---------------------------------------------------------------- run identity

  datatype Ids = Ids(runId: Digest, spec: Digest, layout: Digest, build: Digest)

  function PutIds(i: Ids, tail: seq<byte>): seq<byte>
  {
    i.runId + (i.spec + (i.layout + (i.build + tail)))
  }

  function ParseIds(b: seq<byte>): Parsed<Ids>
  {
    var r := DigestOf(b);
    if r.Bad? then Bad else
    var s := DigestOf(r.rest);
    if s.Bad? then Bad else
    var l := DigestOf(s.rest);
    if l.Bad? then Bad else
    var f := DigestOf(l.rest);
    if f.Bad? then Bad else Got(Ids(r.value, s.value, l.value, f.value), f.rest)
  }

  lemma IdsField(i: Ids, tail: seq<byte>)
    ensures ParseIds(PutIds(i, tail)) == Got(i, tail)
  {
    hide DigestOf;
    DigestField(i.runId, i.spec + (i.layout + (i.build + tail)));
    DigestField(i.spec, i.layout + (i.build + tail));
    DigestField(i.layout, i.build + tail);
    DigestField(i.build, tail);
  }

  lemma IdsExact(b: seq<byte>)
    ensures ParseIds(b).Got? ==> b == PutIds(ParseIds(b).value, ParseIds(b).rest)
  {
    hide DigestOf;
    if ParseIds(b).Got? {
      var b1 := DigestOf(b).rest;
      var b2 := DigestOf(b1).rest;
      var b3 := DigestOf(b2).rest;
      DigestExact(b);
      DigestExact(b1);
      DigestExact(b2);
      DigestExact(b3);
    }
  }

  // ---------------------------------------------------------------- block records

  function PutBlock(b: ScenarioBlock, tail: seq<byte>): seq<byte>
  {
    LE(b.id, 8) + (LE(b.start, 8) + (LE(b.end, 8) + (LE(b.incarnation, 8) + (LE(b.epoch, 8) + tail))))
  }

  function ParseBlock(b: seq<byte>): Parsed<ScenarioBlock>
  {
    var id := U64(b);
    if id.Bad? then Bad else
    var start := U64(id.rest);
    if start.Bad? then Bad else
    var end := U64(start.rest);
    if end.Bad? then Bad else
    var incarnation := U64(end.rest);
    if incarnation.Bad? then Bad else
    var epoch := U64(incarnation.rest);
    if epoch.Bad? then Bad
    else Got(ScenarioBlock(id.value, start.value, end.value, incarnation.value, epoch.value), epoch.rest)
  }

  lemma BlockField(b: ScenarioBlock, tail: seq<byte>)
    ensures ParseBlock(PutBlock(b, tail)) == Got(b, tail)
  {
    hide LE, U64;
    U64Field(b.epoch, tail);
    U64Field(b.incarnation, LE(b.epoch, 8) + tail);
    U64Field(b.end, LE(b.incarnation, 8) + (LE(b.epoch, 8) + tail));
    U64Field(b.start, LE(b.end, 8) + (LE(b.incarnation, 8) + (LE(b.epoch, 8) + tail)));
    U64Field(b.id, LE(b.start, 8) + (LE(b.end, 8) + (LE(b.incarnation, 8) + (LE(b.epoch, 8) + tail))));
  }

  lemma BlockExact(b: seq<byte>)
    ensures ParseBlock(b).Got? ==> b == PutBlock(ParseBlock(b).value, ParseBlock(b).rest)
  {
    hide LE, U64;
    if ParseBlock(b).Got? {
      var b1 := U64(b).rest;
      var b2 := U64(b1).rest;
      var b3 := U64(b2).rest;
      var b4 := U64(b3).rest;
      U64Exact(b);
      U64Exact(b1);
      U64Exact(b2);
      U64Exact(b3);
      U64Exact(b4);
    }
  }

  function IdsOf(runId: Digest, i: RunIdentity): Ids
  {
    Ids(runId, i.specHash, i.layoutHash, i.buildFingerprint)
  }

  function IdentityOf(i: Ids, rng: u64, schema: u32): RunIdentity
  {
    RunIdentity(i.spec, i.layout, i.build, rng, schema)
  }

  function RecordPayload(r: DurableBlockRecord): seq<byte>
  {
    var id := r.result.identity;
    PutIds(IdsOf(r.runId, id), PutBlock(r.result.block, LE(id.rngVersion, 8) + (LE(id.statsSchema, 4) + (
      LE(r.result.workerId, 8) + PutBlob(r.result.aggregate, id.statsSchema, r.result.checksum + [])))))
  }

  /** What both encode_block_record and decode_block_record demand; the aggregate hash refuses any other
      statistics schema. */
  predicate ValidRecord(sem: Semantics, r: DurableBlockRecord)
  {
    && r.result.block.epoch != 0 && r.result.identity.statsSchema == STATS_SCHEMA
    && sem.wellFormed(r.result.aggregate) && r.result.checksum == sem.hash(r.result.aggregate)
  }

  function EncodeBlockRecord(sem: Semantics, r: DurableBlockRecord): Option<seq<byte>>
  {
    if ValidRecord(sem, r) then Some(MakeEnvelope(BLOCK_MAGIC, RecordPayload(r))) else None
  }

  lemma RecordAccepted(sem: Semantics, r: DurableBlockRecord)
    requires ValidRecord(sem, r)
    ensures EncodeBlockRecord(sem, r).Some?
  {
  }

  function ParseRecord(sem: Semantics, b: seq<byte>): Parsed<DurableBlockRecord>
  {
    var ids := ParseIds(b);
    if ids.Bad? then Bad else
    var block := ParseBlock(ids.rest);
    if block.Bad? then Bad else
    var rng := U64(block.rest);
    if rng.Bad? then Bad else
    var schema := U32(rng.rest);
    if schema.Bad? then Bad else
    var worker := U64(schema.rest);
    if worker.Bad? then Bad else
    var a := ParseBlob(sem, worker.rest, schema.value);
    if a.Bad? then Bad else
    var sum := DigestOf(a.rest);
    if sum.Bad? then Bad
    else Got(DurableBlockRecord(ids.value.runId, BlockResult(
               block.value, a.value, IdentityOf(ids.value, rng.value, schema.value), sum.value,
               worker.value)), sum.rest)
  }

  function DecodeBlockRecord(sem: Semantics, b: seq<byte>): Option<DurableBlockRecord>
  {
    match OpenEnvelope(b, BLOCK_MAGIC, MAX_BLOCK_RECORD_BYTES)
    case None => None
    case Some(payload) =>
      var r := ParseRecord(sem, payload);
      if r.Bad? || r.rest != [] || !ValidRecord(sem, r.value) then None else Some(r.value)
  }

  lemma RecordField(sem: Semantics, r: DurableBlockRecord)
    requires sem.wellFormed(r.result.aggregate)
    ensures ParseRecord(sem, RecordPayload(r)) == Got(r, [])
  {
    hide LE, U32, U64, ParseIds, PutIds, ParseBlock, PutBlock, ParseBlob, PutBlob, DigestOf;
    var id := r.result.identity;
    var b5 := r.result.checksum + [];
    var b4 := PutBlob(r.result.aggregate, id.statsSchema, b5);
    var b3 := LE(r.result.workerId, 8) + b4;
    var b2 := LE(id.statsSchema, 4) + b3;
    var b1 := LE(id.rngVersion, 8) + b2;
    IdsField(IdsOf(r.runId, id), PutBlock(r.result.block, b1));
    BlockField(r.result.block, b1);
    U64Field(id.rngVersion, b2);
    U32Field(id.statsSchema, b3);
    U64Field(r.result.workerId, b4);
    BlobField(sem, r.result.aggregate, id.statsSchema, b5);
    DigestField(r.result.checksum, []);
  }

  lemma RecordExact(sem: Semantics, b: seq<byte>)
    requires ParseRecord(sem, b).Got? && ParseRecord(sem, b).rest == []
    ensures RecordPayload(ParseRecord(sem, b).value) == b
  {
    hide LE, U32, U64, ParseIds, PutIds, ParseBlock, PutBlock, ParseBlob, PutBlob, DigestOf;
    IdsExact(b);
    var b1 := ParseIds(b).rest;
    BlockExact(b1);
    var b2 := ParseBlock(b1).rest;
    U64Exact(b2);
    var b3 := U64(b2).rest;
    U32Exact(b3);
    var b4 := U32(b3).rest;
    U64Exact(b4);
    var b5 := U64(b4).rest;
    BlobExact(sem, b5, U32(b3).value);
    DigestExact(ParseBlob(sem, b5, U32(b3).value).rest);
  }

  lemma RecordSize(r: DurableBlockRecord)
    ensures |RecordPayload(r)| == 272
  {
  }

  /** Every record the encoder accepts fits in 512 bytes and decodes to itself. */
  lemma BlockRecordRoundTrip(sem: Semantics, r: DurableBlockRecord)
    requires ValidRecord(sem, r)
    ensures var b := EncodeBlockRecord(sem, r).value;
      |b| == 296 <= 512 && DecodeBlockRecord(sem, b) == Some(r)
  {
    hide RecordPayload, ParseRecord, OpenEnvelope;
    RecordSize(r);
    OpenOfMake(BLOCK_MAGIC, RecordPayload(r), MAX_BLOCK_RECORD_BYTES);
    RecordField(sem, r);
  }

  /** Every byte string the decoder accepts is the encoding of what it decodes to. */
  lemma BlockRecordCanonical(sem: Semantics, b: seq<byte>)
    requires DecodeBlockRecord(sem, b).Some?
    ensures EncodeBlockRecord(sem, DecodeBlockRecord(sem, b).value) == Some(b)
  {
    hide RecordPayload, ParseRecord, OpenEnvelope, MakeEnvelope;
    var payload := OpenEnvelope(b, BLOCK_MAGIC, MAX_BLOCK_RECORD_BYTES).value;
    RecordExact(sem, payload);
    MakeOfOpen(b, BLOCK_MAGIC, MAX_BLOCK_RECORD_BYTES);
  }

  // ---------------------------------------------------------------- manifest header

  datatype Header = Header(
    ids: Ids, sequence: u64, status: RunStatus, incarnation: u64, rng: u64, schema: u32,
    blockCount: u64, leaseCount: u64)

  function PutCounts(h: Header, tail: seq<byte>): seq<byte>
  {
    LE(h.incarnation, 8) + (LE(h.rng, 8) + (LE(h.schema, 4) + (LE(0, 4) + (
      LE(h.blockCount, 8) + (LE(h.leaseCount, 8) + tail)))))
  }

  function PutHeader(h: Header, tail: seq<byte>): seq<byte>
  {
    PutIds(h.ids, LE(h.sequence, 8) + ([RunStatusCode(h.status)] + (RESERVED + PutCounts(h, tail))))
  }

  function ParseCounts(
    ids: Ids, sequence: u64, status: RunStatus, b: seq<byte>): Parsed<Header>
  {
    var incarnation := U64(b);
    if incarnation.Bad? then Bad else
    var rng := U64(incarnation.rest);
    if rng.Bad? then Bad else
    var schema := U32(rng.rest);
    if schema.Bad? then Bad else
    var zero := U32(schema.rest);
    if zero.Bad? || zero.value != 0 then Bad else
    var blocks := U64(zero.rest);
    if blocks.Bad? then Bad else
    var leases := U64(blocks.rest);
    if leases.Bad? then Bad
    else Got(Header(ids, sequence, status, incarnation.value, rng.value, schema.value, blocks.value,
                    leases.value), leases.rest)
  }

  function ParseHeader(b: seq<byte>): Parsed<Header>
  {
    var ids := ParseIds(b);
    if ids.Bad? then Bad else
    var sequence := U64(ids.rest);
    if sequence.Bad? then Bad else
    var code := U8(sequence.rest);
    if code.Bad? || RunStatusOf(code.value).None? then Bad else
    var zeros := Raw(code.rest, 7);
    if zeros.Bad? || zeros.value != RESERVED then Bad
    else ParseCounts(ids.value, sequence.value, RunStatusOf(code.value).value, zeros.rest)
  }

  lemma CountsField(h: Header, tail: seq<byte>)
    ensures ParseCounts(h.ids, h.sequence, h.status, PutCounts(h, tail)) == Got(h, tail)
  {
    hide LE, U32, U64;
    var b5 := LE(h.leaseCount, 8) + tail;
    var b4 := LE(h.blockCount, 8) + b5;
    var b3 := LE(0, 4) + b4;
    var b2 := LE(h.schema, 4) + b3;
    var b1 := LE(h.rng, 8) + b2;
    U64Field(h.incarnation, b1);
    U64Field(h.rng, b2);
    U32Field(h.schema, b3);
    U32Field(0, b4);
    U64Field(h.blockCount, b5);
    U64Field(h.leaseCount, tail);
  }

  lemma CountsExact(ids: Ids, sequence: u64, status: RunStatus, b: seq<byte>)
    ensures var p := ParseCounts(ids, sequence, status, b);
      p.Got? ==> b == PutCounts(p.value, p.rest) && p.value.ids == ids && p.value.sequence == sequence
                 && p.value.status == status
  {
    hide LE, U32, U64;
    if ParseCounts(ids, sequence, status, b).Got? {
      var b1 := U64(b).rest;
      var b2 := U64(b1).rest;
      var b3 := U32(b2).rest;
      var b4 := U32(b3).rest;
      var b5 := U64(b4).rest;
      U64Exact(b);
      U64Exact(b1);
      U32Exact(b2);
      U32Exact(b3);
      U64Exact(b4);
      U64Exact(b5);
    }
  }

  lemma HeaderField(h: Header, tail: seq<byte>)
    ensures ParseHeader(PutHeader(h, tail)) == Got(h, tail)
  {
    hide LE, U8, U64, Raw, ParseIds, PutIds, ParseCounts, PutCounts;
    var b3 := PutCounts(h, tail);
    var b2 := [RunStatusCode(h.status)] + (RESERVED + b3);
    IdsField(h.ids, LE(h.sequence, 8) + b2);
    U64Field(h.sequence, b2);
    U8Field(RunStatusCode(h.status), RESERVED + b3);
    RawField(RESERVED, b3);
    CountsField(h, tail);
  }

  lemma HeaderExact(b: seq<byte>)
    ensures ParseHeader(b).Got? ==> b == PutHeader(ParseHeader(b).value, ParseHeader(b).rest)
  {
    hide LE, U8, U64, Raw, ParseIds, PutIds, ParseCounts, PutCounts;
    if ParseHeader(b).Got? {
      IdsExact(b);
      var b1 := ParseIds(b).rest;
      U64Exact(b1);
      var b2 := U64(b1).rest;
      U8Exact(b2);
      var b3 := U8(b2).rest;
      RawExact(b3, 7);
      CountsExact(ParseIds(b).value, U64(b1).value, RunStatusOf(U8(b2).value).value, Raw(b3, 7).rest);
    }
  }

  // ---------------------------------------------------------------- lease table

  function PutEpochs(es: seq<u64>, tail: seq<byte>): seq<byte>
  {
    if es == [] then tail else LE(es[0], 8) + PutEpochs(es[1..], tail)
  }

  function ParseEpochs(n: nat, b: seq<byte>): (p: Parsed<seq<u64>>)
    ensures p.Got? ==> |p.value| == n && forall i :: 0 <= i < n ==> p.value[i] != 0
  {
    if n == 0 then Got([], b) else
    var e := U64(b);
    if e.Bad? || e.value == 0 then Bad else
    var more := ParseEpochs(n - 1, e.rest);
    if more.Bad? then Bad else Got([e.value] + more.value, more.rest)
  }

  lemma {:induction false} EpochsField(es: seq<u64>, tail: seq<byte>)
    requires forall i :: 0 <= i < |es| ==> es[i] != 0
    ensures ParseEpochs(|es|, PutEpochs(es, tail)) == Got(es, tail)
    ensures |PutEpochs(es, tail)| == 8 * |es| + |tail|
    decreases |es|
  {
    hide LE, U64;
    if es != [] {
      EpochsField(es[1..], tail);
      U64Field(es[0], PutEpochs(es[1..], tail));
      assert es == [es[0]] + es[1..];
    }
  }

  lemma {:induction false} EpochsExact(n: nat, b: seq<byte>)
    ensures var p := ParseEpochs(n, b); p.Got? ==> b == PutEpochs(p.value, p.rest)
  {
    hide LE, U64;
    if n > 0 && ParseEpochs(n, b).Got? {
      U64Exact(b);
      EpochsExact(n - 1, U64(b).rest);
      var more := ParseEpochs(n - 1, U64(b).rest).value;
      assert ([U64(b).value] + more)[1..] == more;
    }
  }

  // ---------------------------------------------------------------- committed table

  function PutEntry(e: ManifestEntry, tail: seq<byte>): seq<byte>
  {
    LE(e.blockId, 8) + (LE(e.incarnation, 8) + (LE(e.epoch, 8) + (e.checksum + tail)))
  }

  function ParseEntry(b: seq<byte>): Parsed<ManifestEntry>
  {
    var id := U64(b);
    if id.Bad? then Bad else
    var incarnation := U64(id.rest);
    if incarnation.Bad? then Bad else
    var epoch := U64(incarnation.rest);
    if epoch.Bad? then Bad else
    var sum := DigestOf(epoch.rest);
    if sum.Bad? then Bad else Got(ManifestEntry(id.value, incarnation.value, epoch.value, sum.value), sum.rest)
  }

  lemma EntryField(e: ManifestEntry, tail: seq<byte>)
    ensures ParseEntry(PutEntry(e, tail)) == Got(e, tail)
  {
    hide LE, U64, DigestOf;
    DigestField(e.checksum, tail);
    U64Field(e.epoch, e.checksum + tail);
    U64Field(e.incarnation, LE(e.epoch, 8) + (e.checksum + tail));
    U64Field(e.blockId, LE(e.incarnation, 8) + (LE(e.epoch, 8) + (e.checksum + tail)));
  }

  lemma EntryExact(b: seq<byte>)
    ensures ParseEntry(b).Got? ==> b == PutEntry(ParseEntry(b).value, ParseEntry(b).rest)
  {
    hide LE, U64, DigestOf;
    if ParseEntry(b).Got? {
      var b1 := U64(b).rest;
      var b2 := U64(b1).rest;
      var b3 := U64(b2).rest;
      U64Exact(b);
      U64Exact(b1);
      U64Exact(b2);
      DigestExact(b3);
    }
  }

  function PutEntries(es: seq<ManifestEntry>, tail: seq<byte>): seq<byte>
  {
    if es == [] then tail else PutEntry(es[0], PutEntries(es[1..], tail))
  }

  /** The block id an entry must exceed: none before the first entry. */
  predicate Follows(previous: Option<u64>, e: ManifestEntry)
  {
    previous.Some? ==> previous.value < e.blockId
  }

  function ParseEntries(
    n: nat, previous: Option<u64>, incarnation: u64, epochs: seq<u64>, b: seq<byte>)
    : (p: Parsed<seq<ManifestEntry>>)
    ensures p.Got? ==> |p.value| == n
    decreases n
  {
    if n == 0 then Got([], b) else
    var e := ParseEntry(b);
    if e.Bad? || !CanonicalEntry(e.value, incarnation, epochs) || !Follows(previous, e.value) then Bad else
    var more := ParseEntries(n - 1, Some(e.value.blockId), incarnation, epochs, e.rest);
    if more.Bad? then Bad else Got([e.value] + more.value, more.rest)
  }

  ghost predicate GoodEntries(
    es: seq<ManifestEntry>, previous: Option<u64>, incarnation: u64, epochs: seq<u64>)
  {
    && StrictlyIncreasing(es)
    && (forall e :: e in es ==> CanonicalEntry(e, incarnation, epochs))
    && (es != [] ==> Follows(previous, es[0]))
  }

  lemma GoodEntriesTail(
    es: seq<ManifestEntry>, previous: Option<u64>, incarnation: u64, epochs: seq<u64>)
    requires es != [] && GoodEntries(es, previous, incarnation, epochs)
    ensures GoodEntries(es[1..], Some(es[0].blockId), incarnation, epochs)
    ensures CanonicalEntry(es[0], incarnation, epochs) && Follows(previous, es[0])
  {
    hide CanonicalEntry;
    assert forall e :: e in es[1..] ==> e in es;
  }

  lemma {:induction false} EntriesField(
    es: seq<ManifestEntry>, previous: Option<u64>, incarnation: u64, epochs: seq<u64>, tail: seq<byte>)
    requires GoodEntries(es, previous, incarnation, epochs)
    ensures ParseEntries(|es|, previous, incarnation, epochs, PutEntries(es, tail)) == Got(es, tail)
    decreases |es|
  {
    hide PutEntry, ParseEntry, GoodEntries, CanonicalEntry, Follows;
    if es != [] {
      GoodEntriesTail(es, previous, incarnation, epochs);
      EntriesField(es[1..], Some(es[0].blockId), incarnation, epochs, tail);
      EntryField(es[0], PutEntries(es[1..], tail));
      assert es == [es[0]] + es[1..];
    }
  }

  lemma {:induction false} EntriesSize(es: seq<ManifestEntry>, tail: seq<byte>)
    ensures |PutEntries(es, tail)| == 56 * |es| + |tail|
    decreases |es|
  {
    if es != [] {
      EntriesSize(es[1..], tail);
    }
  }

  lemma {:induction false} EntriesExact(
    n: nat, previous: Option<u64>, incarnation: u64, epochs: seq<u64>, b: seq<byte>)
    ensures var p := ParseEntries(n, previous, incarnation, epochs, b);
      p.Got? ==> b == PutEntries(p.value, p.rest) && GoodEntries(p.value, previous, incarnation, epochs)
    decreases n
  {
    hide PutEntry, ParseEntry;
    if n > 0 && ParseEntries(n, previous, incarnation, epochs, b).Got? {
      EntryExact(b);
      var e := ParseEntry(b);
      EntriesExact(n - 1, Some(e.value.blockId), incarnation, epochs, e.rest);
      var more := ParseEntries(n - 1, Some(e.value.blockId), incarnation, epochs, e.rest).value;
      GoodEntriesCons(e.value, more, previous, incarnation, epochs);
      assert ([e.value] + more)[1..] == more;
    }
  }

  lemma GoodEntriesCons(
    e: ManifestEntry, more: seq<ManifestEntry>, previous: Option<u64>, incarnation: u64, epochs: seq<u64>)
    requires CanonicalEntry(e, incarnation, epochs) && Follows(previous, e)
    requires GoodEntries(more, Some(e.blockId), incarnation, epochs)
    ensures GoodEntries([e] + more, previous, incarnation, epochs)
  {
    var es := [e] + more;
    forall i, j | 0 <= i < j < |es| ensures es[i].blockId < es[j].blockId {
      if i == 0 {
        assert more[0].blockId <= more[j - 1].blockId;
      } else {
        assert more[i - 1].blockId < more[j - 1].blockId;
      }
    }
  }

  /** Pigeonhole: strictly increasing ids below n number at most n. */
  lemma {:induction false} IdsFit(es: seq<ManifestEntry>, n: nat)
    requires StrictlyIncreasing(es) && forall e :: e in es ==> e.blockId < n
    ensures |es| <= n
    decreases |es|
  {
    if es != [] {
      var last := es[|es| - 1];
      var init := es[..|es| - 1];
      forall e | e in init ensures e.blockId < last.blockId {
        var i :| 0 <= i < |init| && init[i] == e;
        assert es[i].blockId < es[|es| - 1].blockId;
      }
      IdsFit(init, last.blockId);
    }
  }

  // ---------------------------------------------------------------- failure record

  function PutDetails(f: FailureRecord, tail: seq<byte>): seq<byte>
  {
    LE(StatusCode(f.status), 4) + (LE(f.blockId, 8) + (LE(f.incarnation, 8) + (LE(f.epoch, 8) + (
      f.observed + (f.committed + (LE(|f.reason|, 4) + (f.reason + tail)))))))
  }

  function PutFailure(f: Option<FailureRecord>, tail: seq<byte>): seq<byte>
  {
    if f.None? then [0] + tail else [1] + PutDetails(f.value, tail)
  }

  function ParseDetails(b: seq<byte>): (p: Parsed<FailureRecord>)
    ensures p.Got? ==> |p.value.reason| <= MAX_REASON_BYTES
  {
    var code := U32(b);
    if code.Bad? || StatusOf(code.value).None? then Bad else
    var id := U64(code.rest);
    if id.Bad? then Bad else
    var incarnation := U64(id.rest);
    if incarnation.Bad? then Bad else
    var epoch := U64(incarnation.rest);
    if epoch.Bad? then Bad else
    var observed := DigestOf(epoch.rest);
    if observed.Bad? then Bad else
    var committed := DigestOf(observed.rest);
    if committed.Bad? then Bad else
    var size := U32(committed.rest);
    if size.Bad? || size.value > MAX_REASON_BYTES then Bad else
    var reason := Raw(size.rest, size.value);
    if reason.Bad? then Bad
    else Got(FailureRecord(StatusOf(code.value).value, id.value, incarnation.value, epoch.value,
                           observed.value, committed.value, reason.value), reason.rest)
  }

  function ParseFailure(b: seq<byte>): (p: Parsed<Option<FailureRecord>>)
    ensures p.Got? && p.value.Some? ==> |p.value.value.reason| <= MAX_REASON_BYTES
  {
    var flag := U8(b);
    if flag.Bad? || flag.value > 1 then Bad
    else if flag.value == 0 then Got(None, flag.rest)
    else
      var f := ParseDetails(flag.rest);
      if f.Bad? then Bad else Got(Some(f.value), f.rest)
  }

  lemma DetailsField(f: FailureRecord, tail: seq<byte>)
    requires |f.reason| <= MAX_REASON_BYTES
    ensures ParseDetails(PutDetails(f, tail)) == Got(f, tail)
  {
    hide LE, U32, U64, DigestOf, Raw;
    var b7 := f.reason + tail;
    var b6 := LE(|f.reason|, 4) + b7;
    var b5 := f.committed + b6;
    var b4 := f.observed + b5;
    var b3 := LE(f.epoch, 8) + b4;
    var b2 := LE(f.incarnation, 8) + b3;
    var b1 := LE(f.blockId, 8) + b2;
    U32Field(StatusCode(f.status), b1);
    U64Field(f.blockId, b2);
    U64Field(f.incarnation, b3);
    U64Field(f.epoch, b4);
    DigestField(f.observed, b5);
    DigestField(f.committed, b6);
    U32Field(|f.reason|, b7);
    RawField(f.reason, tail);
    StatusCodes(f.status, StatusCode(f.status), Running, 1);
  }

  lemma DetailsExact(b: seq<byte>)
    ensures ParseDetails(b).Got? ==> b == PutDetails(ParseDetails(b).value, ParseDetails(b).rest)
  {
    hide LE, U32, U64, DigestOf, Raw, StatusCode, StatusOf;
    if ParseDetails(b).Got? {
      var b1 := U32(b).rest;
      var b2 := U64(b1).rest;
      var b3 := U64(b2).rest;
      var b4 := U64(b3).rest;
      var b5 := DigestOf(b4).rest;
      var b6 := DigestOf(b5).rest;
      U32Exact(b);
      U64Exact(b1);
      U64Exact(b2);
      U64Exact(b3);
      DigestExact(b4);
      DigestExact(b5);
      U32Exact(b6);
      RawExact(U32(b6).rest, U32(b6).value);
      StatusCodes(StatusOf(U32(b).value).value, U32(b).value, Running, 1);
    }
  }

  lemma FailureField(f: Option<FailureRecord>, tail: seq<byte>)
    requires f.Some? ==> |f.value.reason| <= MAX_REASON_BYTES
    ensures ParseFailure(PutFailure(f, tail)) == Got(f, tail)
  {
    hide U8, ParseDetails, PutDetails;
    if f.None? {
      U8Field(0, tail);
    } else {
      U8Field(1, PutDetails(f.value, tail));
      DetailsField(f.value, tail);
    }
  }

  lemma FailureExact(b: seq<byte>)
    ensures ParseFailure(b).Got? ==> b == PutFailure(ParseFailure(b).value, ParseFailure(b).rest)
  {
    hide U8, ParseDetails, PutDetails;
    U8Exact(b);
    if U8(b).Got? {
      DetailsExact(U8(b).rest);
    }
  }
}
