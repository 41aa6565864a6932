/** encode_manifest and decode_manifest: a bijection between the manifests the encoder accepts and the
    byte strings the decoder accepts (src/persistence_codec.cpp). */
module ManifestCodec {
  import opened Types
  import opened Words
  import opened Coordinator
  import opened Codec
  import opened RecordCodec

  function HeaderOf(m: RunManifest): Header
    requires |m.epochs| <= U64_MAX
  {
    Header(IdsOf(m.runId, m.identity), m.sequence, m.status, m.incarnation, m.identity.rngVersion,
           m.identity.statsSchema, m.blockCount, |m.epochs|)
  }

  /** What follows the lease table. */
  function PutCommitted(m: RunManifest): seq<byte>
  {
    LE(|m.committed|, 8) + PutEntries(m.committed,
      PutBlob(m.aggregate, m.identity.statsSchema, PutFailure(m.failure, [])))
  }

  function ManifestPayload(m: RunManifest): seq<byte>
    requires |m.epochs| <= U64_MAX
  {
    PutHeader(HeaderOf(m), PutEpochs(m.epochs, PutCommitted(m)))
  }

  /** What the decoder checks: the canonical form, the aggregate's invariant and the length of the
      failure reason. */
  predicate Decodable(sem: Semantics, m: RunManifest)
  {
    && CanonicalManifest(m) && sem.wellFormed(m.aggregate)
    && (m.failure.Some? ==> |m.failure.value.reason| <= MAX_REASON_BYTES)
  }

  /** The encoder also refuses every statistics schema but the current one. */
  predicate Encodable(sem: Semantics, m: RunManifest)
  {
    Decodable(sem, m) && m.identity.statsSchema == STATS_SCHEMA
  }

  function EncodeManifest(sem: Semantics, m: RunManifest): Option<seq<byte>>
  {
    if Encodable(sem, m) then Some(MakeEnvelope(MANIFEST_MAGIC, ManifestPayload(m))) else None
  }

  /** The payload after the lease table, given the header and the leases. */
  function ParseCommitted(sem: Semantics, h: Header, epochs: seq<u64>, b: seq<byte>): Parsed<RunManifest>
  {
    var count := U64(b);
    if count.Bad? || count.value > h.blockCount || count.value > |count.rest| / 56 then Bad else
    var entries := ParseEntries(count.value, None, h.incarnation, epochs, count.rest);
    if entries.Bad? then Bad else
    var a := ParseBlob(sem, entries.rest, h.schema);
    if a.Bad? then Bad else
    var f := ParseFailure(a.rest);
    if f.Bad? then Bad
    else Got(RunManifest(h.ids.runId, IdentityOf(h.ids, h.rng, h.schema), h.sequence, h.status,
                         h.incarnation, h.blockCount, epochs, entries.value, a.value, f.value), f.rest)
  }

  function ParseManifest(sem: Semantics, b: seq<byte>): Parsed<RunManifest>
  {
    var h := ParseHeader(b);
    if h.Bad? || h.value.blockCount == 0 || h.value.leaseCount != h.value.blockCount ||
       h.value.leaseCount > |h.rest| / 8 then Bad else
    var epochs := ParseEpochs(h.value.leaseCount, h.rest);
    if epochs.Bad? then Bad else ParseCommitted(sem, h.value, epochs.value, epochs.rest)
  }

  predicate ConsistentState(m: RunManifest)
  {
    && m.incarnation != 0 && (m.status == Failed <==> m.failure.Some?)
    && (m.status == Complete ==> |m.committed| == m.blockCount)
  }

  function DecodeManifest(sem: Semantics, b: seq<byte>, limit: u64): Option<RunManifest>
  {
    if limit < MIN_MANIFEST_LIMIT then None
    else match OpenEnvelope(b, MANIFEST_MAGIC, limit)
      case None => None
      case Some(payload) =>
        var m := ParseManifest(sem, payload);
        if m.Bad? || m.rest != [] || !ConsistentState(m.value) then None else Some(m.value)
  }

  // ---------------------------------------------------------------- what is accepted

  ghost predicate Names(es: seq<ManifestEntry>, id: nat)
  {
    exists e :: e in es && e.blockId == id
  }

  /** The rules for a manifest, one by one. */
  ghost predicate MeetsRules(sem: Semantics, m: RunManifest)
  {
    && m.incarnation > 0 && m.blockCount > 0 && |m.epochs| == m.blockCount && 0 !in m.epochs
    && (forall e :: e in m.committed ==>
          && e.blockId < m.blockCount && 0 < e.incarnation <= m.incarnation && 0 < e.epoch <= m.epochs[e.blockId]
          && (e.incarnation == m.incarnation ==> e.epoch == m.epochs[e.blockId]))
    && (forall i, j :: 0 <= i < j < |m.committed| ==> m.committed[i].blockId < m.committed[j].blockId)
    && (m.status == Failed <==> m.failure.Some?)
    && (m.failure.Some? ==> |m.failure.value.reason| <= 4096)
    && (m.status == Complete ==> forall id :: 0 <= id < m.blockCount ==> Names(m.committed, id))
    && sem.wellFormed(m.aggregate)
  }

  lemma {:induction false} IdsAreSpread(es: seq<ManifestEntry>, i: nat)
    requires StrictlyIncreasing(es) && i < |es|
    ensures es[i].blockId >= i
    decreases i
  {
    if i > 0 {
      IdsAreSpread(es, i - 1);
    }
  }

  /** As many strictly increasing ids below n as there are numbers below n are all of them. */
  lemma FullTableNamesAll(es: seq<ManifestEntry>, n: nat, id: nat)
    requires StrictlyIncreasing(es) && |es| == n && id < n && forall e :: e in es ==> e.blockId < n
    ensures Names(es, id)
  {
    IdsAreSpread(es, id);
    IdsAreBounded(es, n, id);
    assert es[id] in es;
  }

  lemma {:induction false} IdsAreBounded(es: seq<ManifestEntry>, n: nat, i: nat)
    requires StrictlyIncreasing(es) && i < |es| && forall e :: e in es ==> e.blockId < n
    ensures es[i].blockId + |es| <= n + i
    decreases |es| - i
  {
    if i + 1 < |es| {
      IdsAreBounded(es, n, i + 1);
    } else {
      assert es[i] in es;
    }
  }

  lemma LastIsLargest(es: seq<ManifestEntry>, e: ManifestEntry)
    requires StrictlyIncreasing(es) && e in es
    ensures e.blockId <= es[|es| - 1].blockId
  {
  }

  lemma {:induction false} AllNamedIsFull(es: seq<ManifestEntry>, n: nat)
    requires StrictlyIncreasing(es) && (forall e :: e in es ==> e.blockId < n)
    requires forall id :: 0 <= id < n ==> Names(es, id)
    ensures |es| == n
    decreases n
  {
    IdsFit(es, n);
    if n > 0 {
      assert Names(es, n - 1);
      var e :| e in es && e.blockId == n - 1;
      LastIsLargest(es, e);
      var last := es[|es| - 1];
      assert last in es;
      var front := es[..|es| - 1];
      assert forall x :: x in es <==> x in front || x == last;
      forall x | x in front ensures x.blockId < n - 1 {
        var j :| 0 <= j < |front| && front[j] == x;
        assert es[j].blockId < last.blockId;
      }
      forall id | 0 <= id < n - 1 ensures Names(front, id) {
        assert Names(es, id);
      }
      AllNamedIsFull(front, n - 1);
    }
  }

  /** A complete manifest's table, as the code counts it, names every block. */
  lemma CompleteNamesAll(m: RunManifest)
    requires StrictlyIncreasing(m.committed) && forall e :: e in m.committed ==> e.blockId < m.blockCount
    ensures |m.committed| == m.blockCount <==> forall id :: 0 <= id < m.blockCount ==> Names(m.committed, id)
  {
    if |m.committed| == m.blockCount {
      forall id | 0 <= id < m.blockCount ensures Names(m.committed, id) {
        FullTableNamesAll(m.committed, m.blockCount, id);
      }
    }
    if forall id :: 0 <= id < m.blockCount ==> Names(m.committed, id) {
      AllNamedIsFull(m.committed, m.blockCount);
    }
  }

  lemma RulesExactly(sem: Semantics, m: RunManifest)
    ensures Decodable(sem, m) <==> MeetsRules(sem, m)
  {
    if (forall e :: e in m.committed ==> e.blockId < m.blockCount) && StrictlyIncreasing(m.committed) {
      CompleteNamesAll(m);
    }
    hide Names;
  }

  /** The encoder accepts exactly the manifests that meet the rules and have the current statistics schema. */
  lemma EncoderAcceptsExactly(sem: Semantics, m: RunManifest)
    ensures EncodeManifest(sem, m).Some? <==> MeetsRules(sem, m) && m.identity.statsSchema == 1
  {
    RulesExactly(sem, m);
    hide MakeEnvelope, ManifestPayload, MeetsRules, Decodable;
  }

  /** Whatever bytes the decoder accepts, what it returns meets the rules, and no more than limit bytes are read. */
  lemma DecodedMeetsRules(sem: Semantics, b: seq<byte>, limit: u64)
    requires DecodeManifest(sem, b, limit).Some?
    ensures MeetsRules(sem, DecodeManifest(sem, b, limit).value) && |b| <= limit
  {
    hide ParseManifest, OpenEnvelope, MeetsRules, Decodable, ConsistentState, ManifestPayload;
    ManifestExact(sem, OpenEnvelope(b, MANIFEST_MAGIC, limit).value);
    RulesExactly(sem, DecodeManifest(sem, b, limit).value);
    OpenedFits(b, MANIFEST_MAGIC, limit);
  }

  // ---------------------------------------------------------------- sizes

  lemma HeaderSize(h: Header, tail: seq<byte>)
    ensures |PutHeader(h, tail)| == 184 + |tail|
  {
  }

  lemma FailureSize(f: Option<FailureRecord>)
    ensures |PutFailure(f, [])| == if f.None? then 1 else 97 + |f.value.reason|
  {
  }

  /** The size preflight allows for a manifest without failure details. */
  function ManifestBound(blocks: nat): nat { 512 + 64 * blocks }

  /** What failure details may add to it. */
  function FailureAllowance(m: RunManifest): nat { if m.failure.Some? then MAX_REASON_BYTES else 0 }

  /** The exact size of a manifest; it stays within 512 + 64 N, plus the longest reason of a failed run. */
  lemma ManifestSize(sem: Semantics, m: RunManifest)
    requires Encodable(sem, m)
    ensures |EncodeManifest(sem, m).value| == 268 + 8 * m.blockCount + 56 * |m.committed|
              + if m.failure.None? then 1 else 97 + |m.failure.value.reason|
    ensures |m.committed| <= m.blockCount
    ensures |EncodeManifest(sem, m).value| <= ManifestBound(m.blockCount) + FailureAllowance(m)
  {
    hide LE, PutHeader, PutEntries, PutEpochs, PutFailure, PutBlob, AggregatePayload, PutIds;
    IdsFit(m.committed, m.blockCount);
    HeaderSize(HeaderOf(m), PutEpochs(m.epochs, PutCommitted(m)));
    EpochsField(m.epochs, PutCommitted(m));
    var tail := PutBlob(m.aggregate, m.identity.statsSchema, PutFailure(m.failure, []));
    EntriesSize(m.committed, tail);
    BlobSize(m.aggregate, m.identity.statsSchema, PutFailure(m.failure, []));
    FailureSize(m.failure);
  }

  lemma BlobSize(a: AggregateStats, schema: u32, tail: seq<byte>)
    ensures |PutBlob(a, schema, tail)| == 52 + |tail|
  {
  }

  // ---------------------------------------------------------------- round trips

  lemma CommittedField(sem: Semantics, m: RunManifest)
    requires Decodable(sem, m)
    ensures ParseCommitted(sem, HeaderOf(m), m.epochs, PutCommitted(m)) == Got(m, [])
  {
    var h, schema := HeaderOf(m), m.identity.statsSchema;
    var b2 := PutFailure(m.failure, []);
    var b1 := PutBlob(m.aggregate, schema, b2);
    assert m == RunManifest(h.ids.runId, IdentityOf(h.ids, h.rng, h.schema), h.sequence, h.status,
                            h.incarnation, h.blockCount, m.epochs, m.committed, m.aggregate, m.failure);
    assert GoodEntries(m.committed, None, m.incarnation, m.epochs);
    IdsFit(m.committed, m.blockCount);
    hide LE, U64, PutEntries, ParseEntries, PutFailure, ParseFailure, PutBlob, ParseBlob, CanonicalEntry;
    EntriesField(m.committed, None, m.incarnation, m.epochs, b1);
    EntriesSize(m.committed, b1);
    U64Field(|m.committed|, PutEntries(m.committed, b1));
    BlobField(sem, m.aggregate, schema, b2);
    FailureField(m.failure, []);
  }

  lemma ManifestField(sem: Semantics, m: RunManifest)
    requires Decodable(sem, m)
    ensures ParseManifest(sem, ManifestPayload(m)) == Got(m, [])
  {
    hide PutHeader, ParseHeader, PutEpochs, ParseEpochs, ParseCommitted, PutCommitted;
    HeaderField(HeaderOf(m), PutEpochs(m.epochs, PutCommitted(m)));
    EpochsField(m.epochs, PutCommitted(m));
    CommittedField(sem, m);
  }

  /** The decoder accepts the bytes of every decodable manifest, whatever its statistics schema. */
  lemma DecodesPayload(sem: Semantics, m: RunManifest, limit: u64)
    requires Decodable(sem, m) && limit >= 256
    requires |MakeEnvelope(MANIFEST_MAGIC, ManifestPayload(m))| <= limit
    ensures DecodeManifest(sem, MakeEnvelope(MANIFEST_MAGIC, ManifestPayload(m)), limit) == Some(m)
  {
    hide ManifestPayload, ParseManifest, OpenEnvelope;
    OpenOfMake(MANIFEST_MAGIC, ManifestPayload(m), limit);
    ManifestField(sem, m);
  }

  /** Every manifest the encoder accepts and whose bytes fit the limit decodes back to itself. */
  lemma ManifestRoundTrip(sem: Semantics, m: RunManifest, limit: u64)
    requires Encodable(sem, m) && limit >= 256
    requires |EncodeManifest(sem, m).value| <= limit
    ensures DecodeManifest(sem, EncodeManifest(sem, m).value, limit) == Some(m)
  {
    hide ManifestPayload, DecodeManifest, MakeEnvelope;
    DecodesPayload(sem, m, limit);
  }

  lemma CommittedExact(sem: Semantics, h: Header, epochs: seq<u64>, b: seq<byte>)
    requires |epochs| == h.blockCount == h.leaseCount
    requires var p := ParseCommitted(sem, h, epochs, b); p.Got? && p.rest == []
    ensures var m := ParseCommitted(sem, h, epochs, b).value;
      && b == PutCommitted(m) && HeaderOf(m) == h && m.epochs == epochs
      && GoodEntries(m.committed, None, m.incarnation, m.epochs) && sem.wellFormed(m.aggregate)
      && (m.failure.Some? ==> |m.failure.value.reason| <= MAX_REASON_BYTES)
  {
    hide LE, U64, PutEntries, ParseEntries, PutFailure, ParseFailure, PutBlob, ParseBlob, GoodEntries;
    U64Exact(b);
    var b1, n := U64(b).rest, U64(b).value;
    EntriesExact(n, None, h.incarnation, epochs, b1);
    var b2 := ParseEntries(n, None, h.incarnation, epochs, b1).rest;
    BlobExact(sem, b2, h.schema);
    FailureExact(ParseBlob(sem, b2, h.schema).rest);
  }

  lemma ManifestExact(sem: Semantics, b: seq<byte>)
    requires var p := ParseManifest(sem, b); p.Got? && p.rest == [] && ConsistentState(p.value)
    ensures var m := ParseManifest(sem, b).value;
      Decodable(sem, m) && b == ManifestPayload(m)
  {
    hide PutHeader, ParseHeader, PutEpochs, ParseEpochs, ParseCommitted, PutCommitted;
    HeaderExact(b);
    var h := ParseHeader(b);
    EpochsExact(h.value.leaseCount, h.rest);
    var epochs := ParseEpochs(h.value.leaseCount, h.rest);
    CommittedExact(sem, h.value, epochs.value, epochs.rest);
  }

  /** Every byte string the decoder accepts with the current statistics schema is re-encoded to the same
      bytes: a manifest has exactly one encoding. */
  lemma ManifestCanonical(sem: Semantics, b: seq<byte>, limit: u64)
    requires DecodeManifest(sem, b, limit).Some?
    requires DecodeManifest(sem, b, limit).value.identity.statsSchema == STATS_SCHEMA
    ensures EncodeManifest(sem, DecodeManifest(sem, b, limit).value) == Some(b)
  {
    hide ParseManifest, OpenEnvelope, MakeEnvelope, CanonicalManifest, ConsistentState;
    var payload := OpenEnvelope(b, MANIFEST_MAGIC, limit).value;
    ManifestExact(sem, payload);
    MakeOfOpen(b, MANIFEST_MAGIC, limit);
  }

  /** The schema hypothesis is exact: of what the decoder accepts, the encoder reproduces the bytes if and
      only if the schema is the current one. */
  lemma ReencodesIffCurrentSchema(sem: Semantics, b: seq<byte>, limit: u64)
    requires DecodeManifest(sem, b, limit).Some?
    ensures EncodeManifest(sem, DecodeManifest(sem, b, limit).value) == Some(b) <==>
            DecodeManifest(sem, b, limit).value.identity.statsSchema == STATS_SCHEMA
  {
    hide ParseManifest, OpenEnvelope, MakeEnvelope, CanonicalManifest, ManifestPayload;
    if DecodeManifest(sem, b, limit).value.identity.statsSchema == STATS_SCHEMA {
      ManifestCanonical(sem, b, limit);
    }
  }

  /** And foreign schemas do occur: a manifest with another schema decodes and cannot be encoded. */
  lemma ForeignSchemaDecodes(sem: Semantics, m: RunManifest, schema: u32, limit: u64)
    requires Decodable(sem, m) && schema != STATS_SCHEMA && limit >= 256
    requires var f := m.(identity := m.identity.(statsSchema := schema));
      |MakeEnvelope(MANIFEST_MAGIC, ManifestPayload(f))| <= limit
    ensures var f := m.(identity := m.identity.(statsSchema := schema));
      && DecodeManifest(sem, MakeEnvelope(MANIFEST_MAGIC, ManifestPayload(f)), limit) == Some(f)
      && EncodeManifest(sem, f).None?
  {
    DecodesPayload(sem, m.(identity := m.identity.(statsSchema := schema)), limit);
  }
}
