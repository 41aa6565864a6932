/** The imperative side of the codec (src/persistence_codec.cpp): the Reader that advances an offset, the
    appenders that grow a byte vector, and the loops of encode_manifest and decode_manifest, each equal to
    the parser or serializer of the same name. */
module CodecLoops {
  import opened Types
  import opened Words
  import opened Coordinator
  import opened Crc32c
  import opened Codec
  import opened RecordCodec
  import opened ManifestCodec

  // ---------------------------------------------------------------- appenders

  /** append_u8, append_u32 and append_u64: the low-order bytes, shifted out one by one. */
  method AppendLE(bytes: seq<byte>, value: nat, width: nat) returns (r: seq<byte>)
    ensures r == bytes + LE(value, width)
  {
    r := bytes;
    var shifted := value;
    for index := 0 to width
      invariant r + LE(shifted, width - index) == bytes + LE(value, width)
    {
      ghost var rest := LE(shifted / 0x100, width - index - 1);
      assert r + ([shifted % 0x100] + rest) == (r + [shifted % 0x100]) + rest;
      r := r + [shifted % 0x100];
      shifted := shifted / 0x100;
    }
  }

  // ---------------------------------------------------------------- the reader

  /** A read agrees with a parser: same value and same remaining bytes, or both refuse. */
  ghost predicate Agrees<T>(r: Result<T>, p: Parsed<T>, rest: seq<byte>)
  {
    if p.Got? then r == Ok(p.value) && rest == p.rest else r.Err?
  }

  lemma {:induction false} FromLESnoc(s: seq<byte>, b: byte)
    ensures FromLE(s + [b]) == FromLE(s) + b * Pow2(8 * |s|)
    decreases |s|
  {
    if s == [] {
      assert [b][1..] == [];
    } else {
      FromLESnoc(s[1..], b);
      Pow2Byte(8 * |s[1..]|);
      assert (s + [b])[1..] == s[1..] + [b];
      assert 0x100 * (b * Pow2(8 * |s[1..]|)) == b * Pow2(8 * |s|);
    }
  }

  class Reader {
    const bytes: seq<byte>
    var offset: nat

    ghost predicate Valid()
      reads this
    {
      offset <= |bytes|
    }

    ghost function Rest(): seq<byte>
      requires Valid()
      reads this
    {
      bytes[offset..]
    }

    constructor (bytes: seq<byte>)
      ensures Valid() && offset == 0 && Rest() == bytes && this.bytes == bytes
    {
      this.bytes := bytes;
      offset := 0;
    }

    method Remaining() returns (n: nat)
      requires Valid()
      ensures n == |Rest()|
    {
      n := |bytes| - offset;
    }

    /** The shift-and-or loop of u32 and u64. */
    method Number(width: nat) returns (r: Result<nat>)
      requires Valid()
      modifies this`offset
      ensures Valid()
      ensures r.Ok? <==> |old(Rest())| >= width
      ensures r.Ok? ==> r.value == FromLE(old(Rest())[..width]) && Rest() == old(Rest())[width..]
    {
      if width > |bytes| - offset {
        return Err("durable payload is truncated");
      }
      var start := offset;
      var value := 0;
      for index := 0 to width
        invariant offset == start + index <= |bytes|
        invariant value == FromLE(bytes[start..offset])
      {
        FromLESnoc(bytes[start..offset], bytes[offset]);
        assert bytes[start..offset + 1] == bytes[start..offset] + [bytes[offset]];
        value := value + bytes[offset] * Pow2(8 * index);
        offset := offset + 1;
      }
      assert bytes[start..][..width] == bytes[start..start + width];
      return Ok(value);
    }

    method U8() returns (r: Result<byte>)
      requires Valid()
      modifies this`offset
      ensures Valid() && Agrees(r, Codec.U8(old(Rest())), Rest())
    {
      if 1 > |bytes| - offset {
        return Err("durable payload is truncated");
      }
      offset := offset + 1;
      return Ok(bytes[offset - 1]);
    }

    method U32() returns (r: Result<u32>)
      requires Valid()
      modifies this`offset
      ensures Valid() && Agrees(r, Codec.U32(old(Rest())), Rest())
    {
      var v :- Number(4);
      FromLEBound(old(Rest())[..4]);
      Pow2Values();
      return Ok(v);
    }

    method U64() returns (r: Result<u64>)
      requires Valid()
      modifies this`offset
      ensures Valid() && Agrees(r, Codec.U64(old(Rest())), Rest())
    {
      var v :- Number(8);
      FromLEBound(old(Rest())[..8]);
      Pow2Values();
      return Ok(v);
    }

    method ByteVector(size: nat) returns (r: Result<seq<byte>>)
      requires Valid()
      modifies this`offset
      ensures Valid() && Agrees(r, Raw(old(Rest()), size), Rest())
    {
      if size > |bytes| - offset {
        return Err("durable payload is truncated");
      }
      assert bytes[offset..][..size] == bytes[offset..offset + size];
      offset := offset + size;
      return Ok(bytes[offset - size..offset]);
    }

    method ReadDigest() returns (r: Result<Digest>)
      requires Valid()
      modifies this`offset
      ensures Valid() && Agrees(r, DigestOf(old(Rest())), Rest())
    {
      if 32 > |bytes| - offset {
        return Err("durable payload is truncated");
      }
      assert bytes[offset..][..32] == bytes[offset..offset + 32];
      offset := offset + 32;
      return Ok(bytes[offset - 32..offset]);
    }

    method Finish() returns (r: Result<()>)
      requires Valid()
      ensures r.Ok? <==> Rest() == []
    {
      return if offset == |bytes| then Ok(()) else Err("durable payload has trailing bytes");
    }
  }

  // ---------------------------------------------------------------- decode_manifest

  method ReadIds(reader: Reader) returns (r: Result<Ids>)
    requires reader.Valid()
    modifies reader`offset
    ensures reader.Valid() && Agrees(r, ParseIds(old(reader.Rest())), reader.Rest())
  {
    hide DigestOf;
    var runId :- reader.ReadDigest();
    var spec :- reader.ReadDigest();
    var layout :- reader.ReadDigest();
    var build :- reader.ReadDigest();
    return Ok(Ids(runId, spec, layout, build));
  }

  method ReadReserved(reader: Reader) returns (r: Result<()>)
    requires reader.Valid()
    modifies reader`offset
    ensures reader.Valid()
    ensures var p := Raw(old(reader.Rest()), 7);
      if p.Got? && p.value == RESERVED then r.Ok? && reader.Rest() == p.rest else r.Err?
  {
    ghost var all := reader.Rest();
    for index := 0 to 7
      invariant reader.Valid() && index <= |all| && reader.Rest() == all[index..]
      invariant forall i :: 0 <= i < index ==> all[i] == 0
    {
      var b :- reader.U8();
      assert b == all[index];
      if b != 0 {
        assert |all| >= 7 ==> all[..7][index] != RESERVED[index];
        return Err("manifest reserved status bytes are nonzero");
      }
    }
    assert all[..7] == RESERVED;
    return Ok(());
  }

  method ReadHeader(reader: Reader) returns (r: Result<Header>)
    requires reader.Valid()
    modifies reader`offset
    ensures reader.Valid() && Agrees(r, ParseHeader(old(reader.Rest())), reader.Rest())
  {
    hide Codec.U8, Codec.U32, Codec.U64, Raw, ParseIds;
    var ids :- ReadIds(reader);
    var sequence :- reader.U64();
    var code :- reader.U8();
    var status := RunStatusOf(code);
    if status.None? {
      return Err("persisted manifest has an unknown run status");
    }
    var _ :- ReadReserved(reader);
    var incarnation :- reader.U64();
    var rng :- reader.U64();
    var schema :- reader.U32();
    var zero :- reader.U32();
    if zero != 0 {
      return Err("manifest reserved schema field is nonzero");
    }
    var blocks :- reader.U64();
    var leases :- reader.U64();
    return Ok(Header(ids, sequence, status.value, incarnation, rng, schema, blocks, leases));
  }

  /** What remains to be read completes what has been read. */
  ghost function Prepend<T>(done: seq<T>, p: Parsed<seq<T>>): Parsed<seq<T>>
  {
    if p.Bad? then Bad else Got(done + p.value, p.rest)
  }

  lemma PrependNone<T>(p: Parsed<seq<T>>)
    ensures Prepend([], p) == p
  {
    if p.Got? {
      assert [] + p.value == p.value;
    }
  }

  lemma PrependOne<T>(done: seq<T>, x: T, p: Parsed<seq<T>>)
    ensures Prepend(done, Prepend([x], p)) == Prepend(done + [x], p)
  {
    if p.Got? {
      assert done + ([x] + p.value) == done + [x] + p.value;
    }
  }

  method ReadEpochs(reader: Reader, count: nat) returns (r: Result<seq<u64>>)
    requires reader.Valid()
    modifies reader`offset
    ensures reader.Valid() && Agrees(r, ParseEpochs(count, old(reader.Rest())), reader.Rest())
  {
    hide Codec.U64;
    var epochs: seq<u64> := [];
    PrependNone(ParseEpochs(count, reader.Rest()));
    for index := 0 to count
      invariant reader.Valid()
      invariant Prepend(epochs, ParseEpochs(count - index, reader.Rest())) ==
                ParseEpochs(count, old(reader.Rest()))
    {
      ghost var b := reader.Rest();
      var epoch :- reader.U64();
      if epoch == 0 {
        return Err("manifest contains a zero lease epoch");
      }
      assert ParseEpochs(count - index, b) == Prepend([epoch], ParseEpochs(count - index - 1, reader.Rest()));
      PrependOne(epochs, epoch, ParseEpochs(count - index - 1, reader.Rest()));
      epochs := epochs + [epoch];
    }
    assert epochs + [] == epochs;
    return Ok(epochs);
  }

  method ReadEntry(reader: Reader) returns (r: Result<ManifestEntry>)
    requires reader.Valid()
    modifies reader`offset
    ensures reader.Valid() && Agrees(r, ParseEntry(old(reader.Rest())), reader.Rest())
  {
    hide Codec.U64, DigestOf;
    var id :- reader.U64();
    var incarnation :- reader.U64();
    var epoch :- reader.U64();
    var checksum :- reader.ReadDigest();
    return Ok(ManifestEntry(id, incarnation, epoch, checksum));
  }

  method ReadEntries(reader: Reader, count: nat, incarnation: u64, epochs: seq<u64>)
    returns (r: Result<seq<ManifestEntry>>)
    requires reader.Valid()
    modifies reader`offset
    ensures reader.Valid()
    ensures Agrees(r, ParseEntries(count, None, incarnation, epochs, old(reader.Rest())), reader.Rest())
  {
    hide ParseEntry, CanonicalEntry;
    var entries: seq<ManifestEntry> := [];
    var previous: Option<u64> := None;
    PrependNone(ParseEntries(count, None, incarnation, epochs, reader.Rest()));
    for index := 0 to count
      invariant reader.Valid()
      invariant Prepend(entries, ParseEntries(count - index, previous, incarnation, epochs, reader.Rest())) ==
                ParseEntries(count, None, incarnation, epochs, old(reader.Rest()))
    {
      ghost var b := reader.Rest();
      var e :- ReadEntry(reader);
      if !CanonicalEntry(e, incarnation, epochs) || (previous.Some? && e.blockId <= previous.value) {
        return Err("manifest entries are not canonical");
      }
      ghost var more := ParseEntries(count - index - 1, Some(e.blockId), incarnation, epochs, reader.Rest());
      assert ParseEntries(count - index, previous, incarnation, epochs, b) == Prepend([e], more);
      PrependOne(entries, e, more);
      entries := entries + [e];
      previous := Some(e.blockId);
    }
    assert entries + [] == entries;
    return Ok(entries);
  }

  /** decode_aggregate_payload: a reader of its own over the length-prefixed bytes. */
  method ReadAggregate(sem: Semantics, reader: Reader, schema: u32) returns (r: Result<AggregateStats>)
    requires reader.Valid()
    modifies reader`offset
    ensures reader.Valid() && Agrees(r, ParseBlob(sem, old(reader.Rest()), schema), reader.Rest())
  {
    hide Codec.U32, Codec.U64, Raw;
    var size :- reader.U32();
    var raw :- reader.ByteVector(size);
    var a := DecodeAggregate(raw, schema);
    if a.Err? || !sem.wellFormed(a.value) {
      return Err("invalid persisted aggregate");
    }
    return a;
  }

  method ReadFields(reader: Reader, schema: u32) returns (r: Result<AggregateStats>)
    requires reader.Valid()
    modifies reader`offset
    ensures reader.Valid() && Agrees(r, ParseFields(old(reader.Rest()), schema), reader.Rest())
  {
    hide Codec.U32, Codec.U64;
    var tag :- reader.U32();
    if tag != AGGREGATE_TAG {
      return Err("persisted aggregate schema mismatch");
    }
    var found :- reader.U32();
    if found != schema {
      return Err("persisted aggregate schema mismatch");
    }
    var n :- reader.U64();
    var mean :- reader.U64();
    var m2 :- reader.U64();
    var min :- reader.U64();
    var max :- reader.U64();
    return Ok(AggregateStats(n, mean, m2, min, max));
  }

  method DecodeAggregate(bytes: seq<byte>, schema: u32) returns (r: Result<AggregateStats>)
    ensures r.Ok? <==> ParseAggregate(bytes, schema).Some?
    ensures r.Ok? ==> r.value == ParseAggregate(bytes, schema).value
  {
    hide ParseFields;
    var reader := new Reader(bytes);
    r := ReadFields(reader, schema);
    if r.Ok? {
      var end := reader.Finish();
      if end.Err? {
        r := Err(end.reason);
      }
    }
  }

  method ReadFailure(reader: Reader) returns (r: Result<Option<FailureRecord>>)
    requires reader.Valid()
    modifies reader`offset
    ensures reader.Valid() && Agrees(r, ParseFailure(old(reader.Rest())), reader.Rest())
  {
    hide Codec.U8, Codec.U32, Codec.U64, Raw, DigestOf;
    var flag :- reader.U8();
    if flag > 1 {
      return Err("manifest failure flag is invalid");
    }
    if flag == 0 {
      return Ok(None);
    }
    var code :- reader.U32();
    var status := StatusOf(code);
    if status.None? {
      return Err("persisted failure has an unknown status code");
    }
    var id :- reader.U64();
    var incarnation :- reader.U64();
    var epoch :- reader.U64();
    var observed :- reader.ReadDigest();
    var committed :- reader.ReadDigest();
    var size :- reader.U32();
    if size > MAX_REASON_BYTES {
      return Err("durable string exceeds its schema limit");
    }
    var reason :- reader.ByteVector(size);
    return Ok(Some(FailureRecord(status.value, id, incarnation, epoch, observed, committed, reason)));
  }

  /** The committed table, the aggregate and the failure details. */
  method ReadCommitted(sem: Semantics, reader: Reader, h: Header, epochs: seq<u64>)
    returns (r: Result<RunManifest>)
    requires reader.Valid()
    modifies reader`offset
    ensures reader.Valid()
    ensures Agrees(r, ParseCommitted(sem, h, epochs, old(reader.Rest())), reader.Rest())
  {
    hide ParseEntries, ParseBlob, ParseFailure, Codec.U64;
    var count :- reader.U64();
    var left := reader.Remaining();
    if count > h.blockCount || count > left / 56 {
      return Err("manifest committed table size is invalid");
    }
    var entries :- ReadEntries(reader, count, h.incarnation, epochs);
    var aggregate :- ReadAggregate(sem, reader, h.schema);
    var failure :- ReadFailure(reader);
    return Ok(RunManifest(h.ids.runId, IdentityOf(h.ids, h.rng, h.schema), h.sequence, h.status,
                          h.incarnation, h.blockCount, epochs, entries, aggregate, failure));
  }

  method ReadTables(sem: Semantics, reader: Reader) returns (r: Result<RunManifest>)
    requires reader.Valid()
    modifies reader`offset
    ensures reader.Valid() && Agrees(r, ParseManifest(sem, old(reader.Rest())), reader.Rest())
  {
    hide ParseHeader, ParseEpochs, ParseCommitted;
    var h :- ReadHeader(reader);
    var left := reader.Remaining();
    if h.blockCount == 0 || h.leaseCount != h.blockCount || h.leaseCount > left / 8 {
      return Err("manifest lease table size is invalid");
    }
    var epochs :- ReadEpochs(reader, h.leaseCount);
    r := ReadCommitted(sem, reader, h, epochs);
  }

  lemma SealField(b: seq<byte>)
    requires |b| >= 4
    ensures Sealed(b) <==> FromLE(b[|b| - 4..]) == Checksum(b[..|b| - 4])
  {
    hide Checksum;
    LEOfFromLE(b[|b| - 4..]);
    Pow2Values();
    FromLEOfLE(Checksum(b[..|b| - 4]), 4);
  }

  /** The reads of open_envelope: schema, payload length, and the stored checksum at the end. */
  method ReadFrame(reader: Reader, limit: u64) returns (r: Result<u32>)
    requires reader.offset == 0 && |reader.bytes| >= 24
    modifies reader`offset
    ensures var b := reader.bytes;
      && (r.Ok? <==> Codec.U32(b[8..]).value == STORAGE_SCHEMA &&
                     Codec.U64(b[12..]).value <= limit && Codec.U64(b[12..]).value == |b| - 24)
      && (r.Ok? ==> r.value == FromLE(b[|b| - 4..]))
  {
    EnvelopeParts(reader.bytes);
    hide FromLE, Codec.U64;
    // the caller has checked the size, so none of these reads is short
    var _ := reader.ByteVector(8);
    var schema := reader.U32();
    if schema.value != STORAGE_SCHEMA {
      return Err("unsupported durable storage schema version");
    }
    var size := reader.U64();
    if size.value > limit || size.value != |reader.bytes| - 24 {
      return Err("durable envelope payload length mismatch");
    }
    var _ := reader.ByteVector(size.value);
    assert reader.Rest() == reader.bytes[|reader.bytes| - 4..];
    assert reader.Rest()[..4] == reader.Rest();
    r := reader.U32();
  }

  /** open_envelope. */
  method OpenEnvelopeBytes(table: seq<Word>, bytes: seq<byte>, magic: seq<byte>, limit: u64)
    returns (r: Result<seq<byte>>)
    requires IsTable(table) && |magic| == 8
    ensures r.Ok? <==> OpenEnvelope(bytes, magic, limit).Some?
    ensures r.Ok? ==> r.value == OpenEnvelope(bytes, magic, limit).value
  {
    hide Steps, Sealed, FromLE, IsTable, Codec.U32, Codec.U64;
    if |bytes| < 24 || |bytes| > limit {
      return Err("durable envelope size is invalid");
    }
    if bytes[..8] != magic {
      return Err("durable envelope magic mismatch");
    }
    var reader := new Reader(bytes);
    var stored := ReadFrame(reader, limit);
    if stored.Err? {
      return Err(stored.reason);
    }
    var crc := Crc32cRange(table, bytes[..|bytes| - 4]);
    SealField(bytes);
    if stored.value != Value(crc) {
      return Err("durable envelope CRC32C mismatch");
    }
    return Ok(bytes[20..|bytes| - 4]);
  }

  /** decode_manifest. */
  method DecodeManifestBytes(table: seq<Word>, sem: Semantics, bytes: seq<byte>, limit: u64)
    returns (r: Result<RunManifest>)
    requires IsTable(table)
    ensures r.Ok? <==> DecodeManifest(sem, bytes, limit).Some?
    ensures r.Ok? ==> r.value == DecodeManifest(sem, bytes, limit).value
  {
    hide ParseManifest, ConsistentState, OpenEnvelope;
    if limit < MIN_MANIFEST_LIMIT {
      return Err("max_manifest_bytes is outside host limits");
    }
    var payload := OpenEnvelopeBytes(table, bytes, MANIFEST_MAGIC, limit);
    if payload.Err? {
      return Err(payload.reason);
    }
    var reader := new Reader(payload.value);
    r := ReadTables(sem, reader);
    if r.Ok? {
      var end := reader.Finish();
      if end.Err? {
        r := Err(end.reason);
      } else if !ConsistentState(r.value) {
        r := Err("manifest run state is inconsistent");
      }
    }
  }

  // ---------------------------------------------------------------- encode_manifest

  lemma Regroup(a: seq<byte>, b: seq<byte>, c: seq<byte>)
    ensures a + (b + c) == (a + b) + c
  {
  }

  /** Each writer appends exactly what the serializer of the same name puts in front of what follows. */
  method WriteNumber(bytes: seq<byte>, value: nat, width: nat, ghost tail: seq<byte>)
    returns (r: seq<byte>)
    ensures r + tail == bytes + (LE(value, width) + tail)
  {
    r := AppendLE(bytes, value, width);
    Regroup(bytes, LE(value, width), tail);
  }

  method WriteRaw(bytes: seq<byte>, raw: seq<byte>, ghost tail: seq<byte>) returns (r: seq<byte>)
    ensures r + tail == bytes + (raw + tail)
  {
    r := bytes + raw;
    Regroup(bytes, raw, tail);
  }

  method WriteHeader(bytes: seq<byte>, h: Header, ghost tail: seq<byte>) returns (r: seq<byte>)
    ensures r + tail == bytes + PutHeader(h, tail)
  {
    hide LE;
    ghost var t10 := LE(h.leaseCount, 8) + tail;
    ghost var t9 := LE(h.blockCount, 8) + t10;
    ghost var t8 := LE(0, 4) + t9;
    ghost var t7 := LE(h.schema, 4) + t8;
    ghost var t6 := LE(h.rng, 8) + t7;
    ghost var t5 := LE(h.incarnation, 8) + t6;
    ghost var t4 := [RunStatusCode(h.status)] + (RESERVED + t5);
    ghost var t3 := LE(h.sequence, 8) + t4;
    ghost var t2 := h.ids.layout + (h.ids.build + t3);
    r := WriteRaw(bytes, h.ids.runId, h.ids.spec + t2);
    r := WriteRaw(r, h.ids.spec, t2);
    r := WriteRaw(r, h.ids.layout, h.ids.build + t3);
    r := WriteRaw(r, h.ids.build, t3);
    r := WriteNumber(r, h.sequence, 8, t4);
    r := WriteRaw(r, [RunStatusCode(h.status)], RESERVED + t5);
    r := WriteRaw(r, RESERVED, t5);
    r := WriteNumber(r, h.incarnation, 8, t6);
    r := WriteNumber(r, h.rng, 8, t7);
    r := WriteNumber(r, h.schema, 4, t8);
    r := WriteNumber(r, 0, 4, t9);
    r := WriteNumber(r, h.blockCount, 8, t10);
    r := WriteNumber(r, h.leaseCount, 8, tail);
  }

  method WriteEpochs(bytes: seq<byte>, epochs: seq<u64>, ghost tail: seq<byte>) returns (r: seq<byte>)
    ensures r + tail == bytes + PutEpochs(epochs, tail)
  {
    hide LE;
    r := bytes;
    for i := 0 to |epochs|
      invariant r + PutEpochs(epochs[i..], tail) == bytes + PutEpochs(epochs, tail)
    {
      assert epochs[i..][1..] == epochs[i + 1..];
      r := WriteNumber(r, epochs[i], 8, PutEpochs(epochs[i + 1..], tail));
    }
  }

  method WriteEntry(bytes: seq<byte>, e: ManifestEntry, ghost tail: seq<byte>) returns (r: seq<byte>)
    ensures r + tail == bytes + PutEntry(e, tail)
  {
    hide LE;
    ghost var t1 := LE(e.epoch, 8) + (e.checksum + tail);
    r := WriteNumber(bytes, e.blockId, 8, LE(e.incarnation, 8) + t1);
    r := WriteNumber(r, e.incarnation, 8, t1);
    r := WriteNumber(r, e.epoch, 8, e.checksum + tail);
    r := WriteRaw(r, e.checksum, tail);
  }

  method WriteEntries(bytes: seq<byte>, es: seq<ManifestEntry>, ghost tail: seq<byte>)
    returns (r: seq<byte>)
    ensures r + tail == bytes + PutEntries(es, tail)
  {
    hide PutEntry;
    r := bytes;
    for i := 0 to |es|
      invariant r + PutEntries(es[i..], tail) == bytes + PutEntries(es, tail)
    {
      assert es[i..][1..] == es[i + 1..];
      r := WriteEntry(r, es[i], PutEntries(es[i + 1..], tail));
    }
  }

  /** encode_aggregate_payload. */
  method EncodeAggregate(a: AggregateStats, schema: u32) returns (r: seq<byte>)
    ensures r == AggregatePayload(a, schema)
  {
    hide LE;
    ghost var t6 := LE(a.max, 8) + [];
    ghost var t5 := LE(a.min, 8) + t6;
    ghost var t4 := LE(a.m2, 8) + t5;
    ghost var t3 := LE(a.mean, 8) + t4;
    ghost var t2 := LE(a.n, 8) + t3;
    ghost var t1 := LE(schema, 4) + t2;
    r := WriteNumber([], AGGREGATE_TAG, 4, t1);
    r := WriteNumber(r, schema, 4, t2);
    r := WriteNumber(r, a.n, 8, t3);
    r := WriteNumber(r, a.mean, 8, t4);
    r := WriteNumber(r, a.m2, 8, t5);
    r := WriteNumber(r, a.min, 8, t6);
    r := WriteNumber(r, a.max, 8, []);
    assert r == r + [] == [] + AggregatePayload(a, schema);
  }

  method WriteFailure(bytes: seq<byte>, failure: Option<FailureRecord>, ghost tail: seq<byte>)
    returns (r: seq<byte>)
    ensures r + tail == bytes + PutFailure(failure, tail)
  {
    hide LE;
    if failure.None? {
      r := WriteRaw(bytes, [0], tail);
      return;
    }
    var f := failure.value;
    ghost var t6 := LE(|f.reason|, 4) + (f.reason + tail);
    ghost var t5 := f.committed + t6;
    ghost var t4 := f.observed + t5;
    ghost var t3 := LE(f.epoch, 8) + t4;
    ghost var t2 := LE(f.incarnation, 8) + t3;
    ghost var t1 := LE(f.blockId, 8) + t2;
    r := WriteRaw(bytes, [1], LE(StatusCode(f.status), 4) + t1);
    r := WriteNumber(r, StatusCode(f.status), 4, t1);
    r := WriteNumber(r, f.blockId, 8, t2);
    r := WriteNumber(r, f.incarnation, 8, t3);
    r := WriteNumber(r, f.epoch, 8, t4);
    r := WriteRaw(r, f.observed, t5);
    r := WriteRaw(r, f.committed, t6);
    r := WriteNumber(r, |f.reason|, 4, f.reason + tail);
    r := WriteRaw(r, f.reason, tail);
  }

  method WritePayload(m: RunManifest) returns (r: seq<byte>)
    requires |m.epochs| <= U64_MAX
    ensures r == ManifestPayload(m)
  {
    hide LE, PutHeader, PutEpochs, PutEntries, PutFailure, AggregatePayload;
    var schema := m.identity.statsSchema;
    ghost var t4 := PutFailure(m.failure, []);
    ghost var t3 := AggregatePayload(m.aggregate, schema) + t4;
    ghost var t2 := LE(AGGREGATE_BYTES, 4) + t3;
    ghost var t1 := PutEntries(m.committed, t2);
    r := WriteHeader([], HeaderOf(m), PutEpochs(m.epochs, LE(|m.committed|, 8) + t1));
    r := WriteEpochs(r, m.epochs, LE(|m.committed|, 8) + t1);
    r := WriteNumber(r, |m.committed|, 8, t1);
    r := WriteEntries(r, m.committed, t2);
    var aggregate := EncodeAggregate(m.aggregate, schema);
    r := WriteNumber(r, |aggregate|, 4, t3);
    r := WriteRaw(r, aggregate, t4);
    r := WriteFailure(r, m.failure, []);
    assert r == r + [] == [] + ManifestPayload(m);
  }

  /** The entry loop of encode_manifest: neighbours are compared, all pairs follow. */
  method CheckEntries(es: seq<ManifestEntry>, incarnation: u64, epochs: seq<u64>) returns (ok: bool)
    ensures ok <==> StrictlyIncreasing(es) && forall e :: e in es ==> CanonicalEntry(e, incarnation, epochs)
  {
    hide CanonicalEntry;
    var previous: Option<u64> := None;
    for i := 0 to |es|
      invariant previous == if i == 0 then None else Some(es[i - 1].blockId)
      invariant forall k :: 0 <= k < i ==> CanonicalEntry(es[k], incarnation, epochs)
      invariant forall j, k :: 0 <= j < k < i ==> es[j].blockId < es[k].blockId
    {
      if !CanonicalEntry(es[i], incarnation, epochs) || (previous.Some? && es[i].blockId <= previous.value) {
        return false;
      }
      previous := Some(es[i].blockId);
    }
    return true;
  }

  method CheckEpochs(epochs: seq<u64>) returns (ok: bool)
    ensures ok <==> forall i :: 0 <= i < |epochs| ==> epochs[i] != 0
  {
    for i := 0 to |epochs|
      invariant forall k :: 0 <= k < i ==> epochs[k] != 0
    {
      if epochs[i] == 0 {
        return false;
      }
    }
    return true;
  }

  /** The checks of encode_manifest and of the appenders it calls. */
  method CheckManifest(sem: Semantics, m: RunManifest) returns (r: Result<()>)
    ensures r.Ok? <==> Encodable(sem, m)
  {
    hide CanonicalEntry, StrictlyIncreasing;
    if m.incarnation == 0 || m.blockCount == 0 || |m.epochs| != m.blockCount {
      return Err("manifest block/lease universe is invalid");
    }
    var epochsOk := CheckEpochs(m.epochs);
    if !epochsOk {
      return Err("manifest contains a zero lease epoch");
    }
    if (m.status == Failed) != m.failure.Some? {
      return Err("manifest failure details do not match its status");
    }
    if m.status == Complete && |m.committed| != m.blockCount {
      return Err("complete manifest is missing committed blocks");
    }
    var entriesOk := CheckEntries(m.committed, m.incarnation, m.epochs);
    if !entriesOk {
      return Err("manifest entries are not canonical");
    }
    if !sem.wellFormed(m.aggregate) || m.identity.statsSchema != STATS_SCHEMA {
      return Err("manifest aggregate is invalid");
    }
    if m.failure.Some? && |m.failure.value.reason| > MAX_REASON_BYTES {
      return Err("durable string exceeds its schema limit");
    }
    return Ok(());
  }

  /** encode_manifest. */
  method EncodeManifestBytes(table: seq<Word>, sem: Semantics, m: RunManifest) returns (r: Result<seq<byte>>)
    requires IsTable(table)
    ensures r.Ok? <==> EncodeManifest(sem, m).Some?
    ensures r.Ok? ==> r.value == EncodeManifest(sem, m).value
  {
    hide ManifestPayload, MakeEnvelope, IsTable;
    var check := CheckManifest(sem, m);
    if check.Err? {
      return Err(check.reason);
    }
    var payload := WritePayload(m);
    var bytes := MakeEnvelopeBytes(table, MANIFEST_MAGIC, payload);
    return Ok(bytes);
  }

  /** make_envelope. */
  method MakeEnvelopeBytes(table: seq<Word>, magic: seq<byte>, payload: seq<byte>) returns (r: seq<byte>)
    requires IsTable(table)
    ensures r == MakeEnvelope(magic, payload)
  {
    hide LE, Steps;
    r := AppendLE(magic, STORAGE_SCHEMA, 4);
    r := AppendLE(r, |payload|, 8);
    r := r + payload;
    Regroup(LE(STORAGE_SCHEMA, 4), LE(|payload|, 8), payload);
    Regroup(magic, LE(STORAGE_SCHEMA, 4) + LE(|payload|, 8), payload);
    Regroup(magic, LE(STORAGE_SCHEMA, 4), LE(|payload|, 8));
    assert r == Framed(magic, payload);
    var crc := Crc32cRange(table, r);
    r := AppendLE(r, Value(crc), 4);
  }
}
