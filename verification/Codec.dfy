/** The binary formats of the run store (src/persistence_codec.cpp, src/codec.cpp). Every serializer
    takes the bytes that follow, so that a parser consumes exactly what a serializer put in front. */
module Codec {
  import opened Types
  import opened Words
  import opened Crc32c
  import opened Coordinator

  const STORAGE_SCHEMA := 1
  const STATS_SCHEMA: u32 := 1
  const AGGREGATE_TAG := 1
  const AGGREGATE_BYTES := 48
  const MAX_REASON_BYTES := 4096
  const MAX_BLOCK_RECORD_BYTES := 4096
  const MIN_MANIFEST_LIMIT := 256
  const MANIFEST_MAGIC: seq<byte> := [0x4D, 0x43, 0x52, 0x32, 0x4D, 0x41, 0x4E, 0x5F]
  const BLOCK_MAGIC: seq<byte> := [0x4D, 0x43, 0x52, 0x32, 0x42, 0x4C, 0x4B, 0x5F]
  const RESERVED: seq<byte> := [0, 0, 0, 0, 0, 0, 0]

  datatype Parsed<+T> = Bad | Got(value: T, rest: seq<byte>)

  // ---------------------------------------------------------------- primitive fields

  function U8(b: seq<byte>): Parsed<byte>
  {
    if |b| < 1 then Bad else Got(b[0], b[1..])
  }

  function U32(b: seq<byte>): Parsed<u32>
  {
    if |b| < 4 then Bad
    else
      FromLEBound(b[..4]);
      Pow2Values();
      Got(FromLE(b[..4]), b[4..])
  }

  function U64(b: seq<byte>): Parsed<u64>
  {
    if |b| < 8 then Bad
    else
      FromLEBound(b[..8]);
      Pow2Values();
      Got(FromLE(b[..8]), b[8..])
  }

  /** A byte string of known length. */
  function Raw(b: seq<byte>, n: nat): Parsed<seq<byte>>
  {
    if |b| < n then Bad else Got(b[..n], b[n..])
  }

  function DigestOf(b: seq<byte>): Parsed<Digest>
  {
    if |b| < 32 then Bad else Got(b[..32], b[32..])
  }

  lemma U8Field(v: byte, tail: seq<byte>)
    ensures U8([v] + tail) == Got(v, tail)
  {
    assert ([v] + tail)[1..] == tail;
  }

  lemma U32Field(v: u32, tail: seq<byte>)
    ensures U32(LE(v, 4) + tail) == Got(v, tail)
  {
    Pow2Values();
    FromLEOfLE(v, 4);
    assert (LE(v, 4) + tail)[..4] == LE(v, 4) && (LE(v, 4) + tail)[4..] == tail;
  }

  lemma U64Field(v: u64, tail: seq<byte>)
    ensures U64(LE(v, 8) + tail) == Got(v, tail)
  {
    Pow2Values();
    FromLEOfLE(v, 8);
    assert (LE(v, 8) + tail)[..8] == LE(v, 8) && (LE(v, 8) + tail)[8..] == tail;
  }

  lemma RawField(s: seq<byte>, tail: seq<byte>)
    ensures Raw(s + tail, |s|) == Got(s, tail)
  {
    assert (s + tail)[..|s|] == s && (s + tail)[|s|..] == tail;
  }

  lemma DigestField(d: Digest, tail: seq<byte>)
    ensures DigestOf(d + tail) == Got(d, tail)
  {
    assert (d + tail)[..32] == d && (d + tail)[32..] == tail;
  }

  lemma U8Exact(b: seq<byte>)
    ensures U8(b).Got? ==> b == [U8(b).value] + U8(b).rest
  {
  }

  lemma U32Exact(b: seq<byte>)
    ensures U32(b).Got? ==> b == LE(U32(b).value, 4) + U32(b).rest
  {
    if |b| >= 4 {
      LEOfFromLE(b[..4]);
    }
  }

  lemma U64Exact(b: seq<byte>)
    ensures U64(b).Got? ==> b == LE(U64(b).value, 8) + U64(b).rest
  {
    if |b| >= 8 {
      LEOfFromLE(b[..8]);
    }
  }

  lemma RawExact(b: seq<byte>, n: nat)
    ensures Raw(b, n).Got? ==> |Raw(b, n).value| == n && b == Raw(b, n).value + Raw(b, n).rest
  {
  }

  lemma DigestExact(b: seq<byte>)
    ensures DigestOf(b).Got? ==> b == DigestOf(b).value + DigestOf(b).rest
  {
  }

  // ---------------------------------------------------------------- the envelope

  function Framed(magic: seq<byte>, payload: seq<byte>): seq<byte>
  {
    magic + (LE(STORAGE_SCHEMA, 4) + (LE(|payload|, 8) + payload))
  }

  function MakeEnvelope(magic: seq<byte>, payload: seq<byte>): (b: seq<byte>)
    ensures |magic| == 8 ==> |b| == |payload| + 24
  {
    var body := Framed(magic, payload);
    body + LE(Checksum(body), 4)
  }

  function OpenEnvelope(b: seq<byte>, magic: seq<byte>, limit: u64): Option<seq<byte>>
    requires |magic| == 8
  {
    if |b| < 24 || |b| > limit || b[..8] != magic then None
    else if U32(b[8..]).value != STORAGE_SCHEMA then None
    else if U64(b[12..]).value > limit || U64(b[12..]).value != |b| - 24 then None
    else if !Sealed(b) then None
    else Some(b[20..|b| - 4])
  }

  lemma FramedSlices(magic: seq<byte>, payload: seq<byte>, crc: seq<byte>)
    requires |magic| == 8 && |crc| == 4
    ensures var b := Framed(magic, payload) + crc;
      && |b| == |payload| + 24 && b[..8] == magic
      && b[8..] == LE(STORAGE_SCHEMA, 4) + (LE(|payload|, 8) + (payload + crc))
      && b[12..] == LE(|payload|, 8) + (payload + crc)
      && b[20..|b| - 4] == payload && b[|b| - 4..] == crc && b[..|b| - 4] == Framed(magic, payload)
  {
    hide LE;
    var b := Framed(magic, payload) + crc;
    assert b == magic + (LE(STORAGE_SCHEMA, 4) + (LE(|payload|, 8) + (payload + crc)));
  }

  lemma OpenOfMake(magic: seq<byte>, payload: seq<byte>, limit: u64)
    requires |magic| == 8 && |payload| + 24 <= limit
    ensures OpenEnvelope(MakeEnvelope(magic, payload), magic, limit) == Some(payload)
  {
    hide LE, U32, U64, Checksum, Framed;
    var crc := LE(Checksum(Framed(magic, payload)), 4);
    FramedSlices(magic, payload, crc);
    U32Field(STORAGE_SCHEMA, LE(|payload|, 8) + (payload + crc));
    U64Field(|payload|, payload + crc);
  }

  lemma OpenedFits(b: seq<byte>, magic: seq<byte>, limit: u64)
    requires |magic| == 8 && OpenEnvelope(b, magic, limit).Some?
    ensures 24 <= |b| <= limit && |OpenEnvelope(b, magic, limit).value| == |b| - 24
  {
  }

  lemma EnvelopeParts(b: seq<byte>)
    requires |b| >= 24
    ensures U32(b[8..]).Got? && U32(b[8..]).rest == b[12..]
    ensures U64(b[12..]).Got? && U64(b[12..]).rest == b[20..|b| - 4] + b[|b| - 4..]
    ensures b == b[..8] + b[8..]
  {
    assert b[8..][4..] == b[12..] && b[12..][8..] == b[20..];
    assert b[20..] == b[20..|b| - 4] + b[|b| - 4..];
  }

  lemma MakeOfOpen(b: seq<byte>, magic: seq<byte>, limit: u64)
    requires |magic| == 8 && OpenEnvelope(b, magic, limit).Some?
    ensures MakeEnvelope(magic, OpenEnvelope(b, magic, limit).value) == b
  {
    hide LE, U32, U64, Checksum;
    EnvelopeParts(b);
    U32Exact(b[8..]);
    U64Exact(b[12..]);
    var payload, crc := b[20..|b| - 4], b[|b| - 4..];
    var x, y := LE(STORAGE_SCHEMA, 4), LE(|payload|, 8);
    assert b == magic + (x + (y + (payload + crc)));
    assert magic + (x + (y + (payload + crc))) == (magic + (x + (y + payload))) + crc;
    assert b == Framed(magic, payload) + crc;
    assert b[..|b| - 4] == Framed(magic, payload);
  }

  /** Any change inside four consecutive bytes of an accepted envelope, whatever it hits, is rejected. */
  lemma EnvelopeDetectsChange(
    x: seq<byte>, y: seq<byte>, magic: seq<byte>, limit: u64, i: nat, j: nat)
    requires |magic| == 8 && OpenEnvelope(x, magic, limit).Some?
    requires |x| == |y| && x != y && i <= j <= |x| && j - i <= 4 && x[..i] == y[..i] && x[j..] == y[j..]
    ensures OpenEnvelope(y, magic, limit).None?
  {
    hide Sealed, U32, U64;
    ByteChangeDetected(x, y, i, j);
  }

  // ---------------------------------------------------------------- status codes

  function StatusCode(s: ValidationStatus): (c: u32)
    ensures c <= 12
  {
    match s
    case Accepted => 0
    case Duplicate => 1
    case InvalidRun => 2
    case ExecutionLayoutMismatch => 3
    case BuildMismatch => 4
    case StaleIncarnation => 5
    case RngVersionMismatch => 6
    case StatsSchemaMismatch => 7
    case InvalidAggregate => 8
    case CorruptPayload => 9
    case InvalidBlock => 10
    case StaleLease => 11
    case DeterminismError => 12
  }

  function StatusOf(c: u32): Option<ValidationStatus>
  {
    match c
    case 0 => Some(Accepted)
    case 1 => Some(Duplicate)
    case 2 => Some(InvalidRun)
    case 3 => Some(ExecutionLayoutMismatch)
    case 4 => Some(BuildMismatch)
    case 5 => Some(StaleIncarnation)
    case 6 => Some(RngVersionMismatch)
    case 7 => Some(StatsSchemaMismatch)
    case 8 => Some(InvalidAggregate)
    case 9 => Some(CorruptPayload)
    case 10 => Some(InvalidBlock)
    case 11 => Some(StaleLease)
    case 12 => Some(DeterminismError)
    case _ => None
  }

  function RunStatusCode(s: RunStatus): byte
  {
    match s case Running => 1 case Complete => 2 case Failed => 3
  }

  function RunStatusOf(c: byte): Option<RunStatus>
  {
    match c case 1 => Some(Running) case 2 => Some(Complete) case 3 => Some(Failed) case _ => None
  }

  /** The storage codes and the statuses correspond one to one. */
  lemma StatusCodes(s: ValidationStatus, c: u32, t: RunStatus, d: byte)
    ensures StatusOf(c) == Some(s) <==> StatusCode(s) == c
    ensures RunStatusOf(d) == Some(t) <==> RunStatusCode(t) == d
  {
  }

  // ---------------------------------------------------------------- aggregates

  function PutAggregate(a: AggregateStats, schema: u32, tail: seq<byte>): seq<byte>
  {
    LE(AGGREGATE_TAG, 4) + (LE(schema, 4) + (LE(a.n, 8) + (LE(a.mean, 8) + (LE(a.m2, 8) + (
      LE(a.min, 8) + (LE(a.max, 8) + tail))))))
  }

  function AggregatePayload(a: AggregateStats, schema: u32): (s: seq<byte>)
    ensures |s| == AGGREGATE_BYTES
  {
    PutAggregate(a, schema, [])
  }

  function ParseFields(b: seq<byte>, schema: u32): Parsed<AggregateStats>
  {
    var tag := U32(b);
    if tag.Bad? || tag.value != AGGREGATE_TAG then Bad else
    var sch := U32(tag.rest);
    if sch.Bad? || sch.value != schema then Bad else
    var n := U64(sch.rest);
    if n.Bad? then Bad else
    var mean := U64(n.rest);
    if mean.Bad? then Bad else
    var m2 := U64(mean.rest);
    if m2.Bad? then Bad else
    var min := U64(m2.rest);
    if min.Bad? then Bad else
    var max := U64(min.rest);
    if max.Bad? then Bad
    else Got(AggregateStats(n.value, mean.value, m2.value, min.value, max.value), max.rest)
  }

  /** decode_aggregate_payload, apart from the invariant test. */
  function ParseAggregate(b: seq<byte>, schema: u32): Option<AggregateStats>
  {
    var p := ParseFields(b, schema);
    if p.Bad? || p.rest != [] then None else Some(p.value)
  }

  lemma AggregateField(a: AggregateStats, schema: u32)
    ensures ParseAggregate(AggregatePayload(a, schema), schema) == Some(a)
  {
    hide LE, U32, U64;
    var b7 := LE(a.max, 8) + [];
    var b6 := LE(a.min, 8) + b7;
    var b5 := LE(a.m2, 8) + b6;
    var b4 := LE(a.mean, 8) + b5;
    var b3 := LE(a.n, 8) + b4;
    var b2 := LE(schema, 4) + b3;
    U32Field(AGGREGATE_TAG, b2);
    U32Field(schema, b3);
    U64Field(a.n, b4);
    U64Field(a.mean, b5);
    U64Field(a.m2, b6);
    U64Field(a.min, b7);
    U64Field(a.max, []);
  }

  lemma AggregateExact(b: seq<byte>, schema: u32)
    ensures ParseAggregate(b, schema).Some? ==> b == AggregatePayload(ParseAggregate(b, schema).value, schema)
  {
    hide LE, U32, U64;
    if ParseAggregate(b, schema).Some? {
      U32Exact(b);
      var b1 := U32(b).rest;
      U32Exact(b1);
      var b2 := U32(b1).rest;
      U64Exact(b2);
      var b3 := U64(b2).rest;
      U64Exact(b3);
      var b4 := U64(b3).rest;
      U64Exact(b4);
      var b5 := U64(b4).rest;
      U64Exact(b5);
      var b6 := U64(b5).rest;
      U64Exact(b6);
    }
  }

  /** A length-prefixed aggregate inside a larger payload. */
  function PutBlob(a: AggregateStats, schema: u32, tail: seq<byte>): seq<byte>
  {
    LE(AGGREGATE_BYTES, 4) + (AggregatePayload(a, schema) + tail)
  }

  function ParseBlob(sem: Semantics, b: seq<byte>, schema: u32): Parsed<AggregateStats>
  {
    var size := U32(b);
    if size.Bad? then Bad else
    var raw := Raw(size.rest, size.value);
    if raw.Bad? then Bad else
    var a := ParseAggregate(raw.value, schema);
    if a.None? || !sem.wellFormed(a.value) then Bad else Got(a.value, raw.rest)
  }

  lemma BlobField(sem: Semantics, a: AggregateStats, schema: u32, tail: seq<byte>)
    requires sem.wellFormed(a)
    ensures ParseBlob(sem, PutBlob(a, schema, tail), schema) == Got(a, tail)
  {
    hide LE, U32, Raw, ParseAggregate, AggregatePayload;
    U32Field(AGGREGATE_BYTES, AggregatePayload(a, schema) + tail);
    RawField(AggregatePayload(a, schema), tail);
    AggregateField(a, schema);
  }

  lemma BlobExact(sem: Semantics, b: seq<byte>, schema: u32)
    ensures var p := ParseBlob(sem, b, schema);
      p.Got? ==> b == PutBlob(p.value, schema, p.rest) && sem.wellFormed(p.value)
  {
    hide LE, U32, Raw, ParseAggregate, AggregatePayload;
    U32Exact(b);
    if U32(b).Got? {
      RawExact(U32(b).rest, U32(b).value);
      if Raw(U32(b).rest, U32(b).value).Got? {
        AggregateExact(Raw(U32(b).rest, U32(b).value).value, schema);
      }
    }
  }
}
