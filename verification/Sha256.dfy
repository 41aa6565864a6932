/** The streaming SHA-256 hasher of src/hash.cpp around an uninterpreted compression function. */
module Sha256 {
  import opened Types
  import opened Basics
  import opened Words

  /** The eight chaining words. */
  type Chain = s: seq<u32> | |s| == 8 witness [0, 0, 0, 0, 0, 0, 0, 0]

  /** One application of the compression function to a 64-byte block. */
  type Compression = (seq<byte>, Chain) -> Chain

  const INITIAL: Chain := [
    0x6A09E667, 0xBB67AE85, 0x3C6EF372, 0xA54FF53A, 0x510E527F, 0x9B05688C, 0x1F83D9AB, 0x5BE0CD19]

  // ---------------------------------------------------------------- the standard's one-shot form

  /** The k low-order bytes of v, most significant first. */
  function BE(v: nat, k: nat): (s: seq<byte>)
    ensures |s| == k
  {
    if k == 0 then [] else BE(v / 0x100, k - 1) + [v % 0x100]
  }

  function ZeroBytes(n: nat): (s: seq<byte>)
    ensures |s| == n && forall i :: 0 <= i < n ==> s[i] == 0
  {
    seq(n, _ => 0)
  }

  /** The number of zero bytes of section 5.1.1 of FIPS 180-4: the least k that completes a block. */
  function ZeroCount(n: nat): (k: nat)
    ensures k < 64 && (n + 1 + k + 8) % 64 == 0
  {
    (119 - n % 64) % 64
  }

  lemma ZeroCountIsLeast(n: nat, k: nat)
    requires (n + 1 + k + 8) % 64 == 0
    ensures ZeroCount(n) <= k
  {
  }

  function Padding(n: nat): seq<byte>
  {
    [0x80] + ZeroBytes(ZeroCount(n)) + BE(8 * n, 8)
  }

  /** The padded message; the length field holds the bit length modulo 2^64. */
  function Pad(m: seq<byte>): (p: seq<byte>)
    ensures |p| % 64 == 0
  {
    m + Padding(|m|)
  }

  /** The chain over all whole blocks of a message. */
  function Fold(f: Compression, c: Chain, m: seq<byte>): Chain
    decreases |m|
  {
    if |m| < 64 then c else Fold(f, f(m[..64], c), m[64..])
  }

  function Serialize(c: seq<u32>): (s: seq<byte>)
    ensures |s| == 4 * |c|
  {
    if c == [] then [] else BE(c[0], 4) + Serialize(c[1..])
  }

  function Hash(f: Compression, m: seq<byte>): Digest
  {
    Serialize(Fold(f, INITIAL, Pad(m)))
  }

  // ---------------------------------------------------------------- the standard's constants and layout

  /** h is the integer part of 2^32 times the square root of p. */
  predicate IsRoot(h: nat, p: nat)
  {
    h * h <= p * 0x1_0000_0000_0000_0000 < (h + 1) * (h + 1)
  }

  /** w holds the first 32 bits of the fractional part of the square root of p. */
  ghost predicate RootFraction(w: u32, p: nat)
  {
    exists k: nat :: IsRoot(k * 0x1_0000_0000 + w as int, p)
  }

  /** The initial words are those of section 5.3.3 of FIPS 180-4: the first 32 bits of the fractional parts of the
      square roots of the first eight primes. */
  lemma InitialIsSquareRoots()
    ensures RootFraction(INITIAL[0], 2) && RootFraction(INITIAL[1], 3) && RootFraction(INITIAL[2], 5)
    ensures RootFraction(INITIAL[3], 7) && RootFraction(INITIAL[4], 11) && RootFraction(INITIAL[5], 13)
    ensures RootFraction(INITIAL[6], 17) && RootFraction(INITIAL[7], 19)
  {
    assert IsRoot(1 * 0x1_0000_0000 + INITIAL[0] as int, 2) && IsRoot(1 * 0x1_0000_0000 + INITIAL[1] as int, 3);
    assert IsRoot(2 * 0x1_0000_0000 + INITIAL[2] as int, 5) && IsRoot(2 * 0x1_0000_0000 + INITIAL[3] as int, 7);
    assert IsRoot(3 * 0x1_0000_0000 + INITIAL[4] as int, 11) && IsRoot(3 * 0x1_0000_0000 + INITIAL[5] as int, 13);
    assert IsRoot(4 * 0x1_0000_0000 + INITIAL[6] as int, 17) && IsRoot(4 * 0x1_0000_0000 + INITIAL[7] as int, 19);
  }

  lemma BigEndianWord(v: u32)
    ensures var s := BE(v, 4);
      v == 0x100_0000 * (s[0] as int) + 0x1_0000 * (s[1] as int) + 0x100 * (s[2] as int) + s[3]
  {
    var a := v / 0x100;
    var b := a / 0x100;
    var c := b / 0x100;
    assert BE(c, 1) == [c % 0x100] by { assert BE(c / 0x100, 0) == []; }
    assert BE(b, 2) == [c % 0x100, b % 0x100];
    assert BE(a, 3) == [c % 0x100, b % 0x100, a % 0x100];
    assert BE(v, 4) == [c % 0x100, b % 0x100, a % 0x100, v % 0x100];
  }

  /** Each word of the chain is four bytes of the digest, most significant first. */
  lemma {:induction false} DigestIsBigEndian(c: seq<u32>, i: nat)
    requires i < |c|
    ensures var s := Serialize(c);
      c[i] == 0x100_0000 * (s[4 * i] as int) + 0x1_0000 * (s[4 * i + 1] as int)
              + 0x100 * (s[4 * i + 2] as int) + s[4 * i + 3]
    decreases i
  {
    hide BE;
    if i == 0 {
      BigEndianWord(c[0]);
    } else {
      DigestIsBigEndian(c[1..], i - 1);
    }
  }

  /** The padded message is whole blocks: the message, the byte 0x80, fewer than 64 zeros and eight more bytes. */
  lemma PaddedLayout(m: seq<byte>)
    ensures var p := Pad(m);
      && |p| % 64 == 0 && |m| + 9 <= |p| < |m| + 9 + 64
      && p[..|m|] == m && p[|m|] == 0x80
      && (forall i :: |m| < i < |p| - 8 ==> p[i] == 0)
  {
    hide BE;
  }

  /** The hash of at most 55 bytes is one application of the compression function to the initial words. */
  lemma ShortMessage(f: Compression, m: seq<byte>)
    requires |m| <= 55
    ensures |Pad(m)| == 64 && Hash(f, m) == Serialize(f(Pad(m), INITIAL))
  {
    PaddedLayout(m);
    FoldOne(f, INITIAL, Pad(m));
    hide Fold, Padding;
  }

  // ---------------------------------------------------------------- facts about it

  lemma {:induction false} FoldConcat(f: Compression, c: Chain, a: seq<byte>, b: seq<byte>)
    requires |a| % 64 == 0
    ensures Fold(f, c, a + b) == Fold(f, Fold(f, c, a), b)
    decreases |a|
  {
    if a == [] {
      assert a + b == b;
    } else {
      assert (a + b)[..64] == a[..64] && (a + b)[64..] == a[64..] + b;
      FoldConcat(f, f(a[..64], c), a[64..], b);
    }
  }

  /** The largest whole number of blocks in n bytes. */
  function Whole(n: nat): (w: nat)
    ensures w <= n && w % 64 == 0 && n - w == n % 64
  {
    n - n % 64
  }

  lemma FoldIgnoresTail(f: Compression, c: Chain, m: seq<byte>)
    ensures Fold(f, c, m) == Fold(f, c, m[..Whole(|m|)])
  {
    var w := Whole(|m|);
    assert m == m[..w] + m[w..];
    FoldConcat(f, c, m[..w], m[w..]);
  }

  /** Another whole block at the end of whole blocks is one more application. */
  lemma FoldBlock(f: Compression, c: Chain, m: seq<byte>, block: seq<byte>)
    requires |m| % 64 == 0 && |block| == 64
    ensures Fold(f, c, m + block) == f(block, Fold(f, c, m))
  {
    FoldConcat(f, c, m, block);
    assert block[..64] == block && block[64..] == [];
  }

  lemma FoldOne(f: Compression, c: Chain, block: seq<byte>)
    requires |block| == 64
    ensures Fold(f, c, block) == f(block, c)
  {
    assert block[..64] == block && block[64..] == [];
  }

  /** A tail shorter than a block leaves the chain alone. */
  lemma FoldShort(f: Compression, c: Chain, m: seq<byte>, tail: seq<byte>)
    requires |m| % 64 + |tail| < 64
    ensures Fold(f, c, m + tail) == Fold(f, c, m)
  {
    FoldIgnoresTail(f, c, m);
    FoldIgnoresTail(f, c, m + tail);
    assert Whole(|m + tail|) == Whole(|m|);
    assert (m + tail)[..Whole(|m|)] == m[..Whole(|m|)];
  }

  lemma BEStep(v: nat, k: nat)
    requires k > 0
    ensures BE(v, k) == BE(v / 0x100, k - 1) + [v % 0x100]
  {
  }

  lemma AddBytes(v: nat, x: nat)
    ensures (v + 0x100 * x) / 0x100 == v / 0x100 + x && (v + 0x100 * x) % 0x100 == v % 0x100
  {
  }

  lemma {:induction false} BEMod(v: nat, k: nat, q: nat)
    ensures BE(v + Pow2(8 * k) * q, k) == BE(v, k)
  {
    if k > 0 {
      hide BE, Pow2;
      var p := Pow2(8 * (k - 1));
      var x := p * q;
      Pow2Byte(8 * (k - 1));
      assert Pow2(8 * k) * q == 0x100 * x by { assert (0x100 * p) * q == 0x100 * (p * q); }
      BEMod(v / 0x100, k - 1, q);
      AddBytes(v, x);
      BEStep(v + 0x100 * x, k);
      BEStep(v, k);
    }
  }

  /** The 64-bit counter of bytes wraps; the length field is nevertheless that of the standard. */
  lemma LengthField(n: nat)
    ensures BE((n % 0x1_0000_0000_0000_0000) * 8 % 0x1_0000_0000_0000_0000, 8) == BE(8 * n, 8)
  {
    var w := 0x1_0000_0000_0000_0000;
    var total := n % w;
    var bits := total * 8 % w;
    var q := 8 * (n / w) + total * 8 / w;
    assert 8 * n == bits + w * q;
    Pow2Values();
    BEMod(bits, 8, q);
  }

  lemma JoinSlices(m: seq<byte>, bytes: seq<byte>, i: nat, j: nat, k: nat)
    requires i <= j <= k <= |bytes|
    ensures (m + bytes[i..j]) + bytes[j..k] == m + bytes[i..k]
  {
  }

  lemma Join(m: seq<byte>, bytes: seq<byte>, i: nat, j: nat)
    requires i <= j <= |bytes|
    ensures (m + bytes[..i]) + bytes[i..j] == m + bytes[..j]
    ensures j == |bytes| ==> bytes[..j] == bytes && bytes[i..j] == bytes[i..]
  {
  }

  lemma Associate(a: seq<byte>, b: seq<byte>, c: seq<byte>)
    ensures (a + b) + c == a + (b + c)
  {
  }

  lemma AddLength(a: nat, b: nat)
    ensures (a % 0x1_0000_0000_0000_0000 + b) % 0x1_0000_0000_0000_0000 == (a + b) % 0x1_0000_0000_0000_0000
  {
  }

  // ---------------------------------------------------------------- the hasher

  /** state, the first buffered bytes of the buffer and total stand for the message so far. */
  ghost predicate Represents(
    f: Compression, m: seq<byte>, state: Chain, pending: seq<byte>)
  {
    && state == Fold(f, INITIAL, m) && |pending| == |m| % 64 && pending == m[|m| - |pending|..]
  }

  lemma RepresentsBlock(f: Compression, m: seq<byte>, state: Chain, pending: seq<byte>, more: seq<byte>)
    requires Represents(f, m, state, pending) && |pending + more| == 64
    ensures Represents(f, m + more, f(pending + more, state), [])
  {
    var w := Whole(|m|);
    FoldIgnoresTail(f, INITIAL, m);
    assert m[..w] + (pending + more) == m + more;
    FoldBlock(f, INITIAL, m[..w], pending + more);
  }

  lemma RepresentsMore(f: Compression, m: seq<byte>, state: Chain, pending: seq<byte>, more: seq<byte>)
    requires Represents(f, m, state, pending) && |pending + more| < 64
    ensures Represents(f, m + more, state, pending + more)
  {
    FoldShort(f, INITIAL, m, more);
    assert (m + more)[|m + more| - |pending + more|..] == pending + more;
  }

  class Sha256Hasher {
    const compress: Compression
    var state: Chain
    const buffer: array<byte>
    var buffered: nat
    var total: u64
    /** The concatenation of everything passed to Update. */
    ghost var message: seq<byte>

    /** Everything but the byte counter. */
    ghost predicate Absorbed()
      reads this, buffer
    {
      && buffer.Length == 64 && buffered < 64
      && Represents(compress, message, state, buffer[..buffered])
    }

    ghost predicate Valid()
      reads this, buffer
    {
      Absorbed() && total == |message| % 0x1_0000_0000_0000_0000
    }

    constructor (f: Compression)
      ensures Valid() && message == [] && compress == f && fresh(buffer)
    {
      compress := f;
      state := INITIAL;
      buffer := new byte[64](_ => 0);
      buffered, total, message := 0, 0, [];
    }

    method Fill(bytes: seq<byte>) returns (copied: nat)
      requires Absorbed() && buffered != 0
      modifies this`buffered, this`state, this`message, buffer
      ensures Absorbed()
      ensures copied == if |bytes| < 64 - old(buffered) then |bytes| else 64 - old(buffered)
      ensures buffered == 0 || copied == |bytes|
      ensures message == old(message) + bytes[..copied]
    {
      var room := 64 - buffered;
      copied := if |bytes| < room then |bytes| else room;
      for index := 0 to copied
        invariant buffered == old(buffered) && state == old(state) && message == old(message)
        invariant buffer[..buffered + index] == old(buffer[..buffered]) + bytes[..index]
      {
        buffer[buffered + index] := bytes[index];
        assert buffer[..buffered + index + 1] == buffer[..buffered + index] + [bytes[index]];
        assert bytes[..index + 1] == bytes[..index] + [bytes[index]];
      }
      ghost var pending := old(buffer[..buffered]);
      buffered := buffered + copied;
      if buffered == 64 {
        RepresentsBlock(compress, message, state, pending, bytes[..copied]);
        assert buffer[..] == buffer[..64];
        state := compress(buffer[..], state);
        buffered := 0;
        assert buffer[..0] == [];
      } else {
        RepresentsMore(compress, message, state, pending, bytes[..copied]);
      }
      message := message + bytes[..copied];
    }

    /** Whole blocks are compressed straight from the input. */
    method Blocks(bytes: seq<byte>, start: nat) returns (offset: nat)
      requires Absorbed() && start <= |bytes| && (buffered == 0 || start == |bytes|)
      modifies this`state, this`message
      ensures Absorbed() && start <= offset <= |bytes| < offset + 64
      ensures buffered == 0 || offset == |bytes|
      ensures message == old(message) + bytes[start..offset]
    {
      hide Represents;
      offset := start;
      while |bytes| - offset >= 64
        invariant Absorbed() && start <= offset <= |bytes| && (buffered == 0 || offset == |bytes|)
        invariant message == old(message) + bytes[start..offset]
      {
        var block := bytes[offset..offset + 64];
        assert buffer[..0] == [] && [] + block == block;
        RepresentsBlock(compress, message, state, [], block);
        JoinSlices(old(message), bytes, start, offset, offset + 64);
        state := compress(block, state);
        message := message + block;
        offset := offset + 64;
      }
    }

    /** What is left is kept for the next call. */
    method Keep(bytes: seq<byte>, start: nat)
      requires Absorbed() && start <= |bytes| < start + 64 && (buffered == 0 || start == |bytes|)
      modifies this`buffered, this`message, buffer
      ensures Absorbed() && message == old(message) + bytes[start..]
    {
      ghost var pending := buffer[..buffered];
      var offset := start;
      while offset < |bytes|
        invariant start <= offset <= |bytes| && buffer.Length == 64
        invariant buffered == old(buffered) + offset - start < 64
        invariant message == old(message) && buffer[..buffered] == pending + bytes[start..offset]
      {
        buffer[buffered] := bytes[offset];
        assert buffer[..buffered + 1] == buffer[..buffered] + [bytes[offset]];
        assert bytes[start..offset + 1] == bytes[start..offset] + [bytes[offset]];
        buffered := buffered + 1;
        offset := offset + 1;
      }
      assert bytes[start..offset] == bytes[start..];
      RepresentsMore(compress, message, state, pending, bytes[start..]);
      message := message + bytes[start..];
    }

    /** Absorbing bytes in any pieces only extends the message. */
    method Update(bytes: seq<byte>)
      requires Valid()
      modifies this, buffer
      ensures Valid() && message == old(message) + bytes
    {
      hide Represents;
      ghost var m := message;
      AddLength(|message|, |bytes|);
      total := (total + |bytes|) % 0x1_0000_0000_0000_0000;
      assert Absorbed();
      var offset := 0;
      assert bytes[..0] == [];
      if buffered != 0 {
        offset := Fill(bytes);
      }
      assert message == m + bytes[..offset];
      var end := Blocks(bytes, offset);
      Join(m, bytes, offset, end);
      Keep(bytes, end);
      Join(m, bytes, end, |bytes|);
    }

    /** The digest of everything absorbed so far; nothing is modified. */
    method Finalize() returns (digest: Digest)
      requires Valid()
      ensures digest == Hash(compress, message)
    {
      var tail := Tail();
      var chain := compress(tail[..64], state);
      if |tail| == 128 {
        chain := compress(tail[64..], chain);
      }
      FinalBlocks(compress, message, tail);
      FoldTail(compress, state, tail);
      digest := Serialize(chain);
    }

    /** The last one or two blocks: the buffered bytes, the marker, zeros and the bit length. */
    method Tail() returns (r: seq<byte>)
      requires Valid()
      ensures r == buffer[..buffered] + Padding(|message|) && (|r| == 64 || |r| == 128)
    {
      assert buffered == |message| % 64;
      hide Represents, BE;
      var tail := new byte[128](_ => 0);
      Mark(tail, buffer[..buffered]);
      var size := if buffered < 56 then 64 else 128;
      ghost var zeros := ZeroBytes(ZeroCount(|message|));
      ghost var head := buffer[..buffered] + ([0x80] + zeros);
      assert size == |head| + 8;
      MarkedBytes(tail[..], buffer[..buffered], |zeros|);
      assert tail[..size - 8] == tail[..][..size - 8] == head;
      WriteLength(tail, size, total * 8 % 0x1_0000_0000_0000_0000);
      LengthField(|message|);
      r := tail[..size];
      assert r == head + tail[size - 8..size];
      Associate(buffer[..buffered], [0x80] + zeros, tail[size - 8..size]);
    }
  }

  lemma MarkedBytes(t: seq<byte>, pending: seq<byte>, k: nat)
    requires |pending| + 1 + k <= |t|
    requires forall i :: 0 <= i < |pending| ==> t[i] == pending[i]
    requires t[|pending|] == 0x80 && forall i :: |pending| < i < |t| ==> t[i] == 0
    ensures t[..|pending| + 1 + k] == pending + ([0x80] + ZeroBytes(k))
  {
  }

  /** The buffered bytes followed by the marker, in a zeroed array. */
  method Mark(tail: array<byte>, pending: seq<byte>)
    requires |pending| < tail.Length && forall i :: 0 <= i < tail.Length ==> tail[i] == 0
    modifies tail
    ensures forall i :: 0 <= i < |pending| ==> tail[i] == pending[i]
    ensures tail[|pending|] == 0x80
    ensures forall i :: |pending| < i < tail.Length ==> tail[i] == 0
  {
    for index := 0 to |pending|
      invariant forall i :: 0 <= i < index ==> tail[i] == pending[i]
      invariant forall i :: index <= i < tail.Length ==> tail[i] == 0
    {
      tail[index] := pending[index];
    }
    tail[|pending|] := 0x80;
  }

  /** The bit length, big-endian, in the last eight bytes. */
  method WriteLength(tail: array<byte>, size: nat, bits: nat)
    requires 8 <= size <= tail.Length
    modifies tail
    ensures tail[..size - 8] == old(tail[..size - 8]) && tail[size - 8..size] == BE(bits, 8)
  {
    var shifted := bits;
    for index := 0 to 8
      invariant tail[..size - 8] == old(tail[..size - 8])
      invariant BE(shifted, 8 - index) + tail[size - index..size] == BE(bits, 8)
    {
      var k := size - 1 - index;
      ghost var done, more := tail[k + 1..size], BE(shifted / 0x100, 7 - index);
      Associate(more, [shifted % 0x100], done);
      tail[k] := shifted % 0x100;
      assert tail[k..size] == [shifted % 0x100] + done;
      shifted := shifted / 0x100;
    }
  }

  lemma FoldTail(f: Compression, c: Chain, tail: seq<byte>)
    requires |tail| == 64 || |tail| == 128
    ensures Fold(f, c, tail) ==
            (if |tail| == 64 then f(tail[..64], c) else f(tail[64..], f(tail[..64], c)))
  {
    hide Fold;
    FoldOne(f, c, tail[..64]);
    if |tail| == 64 {
      assert tail[..64] == tail;
    } else {
      FoldConcat(f, c, tail[..64], tail[64..]);
      assert tail[..64] + tail[64..] == tail;
      FoldOne(f, f(tail[..64], c), tail[64..]);
    }
  }

  lemma FinalBlocks(f: Compression, m: seq<byte>, tail: seq<byte>)
    requires tail == m[Whole(|m|)..] + Padding(|m|)
    ensures Fold(f, INITIAL, Pad(m)) == Fold(f, Fold(f, INITIAL, m), tail)
  {
    hide Fold, Padding;
    var w := Whole(|m|);
    FoldIgnoresTail(f, INITIAL, m);
    FoldConcat(f, INITIAL, m[..w], tail);
    assert m == m[..w] + m[w..];
    Associate(m[..w], m[w..], Padding(|m|));
  }

  /** The one-shot sha256. */
  method Sha256OneShot(f: Compression, bytes: seq<byte>) returns (digest: Digest)
    ensures digest == Hash(f, bytes)
  {
    var hasher := new Sha256Hasher(f);
    hasher.Update(bytes);
    assert [] + bytes == bytes;
    digest := hasher.Finalize();
  }

  /** However a message is cut into update calls, the digest is the one-shot hash of the whole. */
  method HashPieces(f: Compression, pieces: seq<seq<byte>>) returns (digest: Digest)
    ensures digest == Hash(f, Flatten(pieces))
  {
    var hasher := new Sha256Hasher(f);
    for i := 0 to |pieces|
      invariant hasher.Valid() && hasher.compress == f && hasher.message == Flatten(pieces[..i])
      invariant fresh(hasher) && fresh(hasher.buffer)
    {
      assert pieces[..i + 1] == pieces[..i] + [pieces[i]];
      FlattenSnoc(pieces[..i], pieces[i]);
      hasher.Update(pieces[i]);
    }
    assert pieces[..|pieces|] == pieces;
    digest := hasher.Finalize();
  }

  /** Below 2^61 bytes the length field is the exact bit length, as the standard demands. */
  lemma LengthIsExact(m: seq<byte>)
    requires |m| < 0x2000_0000_0000_0000
    ensures FromLE(Reversed(Pad(m)[|Pad(m)| - 8..])) == 8 * |m|
  {
    assert Pad(m)[|Pad(m)| - 8..] == BE(8 * |m|, 8);
    ReversedBE(8 * |m|, 8);
    Pow2Values();
    FromLEOfLE(8 * |m|, 8);
  }

  function Reversed(s: seq<byte>): seq<byte>
  {
    if s == [] then [] else [s[|s| - 1]] + Reversed(s[..|s| - 1])
  }

  lemma {:induction false} ReversedBE(v: nat, k: nat)
    ensures Reversed(BE(v, k)) == LE(v, k)
  {
    if k > 0 {
      ReversedBE(v / 0x100, k - 1);
      assert BE(v, k)[..k - 1] == BE(v / 0x100, k - 1);
    }
  }
}
