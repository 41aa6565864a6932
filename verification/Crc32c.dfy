/** The CRC32C of the durable envelopes (src/persistence_codec.cpp). A 32-bit register is its sequence
    of bits, least significant first. In the reflected convention of the code bit i of the register is
    the coefficient of x^(31-i), so the least significant bit is the leading term. */
module Crc32c {
  import opened Types
  import opened Words
  import opened KnownWords

  type Word = w: seq<bool> | |w| == 32 witness seq(32, _ => false)

  /** The exponents below 32 of the Castagnoli generator of section 12.1 of RFC 3720. */
  predicate GeneratorTerm(e: int)
  {
    || e == 28 || e == 27 || e == 26 || e == 25 || e == 23 || e == 22 || e == 20 || e == 19 || e == 18
    || e == 14 || e == 13 || e == 11 || e == 10 || e == 9 || e == 8 || e == 6 || e == 0
  }

  function Generator(): (g: Word)
    ensures g[31]
  {
    seq(32, i => GeneratorTerm(31 - i))
  }

  function Ones(): Word { Not(Zeros(32)) }

  // ---------------------------------------------------------------- the reference: long division

  /** w added to the first 32 terms of p. */
  function AddLeading(p: seq<bool>, w: Word): (r: seq<bool>)
    requires |p| >= 32
    ensures |r| == |p|
    ensures forall i :: 0 <= i < |p| ==> r[i] == (if i < 32 then p[i] != w[i] else p[i])
  {
    Xor(p[..32], w) + p[32..]
  }

  /** Schoolbook division of polynomials over GF(2), leading term first: while the dividend is longer
      than the remainder may be, cancel its leading term with a multiple of the generator. */
  function Remainder(p: seq<bool>): (r: Word)
    requires |p| >= 32
    decreases |p|
  {
    if |p| == 32 then p
    else if p[0] then Remainder(AddLeading(p[1..], Generator()))
    else Remainder(p[1..])
  }

  /** CRC32C of a message as the standard defines it: append 32 zeros, complement the first 32 bits,
      divide, and complement the remainder. */
  function Reference(s: seq<byte>): Word
  {
    Not(Remainder(AddLeading(BitsOf(s) + Zeros(32), Ones())))
  }

  // ---------------------------------------------------------------- the shift register

  function BitStep(r: Word): (r': Word)
  {
    if r[0] then Xor(Shr(r, 1), Generator()) else Shr(r, 1)
  }

  function Steps(k: nat, r: Word): (r': Word)
  {
    if k == 0 then r else Steps(k - 1, BitStep(r))
  }

  /** A message of at most 32 bits as a word. */
  function Extend(m: seq<bool>): Word
    requires |m| <= 32
  {
    m + Zeros(32 - |m|)
  }

  function Feed(r: Word, bit: bool): Word { BitStep(r[0 := r[0] != bit]) }

  /** The register after a message, one bit at a time. */
  function Register(r: Word, m: seq<bool>): Word
    decreases |m|
  {
    if m == [] then r else Register(Feed(r, m[0]), m[1..])
  }

  lemma {:induction false} RegisterConcat(r: Word, a: seq<bool>, b: seq<bool>)
    ensures Register(r, a + b) == Register(Register(r, a), b)
    decreases |a|
  {
    hide Feed;
    if a == [] {
      assert a + b == b;
    } else {
      assert (a + b)[1..] == a[1..] + b;
      RegisterConcat(Feed(r, a[0]), a[1..], b);
    }
  }

  /** A division step and a register step cancel the same term. */
  lemma DivisionStep(r: Word, m: seq<bool>)
    requires m != []
    ensures var p := AddLeading(m + Zeros(32), r);
      AddLeading(m[1..] + Zeros(32), Feed(r, m[0])) ==
      if p[0] then AddLeading(p[1..], Generator()) else p[1..]
  {
    hide Generator;
    var p, r' := AddLeading(m + Zeros(32), r), Feed(r, m[0]);
    var q := AddLeading(m[1..] + Zeros(32), r');
    forall i | 0 <= i < |q|
      ensures q[i] == (p[i + 1] != (p[0] && i < 32 && Generator()[i]))
    {
      assert (m[1..] + Zeros(32))[i] == (m + Zeros(32))[i + 1];
    }
  }

  /** The register computes the remainder. */
  lemma {:induction false} RegisterDivides(r: Word, m: seq<bool>)
    ensures Register(r, m) == Remainder(AddLeading(m + Zeros(32), r))
    decreases |m|
  {
    hide Generator, Feed;
    var p := AddLeading(m + Zeros(32), r);
    if m == [] {
      assert p == r;
    } else {
      DivisionStep(r, m);
      hide AddLeading;
      RegisterDivides(Feed(r, m[0]), m[1..]);
    }
  }

  /** A term that misses the leading bit passes a step by being shifted. */
  lemma StepLinear(a: Word, c: Word)
    requires !c[0]
    ensures BitStep(Xor(a, c)) == Xor(BitStep(a), Shr(c, 1))
  {
  }

  /** Up to 32 message bits can be added to the register first and stepped through afterwards. */
  lemma {:induction false} RegisterAhead(r: Word, m: seq<bool>)
    requires |m| <= 32
    ensures Register(r, m) == Steps(|m|, Xor(r, Extend(m)))
    decreases |m|
  {
    if m == [] {
      assert Xor(r, Extend(m)) == r;
    } else {
      var a := r[0 := r[0] != m[0]];
      var c: Word := [false] + m[1..] + Zeros(32 - |m|);
      assert Xor(a, c) == Xor(r, Extend(m));
      StepLinear(a, c);
      assert Shr(c, 1) == Extend(m[1..]);
      RegisterAhead(Feed(r, m[0]), m[1..]);
    }
  }

  /** A step can be undone: the leading bit of the generator is set exactly when it was added. */
  lemma StepInjective(x: Word, y: Word)
    requires BitStep(x) == BitStep(y)
    ensures x == y
  {
    assert BitStep(x)[31] == x[0] && BitStep(y)[31] == y[0];
    forall i | 1 <= i < 32 ensures x[i] == y[i] {
      assert BitStep(x)[i - 1] == (x[i] != (x[0] && Generator()[i - 1]));
      assert BitStep(y)[i - 1] == (y[i] != (y[0] && Generator()[i - 1]));
    }
  }

  lemma {:induction false} StepsInjective(k: nat, x: Word, y: Word)
    requires Steps(k, x) == Steps(k, y)
    ensures x == y
  {
    hide BitStep;
    if k > 0 {
      StepsInjective(k - 1, BitStep(x), BitStep(y));
      StepInjective(x, y);
    }
  }

  lemma {:induction false} RegisterInjective(x: Word, y: Word, m: seq<bool>)
    requires Register(x, m) == Register(y, m)
    ensures x == y
    decreases |m|
  {
    if m != [] {
      RegisterInjective(Feed(x, m[0]), Feed(y, m[0]), m[1..]);
      StepInjective(x[0 := x[0] != m[0]], y[0 := y[0] != m[0]]);
      assert x == x[0 := x[0] != m[0]][0 := x[0]];
    }
  }

  // ---------------------------------------------------------------- the table-driven loop

  const POLYNOMIAL := 0x82F63B78

  /** The generator as a bit-vector. */
  lemma GeneratorBits()
    ensures Generator() == WordBits(0x82F63B78)
  {
    GeneratorBytes();
    assert Byte0(0x82F63B78) == 0x78 && Byte1(0x82F63B78) == 0x3B;
    assert Byte2(0x82F63B78) == 0xF6 && Byte3(0x82F63B78) == 0x82;
    hide Generator, Byte0, Byte1, Byte2, Byte3, ByteBits;
    var g := Generator();
    assert g == g[..8] + (g[8..16] + (g[16..24] + g[24..]));
  }

  lemma GeneratorBytes()
    ensures Generator()[..8] == ByteBits(0x78) && Generator()[8..16] == ByteBits(0x3B)
    ensures Generator()[16..24] == ByteBits(0xF6) && Generator()[24..] == ByteBits(0x82)
  {
  }

  /** The constant in the code is the reflected generator. */
  lemma PolynomialIsGenerator()
    ensures Bits(POLYNOMIAL, 32) == Generator()
  {
    GeneratorBits();
    BitsOfNumber(0x82F63B78);
    PolynomialNumber();
    hide Generator, WordBits, Bits, Number;
  }

  lemma PolynomialNumber()
    ensures Number(0x82F63B78) == POLYNOMIAL
  {
  }

  lemma {:induction false} StepsLinear(k: nat, a: Word, c: Word)
    requires forall i :: 0 <= i < k && i < 32 ==> !c[i]
    ensures Steps(k, Xor(a, c)) == Xor(Steps(k, a), Shr(c, k))
  {
    hide BitStep, Steps;
    StepOnce(k, a);
    StepOnce(k, Xor(a, c));
    if k > 0 {
      StepLinear(a, c);
      StepsLinear(k - 1, BitStep(a), Shr(c, 1));
      assert Shr(Shr(c, 1), k - 1) == Shr(c, k);
    } else {
      assert Shr(c, 0) == c;
    }
  }

  /** The table index: the low byte of the register plus the data byte. */
  function Index(r: Word, b: byte): (i: nat)
    ensures i < 256
  {
    var x := Xor(r[..8], Bits(b, 8));
    ValueBound(x);
    Pow2Values();
    Value(x)
  }

  /** One lookup does the work of eight bit steps. */
  lemma TableStep(r: Word, b: byte)
    ensures Register(r, Bits(b, 8)) == Xor(Steps(8, Bits(Index(r, b), 32)), Shr(r, 8))
  {
    var low := Xor(r[..8], Bits(b, 8));
    var high: Word := Zeros(8) + r[8..];
    hide BitStep, Steps, Bits, Value;
    Pow2Values();
    ValueBound(low);
    BitsOfValue(low);
    BitsSplit(Value(low), 0, 8, 24);
    BitsOfZero(24);
    assert Bits(Index(r, b), 32) == low + Zeros(24);
    RegisterAhead(r, Bits(b, 8));
    assert Xor(r, Extend(Bits(b, 8))) == Xor(low + Zeros(24), high);
    StepsLinear(8, low + Zeros(24), high);
    assert Shr(high, 8) == Shr(r, 8);
  }

  ghost predicate IsTable(table: seq<Word>)
  {
    |table| == 256 && forall i :: 0 <= i < 256 ==> table[i] == Steps(8, Bits(i, 32))
  }

  lemma StepOnce(k: nat, r: Word)
    ensures Steps(k, r) == if k == 0 then r else Steps(k - 1, BitStep(r))
  {
  }

  method TableEntry(index: nat) returns (value: Word)
    ensures value == Steps(8, Bits(index, 32))
  {
    hide Bits, Generator, GeneratorTerm, Steps, Xor, Shr;
    PolynomialIsGenerator();
    value := Bits(index, 32);
    for bit := 0 to 8
      invariant Steps(8 - bit, value) == Steps(8, Bits(index, 32))
    {
      StepOnce(8 - bit, value);
      value := if value[0] then Xor(Shr(value, 1), Bits(POLYNOMIAL, 32)) else Shr(value, 1);
    }
    StepOnce(0, value);
  }

  method MakeTable() returns (table: seq<Word>)
    ensures IsTable(table)
  {
    hide Steps, Bits;
    table := [];
    for index := 0 to 256
      invariant |table| == index
      invariant forall i :: 0 <= i < index ==> table[i] == Steps(8, Bits(i, 32))
    {
      var value := TableEntry(index);
      table := table + [value];
    }
  }

  /** One more byte of the message. */
  lemma RegisterByte(data: seq<byte>, k: nat)
    requires k < |data|
    ensures Register(Ones(), BitsOf(data[..k + 1])) ==
            Register(Register(Ones(), BitsOf(data[..k])), Bits(data[k], 8))
  {
    hide Register, Bits;
    assert data[..k + 1] == data[..k] + [data[k]];
    BitsOfConcat(data[..k], [data[k]]);
    assert BitsOf([data[k]]) == Bits(data[k], 8) by { assert [data[k]][1..] == []; }
    RegisterConcat(Ones(), BitsOf(data[..k]), Bits(data[k], 8));
  }

  lemma NoBytes(data: seq<byte>)
    ensures Register(Ones(), BitsOf(data[..0])) == Ones() && data[..|data|] == data
  {
  }

  /** The loop of crc32c_range: for every byte string it is the complemented remainder of the message
      polynomial divided by the Castagnoli generator. */
  method Crc32cRange(table: seq<Word>, data: seq<byte>) returns (crc: Word)
    requires IsTable(table)
    ensures crc == Reference(data)
  {
    hide Register, BitsOf, Steps, Remainder, Bits;
    crc := Ones();
    NoBytes(data);
    for index := 0 to |data|
      invariant crc == Register(Ones(), BitsOf(data[..index]))
    {
      TableStep(crc, data[index]);
      RegisterByte(data, index);
      crc := Xor(table[Index(crc, data[index])], Shr(crc, 8));
    }
    RegisterDivides(Ones(), BitsOf(data));
    crc := Not(crc);
  }

  // ---------------------------------------------------------------- error detection

  function Checksum(s: seq<byte>): (c: u32)
  {
    ValueBound(Reference(s));
    Pow2Values();
    Value(Reference(s))
  }

  /** The last four bytes are the little-endian checksum of everything before them. */
  predicate Sealed(s: seq<byte>)
  {
    |s| >= 4 && s[|s| - 4..] == LE(Checksum(s[..|s| - 4]), 4)
  }

  function Residue(): Word { Steps(32, Ones()) }

  /** The stored checksum is the complement of the register, bit for bit. */
  lemma ChecksumBits(body: seq<byte>)
    ensures BitsOf(LE(Checksum(body), 4)) == Not(Register(Ones(), BitsOf(body)))
  {
    hide Steps, BitStep, Bits, Value, Remainder, LE, BitsOf, Register;
    RegisterDivides(Ones(), BitsOf(body));
    BitsOfValue(Reference(body));
    BitsOfLE(Checksum(body), 4);
  }

  /** Only the complement of the register leads to the residue. */
  lemma ResidueMeansComplement(r: Word, w: Word)
    ensures Register(r, w) == Residue() <==> w == Not(r)
  {
    hide Steps, BitStep, Register;
    RegisterAhead(r, w);
    assert Extend(w) == w;
    if Steps(32, Xor(r, w)) == Residue() {
      StepsInjective(32, Xor(r, w), Ones());
      forall i | 0 <= i < 32 ensures w[i] == Not(r)[i] {
        assert Xor(r, w)[i] == Ones()[i];
      }
    }
    if w == Not(r) {
      assert Xor(r, w) == Ones();
    }
  }

  /** A string is sealed exactly when the register, run over all of it, ends in one fixed value. */
  lemma SealedIffResidue(s: seq<byte>)
    requires |s| >= 4
    ensures Sealed(s) <==> Register(Ones(), BitsOf(s)) == Residue()
  {
    hide LE, BitsOf, Register, Checksum, Residue;
    var body, tail := s[..|s| - 4], s[|s| - 4..];
    assert s == body + tail;
    BitsOfConcat(body, tail);
    RegisterConcat(Ones(), BitsOf(body), BitsOf(tail));
    ChecksumBits(body);
    ResidueMeansComplement(Register(Ones(), BitsOf(body)), BitsOf(tail));
    if BitsOf(tail) == BitsOf(LE(Checksum(body), 4)) {
      BitsOfInjective(tail, LE(Checksum(body), 4));
    }
  }

  lemma RegisterThrice(r: Word, a: seq<bool>, p: nat, q: nat)
    requires p <= q <= |a|
    ensures Register(r, a) == Register(Register(Register(r, a[..p]), a[p..q]), a[q..])
  {
    hide Register;
    assert a == a[..p] + a[p..q] + a[q..];
    RegisterConcat(r, a[..p] + a[p..q], a[q..]);
    RegisterConcat(r, a[..p], a[p..q]);
  }

  lemma SameParts(a: seq<bool>, b: seq<bool>, p: nat, q: nat)
    requires p <= q <= |a| == |b| && a[..p] == b[..p] && a[p..q] == b[p..q] && a[q..] == b[q..]
    ensures a == b
  {
    assert a == a[..p] + a[p..q] + a[q..] && b == b[..p] + b[p..q] + b[q..];
  }

  /** Burst detection: if a sealed string and another of the same length differ, and only inside 32
      consecutive bits anywhere (the stored checksum included), the other one is not sealed. */
  lemma BurstDetected(x: seq<byte>, y: seq<byte>, p: nat, q: nat)
    requires |x| == |y| && p <= q <= 8 * |x| && q - p <= 32
    requires BitsOf(x)[..p] == BitsOf(y)[..p] && BitsOf(x)[q..] == BitsOf(y)[q..]
    requires Sealed(x) && x != y
    ensures !Sealed(y)
  {
    assert |x| >= 4;
    hide Steps, BitStep, BitsOf, Register, Sealed;
    if Sealed(y) {
      SealedIffResidue(x);
      SealedIffResidue(y);
      var a, b := BitsOf(x), BitsOf(y);
      RegisterThrice(Ones(), a, p, q);
      RegisterThrice(Ones(), b, p, q);
      var r := Register(Ones(), a[..p]);
      RegisterInjective(Register(r, a[p..q]), Register(r, b[p..q]), a[q..]);
      RegisterAhead(r, a[p..q]);
      RegisterAhead(r, b[p..q]);
      StepsInjective(q - p, Xor(r, Extend(a[p..q])), Xor(r, Extend(b[p..q])));
      SameWindow(r, a[p..q], b[p..q]);
      SameParts(a, b, p, q);
      BitsOfInjective(x, y);
      assert false;
    }
  }

  lemma SameWindow(r: Word, u: seq<bool>, v: seq<bool>)
    requires |u| == |v| <= 32 && Xor(r, Extend(u)) == Xor(r, Extend(v))
    ensures u == v
  {
    forall i | 0 <= i < |u| ensures u[i] == v[i] {
      assert Xor(r, Extend(u))[i] == (r[i] != u[i]);
      assert Xor(r, Extend(v))[i] == (r[i] != v[i]);
    }
  }

  /** Changing up to four consecutive bytes of a sealed string always breaks the seal. */
  lemma ByteChangeDetected(x: seq<byte>, y: seq<byte>, i: nat, j: nat)
    requires |x| == |y| && i <= j <= |x| && j - i <= 4
    requires x[..i] == y[..i] && x[j..] == y[j..]
    requires Sealed(x) && x != y
    ensures !Sealed(y)
  {
    hide BitsOf, Sealed;
    assert x == x[..i] + x[i..j] + x[j..] && y == y[..i] + y[i..j] + y[j..];
    BitsOfConcat(x[..i] + x[i..j], x[j..]);
    BitsOfConcat(y[..i] + y[i..j], y[j..]);
    BitsOfConcat(x[..i], x[i..j]);
    BitsOfConcat(y[..i], y[i..j]);
    BurstDetected(x, y, 8 * i, 8 * j);
  }

  // ---------------------------------------------------------------- the known answer

  /** A register step on a bit-vector. */
  function StepWord(x: bv32): bv32
  {
    if x & 1 == 1 then (x >> 1) ^ 0x82F63B78 else x >> 1
  }

  function EightSteps(x: bv32): bv32
  {
    StepWord(StepWord(StepWord(StepWord(StepWord(StepWord(StepWord(StepWord(x))))))))
  }

  function RegisterOf(x: bv32): Word { Bits(Number(x), 32) }

  lemma ShiftedCons(b: bool, t: seq<bool>)
    ensures Shr([b] + t, 1) == t + [false]
  {
  }

  lemma HighBitClear(v: u32)
    ensures Bits(v / 2, 32) == Bits(v / 2, 31) + [false]
  {
    Pow2Values();
    assert v / 2 < Pow2(31) by { assert Pow2(32) == 2 * Pow2(31); }
    BitsSplit(v / 2, 0, 31, 1);
    assert Bits(0, 1) == [false] by { BitsOfZero(1); }
    hide Bits, Pow2;
  }

  lemma ShiftedBits(v: u32)
    ensures Shr(Bits(v, 32), 1) == Bits(v / 2, 32)
    ensures Bits(v, 32)[0] <==> v % 2 == 1
  {
    hide Bits, Shr;
    BitsHead(v, 32);
    HighBitClear(v);
    ShiftedCons(v % 2 == 1, Bits(v / 2, 31));
  }

  lemma StepOfWord(x: bv32)
    ensures BitStep(RegisterOf(x)) == RegisterOf(StepWord(x))
  {
    hide Number, Bits, Generator, Value, Pow2;
    ShiftHalves(x);
    ShiftedBits(Number(x));
    if x & 1 == 1 {
      XorOfWords(x >> 1, 0x82F63B78, (x >> 1) ^ 0x82F63B78);
      PolynomialNumber();
      PolynomialIsGenerator();
      BitsOfValue(Xor(RegisterOf(x >> 1), Generator()));
    }
  }

  lemma EightStepsOfWord(x: bv32)
    ensures Steps(8, RegisterOf(x)) == RegisterOf(EightSteps(x))
  {
    hide BitStep, Steps, RegisterOf, StepWord;
    var a := StepWord(x);
    var b := StepWord(a);
    var c := StepWord(b);
    var d := StepWord(c);
    var e := StepWord(d);
    var f := StepWord(e);
    var g := StepWord(f);
    StepOfWord(x);
    StepOfWord(a);
    StepOfWord(b);
    StepOfWord(c);
    StepOfWord(d);
    StepOfWord(e);
    StepOfWord(f);
    StepOfWord(g);
    StepOnce(8, RegisterOf(x));
    StepOnce(7, RegisterOf(a));
    StepOnce(6, RegisterOf(b));
    StepOnce(5, RegisterOf(c));
    StepOnce(4, RegisterOf(d));
    StepOnce(3, RegisterOf(e));
    StepOnce(2, RegisterOf(f));
    StepOnce(1, RegisterOf(g));
    StepOnce(0, RegisterOf(StepWord(g)));
  }

  /** One more byte, given as the word that the register's low byte is combined with. */
  lemma FeedWord(x: bv32, y: bv32, b: byte, z: bv32)
    requires Number(y) == b && z == EightSteps(x ^ y)
    ensures Register(RegisterOf(x), Bits(b, 8)) == RegisterOf(z)
  {
    hide Number, Bits, EightSteps, Register, Steps, Value, Pow2;
    RegisterAhead(RegisterOf(x), Bits(b, 8));
    Pow2Values();
    BitsSplit(b, 0, 8, 24);
    BitsOfZero(24);
    assert Extend(Bits(b, 8)) == Bits(b, 32);
    XorOfWords(x, y, x ^ y);
    BitsOfValue(Xor(RegisterOf(x), RegisterOf(y)));
    EightStepsOfWord(x ^ y);
  }

  lemma OnesBytes()
    ensures WordBits(0xFFFF_FFFF) == ByteBits(0xFF) + (ByteBits(0xFF) + (ByteBits(0xFF) + ByteBits(0xFF)))
  {
    assert Byte0(0xFFFF_FFFF) == 0xFF && Byte1(0xFFFF_FFFF) == 0xFF;
    assert Byte2(0xFFFF_FFFF) == 0xFF && Byte3(0xFFFF_FFFF) == 0xFF;
    hide ByteBits;
  }

  lemma OnesByte()
    ensures ByteBits(0xFF) == Not(Zeros(8))
  {
  }

  lemma FourOnes(o: seq<bool>)
    requires o == Not(Zeros(8))
    ensures o + (o + (o + o)) == Ones()
  {
  }

  lemma OnesWord()
    ensures RegisterOf(0xFFFF_FFFF) == Ones()
  {
    hide Bits, Number, WordBits, ByteBits, Ones;
    BitsOfNumber(0xFFFF_FFFF);
    OnesBytes();
    OnesByte();
    FourOnes(ByteBits(0xFF));
  }

  /** The nine characters of the standard check string. */
  const CHECK: seq<byte> := [0x31, 0x32, 0x33, 0x34, 0x35, 0x36, 0x37, 0x38, 0x39]

  lemma CheckStep(k: nat, x: bv32, y: bv32, z: bv32)
    requires k < |CHECK| && Register(Ones(), BitsOf(CHECK[..k])) == RegisterOf(x)
    requires Number(y) == CHECK[k] && z == EightSteps(x ^ y)
    ensures Register(Ones(), BitsOf(CHECK[..k + 1])) == RegisterOf(z)
  {
    hide Register, Number, EightSteps, Bits, BitsOf;
    RegisterByte(CHECK, k);
    FeedWord(x, y, CHECK[k], z);
  }

  lemma FirstCharacters()
    ensures Register(Ones(), BitsOf(CHECK[..4])) == RegisterOf(0x09C50B11)
  {
    hide Register, BitsOf, RegisterOf, Bits, Ones;
    OnesWord();
    NoBytes(CHECK);
    CheckStep(0, 0xFFFFFFFF, 0x31, 0x6F0A661C);
    CheckStep(1, 0x6F0A661C, 0x32, 0x8CAA3B9F);
    CheckStep(2, 0x8CAA3B9F, 0x33, 0xEF84D04D);
    CheckStep(3, 0xEF84D04D, 0x34, 0x09C50B11);
  }

  lemma LastCharacters()
    ensures Register(Ones(), BitsOf(CHECK)) == RegisterOf(0x1CF96D7C)
  {
    hide Register, BitsOf, RegisterOf, Bits, Ones;
    FirstCharacters();
    CheckStep(4, 0x09C50B11, 0x35, 0xE72EDCCA);
    CheckStep(5, 0xE72EDCCA, 0x36, 0xBECA8E79);
    CheckStep(6, 0xBECA8E79, 0x37, 0xEDBD6815);
    CheckStep(7, 0xEDBD6815, 0x38, 0x9F787F65);
    CheckStep(8, 0x9F787F65, 0x39, 0x1CF96D7C);
    NoBytes(CHECK);
  }

  /** The known-answer value of CRC32C: the check string gives 0xE3069283. */
  lemma KnownAnswer()
    ensures Checksum(CHECK) == 0xE3069283
  {
    hide Register, BitsOf, RegisterOf, Remainder, Ones, Checksum;
    LastCharacters();
    RegisterDivides(Ones(), BitsOf(CHECK));
    CheckValue();
  }

  lemma CheckValue()
    requires Not(Register(Ones(), BitsOf(CHECK))) == Reference(CHECK)
    requires Register(Ones(), BitsOf(CHECK)) == RegisterOf(0x1CF96D7C)
    ensures Checksum(CHECK) == 0xE3069283
  {
    hide Register, BitsOf, Bits, Value, Pow2, Reference;
    OnesWord();
    XorOfWords(0x1CF96D7C, 0xFFFF_FFFF, 0xE3069283);
    assert Xor(RegisterOf(0x1CF96D7C), Ones()) == Not(RegisterOf(0x1CF96D7C));
    assert Number(0xE3069283) == 0xE3069283;
  }
}
