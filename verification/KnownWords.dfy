/** Concrete 32-bit words as bit-vectors, linked to the bits and numbers of the model: what the known-answer
    lemmas compute with. The link goes byte by byte. */
module KnownWords {
  import opened Types
  import opened Words

  function Unit(b: bool): nat { if b then 1 else 0 }

  predicate Bit0(x: bv8) { x & 1 != 0 }

  predicate Bit1(x: bv8) { x & 2 != 0 }

  predicate Bit2(x: bv8) { x & 4 != 0 }

  predicate Bit3(x: bv8) { x & 8 != 0 }

  predicate Bit4(x: bv8) { x & 16 != 0 }

  predicate Bit5(x: bv8) { x & 32 != 0 }

  predicate Bit6(x: bv8) { x & 64 != 0 }

  predicate Bit7(x: bv8) { x & 128 != 0 }

  function Four(a: bool, b: bool, c: bool, d: bool): (s: seq<bool>)
    ensures |s| == 4
  {
    [a, b, c, d]
  }

  function LowBits(x: bv8): (s: seq<bool>)
    ensures |s| == 4
  {
    Four(Bit0(x), Bit1(x), Bit2(x), Bit3(x))
  }

  function HighBits(x: bv8): (s: seq<bool>)
    ensures |s| == 4
  {
    Four(Bit4(x), Bit5(x), Bit6(x), Bit7(x))
  }

  function ByteBits(x: bv8): (s: seq<bool>)
    ensures |s| == 8
  {
    LowBits(x) + HighBits(x)
  }

  function ByteNumber(x: bv8): nat { x as int }

  lemma ByteValue(x: bv8)
    ensures ByteNumber(x) ==
      Unit(Bit0(x)) + 2 * (Unit(Bit1(x)) + 2 * (Unit(Bit2(x)) + 2 * (Unit(Bit3(x)) + 2 * (
        Unit(Bit4(x)) + 2 * (Unit(Bit5(x)) + 2 * (Unit(Bit6(x)) + 2 * Unit(Bit7(x))))))))
  {
  }

  /** The bytes of a word, least significant first. */
  function Byte0(x: bv32): bv8 { ((x >> 0) & 0xFF) as bv8 }

  function Byte1(x: bv32): bv8 { ((x >> 8) & 0xFF) as bv8 }

  function Byte2(x: bv32): bv8 { ((x >> 16) & 0xFF) as bv8 }

  function Byte3(x: bv32): bv8 { ((x >> 24) & 0xFF) as bv8 }

  lemma NumberBound(a: bv8, b: bv8, c: bv8, d: bv8)
    ensures ByteNumber(a) + 0x100 * (ByteNumber(b) + 0x100 * (ByteNumber(c) + 0x100 * ByteNumber(d))) <
            0x1_0000_0000
  {
  }

  /** The number that a word stands for. */
  function Number(x: bv32): u32
  {
    NumberBound(Byte0(x), Byte1(x), Byte2(x), Byte3(x));
    ByteNumber(Byte0(x)) + 0x100 * (ByteNumber(Byte1(x)) + 0x100 * (
      ByteNumber(Byte2(x)) + 0x100 * ByteNumber(Byte3(x))))
  }

  function WordBits(x: bv32): (s: seq<bool>)
    ensures |s| == 32
  {
    ByteBits(Byte0(x)) + (ByteBits(Byte1(x)) + (ByteBits(Byte2(x)) + ByteBits(Byte3(x))))
  }

  lemma BitsCons(b: bool, w: nat, n: nat)
    ensures Bits(Unit(b) + 2 * w, n + 1) == [b] + Bits(w, n)
  {
    var v := Unit(b) + 2 * w;
    assert v % 2 == Unit(b) && v / 2 == w;
  }

  /** The number of four bits with more bits above them. */
  function Above(b0: bool, b1: bool, b2: bool, b3: bool, w: nat): nat
  {
    Unit(b0) + 2 * (Unit(b1) + 2 * (Unit(b2) + 2 * (Unit(b3) + 2 * w)))
  }

  lemma FourBits(b0: bool, b1: bool, b2: bool, b3: bool, w: nat, n: nat)
    ensures Bits(Above(b0, b1, b2, b3, w), n + 4) == Four(b0, b1, b2, b3) + Bits(w, n)
  {
    hide Bits, Unit;
    var w3 := Unit(b3) + 2 * w;
    var w2 := Unit(b2) + 2 * w3;
    var w1 := Unit(b1) + 2 * w2;
    BitsCons(b3, w, n);
    BitsCons(b2, w3, n + 1);
    BitsCons(b1, w2, n + 2);
    BitsCons(b0, w1, n + 3);
    assert [b0] + ([b1] + ([b2] + ([b3] + Bits(w, n)))) == [b0, b1, b2, b3] + Bits(w, n);
  }

  /** The lowest byte of a number gives its lowest eight bits. */
  lemma ByteCons(x: bv8, w: nat, n: nat)
    ensures Bits(ByteNumber(x) + 0x100 * w, n + 8) == ByteBits(x) + Bits(w, n)
  {
    ByteValue(x);
    hide Bits, Unit, ByteNumber, Four, Bit0, Bit1, Bit2, Bit3, Bit4, Bit5, Bit6, Bit7;
    var high := Above(Bit4(x), Bit5(x), Bit6(x), Bit7(x), w);
    FourBits(Bit4(x), Bit5(x), Bit6(x), Bit7(x), w, n);
    FourBits(Bit0(x), Bit1(x), Bit2(x), Bit3(x), high, n + 4);
    assert ByteNumber(x) + 0x100 * w == Above(Bit0(x), Bit1(x), Bit2(x), Bit3(x), high);
    Associate(LowBits(x), HighBits(x), Bits(w, n));
  }

  lemma Associate(a: seq<bool>, b: seq<bool>, c: seq<bool>)
    ensures a + (b + c) == (a + b) + c
  {
  }

  lemma FourBytes(a: bv8, b: bv8, c: bv8, d: bv8)
    ensures Bits(ByteNumber(a) + 0x100 * (ByteNumber(b) + 0x100 * (ByteNumber(c) + 0x100 * ByteNumber(d))), 32) ==
            ByteBits(a) + (ByteBits(b) + (ByteBits(c) + ByteBits(d)))
  {
    hide Bits, ByteBits, ByteNumber;
    var q := ByteNumber(d);
    var p := ByteNumber(c) + 0x100 * q;
    OneByte(d);
    ByteCons(c, q, 8);
    ByteCons(b, p, 16);
    ByteCons(a, ByteNumber(b) + 0x100 * p, 24);
  }

  lemma OneByte(x: bv8)
    ensures Bits(ByteNumber(x), 8) == ByteBits(x)
  {
    hide Bits, ByteBits, ByteNumber;
    ByteCons(x, 0, 0);
    NoBits();
  }

  lemma BitsOfNumber(x: bv32)
    ensures Bits(Number(x), 32) == WordBits(x)
  {
    hide Bits, ByteBits, ByteNumber, Byte0, Byte1, Byte2, Byte3;
    FourBytes(Byte0(x), Byte1(x), Byte2(x), Byte3(x));
  }

  lemma NoBits()
    ensures Bits(0, 0) == []
  {
  }

  predicate IsXor(x: bv8, y: bv8, z: bv8)
  {
    && Bit0(z) == (Bit0(x) != Bit0(y)) && Bit1(z) == (Bit1(x) != Bit1(y))
    && Bit2(z) == (Bit2(x) != Bit2(y)) && Bit3(z) == (Bit3(x) != Bit3(y))
    && Bit4(z) == (Bit4(x) != Bit4(y)) && Bit5(z) == (Bit5(x) != Bit5(y))
    && Bit6(z) == (Bit6(x) != Bit6(y)) && Bit7(z) == (Bit7(x) != Bit7(y))
  }

  lemma BitsOfXor(x: bv8, y: bv8)
    ensures IsXor(x, y, x ^ y)
  {
  }

  lemma XorFour(
    a: bool, b: bool, c: bool, d: bool, p: bool, q: bool, r: bool, s: bool, t: bool, u: bool, v: bool, w: bool)
    requires t == (a != p) && u == (b != q) && v == (c != r) && w == (d != s)
    ensures Xor(Four(a, b, c, d), Four(p, q, r, s)) == Four(t, u, v, w)
  {
  }

  lemma XorLow(x: bv8, y: bv8, z: bv8)
    requires IsXor(x, y, z)
    ensures Xor(LowBits(x), LowBits(y)) == LowBits(z)
  {
    XorFour(Bit0(x), Bit1(x), Bit2(x), Bit3(x), Bit0(y), Bit1(y), Bit2(y), Bit3(y),
            Bit0(z), Bit1(z), Bit2(z), Bit3(z));
    hide Bit0, Bit1, Bit2, Bit3, Bit4, Bit5, Bit6, Bit7, Xor, Four;
  }

  lemma XorHigh(x: bv8, y: bv8, z: bv8)
    requires IsXor(x, y, z)
    ensures Xor(HighBits(x), HighBits(y)) == HighBits(z)
  {
    XorFour(Bit4(x), Bit5(x), Bit6(x), Bit7(x), Bit4(y), Bit5(y), Bit6(y), Bit7(y),
            Bit4(z), Bit5(z), Bit6(z), Bit7(z));
    hide Bit0, Bit1, Bit2, Bit3, Bit4, Bit5, Bit6, Bit7, Xor, Four;
  }

  lemma XorBytes(x: bv8, y: bv8, z: bv8)
    requires IsXor(x, y, z)
    ensures Xor(ByteBits(x), ByteBits(y)) == ByteBits(z)
  {
    XorLow(x, y, z);
    XorHigh(x, y, z);
    hide LowBits, HighBits, Xor, IsXor;
    XorParts(LowBits(x), HighBits(x), LowBits(y), HighBits(y));
  }

  predicate WordIsXor(x: bv32, y: bv32, z: bv32)
  {
    && IsXor(Byte0(x), Byte0(y), Byte0(z)) && IsXor(Byte1(x), Byte1(y), Byte1(z))
    && IsXor(Byte2(x), Byte2(y), Byte2(z)) && IsXor(Byte3(x), Byte3(y), Byte3(z))
  }

  lemma BytesOfXor(x: bv32, y: bv32)
    ensures WordIsXor(x, y, x ^ y)
  {
    hide IsXor;
    BitsOfXor(Byte0(x), Byte0(y));
    BitsOfXor(Byte1(x), Byte1(y));
    BitsOfXor(Byte2(x), Byte2(y));
    BitsOfXor(Byte3(x), Byte3(y));
  }

  lemma XorParts(a: seq<bool>, b: seq<bool>, c: seq<bool>, d: seq<bool>)
    requires |a| == |c| && |b| == |d|
    ensures Xor(a + b, c + d) == Xor(a, c) + Xor(b, d)
  {
  }

  lemma XorWords(x: bv32, y: bv32, z: bv32)
    requires WordIsXor(x, y, z)
    ensures Xor(WordBits(x), WordBits(y)) == WordBits(z)
  {
    hide IsXor, ByteBits, Xor, Byte0, Byte1, Byte2, Byte3;
    XorBytes(Byte0(x), Byte0(y), Byte0(z));
    XorBytes(Byte1(x), Byte1(y), Byte1(z));
    XorBytes(Byte2(x), Byte2(y), Byte2(z));
    XorBytes(Byte3(x), Byte3(y), Byte3(z));
    var a, b := ByteBits(Byte2(x)), ByteBits(Byte2(y));
    var c, d := ByteBits(Byte3(x)), ByteBits(Byte3(y));
    var p, q := ByteBits(Byte1(x)), ByteBits(Byte1(y));
    XorParts(a, c, b, d);
    XorParts(p, a + c, q, b + d);
    XorParts(ByteBits(Byte0(x)), p + (a + c), ByteBits(Byte0(y)), q + (b + d));
  }

  /** Exclusive or on bit-vectors is exclusive or of the model's bits. */
  lemma XorOfWords(x: bv32, y: bv32, z: bv32)
    requires z == x ^ y
    ensures Value(Xor(Bits(Number(x), 32), Bits(Number(y), 32))) == Number(z)
  {
    BytesOfXor(x, y);
    XorsTo(x, y, z);
  }

  lemma XorsTo(x: bv32, y: bv32, z: bv32)
    requires WordIsXor(x, y, z)
    ensures Value(Xor(Bits(Number(x), 32), Bits(Number(y), 32))) == Number(z)
  {
    XorWords(x, y, z);
    hide Bits, Value, WordBits, Number, Pow2, WordIsXor;
    BitsOfNumber(x);
    BitsOfNumber(y);
    BitsOfNumber(z);
    Pow2Values();
    ValueOfBits(Number(z), 32);
  }

  // ---------------------------------------------------------------- shifting by one

  /** The byte with its neighbour's lowest bit shifted in from above. */
  function HalfByte(a: bv8, b: bv8): bv8 { (a >> 1) | ((b & 1) << 7) }

  /** The lowest bit of a byte as a number. */
  function Parity(a: bv8): nat { Unit(Bit0(a)) }

  lemma HalfByteNumber(a: bv8, b: bv8)
    ensures 2 * ByteNumber(HalfByte(a, b)) + Parity(a) == ByteNumber(a) + 0x100 * Parity(b)
  {
    var h := HalfByte(a, b);
    HalfByteBits(a, b, h);
    HalfByteSum(a, b, h);
  }

  lemma HalfByteSum(a: bv8, b: bv8, h: bv8)
    requires IsHalf(a, b, h)
    ensures 2 * ByteNumber(h) + Parity(a) == ByteNumber(a) + 0x100 * Parity(b)
  {
    ByteValue(a);
    ByteValue(h);
    SameUnits(a, b, h);
    hide ByteNumber, Unit, IsHalf, Bit0, Bit1, Bit2, Bit3, Bit4, Bit5, Bit6, Bit7;
  }

  lemma SameUnits(a: bv8, b: bv8, h: bv8)
    requires IsHalf(a, b, h)
    ensures Unit(Bit0(h)) == Unit(Bit1(a)) && Unit(Bit1(h)) == Unit(Bit2(a))
    ensures Unit(Bit2(h)) == Unit(Bit3(a)) && Unit(Bit3(h)) == Unit(Bit4(a))
    ensures Unit(Bit4(h)) == Unit(Bit5(a)) && Unit(Bit5(h)) == Unit(Bit6(a))
    ensures Unit(Bit6(h)) == Unit(Bit7(a)) && Unit(Bit7(h)) == Unit(Bit0(b))
  {
    hide Bit0, Bit1, Bit2, Bit3, Bit4, Bit5, Bit6, Bit7;
  }

  predicate IsHalf(a: bv8, b: bv8, h: bv8)
  {
    && Bit0(h) == Bit1(a) && Bit1(h) == Bit2(a) && Bit2(h) == Bit3(a) && Bit3(h) == Bit4(a)
    && Bit4(h) == Bit5(a) && Bit5(h) == Bit6(a) && Bit6(h) == Bit7(a) && Bit7(h) == Bit0(b)
  }

  lemma HalfByteBits(a: bv8, b: bv8, h: bv8)
    requires h == HalfByte(a, b)
    ensures IsHalf(a, b, h)
  {
  }

  predicate IsShifted(x: bv32, h: bv32)
  {
    && Byte0(h) == HalfByte(Byte0(x), Byte1(x)) && Byte1(h) == HalfByte(Byte1(x), Byte2(x))
    && Byte2(h) == HalfByte(Byte2(x), Byte3(x)) && Byte3(h) == HalfByte(Byte3(x), 0)
  }

  lemma ShiftedBytes(x: bv32, h: bv32)
    requires h == x >> 1
    ensures IsShifted(x, h)
  {
  }

  lemma ShiftedNumber(x: bv32, h: bv32)
    requires IsShifted(x, h)
    ensures 2 * Number(h) + Parity(Byte0(x)) == Number(x)
  {
    assert Parity(0) == 0;
    hide ByteNumber, HalfByte, Byte0, Byte1, Byte2, Byte3, Parity;
    HalfByteNumber(Byte0(x), Byte1(x));
    HalfByteNumber(Byte1(x), Byte2(x));
    HalfByteNumber(Byte2(x), Byte3(x));
    HalfByteNumber(Byte3(x), 0);
  }

  lemma ParityOfWord(x: bv32)
    ensures Parity(Byte0(x)) == 1 <==> x & 1 == 1
    ensures Parity(Byte0(x)) <= 1
  {
  }

  /** Shifting right by one halves a word; its lowest bit says whether it is odd. */
  lemma ShiftHalves(x: bv32)
    ensures Number(x >> 1) == Number(x) / 2
    ensures Number(x) % 2 == 1 <==> x & 1 == 1
  {
    ShiftedBytes(x, x >> 1);
    ShiftedNumber(x, x >> 1);
    ParityOfWord(x);
    hide Number, Parity, IsShifted;
  }

  // ---------------------------------------------------------------- 64-bit words

  function LowWord(x: bv64): bv32 { (x & 0xFFFF_FFFF) as bv32 }

  function HighWord(x: bv64): bv32 { (x >> 32) as bv32 }

  function LongNumber(x: bv64): u64 { Number(LowWord(x)) + 0x1_0000_0000 * Number(HighWord(x)) }

  lemma BitsOfLong(x: bv64)
    ensures Bits(LongNumber(x), 64) == WordBits(LowWord(x)) + WordBits(HighWord(x))
  {
    BitsOfNumber(LowWord(x));
    BitsOfNumber(HighWord(x));
    Pow2Values();
    hide Bits, WordBits, Number, Pow2, LowWord, HighWord;
    BitsSplit(Number(LowWord(x)), Number(HighWord(x)), 32, 32);
  }

  predicate LongIsXor(x: bv64, y: bv64, z: bv64)
  {
    WordIsXor(LowWord(x), LowWord(y), LowWord(z)) && WordIsXor(HighWord(x), HighWord(y), HighWord(z))
  }

  predicate IsLongXor(x: bv64, y: bv64, z: bv64) { z == x ^ y }

  lemma WordsOfXor(x: bv64, y: bv64, z: bv64)
    requires IsLongXor(x, y, z)
    ensures LongIsXor(x, y, z)
  {
    BytesOfXor(LowWord(x), LowWord(y));
    BytesOfXor(HighWord(x), HighWord(y));
    hide WordIsXor;
  }

  lemma XorsToLong(x: bv64, y: bv64, z: bv64)
    requires LongIsXor(x, y, z)
    ensures Value(Xor(Bits(LongNumber(x), 64), Bits(LongNumber(y), 64))) == LongNumber(z)
  {
    hide Bits, Value, WordBits, LongNumber, Pow2, WordIsXor, LowWord, HighWord;
    XorWords(LowWord(x), LowWord(y), LowWord(z));
    XorWords(HighWord(x), HighWord(y), HighWord(z));
    XorParts(WordBits(LowWord(x)), WordBits(HighWord(x)), WordBits(LowWord(y)), WordBits(HighWord(y)));
    BitsOfLong(x);
    BitsOfLong(y);
    BitsOfLong(z);
    Pow2Values();
    ValueOfBits(LongNumber(z), 64);
  }
}
