/** The counter-based generator Philox4x32-10 (src/rng/philox_rng.cpp): for every key it permutes the
    128-bit counters, and different coordinates are packed into different counters. */
module Philox {
  import opened Types
  import opened Words
  import opened Basics
  import opened Blocks
  import opened KnownWords

  const MODULUS := 0x1_0000_0000
  const MULTIPLIER_0 := 0xD2511F53
  const MULTIPLIER_1 := 0xCD9E8D57
  const WEYL_0 := 0x9E3779B9
  const WEYL_1 := 0xBB67AE85

  /** Their inverses modulo 2^32: both multipliers are odd. */
  const INVERSE_0 := 0x991A7CDB
  const INVERSE_1 := 0x6D7CAE67

  datatype Counter = Counter(w0: u32, w1: u32, w2: u32, w3: u32)

  datatype Key = Key(k0: u32, k1: u32)

  // ---------------------------------------------------------------- words

  function XorWord(a: u32, b: u32): (c: u32)
  {
    var s := Xor(Bits(a, 32), Bits(b, 32));
    ValueBound(s);
    Pow2Values();
    Value(s)
  }

  lemma XorCommutes(a: u32, b: u32)
    ensures XorWord(a, b) == XorWord(b, a)
  {
    assert Xor(Bits(a, 32), Bits(b, 32)) == Xor(Bits(b, 32), Bits(a, 32));
  }

  /** Adding the same word twice cancels. */
  lemma XorCancels(a: u32, b: u32)
    ensures XorWord(XorWord(a, b), b) == a
  {
    var x, y := Bits(a, 32), Bits(b, 32);
    BitsOfValue(Xor(x, y));
    assert Xor(Xor(x, y), y) == x;
    Pow2Values();
    ValueOfBits(a, 32);
  }

  function Low(m: u32, x: u32): u32 { m * x % MODULUS }

  function High(m: u32, x: u32): (h: u32)
  {
    ProductBound(m, x);
    m * x / MODULUS
  }

  lemma ProductBound(m: u32, x: u32)
    ensures 0 <= m * x / MODULUS < MODULUS
  {
    assert m * x <= m * (MODULUS - 1);
  }

  const QUOTIENT_0 := 2110275209
  const QUOTIENT_1 := 1475389199

  lemma Inverses()
    ensures MULTIPLIER_0 * INVERSE_0 == 1 + MODULUS * QUOTIENT_0
    ensures MULTIPLIER_1 * INVERSE_1 == 1 + MODULUS * QUOTIENT_1
  {
  }

  // ---------------------------------------------------------------- the permutation

  function Round(c: Counter, k: Key): Counter
  {
    Counter(XorWord(XorWord(High(MULTIPLIER_1, c.w2), c.w1), k.k0), Low(MULTIPLIER_1, c.w2),
            XorWord(XorWord(High(MULTIPLIER_0, c.w0), c.w3), k.k1), Low(MULTIPLIER_0, c.w0))
  }

  function Unround(c: Counter, k: Key): Counter
  {
    var w0 := Low(INVERSE_0, c.w3);
    var w2 := Low(INVERSE_1, c.w1);
    Counter(w0, XorWord(XorWord(c.w0, k.k0), High(MULTIPLIER_1, w2)),
            w2, XorWord(XorWord(c.w2, k.k1), High(MULTIPLIER_0, w0)))
  }

  lemma Unmask(h: u32, x: u32, k: u32)
    ensures XorWord(XorWord(XorWord(XorWord(h, x), k), k), h) == x
    ensures XorWord(XorWord(h, XorWord(XorWord(x, k), h)), k) == x
  {
    hide XorWord;
    XorCancels(XorWord(h, x), k);
    XorCommutes(h, x);
    XorCancels(x, h);
    XorCommutes(h, XorWord(XorWord(x, k), h));
    XorCancels(XorWord(x, k), h);
    XorCancels(x, k);
  }

  lemma RoundInverse(c: Counter, k: Key)
    ensures Unround(Round(c, k), k) == c
    ensures Round(Unround(c, k), k) == c
  {
    hide XorWord, High;
    Inverses();
    ModularInverse(MODULUS, MULTIPLIER_0, INVERSE_0, QUOTIENT_0, c.w0);
    ModularInverse(MODULUS, MULTIPLIER_1, INVERSE_1, QUOTIENT_1, c.w2);
    ModularInverse(MODULUS, INVERSE_0, MULTIPLIER_0, QUOTIENT_0, c.w3);
    ModularInverse(MODULUS, INVERSE_1, MULTIPLIER_1, QUOTIENT_1, c.w1);
    Unmask(High(MULTIPLIER_1, c.w2), c.w1, k.k0);
    Unmask(High(MULTIPLIER_0, c.w0), c.w3, k.k1);
    Unmask(High(MULTIPLIER_1, Low(INVERSE_1, c.w1)), c.w0, k.k0);
    Unmask(High(MULTIPLIER_0, Low(INVERSE_0, c.w3)), c.w2, k.k1);
  }

  /** The bits of a word's exclusive or. */
  lemma XorWordBits(a: u32, b: u32, i: nat)
    requires i < 32
    ensures Bits(XorWord(a, b), 32)[i] == (Bits(a, 32)[i] != Bits(b, 32)[i])
  {
    BitsOfValue(Xor(Bits(a, 32), Bits(b, 32)));
  }

  /** What a round computes: each product is split into its low half, which becomes a word, and its high half,
      which is hidden in another word by a source word and the key. */
  lemma RoundComputes(c: Counter, k: Key)
    ensures var r := Round(c, k);
      && 0x1_0000_0000 * XorWord(XorWord(r.w0, k.k0), c.w1) + r.w1 == 0xCD9E8D57 * c.w2
      && 0x1_0000_0000 * XorWord(XorWord(r.w2, k.k1), c.w3) + r.w3 == 0xD2511F53 * c.w0
  {
    hide XorWord;
    var h1, h0 := High(MULTIPLIER_1, c.w2), High(MULTIPLIER_0, c.w0);
    XorCancels(XorWord(h1, c.w1), k.k0);
    XorCancels(h1, c.w1);
    XorCancels(XorWord(h0, c.w3), k.k1);
    XorCancels(h0, c.w3);
  }

  function Bump(k: Key): Key
  {
    Key((k.k0 + WEYL_0) % MODULUS, (k.k1 + WEYL_1) % MODULUS)
  }

  function Rounds(n: nat, c: Counter, k: Key): Counter
    decreases n
  {
    if n == 0 then c else Rounds(n - 1, Round(c, k), Bump(k))
  }

  function Unrounds(n: nat, c: Counter, k: Key): Counter
    decreases n
  {
    if n == 0 then c else Unround(Unrounds(n - 1, c, Bump(k)), k)
  }

  /** For every key and any number of rounds the map on counters is a permutation, with an inverse. */
  lemma {:induction false} RoundsInverse(n: nat, c: Counter, k: Key)
    ensures Unrounds(n, Rounds(n, c, k), k) == c
    ensures Rounds(n, Unrounds(n, c, k), k) == c
    decreases n
  {
    hide Round, Unround, Bump;
    if n > 0 {
      RoundsInverse(n - 1, Round(c, k), Bump(k));
      RoundInverse(c, k);
      RoundsInverse(n - 1, c, Bump(k));
      RoundInverse(Unrounds(n - 1, c, Bump(k)), k);
    }
  }

  /** The key of round i: both words have been advanced i times by their Weyl constants. */
  function RoundKey(k: Key, i: nat): Key
  {
    Key((k.k0 + i * 0x9E3779B9) % 0x1_0000_0000, (k.k1 + i * 0xBB67AE85) % 0x1_0000_0000)
  }

  lemma AdvancedKey(k: Key, i: nat)
    ensures RoundKey(Bump(k), i) == RoundKey(k, i + 1)
  {
    SameResidue(k.k0, WEYL_0, i);
    SameResidue(k.k1, WEYL_1, i);
  }

  lemma FirstKey(k: Key)
    ensures RoundKey(k, 0) == k
  {
  }

  lemma SameResidue(a: u32, w: u32, i: nat)
    ensures ((a + w) % MODULUS + i * w) % MODULUS == (a + (i + 1) * w) % MODULUS
  {
    var q := (a + w) / MODULUS;
    var v := a + (i + 1) * w;
    assert (i + 1) * w == i * w + w;
    assert (a + w) % MODULUS + i * w == v - MODULUS * q;
    DivisionUnique(v - MODULUS * q, MODULUS, v / MODULUS - q, v % MODULUS);
  }

  /** The key schedule in closed form: round n is applied with the key advanced n times. */
  lemma {:induction false} Schedule(n: nat, c: Counter, k: Key)
    ensures Rounds(0, c, k) == c
    ensures Rounds(n + 1, c, k) == Round(Rounds(n, c, k), RoundKey(k, n))
    decreases n
  {
    hide Round, RoundKey, Bump;
    FirstKey(k);
    if n > 0 {
      Schedule(n - 1, Round(c, k), Bump(k));
      AdvancedKey(k, n - 1);
    } else {
      assert Rounds(1, c, k) == Round(c, k);
    }
  }

  method Philox4x32Ten(c: Counter, k: Key) returns (r: Counter)
    ensures r == Rounds(10, c, k)
  {
    hide Round, Bump;
    r := c;
    var key := k;
    for round := 0 to 10
      invariant Rounds(10 - round, r, key) == Rounds(10, c, k)
    {
      r := Round(r, key);
      key := Bump(key);
    }
  }

  // ---------------------------------------------------------------- the known answer

  datatype Quad = Quad(w0: bv32, w1: bv32, w2: bv32, w3: bv32)

  function CounterOf(q: Quad): Counter
  {
    Counter(Number(q.w0), Number(q.w1), Number(q.w2), Number(q.w3))
  }

  lemma Halves(m: u32, x: u32, high: u32, low: u32)
    requires m * x == MODULUS * high + low
    ensures High(m, x) == high && Low(m, x) == low
  {
    DivisionUnique(m * x, MODULUS, high, low);
  }

  predicate IsMix(x: bv32, y: bv32, k: bv32, z: bv32) { z == (x ^ y) ^ k }

  lemma RoundOfHalves(c: Counter, k: Key, high0: u32, low0: u32, high1: u32, low1: u32)
    requires 0xD2511F53 * c.w0 == 0x1_0000_0000 * high0 + low0
    requires 0xCD9E8D57 * c.w2 == 0x1_0000_0000 * high1 + low1
    ensures Round(c, k) == Counter(XorWord(XorWord(high1, c.w1), k.k0), low1, XorWord(XorWord(high0, c.w3), k.k1), low0)
  {
    hide XorWord, High, Low;
    Halves(MULTIPLIER_0, c.w0, high0, low0);
    Halves(MULTIPLIER_1, c.w2, high1, low1);
  }

  /** A round on bit-vectors, given the halves of its two products. */
  lemma RoundOfWords(
    q: Quad, k0: bv32, k1: bv32, high0: bv32, low0: bv32, high1: bv32, low1: bv32, next: Quad)
    requires 0xD2511F53 * Number(q.w0) == 0x1_0000_0000 * Number(high0) + Number(low0)
    requires 0xCD9E8D57 * Number(q.w2) == 0x1_0000_0000 * Number(high1) + Number(low1)
    requires IsMix(high1, q.w1, k0, next.w0) && next.w1 == low1
    requires IsMix(high0, q.w3, k1, next.w2) && next.w3 == low0
    ensures Round(CounterOf(q), Key(Number(k0), Number(k1))) == CounterOf(next)
  {
    hide Number, XorWord, Round, IsMix;
    RoundOfHalves(CounterOf(q), Key(Number(k0), Number(k1)), Number(high0), Number(low0), Number(high1), Number(low1));
    XorTwice(high1, q.w1, k0, next.w0);
    XorTwice(high0, q.w3, k1, next.w2);
  }

  lemma XorTwice(x: bv32, y: bv32, k: bv32, z: bv32)
    requires IsMix(x, y, k, z)
    ensures XorWord(XorWord(Number(x), Number(y)), Number(k)) == Number(z)
  {
    hide Number, Bits, Value;
    XorOfWords(x, y, x ^ y);
    XorOfWords(x ^ y, k, z);
  }

  const Q0 := Quad(0, 0, 0, 0)
  const Q1 := Quad(0, 0, 0, 0)
  const Q2 := Quad(0x9E3779B9, 0, 0xBB67AE85, 0)
  const Q3 := Quad(0xAAE8EB44, 0x02719033, 0xF734F9C9, 0x4942DDFB)
  const Q4 := Quad(0x1E597A2C, 0x4FA2984F, 0xF71CEFED, 0xD685830C)
  const Q5 := Quad(0xF10446C0, 0xC841128B, 0x23F43D26, 0x6CB9F044)
  const Q6 := Quad(0xC3B4AB98, 0xE922B5EA, 0x03BE793C, 0x8BB43040)
  const Q7 := Quad(0x5F6FB709, 0x0D893F64, 0x4F121F81, 0x4F730A48)
  const Q8 := Quad(0x618F177A, 0x9920C1D7, 0x1EC12DC0, 0xC43B6EEB)
  const Q9 := Quad(0x7028B1C8, 0xD6594C40, 0x4F2051BB, 0x76D6628E)
  const Q10 := Quad(0x6627E8D5, 0xE169C58D, 0xBC57AC4C, 0x9B00DBD8)

  lemma Round0()
    ensures Round(CounterOf(Q0), Key(0, 0)) == CounterOf(Q1)
  {
    hide Round;
    RoundOfWords(Q0, 0, 0, 0, 0, 0, 0, Q1);
  }

  lemma Round1()
    ensures Round(CounterOf(Q1), Key(0x9E3779B9, 0xBB67AE85)) == CounterOf(Q2)
  {
    hide Round;
    RoundOfWords(Q1, 0x9E3779B9, 0xBB67AE85, 0, 0, 0, 0, Q2);
  }

  lemma Round2()
    ensures Round(CounterOf(Q2), Key(0x3C6EF372, 0x76CF5D0A)) == CounterOf(Q3)
  {
    hide Round;
    RoundOfWords(Q2, 0x3C6EF372, 0x76CF5D0A, 0x81FBA4C3, 0x4942DDFB, 0x96861836, 0x02719033, Q3);
  }

  lemma Round3()
    ensures Round(CounterOf(Q3), Key(0xDAA66D2B, 0x32370B8F)) == CounterOf(Q4)
  {
    hide Round;
    RoundOfWords(Q3, 0xDAA66D2B, 0x32370B8F, 0x8C693999, 0xD685830C, 0xC68E8734, 0x4FA2984F, Q4);
  }

  lemma Round4()
    ensures Round(CounterOf(Q4), Key(0x78DDE6E4, 0xED9EBA14)) == CounterOf(Q5)
  {
    hide Round;
    RoundOfWords(Q4, 0x78DDE6E4, 0xED9EBA14, 0x18EF043E, 0x6CB9F044, 0xC67B386B, 0xC841128B, Q5);
  }

  lemma Round5()
    ensures Round(CounterOf(Q5), Key(0x1715609D, 0xA9066899)) == CounterOf(Q6)
  {
    hide Round;
    RoundOfWords(Q5, 0x1715609D, 0xA9066899, 0xC601E1E1, 0x8BB43040, 0x1CE0D98E, 0xE922B5EA, Q6);
  }

  lemma Round6()
    ensures Round(CounterOf(Q6), Key(0xB54CDA56, 0x646E171E)) == CounterOf(Q7)
  {
    hide Round;
    RoundOfWords(Q6, 0xB54CDA56, 0x646E171E, 0xA0C838DF, 0x4F730A48, 0x0301D8B5, 0x0D893F64, Q7);
  }

  lemma Round7()
    ensures Round(CounterOf(Q7), Key(0x5384540F, 0x1FD5C5A3)) == CounterOf(Q8)
  {
    hide Round;
    RoundOfWords(Q7, 0x5384540F, 0x1FD5C5A3, 0x4E67E22B, 0xC43B6EEB, 0x3F827C11, 0x9920C1D7, Q8);
  }

  lemma Round8()
    ensures Round(CounterOf(Q8), Key(0xF1BBCDC8, 0xDB3D7428)) == CounterOf(Q9)
  {
    hide Round;
    RoundOfWords(Q8, 0xF1BBCDC8, 0xDB3D7428, 0x50264B78, 0x76D6628E, 0x18B3BDD7, 0xD6594C40, Q9);
  }

  lemma Round9()
    ensures Round(CounterOf(Q9), Key(0x8FF34781, 0x96A522AD)) == CounterOf(Q10)
  {
    hide Round;
    RoundOfWords(Q9, 0x8FF34781, 0x96A522AD, 0x5C24EC6F, 0x9B00DBD8, 0x3F8DE314, 0xE169C58D, Q10);
  }

  lemma RoundsStep(n: nat, c: Counter, k: Key, before: Counter, after: Counter)
    requires Rounds(n, c, k) == before && Round(before, RoundKey(k, n)) == after
    ensures Rounds(n + 1, c, k) == after
  {
    Schedule(n, c, k);
  }

  lemma KeysOfZero()
    ensures var k := Key(0, 0);
      && RoundKey(k, 0) == Key(0, 0)
      && RoundKey(k, 1) == Key(0x9E3779B9, 0xBB67AE85)
      && RoundKey(k, 2) == Key(0x3C6EF372, 0x76CF5D0A)
      && RoundKey(k, 3) == Key(0xDAA66D2B, 0x32370B8F)
      && RoundKey(k, 4) == Key(0x78DDE6E4, 0xED9EBA14)
      && RoundKey(k, 5) == Key(0x1715609D, 0xA9066899)
      && RoundKey(k, 6) == Key(0xB54CDA56, 0x646E171E)
      && RoundKey(k, 7) == Key(0x5384540F, 0x1FD5C5A3)
      && RoundKey(k, 8) == Key(0xF1BBCDC8, 0xDB3D7428)
      && RoundKey(k, 9) == Key(0x8FF34781, 0x96A522AD)
  {
  }

  /** The Random123 known-answer vector: counter and key zero. */
  lemma KnownAnswer()
    ensures Rounds(10, Counter(0, 0, 0, 0), Key(0, 0)) ==
            Counter(0x6627E8D5, 0xE169C58D, 0xBC57AC4C, 0x9B00DBD8)
  {
    hide Round, Rounds, RoundKey, CounterOf;
    var k, c := Key(0, 0), CounterOf(Q0);
    KeysOfZero();
    Schedule(0, c, k);
    Round0();
    RoundsStep(0, c, k, CounterOf(Q0), CounterOf(Q1));
    Round1();
    RoundsStep(1, c, k, CounterOf(Q1), CounterOf(Q2));
    Round2();
    RoundsStep(2, c, k, CounterOf(Q2), CounterOf(Q3));
    Round3();
    RoundsStep(3, c, k, CounterOf(Q3), CounterOf(Q4));
    Round4();
    RoundsStep(4, c, k, CounterOf(Q4), CounterOf(Q5));
    Round5();
    RoundsStep(5, c, k, CounterOf(Q5), CounterOf(Q6));
    Round6();
    RoundsStep(6, c, k, CounterOf(Q6), CounterOf(Q7));
    Round7();
    RoundsStep(7, c, k, CounterOf(Q7), CounterOf(Q8));
    Round8();
    RoundsStep(8, c, k, CounterOf(Q8), CounterOf(Q9));
    Round9();
    RoundsStep(9, c, k, CounterOf(Q9), CounterOf(Q10));
    Ends();
  }

  lemma Ends()
    ensures CounterOf(Q0) == Counter(0, 0, 0, 0)
    ensures CounterOf(Q10) == Counter(0x6627E8D5, 0xE169C58D, 0xBC57AC4C, 0x9B00DBD8)
  {
  }

  // ---------------------------------------------------------------- packing coordinates

  datatype Coordinate = Coordinate(scenario: u64, step: u32, dimension: u32, draw: u32)

  predicate InRange(x: Coordinate)
  {
    && x.scenario < 0x100_0000_0000 && x.step <= 0xFF_FFFF && x.dimension <= 0xFF
    && x.draw <= 0xFF_FFFF
  }

  function Or(a: seq<bool>, b: seq<bool>): (c: seq<bool>)
    requires |a| == |b|
    ensures |c| == |a| && forall i :: 0 <= i < |a| ==> c[i] == (a[i] || b[i])
  {
    seq(|a|, i requires 0 <= i < |a| && |a| == |b| => a[i] || b[i])
  }

  function OrWord(a: u32, b: u32): u32
  {
    var s := Or(Bits(a, 32), Bits(b, 32));
    ValueBound(s);
    Pow2Values();
    Value(s)
  }

  /** An 8-bit field and a field shifted above it do not overlap. */
  lemma OrOfFields(lo: nat, hi: nat)
    requires lo < 0x100 && hi < 0x100_0000
    ensures OrWord(lo, 0x100 * hi) == lo + 0x100 * hi
  {
    hide Bits, Value, Pow2;
    Pow2Values();
    BitsSplit(lo, 0, 8, 24);
    BitsSplit(0, hi, 8, 24);
    BitsSplit(lo, hi, 8, 24);
    BitsOfZero(8);
    BitsOfZero(24);
    assert Or(Bits(lo, 32), Bits(0x100 * hi, 32)) == Bits(lo + 0x100 * hi, 32);
    ValueOfBits(lo + 0x100 * hi, 32);
  }

  /** pack_counter_v1: shifts are multiplications and divisions by powers of two. */
  function PackCounter(x: Coordinate): Option<Counter>
  {
    if !InRange(x) then None
    else Some(Counter(x.scenario % MODULUS, OrWord(x.scenario / MODULUS, x.step * 0x100),
                      OrWord(x.dimension, x.draw * 0x100), 0))
  }

  /** Where each coordinate is found in the counter, and when packing refuses. */
  lemma PackedFields(x: Coordinate)
    ensures PackCounter(x).Some? <==>
      x.scenario < 0x100_0000_0000 && x.step < 0x100_0000 && x.dimension < 0x100 && x.draw < 0x100_0000
    ensures PackCounter(x).Some? ==>
      var c := PackCounter(x).value;
      && c.w0 + 0x1_0000_0000 * (c.w1 % 0x100) == x.scenario && c.w1 / 0x100 == x.step
      && c.w2 % 0x100 == x.dimension && c.w2 / 0x100 == x.draw && c.w3 == 0
  {
    hide OrWord;
    if InRange(x) {
      OrOfFields(x.scenario / MODULUS, x.step);
      OrOfFields(x.dimension, x.draw);
    }
  }

  /** Every scenario of a valid run has a counter for every step, dimension and draw of the layout. */
  lemma EveryScenarioHasACounter(l: Layout, x: Coordinate)
    requires ValidLayout(l) && x.scenario < l.total
    requires x.step < 0x100_0000 && x.dimension < 0x100 && x.draw < 0x100_0000
    ensures PackCounter(x).Some?
  {
    PackedFields(x);
  }

  /** The limit on scenarios is exactly the room of the counter's field. */
  lemma ScenariosFillTheField(scenario: nat)
    ensures (exists l: Layout :: ValidLayout(l) && scenario < l.total) <==> scenario < 0x100_0000_0000
  {
    if scenario < 0x100_0000_0000 {
      var l := Layout(scenario + 1, 1, false);
      assert ValidLayout(l) && scenario < l.total;
    }
  }

  lemma PackInjective(x: Coordinate, y: Coordinate)
    requires PackCounter(x).Some? && PackCounter(x) == PackCounter(y)
    ensures x == y
  {
    hide OrWord;
    OrOfFields(x.scenario / MODULUS, x.step);
    OrOfFields(y.scenario / MODULUS, y.step);
    OrOfFields(x.dimension, x.draw);
    OrOfFields(y.dimension, y.draw);
  }

  /** Under one seed, two different coordinates never share a 128-bit output block. */
  lemma CoordinatesNeverCollide(x: Coordinate, y: Coordinate, seed: Key)
    requires PackCounter(x).Some? && PackCounter(y).Some? && x != y
    ensures Rounds(10, PackCounter(x).value, seed) != Rounds(10, PackCounter(y).value, seed)
  {
    hide PackCounter, Rounds;
    var a, b := PackCounter(x).value, PackCounter(y).value;
    RoundsInverse(10, a, seed);
    RoundsInverse(10, b, seed);
    if a == b {
      PackInjective(x, y);
    }
  }
}
