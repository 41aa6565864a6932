/** The bootstrap sampler of tools/checkpoint_gate_stats.cpp: splitmix64 and rejection sampling. */
module Sampler {
  import opened Types
  import opened Words
  import opened Basics
  import opened KnownWords

  const MODULUS := 0x1_0000_0000_0000_0000
  const GAMMA := 0x9E3779B97F4A7C15
  const MIX_1 := 0xBF58476D1CE4E5B9
  const MIX_2 := 0x94D049BB133111EB

  /** Inverses modulo 2^64: the three constants are odd. */
  const GAMMA_INVERSE := 0xF1DE83E19937733D
  const MIX_1_INVERSE := 0x96DE1B173F119089
  const MIX_2_INVERSE := 0x319642B2D24D8EC3
  const GAMMA_QUOTIENT := 10771413168148108919
  const MIX_1_QUOTIENT := 8125545580553827436
  const MIX_2_QUOTIENT := 2077064247507883091

  lemma Inverses()
    ensures GAMMA * GAMMA_INVERSE == 1 + MODULUS * GAMMA_QUOTIENT
    ensures MIX_1 * MIX_1_INVERSE == 1 + MODULUS * MIX_1_QUOTIENT
    ensures MIX_2 * MIX_2_INVERSE == 1 + MODULUS * MIX_2_QUOTIENT
  {
  }

  // ---------------------------------------------------------------- x ^ (x >> s)

  /** The bit of x that x ^ (x >> s) == y determines, from the top down. */
  function Unshifted(y: seq<bool>, s: nat, i: nat): bool
    requires s >= 1 && i < |y|
    decreases |y| - i
  {
    y[i] != (i + s < |y| && Unshifted(y, s, i + s))
  }

  function Unshift(y: seq<bool>, s: nat): (x: seq<bool>)
    requires s >= 1
    ensures |x| == |y| && forall i :: 0 <= i < |y| ==> x[i] == Unshifted(y, s, i)
  {
    seq(|y|, i requires 0 <= i < |y| => Unshifted(y, s, i))
  }

  lemma UnshiftIsRightInverse(y: seq<bool>, s: nat)
    requires s >= 1
    ensures Xor(Unshift(y, s), Shr(Unshift(y, s), s)) == y
  {
  }

  lemma {:induction false} UnshiftBit(x: seq<bool>, s: nat, i: nat)
    requires s >= 1 && i < |x|
    ensures Unshifted(Xor(x, Shr(x, s)), s, i) == x[i]
    decreases |x| - i
  {
    if i + s < |x| {
      UnshiftBit(x, s, i + s);
    }
  }

  function XorShift(x: u64, s: nat): u64
  {
    var b := Bits(x, 64);
    var y := Xor(b, Shr(b, s));
    ValueBound(y);
    Pow2Values();
    Value(y)
  }

  function XorUnshift(y: u64, s: nat): u64
    requires s >= 1
  {
    var x := Unshift(Bits(y, 64), s);
    ValueBound(x);
    Pow2Values();
    Value(x)
  }

  /** The xor-shift is a permutation of the 64-bit words. */
  lemma XorShiftInverse(x: u64, s: nat)
    requires s >= 1
    ensures XorUnshift(XorShift(x, s), s) == x
    ensures XorShift(XorUnshift(x, s), s) == x
  {
    hide Bits, Value, Pow2;
    Pow2Values();
    var b := Bits(x, 64);
    ValueOfBits(x, 64);
    BitsOfValue(Xor(b, Shr(b, s)));
    forall i | 0 <= i < 64 ensures Unshifted(Xor(b, Shr(b, s)), s, i) == b[i] { UnshiftBit(b, s, i); }
    assert Unshift(Xor(b, Shr(b, s)), s) == b;
    BitsOfValue(Unshift(b, s));
    UnshiftIsRightInverse(b, s);
  }

  // ---------------------------------------------------------------- multiplication by odd constants

  function Times(m: nat, x: u64): u64 { m * x % MODULUS }

  lemma Congruent(v: int, x: u64, k: int)
    requires v == x + MODULUS * k
    ensures v % MODULUS == x
  {
  }

  // ---------------------------------------------------------------- the output map

  function Mix(state: u64): u64
  {
    XorShift(Times(MIX_2, XorShift(Times(MIX_1, XorShift(state, 30)), 27)), 31)
  }

  function Unmix(word: u64): u64
  {
    XorUnshift(Times(MIX_1_INVERSE, XorUnshift(Times(MIX_2_INVERSE, XorUnshift(word, 31)), 27)), 30)
  }

  /** splitmix64's output map is a bijection of the 64-bit words, with an explicit inverse. */
  lemma MixInverse(x: u64)
    ensures Unmix(Mix(x)) == x
    ensures Mix(Unmix(x)) == x
  {
    hide XorShift, XorUnshift;
    Inverses();
    var a := XorShift(x, 30);
    var b := XorShift(Times(MIX_1, a), 27);
    XorShiftInverse(x, 30);
    ModularInverse(MODULUS, MIX_1, MIX_1_INVERSE, MIX_1_QUOTIENT, a);
    XorShiftInverse(Times(MIX_1, a), 27);
    ModularInverse(MODULUS, MIX_2, MIX_2_INVERSE, MIX_2_QUOTIENT, b);
    XorShiftInverse(Times(MIX_2, b), 31);
    var c := XorUnshift(x, 31);
    var d := XorUnshift(Times(MIX_2_INVERSE, c), 27);
    XorShiftInverse(x, 31);
    ModularInverse(MODULUS, MIX_2_INVERSE, MIX_2, MIX_2_QUOTIENT, c);
    XorShiftInverse(Times(MIX_2_INVERSE, c), 27);
    ModularInverse(MODULUS, MIX_1_INVERSE, MIX_1, MIX_1_QUOTIENT, d);
    XorShiftInverse(Times(MIX_1_INVERSE, d), 30);
  }

  // ---------------------------------------------------------------- the sequence of states

  /** The state after k calls. */
  function Advance(state: u64, k: nat): u64 { (state + k * GAMMA) % MODULUS }

  lemma AdvanceOnce(state: u64, k: nat)
    ensures Advance(state, k + 1) == (Advance(state, k) + GAMMA) % MODULUS
  {
    var v := state + k * GAMMA;
    var w := v % MODULUS + GAMMA;
    Congruent(v + GAMMA, w % MODULUS, v / MODULUS + w / MODULUS);
    assert state + (k + 1) * GAMMA == v + GAMMA;
  }

  lemma NotAMultiple(d: int, k: int)
    requires 0 < d < MODULUS
    ensures d != MODULUS * k
  {
  }

  /** The increment is odd, so 2^64 successive states are all different. */
  lemma StatesDiffer(state: u64, i: nat, j: nat)
    requires i < j < i + MODULUS
    ensures Advance(state, i) != Advance(state, j)
  {
    if Advance(state, i) == Advance(state, j) {
      var a, b, d := state + i * GAMMA, state + j * GAMMA, j - i;
      assert b - a == d * GAMMA;
      var q := b / MODULUS - a / MODULUS;
      assert d * GAMMA == MODULUS * q;
      Inverses();
      assert d * (GAMMA * GAMMA_INVERSE) == MODULUS * q * GAMMA_INVERSE;
      NotAMultiple(d, q * GAMMA_INVERSE - d * GAMMA_QUOTIENT);
      assert false;
    }
  }

  // ---------------------------------------------------------------- rejection sampling

  /** The words below the threshold are rejected: -count mod count in 64-bit arithmetic. */
  function Threshold(count: u64): (t: nat)
    requires count >= 1
    ensures t < count && t == MODULUS % count
  {
    ThresholdIsRemainder(count);
    (MODULUS - count) % MODULUS % count
  }

  lemma ThresholdIsRemainder(count: u64)
    requires count >= 1
    ensures (MODULUS - count) % MODULUS == MODULUS - count
    ensures (MODULUS - count) % count == MODULUS % count
  {
    var q, r := MODULUS / count, MODULUS % count;
    assert MODULUS - count == count * (q - 1) + r;
    DivisionUnique(MODULUS - count, count, q - 1, r);
  }

  /** The k-th word drawn from a state, counted from one. */
  function Word(state: u64, k: nat): u64 { Mix(Advance(state, k)) }

  lemma WordsDiffer(state: u64, i: nat, j: nat)
    requires i < j < i + MODULUS
    ensures Word(state, i) != Word(state, j)
  {
    StatesDiffer(state, i, j);
    MixInverse(Advance(state, i));
    MixInverse(Advance(state, j));
  }

  /** A set of numbers below a bound is no larger than the bound. */
  lemma {:induction false} BoundedSet(s: set<int>, bound: nat)
    requires forall x :: x in s ==> 0 <= x < bound
    ensures |s| <= bound
    decreases bound
  {
    if bound == 0 {
      assert s == {} by { assert forall x: int :: x !in s; }
    } else {
      BoundedSet(s - {bound - 1}, bound - 1);
      assert |s| <= |s - {bound - 1}| + 1;
    }
  }

  /** sample_index: from any state it returns after at most 2^64 mod count rejections, with the first
      word of the state's sequence that reaches the threshold. */
  method SampleIndex(state: u64, count: u64) returns (index: u64, next: u64, ghost draws: nat)
    requires count >= 1
    ensures index < count
    ensures 1 <= draws <= Threshold(count) + 1
    ensures next == Advance(state, draws)
    ensures Word(state, draws) >= Threshold(count) && index == Word(state, draws) % count < count
    ensures forall k :: 1 <= k < draws ==> Word(state, k) < Threshold(count)
  {
    hide Mix;
    var threshold := Threshold(count);
    next, draws := state, 0;
    ghost var rejected: set<int> := {};
    while true
      invariant 0 <= draws <= threshold && next == Advance(state, draws)
      invariant forall k :: 1 <= k <= draws ==> Word(state, k) < threshold
      invariant |rejected| == draws
      invariant forall x :: x in rejected <==> exists k :: 1 <= k <= draws && x == Word(state, k)
      decreases threshold - draws
    {
      AdvanceOnce(state, draws);
      next := (next + GAMMA) % MODULUS;
      draws := draws + 1;
      var value := Mix(next);
      if value >= threshold {
        index := value % count;
        return;
      }
      forall k | 1 <= k < draws ensures Word(state, k) != value { WordsDiffer(state, k, draws); }
      rejected := rejected + {value};
      BoundedSet(rejected, threshold);
    }
  }

  // ---------------------------------------------------------------- every index is equally likely

  /** The words with remainder i in n consecutive runs of count words. */
  function Hits(lo: nat, n: nat, count: nat, i: nat): set<int>
    requires count >= 1
  {
    set v | lo <= v < RunStart(lo, n, count) && v % count == i
  }

  /** The one word of a run with remainder i. */
  function Hit(lo: nat, count: nat, i: nat): (v: int)
    requires i < count
    ensures lo <= v < lo + count && v % count == i
  {
    var q, r := (i - lo) / count, (i - lo) % count;
    assert lo + r == count * -q + i;
    DivisionUnique(lo + r, count, -q, i);
    lo + r
  }

  lemma HitIsUnique(lo: nat, count: nat, i: nat, v: int)
    requires i < count && lo <= v < lo + count && v % count == i
    ensures v == Hit(lo, count, i)
  {
    var h := Hit(lo, count, i);
    var e := v / count - h / count;
    assert v - h == count * e by { assert v == count * (v / count) + i && h == count * (h / count) + i; }
    Multiple(count, e);
  }

  function RunStart(lo: nat, n: nat, count: nat): nat { lo + count * n }

  lemma HitsStep(lo: nat, n: nat, count: nat, i: nat)
    requires i < count && n > 0
    ensures var h := Hit(RunStart(lo, n - 1, count), count, i);
      h !in Hits(lo, n - 1, count, i) && Hits(lo, n, count, i) == Hits(lo, n - 1, count, i) + {h}
  {
    var base, end := RunStart(lo, n - 1, count), RunStart(lo, n, count);
    RunStep(lo, n, count);
    hide RunStart, Hit;
    var h := Hit(base, count, i);
    var before, after := Hits(lo, n - 1, count, i), Hits(lo, n, count, i);
    forall v | v in after ensures v in before + {h} {
      if v >= base { HitIsUnique(base, count, i, v); }
    }
    forall v | v in before ensures v in after {}
    assert h in after;
  }

  lemma RunStep(lo: nat, n: nat, count: nat)
    requires n > 0
    ensures lo <= RunStart(lo, n - 1, count)
    ensures RunStart(lo, n, count) == RunStart(lo, n - 1, count) + count
  {
    assert count * n == count * (n - 1) + count;
  }

  lemma {:induction false} HitsCount(lo: nat, n: nat, count: nat, i: nat)
    requires i < count
    ensures |Hits(lo, n, count, i)| == n
    decreases n
  {
    if n == 0 {
      assert Hits(lo, 0, count, i) == {};
    } else {
      HitsCount(lo, n - 1, count, i);
      HitsStep(lo, n, count, i);
    }
  }

  /** Every index has exactly floor(2^64 / count) accepted words. */
  lemma AcceptedWords(count: u64, i: nat)
    requires 1 <= count && i < count
    ensures |set v | Threshold(count) <= v < MODULUS && v % count == i| == MODULUS / count
  {
    var t, n := Threshold(count), MODULUS / count;
    assert t + count * n == MODULUS;
    HitsCount(t, n, count, i);
    assert Hits(t, n, count, i) == set v | t <= v < MODULUS && v % count == i;
  }

  /** The state whose first word is w. */
  function Source(w: u64): u64 { (Unmix(w) - GAMMA) % MODULUS }

  lemma SourceInverse(x: u64)
    ensures Source(Word(x, 1)) == x && Word(Source(x), 1) == x
  {
    hide Mix, Unmix;
    MixInverse(Advance(x, 1));
    MixInverse(x);
    var a := x + GAMMA;
    Congruent(a % MODULUS - GAMMA, x, -(a / MODULUS));
    var u := Unmix(x);
    var b := u - GAMMA;
    Congruent(b % MODULUS + GAMMA, u, -(b / MODULUS));
  }

  lemma {:induction false} SameSize(a: set<int>, b: set<int>)
    requires forall s :: s in a ==> 0 <= s < MODULUS && Word(s, 1) in b
    requires forall w :: w in b ==> 0 <= w < MODULUS && Source(w) in a
    ensures |a| == |b|
    decreases |a|
  {
    hide Word, Source;
    if a == {} {
      if b != {} {
        var w := Pick(b);
        assert false;
      }
    } else {
      var s := Pick(a);
      var w := Word(s, 1);
      SourceInverse(s);
      forall t | t in a - {s} ensures Word(t, 1) in b - {w} { SourceInverse(t); }
      forall v | v in b - {w} ensures Source(v) in a - {s} { SourceInverse(v); }
      SameSize(a - {s}, b - {w});
    }
  }

  /** Hence from a uniformly distributed state the first draw is accepted with every index equally
      often: each index is produced by exactly floor(2^64 / count) states. */
  lemma EveryIndexEquallyLikely(count: u64, i: nat)
    requires 1 <= count && i < count
    ensures |set s: int | 0 <= s < MODULUS && Word(s, 1) >= Threshold(count) && Word(s, 1) % count == i|
            == MODULUS / count
  {
    hide Word, Source, Threshold;
    var a := set s: int | 0 <= s < MODULUS && Word(s, 1) >= Threshold(count) && Word(s, 1) % count == i;
    var b := set v: int | Threshold(count) <= v < MODULUS && v % count == i;
    forall w | w in b ensures Source(w) in a { SourceInverse(w); }
    SameSize(a, b);
    AcceptedWords(count, i);
  }

  // ---------------------------------------------------------------- what the output map computes

  /** Each bit of x ^ (x >> s) is that of x added to the bit s places above. */
  lemma XorShiftBits(x: u64, s: nat, i: nat)
    requires i < 64
    ensures Bits(XorShift(x, s), 64)[i] == (Bits(x, 64)[i] != (i + s < 64 && Bits(x, 64)[i + s]))
  {
    var b := Bits(x, 64);
    BitsOfValue(Xor(b, Shr(b, s)));
  }

  lemma QuotientBound(v: u64, s: nat, h: nat, r: nat)
    requires s <= 64 && v == r + Pow2(s) * h
    ensures h < Pow2(64 - s)
  {
    Pow2Values();
    Pow2Sum(s, 64 - s);
    hide Pow2;
    if h >= Pow2(64 - s) {
      MultiplyMonotone(Pow2(s), Pow2(64 - s), h);
      assert false;
    }
  }

  lemma ShiftedPad(a: seq<bool>, b: seq<bool>)
    ensures Shr(a + b, |a|) == b + Zeros(|a|)
  {
  }

  lemma PaddedBits(h: nat, s: nat)
    requires s <= 64 && h < Pow2(64 - s)
    ensures Bits(h, 64) == Bits(h, 64 - s) + Zeros(s)
  {
    hide Bits, Pow2;
    BitsSplit(h, 0, 64 - s, s);
    BitsOfZero(s);
  }

  /** Shifting the bits of a number divides it by a power of two. */
  lemma ShiftedBits(v: u64, s: nat, h: nat, r: nat)
    requires s <= 64 && v == r + Pow2(s) * h && r < Pow2(s)
    ensures Shr(Bits(v, 64), s) == Bits(h, 64)
  {
    hide Bits, Pow2, Shr, Zeros;
    QuotientBound(v, s, h, r);
    BitsSplit(r, h, s, 64 - s);
    PaddedBits(h, s);
    ShiftedPad(Bits(r, s), Bits(h, 64 - s));
  }

  /** A shift by s, computed on bit-vectors. */
  lemma XorShiftOf(x: bv64, h: bv64, z: bv64, s: nat, r: nat)
    requires s <= 64 && LongNumber(x) == r + Pow2(s) * LongNumber(h) && r < Pow2(s)
    requires LongIsXor(x, h, z)
    ensures XorShift(LongNumber(x), s) == LongNumber(z)
  {
    hide LongNumber, Bits, Value, LongIsXor, Pow2;
    ShiftedBits(LongNumber(x), s, LongNumber(h), r);
    XorsToLong(x, h, z);
  }

  lemma TimesOf(m: nat, x: u64, q: nat, v: u64)
    requires m * x == v + 0x1_0000_0000_0000_0000 * q
    ensures Times(m, x) == v
  {
    DivisionUnique(m * x, MODULUS, q, v);
  }

  lemma Shifts()
    ensures Pow2(27) == 0x800_0000 && Pow2(30) == 0x4000_0000 && Pow2(31) == 0x8000_0000
  {
    Pow2Values();
    assert Pow2(32) == 2 * Pow2(31) && Pow2(31) == 2 * Pow2(30) && Pow2(30) == 8 * Pow2(27);
  }

  /** The values that occur in one application of the output map. */
  datatype Trace = Trace(x: bv64, h1: bv64, a: bv64, m1: bv64, h2: bv64, b: bv64, m2: bv64, h3: bv64, z: bv64)

  predicate Xors(t: Trace)
  {
    IsLongXor(t.x, t.h1, t.a) && IsLongXor(t.m1, t.h2, t.b) && IsLongXor(t.m2, t.h3, t.z)
  }

  lemma MixOf(t: Trace, r1: nat, r2: nat, r3: nat, q1: nat, q2: nat)
    requires Xors(t)
    requires LongNumber(t.x) == r1 + 0x4000_0000 * LongNumber(t.h1) && r1 < 0x4000_0000
    requires 0xBF58476D1CE4E5B9 * LongNumber(t.a) == LongNumber(t.m1) + 0x1_0000_0000_0000_0000 * q1
    requires LongNumber(t.m1) == r2 + 0x800_0000 * LongNumber(t.h2) && r2 < 0x800_0000
    requires 0x94D049BB133111EB * LongNumber(t.b) == LongNumber(t.m2) + 0x1_0000_0000_0000_0000 * q2
    requires LongNumber(t.m2) == r3 + 0x8000_0000 * LongNumber(t.h3) && r3 < 0x8000_0000
    ensures Mix(LongNumber(t.x)) == LongNumber(t.z)
  {
    XorsAreLong(t);
    hide LongNumber, LongIsXor, Xors, Mix, Pow2;
    Shifts();
    MixSteps(t, r1, r2, r3, q1, q2);
  }

  lemma XorsAreLong(t: Trace)
    requires Xors(t)
    ensures LongIsXor(t.x, t.h1, t.a) && LongIsXor(t.m1, t.h2, t.b) && LongIsXor(t.m2, t.h3, t.z)
  {
    hide LongIsXor, IsLongXor;
    WordsOfXor(t.x, t.h1, t.a);
    WordsOfXor(t.m1, t.h2, t.b);
    WordsOfXor(t.m2, t.h3, t.z);
  }

  lemma MixSteps(t: Trace, r1: nat, r2: nat, r3: nat, q1: nat, q2: nat)
    requires LongIsXor(t.x, t.h1, t.a) && LongIsXor(t.m1, t.h2, t.b) && LongIsXor(t.m2, t.h3, t.z)
    requires LongNumber(t.x) == r1 + Pow2(30) * LongNumber(t.h1) && r1 < Pow2(30)
    requires MIX_1 * LongNumber(t.a) == LongNumber(t.m1) + MODULUS * q1
    requires LongNumber(t.m1) == r2 + Pow2(27) * LongNumber(t.h2) && r2 < Pow2(27)
    requires MIX_2 * LongNumber(t.b) == LongNumber(t.m2) + MODULUS * q2
    requires LongNumber(t.m2) == r3 + Pow2(31) * LongNumber(t.h3) && r3 < Pow2(31)
    ensures Mix(LongNumber(t.x)) == LongNumber(t.z)
  {
    hide LongNumber, LongIsXor, XorShift, Times, Pow2;
    XorShiftOf(t.x, t.h1, t.a, 30, r1);
    TimesOf(MIX_1, LongNumber(t.a), q1, LongNumber(t.m1));
    XorShiftOf(t.m1, t.h2, t.b, 27, r2);
    TimesOf(MIX_2, LongNumber(t.b), q2, LongNumber(t.m2));
    XorShiftOf(t.m2, t.h3, t.z, 31, r3);
  }

  /** What happens to the first state after zero. */
  const FIRST := Trace(
    0x9E3779B97F4A7C15, 0x278DDE6E5, 0x9E3779BB07979AF0, 0x6F68261B57E7A770, 0xDED04C36A,
    0x6F682616BAE3641A, 0xE220A838BF5C9DDE, 0x1C4415071, 0xE220A8397B1DCDAF)

  lemma FirstXors()
    ensures Xors(FIRST)
  {
  }

  lemma FirstNumbers()
    ensures LongNumber(FIRST.x) == 0x9E3779B97F4A7C15
    ensures LongNumber(FIRST.h1) == 0x278DDE6E5
    ensures LongNumber(FIRST.a) == 0x9E3779BB07979AF0
  {
  }

  lemma MiddleNumbers()
    ensures LongNumber(FIRST.m1) == 0x6F68261B57E7A770
    ensures LongNumber(FIRST.h2) == 0xDED04C36A
    ensures LongNumber(FIRST.b) == 0x6F682616BAE3641A
  {
  }

  lemma LastNumbers()
    ensures LongNumber(FIRST.m2) == 0xE220A838BF5C9DDE
    ensures LongNumber(FIRST.h3) == 0x1C4415071
    ensures LongNumber(FIRST.z) == 0xE220A8397B1DCDAF
  {
  }

  /** The known answer of splitmix64: the first word from state zero. */
  lemma KnownAnswer()
    ensures Word(0, 1) == 0xE220A8397B1DCDAF
  {
    FirstXors();
    FirstNumbers();
    MiddleNumbers();
    LastNumbers();
    hide Mix, LongNumber, Xors;
    assert Advance(0, 1) == 0x9E3779B97F4A7C15;
    MixOf(FIRST, 0x3F4A7C15, 0x7E7A770, 0x3F5C9DDE, 0x7641F3093531F526, 0x40C2DABA32CDB214);
  }
}
