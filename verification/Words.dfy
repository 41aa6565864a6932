/** Machine words as bit sequences, least significant bit first, and little-endian byte strings. */
module Words {
  import opened Types

  function Pow2(n: nat): (p: nat)
    ensures p >= 1
  {
    if n == 0 then 1 else 2 * Pow2(n - 1)
  }

  lemma {:induction false} Pow2Sum(a: nat, b: nat)
    ensures Pow2(a + b) == Pow2(a) * Pow2(b)
  {
    if a > 0 {
      Pow2Sum(a - 1, b);
      assert Pow2(a) * Pow2(b) == 2 * (Pow2(a - 1) * Pow2(b));
    }
  }

  lemma Pow2Byte(n: nat)
    ensures Pow2(n + 8) == 0x100 * Pow2(n)
  {
    assert Pow2(n + 2) == 4 * Pow2(n);
    assert Pow2(n + 4) == 4 * Pow2(n + 2);
    assert Pow2(n + 6) == 4 * Pow2(n + 4);
    assert Pow2(n + 8) == 4 * Pow2(n + 6);
  }

  lemma Pow2Values()
    ensures Pow2(8) == 0x100 && Pow2(32) == 0x1_0000_0000 && Pow2(64) == 0x1_0000_0000_0000_0000
  {
    assert Pow2(8) == 0x100 by { Pow2Byte(0); }
    hide Pow2;
    Pow2Byte(8);
    Pow2Byte(16);
    Pow2Byte(24);
    Pow2Byte(32);
    Pow2Byte(40);
    Pow2Byte(48);
    Pow2Byte(56);
  }

  /** The low n bits of v. */
  function Bits(v: nat, n: nat): (s: seq<bool>)
    ensures |s| == n
  {
    if n == 0 then [] else [v % 2 == 1] + Bits(v / 2, n - 1)
  }

  function Value(s: seq<bool>): nat
  {
    if s == [] then 0 else (if s[0] then 1 else 0) + 2 * Value(s[1..])
  }

  lemma {:induction false} ValueBound(s: seq<bool>)
    ensures Value(s) < Pow2(|s|)
  {
    if s != [] {
      ValueBound(s[1..]);
    }
  }

  lemma {:induction false} ValueOfBits(v: nat, n: nat)
    requires v < Pow2(n)
    ensures Value(Bits(v, n)) == v
  {
    if n > 0 {
      ValueOfBits(v / 2, n - 1);
      assert Bits(v, n)[1..] == Bits(v / 2, n - 1);
    }
  }

  lemma {:induction false} BitsOfValue(s: seq<bool>)
    ensures Bits(Value(s), |s|) == s
  {
    if s != [] {
      BitsOfValue(s[1..]);
      var v := Value(s);
      assert v / 2 == Value(s[1..]);
      assert s == [s[0]] + s[1..];
    }
  }

  lemma BitsHead(v: nat, n: nat)
    requires n > 0
    ensures Bits(v, n) == [v % 2 == 1] + Bits(v / 2, n - 1)
  {
  }

  /** The bits of a number composed of a low part and a high part. */
  lemma {:induction false} BitsSplit(lo: nat, hi: nat, a: nat, b: nat)
    requires lo < Pow2(a)
    ensures Bits(lo + Pow2(a) * hi, a + b) == Bits(lo, a) + Bits(hi, b)
    decreases a
  {
    if a == 0 {
      assert Bits(lo, 0) + Bits(hi, b) == Bits(hi, b);
    } else {
      var p := Pow2(a - 1);
      assert Pow2(a) == 2 * p;
      hide Bits, Pow2;
      var k := p * hi;
      assert Pow2(a) * hi == 2 * k;
      BitsSplit(lo / 2, hi, a - 1, b);
      BitsHead(lo + 2 * k, a + b);
      BitsHead(lo, a);
      assert (lo + 2 * k) / 2 == lo / 2 + k && (lo + 2 * k) % 2 == lo % 2;
      var x, y, z := [lo % 2 == 1], Bits(lo / 2, a - 1), Bits(hi, b);
      assert x + (y + z) == (x + y) + z;
    }
  }

  // ---------------------------------------------------------------- bitwise operations

  function Xor(a: seq<bool>, b: seq<bool>): (c: seq<bool>)
    requires |a| == |b|
    ensures |c| == |a| && forall i :: 0 <= i < |a| ==> c[i] == (a[i] != b[i])
  {
    seq(|a|, i requires 0 <= i < |a| && |a| == |b| => a[i] != b[i])
  }

  function Not(a: seq<bool>): (c: seq<bool>)
    ensures |c| == |a| && forall i :: 0 <= i < |a| ==> c[i] == !a[i]
  {
    seq(|a|, i requires 0 <= i < |a| => !a[i])
  }

  function Zeros(n: nat): (c: seq<bool>)
    ensures |c| == n && forall i :: 0 <= i < n ==> !c[i]
  {
    seq(n, _ => false)
  }

  lemma {:induction false} BitsOfZero(n: nat)
    ensures Bits(0, n) == Zeros(n)
  {
    if n > 0 {
      BitsOfZero(n - 1);
    }
  }

  /** Logical right shift. */
  function Shr(a: seq<bool>, k: nat): (c: seq<bool>)
    ensures |c| == |a| && forall i :: 0 <= i < |a| ==> c[i] == (i + k < |a| && a[i + k])
  {
    seq(|a|, i requires 0 <= i < |a| => i + k < |a| && a[i + k])
  }

  // ---------------------------------------------------------------- little-endian bytes

  /** The k low-order bytes of v, least significant first. */
  function LE(v: nat, k: nat): (s: seq<byte>)
    ensures |s| == k
  {
    if k == 0 then [] else [v % 0x100] + LE(v / 0x100, k - 1)
  }

  function FromLE(s: seq<byte>): nat
  {
    if s == [] then 0 else s[0] + 0x100 * FromLE(s[1..])
  }

  lemma {:induction false} FromLEBound(s: seq<byte>)
    ensures FromLE(s) < Pow2(8 * |s|)
  {
    if s != [] {
      FromLEBound(s[1..]);
      Pow2Values();
      Pow2Sum(8, 8 * |s[1..]|);
    }
  }

  lemma {:induction false} FromLEOfLE(v: nat, k: nat)
    requires v < Pow2(8 * k)
    ensures FromLE(LE(v, k)) == v
  {
    if k > 0 {
      Pow2Values();
      Pow2Sum(8, 8 * (k - 1));
      FromLEOfLE(v / 0x100, k - 1);
      assert LE(v, k)[1..] == LE(v / 0x100, k - 1);
    }
  }

  lemma {:induction false} LEOfFromLE(s: seq<byte>)
    ensures LE(FromLE(s), |s|) == s
  {
    if s != [] {
      LEOfFromLE(s[1..]);
      assert FromLE(s) / 0x100 == FromLE(s[1..]);
      assert s == [s[0]] + s[1..];
    }
  }

  /** The bits of a byte string in transmission order: each byte least significant bit first. */
  function BitsOf(s: seq<byte>): (r: seq<bool>)
    ensures |r| == 8 * |s|
  {
    if s == [] then [] else Bits(s[0], 8) + BitsOf(s[1..])
  }

  lemma {:induction false} BitsOfConcat(a: seq<byte>, b: seq<byte>)
    ensures BitsOf(a + b) == BitsOf(a) + BitsOf(b)
    decreases |a|
  {
    if a == [] {
      assert a + b == b;
    } else {
      hide Bits;
      BitsOfConcat(a[1..], b);
      assert (a + b)[1..] == a[1..] + b;
      var x, y, z := Bits(a[0], 8), BitsOf(a[1..]), BitsOf(b);
      assert x + (y + z) == (x + y) + z;
    }
  }

  lemma {:induction false} BitsOfInjective(a: seq<byte>, b: seq<byte>)
    requires |a| == |b| && BitsOf(a) == BitsOf(b)
    ensures a == b
    decreases |a|
  {
    if a != [] {
      assert BitsOf(a)[..8] == Bits(a[0], 8) && BitsOf(b)[..8] == Bits(b[0], 8);
      assert BitsOf(a)[8..] == BitsOf(a[1..]) && BitsOf(b)[8..] == BitsOf(b[1..]);
      Pow2Values();
      ValueOfBits(a[0], 8);
      ValueOfBits(b[0], 8);
      BitsOfInjective(a[1..], b[1..]);
      assert a == [a[0]] + a[1..] && b == [b[0]] + b[1..];
    }
  }

  /** The little-endian bytes of a word carry its bits in order. */
  lemma {:induction false} BitsOfLE(v: nat, k: nat)
    ensures BitsOf(LE(v, k)) == Bits(v, 8 * k)
  {
    if k > 0 {
      BitsOfLE(v / 0x100, k - 1);
      Pow2Values();
      BitsSplit(v % 0x100, v / 0x100, 8, 8 * (k - 1));
      assert LE(v, k)[1..] == LE(v / 0x100, k - 1);
    }
  }
}
