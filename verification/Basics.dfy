/** Facts about integers and sets that several modules need. */
module Basics {
  lemma Pick<T>(s: set<T>) returns (x: T)
    requires s != {}
    ensures x in s
  {
    x :| x in s;
  }

  function Flatten<T>(pieces: seq<seq<T>>): seq<T>
  {
    if pieces == [] then [] else pieces[0] + Flatten(pieces[1..])
  }

  lemma {:induction false} FlattenConcat<T>(a: seq<seq<T>>, b: seq<seq<T>>)
    ensures Flatten(a + b) == Flatten(a) + Flatten(b)
    decreases |a|
  {
    if a == [] {
      assert a + b == b;
    } else {
      assert (a + b)[1..] == a[1..] + b;
      FlattenConcat(a[1..], b);
      assert a[0] + (Flatten(a[1..]) + Flatten(b)) == (a[0] + Flatten(a[1..])) + Flatten(b);
    }
  }

  lemma FlattenSnoc<T>(a: seq<seq<T>>, last: seq<T>)
    ensures Flatten(a + [last]) == Flatten(a) + last
  {
    FlattenConcat(a, [last]);
    assert [last][1..] == [];
    assert Flatten([last]) == last;
  }

  lemma SubsetSize<T>(a: set<T>, b: set<T>)
    requires a <= b
    ensures |a| <= |b|
  {
    assert b == a + (b - a);
  }

  lemma MultiplyMonotone(k: nat, a: nat, b: nat)
    requires a <= b
    ensures k * a <= k * b
  {
    assert k * (b - a) >= 0;
  }

  lemma Multiple(d: int, e: int)
    requires d >= 1
    ensures e >= 1 ==> d * e >= d
    ensures e <= -1 ==> d * e <= -d
  {
    if e >= 1 {
      assert d * e == d * (e - 1) + d;
    } else if e <= -1 {
      assert d * e == d * (e + 1) - d;
    }
  }

  lemma DivisionUnique(v: int, d: int, q: int, r: int)
    requires d >= 1 && v == d * q + r && 0 <= r < d
    ensures v / d == q && v % d == r
  {
    var e := v / d - q;
    assert d * e == r - v % d by { assert d * (v / d) - d * q == d * e; }
    Multiple(d, e);
  }

  /** Multiplication by m modulo w is undone by an inverse of m. */
  lemma ModularInverse(w: int, m: int, inverse: int, t: int, x: int)
    requires 0 <= x < w && m * inverse == 1 + w * t
    ensures inverse * (m * x % w) % w == x
  {
    var q, r := m * x / w, m * x % w;
    assert m * x == w * q + r;
    assert inverse * r == inverse * (m * x) - inverse * (w * q);
    assert inverse * (m * x) == (m * inverse) * x;
    assert (1 + w * t) * x == x + w * (t * x);
    assert inverse * (w * q) == w * (inverse * q);
    assert w * (t * x) - w * (inverse * q) == w * (t * x - inverse * q);
    DivisionUnique(inverse * r, w, t * x - inverse * q, x);
  }
}
