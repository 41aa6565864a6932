/** The fixed-position pairwise reduction of block aggregates (src/runtime/engine.cpp). */
module Reduction {
  import opened Types

  /** The largest power of two strictly below n. */
  function SplitPoint(n: nat): (p: nat)
    requires n >= 2
    ensures 1 <= p < n <= 2 * p
  {
    if n == 2 then 1 else 2 * SplitPoint((n + 1) / 2)
  }

  ghost predicate IsPowerOfTwo(p: nat)
  {
    p == 1 || (p >= 2 && p % 2 == 0 && IsPowerOfTwo(p / 2))
  }

  lemma {:induction false} SplitPointIsPowerOfTwo(n: nat)
    requires n >= 2
    ensures IsPowerOfTwo(SplitPoint(n))
  {
    if n > 2 {
      SplitPointIsPowerOfTwo((n + 1) / 2);
      assert SplitPoint(n) / 2 == SplitPoint((n + 1) / 2);
    }
  }

  /** The reduction tree: n leaves are split at the largest power of two below n. */
  function Tree<A>(merge: (A, A) -> A, empty: A, leaves: seq<A>): A
    decreases |leaves|
  {
    if |leaves| == 0 then empty
    else if |leaves| == 1 then leaves[0]
    else
      var p := SplitPoint(|leaves|);
      merge(Tree(merge, empty, leaves[..p]), Tree(merge, empty, leaves[p..]))
  }

  /** One level of the loop: neighbours are merged, an odd last element is carried over. */
  function Level<A>(merge: (A, A) -> A, s: seq<A>): (r: seq<A>)
    ensures |r| == (|s| + 1) / 2
  {
    if |s| <= 1 then s else [merge(s[0], s[1])] + Level(merge, s[2..])
  }

  lemma LevelHead<A>(merge: (A, A) -> A, s: seq<A>)
    requires |s| >= 2
    ensures Level(merge, s) == [merge(s[0], s[1])] + Level(merge, s[2..])
  {
  }

  lemma ConsSplit<A>(x: A, s: seq<A>, k: nat)
    requires 1 <= k <= |s| + 1
    ensures ([x] + s)[..k] == [x] + s[..k - 1] && ([x] + s)[k..] == s[k - 1..]
  {
  }

  lemma SlicesOfTail<A>(s: seq<A>, p: nat)
    requires 2 <= p <= |s|
    ensures s[2..][..p - 2] == s[..p][2..] && s[2..][p - 2..] == s[p..]
    ensures s[..p][0] == s[0] && s[..p][1] == s[1]
  {
  }

  lemma {:induction false} LevelSplits<A>(merge: (A, A) -> A, s: seq<A>, p: nat)
    requires p <= |s| && p % 2 == 0
    ensures Level(merge, s)[..p / 2] == Level(merge, s[..p])
    ensures Level(merge, s)[p / 2..] == Level(merge, s[p..])
  {
    if p == 0 {
      assert s[..0] == [] && s[0..] == s;
    } else {
      hide Level;
      LevelHead(merge, s);
      LevelHead(merge, s[..p]);
      SlicesOfTail(s, p);
      LevelSplits(merge, s[2..], p - 2);
      assert p / 2 - 1 == (p - 2) / 2;
      ConsSplit(merge(s[0], s[1]), Level(merge, s[2..]), p / 2);
    }
  }

  lemma TreeSplits<A>(merge: (A, A) -> A, empty: A, s: seq<A>)
    requires |s| >= 2
    ensures var p := SplitPoint(|s|);
      Tree(merge, empty, s) == merge(Tree(merge, empty, s[..p]), Tree(merge, empty, s[p..]))
  {
  }

  lemma TreeOfPair<A>(merge: (A, A) -> A, empty: A, a: A, b: A)
    ensures Tree(merge, empty, [a, b]) == merge(a, b) && Tree(merge, empty, [a]) == a
  {
    assert [a, b][..1] == [a] && [a, b][1..] == [b];
  }

  lemma SplitPointHalves(n: nat)
    requires n > 2
    ensures SplitPoint(n) == 2 * SplitPoint((n + 1) / 2)
  {
  }

  lemma TreeOfSmallLevel<A>(merge: (A, A) -> A, empty: A, s: seq<A>)
    requires 1 <= |s| <= 2
    ensures Tree(merge, empty, Level(merge, s)) == Tree(merge, empty, s)
  {
    if |s| == 2 {
      assert s == [s[0], s[1]] && Level(merge, s) == [merge(s[0], s[1])];
      TreeOfPair(merge, empty, s[0], s[1]);
      TreeOfPair(merge, empty, merge(s[0], s[1]), s[1]);
    }
  }

  /** Replacing the leaves by one level of merges does not change the tree, for any operator. */
  lemma {:induction false} TreeOfLevel<A>(merge: (A, A) -> A, empty: A, s: seq<A>)
    requires |s| >= 1
    ensures Tree(merge, empty, Level(merge, s)) == Tree(merge, empty, s)
    decreases |s|
  {
    hide Tree, Level, SplitPoint;
    if |s| <= 2 {
      TreeOfSmallLevel(merge, empty, s);
    } else {
      var p, l := SplitPoint(|s|), Level(merge, s);
      SplitPointHalves(|s|);
      LevelSplits(merge, s, p);
      TreeSplits(merge, empty, l);
      TreeSplits(merge, empty, s);
      assert l[..p / 2] == Level(merge, s[..p]) && l[p / 2..] == Level(merge, s[p..]);
      TreeOfLevel(merge, empty, s[..p]);
      TreeOfLevel(merge, empty, s[p..]);
    }
  }

  /** The inner loop: one pass over a level. */
  method NextLevel<A>(merge: (A, A) -> A, level: seq<A>) returns (next: seq<A>)
    ensures next == Level(merge, level)
  {
    next := [];
    var index := 0;
    while index < |level|
      invariant 0 <= index <= |level| + 1
      invariant index <= |level| ==> next + Level(merge, level[index..]) == Level(merge, level)
      invariant index > |level| ==> next == Level(merge, level)
    {
      ghost var rest := level[index..];
      if index + 1 < |level| {
        assert rest[2..] == level[index + 2..];
        next := next + [merge(level[index], level[index + 1])];
      } else {
        assert Level(merge, rest) == [level[index]];
        next := next + [level[index]];
      }
      index := index + 2;
    }
  }

  /** The level-by-level loop, equal to the recursive tree for every operator, associative or not. */
  method ReduceBlockResults<A>(merge: (A, A) -> A, empty: A, leaves: seq<A>) returns (r: A)
    ensures r == Tree(merge, empty, leaves)
  {
    if |leaves| == 0 {
      return empty;
    }
    var level := leaves;
    while |level| > 1
      invariant |level| >= 1
      invariant Tree(merge, empty, level) == Tree(merge, empty, leaves)
      decreases |level|
    {
      TreeOfLevel(merge, empty, level);
      level := NextLevel(merge, level);
    }
    return level[0];
  }

  // ---------------------------------------------------------------- the tree against a left-to-right pass

  ghost predicate IsAssociative<A(!new)>(merge: (A, A) -> A)
  {
    forall a, b, c :: merge(merge(a, b), c) == merge(a, merge(b, c))
  }

  /** One leaf after the other, from the left. */
  function Sequential<A>(merge: (A, A) -> A, s: seq<A>): A
    requires s != []
    decreases |s|
  {
    if |s| == 1 then s[0] else merge(Sequential(merge, s[..|s| - 1]), s[|s| - 1])
  }

  lemma {:induction false} SequentialConcat<A(!new)>(merge: (A, A) -> A, a: seq<A>, b: seq<A>)
    requires IsAssociative(merge) && a != [] && b != []
    ensures Sequential(merge, a + b) == merge(Sequential(merge, a), Sequential(merge, b))
    decreases |b|
  {
    var last := b[|b| - 1];
    assert (a + b)[..|a + b| - 1] == a + b[..|b| - 1];
    if |b| == 1 {
      assert a + b[..0] == a;
    } else {
      SequentialConcat(merge, a, b[..|b| - 1]);
    }
  }

  /** The tree keeps the order of the leaves: for an associative operator, commutative or not, it is one pass from
      left to right. */
  lemma {:induction false} TreeIsSequential<A(!new)>(merge: (A, A) -> A, empty: A, s: seq<A>)
    requires IsAssociative(merge) && s != []
    ensures Tree(merge, empty, s) == Sequential(merge, s)
    decreases |s|
  {
    if |s| > 1 {
      var p := SplitPoint(|s|);
      TreeIsSequential(merge, empty, s[..p]);
      TreeIsSequential(merge, empty, s[p..]);
      SequentialConcat(merge, s[..p], s[p..]);
      assert s[..p] + s[p..] == s;
    }
  }

  /** The merge of the present leaves only, along the same tree. */
  function PresentTree<A>(merge: (A, A) -> A, leaves: seq<Option<A>>): Option<A>
    decreases |leaves|
  {
    if |leaves| == 0 then None
    else if |leaves| == 1 then leaves[0]
    else
      var p := SplitPoint(|leaves|);
      match (PresentTree(merge, leaves[..p]), PresentTree(merge, leaves[p..]))
      case (None, r) => r
      case (l, None) => l
      case (Some(l), Some(r)) => Some(merge(l, r))
  }

  function Filled<A>(empty: A, leaves: seq<Option<A>>): (r: seq<A>)
    ensures |r| == |leaves|
  {
    seq(|leaves|, i requires 0 <= i < |leaves| => if leaves[i].Some? then leaves[i].value else empty)
  }

  ghost predicate IsIdentity<A(!new)>(merge: (A, A) -> A, empty: A)
  {
    forall a :: merge(empty, a) == a && merge(a, empty) == a
  }

  /** With the empty aggregate as identity, an un-received leaf leaves the merges of the received
      ones as they are: the snapshot aggregate is the tree of the committed blocks alone. */
  lemma {:induction false} MissingLeavesAreNeutral<A(!new)>(
    merge: (A, A) -> A, empty: A, leaves: seq<Option<A>>)
    requires IsIdentity(merge, empty)
    ensures Tree(merge, empty, Filled(empty, leaves)) ==
            (var t := PresentTree(merge, leaves); if t.Some? then t.value else empty)
    decreases |leaves|
  {
    var f := Filled(empty, leaves);
    if |leaves| >= 2 {
      var p := SplitPoint(|leaves|);
      assert f[..p] == Filled(empty, leaves[..p]);
      assert f[p..] == Filled(empty, leaves[p..]);
      MissingLeavesAreNeutral(merge, empty, leaves[..p]);
      MissingLeavesAreNeutral(merge, empty, leaves[p..]);
    }
  }
}
