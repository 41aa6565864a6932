/** The block universe: make_blocks in src/runtime/engine.cpp and the checks of make_coordinator_state. */
module Blocks {
  import opened Types

  const MAX_SCENARIOS: u64 := 0x100_0000_0000

  /** The part of the run specification and engine configuration that fixes the blocks. */
  datatype Layout = Layout(total: u64, blockSize: u64, antithetic: bool)

  /** What RunSpec::validate and EngineConfig::validate demand of the layout. */
  predicate ValidLayout(l: Layout)
  {
    && 1 <= l.total <= MAX_SCENARIOS && l.blockSize >= 1
    && (l.antithetic ==> l.total % 2 == 0 && l.blockSize % 2 == 0)
  }

  lemma DivisionBounds(a: nat, b: nat)
    requires b >= 1
    ensures 0 <= a / b <= a
    ensures (a / b) * b <= a < (a / b) * b + b
  {
  }

  function BlockCount(l: Layout): (n: nat)
    requires ValidLayout(l)
    ensures 1 <= n <= l.total
  {
    DivisionBounds(l.total - 1, l.blockSize);
    1 + (l.total - 1) / l.blockSize
  }

  /** Every product that make_blocks forms stays below the scenario limit, so nothing wraps. */
  lemma StartInRange(l: Layout, i: nat)
    requires ValidLayout(l) && i < BlockCount(l)
    ensures 0 <= i * l.blockSize < l.total
  {
    DivisionBounds(l.total - 1, l.blockSize);
    Monotone(i, (l.total - 1) / l.blockSize, l.blockSize);
  }

  lemma {:induction false} Monotone(i: nat, j: nat, s: nat)
    requires i <= j
    ensures 0 <= i * s <= j * s
    ensures i < j ==> i * s + s <= j * s
  {
    if i < j {
      Monotone(i, j - 1, s);
      assert j * s == (j - 1) * s + s;
    }
  }

  function Start(l: Layout, i: nat): (s: u64)
    requires ValidLayout(l) && i < BlockCount(l)
    ensures s < l.total
  {
    StartInRange(l, i);
    i * l.blockSize
  }

  function End(l: Layout, i: nat): (e: u64)
    requires ValidLayout(l) && i < BlockCount(l)
    ensures Start(l, i) < e <= l.total
  {
    var rest := l.total - Start(l, i);
    Start(l, i) + if l.blockSize <= rest then l.blockSize else rest
  }

  function Block(l: Layout, i: nat, incarnation: u64, epoch: u64): ScenarioBlock
    requires ValidLayout(l) && i < BlockCount(l)
  {
    ScenarioBlock(i, Start(l, i), End(l, i), incarnation, epoch)
  }

  /** The number of observations a block contributes: antithetic pairs count once. */
  function Observations(l: Layout, i: nat): nat
    requires ValidLayout(l) && i < BlockCount(l)
  {
    var count := End(l, i) - Start(l, i);
    if l.antithetic then count / 2 else count
  }

  /** Every block has the configured size, but for the last one, which may be smaller. */
  lemma BlockSizes(l: Layout, i: nat)
    requires ValidLayout(l) && i < BlockCount(l)
    ensures i + 1 < BlockCount(l) ==> End(l, i) - Start(l, i) == l.blockSize
    ensures 1 <= End(l, i) - Start(l, i) <= l.blockSize
  {
    if i + 1 < BlockCount(l) {
      StartInRange(l, i + 1);
      assert (i + 1) * l.blockSize == i * l.blockSize + l.blockSize;
    }
  }

  /** The observations of the first k blocks. */
  function TotalObservations(l: Layout, k: nat): nat
    requires ValidLayout(l) && k <= BlockCount(l)
  {
    if k == 0 then 0 else TotalObservations(l, k - 1) + Observations(l, k - 1)
  }

  lemma {:induction false} ObservationsUpTo(l: Layout, k: nat)
    requires ValidLayout(l) && 1 <= k <= BlockCount(l)
    ensures TotalObservations(l, k) * (if l.antithetic then 2 else 1) == End(l, k - 1)
    decreases k
  {
    hide BlockCount, Start, End;
    if l.antithetic { BlocksRespectPairs(l, k - 1); }
    if k > 1 {
      ObservationsUpTo(l, k - 1);
      BlocksPartition(l, k - 2);
    } else {
      BlocksPartition(l, 0);
    }
  }

  /** No observation is lost or counted twice: over all blocks there is one for every scenario, or for every pair of
      antithetic scenarios. */
  lemma ObservationsAddUp(l: Layout)
    requires ValidLayout(l)
    ensures TotalObservations(l, BlockCount(l)) * (if l.antithetic then 2 else 1) == l.total
  {
    hide BlockCount, Start, End;
    ObservationsUpTo(l, BlockCount(l));
    BlocksPartition(l, 0);
  }

  /** The blocks are the consecutive pieces of [0, total). */
  lemma BlocksPartition(l: Layout, i: nat)
    requires ValidLayout(l) && i < BlockCount(l)
    ensures Start(l, 0) == 0 && End(l, BlockCount(l) - 1) == l.total
    ensures i + 1 < BlockCount(l) ==> End(l, i) == Start(l, i + 1)
  {
    DivisionBounds(l.total - 1, l.blockSize);
    if i + 1 < BlockCount(l) {
      StartInRange(l, i + 1);
      assert (i + 1) * l.blockSize == i * l.blockSize + l.blockSize;
    }
  }

  lemma EvenProduct(i: nat, s: nat)
    requires s % 2 == 0
    ensures (i * s) % 2 == 0
  {
    assert i * s == 2 * (i * (s / 2));
  }

  lemma EvenEnd(start: nat, size: nat, total: nat)
    requires start <= total && start % 2 == 0 && size % 2 == 0 && total % 2 == 0
    ensures (start + if size <= total - start then size else total - start) % 2 == 0
  {
  }

  /** No block splits an antithetic pair. */
  lemma BlocksRespectPairs(l: Layout, i: nat)
    requires ValidLayout(l) && i < BlockCount(l) && l.antithetic
    ensures Start(l, i) % 2 == 0 && End(l, i) % 2 == 0
  {
    EvenProduct(i, l.blockSize);
    EvenEnd(Start(l, i), l.blockSize, l.total);
  }

  /** Every scenario lies in exactly one block. */
  lemma ScenarioInOneBlock(l: Layout, scenario: u64, i: nat)
    requires ValidLayout(l) && scenario < l.total && i < BlockCount(l)
    ensures Start(l, i) <= scenario < End(l, i) <==> i == scenario / l.blockSize
    ensures scenario / l.blockSize < BlockCount(l)
  {
    var s, b := l.blockSize, scenario / l.blockSize;
    DivisionBounds(scenario, s);
    DivisionBounds(l.total - 1, s);
    var q := (l.total - 1) / s;
    if b > q {
      Monotone(q, b, s);
      assert false;
    }
    if i < b {
      Monotone(i, b, s);
    } else if i > b {
      Monotone(b, i, s);
    }
  }

  method MakeBlocks(l: Layout, maxBlocks: u64) returns (r: Result<seq<ScenarioBlock>>)
    ensures r.Ok? <==> ValidLayout(l) && maxBlocks >= 1 && BlockCount(l) <= maxBlocks
    ensures r.Ok? ==> 1 <= l.total <= 0x100_0000_0000 && l.blockSize >= 1
    ensures r.Ok? && l.antithetic ==> l.total % 2 == 0 && l.blockSize % 2 == 0
    ensures r.Ok? ==> |r.value| == BlockCount(l)
    ensures r.Ok? ==> forall i :: 0 <= i < |r.value| ==> r.value[i] == Block(l, i, 0, 1)
  {
    if !ValidLayout(l) || maxBlocks == 0 {
      return Err("invalid run specification or engine configuration");
    }
    var count := 1 + (l.total - 1) / l.blockSize;
    if count > maxBlocks {
      return Err("run exceeds the materialization limit");
    }
    var blocks: seq<ScenarioBlock> := [];
    for id := 0 to count
      invariant |blocks| == id
      invariant forall i :: 0 <= i < id ==> blocks[i] == Block(l, i, 0, 1)
    {
      StartInRange(l, id);
      var start := id * l.blockSize;
      var rest := l.total - start;
      var end := start + if l.blockSize <= rest then l.blockSize else rest;
      blocks := blocks + [ScenarioBlock(id, start, end, 0, 1)];
    }
    return Ok(blocks);
  }
}
