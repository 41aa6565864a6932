/** The loops of src/run_store.cpp, each proved against the specification that the crash machine uses. */
module RunStoreLoops {
  import opened Types
  import opened Blocks
  import opened Coordinator
  import opened Reduction
  import opened Snapshot
  import opened StoreMachine
  import opened Filenames

  // ---------------------------------------------------------------- validate_manifest_snapshot

  ghost predicate RowsLoaded(w: World, files: Results, m: RunManifest, k: nat, results: Table)
    requires ValidLayout(w.layout) && k <= |m.committed|
  {
    && |results| == N(w)
    && (forall j :: 0 <= j < k ==>
          && EntryBacked(w, files, m, m.committed[j])
          && results[m.committed[j].blockId] == Some(files[EntryKey(m.committed[j])].content.result))
    && (forall i :: 0 <= i < N(w) && results[i].Some? ==>
          exists j :: 0 <= j < k && m.committed[j].blockId == i)
  }

  lemma RowsAreLoaded(w: World, files: Results, m: RunManifest, results: Table)
    requires ValidLayout(w.layout) && RowsLoaded(w, files, m, |m.committed|, results)
    ensures AllBacked(w, files, m) && results == Loaded(w, files, m)
  {
    forall e | e in m.committed ensures EntryBacked(w, files, m, e) {
      var j :| 0 <= j < |m.committed| && m.committed[j] == e;
    }
    forall i | 0 <= i < N(w) ensures results[i] == Loaded(w, files, m)[i] {
      var f := FindEntry(m.committed, i);
      if f.Some? {
        var j :| 0 <= j < |m.committed| && m.committed[j] == f.value;
        assert results[m.committed[j].blockId] == Some(files[EntryKey(f.value)].content.result);
      } else {
        assert forall j :: 0 <= j < |m.committed| ==> m.committed[j] in m.committed;
      }
    }
  }

  /** Validation of a decoded manifest against the result files it names. */
  method ValidateManifestSnapshot(w: World, files: Results, m: RunManifest) returns (r: Option<Table>)
    requires ValidLayout(w.layout) && CanonicalManifest(m)
    ensures r.Some? <==> ValidSnapshot(w, files, m)
    ensures r.Some? ==> r.value == Loaded(w, files, m)
  {
    if m.runId != w.runId || m.identity != w.identity || m.blockCount != N(w) {
      return None;
    }
    var results: Table := seq(N(w), _ => None);
    for k := 0 to |m.committed|
      invariant RowsLoaded(w, files, m, k, results)
    {
      var entry := m.committed[k];
      if !EntryBacked(w, files, m, entry) {
        return None;
      }
      assert forall j :: 0 <= j < k ==> m.committed[j].blockId < entry.blockId;
      results := results[entry.blockId := Some(files[EntryKey(entry)].content.result)];
    }
    RowsAreLoaded(w, files, m, results);
    var reduced := ReduceBlockResults(w.merge, EMPTY_AGGREGATE, LeavesOf(results));
    if reduced != m.aggregate {
      return None;
    }
    if m.status == Complete && exists i :: 0 <= i < |results| && results[i].None? {
      return None;
    }
    return Some(results);
  }

  // ---------------------------------------------------------------- load_latest_valid_manifest

  predicate Descending(s: seq<u64>)
  {
    forall i, j :: 0 <= i < j < |s| ==> s[i] >= s[j]
  }

  function Insert(x: u64, s: seq<u64>): (r: seq<u64>)
  {
    if |s| == 0 || x >= s[0] then [x] + s else [s[0]] + Insert(x, s[1..])
  }

  lemma {:induction false} InsertPermutes(x: u64, s: seq<u64>)
    ensures multiset(Insert(x, s)) == multiset(s) + multiset{x}
    decreases |s|
  {
    if |s| > 0 && x < s[0] {
      InsertPermutes(x, s[1..]);
      assert s == [s[0]] + s[1..];
    }
  }

  lemma SameMembers(x: u64, s: seq<u64>, y: u64)
    ensures y in Insert(x, s) <==> y == x || y in s
  {
    InsertPermutes(x, s);
    assert y in Insert(x, s) <==> y in multiset(Insert(x, s));
    assert y in s <==> y in multiset(s);
  }

  lemma {:induction false} InsertSorts(x: u64, s: seq<u64>)
    requires Descending(s)
    ensures Descending(Insert(x, s))
    decreases |s|
  {
    if |s| > 0 && x < s[0] {
      var rest := Insert(x, s[1..]);
      InsertSorts(x, s[1..]);
      forall i | 0 <= i < |rest| ensures s[0] >= rest[i] {
        SameMembers(x, s[1..], rest[i]);
      }
      DescendingCons(s[0], rest);
    }
  }

  lemma DescendingCons(x: u64, s: seq<u64>)
    requires Descending(s) && forall i :: 0 <= i < |s| ==> x >= s[i]
    ensures Descending([x] + s)
  {
  }

  /** Candidates in the order of the scan, highest sequence first. */
  method SortCandidates(names: seq<u64>) returns (r: seq<u64>)
    ensures Descending(r) && multiset(r) == multiset(names)
    ensures forall y :: y in r <==> y in names
  {
    hide Descending, Insert;
    r := [];
    assert Descending(r) by { NothingDescends(); }
    for i := 0 to |names|
      invariant Descending(r) && multiset(r) == multiset(names[..i])
    {
      assert names[..i + 1] == names[..i] + [names[i]];
      InsertSorts(names[i], r);
      InsertPermutes(names[i], r);
      r := Insert(names[i], r);
    }
    assert names[..|names|] == names;
    forall y ensures y in r <==> y in names {
      assert y in r <==> y in multiset(r);
      assert y in names <==> y in multiset(names);
    }
  }

  lemma NothingDescends()
    ensures Descending([])
  {
  }

  /** The scan from the highest to the lowest manifest name, in whatever order the directory lists them. */
  method LoadLatestValidManifest(w: World, d: Disk, listing: seq<u64>)
    returns (sawManifest: bool, highest: u64, loaded: Option<u64>)
    requires ValidLayout(w.layout) && forall x :: x in listing <==> x in d.manifests
    ensures sawManifest <==> d.manifests != map[]
    ensures sawManifest ==> IsHighest(d.manifests.Keys, highest)
    ensures loaded == LatestSelectable(w, d)
  {
    hide LatestSelectable, ValidSnapshot, AllBacked;
    var candidates := SortCandidates(listing);
    assert forall x :: x in candidates <==> x in d.manifests;
    sawManifest, highest := |candidates| > 0, 0;
    if |candidates| == 0 {
      assert d.manifests == map[] by { assert forall x :: x !in d.manifests; }
      return sawManifest, highest, None;
    }
    highest := candidates[0];
    assert candidates[0] in candidates;
    for k := 0 to |candidates|
      invariant forall j :: 0 <= j < k ==> !Selectable(w, d, candidates[j])
    {
      var sequence := candidates[k];
      assert sequence in candidates;
      if Selectable(w, d, sequence) {
        assert forall x :: x in d.manifests && Selectable(w, d, x) ==> x <= sequence by {
          forall x | x in d.manifests && Selectable(w, d, x) ensures x <= sequence {
            var j :| 0 <= j < |candidates| && candidates[j] == x;
          }
        }
        return sawManifest, highest, Some(sequence);
      }
    }
    return sawManifest, highest, None;
  }

  // ---------------------------------------------------------------- remove_orphan_block_results

  /** A directory of result files under their actual names, with whatever else lies there. */
  type Directory = map<string, File<DurableBlockRecord>>

  function NameOf(k: ResultKey): string
  {
    BlockName(k.block, k.incarnation, k.epoch)
  }

  /** The result files of a directory, by the keys their names stand for. */
  ghost predicate Holds(dir: Directory, k: ResultKey)
  {
    NameOf(k) in dir
  }

  /** The name is that of a result which the recovered snapshot does not reference. */
  predicate OrphanName(st: Store, name: string)
  {
    match ParseBlockName(name)
    case None => false
    case Some(p) => IsOrphan(st, ResultKey(p.block, p.incarnation, p.epoch))
  }

  /** Cleanup keeps every file it does not recognise and every referenced result, and removes exactly the
      unreferenced ones. */
  method RemoveOrphanBlockResults(dir: Directory, listing: seq<string>, st: Store) returns (dir': Directory)
    requires forall name :: name in listing <==> name in dir
    ensures forall name :: name in dir' <==> name in dir && !OrphanName(st, name)
    ensures forall name :: name in dir' ==> dir'[name] == dir[name]
    ensures forall k :: Holds(dir', k) <==> Holds(dir, k) && !IsOrphan(st, k)
  {
    dir' := dir;
    for i := 0 to |listing|
      invariant forall name :: name in dir' <==> name in dir && !(name in listing[..i] && OrphanName(st, name))
      invariant forall name :: name in dir' ==> dir'[name] == dir[name]
    {
      var name := listing[i];
      assert listing[..i + 1] == listing[..i] + [name];
      if OrphanName(st, name) {
        dir' := dir' - {name};
      }
    }
    assert listing[..|listing|] == listing;
    forall k ensures OrphanName(st, NameOf(k)) <==> IsOrphan(st, k) {
      BlockNameRoundTrip(NameOf(k), k.block, k.incarnation, k.epoch);
    }
  }

  // ---------------------------------------------------------------- checkpoint

  predicate RowMatches(st: Store, i: nat)
    requires |st.durable| == |st.leaves| == |st.received| == |st.coordinator.payloads| && i < |st.received|
  {
    st.received[i] ==>
      && st.durable[i].Some?
      && st.coordinator.payloads[i] == Some(st.durable[i].value.checksum)
      && st.leaves[i] == st.durable[i].value.aggregate
  }

  /** The loop of checkpoint over the received bitmap: lease table, committed rows and evidence checks. */
  method CollectRows(st: Store) returns (r: Option<(seq<u64>, seq<ManifestEntry>)>)
    requires |st.durable| == |st.leaves| == |st.received| == |st.coordinator.payloads|
    requires |st.coordinator.blocks| == |st.received|
    ensures r.Some? <==> EvidenceMatches(st)
    ensures r.Some? ==> r.value == (EpochsOf(st.coordinator.blocks), EntriesOf(Evidence(st)))
  {
    var epochs: seq<u64> := [];
    var committed: seq<ManifestEntry> := [];
    ghost var evidence := Evidence(st);
    for index := 0 to |st.received|
      invariant epochs == EpochsOf(st.coordinator.blocks)[..index]
      invariant forall i :: 0 <= i < index ==> RowMatches(st, i)
      invariant committed == EntriesOf(evidence[..index])
    {
      epochs := epochs + [st.coordinator.blocks[index].epoch];
      assert evidence[..index + 1][..index] == evidence[..index];
      if !RowMatches(st, index) {
        return None;
      }
      if st.received[index] {
        committed := committed + [EntryOf(st.durable[index].value)];
      }
    }
    assert evidence[..|st.received|] == evidence;
    assert epochs == EpochsOf(st.coordinator.blocks);
    assert EvidenceMatches(st) by {
      forall i | 0 <= i < |st.received| ensures RowMatches(st, i) {}
      assert forall i :: 0 <= i < |st.received| && st.received[i] ==> RowMatches(st, i);
    }
    return Some((epochs, committed));
  }

  method BuildCheckpoint(w: World, st: Store, status: RunStatus, failure: Option<FailureRecord>)
    returns (r: Option<RunManifest>)
    requires ValidLayout(w.layout) && SizesAgree(w, st)
    ensures r == CheckpointManifest(w, st, status, failure)
  {
    hide EvidenceMatches, Evidence, EpochsOf, EntriesOf, Tree, BlockCount;
    if st.status != Running || !UniverseMatches(w, st) {
      return None;
    }
    if status == Complete && exists i :: 0 <= i < |st.received| && !st.received[i] {
      return None;
    }
    if (status == Failed) != failure.Some? {
      return None;
    }
    var rows := CollectRows(st);
    if rows.None? || st.sequence == U64_MAX {
      return None;
    }
    var aggregate := ReduceBlockResults(w.merge, EMPTY_AGGREGATE, st.leaves);
    return Some(RunManifest(w.runId, w.identity, st.sequence + 1, status, st.incarnation, N(w), rows.value.0,
                            rows.value.1, aggregate, failure));
  }
}
