/** The invariant of the durable run: what the disk, the manifest log and the process memory keep through
    every step, every crash and every decay of a file. */
module StoreInvariant {
  import opened Types
  import opened Blocks
  import opened Coordinator
  import opened Reduction
  import opened Snapshot
  import opened StoreMachine

  // ---------------------------------------------------------------- the disk

  /** Only a running manifest has a successor, and its commit set carries over. Within an incarnation the
      leases stay as they are; a later incarnation has raised every lease epoch. */
  ghost predicate Extends(m: RunManifest, m': RunManifest)
  {
    && m.status == Running
    && (forall e :: e in m.committed ==> e in m'.committed)
    && |m.epochs| == |m'.epochs|
    && m.incarnation <= m'.incarnation
    && (m.incarnation == m'.incarnation ==> m'.epochs == m.epochs)
    && (m.incarnation < m'.incarnation ==> forall i :: 0 <= i < |m.epochs| ==> m.epochs[i] < m'.epochs[i])
  }

  lemma RefsExtend(m: RunManifest, m': RunManifest)
    requires Extends(m, m')
    ensures RefKeys(m) <= RefKeys(m')
  {
  }

  ghost predicate Ordered(d: Disk)
  {
    forall x, y | x in d.manifests && y in d.manifests && x < y ::
      d.manifests[x].Readable? && d.manifests[y].Readable? ==>
        Extends(d.manifests[x].content, d.manifests[y].content)
  }

  /** What holds of a disk that has seen crashes but no decay: every manifest is valid and later manifests
      extend earlier ones. */
  ghost predicate PristineDisk(w: World, d: Disk)
    requires ValidLayout(w.layout)
  {
    && (forall k :: k in d.results ==> d.results[k].Readable?)
    && (forall x :: x in d.manifests ==> Selectable(w, d, x))
    && Ordered(d)
    && (d.manifests == map[] ==> d.results == map[])
  }

  ghost predicate DiskOK(w: World, d: Disk, pristine: bool)
    requires ValidLayout(w.layout)
  {
    HonestFiles(w, d.results) && (pristine ==> PristineDisk(w, d))
  }

  // ---------------------------------------------------------------- the log

  ghost predicate SlackUpTo(log: map<u64, LogEntry>, x: u64)
  {
    exists y :: y in log && y <= x && log[y].slack
  }

  /** The sequence numbers are consecutive from zero. Incarnations never decrease with the sequence number,
      and stay at most one ahead of it: exactly one ahead until the first checkpoint or fallback, never ahead
      from then on. */
  ghost predicate LogShape(log: map<u64, LogEntry>)
  {
    && (forall x, y :: x in log && 0 <= y < x ==> y in log)
    && (forall x, y :: x in log && y in log && x < y ==> log[x].incarnation <= log[y].incarnation)
    && (forall x :: x in log && SlackUpTo(log, x) ==> 0 < log[x].incarnation <= x)
    && (forall x :: x in log && !SlackUpTo(log, x) ==> log[x].incarnation == x + 1)
  }

  ghost predicate LogOK(d: Disk, log: map<u64, LogEntry>)
  {
    && log.Keys == d.manifests.Keys
    && (forall x :: x in log && d.manifests[x].Readable? ==>
          d.manifests[x].content.sequence == x &&
          d.manifests[x].content.incarnation == log[x].incarnation)
    && LogShape(log)
  }

  // ---------------------------------------------------------------- the memory

  ghost predicate StoreOK(w: World, st: Store)
    requires ValidLayout(w.layout)
  {
    && StoreReady(w, st)
    && st.interval >= 1
    && st.incarnation != 0
    && st.coordinator.identity == w.identity
    && st.coordinator.incarnation == st.incarnation
    && st.coordinator.antithetic == w.layout.antithetic
    && (forall i :: 0 <= i < N(w) ==>
          var b := st.coordinator.blocks[i];
          b == Block(w.layout, i, st.incarnation, b.epoch) && b.epoch != 0)
    && GoodTable(w, st.durable, st.incarnation, st.coordinator.blocks)
    && (forall i :: 0 <= i < N(w) && st.committed[i].Some? ==> st.committed[i] == st.durable[i])
    && st.received == ReceivedOf(st.durable)
    && st.leaves == LeavesOf(st.durable)
    && st.coordinator.payloads == PayloadsOf(st.durable)
    && st.recovered + st.computed == CountTrue(st.received)
  }

  /** Every durable result has its file, readable or not. */
  ghost predicate NamesOnDisk(names: set<ResultKey>, results: Table)
  {
    forall i :: 0 <= i < |results| && results[i].Some? ==> KeyOf(results[i].value) in names
  }

  /** The store continues the newest manifest. */
  ghost predicate AtNewest(d: Disk, log: map<u64, LogEntry>, st: Store)
  {
    && IsHighest(log.Keys, st.sequence)
    && log[st.sequence].incarnation == st.incarnation
  }

  /** Without decay, memory and disk agree on what is committed and what is durable. */
  ghost predicate MemoryMatchesDisk(w: World, d: Disk, st: Store)
  {
    && TableOnDisk(w, d.results, st.durable)
    && st.sequence in d.manifests && d.manifests[st.sequence].Readable?
    && var m := d.manifests[st.sequence].content;
       && m.status == st.status && m.incarnation == st.incarnation
       && m.epochs == EpochsOf(st.coordinator.blocks)
       && m.committed == EntriesOf(st.committed)
  }

  ghost predicate StoreAt(w: World, d: Disk, log: map<u64, LogEntry>, pristine: bool, st: Store)
    requires ValidLayout(w.layout)
  {
    && StoreOK(w, st) && AtNewest(d, log, st) && NamesOnDisk(d.results.Keys, st.durable)
    && (pristine ==> MemoryMatchesDisk(w, d, st))
  }

  /** Every result file on disk is one that this process recovered or recorded. */
  ghost predicate Tidy(files: Results, st: Store)
  {
    forall k :: k in files ==>
      k.block < |st.durable| && st.durable[k.block].Some? && KeyOf(st.durable[k.block].value) == k
  }

  ghost function Uncommitted(files: Results, st: Store): set<ResultKey>
  {
    set k | k in files && IsOrphan(st, k)
  }

  ghost predicate Working(w: World, d: Disk, log: map<u64, LogEntry>, pristine: bool, st: Store)
    requires ValidLayout(w.layout)
  {
    && StoreAt(w, d, log, pristine, st)
    && st.status == Running
    && Tidy(d.results, st)
    && |Uncommitted(d.results, st)| == st.pending <= st.interval
  }

  ghost predicate AllReceived(st: Store)
  {
    forall i :: 0 <= i < |st.received| ==> st.received[i]
  }

  ghost predicate ServingOK(w: World, d: Disk, log: map<u64, LogEntry>, pristine: bool, st: Store)
    requires ValidLayout(w.layout)
  {
    Working(w, d, log, pristine, st) && (st.pending < st.interval || AllReceived(st))
  }

  ghost predicate RecoveringOK(w: World, d: Disk, log: map<u64, LogEntry>, pristine: bool, st: Store)
    requires ValidLayout(w.layout)
  {
    && StoreAt(w, d, log, pristine, st)
    && st.committed == st.durable && st.pending == 0 && st.computed == 0
    && (st.status == Complete ==> AllReceived(st))
  }

  /** A terminal store may have been selected by falling back, so it need not continue the newest
      manifest unless the disk is pristine. */
  ghost predicate TerminalOK(w: World, d: Disk, log: map<u64, LogEntry>, pristine: bool, st: Store)
    requires ValidLayout(w.layout)
  {
    && st.status != Running
    && StoreOK(w, st) && NamesOnDisk(d.results.Keys, st.durable)
    && st.sequence in log && log[st.sequence].incarnation == st.incarnation
    && (pristine ==> AtNewest(d, log, st) && MemoryMatchesDisk(w, d, st))
    && st.committed == st.durable && st.computed == 0
    && (st.status == Complete ==> AllReceived(st))
  }

  /** The leaves of an uninterrupted run: every block's own aggregate, in block order. */
  ghost function AllAggregates(w: World): (s: seq<AggregateStats>)
    requires ValidLayout(w.layout)
    ensures |s| == N(w) && forall i :: 0 <= i < N(w) ==> s[i] == w.compute(i)
  {
    seq(N(w), i requires 0 <= i < N(w) => w.compute(i))
  }

  /** The result of a finished run: the fixed tree over every block's own aggregate. */
  ghost predicate OutcomeOK(w: World, o: Outcome)
    requires ValidLayout(w.layout)
  {
    && o.aggregate == Tree(w.merge, EMPTY_AGGREGATE, AllAggregates(w))
    && o.blockCount == N(w)
    && o.recovered + o.computed == N(w)
  }

  ghost predicate FinishOK(w: World, d: Disk, log: map<u64, LogEntry>, pristine: bool, st: Store)
    requires ValidLayout(w.layout)
  {
    StoreAt(w, d, log, pristine, st) && st.status == Complete && AllReceived(st)
  }

  /** A result names an installed manifest; without decay this is the newest one, and it is complete. */
  ghost predicate OutcomeNamed(d: Disk, log: map<u64, LogEntry>, pristine: bool, o: Outcome)
  {
    && o.sequence in log && log[o.sequence].incarnation == o.incarnation
    && (pristine ==>
          && IsHighest(log.Keys, o.sequence)
          && o.sequence in d.manifests && d.manifests[o.sequence].Readable?
          && d.manifests[o.sequence].content.status == Complete)
  }

  ghost predicate NextOK(w: World, d: Disk, log: map<u64, LogEntry>, pristine: bool, next: Continuation)
    requires ValidLayout(w.layout)
  {
    match next
    case ToLoad => true
    case ToCleanup(st) => RecoveringOK(w, d, log, pristine, st) && st.status == Running
    case ToAccepted(st) => Working(w, d, log, pristine, st)
    case ToServing(st) => ServingOK(w, d, log, pristine, st)
    case ToFinish(st) => FinishOK(w, d, log, pristine, st)
    case ToFailure => true
  }

  ghost predicate BaseOK(w: World, d: Disk, log: map<u64, LogEntry>, pristine: bool)
    requires ValidLayout(w.layout)
  {
    DiskOK(w, d, pristine) && LogOK(d, log)
  }

  /** While a file is being installed, the disk is good without it, will be good with it, and its name
      is still free: the immutable-file conflict cannot arise. */
  ghost predicate InstallOK(w: World, s: State)
    requires ValidLayout(w.layout) && s.phase.Install?
  {
    var p := s.phase;
    if p.stage == Renamed then NextOK(w, s.disk, s.log, s.pristine, p.next)
    else
      var d, log := Installed(s.disk, p.artifact), Logged(s.log, p.artifact, p.slack);
      && !Exists(s.disk, p.artifact)
      && BaseOK(w, d, log, s.pristine)
      && NextOK(w, d, log, s.pristine, p.next)
  }

  ghost predicate PhaseOK(w: World, s: State)
    requires ValidLayout(w.layout)
  {
    match s.phase
    case Down => true
    case RemoveTemporaries => true
    case CheckMetadata => true
    case LoadManifest => true
    case Install(_, _, _, _) => InstallOK(w, s)
    case Cleanup(st) =>
      if st.status == Running then RecoveringOK(w, s.disk, s.log, s.pristine, st)
      else TerminalOK(w, s.disk, s.log, s.pristine, st)
    case Serving(st) => ServingOK(w, s.disk, s.log, s.pristine, st)
    case ResultAccepted(st) => Working(w, s.disk, s.log, s.pristine, st)
    case Finished(o) => OutcomeOK(w, o) && OutcomeNamed(s.disk, s.log, s.pristine, o)
  }

  ghost predicate Inv(w: World, s: State)
    requires ValidWorld(w)
  {
    s.interval >= 1 && BaseOK(w, s.disk, s.log, s.pristine) && PhaseOK(w, s)
  }
}
