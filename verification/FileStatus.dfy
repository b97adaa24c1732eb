/** What the status of a file does not say: whether the socket tables of every network namespace could be read
    (internal/netmon/cgroup.go, lines 195-209; internal/netmon/run_linux.go, lines 126-145). */
module FileStatus {
  import opened NetTypes
  import opened Sockets
  import opened FlowCounters
  import opened Cgroups
  import opened SystemLoading
  import opened SnapshotTypes
  import opened RunLoop
  import opened RunTheorems

  /** The socket tables of every namespace could be read through its representative. */
  ghost predicate AllRead(scans: seq<Scan>, tables: map<nat, Table>) {
    forall n, pid :: Represents(scans, n, pid) ==> !TableAt(tables, pid).failed
  }

  /** The poll got its processes from a load of this scan; as always, no error came with them. */
  ghost predicate IsLoadedFor(poll: Poll, scans: seq<Scan>, tables: map<nat, Table>) {
    && poll.system.Some? && poll.systemError.None?
    && exists resolvers, namespaces :: IsLoaded(poll.system.value, resolvers, namespaces, scans, tables)
  }

  /** With loaded processes, the status depends on the eBPF map alone. */
  lemma OkOfLoadedIff(cfg: Config, s: State, e: Event, scans: seq<Scan>, tables: map<nat, Table>)
    requires e.turn.poll.Valid() && IsTurn(cfg, s, e) && Explained(s) && e.written.Some?
    requires IsLoadedFor(e.turn.poll, scans, tables)
    ensures e.written.value.status == "ok" <==> s.baselines.Some? && IsComplete(e.turn.poll)
  {
    hide IsTurn, Explained, IsComplete, IsLoaded;
    OkIff(cfg, s, e);
  }

  /** "ok" is a promise that every namespace was read iff they all were, or the map was not walked completely,
      or eBPF is not in use. */
  lemma OkMeansAllReadIff(cfg: Config, s: State, e: Event, scans: seq<Scan>, tables: map<nat, Table>)
    requires e.turn.poll.Valid() && IsTurn(cfg, s, e) && Explained(s) && e.written.Some?
    requires IsLoadedFor(e.turn.poll, scans, tables)
    ensures (e.written.value.status == "ok" ==> AllRead(scans, tables))
      <==> AllRead(scans, tables) || s.baselines.None? || !IsComplete(e.turn.poll)
  {
    hide IsTurn, Explained, IsComplete, IsLoadedFor, AllRead;
    OkOfLoadedIff(cfg, s, e, scans, tables);
  }

  /** A file that some turn of the loop wrote after loading this scan. */
  ghost predicate IsWrittenAfter(file: Snapshot, scans: seq<Scan>, tables: map<nat, Table>) {
    exists cfg: Config, s: State, e: Event :: e.turn.poll.Valid() && IsTurn(cfg, s, e) && IsLoadedFor(e.turn.poll, scans, tables) && e.written == Some(file)
  }

  const ONE_SECOND := Config("eth0", [], {}, 1_000_000_000, true)
  const NO_SOCKETS := Resolver(map[], map[])
  const QUIET := Walk([], Completed)

  /** Whatever could and could not be read: one second without traffic, and the file says "ok". */
  method WriteQuietSecond(scans: seq<Scan>, tables: map<nat, Table>) returns (file: Snapshot)
    requires LegalScans(scans)
    ensures IsWrittenAfter(file, scans, tables) && file.status == "ok"
  {
    hide IsLoaded, LegalScans, IsTaken, Counted, AfterPoll;
    var sys, failed, resolvers, namespaces := LoadSystemResolver(scans, tables);
    var poll := Poll(Some(0), [QUIET, QUIET, QUIET, QUIET], "", Some(sys), None, map[], true, NO_SOCKETS);
    assert IsComplete(poll);
    assert IsLoadedFor(poll, scans, tables);
    var collector := new Collector(ONE_SECOND, None, 0, NO_SOCKETS);
    ghost var before := collector.Contents();
    assert Explained(before);
    var turn := Turn(Timeout, 1_000_000_000, poll);
    var written, stop, seen := collector.TakeTurn(turn);
    ghost var e := Event(turn, seen, written, stop, collector.Contents());
    assert written.Some?;
    OkOfLoadedIff(ONE_SECOND, before, e, scans, tables);
    file := written.value;
  }

  const ONE_PROCESS := [Scan(ProcessID(1, 1), 0, 0, NO_WORKLOAD, [])]
  const UNREADABLE := map[1 := Table([], true)]

  /** So a file says "ok" after a load that could not read the only namespace there is. */
  method WriteOkUnread() returns (file: Snapshot)
    ensures IsWrittenAfter(file, ONE_PROCESS, UNREADABLE) && file.status == "ok" && !AllRead(ONE_PROCESS, UNREADABLE)
  {
    file := WriteQuietSecond(ONE_PROCESS, UNREADABLE);
    assert ONE_PROCESS[0].netNS == 0 && ONE_PROCESS[0].id.pid == 1;
    assert Represents(ONE_PROCESS, 0, 1);
  }
}
