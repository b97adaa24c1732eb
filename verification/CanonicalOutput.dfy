/** The published file is determined by which flows there are: neither their order, nor the order of the
    namespaces, nor the order in which Go walks its maps, nor the unstable sorts leave a trace in it
    (internal/netmon/aggregate.go, lines 168-267; internal/netmon/snapshot.go, lines 44-83). */
module CanonicalOutput {
  import opened NetTypes
  import opened Sums
  import opened SnapshotTypes
  import opened Sorting
  import opened Sockets
  import opened Cgroups
  import opened SystemLoading
  import opened Accounting
  import opened AccountingTheorems
  import opened TabFields
  import opened SnapshotText

  // ----- Row keys determine rows -----

  /** At most one process per PID is alive. */
  lemma LivePidsAreDistinct(t: Tables, starts: Starts, ns: nat)
    requires ns > 0
    ensures var rows := ProcessRows(t, starts, ns);
            && (forall j :: j in rows ==> rows[j].id == j)
            && forall j, k :: j in rows && k in rows && PidKey(rows[j]) == PidKey(rows[k]) ==> rows[j] == rows[k]
  {
  }

  ghost predicate FiledUnderOwnCgroup(t: Tables) {
    forall c :: c in t.entities ==> t.entities[c].workload.cgroupID == c
  }

  lemma {:induction false} EntitiesAreFiled(sys: SystemResolver, flows: seq<CgroupFlow>)
    requires sys.Consistent()
    ensures FiledUnderOwnCgroup(Tabulated(NO_TABLES, sys, flows))
  {
    if flows != [] {
      var n := |flows| - 1;
      EntitiesAreFiled(sys, flows[..n]);
      var t := Tabulated(NO_TABLES, sys, flows[..n]);
      var r := Resolved(sys, flows[n]);
      if r.workload.Some? {
        ElseContainerIff(sys, flows[n]);
        assert sys.workload[flows[n].cgroupID].cgroupID == flows[n].cgroupID;
      }
      assert PostAs(t, r, flows[n]) == Tabulated(NO_TABLES, sys, flows);
    }
  }

  lemma EntityKeysAreDistinct(t: Tables, ns: nat)
    requires ns > 0 && FiledUnderOwnCgroup(t)
    ensures var rows := EntityRows(t, ns);
            forall j, k :: j in rows && k in rows && EntityKey(rows[j]) == EntityKey(rows[k]) ==> rows[j] == rows[k]
  {
  }

  lemma WorkloadKeysAreDistinct(sys: SystemResolver)
    requires sys.Consistent()
    ensures var rows := ContainersOf(sys);
            forall j, k :: j in rows && k in rows && WorkloadKey(rows[j]) == WorkloadKey(rows[k]) ==> rows[j] == rows[k]
  {
  }

  // ----- Order of the namespaces -----

  lemma {:induction false} NamespacesMayBePermuted(t: Tables, sys: SystemResolver, sys': SystemResolver, flows: seq<CgroupFlow>)
    requires sys.Consistent() && SameSystem(sys, sys')
    ensures Tabulated(t, sys, flows) == Tabulated(t, sys', flows)
  {
    if flows != [] {
      var n := |flows| - 1;
      NamespacesMayBePermuted(t, sys, sys', flows[..n]);
      OneRecordEachIn(sys, flows[n].cgroupID);
      NamespaceOrderIsIrrelevant(sys, sys', flows[n]);
    }
  }

  lemma OneRecordEachIn(sys: SystemResolver, c: nat)
    requires sys.Consistent()
    ensures OneRecordEach(sys.Namespaces(c))
  {
  }

  // ----- The file -----

  lemma SameCounts(s: Snapshot, s': Snapshot, b: Breakdown, captured: nat, ns: nat, d: Direction)
    requires ns > 0 && Counts(s, b, captured, ns, d) && Counts(s', b, captured, ns, d)
    ensures s.captured.In(d) == s'.captured.In(d) && s.unknown.In(d) == s'.unknown.In(d)
    ensures s.unsupported.In(d) == s'.unsupported.In(d) && s.unmatched.In(d) == s'.unmatched.In(d)
    ensures s.ambiguous.In(d) == s'.ambiguous.In(d) && s.exited.In(d) == s'.exited.In(d)
  {
    forall r: UnknownReason ensures s.Reason(r).In(d) == s'.Reason(r).In(d) {
    }
    assert s.Reason(UNSUPPORTED).In(d) == s'.Reason(UNSUPPORTED).In(d);
    assert s.Reason(UNMATCHED).In(d) == s'.Reason(UNMATCHED).In(d);
    assert s.Reason(AMBIGUOUS).In(d) == s'.Reason(AMBIGUOUS).In(d);
    assert s.Reason(EXITED).In(d) == s'.Reason(EXITED).In(d);
  }

  lemma SameTraffic(a: Traffic, b: Traffic)
    requires a.In(Ingress) == b.In(Ingress) && a.In(Egress) == b.In(Egress)
    ensures a == b
  {
  }

  lemma SameHeaders(s: Snapshot, s': Snapshot, t: Tables, sys: SystemResolver, captured: Traffic, packets: nat,
                    now: nat, ns: nat, iface: string, drops: nat, starts: Starts)
    requires ns > 0
    requires IsCgroupSnapshot(s, t, sys, captured, packets, now, ns, iface, drops, starts)
    requires IsCgroupSnapshot(s', t, sys, captured, packets, now, ns, iface, drops, starts)
    ensures s == s'.(processes := s.processes, entities := s.entities, workloads := s.workloads)
  {
    hide Counts, BreakdownOf, Lists, SortedListing, ProcessRows, EntityRows;
    SameCounts(s, s', BreakdownOf(t, starts, Ingress), captured.rx, ns, Ingress);
    SameCounts(s, s', BreakdownOf(t, starts, Egress), captured.tx, ns, Egress);
    SameTraffic(s.captured, s'.captured);
    SameTraffic(s.unknown, s'.unknown);
    SameTraffic(s.unsupported, s'.unsupported);
    SameTraffic(s.unmatched, s'.unmatched);
    SameTraffic(s.ambiguous, s'.ambiguous);
    SameTraffic(s.exited, s'.exited);
  }

  lemma SortedAgain(sorted: seq<Workload>, rows: seq<Workload>, m: map<nat, Workload>) returns (listed: seq<Workload>)
    requires SortedListing(rows, m) && IsSortOf(sorted, rows, WorkloadKey)
    ensures Lists(listed, m) && IsSortOf(sorted, listed, WorkloadKey)
  {
    listed :| Lists(listed, m) && IsSortOf(rows, listed, WorkloadKey);
  }

  lemma SameRows(s: Snapshot, s': Snapshot, t: Tables, sys: SystemResolver, captured: Traffic, packets: nat,
                 now: nat, ns: nat, iface: string, drops: nat, starts: Starts, sorted: Snapshot, sorted': Snapshot)
    requires ns > 0 && sys.Consistent() && FiledUnderOwnCgroup(t)
    requires IsCgroupSnapshot(s, t, sys, captured, packets, now, ns, iface, drops, starts) && IsSorted(sorted, s)
    requires IsCgroupSnapshot(s', t, sys, captured, packets, now, ns, iface, drops, starts) && IsSorted(sorted', s')
    ensures sorted.processes == sorted'.processes && sorted.entities == sorted'.entities && sorted.workloads == sorted'.workloads
  {
    hide Counts, BreakdownOf, Lists, IsSortOf, SortedListing, ProcessRows, EntityRows, ContainersOf;
    LivePidsAreDistinct(t, starts, ns);
    EntityKeysAreDistinct(t, ns);
    WorkloadKeysAreDistinct(sys);
    SortedListingIsUnique(s.processes, s'.processes, ProcessRows(t, starts, ns), sorted.processes, sorted'.processes, PidKey);
    SortedListingIsUnique(s.entities, s'.entities, EntityRows(t, ns), sorted.entities, sorted'.entities, EntityKey);
    var a := SortedAgain(sorted.workloads, s.workloads, ContainersOf(sys));
    var b := SortedAgain(sorted'.workloads, s'.workloads, ContainersOf(sys));
    SortedListingIsUnique(a, b, ContainersOf(sys), sorted.workloads, sorted'.workloads, WorkloadKey);
  }

  lemma SameSnapshotSameFile(s: Snapshot, s': Snapshot, t: Tables, sys: SystemResolver, captured: Traffic, packets: nat,
                             now: nat, ns: nat, iface: string, drops: nat, starts: Starts, text: string, text': string)
    requires ns > 0 && sys.Consistent() && FiledUnderOwnCgroup(t)
    requires IsCgroupSnapshot(s, t, sys, captured, packets, now, ns, iface, drops, starts) && IsFile(text, s)
    requires IsCgroupSnapshot(s', t, sys, captured, packets, now, ns, iface, drops, starts) && IsFile(text', s')
    ensures text == text'
  {
    hide IsCgroupSnapshot, FileLines, Text, IsSortOf;
    var sorted :| IsSorted(sorted, s) && text == Text(FileLines(sorted));
    var sorted' :| IsSorted(sorted', s') && text' == Text(FileLines(sorted'));
    SameHeaders(s, s', t, sys, captured, packets, now, ns, iface, drops, starts);
    SameRows(s, s', t, sys, captured, packets, now, ns, iface, drops, starts, sorted, sorted');
    assert sorted == sorted';
  }

  /** Two polls that saw the same flows in any order, with the namespaces in any order, publish the same file
      whatever order the map loops and the sorts took. */
  lemma FileIsCanonical(sys: SystemResolver, sys': SystemResolver, flows: seq<CgroupFlow>, flows': seq<CgroupFlow>,
                        s: Snapshot, s': Snapshot, captured: Traffic, packets: nat, now: nat, ns: nat, iface: string,
                        drops: nat, starts: Starts, text: string, text': string)
    requires ns > 0 && sys.Consistent() && SameSystem(sys, sys') && multiset(flows) == multiset(flows')
    requires IsCgroupSnapshot(s, Tabulated(NO_TABLES, sys, flows), sys, captured, packets, now, ns, iface, drops, starts)
    requires IsCgroupSnapshot(s', Tabulated(NO_TABLES, sys', flows'), sys', captured, packets, now, ns, iface, drops, starts)
    requires IsFile(text, s) && IsFile(text', s')
    ensures text == text'
  {
    hide Tabulated, IsFile;
    var t := Tabulated(NO_TABLES, sys, flows);
    FlowOrderIsIrrelevant(NO_TABLES, sys, flows, flows');
    NamespacesMayBePermuted(NO_TABLES, sys, sys', flows');
    assert IsCgroupSnapshot(s', t, sys, captured, packets, now, ns, iface, drops, starts) by {
      hide Lists, Counts, SortedListing;
    }
    hide IsCgroupSnapshot;
    EntitiesAreFiled(sys, flows);
    SameSnapshotSameFile(s, s', t, sys, captured, packets, now, ns, iface, drops, starts, text, text');
  }

  /** So the file is a function of what the process table, the socket tables and the eBPF map said: two loads of
      the same scan publish the same file for the same flows. */
  lemma LoadsPublishTheSameFile(scans: seq<Scan>, tables: map<nat, Table>,
                                sys: SystemResolver, resolvers: map<nat, NamespacedResolver>, namespaces: map<nat, Namespace>,
                                sys': SystemResolver, resolvers': map<nat, NamespacedResolver>, namespaces': map<nat, Namespace>,
                                flows: seq<CgroupFlow>, flows': seq<CgroupFlow>, s: Snapshot, s': Snapshot, captured: Traffic,
                                packets: nat, now: nat, ns: nat, iface: string, drops: nat, starts: Starts, text: string, text': string)
    requires LegalScans(scans) && ns > 0 && multiset(flows) == multiset(flows')
    requires IsLoaded(sys, resolvers, namespaces, scans, tables) && IsLoaded(sys', resolvers', namespaces', scans, tables)
    requires IsCgroupSnapshot(s, Tabulated(NO_TABLES, sys, flows), sys, captured, packets, now, ns, iface, drops, starts)
    requires IsCgroupSnapshot(s', Tabulated(NO_TABLES, sys', flows'), sys', captured, packets, now, ns, iface, drops, starts)
    requires IsFile(text, s) && IsFile(text', s')
    ensures text == text'
  {
    hide *;
    LoadedIsConsistent(sys, resolvers, namespaces, scans, tables);
    LoadsShowTheSame(sys, resolvers, namespaces, sys', resolvers', namespaces', scans, tables);
    FileIsCanonical(sys, sys', flows, flows', s, s', captured, packets, now, ns, iface, drops, starts, text, text');
  }
}
