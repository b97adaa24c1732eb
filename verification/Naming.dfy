/** From the process table and the socket tables to the name of a connection's process: loading, socket lookup and
    attribution together (internal/netmon/cgroup.go, lines 129-243; internal/netmon/proc.go, lines 130-204). */
module Naming {
  import opened NetTypes
  import opened Sockets
  import opened Cgroups
  import opened SystemLoading
  import opened SnapshotTypes

  predicate Holds(scan: Scan, n: nat, inode: nat) {
    scan.netNS == n && inode in scan.inodes
  }

  lemma {:induction false} NobodyElseHolds(scans: seq<Scan>, n: nat, inode: nat)
    requires forall j :: 0 <= j < |scans| ==> !Holds(scans[j], n, inode)
    ensures HoldersOf(scans, n, inode) == []
  {
    if scans != [] {
      NobodyElseHolds(scans[..|scans| - 1], n, inode);
      assert !Holds(scans[|scans| - 1], n, inode);
    }
  }

  lemma {:induction false} SoleHolder(scans: seq<Scan>, i: nat, inode: nat)
    requires i < |scans| && inode in scans[i].inodes
    requires forall j :: 0 <= j < |scans| && j != i ==> !Holds(scans[j], scans[i].netNS, inode)
    ensures HoldersOf(scans, scans[i].netNS, inode) == [scans[i].id]
  {
    var n := |scans| - 1;
    if i < n {
      assert !Holds(scans[n], scans[i].netNS, inode);
      SoleHolder(scans[..n], i, inode);
    } else {
      NobodyElseHolds(scans[..n], scans[i].netNS, inode);
    }
  }

  /** The connection is listed once in the namespace of the process, only this process holds its socket, and no
      other namespace with processes of the cgroup lists the connection. */
  ghost predicate IsConnectionOf(scans: seq<Scan>, tables: map<nat, Table>, i: nat, flow: FlowKey)
    requires i < |scans|
  {
    && (exists pid, inode ::
          && Represents(scans, scans[i].netNS, pid) && OnlySocket(Elements(TableAt(tables, pid).entries), flow, inode)
          && inode in scans[i].inodes && forall j :: 0 <= j < |scans| && j != i ==> !Holds(scans[j], scans[i].netNS, inode))
    && forall m, pid :: m != scans[i].netNS && Serves(scans, m, scans[i].cgroupID) && Represents(scans, m, pid) ==>
         forall e :: e in TableAt(tables, pid).entries ==> e.flow != flow
  }

  lemma OwnNamespaceFinds(ns: NamespacedResolver, data: Namespace, scans: seq<Scan>, tables: map<nat, Table>, i: nat, flow: FlowKey)
    requires i < |scans| && IsConnectionOf(scans, tables, i, flow) && flow.protocol == 6
    requires IsResolver(ns, data, tables) && IsGathered(scans, scans[i].netNS, data)
    ensures Judged(ns.resolver.Seen(), flow) == Found(scans[i].id)
    ensures scans[i].id in ns.pids
    ensures ns.pids[scans[i].id] == ProcessOwner(scans[i].id, scans[i].cgroupID, scans[i].netNS, scans[i].workload)
  {
    hide Judged, HoldersOf, OnlySocket, HasCgroups;
    var n := scans[i].netNS;
    var pid, inode :|
      && Represents(scans, n, pid) && OnlySocket(Elements(TableAt(tables, pid).entries), flow, inode)
      && inode in scans[i].inodes && forall j :: 0 <= j < |scans| && j != i ==> !Holds(scans[j], n, inode);
    assert data.representative == pid;
    SoleHolder(scans, i, inode);
    assert OwnersOf(data.owners, inode) == [scans[i].id];
    ConnectionIff(ns.resolver.Seen(), flow, scans[i].id);
  }

  lemma OtherNamespaceFindsNothing(ns: NamespacedResolver, data: Namespace, m: nat, scans: seq<Scan>, tables: map<nat, Table>, i: nat,
                                   flow: FlowKey)
    requires i < |scans| && IsConnectionOf(scans, tables, i, flow) && flow.protocol == 6
    requires m != scans[i].netNS && Serves(scans, m, scans[i].cgroupID)
    requires IsResolver(ns, data, tables) && IsGathered(scans, m, data)
    ensures Judged(ns.resolver.Seen(), flow) == Unmatched
  {
    hide Judged, HoldersOf, OnlySocket, HasCgroups, HasRecords, HasOwners;
    assert Represents(scans, m, data.representative);
    forall e | e in ns.resolver.Seen().sockets ensures e.flow != flow {
      assert e in Elements(TableAt(tables, data.representative).entries);
    }
    ConnectionIff(ns.resolver.Seen(), flow, scans[i].id);
  }

  /** Which namespace a resolver filed under a cgroup belongs to. */
  lemma FiledBy(sys: SystemResolver, resolvers: map<nat, NamespacedResolver>, namespaces: map<nat, Namespace>, scans: seq<Scan>,
                tables: map<nat, Table>, c: nat, k: nat) returns (m: nat)
    requires IsLoaded(sys, resolvers, namespaces, scans, tables) && k < |sys.Namespaces(c)|
    ensures m in namespaces && m in resolvers && sys.Namespaces(c)[k] == resolvers[m] && Serves(scans, m, c)
    ensures IsResolver(resolvers[m], namespaces[m], tables) && IsGathered(scans, m, namespaces[m])
  {
    hide IsResolver, Lists, HasRecords, HasOwners, Represents;
    assert Lists(ResolversAt(sys.byCgroup, c), Serving(resolvers, namespaces, c));
    ListedAreValues(ResolversAt(sys.byCgroup, c), Serving(resolvers, namespaces, c));
    assert sys.Namespaces(c) == ResolversAt(sys.byCgroup, c);
    assert sys.Namespaces(c)[k] in Serving(resolvers, namespaces, c).Values;
    m :| m in Serving(resolvers, namespaces, c) && Serving(resolvers, namespaces, c)[m] == sys.Namespaces(c)[k];
    assert IsGathered(scans, m, namespaces[m]);
  }

  lemma FiledUnder(sys: SystemResolver, resolvers: map<nat, NamespacedResolver>, namespaces: map<nat, Namespace>, scans: seq<Scan>,
                   tables: map<nat, Table>, i: nat) returns (k: nat)
    requires IsLoaded(sys, resolvers, namespaces, scans, tables) && i < |scans|
    ensures scans[i].netNS in resolvers && scans[i].netNS in namespaces
    ensures k < |sys.Namespaces(scans[i].cgroupID)| && sys.Namespaces(scans[i].cgroupID)[k] == resolvers[scans[i].netNS]
    ensures IsResolver(resolvers[scans[i].netNS], namespaces[scans[i].netNS], tables)
    ensures IsGathered(scans, scans[i].netNS, namespaces[scans[i].netNS])
  {
    hide Gathered, Lists, IsResolver, Serving;
    var c, n := scans[i].cgroupID, scans[i].netNS;
    ScanIsServed(resolvers, namespaces, scans, tables, i);
    ListedAreValues(ResolversAt(sys.byCgroup, c), Serving(resolvers, namespaces, c));
    assert Serving(resolvers, namespaces, c)[n] in ResolversAt(sys.byCgroup, c);
    k :| 0 <= k < |ResolversAt(sys.byCgroup, c)| && ResolversAt(sys.byCgroup, c)[k] == Serving(resolvers, namespaces, c)[n];
    ServedByItsOwn(resolvers, namespaces, scans, c, n);
  }

  lemma ServedByItsOwn(resolvers: map<nat, NamespacedResolver>, namespaces: map<nat, Namespace>, scans: seq<Scan>, c: nat, n: nat)
    requires Gathered(scans, namespaces) && n in Serving(resolvers, namespaces, c)
    ensures n in resolvers && n in namespaces && Serving(resolvers, namespaces, c)[n] == resolvers[n] && IsGathered(scans, n, namespaces[n])
  {
    hide IsGathered;
  }

  /** The bytes of a TCP connection are attributed to the one process that holds its socket, with the record that was
      scanned: from the tables to the name, whatever the order in which anything was visited. */
  lemma ConnectionIsNamed(sys: SystemResolver, resolvers: map<nat, NamespacedResolver>, namespaces: map<nat, Namespace>,
                          scans: seq<Scan>, tables: map<nat, Table>, i: nat, sample: CgroupFlow)
    requires IsLoaded(sys, resolvers, namespaces, scans, tables) && i < |scans|
    requires IsConnectionOf(scans, tables, i, sample.flow) && sample.flow.protocol == 6 && sample.cgroupID == scans[i].cgroupID
    ensures Resolved(sys, sample).process
      == Some(ProcessOwner(scans[i].id, scans[i].cgroupID, scans[i].netNS, scans[i].workload.(attribution := "socket")))
  {
    hide Judged, IsLoaded, IsConnectionOf, IsResolver, IsGathered, IsNamed, Resolved;
    var all, owner := sys.Namespaces(sample.cgroupID), ProcessOwner(scans[i].id, scans[i].cgroupID, scans[i].netNS, scans[i].workload);
    var k := FiledUnder(sys, resolvers, namespaces, scans, tables, i);
    OwnNamespaceFinds(all[k], namespaces[scans[i].netNS], scans, tables, i, sample.flow);
    assert Recognises(all[k], sample, owner);
    NamedIff(all, sample, owner);
    forall j, other | 0 <= j < |all| && Recognises(all[j], sample, other) ensures other == owner {
      var m := FiledBy(sys, resolvers, namespaces, scans, tables, sample.cgroupID, j);
      if m != scans[i].netNS {
        OtherNamespaceFindsNothing(all[j], namespaces[m], m, scans, tables, i, sample.flow);
      }
    }
    forall other | IsNamed(all, sample, other) ensures other == owner {
      NamedIff(all, sample, other);
    }
    NamesProcessIff(sys, sample, scans[i].id);
    NamedOwnerIsRecorded(sys, sample);
  }
}
