/** How the system resolver is assembled from one pass over the process table
    (internal/netmon/cgroup.go, lines 129-210 and 448-455). What each /proc entry said is an input. */
module SystemLoading {
  import opened NetTypes
  import opened Sockets
  import opened Cgroups
  import opened SnapshotTypes

  /** One readable process: its network namespace, cgroup and the workload of that cgroup, and the inodes of
      its sockets. */
  datatype Scan = Scan(id: ProcessID, netNS: nat, cgroupID: nat, workload: Workload, inodes: seq<nat>)

  datatype Namespace = Namespace(
    representative: nat,
    owners: map<nat, seq<ProcessID>>,
    processes: map<ProcessID, ProcessOwner>,
    cgroups: set<nat>)

  /** What the socket tables of one process say, and whether one of them could not be read. */
  datatype Table = Table(entries: seq<SocketEntry>, failed: bool)

  function TableAt(tables: map<nat, Table>, pid: nat): Table {
    if pid in tables then tables[pid] else Table([], false)
  }

  function Record(scan: Scan): ProcessOwner {
    ProcessOwner(scan.id, scan.cgroupID, scan.netNS, scan.workload)
  }

  /** Directory names are distinct, and a workload is computed for the cgroup it is filed under. */
  predicate LegalScans(scans: seq<Scan>) {
    && (forall i, j :: 0 <= i < j < |scans| ==> scans[i].id.pid != scans[j].id.pid)
    && (forall i :: 0 <= i < |scans| ==> scans[i].workload.cgroupID == scans[i].cgroupID)
  }

  method AppendUniqueProcess(items: seq<ProcessID>, process: ProcessID) returns (r: seq<ProcessID>)
    ensures r == if process in items then items else items + [process]
  {
    for i := 0 to |items|
      invariant process !in items[..i]
    {
      if items[i] == process {
        return items;
      }
    }
    assert items[..|items|] == items;
    return items + [process];
  }

  function With(holders: seq<ProcessID>, process: ProcessID, holds: bool): seq<ProcessID> {
    if holds && process !in holders then holders + [process] else holders
  }

  /** The owner lists with one more process at the end of the list of each of its sockets. */
  ghost predicate HolderAdded(owners: map<nat, seq<ProcessID>>, r: map<nat, seq<ProcessID>>, process: ProcessID, inodes: seq<nat>) {
    && (forall inode :: inode in r <==> inode in owners || inode in inodes)
    && forall inode :: OwnersOf(r, inode) == With(OwnersOf(owners, inode), process, inode in inodes)
  }

  lemma HolderAddedOnce(owners: map<nat, seq<ProcessID>>, r: map<nat, seq<ProcessID>>, process: ProcessID, inodes: seq<nat>, inode: nat)
    requires HolderAdded(owners, r, process, inodes)
    ensures HolderAdded(owners, r[inode := With(OwnersOf(r, inode), process, true)], process, inodes + [inode])
  {
    hide With;
    var r' := r[inode := With(OwnersOf(r, inode), process, true)];
    forall other ensures other in inodes + [inode] <==> other in inodes || other == inode {
    }
    forall other
      ensures other in r' <==> other in owners || other in inodes + [inode]
      ensures OwnersOf(r', other) == With(OwnersOf(owners, other), process, other in inodes + [inode])
    {
      WithAgain(OwnersOf(owners, other), process, other in inodes);
      assert OwnersOf(r, other) == With(OwnersOf(owners, other), process, other in inodes);
    }
  }

  lemma WithAgain(holders: seq<ProcessID>, process: ProcessID, holds: bool)
    ensures With(With(holders, process, holds), process, true) == With(holders, process, true)
  {
  }

  method AddHolder(owners: map<nat, seq<ProcessID>>, process: ProcessID, inodes: seq<nat>)
    returns (r: map<nat, seq<ProcessID>>)
    ensures HolderAdded(owners, r, process, inodes)
  {
    r := owners;
    assert HolderAdded(owners, r, process, inodes[..0]);
    hide HolderAdded, OwnersOf;
    for i := 0 to |inodes|
      invariant HolderAdded(owners, r, process, inodes[..i])
    {
      assert inodes[..i + 1] == inodes[..i] + [inodes[i]];
      HolderAddedOnce(owners, r, process, inodes[..i], inodes[i]);
      var holders := AppendUniqueProcess(OwnersOf(r, inodes[i]), process);
      r := r[inodes[i] := holders];
    }
    assert inodes[..|inodes|] == inodes;
  }

  // ----- Specification: the namespaces of a scan -----

  ghost predicate IsScanned(scans: seq<Scan>, n: nat) {
    exists i :: 0 <= i < |scans| && scans[i].netNS == n
  }

  ghost predicate Runs(scans: seq<Scan>, n: nat, p: ProcessID) {
    exists i :: 0 <= i < |scans| && scans[i].netNS == n && scans[i].id == p
  }

  ghost predicate Serves(scans: seq<Scan>, n: nat, c: nat) {
    exists i :: 0 <= i < |scans| && scans[i].netNS == n && scans[i].cgroupID == c
  }

  /** The processes of the namespace that hold a socket, in the order in which they were scanned. */
  function HoldersOf(scans: seq<Scan>, n: nat, inode: nat): seq<ProcessID> {
    if scans == [] then []
    else
      var last := scans[|scans| - 1];
      HoldersOf(scans[..|scans| - 1], n, inode) + if last.netNS == n && inode in last.inodes then [last.id] else []
  }

  ghost predicate HasRecords(scans: seq<Scan>, n: nat, processes: map<ProcessID, ProcessOwner>) {
    && (forall p :: p in processes <==> Runs(scans, n, p))
    && forall i :: 0 <= i < |scans| && scans[i].netNS == n ==>
         scans[i].id in processes && processes[scans[i].id] == Record(scans[i])
  }

  ghost predicate HasOwners(scans: seq<Scan>, n: nat, owners: map<nat, seq<ProcessID>>) {
    && (forall inode :: inode in owners <==> HoldersOf(scans, n, inode) != [])
    && forall inode :: OwnersOf(owners, inode) == HoldersOf(scans, n, inode)
  }

  ghost predicate HasCgroups(scans: seq<Scan>, n: nat, cgroups: set<nat>) {
    forall c :: c in cgroups <==> Serves(scans, n, c)
  }

  /** The smallest PID seen in the namespace. */
  ghost predicate Represents(scans: seq<Scan>, n: nat, pid: nat) {
    && (exists i :: 0 <= i < |scans| && scans[i].netNS == n && scans[i].id.pid == pid)
    && forall i :: 0 <= i < |scans| && scans[i].netNS == n ==> pid <= scans[i].id.pid
  }

  ghost predicate IsGathered(scans: seq<Scan>, n: nat, data: Namespace) {
    && HasRecords(scans, n, data.processes) && HasOwners(scans, n, data.owners) && HasCgroups(scans, n, data.cgroups)
    && Represents(scans, n, data.representative)
  }

  ghost predicate Gathered(scans: seq<Scan>, namespaces: map<nat, Namespace>) {
    && (forall n :: n in namespaces <==> IsScanned(scans, n))
    && forall n :: n in namespaces ==> IsGathered(scans, n, namespaces[n])
  }

  /** The workload of a cgroup is that of its last process. */
  function WorkloadsOf(scans: seq<Scan>): map<nat, Workload> {
    if scans == [] then map[]
    else
      var last := scans[|scans| - 1];
      WorkloadsOf(scans[..|scans| - 1])[last.cgroupID := last.workload]
  }

  // ----- One more process -----

  lemma ScannedGrows(scans: seq<Scan>, scan: Scan, n: nat)
    ensures IsScanned(scans + [scan], n) <==> IsScanned(scans, n) || scan.netNS == n
  {
    var all := scans + [scan];
    assert all[|scans|] == scan && forall i :: 0 <= i < |scans| ==> all[i] == scans[i];
  }

  lemma RunsGrows(scans: seq<Scan>, scan: Scan, n: nat, p: ProcessID)
    ensures Runs(scans + [scan], n, p) <==> Runs(scans, n, p) || (scan.netNS == n && scan.id == p)
  {
    var all := scans + [scan];
    assert all[|scans|] == scan && forall i :: 0 <= i < |scans| ==> all[i] == scans[i];
  }

  lemma ServesGrows(scans: seq<Scan>, scan: Scan, n: nat, c: nat)
    ensures Serves(scans + [scan], n, c) <==> Serves(scans, n, c) || (scan.netNS == n && scan.cgroupID == c)
  {
    var all := scans + [scan];
    assert all[|scans|] == scan && forall i :: 0 <= i < |scans| ==> all[i] == scans[i];
  }

  lemma HoldersGrow(scans: seq<Scan>, scan: Scan, n: nat, inode: nat)
    ensures HoldersOf(scans + [scan], n, inode)
      == HoldersOf(scans, n, inode) + if scan.netNS == n && inode in scan.inodes then [scan.id] else []
  {
    assert (scans + [scan])[..|scans|] == scans;
  }

  lemma {:induction false} HoldersAreScanned(scans: seq<Scan>, n: nat, inode: nat)
    ensures forall p :: p in HoldersOf(scans, n, inode) ==> exists i :: 0 <= i < |scans| && scans[i].id == p
  {
    if scans != [] {
      var m := |scans| - 1;
      HoldersAreScanned(scans[..m], n, inode);
      forall p | p in HoldersOf(scans, n, inode) ensures exists i :: 0 <= i < |scans| && scans[i].id == p {
        if p in HoldersOf(scans[..m], n, inode) {
          var i :| 0 <= i < m && scans[..m][i].id == p;
          assert scans[i].id == p;
        } else {
          assert scans[m].id == p;
        }
      }
    }
  }

  /** No process holds a socket twice. */
  lemma {:induction false} HoldersAreDistinct(scans: seq<Scan>, n: nat, inode: nat)
    requires LegalScans(scans)
    ensures NoRepetition(HoldersOf(scans, n, inode))
  {
    if scans != [] {
      var m := |scans| - 1;
      assert forall i :: 0 <= i < m ==> scans[..m][i] == scans[i] && scans[i].id != scans[m].id;
      HoldersAreDistinct(scans[..m], n, inode);
      HoldersAreScanned(scans[..m], n, inode);
      assert scans[m].id !in HoldersOf(scans[..m], n, inode);
    }
  }

  lemma RecordsGrow(scans: seq<Scan>, scan: Scan, n: nat, processes: map<ProcessID, ProcessOwner>)
    requires HasRecords(scans, n, processes) && forall i :: 0 <= i < |scans| ==> scans[i].id != scan.id
    ensures HasRecords(scans + [scan], n, if scan.netNS == n then processes[scan.id := Record(scan)] else processes)
  {
    var all := scans + [scan];
    forall p ensures Runs(all, n, p) <==> Runs(scans, n, p) || (scan.netNS == n && scan.id == p) {
      RunsGrows(scans, scan, n, p);
    }
    assert forall i :: 0 <= i < |scans| ==> all[i] == scans[i];
  }

  lemma OwnersGrow(scans: seq<Scan>, scan: Scan, n: nat, owners: map<nat, seq<ProcessID>>, owners': map<nat, seq<ProcessID>>)
    requires HasOwners(scans, n, owners) && forall i :: 0 <= i < |scans| ==> scans[i].id != scan.id
    requires if scan.netNS == n then HolderAdded(owners, owners', scan.id, scan.inodes) else owners' == owners
    ensures HasOwners(scans + [scan], n, owners')
  {
    hide HoldersOf;
    forall inode
      ensures inode in owners' <==> HoldersOf(scans + [scan], n, inode) != []
      ensures OwnersOf(owners', inode) == HoldersOf(scans + [scan], n, inode)
    {
      HoldersGrow(scans, scan, n, inode);
      HoldersAreScanned(scans, n, inode);
      assert OwnersOf(owners, inode) == HoldersOf(scans, n, inode);
    }
  }

  lemma CgroupsGrow(scans: seq<Scan>, scan: Scan, n: nat, cgroups: set<nat>)
    requires HasCgroups(scans, n, cgroups)
    ensures HasCgroups(scans + [scan], n, if scan.netNS == n then cgroups + {scan.cgroupID} else cgroups)
  {
    forall c ensures Serves(scans + [scan], n, c) <==> Serves(scans, n, c) || (scan.netNS == n && scan.cgroupID == c) {
      ServesGrows(scans, scan, n, c);
    }
  }

  lemma RepresentativeGrows(scans: seq<Scan>, scan: Scan, n: nat, pid: nat, pid': nat)
    requires if IsScanned(scans, n) then Represents(scans, n, pid) else scan.netNS == n && pid == scan.id.pid
    requires pid' == if scan.netNS == n && scan.id.pid < pid then scan.id.pid else pid
    ensures Represents(scans + [scan], n, pid')
  {
    var all := scans + [scan];
    assert all[|scans|] == scan && forall i :: 0 <= i < |scans| ==> all[i] == scans[i];
  }

  /** What is known of a namespace before the next process, whether it has been seen or not. */
  function DataAt(namespaces: map<nat, Namespace>, n: nat, pid: nat): Namespace {
    if n in namespaces then namespaces[n] else Namespace(pid, map[], map[], {})
  }

  lemma {:induction false} NobodyHolds(scans: seq<Scan>, n: nat, inode: nat)
    requires forall i :: 0 <= i < |scans| ==> scans[i].netNS != n
    ensures HoldersOf(scans, n, inode) == []
  {
    if scans != [] {
      NobodyHolds(scans[..|scans| - 1], n, inode);
    }
  }

  lemma NothingBefore(scans: seq<Scan>, n: nat)
    requires !IsScanned(scans, n)
    ensures HasRecords(scans, n, map[]) && HasOwners(scans, n, map[]) && HasCgroups(scans, n, {})
  {
    hide HoldersOf;
    assert forall i :: 0 <= i < |scans| ==> scans[i].netNS != n;
    forall inode ensures HoldersOf(scans, n, inode) == [] {
      NobodyHolds(scans, n, inode);
    }
  }

  lemma DataBefore(scans: seq<Scan>, namespaces: map<nat, Namespace>, n: nat, pid: nat)
    requires Gathered(scans, namespaces)
    ensures var data := DataAt(namespaces, n, pid);
            && HasRecords(scans, n, data.processes) && HasOwners(scans, n, data.owners) && HasCgroups(scans, n, data.cgroups)
            && if IsScanned(scans, n) then Represents(scans, n, data.representative) else data.representative == pid
  {
    hide HasRecords, HasOwners, HasCgroups, Represents, IsScanned;
    if n in namespaces {
      assert IsGathered(scans, n, namespaces[n]);
    } else {
      NothingBefore(scans, n);
    }
  }

  ghost predicate Extends(data: Namespace, data': Namespace, scan: Scan) {
    && data'.processes == data.processes[scan.id := Record(scan)]
    && data'.cgroups == data.cgroups + {scan.cgroupID}
    && data'.representative == (if scan.id.pid < data.representative then scan.id.pid else data.representative)
    && HolderAdded(data.owners, data'.owners, scan.id, scan.inodes)
  }

  lemma OwnIsGathered(scans: seq<Scan>, scan: Scan, namespaces: map<nat, Namespace>, data': Namespace)
    requires Gathered(scans, namespaces) && forall i :: 0 <= i < |scans| ==> scans[i].id != scan.id
    requires Extends(DataAt(namespaces, scan.netNS, scan.id.pid), data', scan)
    ensures IsGathered(scans + [scan], scan.netNS, data')
  {
    var n := scan.netNS;
    var data := DataAt(namespaces, n, scan.id.pid);
    DataBefore(scans, namespaces, n, scan.id.pid);
    hide HasRecords, HasOwners, HasCgroups, Represents, IsScanned, DataAt, Gathered, HolderAdded;
    RecordsGrow(scans, scan, n, data.processes);
    OwnersGrow(scans, scan, n, data.owners, data'.owners);
    CgroupsGrow(scans, scan, n, data.cgroups);
    RepresentativeGrows(scans, scan, n, data.representative, data'.representative);
  }

  lemma OtherIsGathered(scans: seq<Scan>, scan: Scan, n: nat, data: Namespace)
    requires IsGathered(scans, n, data) && IsScanned(scans, n) && scan.netNS != n && forall i :: 0 <= i < |scans| ==> scans[i].id != scan.id
    ensures IsGathered(scans + [scan], n, data)
  {
    hide HasRecords, HasOwners, HasCgroups, Represents, IsScanned;
    RecordsGrow(scans, scan, n, data.processes);
    OwnersGrow(scans, scan, n, data.owners, data.owners);
    CgroupsGrow(scans, scan, n, data.cgroups);
    RepresentativeGrows(scans, scan, n, data.representative, data.representative);
  }

  lemma GatheredOneMore(scans: seq<Scan>, scan: Scan, namespaces: map<nat, Namespace>, data': Namespace)
    requires Gathered(scans, namespaces) && forall i :: 0 <= i < |scans| ==> scans[i].id != scan.id
    requires Extends(DataAt(namespaces, scan.netNS, scan.id.pid), data', scan)
    ensures Gathered(scans + [scan], namespaces[scan.netNS := data'])
  {
    var r := namespaces[scan.netNS := data'];
    OwnIsGathered(scans, scan, namespaces, data');
    hide Extends, IsGathered, DataAt, IsScanned;
    forall n ensures n in r <==> IsScanned(scans + [scan], n) {
      ScannedGrows(scans, scan, n);
    }
    forall n | n in r ensures IsGathered(scans + [scan], n, r[n]) {
      if n != scan.netNS {
        OtherIsGathered(scans, scan, n, namespaces[n]);
      }
    }
  }

  method GatherNamespaces(scans: seq<Scan>) returns (namespaces: map<nat, Namespace>, workloads: map<nat, Workload>)
    requires LegalScans(scans)
    ensures Gathered(scans, namespaces)
    ensures workloads == WorkloadsOf(scans)
  {
    namespaces, workloads := map[], map[];
    for i := 0 to |scans|
      invariant Gathered(scans[..i], namespaces)
      invariant workloads == WorkloadsOf(scans[..i])
    {
      hide Gathered, Extends;
      var scan := scans[i];
      assert scans[..i + 1] == scans[..i] + [scan];
      workloads := workloads[scan.cgroupID := scan.workload];
      var data := DataAt(namespaces, scan.netNS, scan.id.pid);
      namespaces := GatherOne(scans[..i], scan, namespaces, data);
    }
    assert scans[..|scans|] == scans;
  }

  /** One process is entered into its namespace. */
  method GatherOne(ghost scans: seq<Scan>, scan: Scan, namespaces: map<nat, Namespace>, before: Namespace)
    returns (r: map<nat, Namespace>)
    requires Gathered(scans, namespaces) && before == DataAt(namespaces, scan.netNS, scan.id.pid)
    requires forall i :: 0 <= i < |scans| ==> scans[i].id != scan.id
    ensures Gathered(scans + [scan], r)
  {
    hide Gathered, DataAt;
    DataBefore(scans, namespaces, scan.netNS, scan.id.pid);
    var data := before;
    if scan.id.pid < data.representative {
      data := data.(representative := scan.id.pid);
    }
    var owners := AddHolder(data.owners, scan.id, scan.inodes);
    data := data.(
      processes := data.processes[scan.id := Record(scan)],
      cgroups := data.cgroups + {scan.cgroupID},
      owners := owners);
    r := namespaces[scan.netNS := data];
    GatheredOneMore(scans, scan, namespaces, data);
  }

  // ----- Filing the namespaces -----

  function ResolversAt(byCgroup: map<nat, seq<NamespacedResolver>>, c: nat): seq<NamespacedResolver> {
    if c in byCgroup then byCgroup[c] else []
  }

  method FileNamespace(byCgroup: map<nat, seq<NamespacedResolver>>, ns: NamespacedResolver, cgroups: set<nat>)
    returns (r: map<nat, seq<NamespacedResolver>>)
    ensures r.Keys == byCgroup.Keys + cgroups
    ensures forall c :: ResolversAt(r, c) == ResolversAt(byCgroup, c) + if c in cgroups then [ns] else []
  {
    r := byCgroup;
    var left := cgroups;
    while left != {}
      invariant left <= cgroups && r.Keys == byCgroup.Keys + (cgroups - left)
      invariant forall c :: ResolversAt(r, c) == ResolversAt(byCgroup, c) + if c in cgroups - left then [ns] else []
    {
      var c :| c in left;
      left := left - {c};
      r := r[c := ResolversAt(r, c) + [ns]];
    }
  }

  /** The resolver of a namespace: its processes, its owners, and the sockets its representative sees. */
  ghost predicate IsResolver(ns: NamespacedResolver, data: Namespace, tables: map<nat, Table>) {
    && ns.pids == data.processes && ns.resolver.Valid()
    && ns.resolver.Seen() == Evidence(Elements(TableAt(tables, data.representative).entries), data.owners)
  }

  /** The resolvers of the namespaces that have a process in the cgroup. */
  function Serving(resolvers: map<nat, NamespacedResolver>, namespaces: map<nat, Namespace>, c: nat): map<nat, NamespacedResolver> {
    map n | n in resolvers && n in namespaces && c in namespaces[n].cgroups :: resolvers[n]
  }

  /** Each cgroup lists the resolvers of its namespaces, once each, in some order. */
  ghost predicate IsFiled(byCgroup: map<nat, seq<NamespacedResolver>>, resolvers: map<nat, NamespacedResolver>,
                          namespaces: map<nat, Namespace>, tables: map<nat, Table>) {
    && resolvers.Keys <= namespaces.Keys
    && (forall n :: n in resolvers ==> IsResolver(resolvers[n], namespaces[n], tables))
    && (forall c :: c in byCgroup <==> exists n :: n in resolvers && c in namespaces[n].cgroups)
    && forall c :: Lists(ResolversAt(byCgroup, c), Serving(resolvers, namespaces, c))
  }

  lemma FiledOneMore(before: map<nat, seq<NamespacedResolver>>, after: map<nat, seq<NamespacedResolver>>,
                     resolvers: map<nat, NamespacedResolver>, namespaces: map<nat, Namespace>, tables: map<nat, Table>,
                     n: nat, ns: NamespacedResolver)
    requires IsFiled(before, resolvers, namespaces, tables) && n in namespaces && n !in resolvers
    requires IsResolver(ns, namespaces[n], tables)
    requires after.Keys == before.Keys + namespaces[n].cgroups
    requires forall c :: ResolversAt(after, c) == ResolversAt(before, c) + if c in namespaces[n].cgroups then [ns] else []
    ensures IsFiled(after, resolvers[n := ns], namespaces, tables)
  {
    hide IsResolver;
    FiledOnce(before, after, resolvers, namespaces, tables, n, ns);
    hide Lists, Serving, ResolversAt;
    forall c ensures c in after <==> exists m :: m in resolvers[n := ns] && c in namespaces[m].cgroups {
      if c in before {
        var m :| m in resolvers && c in namespaces[m].cgroups;
        assert m in resolvers[n := ns];
      } else if c in namespaces[n].cgroups {
        assert n in resolvers[n := ns];
      }
    }
  }

  lemma FiledOnce(before: map<nat, seq<NamespacedResolver>>, after: map<nat, seq<NamespacedResolver>>,
                  resolvers: map<nat, NamespacedResolver>, namespaces: map<nat, Namespace>, tables: map<nat, Table>,
                  n: nat, ns: NamespacedResolver)
    requires IsFiled(before, resolvers, namespaces, tables) && n in namespaces && n !in resolvers
    requires forall c :: ResolversAt(after, c) == ResolversAt(before, c) + if c in namespaces[n].cgroups then [ns] else []
    ensures forall c :: Lists(ResolversAt(after, c), Serving(resolvers[n := ns], namespaces, c))
  {
    hide IsResolver, Lists, ResolversAt;
    forall c ensures Lists(ResolversAt(after, c), Serving(resolvers[n := ns], namespaces, c)) {
      if c in namespaces[n].cgroups {
        assert Serving(resolvers[n := ns], namespaces, c) == Serving(resolvers, namespaces, c)[n := ns];
        ListsOneMore(ResolversAt(before, c), Serving(resolvers, namespaces, c), n, ns);
      } else {
        assert Serving(resolvers[n := ns], namespaces, c) == Serving(resolvers, namespaces, c);
        assert ResolversAt(after, c) == ResolversAt(before, c);
      }
    }
  }

  lemma NothingFiled(namespaces: map<nat, Namespace>, tables: map<nat, Table>)
    ensures IsFiled(map[], map[], namespaces, tables)
  {
    forall c ensures Lists<nat, NamespacedResolver>([], Serving(map[], namespaces, c)) {
      assert Serving(map[], namespaces, c) == map[];
      ListsNothing<nat, NamespacedResolver>();
    }
  }

  /** Everything the loaded resolver holds. */
  ghost predicate IsLoaded(sys: SystemResolver, resolvers: map<nat, NamespacedResolver>, namespaces: map<nat, Namespace>,
                           scans: seq<Scan>, tables: map<nat, Table>) {
    && Gathered(scans, namespaces) && resolvers.Keys == namespaces.Keys
    && IsFiled(sys.byCgroup, resolvers, namespaces, tables) && sys.workload == WorkloadsOf(scans)
  }

  /** Namespaces and cgroups are visited in no particular order. `failed` says that an error is returned beside
      the resolver; it never is, because a namespace whose tables could not be read still has a cgroup. */
  method LoadSystemResolver(scans: seq<Scan>, tables: map<nat, Table>)
    returns (sys: SystemResolver, failed: bool, ghost resolvers: map<nat, NamespacedResolver>, ghost namespaces: map<nat, Namespace>)
    requires LegalScans(scans)
    ensures IsLoaded(sys, resolvers, namespaces, scans, tables)
    ensures sys.Valid() && sys.Consistent()
    ensures !failed
  {
    hide *;
    var gathered, workloads := GatherNamespaces(scans);
    namespaces := gathered;
    var byCgroup: map<nat, seq<NamespacedResolver>> := map[];
    var readErrors := 0;
    resolvers := map[];
    NothingFiled(namespaces, tables);
    var left := gathered.Keys;
    while left != {}
      invariant left <= gathered.Keys && resolvers.Keys == gathered.Keys - left
      invariant IsFiled(byCgroup, resolvers, namespaces, tables)
      invariant readErrors > 0 ==> resolvers.Keys != {}
    {
      var n :| n in left;
      left := left - {n};
      var data := gathered[n];
      var table := TableAt(tables, data.representative);
      if table.failed {
        readErrors := readErrors + 1;
      }
      var resolver := NewResolver(table.entries, data.owners);
      var ns := NamespacedResolver(resolver, data.processes);
      MadeResolver(ns, data, tables);
      ghost var before := byCgroup;
      byCgroup := FileNamespace(byCgroup, ns, data.cgroups);
      FiledOneMore(before, byCgroup, resolvers, namespaces, tables, n, ns);
      resolvers := resolvers[n := ns];
    }
    sys := SystemResolver(byCgroup, workloads);
    failed := |byCgroup| == 0 && readErrors > 0;
    if readErrors > 0 {
      SomethingIsFiled(byCgroup, resolvers, scans, namespaces, tables);
    }
    FiledIsLoaded(sys, resolvers, namespaces, scans, tables);
    LoadedIsValid(sys, resolvers, namespaces, scans, tables);
    LoadedIsConsistent(sys, resolvers, namespaces, scans, tables);
  }

  lemma MadeResolver(ns: NamespacedResolver, data: Namespace, tables: map<nat, Table>)
    requires ns.pids == data.processes && ns.resolver.Valid()
    requires ns.resolver.Seen() == Evidence(Elements(TableAt(tables, data.representative).entries), data.owners)
    ensures IsResolver(ns, data, tables)
  {
  }

  lemma FiledIsLoaded(sys: SystemResolver, resolvers: map<nat, NamespacedResolver>, namespaces: map<nat, Namespace>,
                      scans: seq<Scan>, tables: map<nat, Table>)
    requires Gathered(scans, namespaces) && resolvers.Keys == namespaces.Keys
    requires IsFiled(sys.byCgroup, resolvers, namespaces, tables) && sys.workload == WorkloadsOf(scans)
    ensures IsLoaded(sys, resolvers, namespaces, scans, tables)
  {
  }

  lemma SomethingIsFiled(byCgroup: map<nat, seq<NamespacedResolver>>, resolvers: map<nat, NamespacedResolver>, scans: seq<Scan>,
                         namespaces: map<nat, Namespace>, tables: map<nat, Table>)
    requires Gathered(scans, namespaces) && IsFiled(byCgroup, resolvers, namespaces, tables) && resolvers.Keys != {}
    ensures |byCgroup| > 0
  {
    var n :| n in resolvers;
    assert IsGathered(scans, n, namespaces[n]);
    var i :| 0 <= i < |scans| && scans[i].netNS == n;
    assert Serves(scans, n, scans[i].cgroupID);
    assert scans[i].cgroupID in byCgroup;
  }

  // ----- What follows for attribution -----

  lemma ListedAreValues<K(!new), R>(rows: seq<R>, m: map<K, R>)
    requires Lists(rows, m)
    ensures forall k :: 0 <= k < |rows| ==> rows[k] in m.Values
    ensures forall n :: n in m ==> m[n] in rows
  {
  }

  /** Every filed resolver is that of a namespace. */
  lemma FiledFrom(sys: SystemResolver, resolvers: map<nat, NamespacedResolver>, namespaces: map<nat, Namespace>,
                  scans: seq<Scan>, tables: map<nat, Table>, c: nat, k: nat) returns (n: nat)
    requires IsLoaded(sys, resolvers, namespaces, scans, tables) && c in sys.byCgroup && k < |sys.byCgroup[c]|
    ensures n in namespaces && IsResolver(sys.byCgroup[c][k], namespaces[n], tables) && IsGathered(scans, n, namespaces[n])
  {
    hide IsResolver, IsGathered, Lists;
    assert Lists(ResolversAt(sys.byCgroup, c), Serving(resolvers, namespaces, c));
    ListedAreValues(ResolversAt(sys.byCgroup, c), Serving(resolvers, namespaces, c));
    assert ResolversAt(sys.byCgroup, c)[k] == sys.byCgroup[c][k];
    n :| n in Serving(resolvers, namespaces, c) && Serving(resolvers, namespaces, c)[n] == sys.byCgroup[c][k];
  }

  lemma RecordsAgree(scans: seq<Scan>, m: nat, n: nat, a: map<ProcessID, ProcessOwner>, b: map<ProcessID, ProcessOwner>, p: ProcessID)
    requires LegalScans(scans) && HasRecords(scans, m, a) && HasRecords(scans, n, b) && p in a && p in b
    ensures a[p] == b[p] && a[p].id == p
  {
  }

  lemma {:induction false} WorkloadsAreFiled(scans: seq<Scan>)
    requires forall i :: 0 <= i < |scans| ==> scans[i].workload.cgroupID == scans[i].cgroupID
    ensures forall c :: c in WorkloadsOf(scans) ==> WorkloadsOf(scans)[c].cgroupID == c
  {
    if scans != [] {
      WorkloadsAreFiled(scans[..|scans| - 1]);
    }
  }

  lemma LoadedRecordsAgree(sys: SystemResolver, resolvers: map<nat, NamespacedResolver>, namespaces: map<nat, Namespace>,
                           scans: seq<Scan>, tables: map<nat, Table>, c: nat, i: nat, d: nat, j: nat, p: ProcessID)
    requires LegalScans(scans) && IsLoaded(sys, resolvers, namespaces, scans, tables)
    requires c in sys.byCgroup && i < |sys.byCgroup[c]| && p in sys.byCgroup[c][i].pids
    requires d in sys.byCgroup && j < |sys.byCgroup[d]| && p in sys.byCgroup[d][j].pids
    ensures sys.byCgroup[c][i].pids[p] == sys.byCgroup[d][j].pids[p] && sys.byCgroup[c][i].pids[p].id == p
  {
    hide IsLoaded, LegalScans, HasRecords, HasOwners, HasCgroups, Represents;
    var m := FiledFrom(sys, resolvers, namespaces, scans, tables, c, i);
    var n := FiledFrom(sys, resolvers, namespaces, scans, tables, d, j);
    RecordsAgree(scans, m, n, namespaces[m].processes, namespaces[n].processes, p);
  }

  lemma LoadedIsValid(sys: SystemResolver, resolvers: map<nat, NamespacedResolver>, namespaces: map<nat, Namespace>,
                      scans: seq<Scan>, tables: map<nat, Table>)
    requires IsLoaded(sys, resolvers, namespaces, scans, tables)
    ensures sys.Valid()
  {
    hide IsLoaded, IsGathered;
    forall c, k: int | c in sys.byCgroup && 0 <= k < |sys.byCgroup[c]| ensures sys.byCgroup[c][k].resolver.Valid() {
      var n := FiledFrom(sys, resolvers, namespaces, scans, tables, c, k);
    }
  }

  /** A process has one record in all namespaces and cgroups, and a workload its own cgroup. */
  lemma LoadedIsConsistent(sys: SystemResolver, resolvers: map<nat, NamespacedResolver>, namespaces: map<nat, Namespace>,
                           scans: seq<Scan>, tables: map<nat, Table>)
    requires LegalScans(scans) && IsLoaded(sys, resolvers, namespaces, scans, tables)
    ensures sys.Consistent()
  {
    hide IsLoaded, LegalScans, WorkloadsOf;
    LoadedWorkloads(sys, resolvers, namespaces, scans, tables);
    forall c, i: int, d, j: int, p |
      c in sys.byCgroup && 0 <= i < |sys.byCgroup[c]| && p in sys.byCgroup[c][i].pids &&
      d in sys.byCgroup && 0 <= j < |sys.byCgroup[d]| && p in sys.byCgroup[d][j].pids
      ensures sys.byCgroup[c][i].pids[p] == sys.byCgroup[d][j].pids[p] && sys.byCgroup[c][i].pids[p].id == p
    {
      LoadedRecordsAgree(sys, resolvers, namespaces, scans, tables, c, i, d, j, p);
    }
  }

  lemma LoadedWorkloads(sys: SystemResolver, resolvers: map<nat, NamespacedResolver>, namespaces: map<nat, Namespace>,
                        scans: seq<Scan>, tables: map<nat, Table>)
    requires LegalScans(scans) && IsLoaded(sys, resolvers, namespaces, scans, tables)
    ensures forall c :: c in sys.workload ==> sys.workload[c].cgroupID == c
  {
    WorkloadsAreFiled(scans);
  }

  ghost predicate IsRecorded(all: seq<NamespacedResolver>, scan: Scan) {
    exists k :: 0 <= k < |all| && scan.id in all[k].pids
      && all[k].pids[scan.id] == ProcessOwner(scan.id, scan.cgroupID, scan.netNS, scan.workload)
  }

  lemma ScanIsServed(resolvers: map<nat, NamespacedResolver>, namespaces: map<nat, Namespace>, scans: seq<Scan>,
                     tables: map<nat, Table>, i: nat)
    requires Gathered(scans, namespaces) && resolvers.Keys == namespaces.Keys && i < |scans|
    requires forall n :: n in resolvers ==> IsResolver(resolvers[n], namespaces[n], tables)
    ensures var m := Serving(resolvers, namespaces, scans[i].cgroupID);
            && scans[i].netNS in m && scans[i].id in m[scans[i].netNS].pids
            && m[scans[i].netNS].pids[scans[i].id] == Record(scans[i])
  {
    hide HasOwners, Represents;
    var n := scans[i].netNS;
    assert IsScanned(scans, n) && IsGathered(scans, n, namespaces[n]) && Serves(scans, n, scans[i].cgroupID);
  }

  /** The resolver can name every scanned process for its own cgroup, from the record that was scanned. */
  lemma EveryScanIsRecorded(sys: SystemResolver, resolvers: map<nat, NamespacedResolver>, namespaces: map<nat, Namespace>,
                            scans: seq<Scan>, tables: map<nat, Table>, i: nat)
    requires IsLoaded(sys, resolvers, namespaces, scans, tables) && i < |scans|
    ensures IsRecorded(sys.Namespaces(scans[i].cgroupID), scans[i])
  {
    hide Gathered, Lists, IsResolver, Serving;
    var c := scans[i].cgroupID;
    ScanIsServed(resolvers, namespaces, scans, tables, i);
    ListedAreValues(ResolversAt(sys.byCgroup, c), Serving(resolvers, namespaces, c));
    assert Serving(resolvers, namespaces, c)[scans[i].netNS] in ResolversAt(sys.byCgroup, c);
    var k :| 0 <= k < |ResolversAt(sys.byCgroup, c)|
      && ResolversAt(sys.byCgroup, c)[k] == Serving(resolvers, namespaces, c)[scans[i].netNS];
    assert sys.Namespaces(c)[k].pids[scans[i].id] == Record(scans[i]);
  }

  predicate IsLastIn(scans: seq<Scan>, c: nat, i: int) {
    0 <= i < |scans| && scans[i].cgroupID == c && forall j :: i < j < |scans| ==> scans[j].cgroupID != c
  }

  /** Each cgroup seen has the workload of the last process scanned in it. */
  lemma {:induction false} LastWorkloadStays(scans: seq<Scan>, c: nat)
    ensures c in WorkloadsOf(scans) <==> exists i :: IsLastIn(scans, c, i)
    ensures forall i :: IsLastIn(scans, c, i) ==> c in WorkloadsOf(scans) && WorkloadsOf(scans)[c] == scans[i].workload
  {
    if scans != [] {
      var n := |scans| - 1;
      LastWorkloadStays(scans[..n], c);
      if scans[n].cgroupID == c {
        assert IsLastIn(scans, c, n);
        assert forall i :: IsLastIn(scans, c, i) ==> i == n;
      } else {
        assert forall i :: 0 <= i < n ==> scans[..n][i] == scans[i];
        forall i ensures IsLastIn(scans, c, i) <==> IsLastIn(scans[..n], c, i) {
          assert IsLastIn(scans, c, i) ==> i != n;
        }
      }
    }
  }

  /** The holders of a socket are the scanned processes of the namespace that have it. */
  lemma {:induction false} HolderIff(scans: seq<Scan>, n: nat, inode: nat, p: ProcessID)
    ensures p in HoldersOf(scans, n, inode)
      <==> exists i :: 0 <= i < |scans| && scans[i].netNS == n && scans[i].id == p && inode in scans[i].inodes
  {
    if scans != [] {
      var m := |scans| - 1;
      HolderIff(scans[..m], n, inode, p);
      assert forall i :: 0 <= i < m ==> scans[..m][i] == scans[i];
      if i :| 0 <= i < m && scans[..m][i].netNS == n && scans[..m][i].id == p && inode in scans[..m][i].inodes {
        assert scans[i].id == p;
      }
    }
  }

  // ----- Two loads of the same scan -----

  lemma SameGathering(scans: seq<Scan>, n: nat, a: Namespace, b: Namespace)
    requires IsGathered(scans, n, a) && IsGathered(scans, n, b)
    ensures a == b
  {
    hide HoldersOf, OwnersOf;
    assert a.processes == b.processes by {
      forall p ensures p in a.processes <==> p in b.processes {
        assert p in a.processes <==> Runs(scans, n, p);
      }
      forall p | p in a.processes ensures a.processes[p] == b.processes[p] {
        assert Runs(scans, n, p);
      }
    }
    assert a.cgroups == b.cgroups by {
      assert forall c :: c in a.cgroups <==> Serves(scans, n, c);
    }
    SameOwners(scans, n, a.owners, b.owners);
  }

  lemma SameOwners(scans: seq<Scan>, n: nat, a: map<nat, seq<ProcessID>>, b: map<nat, seq<ProcessID>>)
    requires HasOwners(scans, n, a) && HasOwners(scans, n, b)
    ensures a == b
  {
    hide HoldersOf;
    forall inode ensures inode in a <==> inode in b {
      assert inode in a <==> HoldersOf(scans, n, inode) != [];
    }
    forall inode | inode in a ensures a[inode] == b[inode] {
      assert OwnersOf(a, inode) == OwnersOf(b, inode);
    }
  }

  lemma SameNamespaces(scans: seq<Scan>, a: map<nat, Namespace>, b: map<nat, Namespace>)
    requires Gathered(scans, a) && Gathered(scans, b)
    ensures a == b
  {
    hide IsGathered, IsScanned;
    forall n ensures n in a <==> n in b {
      assert n in a <==> IsScanned(scans, n);
    }
    forall n | n in a ensures a[n] == b[n] {
      SameGathering(scans, n, a[n], b[n]);
    }
  }

  lemma SameViews(a: seq<NamespacedResolver>, b: seq<NamespacedResolver>, m: map<nat, NamespacedResolver>, m': map<nat, NamespacedResolver>)
    requires Lists(a, m) && Lists(b, m') && m.Keys == m'.Keys
    requires forall n :: n in m ==> ViewOf(m[n]) == ViewOf(m'[n])
    ensures multiset(ViewsOf(a)) == multiset(ViewsOf(b))
  {
    hide ViewOf, ViewsOf, ListedAs;
    var orderA :| ListedAs(a, m, orderA);
    var orderB :| ListedAs(b, m', orderB);
    var views := map n | n in m :: ViewOf(m[n]);
    ListedViews(a, m, orderA, views);
    ListedViews(b, m', orderB, views);
    ListedSame(ViewsOf(a), ViewsOf(b), views, orderA, orderB);
  }

  lemma ListedViews(rows: seq<NamespacedResolver>, m: map<nat, NamespacedResolver>, order: seq<nat>, views: map<nat, View>)
    requires ListedAs(rows, m, order) && views.Keys == m.Keys && forall n :: n in m ==> views[n] == ViewOf(m[n])
    ensures ListedAs(ViewsOf(rows), views, order)
  {
    hide ViewOf, NoRepetition, Elements;
    forall i | 0 <= i < |order| ensures order[i] in m && ViewsOf(rows)[i] == views[order[i]] {
      ElementIsIn(order, i);
    }
  }

  lemma ServingShowsTheSame(resolvers: map<nat, NamespacedResolver>, resolvers': map<nat, NamespacedResolver>,
                            namespaces: map<nat, Namespace>, tables: map<nat, Table>, c: nat)
    requires resolvers.Keys == resolvers'.Keys == namespaces.Keys
    requires forall n :: n in resolvers ==> IsResolver(resolvers[n], namespaces[n], tables) && IsResolver(resolvers'[n], namespaces[n], tables)
    ensures var m, m' := Serving(resolvers, namespaces, c), Serving(resolvers', namespaces, c);
            m.Keys == m'.Keys && forall n :: n in m ==> ViewOf(m[n]) == ViewOf(m'[n])
  {
  }

  /** Two loads of the same scan and tables visit namespaces and cgroups in different orders, but show the same. */
  lemma LoadsShowTheSame(sys: SystemResolver, resolvers: map<nat, NamespacedResolver>, namespaces: map<nat, Namespace>,
                         sys': SystemResolver, resolvers': map<nat, NamespacedResolver>, namespaces': map<nat, Namespace>,
                         scans: seq<Scan>, tables: map<nat, Table>)
    requires IsLoaded(sys, resolvers, namespaces, scans, tables) && IsLoaded(sys', resolvers', namespaces', scans, tables)
    ensures SameSystem(sys, sys')
  {
    hide Gathered, Lists, IsResolver, Serving, ViewsOf, ViewOf, WorkloadsOf;
    SameNamespaces(scans, namespaces, namespaces');
    forall c ensures multiset(ViewsOf(sys.Namespaces(c))) == multiset(ViewsOf(sys'.Namespaces(c))) {
      ServingShowsTheSame(resolvers, resolvers', namespaces, tables, c);
      SameViews(ResolversAt(sys.byCgroup, c), ResolversAt(sys'.byCgroup, c), Serving(resolvers, namespaces, c),
                Serving(resolvers', namespaces, c));
      assert sys.Namespaces(c) == ResolversAt(sys.byCgroup, c) && sys'.Namespaces(c) == ResolversAt(sys'.byCgroup, c);
    }
  }
}
