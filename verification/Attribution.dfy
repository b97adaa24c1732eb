/** Who each byte of a snapshot is booked to, in terms of the flows alone (internal/netmon/aggregate.go,
    lines 168-267): bytes reach exactly the process, container or reason that the flow resolves to. */
module Attribution {
  import opened NetTypes
  import opened Sums
  import opened Rates
  import opened TrafficMaps
  import opened Sockets
  import opened SnapshotTypes
  import opened Cgroups
  import opened Accounting
  import opened AccountingTheorems

  /** `Live`, `Exited` and `Containers` collect what becomes of all processes and of all containers. */
  datatype Account = OfProcess(id: ProcessID) | OfContainer(cgroup: nat) | OfReason(reason: UnknownReason) | Live | Exited | Containers

  predicate StillRuns(starts: Starts, id: ProcessID) {
    id.pid in starts && starts[id.pid] == id.startTicks
  }

  /** What a flow resolves to decides alone where its bytes go. */
  ghost predicate GoesTo(sys: SystemResolver, starts: Starts, sample: CgroupFlow, a: Account) {
    var r := Resolved(sys, sample);
    match a
    case OfProcess(id) => r.process.Some? && r.process.value.id == id
    case OfContainer(c) => r.process.None? && r.workload.Some? && sample.cgroupID == c
    case OfReason(reason) => r.process.None? && r.workload.None? && r.reason == reason
    case Live => r.process.Some? && StillRuns(starts, r.process.value.id)
    case Exited => r.process.Some? && !StillRuns(starts, r.process.value.id)
    case Containers => r.process.None? && r.workload.Some?
  }

  ghost function BytesTo(sys: SystemResolver, starts: Starts, flows: seq<CgroupFlow>, a: Account, d: Direction): nat {
    if flows == [] then 0
    else
      var last := flows[|flows| - 1];
      BytesTo(sys, starts, flows[..|flows| - 1], a, d) + if last.direction == d && GoesTo(sys, starts, last, a) then last.bytes else 0
  }

  ghost function TrafficTo(sys: SystemResolver, starts: Starts, flows: seq<CgroupFlow>, a: Account): Traffic {
    Traffic(BytesTo(sys, starts, flows, a, Ingress), BytesTo(sys, starts, flows, a, Egress))
  }

  ghost predicate AnyGoesTo(sys: SystemResolver, starts: Starts, flows: seq<CgroupFlow>, a: Account) {
    exists i :: 0 <= i < |flows| && GoesTo(sys, starts, flows[i], a)
  }

  // ----- The maps -----

  ghost function Held(t: Tables, starts: Starts, a: Account, d: Direction): nat {
    match a
    case OfProcess(id) => TrafficAt(ProcessTraffic(t), id).In(d)
    case OfContainer(c) => TrafficAt(EntityTraffic(t), c).In(d)
    case OfReason(r) => TrafficAt(t.unknown, r).In(d)
    case Live => BytesIn(AliveIn(ProcessTraffic(t), starts), d)
    case Exited => BytesIn(ExitedIn(ProcessTraffic(t), starts), d)
    case Containers => BytesIn(EntityTraffic(t), d)
  }

  /** The maps after booking to a process: its own entry grows, and with it the part it belongs to. */
  lemma ProcessPosted(t: Tables, owner: ProcessOwner, sample: CgroupFlow)
    ensures var m, t' := ProcessTraffic(t), PostProcess(t, owner, sample);
            && ProcessTraffic(t') == m[owner.id := TrafficAt(m, owner.id).Plus(sample.direction, sample.bytes)]
            && EntityTraffic(t') == EntityTraffic(t) && t'.unknown == t.unknown
  {
  }

  lemma PartsAfter(m: map<ProcessID, Traffic>, id: ProcessID, d: Direction, n: nat, starts: Starts)
    ensures var m' := m[id := TrafficAt(m, id).Plus(d, n)];
            var alive, exited := AliveIn(m, starts), ExitedIn(m, starts);
            if StillRuns(starts, id)
            then AliveIn(m', starts) == alive[id := TrafficAt(alive, id).Plus(d, n)] && ExitedIn(m', starts) == exited
            else ExitedIn(m', starts) == exited[id := TrafficAt(exited, id).Plus(d, n)] && AliveIn(m', starts) == alive
  {
  }

  lemma ProcessHolds(t: Tables, owner: ProcessOwner, sample: CgroupFlow, starts: Starts, a: Account, d: Direction)
    ensures Held(PostProcess(t, owner, sample), starts, a, d) == Held(t, starts, a, d)
      + if sample.direction == d && (a == OfProcess(owner.id) || (a.Live? && StillRuns(starts, owner.id)) || (a.Exited? && !StillRuns(starts, owner.id)))
        then sample.bytes else 0
  {
    hide BytesIn, PostProcess, ProcessTraffic, EntityTraffic, AliveIn, ExitedIn, StillRuns;
    var m := ProcessTraffic(t);
    ProcessPosted(t, owner, sample);
    PartsAfter(m, owner.id, sample.direction, sample.bytes, starts);
    if a.Live? {
      BytesPlus(AliveIn(m, starts), owner.id, sample.direction, sample.bytes, d);
    } else if a.Exited? {
      BytesPlus(ExitedIn(m, starts), owner.id, sample.direction, sample.bytes, d);
    }
  }

  lemma ContainerHolds(t: Tables, workload: Workload, sample: CgroupFlow, starts: Starts, a: Account, d: Direction)
    ensures Held(PostEntity(t, workload, sample), starts, a, d) == Held(t, starts, a, d)
      + if sample.direction == d && (a == OfContainer(sample.cgroupID) || a.Containers?) then sample.bytes else 0
  {
    hide BytesIn;
    var m, c := EntityTraffic(t), sample.cgroupID;
    assert EntityTraffic(PostEntity(t, workload, sample)) == m[c := TrafficAt(m, c).Plus(sample.direction, sample.bytes)];
    assert ProcessTraffic(PostEntity(t, workload, sample)) == ProcessTraffic(t);
    assert PostEntity(t, workload, sample).unknown == t.unknown;
    hide PostEntity, ProcessTraffic, EntityTraffic, AliveIn, ExitedIn;
    BytesPlus(m, c, sample.direction, sample.bytes, d);
  }

  lemma ReasonHolds(t: Tables, reason: UnknownReason, sample: CgroupFlow, starts: Starts, a: Account, d: Direction)
    ensures Held(PostUnknown(t, reason, sample), starts, a, d) == Held(t, starts, a, d)
      + if sample.direction == d && a == OfReason(reason) then sample.bytes else 0
  {
    hide BytesIn;
    assert ProcessTraffic(PostUnknown(t, reason, sample)) == ProcessTraffic(t);
    assert EntityTraffic(PostUnknown(t, reason, sample)) == EntityTraffic(t);
  }

  lemma FlowHolds(t: Tables, sys: SystemResolver, sample: CgroupFlow, starts: Starts, a: Account, d: Direction)
    ensures Held(Posted(t, sys, sample), starts, a, d) == Held(t, starts, a, d)
      + if sample.direction == d && GoesTo(sys, starts, sample, a) then sample.bytes else 0
  {
    hide Held, PostProcess, PostEntity, PostUnknown, Resolved;
    var r := Resolved(sys, sample);
    if r.process.Some? {
      ProcessHolds(t, r.process.value, sample, starts, a, d);
    } else if r.workload.Some? {
      ContainerHolds(t, r.workload.value, sample, starts, a, d);
    } else {
      ReasonHolds(t, r.reason, sample, starts, a, d);
    }
  }

  lemma NothingHeld(starts: Starts, a: Account, d: Direction)
    ensures Held(NO_TABLES, starts, a, d) == 0
  {
  }

  /** After any flows: under each process, container and reason, and among the processes that still run or do
      not, exactly the bytes of the flows that resolve there. */
  lemma {:induction false} EachHoldsItsFlows(sys: SystemResolver, starts: Starts, flows: seq<CgroupFlow>, a: Account, d: Direction)
    ensures Held(Tabulated(NO_TABLES, sys, flows), starts, a, d) == BytesTo(sys, starts, flows, a, d)
  {
    hide Held, Posted, GoesTo;
    if flows == [] {
      NothingHeld(starts, a, d);
    } else {
      var n := |flows| - 1;
      EachHoldsItsFlows(sys, starts, flows[..n], a, d);
      FlowHolds(Tabulated(NO_TABLES, sys, flows[..n]), sys, flows[n], starts, a, d);
    }
  }

  ghost predicate IsOwner(owner: ProcessOwner, sys: SystemResolver, starts: Starts, flows: seq<CgroupFlow>, id: ProcessID) {
    exists i :: 0 <= i < |flows| && GoesTo(sys, starts, flows[i], OfProcess(id)) && owner == Resolved(sys, flows[i]).process.value
  }

  /** Which processes and containers have an entry, and what is recorded with it. */
  ghost predicate HasEntries(t: Tables, sys: SystemResolver, starts: Starts, flows: seq<CgroupFlow>) {
    && (forall id :: id in t.processes <==> AnyGoesTo(sys, starts, flows, OfProcess(id)))
    && (forall c :: c in t.entities <==> AnyGoesTo(sys, starts, flows, OfContainer(c)))
    && (forall id :: id in t.processes ==> IsOwner(t.processes[id].owner, sys, starts, flows, id))
    && forall c :: c in t.entities ==> c in sys.workload && t.entities[c].workload == sys.workload[c].(attribution := "cgroup")
  }

  lemma AnyOfOneMore(sys: SystemResolver, starts: Starts, flows: seq<CgroupFlow>, n: nat, a: Account)
    requires |flows| == n + 1
    ensures AnyGoesTo(sys, starts, flows, a) <==> AnyGoesTo(sys, starts, flows[..n], a) || GoesTo(sys, starts, flows[n], a)
  {
    hide GoesTo;
    assert forall i :: 0 <= i < n ==> flows[..n][i] == flows[i];
  }

  /** What one flow adds to the maps, in terms of where it goes. */
  lemma ProcessEntries(t: Tables, sys: SystemResolver, starts: Starts, sample: CgroupFlow)
    ensures var t' := Posted(t, sys, sample);
            && (forall id :: id in t'.processes <==> id in t.processes || GoesTo(sys, starts, sample, OfProcess(id)))
            && (forall id :: id in t.processes ==> t'.processes[id].owner == t.processes[id].owner)
            && (forall id :: id in t'.processes && id !in t.processes ==> t'.processes[id].owner == Resolved(sys, sample).process.value)
  {
    hide Resolved, TrafficAt;
  }

  lemma ContainerEntries(t: Tables, sys: SystemResolver, starts: Starts, sample: CgroupFlow)
    ensures var t' := Posted(t, sys, sample);
            && (forall c :: c in t'.entities <==> c in t.entities || GoesTo(sys, starts, sample, OfContainer(c)))
            && (forall c :: c in t.entities ==> t'.entities[c].workload == t.entities[c].workload)
            && (forall c :: c in t'.entities && c !in t.entities ==>
                  c in sys.workload && t'.entities[c].workload == sys.workload[c].(attribution := "cgroup"))
  {
    ElseContainerIff(sys, sample);
    hide Resolved, TrafficAt;
  }

  lemma OneMoreEntry(t: Tables, sys: SystemResolver, starts: Starts, flows: seq<CgroupFlow>, n: nat)
    requires |flows| == n + 1 && HasEntries(t, sys, starts, flows[..n])
    ensures HasEntries(Posted(t, sys, flows[n]), sys, starts, flows)
  {
    hide Posted, GoesTo, Resolved, AnyGoesTo, IsOwner;
    var t' := Posted(t, sys, flows[n]);
    ProcessEntries(t, sys, starts, flows[n]);
    ContainerEntries(t, sys, starts, flows[n]);
    forall id
      ensures id in t'.processes <==> AnyGoesTo(sys, starts, flows, OfProcess(id))
      ensures id in t'.processes ==> IsOwner(t'.processes[id].owner, sys, starts, flows, id)
    {
      AnyOfOneMore(sys, starts, flows, n, OfProcess(id));
      if id in t.processes {
        OwnerOfMore(t.processes[id].owner, sys, starts, flows, n, id);
      } else if id in t'.processes {
        OwnerOfLast(sys, starts, flows, n, id);
      }
    }
    forall c ensures c in t'.entities <==> AnyGoesTo(sys, starts, flows, OfContainer(c)) {
      AnyOfOneMore(sys, starts, flows, n, OfContainer(c));
    }
  }

  lemma OwnerOfMore(owner: ProcessOwner, sys: SystemResolver, starts: Starts, flows: seq<CgroupFlow>, n: nat, id: ProcessID)
    requires n <= |flows| && IsOwner(owner, sys, starts, flows[..n], id)
    ensures IsOwner(owner, sys, starts, flows, id)
  {
    hide Resolved;
    var i :| 0 <= i < n && GoesTo(sys, starts, flows[..n][i], OfProcess(id)) && owner == Resolved(sys, flows[..n][i]).process.value;
    assert flows[..n][i] == flows[i];
  }

  lemma OwnerOfLast(sys: SystemResolver, starts: Starts, flows: seq<CgroupFlow>, n: nat, id: ProcessID)
    requires n < |flows| && GoesTo(sys, starts, flows[n], OfProcess(id))
    ensures Resolved(sys, flows[n]).process.Some? && IsOwner(Resolved(sys, flows[n]).process.value, sys, starts, flows, id)
  {
    hide Resolved;
  }

  lemma {:induction false} EntriesAreOfFlows(sys: SystemResolver, starts: Starts, flows: seq<CgroupFlow>)
    ensures HasEntries(Tabulated(NO_TABLES, sys, flows), sys, starts, flows)
  {
    hide Posted, GoesTo;
    if flows != [] {
      var n := |flows| - 1;
      EntriesAreOfFlows(sys, starts, flows[..n]);
      hide HasEntries;
      OneMoreEntry(Tabulated(NO_TABLES, sys, flows[..n]), sys, starts, flows, n);
    }
  }

  // ----- The snapshot -----

  /** A process of no cgroup's workload is the host's. */
  function ShownWorkload(w: Workload): Workload {
    if w.scope == "" then w.(scope := "host") else w
  }

  ghost predicate IsRowOf(row: ProcessRate, sys: SystemResolver, starts: Starts, flows: seq<CgroupFlow>, ns: nat)
    requires ns > 0
  {
    && StillRuns(starts, row.id)
    && row.rate == RateOf(TrafficTo(sys, starts, flows, OfProcess(row.id)), ns)
    && exists i :: 0 <= i < |flows| && GoesTo(sys, starts, flows[i], OfProcess(row.id))
         && row.workload == ShownWorkload(Resolved(sys, flows[i]).process.value.workload)
  }

  /** For each running process that some flow resolves to, one row with the rate of the bytes of all flows that
      do, and no other row. */
  ghost predicate AreRowsOf(rows: seq<ProcessRate>, sys: SystemResolver, starts: Starts, flows: seq<CgroupFlow>, ns: nat)
    requires ns > 0
  {
    && (forall k :: 0 <= k < |rows| ==> IsRowOf(rows[k], sys, starts, flows, ns))
    && (forall i, id :: 0 <= i < |flows| && GoesTo(sys, starts, flows[i], OfProcess(id)) && StillRuns(starts, id) ==>
          exists k :: 0 <= k < |rows| && rows[k].id == id)
    && forall j, k :: 0 <= j < k < |rows| ==> rows[j].id != rows[k].id
  }

  lemma ProcessRowsAreExact(s: Snapshot, sys: SystemResolver, flows: seq<CgroupFlow>, captured: Traffic, packets: nat, now: nat,
                            ns: nat, iface: string, drops: nat, starts: Starts)
    requires ns > 0
    requires IsCgroupSnapshot(s, Tabulated(NO_TABLES, sys, flows), sys, captured, packets, now, ns, iface, drops, starts)
    ensures AreRowsOf(s.processes, sys, starts, flows, ns)
  {
    assert Lists(s.processes, ProcessRows(Tabulated(NO_TABLES, sys, flows), starts, ns));
    hide *;
    RowsAreExact(s.processes, sys, starts, flows, ns);
  }

  lemma RowsAreExact(rows: seq<ProcessRate>, sys: SystemResolver, starts: Starts, flows: seq<CgroupFlow>, ns: nat)
    requires ns > 0 && Lists(rows, ProcessRows(Tabulated(NO_TABLES, sys, flows), starts, ns))
    ensures AreRowsOf(rows, sys, starts, flows, ns)
  {
    hide Tabulated, GoesTo, IsRowOf, Lists, ProcessRows, HasEntries, StillRuns, Rate;
    var t := Tabulated(NO_TABLES, sys, flows);
    EntriesAreOfFlows(sys, starts, flows);
    RowsListed(rows, t, starts, ns);
    forall k | 0 <= k < |rows| ensures IsRowOf(rows[k], sys, starts, flows, ns) {
      RowIsOfFlows(t, rows[k], sys, starts, flows, ns);
    }
    forall i, id | 0 <= i < |flows| && GoesTo(sys, starts, flows[i], OfProcess(id)) && StillRuns(starts, id)
      ensures exists k :: 0 <= k < |rows| && rows[k].id == id
    {
      EntryOfFlow(t, sys, starts, flows, i, id);
    }
  }

  lemma RowsListed(rows: seq<ProcessRate>, t: Tables, starts: Starts, ns: nat)
    requires ns > 0 && Lists(rows, ProcessRows(t, starts, ns))
    ensures forall k :: 0 <= k < |rows| ==>
      var id := rows[k].id;
      id in t.processes && StillRuns(starts, id)
      && rows[k] == ProcessRate(id, RateOf(t.processes[id].traffic, ns), ShownWorkload(t.processes[id].owner.workload))
    ensures forall id :: id in t.processes && StillRuns(starts, id) ==> exists k :: 0 <= k < |rows| && rows[k].id == id
    ensures forall j, k :: 0 <= j < k < |rows| ==> rows[j].id != rows[k].id
  {
    hide Rate;
    var m := ProcessRows(t, starts, ns);
    var order :| ListedAs(rows, m, order);
    forall k | 0 <= k < |rows| ensures order[k] in m && rows[k].id == order[k] && rows[k] == m[order[k]] {
      ElementIsIn(order, k);
    }
    forall id | id in t.processes && StillRuns(starts, id) ensures exists k :: 0 <= k < |rows| && rows[k].id == id {
      assert id in m && id in Elements(order);
      var k :| 0 <= k < |order| && order[k] == id;
      assert rows[k].id == id;
    }
  }

  lemma RowIsOfFlows(t: Tables, row: ProcessRate, sys: SystemResolver, starts: Starts, flows: seq<CgroupFlow>, ns: nat)
    requires ns > 0 && t == Tabulated(NO_TABLES, sys, flows) && HasEntries(t, sys, starts, flows)
    requires row.id in t.processes && StillRuns(starts, row.id)
    requires row == ProcessRate(row.id, RateOf(t.processes[row.id].traffic, ns), ShownWorkload(t.processes[row.id].owner.workload))
    ensures IsRowOf(row, sys, starts, flows, ns)
  {
    hide Tabulated, GoesTo, Resolved, AnyGoesTo, BytesTo, Rate;
    EachHoldsItsFlows(sys, starts, flows, OfProcess(row.id), Ingress);
    EachHoldsItsFlows(sys, starts, flows, OfProcess(row.id), Egress);
    assert TrafficAt(ProcessTraffic(t), row.id) == t.processes[row.id].traffic;
    assert IsOwner(t.processes[row.id].owner, sys, starts, flows, row.id);
    var i := OwnersFlow(t.processes[row.id].owner, sys, starts, flows, row.id);
  }

  lemma OwnersFlow(owner: ProcessOwner, sys: SystemResolver, starts: Starts, flows: seq<CgroupFlow>, id: ProcessID) returns (i: nat)
    requires IsOwner(owner, sys, starts, flows, id)
    ensures i < |flows| && GoesTo(sys, starts, flows[i], OfProcess(id))
    ensures Resolved(sys, flows[i]).process == Some(owner)
  {
    hide Resolved;
    i :| 0 <= i < |flows| && GoesTo(sys, starts, flows[i], OfProcess(id)) && owner == Resolved(sys, flows[i]).process.value;
  }

  lemma EntryOfFlow(t: Tables, sys: SystemResolver, starts: Starts, flows: seq<CgroupFlow>, i: nat, id: ProcessID)
    requires HasEntries(t, sys, starts, flows) && i < |flows| && GoesTo(sys, starts, flows[i], OfProcess(id))
    ensures id in t.processes
  {
    hide GoesTo;
    assert AnyGoesTo(sys, starts, flows, OfProcess(id));
  }

  /** A container row, for the cgroup `c`. */
  ghost predicate IsEntityOf(row: EntityRate, sys: SystemResolver, starts: Starts, flows: seq<CgroupFlow>, ns: nat, c: nat)
    requires ns > 0
  {
    && AnyGoesTo(sys, starts, flows, OfContainer(c)) && c in sys.workload
    && row == EntityRate(sys.workload[c].(attribution := "cgroup"), RateOf(TrafficTo(sys, starts, flows, OfContainer(c)), ns))
    && (row.rate.rx > 0 || row.rate.tx > 0)
  }

  lemma EntryIsEntity(t: Tables, sys: SystemResolver, starts: Starts, flows: seq<CgroupFlow>, ns: nat, c: nat)
    requires ns > 0 && t == Tabulated(NO_TABLES, sys, flows)
    ensures c in EntityRows(t, ns) ==> IsEntityOf(EntityRows(t, ns)[c], sys, starts, flows, ns, c)
    ensures forall row :: IsEntityOf(row, sys, starts, flows, ns, c) ==> c in EntityRows(t, ns) && row == EntityRows(t, ns)[c]
  {
    hide Tabulated, GoesTo, Resolved, AnyGoesTo, BytesTo, Rate;
    EntriesAreOfFlows(sys, starts, flows);
    EachHoldsItsFlows(sys, starts, flows, OfContainer(c), Ingress);
    EachHoldsItsFlows(sys, starts, flows, OfContainer(c), Egress);
    assert c in t.entities ==> TrafficAt(EntityTraffic(t), c) == t.entities[c].traffic;
  }

  /** The container rows: one for each container that some flow falls to, unless its rate rounds to nothing. */
  lemma EntityRowsAreExact(s: Snapshot, sys: SystemResolver, flows: seq<CgroupFlow>, captured: Traffic, packets: nat, now: nat,
                           ns: nat, iface: string, drops: nat, starts: Starts, row: EntityRate)
    requires ns > 0
    requires IsCgroupSnapshot(s, Tabulated(NO_TABLES, sys, flows), sys, captured, packets, now, ns, iface, drops, starts)
    ensures row in s.entities <==> exists c :: IsEntityOf(row, sys, starts, flows, ns, c)
  {
    var t := Tabulated(NO_TABLES, sys, flows);
    assert Lists(s.entities, EntityRows(t, ns));
    hide *;
    ListedIff(s.entities, EntityRows(t, ns), row);
    if row in s.entities {
      var c :| c in EntityRows(t, ns) && EntityRows(t, ns)[c] == row;
      EntryIsEntity(t, sys, starts, flows, ns, c);
    }
    if c :| IsEntityOf(row, sys, starts, flows, ns, c) {
      EntryIsEntity(t, sys, starts, flows, ns, c);
    }
  }

  lemma ListedIff<K(!new), R>(rows: seq<R>, m: map<K, R>, row: R)
    requires Lists(rows, m)
    ensures row in rows <==> exists k :: k in m && m[k] == row
  {
    hide NoRepetition;
    var order :| ListedAs(rows, m, order);
    if k :| k in m && m[k] == row {
      assert k in Elements(order);
      var i :| 0 <= i < |order| && order[i] == k;
      assert rows[i] == row;
    }
    if row in rows {
      var i :| 0 <= i < |rows| && rows[i] == row;
      ElementIsIn(order, i);
    }
  }

  /** The workload rows: every container of the system, with or without traffic. */
  lemma WorkloadRowsAreContainers(s: Snapshot, sys: SystemResolver, w: Workload)
    requires SortedListing(s.workloads, ContainersOf(sys))
    ensures w in s.workloads
      <==> exists c :: c in sys.workload && sys.workload[c] == w && (w.containerID != "" || w.pod != "" || w.container != "")
  {
    var listed :| Lists(listed, ContainersOf(sys)) && Sorting.IsSortOf(s.workloads, listed, WorkloadKey);
    ListedIff(listed, ContainersOf(sys), w);
    assert w in s.workloads <==> w in multiset(s.workloads);
    assert w in listed <==> w in multiset(listed);
    if c :| c in sys.workload && sys.workload[c] == w && (w.containerID != "" || w.pod != "" || w.container != "") {
      assert c in ContainersOf(sys);
    }
  }

  lemma {:induction false} NoReasonExited(sys: SystemResolver, starts: Starts, flows: seq<CgroupFlow>, d: Direction)
    ensures BytesTo(sys, starts, flows, OfReason(EXITED), d) == 0
  {
    if flows != [] {
      var n := |flows| - 1;
      NoReasonExited(sys, starts, flows[..n], d);
      ElseContainerIff(sys, flows[n]);
      hide Resolved;
    }
  }

  /** What the flows account for: the bytes of the flows of running processes and of containers, of each reason,
      and of the processes that no longer run. */
  lemma BreakdownIsOfFlows(sys: SystemResolver, starts: Starts, flows: seq<CgroupFlow>, d: Direction)
    ensures BreakdownOf(Tabulated(NO_TABLES, sys, flows), starts, d) == Breakdown(
              BytesTo(sys, starts, flows, Live, d) + BytesTo(sys, starts, flows, Containers, d),
              BytesTo(sys, starts, flows, OfReason(UNSUPPORTED), d),
              BytesTo(sys, starts, flows, OfReason(UNMATCHED), d),
              BytesTo(sys, starts, flows, OfReason(AMBIGUOUS), d),
              BytesTo(sys, starts, flows, Exited, d))
  {
    hide Tabulated, BytesTo, BytesIn, ProcessTraffic, EntityTraffic, AliveIn, ExitedIn;
    EachHoldsItsFlows(sys, starts, flows, Live, d);
    EachHoldsItsFlows(sys, starts, flows, Containers, d);
    EachHoldsItsFlows(sys, starts, flows, OfReason(UNSUPPORTED), d);
    EachHoldsItsFlows(sys, starts, flows, OfReason(UNMATCHED), d);
    EachHoldsItsFlows(sys, starts, flows, OfReason(AMBIGUOUS), d);
    EachHoldsItsFlows(sys, starts, flows, OfReason(EXITED), d);
    EachHoldsItsFlows(sys, starts, flows, Exited, d);
    NoReasonExited(sys, starts, flows, d);
  }

  ghost function BytesOfReasons(sys: SystemResolver, starts: Starts, flows: seq<CgroupFlow>, d: Direction): nat {
    BytesTo(sys, starts, flows, OfReason(UNSUPPORTED), d) + BytesTo(sys, starts, flows, OfReason(UNMATCHED), d)
    + BytesTo(sys, starts, flows, OfReason(AMBIGUOUS), d) + BytesTo(sys, starts, flows, Exited, d)
  }

  lemma GoesToOne(sys: SystemResolver, starts: Starts, sample: CgroupFlow)
    ensures var p, c, e := GoesTo(sys, starts, sample, Live), GoesTo(sys, starts, sample, Containers), GoesTo(sys, starts, sample, Exited);
            var u, m, a := GoesTo(sys, starts, sample, OfReason(UNSUPPORTED)), GoesTo(sys, starts, sample, OfReason(UNMATCHED)),
                           GoesTo(sys, starts, sample, OfReason(AMBIGUOUS));
            (if p then 1 else 0) + (if c then 1 else 0) + (if e then 1 else 0)
            + (if u then 1 else 0) + (if m then 1 else 0) + (if a then 1 else 0) == 1
  {
    ElseContainerIff(sys, sample);
    hide Resolved;
  }

  /** Every flow goes to exactly one of them. */
  lemma {:induction false} FlowsGoSomewhere(sys: SystemResolver, starts: Starts, flows: seq<CgroupFlow>, d: Direction)
    ensures FlowBytes(flows, d) == BytesTo(sys, starts, flows, Live, d) + BytesTo(sys, starts, flows, Containers, d)
      + BytesOfReasons(sys, starts, flows, d)
  {
    hide GoesTo;
    if flows != [] {
      var n := |flows| - 1;
      FlowsGoSomewhere(sys, starts, flows[..n], d);
      GoesToOne(sys, starts, flows[n]);
    }
  }

  /** Every reason is the rate of its own flows, exited processes included; what the interface saw beyond all
      flows is unmatched, and the captured rate is that of the larger of the two. */
  ghost predicate HasTotals(s: Snapshot, sys: SystemResolver, starts: Starts, flows: seq<CgroupFlow>, captured: nat, ns: nat, d: Direction)
    requires ns > 0
  {
    var seen := FlowBytes(flows, d);
    var residual := if captured > seen then captured - seen else 0;
    && s.unsupported.In(d) == Rate(BytesTo(sys, starts, flows, OfReason(UNSUPPORTED), d), ns)
    && s.unmatched.In(d) == Rate(BytesTo(sys, starts, flows, OfReason(UNMATCHED), d), ns) + Rate(residual, ns)
    && s.ambiguous.In(d) == Rate(BytesTo(sys, starts, flows, OfReason(AMBIGUOUS), d), ns)
    && s.exited.In(d) == Rate(BytesTo(sys, starts, flows, Exited, d), ns)
    && s.captured.In(d) == Rate(if captured > seen then captured else seen, ns)
    && s.unknown.In(d) == Rate(BytesOfReasons(sys, starts, flows, d) + residual, ns)
  }

  lemma TotalsAreExact(s: Snapshot, sys: SystemResolver, flows: seq<CgroupFlow>, captured: Traffic, packets: nat, now: nat,
                       ns: nat, iface: string, drops: nat, starts: Starts, d: Direction)
    requires ns > 0
    requires IsCgroupSnapshot(s, Tabulated(NO_TABLES, sys, flows), sys, captured, packets, now, ns, iface, drops, starts)
    ensures HasTotals(s, sys, starts, flows, captured.In(d), ns, d)
  {
    assert Counts(s, BreakdownOf(Tabulated(NO_TABLES, sys, flows), starts, d), captured.In(d), ns, d);
    hide *;
    CountsAreTotals(s, sys, starts, flows, captured.In(d), ns, d);
  }

  lemma CountsAreTotals(s: Snapshot, sys: SystemResolver, starts: Starts, flows: seq<CgroupFlow>, captured: nat, ns: nat, d: Direction)
    requires ns > 0 && Counts(s, BreakdownOf(Tabulated(NO_TABLES, sys, flows), starts, d), captured, ns, d)
    ensures HasTotals(s, sys, starts, flows, captured, ns, d)
  {
    hide Counts, BreakdownOf, Tabulated, BytesTo, FlowBytes, Rate;
    var b := BreakdownOf(Tabulated(NO_TABLES, sys, flows), starts, d);
    BreakdownIsOfFlows(sys, starts, flows, d);
    FlowsGoSomewhere(sys, starts, flows, d);
    CountsInFull(s, b, captured, ns, d);
  }

  lemma CountsInFull(s: Snapshot, b: Breakdown, captured: nat, ns: nat, d: Direction)
    requires ns > 0 && Counts(s, b, captured, ns, d)
    ensures var seen := b.known + b.unsupported + b.unmatched + b.ambiguous + b.exited;
            var residual := if captured > seen then captured - seen else 0;
            && s.unsupported.In(d) == Rate(b.unsupported, ns) && s.unmatched.In(d) == Rate(b.unmatched, ns) + Rate(residual, ns)
            && s.ambiguous.In(d) == Rate(b.ambiguous, ns) && s.exited.In(d) == Rate(b.exited, ns)
            && s.captured.In(d) == Rate(seen + residual, ns) && s.unknown.In(d) == Rate(seen - b.known + residual, ns)
  {
    hide Rate;
    assert s.Reason(UNSUPPORTED) == s.unsupported && s.Reason(UNMATCHED) == s.unmatched;
    assert s.Reason(AMBIGUOUS) == s.ambiguous && s.Reason(EXITED) == s.exited;
  }
}
