/** The snapshot of the eBPF side: per-poll flows booked to processes, containers and unknown reasons
    (internal/netmon/aggregate.go, lines 168-275). */
module Accounting {
  import opened NetTypes
  import opened Sums
  import opened Rates
  import opened TrafficMaps
  import opened Sockets
  import opened SnapshotTypes
  import opened Sorting
  import opened Cgroups
  import opened Windows

  datatype Attributed = Attributed(owner: ProcessOwner, traffic: Traffic)

  datatype Entity = Entity(workload: Workload, traffic: Traffic)

  /** The three maps of the first loop. */
  datatype Tables = Tables(
    processes: map<ProcessID, Attributed>,
    entities: map<nat, Entity>,
    unknown: map<UnknownReason, Traffic>)

  const NO_TABLES := Tables(map[], map[], map[])

  // ----- Booking the flows -----

  function PostProcess(t: Tables, owner: ProcessOwner, sample: CgroupFlow): Tables {
    var item := if owner.id in t.processes then t.processes[owner.id] else Attributed(owner, NO_TRAFFIC);
    t.(processes := t.processes[owner.id := item.(traffic := item.traffic.Plus(sample.direction, sample.bytes))])
  }

  function PostEntity(t: Tables, workload: Workload, sample: CgroupFlow): Tables {
    var item := if sample.cgroupID in t.entities then t.entities[sample.cgroupID] else Entity(workload, NO_TRAFFIC);
    t.(entities := t.entities[sample.cgroupID := item.(traffic := item.traffic.Plus(sample.direction, sample.bytes))])
  }

  function PostUnknown(t: Tables, reason: UnknownReason, sample: CgroupFlow): Tables {
    t.(unknown := t.unknown[reason := TrafficAt(t.unknown, reason).Plus(sample.direction, sample.bytes)])
  }

  function PostAs(t: Tables, r: Resolution, sample: CgroupFlow): Tables {
    if r.process.Some? then PostProcess(t, r.process.value, sample)
    else if r.workload.Some? then PostEntity(t, r.workload.value, sample)
    else PostUnknown(t, r.reason, sample)
  }

  ghost function Posted(t: Tables, sys: SystemResolver, sample: CgroupFlow): Tables {
    PostAs(t, Resolved(sys, sample), sample)
  }

  ghost function Tabulated(t: Tables, sys: SystemResolver, flows: seq<CgroupFlow>): Tables {
    if flows == [] then t
    else Posted(Tabulated(t, sys, flows[..|flows| - 1]), sys, flows[|flows| - 1])
  }

  method Tabulate(sys: SystemResolver, flows: seq<CgroupFlow>) returns (t: Tables)
    requires sys.Valid()
    ensures t == Tabulated(NO_TABLES, sys, flows)
  {
    var processes: map<ProcessID, Attributed> := map[];
    var entities: map<nat, Entity> := map[];
    var unknown: map<UnknownReason, Traffic> := map[];
    for i := 0 to |flows|
      invariant Tables(processes, entities, unknown) == Tabulated(NO_TABLES, sys, flows[..i])
    {
      var sample := flows[i];
      assert flows[..i + 1][..i] == flows[..i];
      var resolution := Cgroups.Resolve(sys, sample);
      if resolution.process.Some? {
        var owner := resolution.process.value;
        var item := if owner.id in processes then processes[owner.id] else Attributed(owner, NO_TRAFFIC);
        processes := processes[owner.id := item.(traffic := item.traffic.Plus(sample.direction, sample.bytes))];
        continue;
      }
      if resolution.workload.Some? {
        var item := if sample.cgroupID in entities then entities[sample.cgroupID] else Entity(resolution.workload.value, NO_TRAFFIC);
        entities := entities[sample.cgroupID := item.(traffic := item.traffic.Plus(sample.direction, sample.bytes))];
        continue;
      }
      unknown := unknown[resolution.reason := TrafficAt(unknown, resolution.reason).Plus(sample.direction, sample.bytes)];
    }
    assert flows[..|flows|] == flows;
    t := Tables(processes, entities, unknown);
  }

  // ----- Conservation of the booking -----

  function ProcessTraffic(t: Tables): map<ProcessID, Traffic> {
    map id | id in t.processes :: t.processes[id].traffic
  }

  function EntityTraffic(t: Tables): map<nat, Traffic> {
    map c | c in t.entities :: t.entities[c].traffic
  }

  ghost function BookedBytes(t: Tables, d: Direction): nat {
    BytesIn(ProcessTraffic(t), d) + BytesIn(EntityTraffic(t), d) + ReasonBytes(t.unknown, d)
  }

  function FlowBytes(flows: seq<CgroupFlow>, d: Direction): nat {
    if flows == [] then 0
    else FlowBytes(flows[..|flows| - 1], d) + if flows[|flows| - 1].direction == d then flows[|flows| - 1].bytes else 0
  }

  lemma PostProcessAddsUp(t: Tables, owner: ProcessOwner, sample: CgroupFlow, d: Direction)
    ensures BookedBytes(PostProcess(t, owner, sample), d) == BookedBytes(t, d) + if sample.direction == d then sample.bytes else 0
  {
    hide BytesIn, ReasonBytes;
    var m, id := ProcessTraffic(t), owner.id;
    assert ProcessTraffic(PostProcess(t, owner, sample)) == m[id := TrafficAt(m, id).Plus(sample.direction, sample.bytes)];
    assert EntityTraffic(PostProcess(t, owner, sample)) == EntityTraffic(t);
    hide PostProcess, ProcessTraffic, TrafficAt;
    BytesPlus(m, id, sample.direction, sample.bytes, d);
  }

  lemma PostEntityAddsUp(t: Tables, workload: Workload, sample: CgroupFlow, d: Direction)
    ensures BookedBytes(PostEntity(t, workload, sample), d) == BookedBytes(t, d) + if sample.direction == d then sample.bytes else 0
  {
    hide BytesIn, ReasonBytes;
    var m, c := EntityTraffic(t), sample.cgroupID;
    assert EntityTraffic(PostEntity(t, workload, sample)) == m[c := TrafficAt(m, c).Plus(sample.direction, sample.bytes)];
    assert ProcessTraffic(PostEntity(t, workload, sample)) == ProcessTraffic(t);
    hide PostEntity, EntityTraffic, TrafficAt;
    BytesPlus(m, c, sample.direction, sample.bytes, d);
  }

  lemma PostUnknownAddsUp(t: Tables, reason: UnknownReason, sample: CgroupFlow, d: Direction)
    ensures BookedBytes(PostUnknown(t, reason, sample), d) == BookedBytes(t, d) + if sample.direction == d then sample.bytes else 0
  {
    hide BytesIn, ReasonBytes;
    assert ProcessTraffic(PostUnknown(t, reason, sample)) == ProcessTraffic(t);
    assert EntityTraffic(PostUnknown(t, reason, sample)) == EntityTraffic(t);
    ReasonBytesSet(t.unknown, reason, TrafficAt(t.unknown, reason).Plus(sample.direction, sample.bytes), d);
  }

  lemma PostAddsUp(t: Tables, r: Resolution, sample: CgroupFlow, d: Direction)
    ensures BookedBytes(PostAs(t, r, sample), d) == BookedBytes(t, d) + if sample.direction == d then sample.bytes else 0
  {
    hide BookedBytes, PostProcess, PostEntity, PostUnknown;
    if r.process.Some? {
      PostProcessAddsUp(t, r.process.value, sample, d);
    } else if r.workload.Some? {
      PostEntityAddsUp(t, r.workload.value, sample, d);
    } else {
      PostUnknownAddsUp(t, r.reason, sample, d);
    }
  }

  /** Whatever the flows and the resolver, each byte is booked to exactly one process, container or reason. */
  lemma {:induction false} TabulatedAddsUp(t: Tables, sys: SystemResolver, flows: seq<CgroupFlow>, d: Direction)
    ensures BookedBytes(Tabulated(t, sys, flows), d) == BookedBytes(t, d) + FlowBytes(flows, d)
  {
    if flows != [] {
      var n := |flows| - 1;
      TabulatedAddsUp(t, sys, flows[..n], d);
      PostAddsUp(Tabulated(t, sys, flows[..n]), Resolved(sys, flows[n]), flows[n], d);
    }
  }

  lemma NoTablesNoBytes(d: Direction)
    ensures BookedBytes(NO_TABLES, d) == 0
  {
  }

  // ----- Rows -----

  /** A process without a workload scope is a host process. */
  function RowWorkload(owner: ProcessOwner): Workload {
    if owner.workload.scope == "" then owner.workload.(scope := "host") else owner.workload
  }

  function ProcessRows(t: Tables, starts: Starts, ns: nat): map<ProcessID, ProcessRate>
    requires ns > 0
  {
    map id | id in t.processes && Alive(starts, id) ::
      ProcessRate(id, RateOf(t.processes[id].traffic, ns), RowWorkload(t.processes[id].owner))
  }

  predicate Visible(e: Entity, ns: nat)
    requires ns > 0
  {
    Rate(e.traffic.rx, ns) + Rate(e.traffic.tx, ns) > 0
  }

  /** Containers that round to zero in both directions have no row. */
  function EntityRows(t: Tables, ns: nat): map<nat, EntityRate>
    requires ns > 0
  {
    map c | c in t.entities && Visible(t.entities[c], ns) :: EntityRate(t.entities[c].workload, RateOf(t.entities[c].traffic, ns))
  }

  function ContainersOf(sys: SystemResolver): map<nat, Workload> {
    map c | c in sys.workload && sys.workload[c].IsContainer() :: sys.workload[c]
  }

  ghost predicate SortedListing(sorted: seq<Workload>, m: map<nat, Workload>) {
    exists listed :: Lists(listed, m) && IsSortOf(sorted, listed, WorkloadKey)
  }

  method Workloads(sys: SystemResolver) returns (sorted: seq<Workload>)
    ensures SortedListing(sorted, ContainersOf(sys))
  {
    var rows: seq<Workload> := [];
    var left := sys.workload.Keys;
    assert ContainersOf(sys) - left == map[];
    ListsNothing<nat, Workload>();
    while left != {}
      invariant left <= sys.workload.Keys
      invariant Lists(rows, ContainersOf(sys) - left)
    {
      var c :| c in left;
      ListsTake(rows, ContainersOf(sys), left, c);
      left := left - {c};
      if sys.workload[c].IsContainer() {
        rows := rows + [sys.workload[c]];
      }
    }
    assert ContainersOf(sys) - left == ContainersOf(sys);
    sorted := Sort(rows, WorkloadKey);
  }

  // ----- Processes that exited since -----

  /** Where the loop over the processes stands: rows and bytes of the live ones, and the exited ones moved to
      their own reason. */
  ghost predicate Settled(t: Tables, starts: Starts, ns: nat, left: set<ProcessID>,
                          rows: seq<ProcessRate>, known: Traffic, unknown: map<UnknownReason, Traffic>)
    requires ns > 0
  {
    && Lists(rows, ProcessRows(t, starts, ns) - left)
    && (forall d: Direction :: known.In(d) == BytesIn(AliveIn(ProcessTraffic(t), starts) - left, d))
    && (forall d: Direction ::
          TrafficAt(unknown, EXITED).In(d) == TrafficAt(t.unknown, EXITED).In(d) + BytesIn(ExitedIn(ProcessTraffic(t), starts) - left, d))
    && (forall r: UnknownReason :: r != EXITED ==> TrafficAt(unknown, r) == TrafficAt(t.unknown, r))
  }

  lemma NothingSettled(t: Tables, starts: Starts, ns: nat)
    requires ns > 0
    ensures Settled(t, starts, ns, t.processes.Keys, [], NO_TRAFFIC, t.unknown)
  {
    var all := t.processes.Keys;
    assert ProcessRows(t, starts, ns) - all == map[];
    assert AliveIn(ProcessTraffic(t), starts) - all == map[] && ExitedIn(ProcessTraffic(t), starts) - all == map[];
    ListsNothing<ProcessID, ProcessRate>();
    forall d: Direction ensures BytesIn<ProcessID>(map[], d) == 0 {
      BytesOfNone<ProcessID>(d);
    }
  }

  lemma SettleOne(t: Tables, starts: Starts, ns: nat, left: set<ProcessID>, rows: seq<ProcessRate>, known: Traffic,
                  unknown: map<UnknownReason, Traffic>, id: ProcessID)
    requires ns > 0 && id in left && left <= t.processes.Keys
    requires Settled(t, starts, ns, left, rows, known, unknown)
    ensures var traffic := t.processes[id].traffic;
            if Alive(starts, id)
            then Settled(t, starts, ns, left - {id}, rows + [ProcessRows(t, starts, ns)[id]],
                         Traffic(known.rx + traffic.rx, known.tx + traffic.tx), unknown)
            else
              var before := TrafficAt(unknown, EXITED);
              Settled(t, starts, ns, left - {id}, rows, known,
                      unknown[EXITED := Traffic(before.rx + traffic.rx, before.tx + traffic.tx)])
  {
    hide BytesIn, Lists, Rate;
    var alive, exited := AliveIn(ProcessTraffic(t), starts), ExitedIn(ProcessTraffic(t), starts);
    ListsTake(rows, ProcessRows(t, starts, ns), left, id);
    forall d: Direction
      ensures BytesIn(alive - (left - {id}), d) == BytesIn(alive - left, d) + TrafficAt(alive, id).In(d)
      ensures BytesIn(exited - (left - {id}), d) == BytesIn(exited - left, d) + TrafficAt(exited, id).In(d)
    {
      BytesTake(alive, left, id, d);
      BytesTake(exited, left, id, d);
    }
  }

  method SettleProcesses(t: Tables, starts: Starts, ns: nat)
    returns (rows: seq<ProcessRate>, known: Traffic, unknown: map<UnknownReason, Traffic>)
    requires ns > 0
    ensures Settled(t, starts, ns, {}, rows, known, unknown)
  {
    rows, known, unknown := [], NO_TRAFFIC, t.unknown;
    var left := t.processes.Keys;
    NothingSettled(t, starts, ns);
    while left != {}
      invariant left <= t.processes.Keys
      invariant Settled(t, starts, ns, left, rows, known, unknown)
    {
      var id :| id in left;
      SettleOne(t, starts, ns, left, rows, known, unknown, id);
      left := left - {id};
      var item := t.processes[id];
      if id.pid !in starts || starts[id.pid] != id.startTicks {
        var traffic := TrafficAt(unknown, EXITED);
        unknown := unknown[EXITED := Traffic(traffic.rx + item.traffic.rx, traffic.tx + item.traffic.tx)];
        continue;
      }
      known := Traffic(known.rx + item.traffic.rx, known.tx + item.traffic.tx);
      var workload := item.owner.workload;
      if workload.scope == "" {
        workload := workload.(scope := "host");
      }
      rows := rows + [ProcessRate(id, Traffic(Rate(item.traffic.rx, ns), Rate(item.traffic.tx, ns)), workload)];
    }
  }

  // ----- Containers -----

  method RateEntities(t: Tables, ns: nat) returns (rows: seq<EntityRate>, bytes: Traffic)
    requires ns > 0
    ensures Lists(rows, EntityRows(t, ns))
    ensures forall d: Direction :: bytes.In(d) == BytesIn(EntityTraffic(t), d)
  {
    rows, bytes := [], NO_TRAFFIC;
    var left := t.entities.Keys;
    assert EntityRows(t, ns) - left == map[] && EntityTraffic(t) - left == map[];
    ListsNothing<nat, EntityRate>();
    forall d: Direction ensures BytesIn<nat>(map[], d) == 0 {
      BytesOfNone<nat>(d);
    }
    while left != {}
      invariant left <= t.entities.Keys
      invariant Lists(rows, EntityRows(t, ns) - left)
      invariant forall d: Direction :: bytes.In(d) == BytesIn(EntityTraffic(t) - left, d)
    {
      var c :| c in left;
      ListsTake(rows, EntityRows(t, ns), left, c);
      forall d: Direction ensures BytesIn(EntityTraffic(t) - (left - {c}), d) == BytesIn(EntityTraffic(t) - left, d) + t.entities[c].traffic.In(d) {
        BytesTake(EntityTraffic(t), left, c, d);
      }
      left := left - {c};
      var item := t.entities[c];
      bytes := Traffic(bytes.rx + item.traffic.rx, bytes.tx + item.traffic.tx);
      var rx, tx := Rate(item.traffic.rx, ns), Rate(item.traffic.tx, ns);
      if rx + tx > 0 {
        rows := rows + [EntityRate(item.workload, Traffic(rx, tx))];
      }
    }
    assert EntityRows(t, ns) - left == EntityRows(t, ns) && EntityTraffic(t) - left == EntityTraffic(t);
  }

  // ----- The snapshot -----

  /** What the flows account for in one direction: bytes of live processes and containers, and of each
      reason once the exited processes are moved. */
  datatype Breakdown = Breakdown(known: nat, unsupported: nat, unmatched: nat, ambiguous: nat, exited: nat) {

    function Unknown(): nat {
      unsupported + unmatched + ambiguous + exited
    }

    function Reason(r: UnknownReason): nat {
      if r == UNSUPPORTED then unsupported
      else if r == UNMATCHED then unmatched
      else if r == AMBIGUOUS then ambiguous
      else exited
    }

    /** What the interface saw beyond that. */
    function Residual(captured: nat): nat {
      if captured > known + Unknown() then captured - known - Unknown() else 0
    }
  }

  ghost function BreakdownOf(t: Tables, starts: Starts, d: Direction): Breakdown {
    Breakdown(
      BytesIn(AliveIn(ProcessTraffic(t), starts), d) + BytesIn(EntityTraffic(t), d),
      TrafficAt(t.unknown, UNSUPPORTED).In(d),
      TrafficAt(t.unknown, UNMATCHED).In(d),
      TrafficAt(t.unknown, AMBIGUOUS).In(d),
      TrafficAt(t.unknown, EXITED).In(d) + BytesIn(ExitedIn(ProcessTraffic(t), starts), d))
  }

  /** The numbers of the snapshot in one direction. */
  ghost predicate Counts(s: Snapshot, b: Breakdown, captured: nat, ns: nat, d: Direction)
    requires ns > 0
  {
    && s.captured.In(d) == Rate(b.known + b.Unknown() + b.Residual(captured), ns)
    && s.unknown.In(d) == Rate(b.Unknown() + b.Residual(captured), ns)
    && forall r: UnknownReason ::
      s.Reason(r).In(d) == Rate(b.Reason(r), ns) + if r == UNMATCHED then Rate(b.Residual(captured), ns) else 0
  }

  /** The snapshot of a poll, field by field; only the order of its process and container rows is open. */
  ghost predicate IsCgroupSnapshot(s: Snapshot, t: Tables, sys: SystemResolver, captured: Traffic, packets: nat,
                                   now: nat, ns: nat, iface: string, drops: nat, starts: Starts)
    requires ns > 0
  {
    && s.version == 4 && s.unixMilli == now && s.intervalMS == ns / 1_000_000 && s.iface == iface
    && s.packets == packets && s.drops == drops
    && s.source == "ebpf_cgroup" && s.status == "ok" && s.scope == "host_and_containers" && s.reason == ""
    && Lists(s.processes, ProcessRows(t, starts, ns))
    && Lists(s.entities, EntityRows(t, ns))
    && SortedListing(s.workloads, ContainersOf(sys))
    && Counts(s, BreakdownOf(t, starts, Ingress), captured.rx, ns, Ingress)
    && Counts(s, BreakdownOf(t, starts, Egress), captured.tx, ns, Egress)
  }

  method SnapshotCgroupFlows(now: nat, elapsed: int, iface: string, drops: nat, capture: Window, sys: SystemResolver,
                             flows: seq<CgroupFlow>, starts: Starts)
    returns (s: Snapshot)
    requires sys.Valid()
    ensures IsCgroupSnapshot(s, Tabulated(NO_TABLES, sys, flows), sys, capture.captured, capture.packets,
                             now, Elapsed(elapsed), iface, drops, starts)
  {
    var ns := if elapsed <= 0 then SECOND else elapsed;
    var t := Tabulate(sys, flows);
    var header := Blank(4, now, ns, iface, capture.packets, drops);
    header := header.(source := "ebpf_cgroup", status := "ok", scope := "host_and_containers");
    var workloads := Workloads(sys);
    header := header.(workloads := workloads);
    s := FillRows(header, t, starts, capture.captured, ns);
    assert SortedListing(s.workloads, ContainersOf(sys));
  }

  /** The loops over processes, containers and reasons, and the totals. */
  method FillRows(header: Snapshot, t: Tables, starts: Starts, captured: Traffic, ns: nat) returns (s: Snapshot)
    requires ns > 0 && forall r: UnknownReason :: header.Reason(r) == NO_TRAFFIC
    ensures SameHeader(s.(captured := header.captured, entities := header.entities), header)
    ensures Lists(s.processes, ProcessRows(t, starts, ns)) && Lists(s.entities, EntityRows(t, ns))
    ensures Counts(s, BreakdownOf(t, starts, Ingress), captured.rx, ns, Ingress)
    ensures Counts(s, BreakdownOf(t, starts, Egress), captured.tx, ns, Egress)
  {
    hide Lists, BreakdownOf, ProcessRows, EntityRows, TrafficAt, Rate;
    var rows, entities, known, unknown := GatherRows(t, starts, ns);
    s := RateAndTotal(header, unknown, known, captured, BreakdownOf(t, starts, Ingress), BreakdownOf(t, starts, Egress), ns);
    s := s.(processes := rows, entities := entities);
  }

  method GatherRows(t: Tables, starts: Starts, ns: nat)
    returns (rows: seq<ProcessRate>, entities: seq<EntityRate>, known: Traffic, unknown: map<UnknownReason, Traffic>)
    requires ns > 0
    ensures Lists(rows, ProcessRows(t, starts, ns)) && Lists(entities, EntityRows(t, ns))
    ensures known == Traffic(BreakdownOf(t, starts, Ingress).known, BreakdownOf(t, starts, Egress).known)
    ensures forall r: UnknownReason ::
      TrafficAt(unknown, r) == Traffic(BreakdownOf(t, starts, Ingress).Reason(r), BreakdownOf(t, starts, Egress).Reason(r))
  {
    var processBytes;
    rows, processBytes, unknown := SettleProcesses(t, starts, ns);
    SettledAll(t, starts, ns, rows, processBytes, unknown);
    var entityBytes;
    entities, entityBytes := RateEntities(t, ns);
    assert entityBytes.In(Ingress) == BytesIn(EntityTraffic(t), Ingress) && entityBytes.In(Egress) == BytesIn(EntityTraffic(t), Egress);
    known := Traffic(processBytes.rx + entityBytes.rx, processBytes.tx + entityBytes.tx);
  }

  method RateAndTotal(header: Snapshot, unknown: map<UnknownReason, Traffic>, known: Traffic, captured: Traffic,
                      ghost rx: Breakdown, ghost tx: Breakdown, ns: nat)
    returns (s: Snapshot)
    requires ns > 0 && forall r: UnknownReason :: header.Reason(r) == NO_TRAFFIC
    requires known == Traffic(rx.known, tx.known)
    requires forall r: UnknownReason :: TrafficAt(unknown, r) == Traffic(rx.Reason(r), tx.Reason(r))
    ensures SameHeader(s.(captured := header.captured), header)
    ensures Counts(s, rx, captured.rx, ns, Ingress) && Counts(s, tx, captured.tx, ns, Egress)
  {
    var rated, explicit := RateUnknown(header, unknown, ns);
    assert explicit.In(Ingress) == rx.Unknown() && explicit.In(Egress) == tx.Unknown();
    s := AddTotals(rated, known, explicit, captured, ns);
    TalliedCounts(s, rated, rx, explicit.rx, unknown, captured.rx, ns, Ingress);
    TalliedCounts(s, rated, tx, explicit.tx, unknown, captured.tx, ns, Egress);
  }

  lemma SettledAll(t: Tables, starts: Starts, ns: nat, rows: seq<ProcessRate>, known: Traffic, unknown: map<UnknownReason, Traffic>)
    requires ns > 0 && Settled(t, starts, ns, {}, rows, known, unknown)
    ensures Lists(rows, ProcessRows(t, starts, ns))
    ensures known.rx == BytesIn(AliveIn(ProcessTraffic(t), starts), Ingress)
    ensures known.tx == BytesIn(AliveIn(ProcessTraffic(t), starts), Egress)
    ensures forall r: UnknownReason ::
      TrafficAt(unknown, r) == Traffic(BreakdownOf(t, starts, Ingress).Reason(r), BreakdownOf(t, starts, Egress).Reason(r))
  {
    hide BytesIn, Lists, Rate;
    var alive, exited := AliveIn(ProcessTraffic(t), starts), ExitedIn(ProcessTraffic(t), starts);
    assert ProcessRows(t, starts, ns) - {} == ProcessRows(t, starts, ns);
    assert alive - {} == alive && exited - {} == exited;
    assert known.In(Ingress) == BytesIn(alive, Ingress) && known.In(Egress) == BytesIn(alive, Egress);
  }

  /** The effect of the residual and the totals in one direction. */
  predicate Tallied(s: Snapshot, rated: Snapshot, known: nat, explicit: nat, captured: nat, ns: nat, d: Direction)
    requires ns > 0
  {
    var residual := if captured > known + explicit then captured - known - explicit else 0;
    && s.captured.In(d) == Rate(known + explicit + residual, ns)
    && s.unknown.In(d) == Rate(explicit + residual, ns)
    && s.unmatched.In(d) == rated.unmatched.In(d) + Rate(residual, ns)
  }

  method AddTotals(rated: Snapshot, known: Traffic, explicit: Traffic, captured: Traffic, ns: nat) returns (s: Snapshot)
    requires ns > 0
    ensures s == rated.(unmatched := s.unmatched, unknown := s.unknown, captured := s.captured)
    ensures Tallied(s, rated, known.rx, explicit.rx, captured.rx, ns, Ingress)
    ensures Tallied(s, rated, known.tx, explicit.tx, captured.tx, ns, Egress)
  {
    s := rated;
    RateOfNothing(ns);
    var explicitRX, explicitTX := explicit.rx, explicit.tx;
    var bpfRX, bpfTX := known.rx + explicitRX, known.tx + explicitTX;
    if captured.rx > bpfRX {
      var residual := captured.rx - known.rx - explicitRX;
      s := AddUnknownRate(s, UNMATCHED, Traffic(residual, 0), ns);
      explicitRX := explicitRX + residual;
    }
    if captured.tx > bpfTX {
      var residual := captured.tx - known.tx - explicitTX;
      s := AddUnknownRate(s, UNMATCHED, Traffic(0, residual), ns);
      explicitTX := explicitTX + residual;
    }
    s := s.(unknown := Traffic(Rate(explicitRX, ns), Rate(explicitTX, ns)));
    var totalRX, totalTX := captured.rx, captured.tx;
    if bpfRX > totalRX {
      totalRX := bpfRX;
    }
    if bpfTX > totalTX {
      totalTX := bpfTX;
    }
    s := s.(captured := Traffic(Rate(totalRX, ns), Rate(totalTX, ns)));
  }

  lemma TalliedCounts(s: Snapshot, rated: Snapshot, b: Breakdown, explicit: nat, unknown: map<UnknownReason, Traffic>,
                      captured: nat, ns: nat, d: Direction)
    requires ns > 0 && Tallied(s, rated, b.known, explicit, captured, ns, d)
    requires explicit == b.Unknown()
    requires s == rated.(unmatched := s.unmatched, unknown := s.unknown, captured := s.captured)
    requires forall r: UnknownReason :: rated.Reason(r) == if r in unknown then RateOf(unknown[r], ns) else NO_TRAFFIC
    requires forall r: UnknownReason :: TrafficAt(unknown, r).In(d) == b.Reason(r)
    ensures Counts(s, b, captured, ns, d)
  {
    RateOfNothing(ns);
    forall r: UnknownReason ensures rated.Reason(r).In(d) == Rate(b.Reason(r), ns) {
      assert TrafficAt(unknown, r).In(d) == b.Reason(r);
    }
  }
}
