/** What the published numbers promise: no byte lost or counted twice, bounded rounding, and rows that depend
    on the flows but not on their order (internal/netmon/aggregate.go, lines 168-311). */
module AccountingTheorems {
  import opened NetTypes
  import opened Sums
  import opened Rates
  import opened TrafficMaps
  import opened Sockets
  import opened SnapshotTypes
  import opened Sorting
  import opened Cgroups
  import opened Windows
  import opened Accounting
  import SnapshotReader

  // ----- Bytes -----

  /** For any flows, resolver and start times: live processes, containers and the four reasons together hold
      exactly the bytes of the flows, and with the residual exactly the larger of that and what was captured. */
  lemma BytesAreConserved(sys: SystemResolver, flows: seq<CgroupFlow>, starts: Starts, captured: nat, d: Direction)
    ensures var b := BreakdownOf(Tabulated(NO_TABLES, sys, flows), starts, d);
            && b.known + b.Unknown() == FlowBytes(flows, d)
            && b.known + b.Unknown() + b.Residual(captured)
               == if captured > FlowBytes(flows, d) then captured else FlowBytes(flows, d)
  {
    var t := Tabulated(NO_TABLES, sys, flows);
    TabulatedAddsUp(NO_TABLES, sys, flows, d);
    NoTablesNoBytes(d);
    AliveAndExited(ProcessTraffic(t), starts, d);
  }

  /** An exited process moves to its reason whole: nothing else of the breakdown depends on start times. */
  lemma ExitedMovesWhole(t: Tables, starts: Starts, d: Direction)
    ensures var b := BreakdownOf(t, starts, d);
            && b.exited - TrafficAt(t.unknown, EXITED).In(d) == BytesIn(ExitedIn(ProcessTraffic(t), starts), d)
            && b.known + (b.exited - TrafficAt(t.unknown, EXITED).In(d))
               == BytesIn(ProcessTraffic(t), d) + BytesIn(EntityTraffic(t), d)
  {
    AliveAndExited(ProcessTraffic(t), starts, d);
  }

  // ----- Rounding -----

  function ProcessRateIn(d: Direction): ProcessRate -> nat {
    (r: ProcessRate) => r.rate.In(d)
  }

  function EntityRateIn(d: Direction): EntityRate -> nat {
    (r: EntityRate) => r.rate.In(d)
  }

  lemma ProcessRowsTotal(rows: seq<ProcessRate>, t: Tables, starts: Starts, ns: nat, d: Direction)
    requires ns > 0 && Lists(rows, ProcessRows(t, starts, ns))
    ensures var live := AliveIn(ProcessTraffic(t), starts);
            && Sum(rows, ProcessRateIn(d)) == BytesIn(EachRateOf(live, ns), d)
            && |rows| == |live|
  {
    hide Lists, Sum, Rate, Total;
    var live := AliveIn(ProcessTraffic(t), starts);
    ListsTotal(rows, ProcessRows(t, starts, ns), ProcessRateIn(d));
    assert Each(ProcessRows(t, starts, ns), ProcessRateIn(d)) == Column(EachRateOf(live, ns), d);
    assert ProcessRows(t, starts, ns).Keys == live.Keys;
  }

  /** Leaving out the rows that are zero does not change the sum. */
  lemma EntityRowsTotal(rows: seq<EntityRate>, t: Tables, ns: nat, d: Direction)
    requires ns > 0 && Lists(rows, EntityRows(t, ns))
    ensures Sum(rows, EntityRateIn(d)) == BytesIn(EachRateOf(EntityTraffic(t), ns), d)
  {
    hide Lists, Sum, Total;
    var rated := EachRateOf(EntityTraffic(t), ns);
    ListsTotal(rows, EntityRows(t, ns), EntityRateIn(d));
    var shown, all := Each(EntityRows(t, ns), EntityRateIn(d)), Column(rated, d);
    forall c ensures At(shown, c) == At(all, c) {
    }
    TotalMonotone(shown, all);
    TotalMonotone(all, shown);
  }

  lemma RateOfFour(a: nat, b: nat, c: nat, d: nat, ns: nat)
    requires ns > 0
    ensures Rate(a, ns) + Rate(b, ns) + Rate(c, ns) + Rate(d, ns) <= Rate(a + b + c + d, ns)
    ensures Rate(a + b + c + d, ns) <= Rate(a, ns) + Rate(b, ns) + Rate(c, ns) + Rate(d, ns) + 3
  {
    RateOfSum(a, b, ns);
    RateOfSum(a + b, c, ns);
    RateOfSum(a + b + c, d, ns);
  }

  /** `sum` is what `n` shares of `bytes` add up to after each is rounded down. */
  predicate Shares(sum: nat, n: nat, bytes: nat, ns: nat)
    requires ns > 0
  {
    sum <= Rate(bytes, ns) <= sum + (if n == 0 then 0 else n - 1)
  }

  lemma SharesOf<K>(m: map<K, Traffic>, ns: nat, d: Direction)
    requires ns > 0
    ensures Shares(BytesIn(EachRateOf(m, ns), d), |m|, BytesIn(m, d), ns)
    ensures |m| == 0 ==> BytesIn(m, d) == 0
  {
    RateOfBytes(m, ns, d);
    if m == map[] {
      BytesOfNone<K>(d);
      RateOfNothing(ns);
    }
  }

  lemma SharesAddUp(a: nat, na: nat, bytesA: nat, b: nat, nb: nat, bytesB: nat, rest: nat, ns: nat)
    requires ns > 0 && Shares(a, na, bytesA, ns) && Shares(b, nb, bytesB, ns)
    requires (na == 0 ==> bytesA == 0) && (nb == 0 ==> bytesB == 0)
    ensures a + b + Rate(rest, ns) <= Rate(bytesA + bytesB + rest, ns) <= a + b + Rate(rest, ns) + na + nb
  {
    RateOfSum(bytesB, rest, ns);
    RateOfSum(bytesA, bytesB + rest, ns);
  }

  lemma PartsOfBreakdown(t: Tables, starts: Starts, d: Direction)
    ensures BreakdownOf(t, starts, d).known == BytesIn(AliveIn(ProcessTraffic(t), starts), d) + BytesIn(EntityTraffic(t), d)
    ensures |EntityTraffic(t)| == |t.entities|
  {
    assert EntityTraffic(t).Keys == t.entities.Keys;
  }

  lemma RatesAddUp(t: Tables, starts: Starts, rest: nat, ns: nat, d: Direction)
    requires ns > 0
    ensures var live := AliveIn(ProcessTraffic(t), starts);
            var sum := BytesIn(EachRateOf(live, ns), d) + BytesIn(EachRateOf(EntityTraffic(t), ns), d) + Rate(rest, ns);
            sum <= Rate(BreakdownOf(t, starts, d).known + rest, ns) <= sum + |live| + |t.entities|
  {
    hide *;
    var live := AliveIn(ProcessTraffic(t), starts);
    PartsOfBreakdown(t, starts, d);
    SharesOf(live, ns, d);
    SharesOf(EntityTraffic(t), ns, d);
    SharesAddUp(BytesIn(EachRateOf(live, ns), d), |live|, BytesIn(live, d),
                BytesIn(EachRateOf(EntityTraffic(t), ns), d), |EntityTraffic(t)|, BytesIn(EntityTraffic(t), d), rest, ns);
  }

  lemma RowsAddUp(rows: seq<ProcessRate>, entities: seq<EntityRate>, t: Tables, starts: Starts, rest: nat, ns: nat, d: Direction)
    requires ns > 0 && Lists(rows, ProcessRows(t, starts, ns)) && Lists(entities, EntityRows(t, ns))
    ensures var sum := Sum(rows, ProcessRateIn(d)) + Sum(entities, EntityRateIn(d)) + Rate(rest, ns);
            sum <= Rate(BreakdownOf(t, starts, d).known + rest, ns) <= sum + |rows| + |t.entities|
  {
    hide *;
    ProcessRowsTotal(rows, t, starts, ns, d);
    EntityRowsTotal(entities, t, ns, d);
    RatesAddUp(t, starts, rest, ns, d);
  }

  /** Per direction, the process, container and unknown rates add up to at most the captured rate, and fall
      short of it by no more than the number of live processes and containers. */
  lemma RatesStayWithinCaptured(s: Snapshot, t: Tables, sys: SystemResolver, captured: Traffic, packets: nat,
                                now: nat, ns: nat, iface: string, drops: nat, starts: Starts, d: Direction)
    requires ns > 0 && IsCgroupSnapshot(s, t, sys, captured, packets, now, ns, iface, drops, starts)
    ensures var sum := Sum(s.processes, ProcessRateIn(d)) + Sum(s.entities, EntityRateIn(d)) + s.unknown.In(d);
            sum <= s.captured.In(d) <= sum + |s.processes| + |t.entities|
  {
    hide Lists, BreakdownOf, Rate, Sum, ProcessRows, EntityRows;
    var b := BreakdownOf(t, starts, d);
    assert Counts(s, b, captured.In(d), ns, d);
    RowsAddUp(s.processes, s.entities, t, starts, b.Unknown() + b.Residual(captured.In(d)), ns, d);
  }

  /** The reason rates add up to at most the unknown rate and fall short of it by at most four. */
  lemma ReasonsStayWithinUnknown(s: Snapshot, b: Breakdown, captured: nat, ns: nat, d: Direction)
    requires ns > 0 && Counts(s, b, captured, ns, d)
    ensures SumOfReasons(s, d) <= s.unknown.In(d) <= SumOfReasons(s, d) + 4
    ensures s.unknown.In(d) <= s.captured.In(d)
  {
    assert s.Reason(UNSUPPORTED).In(d) == Rate(b.unsupported, ns);
    assert s.Reason(UNMATCHED).In(d) == Rate(b.unmatched, ns) + Rate(b.Residual(captured), ns);
    assert s.Reason(AMBIGUOUS).In(d) == Rate(b.ambiguous, ns) && s.Reason(EXITED).In(d) == Rate(b.exited, ns);
    RateOfFour(b.unsupported, b.unmatched, b.ambiguous, b.exited, ns);
    RateOfSum(b.Unknown(), b.Residual(captured), ns);
    RateMonotone(b.Unknown() + b.Residual(captured), b.known + b.Unknown() + b.Residual(captured), ns);
  }

  lemma WindowRowsTotal(rows: seq<ProcessRate>, processes: map<ProcessID, Traffic>, starts: Starts, ns: nat, d: Direction)
    requires ns > 0 && Lists(rows, WindowRows(processes, starts, ns))
    ensures Sum(rows, ProcessRateIn(d)) == BytesIn(EachRateOf(AliveIn(processes, starts), ns), d)
  {
    hide Lists, Sum, Rate, Total;
    ListsTotal(rows, WindowRows(processes, starts, ns), ProcessRateIn(d));
    assert Each(WindowRows(processes, starts, ns), ProcessRateIn(d)) == Column(EachRateOf(AliveIn(processes, starts), ns), d);
  }

  lemma WindowRatesAddUp(processes: map<ProcessID, Traffic>, starts: Starts, unattributed: nat, captured: nat, ns: nat, d: Direction)
    requires ns > 0 && captured >= unattributed + BytesIn(processes, d)
    ensures BytesIn(EachRateOf(AliveIn(processes, starts), ns), d) + BytesIn(EachRateOf(ExitedIn(processes, starts), ns), d)
            + Rate(unattributed, ns) <= Rate(captured, ns)
  {
    var live, exited := AliveIn(processes, starts), ExitedIn(processes, starts);
    hide *;
    AliveAndExited(processes, starts, d);
    SharesOf(live, ns, d);
    SharesOf(exited, ns, d);
    SharesAddUp(BytesIn(EachRateOf(live, ns), d), |live|, BytesIn(live, d),
                BytesIn(EachRateOf(exited, ns), d), |exited|, BytesIn(exited, d), unattributed, ns);
    RateMonotone(BytesIn(live, d) + BytesIn(exited, d) + unattributed, captured, ns);
  }

  /** The AF_PACKET side, from any window that books no more than it captured: rates stay within the captured
      rate, processes that exited included. */
  lemma WindowRatesStayWithinCaptured(s: Snapshot, t: Tally, now: nat, ns: nat, iface: string, drops: nat, starts: Starts, d: Direction)
    requires ns > 0 && IsWindowSnapshot(s, t, now, ns, iface, drops, starts) && Windows.Covered(t)
    ensures Sum(s.processes, ProcessRateIn(d)) + s.unknown.In(d) <= s.captured.In(d)
    ensures SumOfReasons(s, d) <= s.unknown.In(d) <= SumOfReasons(s, d) + 3
  {
    assert BooksOf(t, d).Covered();
    WindowRowsTotal(s.processes, t.processes, starts, ns, d);
    WindowRatesAddUp(t.processes, starts, t.unattributed.In(d), t.captured.In(d), ns, d);
    WindowReasons(s, t, ns, starts, d);
  }

  lemma WindowReasons(s: Snapshot, t: Tally, ns: nat, starts: Starts, d: Direction)
    requires ns > 0 && t.unattributed.In(d) == ReasonBytes(t.unknown, d)
    requires s.unknown.In(d) == Rate(t.unattributed.In(d), ns) + BytesIn(EachRateOf(ExitedIn(t.processes, starts), ns), d)
    requires forall r: UnknownReason ::
      s.Reason(r).In(d) == (if r in t.unknown then Rate(t.unknown[r].In(d), ns) else 0)
                         + (if r == EXITED then BytesIn(EachRateOf(ExitedIn(t.processes, starts), ns), d) else 0)
    ensures SumOfReasons(s, d) <= s.unknown.In(d) <= SumOfReasons(s, d) + 3
  {
    var exited := BytesIn(EachRateOf(ExitedIn(t.processes, starts), ns), d);
    RateOfNothing(ns);
    forall r: UnknownReason
      ensures s.Reason(r).In(d) == Rate(TrafficAt(t.unknown, r).In(d), ns) + if r == EXITED then exited else 0
    {
    }
    assert s.Reason(UNSUPPORTED) == s.unsupported && s.Reason(UNMATCHED) == s.unmatched && s.Reason(AMBIGUOUS) == s.ambiguous;
    RateOfFour(TrafficAt(t.unknown, UNSUPPORTED).In(d), TrafficAt(t.unknown, UNMATCHED).In(d),
               TrafficAt(t.unknown, AMBIGUOUS).In(d), TrafficAt(t.unknown, EXITED).In(d), ns);
  }

  // ----- Coverage -----

  lemma PercentOf(part: nat, total: nat)
    requires part <= total && total > 0
    ensures 0 <= part * 100 / total <= 100
    ensures part * 100 / total * total <= part * 100 < (part * 100 / total + 1) * total
  {
    var q := Quotient(part * 100, total);
    QuotientBounds(part * 100, total);
    QuotientIsFloor(part * 100, total);
    assert q * total <= part * 100 <= 100 * total;
    MultiplesAreApart(100, q, total);
  }

  /** When neither direction has more unknown than captured, as every snapshot above guarantees, neither
      clamp of the coverage percentage fires. */
  lemma CoverageNeedsNoClamp(captured: Traffic, unknown: Traffic)
    requires unknown.rx <= captured.rx && unknown.tx <= captured.tx
    ensures SnapshotReader.Percent(captured.rx, captured.tx, unknown.rx, unknown.tx) == (
      var total := captured.rx + captured.tx;
      if total > 0 then (total - unknown.rx - unknown.tx) * 100 / total else 100)
  {
    var total := captured.rx + captured.tx;
    if total > 0 {
      PercentOf(total - unknown.rx - unknown.tx, total);
    }
  }

  /** The percentage for any numbers: everything if nothing was captured, nothing if no less is unknown, and else
      the known share rounded down. */
  lemma PercentIs(capRx: nat, capTx: nat, unknownRx: nat, unknownTx: nat)
    ensures var total, unknown, percent := capRx + capTx, unknownRx + unknownTx, SnapshotReader.Percent(capRx, capTx, unknownRx, unknownTx);
            if total == 0 then percent == 100
            else if unknown >= total then percent == 0
            else percent * total <= (total - unknown) * 100 < (percent + 1) * total
  {
    var total, unknown := capRx + capTx, unknownRx + unknownTx;
    if total > 0 {
      var known := if unknown >= total then 0 else total - unknown;
      PercentOf(known, total);
      PercentHasFloor(capRx, capTx, unknownRx, unknownTx, known * 100 / total);
    }
  }

  lemma PercentHasFloor(capRx: nat, capTx: nat, unknownRx: nat, unknownTx: nat, floor: nat)
    requires var total, unknown := capRx + capTx, unknownRx + unknownTx;
             total > 0 && floor <= 100 && floor == (if unknown >= total then 0 else total - unknown) * 100 / total
    ensures SnapshotReader.Percent(capRx, capTx, unknownRx, unknownTx) == floor
    ensures unknownRx + unknownTx >= capRx + capTx ==> floor == 0
  {
  }

  // ----- Order of the flows -----

  lemma PlusCommutes(t: Traffic, d: Direction, m: nat, e: Direction, n: nat)
    ensures t.Plus(d, m).Plus(e, n) == t.Plus(e, n).Plus(d, m)
  {
  }

  lemma ProcessPostsCommute(t: Tables, x: ProcessOwner, a: CgroupFlow, y: ProcessOwner, b: CgroupFlow)
    requires x.id == y.id ==> x == y
    ensures PostProcess(PostProcess(t, x, a), y, b) == PostProcess(PostProcess(t, y, b), x, a)
  {
    var item := if x.id in t.processes then t.processes[x.id] else Attributed(x, NO_TRAFFIC);
    PlusCommutes(item.traffic, a.direction, a.bytes, b.direction, b.bytes);
    assert PostProcess(PostProcess(t, x, a), y, b).processes == PostProcess(PostProcess(t, y, b), x, a).processes;
  }

  lemma EntityPostsCommute(t: Tables, x: Workload, a: CgroupFlow, y: Workload, b: CgroupFlow)
    requires a.cgroupID == b.cgroupID ==> x == y
    ensures PostEntity(PostEntity(t, x, a), y, b) == PostEntity(PostEntity(t, y, b), x, a)
  {
    var item := if a.cgroupID in t.entities then t.entities[a.cgroupID] else Entity(x, NO_TRAFFIC);
    PlusCommutes(item.traffic, a.direction, a.bytes, b.direction, b.bytes);
    assert PostEntity(PostEntity(t, x, a), y, b).entities == PostEntity(PostEntity(t, y, b), x, a).entities;
  }

  lemma UnknownPostsCommute(t: Tables, x: UnknownReason, a: CgroupFlow, y: UnknownReason, b: CgroupFlow)
    ensures PostUnknown(PostUnknown(t, x, a), y, b) == PostUnknown(PostUnknown(t, y, b), x, a)
  {
    PlusCommutes(TrafficAt(t.unknown, x), a.direction, a.bytes, b.direction, b.bytes);
    assert PostUnknown(PostUnknown(t, x, a), y, b).unknown == PostUnknown(PostUnknown(t, y, b), x, a).unknown;
  }

  lemma PostsCommute(t: Tables, ra: Resolution, a: CgroupFlow, rb: Resolution, b: CgroupFlow)
    requires ra.process.Some? && rb.process.Some? && ra.process.value.id == rb.process.value.id ==> ra.process == rb.process
    requires ra.workload.Some? && rb.workload.Some? && a.cgroupID == b.cgroupID ==> ra.workload == rb.workload
    ensures PostAs(PostAs(t, ra, a), rb, b) == PostAs(PostAs(t, rb, b), ra, a)
  {
    if ra.process.Some? && rb.process.Some? {
      ProcessPostsCommute(t, ra.process.value, a, rb.process.value, b);
    } else if ra.process.None? && rb.process.None? && ra.workload.Some? && rb.workload.Some? {
      EntityPostsCommute(t, ra.workload.value, a, rb.workload.value, b);
    } else if ra.process.None? && rb.process.None? && ra.workload.None? && rb.workload.None? {
      UnknownPostsCommute(t, ra.reason, a, rb.reason, b);
    }
  }

  lemma FlowsCommute(t: Tables, sys: SystemResolver, a: CgroupFlow, b: CgroupFlow)
    requires sys.Consistent()
    ensures Posted(Posted(t, sys, a), sys, b) == Posted(Posted(t, sys, b), sys, a)
  {
    var ra, rb := Resolved(sys, a), Resolved(sys, b);
    if ra.process.Some? && rb.process.Some? && ra.process.value.id == rb.process.value.id {
      OneRecordPerProcess(sys, a, b);
    }
    PostsCommute(t, ra, a, rb, b);
  }

  lemma {:induction false} AnyFlowLast(t: Tables, sys: SystemResolver, flows: seq<CgroupFlow>, i: nat)
    requires sys.Consistent() && i < |flows|
    ensures Tabulated(t, sys, flows) == Posted(Tabulated(t, sys, flows[..i] + flows[i + 1..]), sys, flows[i])
    decreases |flows|
  {
    hide Posted, SystemResolver.Consistent;
    var n := |flows| - 1;
    if i == n {
      assert flows[..i] + flows[i + 1..] == flows[..n];
    } else {
      var front := flows[..n];
      var without := front[..i] + front[i + 1..];
      AnyFlowLast(t, sys, front, i);
      FlowsCommute(Tabulated(t, sys, without), sys, flows[i], flows[n]);
      assert flows[..i] + flows[i + 1..] == without + [flows[n]];
      assert (without + [flows[n]])[..|without|] == without;
    }
  }

  /** The tables depend only on which flows there are, given one record per process. */
  lemma {:induction false} FlowOrderIsIrrelevant(t: Tables, sys: SystemResolver, a: seq<CgroupFlow>, b: seq<CgroupFlow>)
    requires sys.Consistent() && multiset(a) == multiset(b)
    ensures Tabulated(t, sys, a) == Tabulated(t, sys, b)
    decreases |a|
  {
    assert |a| == |multiset(a)| == |multiset(b)| == |b|;
    if a != [] {
      var n := |a| - 1;
      assert a[n] in multiset(b);
      var i :| 0 <= i < |b| && b[i] == a[n];
      MultisetWithout(a, n);
      MultisetWithout(b, i);
      assert a[..n] + a[n + 1..] == a[..n];
      FlowOrderIsIrrelevant(t, sys, a[..n], b[..i] + b[i + 1..]);
      AnyFlowLast(t, sys, b, i);
    }
  }
}
