/** Per-window packet accounting on the AF_PACKET side (internal/netmon/aggregate.go, lines 9-111). */
module Windows {
  import opened NetTypes
  import opened Sums
  import opened Packets
  import opened Sockets
  import opened TrafficMaps
  import opened Rates
  import opened SnapshotTypes

  /** Where a packet's bytes are booked. */
  datatype Destination = ToProcess(id: ProcessID) | ToUnknown(reason: UnknownReason)

  /** The books of a window; `captured` and `unattributed` are running totals kept beside the two maps. */
  datatype Tally = Tally(
    captured: Traffic,
    unattributed: Traffic,
    unknown: map<UnknownReason, Traffic>,
    packets: nat,
    processes: map<ProcessID, Traffic>)

  const EMPTY_TALLY := Tally(NO_TRAFFIC, NO_TRAFFIC, map[], 0, map[])

  // ----- Specification -----

  /** The interface's own MAC decides; failing that, a local source address does. */
  function DirectionOf(p: Packet, localMAC: seq<byte>, localIPs: set<Addr>): Direction {
    if |localMAC| == 6 && p.srcMAC == localMAC then Egress
    else if |localMAC| == 6 && p.dstMAC == localMAC then Ingress
    else if p.isIP && p.src.addr.Unmap() in localIPs then Egress
    else Ingress
  }

  ghost function DestinationOf(p: Packet, d: Direction, resolver: Option<Resolver>): Destination {
    if !p.hasPorts then ToUnknown(UNSUPPORTED)
    else if resolver.None? then ToUnknown(UNMATCHED)
    else match Judged(resolver.value.Seen(), TupleOf(p, d))
      case Found(id) => ToProcess(id)
      case Unmatched => ToUnknown(UNMATCHED)
      case Ambiguous => ToUnknown(AMBIGUOUS)
  }

  function Observed(t: Tally, d: Direction, size: nat): Tally {
    t.(captured := t.captured.Plus(d, size), packets := t.packets + 1)
  }

  function Booked(t: Tally, dest: Destination, d: Direction, size: nat): Tally {
    match dest
    case ToProcess(id) => t.(processes := t.processes[id := TrafficAt(t.processes, id).Plus(d, size)])
    case ToUnknown(reason) => t.(
      unattributed := t.unattributed.Plus(d, size),
      unknown := t.unknown[reason := TrafficAt(t.unknown, reason).Plus(d, size)])
  }

  /** A negative packet length counts as zero. */
  function Size(length: int): nat {
    if length < 0 then 0 else length
  }

  // ----- The code -----

  method DirectionTX(p: Packet, localMAC: seq<byte>, localIPs: set<Addr>) returns (tx: bool)
    ensures tx <==> DirectionOf(p, localMAC, localIPs) == Egress
  {
    if |localMAC| == 6 {
      if p.srcMAC == localMAC {
        return true;
      }
      if p.dstMAC == localMAC {
        return false;
      }
    }
    if p.isIP {
      return p.src.addr.Unmap() in localIPs;
    }
    return false;
  }

  class Window {
    var captured: Traffic
    var unattributed: Traffic
    var unknown: map<UnknownReason, Traffic>
    var packets: nat
    var processes: map<ProcessID, Traffic>

    function Contents(): Tally
      reads this
    {
      Tally(captured, unattributed, unknown, packets, processes)
    }

    constructor ()
      ensures Contents() == EMPTY_TALLY
    {
      captured, unattributed := NO_TRAFFIC, NO_TRAFFIC;
      unknown, processes := map[], map[];
      packets := 0;
    }

    method Account(p: Packet, length: int, localMAC: seq<byte>, localIPs: set<Addr>, resolver: Option<Resolver>)
      requires resolver.Some? ==> resolver.value.Valid()
      modifies this
      ensures var d := DirectionOf(p, localMAC, localIPs);
              Contents() == Booked(Observed(old(Contents()), d, Size(length)), DestinationOf(p, d, resolver), d, Size(length))
    {
      hide Judged, DirectionOf, TrafficAt;
      var size := if length < 0 then 0 else length;
      packets := packets + 1;
      var tx := DirectionTX(p, localMAC, localIPs);
      if tx {
        captured := captured.(tx := captured.tx + size);
      } else {
        captured := captured.(rx := captured.rx + size);
      }
      if !p.hasPorts {
        AddUnknown(tx, size, UNSUPPORTED);
        return;
      }
      if resolver.None? {
        AddUnknown(tx, size, UNMATCHED);
        return;
      }
      var flow := FlowKey(p.protocol, NO_ENDPOINT, NO_ENDPOINT);
      if tx {
        flow := flow.(local := p.src, remote := p.dst);
      } else {
        flow := flow.(local := p.dst, remote := p.src);
      }
      var owner, reason := Resolve(resolver.value, flow);
      if reason != 0 {
        AddUnknown(tx, size, reason);
        return;
      }
      var traffic := TrafficAt(processes, owner);
      if tx {
        traffic := traffic.(tx := traffic.tx + size);
      } else {
        traffic := traffic.(rx := traffic.rx + size);
      }
      processes := processes[owner := traffic];
    }

    method Observe(p: Packet, length: int, localMAC: seq<byte>, localIPs: set<Addr>)
      modifies this
      ensures Contents() == Observed(old(Contents()), DirectionOf(p, localMAC, localIPs), Size(length))
    {
      var size := if length < 0 then 0 else length;
      packets := packets + 1;
      var tx := DirectionTX(p, localMAC, localIPs);
      if tx {
        captured := captured.(tx := captured.tx + size);
      } else {
        captured := captured.(rx := captured.rx + size);
      }
    }

    method AddUnknown(tx: bool, size: nat, reason: UnknownReason)
      modifies this`unattributed, this`unknown
      ensures Contents() == Booked(old(Contents()), ToUnknown(reason), if tx then Egress else Ingress, size)
    {
      var traffic := TrafficAt(unknown, reason);
      if tx {
        unattributed := unattributed.(tx := unattributed.tx + size);
        traffic := traffic.(tx := traffic.tx + size);
      } else {
        unattributed := unattributed.(rx := unattributed.rx + size);
        traffic := traffic.(rx := traffic.rx + size);
      }
      unknown := unknown[reason := traffic];
    }

    method Snapshot(now: nat, elapsed: int, iface: string, drops: nat, starts: Starts) returns (s: SnapshotTypes.Snapshot)
      ensures IsWindowSnapshot(s, Contents(), now, Elapsed(elapsed), iface, drops, starts)
    {
      var ns := if elapsed <= 0 then SECOND else elapsed;
      var header := Blank(2, now, ns, iface, packets, drops);
      header := header.(captured := RateOf(captured, ns));
      header := header.(unknown := RateOf(unattributed, ns));
      var explicit;
      s, explicit := RateUnknown(header, unknown, ns);
      s := RateProcesses(s, ns, starts);
    }

    /** The loop over the processes; `rows` and the two rates are the snapshot's fields while it runs. */
    method RateProcesses(header: SnapshotTypes.Snapshot, ns: nat, starts: Starts) returns (s: SnapshotTypes.Snapshot)
      requires ns > 0 && header.processes == []
      ensures Lists(s.processes, WindowRows(processes, starts, ns))
      ensures s == header.(processes := s.processes, unknown := s.unknown, exited := s.exited)
      ensures forall d: Direction ::
        && s.unknown.In(d) == header.unknown.In(d) + BytesIn(EachRateOf(ExitedIn(processes, starts), ns), d)
        && s.exited.In(d) == header.exited.In(d) + BytesIn(EachRateOf(ExitedIn(processes, starts), ns), d)
    {
      var rows, unknown, exited := header.processes, header.unknown, header.exited;
      ghost var sum := NO_TRAFFIC;
      var left := processes.Keys;
      NothingTaken(processes, starts, ns);
      while left != {}
        invariant left <= processes.Keys
        invariant Taken(processes, starts, ns, left, rows, sum)
        invariant forall d: Direction :: unknown.In(d) == header.unknown.In(d) + sum.In(d)
        invariant forall d: Direction :: exited.In(d) == header.exited.In(d) + sum.In(d)
      {
        var process :| process in left;
        TakeProcess(processes, starts, ns, left, rows, sum, process);
        left := left - {process};
        var rx, tx := Rate(processes[process].rx, ns), Rate(processes[process].tx, ns);
        if process.pid !in starts || starts[process.pid] != process.startTicks {
          unknown := Traffic(unknown.rx + rx, unknown.tx + tx);
          exited := Traffic(exited.rx + rx, exited.tx + tx);
          sum := Traffic(sum.rx + rx, sum.tx + tx);
          continue;
        }
        rows := rows + [ProcessRate(process, Traffic(rx, tx), NO_WORKLOAD)];
      }
      AllTaken(processes, starts, ns, rows, sum);
      s := header.(processes := rows, unknown := unknown, exited := exited);
    }
  }

  /** The rows and the exited rates of the processes no longer `left`. */
  ghost predicate Taken(processes: map<ProcessID, Traffic>, starts: Starts, ns: nat, left: set<ProcessID>,
                        rows: seq<ProcessRate>, sum: Traffic)
    requires ns > 0
  {
    && Lists(rows, WindowRows(processes, starts, ns) - left)
    && forall d: Direction :: sum.In(d) == BytesIn(EachRateOf(ExitedIn(processes, starts), ns) - left, d)
  }

  lemma NothingTaken(processes: map<ProcessID, Traffic>, starts: Starts, ns: nat)
    requires ns > 0
    ensures Taken(processes, starts, ns, processes.Keys, [], NO_TRAFFIC)
  {
    assert WindowRows(processes, starts, ns) - processes.Keys == map[];
    assert EachRateOf(ExitedIn(processes, starts), ns) - processes.Keys == map[];
    ListsNothing<ProcessID, ProcessRate>();
    forall d: Direction ensures BytesIn<ProcessID>(map[], d) == 0 {
      BytesOfNone<ProcessID>(d);
    }
  }

  lemma TakeProcess(processes: map<ProcessID, Traffic>, starts: Starts, ns: nat, left: set<ProcessID>,
                    rows: seq<ProcessRate>, sum: Traffic, id: ProcessID)
    requires ns > 0 && id in left && left <= processes.Keys
    requires Taken(processes, starts, ns, left, rows, sum)
    ensures var rate := RateOf(processes[id], ns);
            if Alive(starts, id)
            then Taken(processes, starts, ns, left - {id}, rows + [ProcessRate(id, rate, NO_WORKLOAD)], sum)
            else Taken(processes, starts, ns, left - {id}, rows, Traffic(sum.rx + rate.rx, sum.tx + rate.tx))
  {
    var exited := EachRateOf(ExitedIn(processes, starts), ns);
    ListsTake(rows, WindowRows(processes, starts, ns), left, id);
    forall d: Direction ensures BytesIn(exited - (left - {id}), d) == BytesIn(exited - left, d) + TrafficAt(exited, id).In(d) {
      BytesTake(exited, left, id, d);
    }
  }

  lemma AllTaken(processes: map<ProcessID, Traffic>, starts: Starts, ns: nat, rows: seq<ProcessRate>, sum: Traffic)
    requires ns > 0 && Taken(processes, starts, ns, {}, rows, sum)
    ensures Lists(rows, WindowRows(processes, starts, ns))
    ensures forall d: Direction :: sum.In(d) == BytesIn(EachRateOf(ExitedIn(processes, starts), ns), d)
  {
    assert WindowRows(processes, starts, ns) - {} == WindowRows(processes, starts, ns);
    assert EachRateOf(ExitedIn(processes, starts), ns) - {} == EachRateOf(ExitedIn(processes, starts), ns);
  }

  function WindowRows(processes: map<ProcessID, Traffic>, starts: Starts, ns: nat): map<ProcessID, ProcessRate>
    requires ns > 0
  {
    map id | id in processes && Alive(starts, id) :: ProcessRate(id, RateOf(processes[id], ns), NO_WORKLOAD)
  }

  /** The snapshot of a window, field by field; the order of the process rows is not determined. */
  ghost predicate IsWindowSnapshot(s: SnapshotTypes.Snapshot, t: Tally, now: nat, ns: nat, iface: string, drops: nat, starts: Starts)
    requires ns > 0
  {
    && SameHeader(s, Blank(2, now, ns, iface, t.packets, drops).(captured := RateOf(t.captured, ns)))
    && Lists(s.processes, WindowRows(t.processes, starts, ns))
    && forall d: Direction ::
      var exited := BytesIn(EachRateOf(ExitedIn(t.processes, starts), ns), d);
      && s.unknown.In(d) == Rate(t.unattributed.In(d), ns) + exited
      && forall r: UnknownReason ::
        s.Reason(r).In(d) == (if r in t.unknown then Rate(t.unknown[r].In(d), ns) else 0) + (if r == EXITED then exited else 0)
  }

  // ----- Invariants -----

  /** The four totals of a window in one direction. */
  datatype Books = Books(captured: nat, unattributed: nat, processes: nat, unknown: nat) {

    /** Every captured byte is booked exactly once, and the unattributed total is the sum over the reasons. */
    predicate Balanced() {
      captured == unattributed + processes && unattributed == unknown
    }

    /** No byte is booked that was not captured. */
    predicate Covered() {
      captured >= unattributed + processes && unattributed == unknown
    }
  }

  ghost function BooksOf(t: Tally, d: Direction): Books {
    Books(t.captured.In(d), t.unattributed.In(d), BytesIn(t.processes, d), ReasonBytes(t.unknown, d))
  }

  ghost predicate Balanced(t: Tally) {
    forall d: Direction :: BooksOf(t, d).Balanced()
  }

  ghost predicate Covered(t: Tally) {
    forall d: Direction :: BooksOf(t, d).Covered()
  }

  /** One more packet is captured once and booked once, in its own direction only. */
  lemma AccountAddsUp(t: Tally, dest: Destination, d: Direction, size: nat, e: Direction)
    ensures var n := if d == e then size else 0;
            var b, b' := BooksOf(t, e), BooksOf(Booked(Observed(t, d, size), dest, d, size), e);
            && b'.captured == b.captured + n
            && (dest.ToProcess? ==> b'.processes == b.processes + n && b'.unattributed == b.unattributed && b'.unknown == b.unknown)
            && (dest.ToUnknown? ==> b'.processes == b.processes && b'.unattributed == b.unattributed + n && b'.unknown == b.unknown + n)
  {
    match dest
    case ToProcess(id) => BytesPlus(t.processes, id, d, size, e);
    case ToUnknown(reason) => ReasonBytesSet(t.unknown, reason, TrafficAt(t.unknown, reason).Plus(d, size), e);
  }

  /** Accounting a packet keeps the books balanced, whatever the packet and wherever it is booked. */
  lemma AccountKeepsBalance(t: Tally, dest: Destination, d: Direction, size: nat)
    ensures Balanced(t) ==> Balanced(Booked(Observed(t, d, size), dest, d, size))
    ensures Covered(t) ==> Covered(Booked(Observed(t, d, size), dest, d, size))
  {
    var t' := Booked(Observed(t, d, size), dest, d, size);
    forall e: Direction
      ensures BooksOf(t, e).Balanced() ==> BooksOf(t', e).Balanced()
      ensures BooksOf(t, e).Covered() ==> BooksOf(t', e).Covered()
    {
      AccountAddsUp(t, dest, d, size, e);
    }
  }

  /** Merely observing a packet keeps a balanced window balanced iff the packet is empty; it never books
      more than was captured. */
  lemma ObserveKeepsBalanceIff(t: Tally, d: Direction, size: nat)
    requires Balanced(t)
    ensures Balanced(Observed(t, d, size)) <==> size == 0
    ensures Covered(Observed(t, d, size))
  {
    hide BytesIn, ReasonBytes;
    var t' := Observed(t, d, size);
    forall e: Direction
      ensures BooksOf(t', e) == BooksOf(t, e).(captured := BooksOf(t, e).captured + if d == e then size else 0)
    {
    }
    assert BooksOf(t', d).Balanced() <==> size == 0;
  }
}
