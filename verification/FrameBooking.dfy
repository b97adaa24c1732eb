/** Where the packet side books a frame, from the bytes on the wire to the books of every run
    (internal/netmon/packet.go, lines 18-114; internal/netmon/aggregate.go, lines 23-111;
    internal/netmon/run_linux.go, lines 89-173). */
module FrameBooking {
  import opened NetTypes
  import opened Rates
  import opened TrafficMaps
  import opened Packets
  import opened PacketLaws
  import opened Sockets
  import opened SnapshotTypes
  import opened Windows
  import opened RunLoop
  import opened RunTheorems
  import KernelKeys
  import Attribution
  import Sums

  // ----- Direction -----

  /** A frame the interface sent carries its MAC as the source, one sent to it as the destination; the source is
      looked at first. */
  lemma OwnMacDecides(dst: Mac, src: Mac, tags: seq<Tag>, etherType: u16, payload: seq<byte>, mac: Mac, ips: set<Addr>)
    requires LegalTags(tags) && !IsTagType(etherType) && (src == mac || dst == mac)
    ensures DirectionOf(Parsed(EncodeFrame(dst, src, tags, etherType, payload)), mac, ips) == Egress <==> src == mac
  {
    FrameIsItsPayload(dst, src, tags, etherType, payload);
    MacsAreKept(payload, etherType, NO_PACKET.(dstMAC := dst, srcMAC := src));
  }

  lemma MacsAreKept(payload: seq<byte>, etherType: u16, p: Packet)
    ensures var q := ParsedLayer3(payload, Layer(etherType, 0), p);
            q.srcMAC == p.srcMAC && q.dstMAC == p.dstMAC
  {
    hide PastExtensions;
  }

  /** Where no MAC decides, an IPv4 packet is outgoing iff its source address is a local one. */
  lemma IPv4SourceDecides(dst: Mac, src: Mac, tags: seq<Tag>, h: IPv4Header, payload: seq<byte>, mac: seq<byte>, ips: set<Addr>)
    requires LegalTags(tags) && h.Legal() && (|mac| == 6 ==> src != mac && dst != mac)
    ensures DirectionOf(Parsed(EncodeFrame(dst, src, tags, 0x0800, h.Encode() + payload)), mac, ips) == Egress <==> V4(h.src) in ips
  {
    hide Parsed, EncodeFrame, LegalTags;
    IPv4FrameIs(dst, src, tags, h, payload);
  }

  /** So is an IPv6 packet, an IPv4-mapped source counting as the IPv4 address. */
  lemma IPv6SourceDecides(dst: Mac, src: Mac, tags: seq<Tag>, h: IPv6Header, exts: seq<Extension>, protocol: byte,
                          payload: seq<byte>, mac: seq<byte>, ips: set<Addr>)
    requires LegalTags(tags) && h.Legal() && LegalExtensions(exts) && !IsExtension(protocol) && (|mac| == 6 ==> src != mac && dst != mac)
    ensures DirectionOf(Parsed(EncodeFrame(dst, src, tags, 0x86dd,
              h.Encode(FirstNumber(exts, protocol)) + (EncodeExtensions(exts, protocol) + payload))), mac, ips) == Egress
            <==> V6(h.src).Unmap() in ips
  {
    hide Parsed, EncodeFrame, LegalTags, LegalExtensions, EncodeExtensions, IsExtension;
    IPv6FrameIs(dst, src, tags, h, exts, protocol, payload);
    UnmappedStays(V6(h.src));
  }

  lemma UnmappedStays(a: Addr)
    ensures a.Unmap().Unmap() == a.Unmap()
  {
  }

  /** Anything else counts as incoming. */
  lemma OtherFramesComeIn(dst: Mac, src: Mac, tags: seq<Tag>, etherType: u16, payload: seq<byte>, mac: seq<byte>, ips: set<Addr>)
    requires LegalTags(tags) && !IsTagType(etherType) && etherType != 0x0800 && etherType != 0x86dd
    requires |mac| == 6 ==> src != mac
    ensures DirectionOf(Parsed(EncodeFrame(dst, src, tags, etherType, payload)), mac, ips) == Ingress
  {
    OtherFramesAreNotIP(dst, src, tags, etherType, payload);
  }

  // ----- Destination -----

  /** A packet goes to the process its socket names, and otherwise to the reason why there is none: no ports, no
      resolver or no socket, or several. */
  lemma DestinationIff(p: Packet, d: Direction, resolver: Option<Resolver>, id: ProcessID)
    ensures DestinationOf(p, d, resolver) == ToUnknown(UNSUPPORTED) <==> !p.hasPorts
    ensures p.hasPorts && resolver.None? ==> DestinationOf(p, d, resolver) == ToUnknown(UNMATCHED)
    ensures p.hasPorts && resolver.Some? ==>
      var verdict := Judged(resolver.value.Seen(), KernelKeys.FlowOf(d, p.protocol, p.src, p.dst));
      && (DestinationOf(p, d, resolver) == ToProcess(id) <==> verdict == Found(id))
      && (DestinationOf(p, d, resolver) == ToUnknown(UNMATCHED) <==> verdict == Sockets.Unmatched)
      && (DestinationOf(p, d, resolver) == ToUnknown(AMBIGUOUS) <==> verdict == Sockets.Ambiguous)
  {
    hide Judged;
  }

  // ----- The books of a run -----

  /** The bytes a window has booked to a process or a reason. */
  function BookedTo(t: Tally, dest: Destination, d: Direction): nat {
    match dest
    case ToProcess(id) => TrafficAt(t.processes, id).In(d)
    case ToUnknown(reason) => TrafficAt(t.unknown, reason).In(d)
  }

  /** The bytes of a frame that go one way to one destination: its length on the wire, or what was captured of it. */
  ghost function BytesFor(cfg: Config, s: State, reading: Reading, dest: Destination, d: Direction): nat {
    if !reading.Frame? || s.baselines.Some? then 0
    else
      var p := Parsed(reading.data);
      var way := DirectionOf(p, cfg.mac, cfg.localIPs);
      if way == d && DestinationOf(p, d, Some(s.resolver)) == dest
      then (if reading.length > 0 then reading.length else |reading.data|) else 0
  }

  ghost function BytesForAll(cfg: Config, first: State, run: seq<Event>, dest: Destination, d: Direction): nat {
    if run == [] then 0
    else
      var n := |run| - 1;
      BytesForAll(cfg, first, run[..n], dest, d) + BytesFor(cfg, StateBefore(first, run, n), run[n].turn.reading, dest, d)
  }

  /** What the windows of the written files had booked there. */
  function FiledFor(run: seq<Event>, dest: Destination, d: Direction): nat {
    if run == [] then 0
    else
      var n := |run| - 1;
      FiledFor(run[..n], dest, d) + if run[n].written.Some? then BookedTo(run[n].window, dest, d) else 0
  }

  lemma CountedIsBooked(cfg: Config, s: State, reading: Reading, dest: Destination, d: Direction)
    ensures BookedTo(RunLoop.Counted(cfg, s, reading), dest, d) == BookedTo(s.window, dest, d) + BytesFor(cfg, s, reading, dest, d)
  {
    hide Parsed, DestinationOf, DirectionOf;
  }

  lemma TurnBooks(cfg: Config, s: State, e: Event, dest: Destination, d: Direction)
    requires e.turn.poll.Valid() && IsTurn(cfg, s, e)
    ensures BookedTo(e.window, dest, d) == BookedTo(s.window, dest, d) + BytesFor(cfg, s, e.turn.reading, dest, d)
    ensures e.written.Some? && e.stop != Finished ==> BookedTo(e.after.window, dest, d) == 0
  {
    assert e.turn.reading.CaptureFailed? ==> BytesFor(cfg, s, e.turn.reading, dest, d) == 0;
    hide RunLoop.Counted, IsTaken, BytesFor;
    CountedIsBooked(cfg, s, e.turn.reading, dest, d);
  }

  /** Over every run, each process and each reason is booked exactly the bytes of the frames that go to it: what
      the written files' windows booked and what the open one has make up what was read without eBPF. */
  lemma {:induction false} EveryFrameIsBookedOnce(cfg: Config, first: State, run: seq<Event>, dest: Destination, d: Direction)
    requires IsRun(cfg, first, run)
    ensures FiledFor(run, dest, d) + BookedTo(Pending(first, run), dest, d)
         == BookedTo(first.window, dest, d) + BytesForAll(cfg, first, run, dest, d)
  {
    if run != [] {
      var n := |run| - 1;
      RunShrinks(cfg, first, run, n);
      EveryFrameIsBookedOnce(cfg, first, run[..n], dest, d);
      hide IsRun, IsTurn, BytesFor;
      TurnBooks(cfg, StateBefore(first, run, n), run[n], dest, d);
      TurnCounts(cfg, StateBefore(first, run, n), run[n], d);
      BooksGrow(cfg, first, run, n, dest, d);
    }
  }

  lemma BooksGrow(cfg: Config, first: State, run: seq<Event>, n: nat, dest: Destination, d: Direction)
    requires |run| == n + 1
    ensures FiledFor(run, dest, d) == FiledFor(run[..n], dest, d) + if run[n].written.Some? then BookedTo(run[n].window, dest, d) else 0
    ensures BytesForAll(cfg, first, run, dest, d)
      == BytesForAll(cfg, first, run[..n], dest, d) + BytesFor(cfg, StateBefore(first, run, n), run[n].turn.reading, dest, d)
  {
  }

  /** A frame counts with its length on the wire, in one direction. */
  lemma FrameCountsItsLength(cfg: Config, data: seq<byte>, length: int)
    ensures BytesRead(cfg, Frame(data, length), Ingress) + BytesRead(cfg, Frame(data, length), Egress)
         == if length > 0 then length else |data|
    ensures BytesRead(cfg, Frame(data, length), Ingress) == 0 || BytesRead(cfg, Frame(data, length), Egress) == 0
  {
    hide Parsed, DirectionOf;
  }

  // ----- The rows of a fallback file -----

  /** The rows of a fallback file: one for each process of the window that still runs, with the rate of its bytes. */
  lemma FallbackRowsAreExact(s: Snapshot, t: Tally, now: nat, ns: nat, iface: string, drops: nat, starts: Starts, row: ProcessRate)
    requires ns > 0 && IsWindowSnapshot(s, t, now, ns, iface, drops, starts)
    ensures row in s.processes
      <==> && row.id in t.processes && row.id.pid in starts && starts[row.id.pid] == row.id.startTicks
           && row == ProcessRate(row.id, RateOf(t.processes[row.id], ns), NO_WORKLOAD)
  {
    var m := WindowRows(t.processes, starts, ns);
    assert Lists(s.processes, m);
    hide IsWindowSnapshot, Lists, Rate;
    Attribution.ListedIff(s.processes, m, row);
    assert row.id in m ==> m[row.id] == ProcessRate(row.id, RateOf(t.processes[row.id], ns), NO_WORKLOAD);
  }

  /** The rates of the processes of a window that no longer run, each rounded by itself. */
  ghost function ExitedRates(t: Tally, starts: Starts, ns: nat, d: Direction): nat
    requires ns > 0
  {
    Sums.Total(map id | id in t.processes && !Attribution.StillRuns(starts, id) :: Rate(t.processes[id].In(d), ns))
  }

  /** The totals of a fallback file: every reason is the rate of what was booked to it, and the processes that no
      longer run count as exited, and as unknown. */
  lemma FallbackTotalsAreExact(s: Snapshot, t: Tally, now: nat, ns: nat, iface: string, drops: nat, starts: Starts, d: Direction)
    requires ns > 0 && IsWindowSnapshot(s, t, now, ns, iface, drops, starts)
    ensures s.captured.In(d) == Rate(t.captured.In(d), ns)
    ensures s.unsupported.In(d) == Rate(BookedTo(t, ToUnknown(UNSUPPORTED), d), ns)
    ensures s.unmatched.In(d) == Rate(BookedTo(t, ToUnknown(UNMATCHED), d), ns)
    ensures s.ambiguous.In(d) == Rate(BookedTo(t, ToUnknown(AMBIGUOUS), d), ns)
    ensures s.exited.In(d) == Rate(BookedTo(t, ToUnknown(EXITED), d), ns) + ExitedRates(t, starts, ns, d)
    ensures s.unknown.In(d) == Rate(t.unattributed.In(d), ns) + ExitedRates(t, starts, ns, d)
  {
    WindowCounts(s, t, now, ns, iface, drops, starts, d);
    ExitedAreSummed(t, starts, ns, d);
    hide *;
    ReasonFields(s);
    BookedToReasons(t, d);
  }

  lemma WindowCounts(s: Snapshot, t: Tally, now: nat, ns: nat, iface: string, drops: nat, starts: Starts, d: Direction)
    requires ns > 0 && IsWindowSnapshot(s, t, now, ns, iface, drops, starts)
    ensures var exited := BytesIn(EachRateOf(ExitedIn(t.processes, starts), ns), d);
            && s.captured.In(d) == Rate(t.captured.In(d), ns) && s.unknown.In(d) == Rate(t.unattributed.In(d), ns) + exited
            && forall r: UnknownReason ::
                 s.Reason(r).In(d) == Rate(TrafficAt(t.unknown, r).In(d), ns) + if r == EXITED then exited else 0
  {
    assert s.captured == RateOf(t.captured, ns);
    hide Rate, ExitedIn, EachRateOf, BytesIn, Lists, SameHeader;
    RateOfNothing(ns);
    var exited := BytesIn(EachRateOf(ExitedIn(t.processes, starts), ns), d);
    forall r: UnknownReason
      ensures s.Reason(r).In(d) == Rate(TrafficAt(t.unknown, r).In(d), ns) + if r == EXITED then exited else 0
    {
    }
  }

  lemma ExitedAreSummed(t: Tally, starts: Starts, ns: nat, d: Direction)
    requires ns > 0
    ensures BytesIn(EachRateOf(ExitedIn(t.processes, starts), ns), d) == ExitedRates(t, starts, ns, d)
  {
    hide Rate, Sums.Total;
    assert Column(EachRateOf(ExitedIn(t.processes, starts), ns), d)
      == map id | id in t.processes && !Attribution.StillRuns(starts, id) :: Rate(t.processes[id].In(d), ns);
  }

  lemma ReasonFields(s: Snapshot)
    ensures s.Reason(UNSUPPORTED) == s.unsupported && s.Reason(UNMATCHED) == s.unmatched
    ensures s.Reason(AMBIGUOUS) == s.ambiguous && s.Reason(EXITED) == s.exited
  {
  }

  lemma BookedToReasons(t: Tally, d: Direction)
    ensures forall r: UnknownReason :: BookedTo(t, ToUnknown(r), d) == TrafficAt(t.unknown, r).In(d)
  {
  }
}
