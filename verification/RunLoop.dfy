/** The collector's main loop (internal/netmon/run_linux.go, lines 75-173). Each turn reads one packet and, once
    the window's time is up, publishes a snapshot. What the outside world answers is the loop's input. */
module RunLoop {
  import opened NetTypes
  import opened Rates
  import opened Packets
  import opened Sockets
  import opened FlowCounters
  import opened Cgroups
  import opened SnapshotTypes
  import opened Windows
  import opened Accounting

  datatype Config = Config(iface: string, mac: seq<byte>, localIPs: set<Addr>, interval: nat, once: bool)

  datatype Reading = Frame(data: seq<byte>, length: int) | Timeout | CaptureFailed

  /** The answers to everything the loop asks when a window ends: the socket's drop counter, the walks of the
      eBPF map, the loaded resolvers, the start times, and whether the file could be written. */
  datatype Poll = Poll(
    drops: Option<nat>,
    walks: seq<Walk>,
    readError: string,
    system: Option<SystemResolver>,
    systemError: Option<string>,
    starts: Starts,
    written: bool,
    resolver: Resolver)
  {
    ghost predicate Valid() {
      |walks| == MAX_ATTEMPTS + 1 && (system.Some? ==> system.value.Valid()) && resolver.Valid()
    }
  }

  /** `now` is in nanoseconds. */
  datatype Turn = Turn(reading: Reading, now: nat, poll: Poll)

  /** The loop's variables. `baselines` are those of the eBPF collector, as long as there is one. */
  datatype State = State(
    window: Tally,
    baselines: Option<Baselines>,
    fallbackReason: string,
    previousDrops: nat,
    started: nat,
    deadline: nat,
    resolver: Resolver)

  datatype Stop = Running | Finished | CaptureError | WriteError

  const UNAVAILABLE := "eBPF 不可用，已回退 AF_PACKET: "
  const SWITCHED := "eBPF 采集异常，已回退 AF_PACKET: "
  const PARTIAL_WALK := "eBPF 流量表在并发更新时本轮遍历未完成，已保留部分归属"
  const PARTIAL_NAMESPACES := "部分 network namespace 无法读取: "

  // ----- Specification: one turn -----

  /** A packet whose length on the wire is unknown counts with what was captured of it. */
  function LengthOf(frame: Reading): int
    requires frame.Frame?
  {
    if frame.length <= 0 then |frame.data| else frame.length
  }

  /** The window after a reading: while eBPF attributes the bytes, packets are only observed. */
  ghost function Counted(cfg: Config, s: State, reading: Reading): Tally {
    match reading
    case Frame(data, _) =>
      var p := Parsed(data);
      var d := DirectionOf(p, cfg.mac, cfg.localIPs);
      var seen := Windows.Observed(s.window, d, Size(LengthOf(reading)));
      if s.baselines.Some? then seen else Booked(seen, DestinationOf(p, d, Some(s.resolver)), d, Size(LengthOf(reading)))
    case _ => s.window
  }

  /** A counter that went down, or could not be read, shows no drops. */
  function Dropped(previous: nat, total: Option<nat>): nat {
    if total.Some? && total.value >= previous then total.value - previous else 0
  }

  function DropsSeen(previous: nat, total: Option<nat>): nat {
    if total.Some? then total.value else previous
  }

  function Deltas(s: State, poll: Poll): Outcome
    requires s.baselines.Some? && |poll.walks| > 0
  {
    Decide(s.baselines.value, poll.walks[Deciding(poll.walks)])
  }

  /** eBPF goes on as long as the map could be walked, if only in part, and processes could be listed. */
  predicate Usable(s: State, poll: Poll)
    requires |poll.walks| > 0
  {
    s.baselines.Some? && poll.system.Some? && Deltas(s, poll).error != HardError
  }

  function ErrorText(error: ReadError, poll: Poll): string {
    if error != NoError then poll.readError
    else if poll.systemError.Some? then poll.systemError.value
    else "<nil>"
  }

  function FallbackReason(s: State, poll: Poll): string
    requires |poll.walks| > 0
  {
    if s.baselines.Some? && !Usable(s, poll) then SWITCHED + ErrorText(Deltas(s, poll).error, poll) else s.fallbackReason
  }

  function Labelled(s: Snapshot, error: ReadError, systemError: Option<string>): Snapshot {
    if error == IterationAborted then s.(status := "partial", reason := PARTIAL_WALK)
    else if systemError.Some? then s.(status := "partial", reason := PARTIAL_NAMESPACES + systemError.value)
    else s
  }

  function AsFallback(s: Snapshot, reason: string): Snapshot {
    s.(version := 4, source := "af_packet_fallback", status := "partial", scope := "host_network_namespace", reason := reason)
  }

  /** The times of a snapshot: when it is taken, and how long its window was open. */
  datatype Span = Span(millis: nat, ns: nat)

  function SpanOf(s: State, now: nat): (span: Span)
    ensures span.ns > 0
  {
    Span(now / 1_000_000, Elapsed(now - s.started))
  }

  ghost predicate IsEbpfSnapshot(snapshot: Snapshot, cfg: Config, s: State, window: Tally, turn: Turn)
    requires turn.poll.Valid() && Usable(s, turn.poll)
  {
    var outcome, sys, span := Deltas(s, turn.poll), turn.poll.system.value, SpanOf(s, turn.now);
    exists raw ::
      && IsCgroupSnapshot(raw, Tabulated(NO_TABLES, sys, outcome.flows), sys, window.captured, window.packets, span.millis,
                          span.ns, cfg.iface, Dropped(s.previousDrops, turn.poll.drops), turn.poll.starts)
      && snapshot == Labelled(raw, outcome.error, turn.poll.systemError)
  }

  ghost predicate IsFallbackSnapshot(snapshot: Snapshot, cfg: Config, s: State, window: Tally, turn: Turn)
    requires turn.poll.Valid()
  {
    var span := SpanOf(s, turn.now);
    exists raw ::
      && IsWindowSnapshot(raw, window, span.millis, span.ns, cfg.iface, Dropped(s.previousDrops, turn.poll.drops), turn.poll.starts)
      && snapshot == AsFallback(raw, FallbackReason(s, turn.poll))
  }

  ghost predicate IsTaken(snapshot: Snapshot, cfg: Config, s: State, window: Tally, turn: Turn)
    requires turn.poll.Valid()
  {
    if Usable(s, turn.poll) then IsEbpfSnapshot(snapshot, cfg, s, window, turn)
    else IsFallbackSnapshot(snapshot, cfg, s, window, turn)
  }

  /** The variables after taking a snapshot and before opening the next window. */
  ghost function AfterPoll(s: State, window: Tally, poll: Poll): State
    requires poll.Valid()
  {
    s.(window := window,
       baselines := if Usable(s, poll) then Some(Deltas(s, poll).previous) else None,
       fallbackReason := FallbackReason(s, poll),
       previousDrops := DropsSeen(s.previousDrops, poll.drops))
  }

  /** One turn: the window after the reading, the snapshot written, if any, and how it ended. */
  datatype Event = Event(turn: Turn, window: Tally, written: Option<Snapshot>, stop: Stop, after: State)

  ghost predicate IsTurn(cfg: Config, s: State, e: Event)
    requires e.turn.poll.Valid()
  {
    if e.turn.reading.CaptureFailed? then
      e.window == s.window && e.written.None? && e.stop == CaptureError && e.after == s
    else
      && e.window == Counted(cfg, s, e.turn.reading)
      && if e.turn.now < s.deadline then e.written.None? && e.stop == Running && e.after == s.(window := e.window)
         else
           var after := AfterPoll(s, e.window, e.turn.poll);
           if !e.turn.poll.written then e.written.None? && e.stop == WriteError && e.after == after
           else
             && e.written.Some? && IsTaken(e.written.value, cfg, s, e.window, e.turn)
             && if cfg.once then e.stop == Finished && e.after == after
                else
                  && e.stop == Running
                  && e.after == after.(window := EMPTY_TALLY, started := e.turn.now, deadline := e.turn.now + cfg.interval,
                                       resolver := e.turn.poll.resolver)
  }

  /** Before the first turn; `openError` says why eBPF could not be loaded, if it could not. */
  function Initial(cfg: Config, openError: Option<string>, started: nat, resolver: Resolver): State {
    State(EMPTY_TALLY, if openError.None? then Some(map[]) else None,
          if openError.None? then "" else UNAVAILABLE + openError.value, 0, started, started + cfg.interval, resolver)
  }

  function StateBefore(first: State, run: seq<Event>, i: nat): State
    requires i <= |run|
  {
    if i == 0 then first else run[i - 1].after
  }

  ghost predicate IsRun(cfg: Config, first: State, run: seq<Event>) {
    && (forall i :: 0 <= i < |run| ==> run[i].turn.poll.Valid() && IsTurn(cfg, StateBefore(first, run, i), run[i]))
    && forall i :: 0 <= i < |run| - 1 ==> run[i].stop == Running
  }

  /** The files written, in order. */
  function Written(run: seq<Event>): seq<Snapshot> {
    if run == [] then []
    else Written(run[..|run| - 1]) + if run[|run| - 1].written.Some? then [run[|run| - 1].written.value] else []
  }

  /** What a run over the inputs `turns` shows to the outside: the files and how it ended. */
  ghost predicate Shows(cfg: Config, first: State, turns: seq<Turn>, run: seq<Event>, written: seq<Snapshot>, stop: Stop) {
    && IsRun(cfg, first, run)
    && |run| <= |turns| && (forall i :: 0 <= i < |run| ==> run[i].turn == turns[i])
    && stop == (if run == [] then Running else run[|run| - 1].stop)
    && (stop == Running ==> |run| == |turns|)
    && written == Written(run)
  }

  // ----- The code -----

  class Collector {
    const cfg: Config
    var window: Window
    var bpfCollector: EBPFCollector?
    var fallbackReason: string
    var previousDrops: nat
    var started: nat
    var deadline: nat
    var resolver: Resolver

    function Contents(): State
      reads this, window, bpfCollector
    {
      State(window.Contents(), if bpfCollector == null then None else Some(bpfCollector.previous), fallbackReason,
            previousDrops, started, deadline, resolver)
    }

    constructor (cfg: Config, openError: Option<string>, started: nat, resolver: Resolver)
      ensures this.cfg == cfg && this.resolver == resolver && Contents() == Initial(cfg, openError, started, resolver)
      ensures fresh(window) && (bpfCollector != null ==> fresh(bpfCollector))
    {
      this.cfg := cfg;
      previousDrops := 0;
      this.started := started;
      deadline := started + cfg.interval;
      this.resolver := resolver;
      window := new Window();
      if openError.None? {
        bpfCollector := new EBPFCollector();
        fallbackReason := "";
      } else {
        bpfCollector := null;
        fallbackReason := UNAVAILABLE + openError.value;
      }
    }

    method Read(reading: Reading)
      requires reading.Frame? && resolver.Valid()
      modifies window
      ensures Contents() == old(Contents()).(window := Counted(cfg, old(Contents()), reading))
    {
      hide Parsed, DirectionOf, DestinationOf, Booked, Windows.Observed;
      var length := reading.length;
      if length <= 0 {
        length := |reading.data|;
      }
      var packet := ParsePacket(reading.data);
      if bpfCollector != null {
        window.Observe(packet, length, cfg.mac, cfg.localIPs);
      } else {
        window.Account(packet, length, cfg.mac, cfg.localIPs, Some(resolver));
      }
    }

    method CountDrops(total: Option<nat>) returns (drops: nat)
      modifies this`previousDrops
      ensures drops == Dropped(old(previousDrops), total)
      ensures previousDrops == DropsSeen(old(previousDrops), total)
    {
      drops := 0;
      if total.Some? {
        if total.value >= previousDrops {
          drops := total.value - previousDrops;
        }
        previousDrops := total.value;
      }
    }

    /** The snapshot at the end of a window; without eBPF, or once it fails, the window's own. */
    method Take(turn: Turn) returns (snapshot: Snapshot)
      requires turn.poll.Valid()
      modifies this`bpfCollector, this`fallbackReason, this`previousDrops, bpfCollector
      ensures IsTaken(snapshot, cfg, old(Contents()), old(window.Contents()), turn)
      ensures Contents() == AfterPoll(old(Contents()), old(window.Contents()), turn.poll)
      ensures bpfCollector == old(bpfCollector) || bpfCollector == null
    {
      hide IsCgroupSnapshot, IsWindowSnapshot, Tabulated, Decide, Dropped, DropsSeen, Elapsed, IsEbpfSnapshot, IsFallbackSnapshot;
      ghost var before := Contents();
      var drops := CountDrops(turn.poll.drops);
      var taken := None;
      if bpfCollector != null {
        taken := TakeEbpf(turn, drops, before);
      }
      if taken.Some? {
        snapshot := taken.value;
      } else {
        snapshot := TakeWindow(turn, drops, before);
      }
    }

    method TakeEbpf(turn: Turn, drops: nat, ghost before: State) returns (snapshot: Option<Snapshot>)
      requires turn.poll.Valid() && bpfCollector != null
      requires before == Contents().(previousDrops := before.previousDrops)
      requires drops == Dropped(before.previousDrops, turn.poll.drops)
      modifies this`bpfCollector, this`fallbackReason, bpfCollector
      ensures snapshot.Some? <==> Usable(before, turn.poll)
      ensures snapshot.Some? ==> IsEbpfSnapshot(snapshot.value, cfg, before, before.window, turn)
      ensures snapshot.Some? ==> bpfCollector == old(bpfCollector) && bpfCollector.previous == Deltas(before, turn.poll).previous
      ensures snapshot.None? ==> bpfCollector == null
      ensures fallbackReason == FallbackReason(before, turn.poll)
    {
      hide IsCgroupSnapshot, Tabulated, Decide, Dropped, Elapsed;
      var poll := turn.poll;
      var flows, error := bpfCollector.ReadDeltas(poll.walks);
      assert Outcome(bpfCollector.previous, flows, error) == Deltas(before, poll);
      if poll.system.Some? && error != HardError {
        var raw := SnapshotCgroupFlows(turn.now / 1_000_000, turn.now - started, cfg.iface, drops, window, poll.system.value,
                                       flows, poll.starts);
        var s := raw;
        if error == IterationAborted {
          s := s.(status := "partial", reason := PARTIAL_WALK);
        } else if poll.systemError.Some? {
          s := s.(status := "partial", reason := PARTIAL_NAMESPACES + poll.systemError.value);
        }
        assert s == Labelled(raw, error, poll.systemError);
        return Some(s);
      }
      bpfCollector := null;
      fallbackReason := SWITCHED + ErrorText(error, poll);
      return None;
    }

    method TakeWindow(turn: Turn, drops: nat, ghost before: State) returns (snapshot: Snapshot)
      requires turn.poll.Valid() && bpfCollector == null && fallbackReason == FallbackReason(before, turn.poll)
      requires before.window == window.Contents() && before.started == started
      requires drops == Dropped(before.previousDrops, turn.poll.drops)
      ensures IsFallbackSnapshot(snapshot, cfg, before, before.window, turn)
    {
      hide IsWindowSnapshot, Dropped, Elapsed, FallbackReason;
      var raw := window.Snapshot(turn.now / 1_000_000, turn.now - started, cfg.iface, drops, turn.poll.starts);
      WindowSnapshotsAreOld(raw, before.window, turn.now / 1_000_000, Elapsed(turn.now - started), cfg.iface, drops, turn.poll.starts);
      snapshot := raw;
      if snapshot.version < 4 {
        snapshot := snapshot.(version := 4, source := "af_packet_fallback", status := "partial",
                              scope := "host_network_namespace", reason := fallbackReason);
      }
      assert snapshot == AsFallback(raw, FallbackReason(before, turn.poll));
    }

    method TakeTurn(turn: Turn) returns (written: Option<Snapshot>, stop: Stop, ghost seen: Tally)
      requires turn.poll.Valid() && resolver.Valid()
      modifies this, window, bpfCollector
      ensures IsTurn(cfg, old(Contents()), Event(turn, seen, written, stop, Contents()))
      ensures resolver.Valid()
      ensures window == old(window) || fresh(window)
      ensures bpfCollector == old(bpfCollector) || bpfCollector == null
    {
      hide Counted, IsTaken, Deltas, Usable, FallbackReason, DropsSeen;
      if turn.reading.Frame? {
        Read(turn.reading);
      } else if turn.reading.CaptureFailed? {
        return None, CaptureError, window.Contents();
      }
      seen := window.Contents();
      assert seen == Counted(cfg, old(Contents()), turn.reading) by {
        if turn.reading.Timeout? {
          NothingCounted(cfg, old(Contents()));
        }
      }
      if turn.now < deadline {
        return None, Running, seen;
      }
      ghost var counted := Contents();
      var snapshot := Take(turn);
      TakenBefore(snapshot, cfg, old(Contents()), seen, turn);
      if !turn.poll.written {
        return None, WriteError, seen;
      }
      written := Some(snapshot);
      if cfg.once {
        return written, Finished, seen;
      }
      resolver := turn.poll.resolver;
      window := new Window();
      started := turn.now;
      deadline := turn.now + cfg.interval;
      stop := Running;
    }
  }

  lemma WindowSnapshotsAreOld(raw: Snapshot, t: Tally, now: nat, ns: nat, iface: string, drops: nat, starts: Starts)
    requires ns > 0 && IsWindowSnapshot(raw, t, now, ns, iface, drops, starts)
    ensures raw.version == 2
  {
  }

  lemma NothingCounted(cfg: Config, s: State)
    ensures Counted(cfg, s, Timeout) == s.window
  {
  }

  /** Taking a snapshot does not look at the window through the state. */
  lemma TakenBefore(snapshot: Snapshot, cfg: Config, s: State, window: Tally, turn: Turn)
    requires turn.poll.Valid() && IsTaken(snapshot, cfg, s.(window := window), window, turn)
    ensures IsTaken(snapshot, cfg, s, window, turn)
    ensures AfterPoll(s.(window := window), window, turn.poll) == AfterPoll(s, window, turn.poll)
  {
    hide IsCgroupSnapshot, IsWindowSnapshot, Tabulated, Decide, Elapsed, Dropped;
    var s' := s.(window := window);
    assert s'.baselines.Some? ==> Deltas(s', turn.poll) == Deltas(s, turn.poll);
    assert FallbackReason(s', turn.poll) == FallbackReason(s, turn.poll) && SpanOf(s', turn.now) == SpanOf(s, turn.now);
    if Usable(s, turn.poll) {
      assert IsEbpfSnapshot(snapshot, cfg, s', window, turn) ==> IsEbpfSnapshot(snapshot, cfg, s, window, turn);
    } else {
      assert IsFallbackSnapshot(snapshot, cfg, s', window, turn) ==> IsFallbackSnapshot(snapshot, cfg, s, window, turn);
    }
  }

  /** The loop itself, until it stops or is told to: one turn per input. */
  method Run(cfg: Config, openError: Option<string>, started: nat, resolver: Resolver, turns: seq<Turn>)
    returns (written: seq<Snapshot>, stop: Stop)
    requires resolver.Valid() && forall i :: 0 <= i < |turns| ==> turns[i].poll.Valid()
    ensures exists run :: Shows(cfg, Initial(cfg, openError, started, resolver), turns, run, written, stop)
  {
    hide IsTurn, IsRun, Initial, Written;
    RunOfNothing(cfg, Initial(cfg, openError, started, resolver));
    ghost var first := Initial(cfg, openError, started, resolver);
    var collector := new Collector(cfg, openError, started, resolver);
    ghost var run: seq<Event> := [];
    written, stop := [], Running;
    var i := 0;
    while i < |turns| && stop == Running
      invariant 0 <= i <= |turns| && |run| == i
      invariant collector.cfg == cfg && collector.resolver.Valid()
      invariant fresh(collector) && fresh(collector.window) && (collector.bpfCollector != null ==> fresh(collector.bpfCollector))
      invariant collector.Contents() == StateBefore(first, run, i)
      invariant IsRun(cfg, first, run) && forall j :: 0 <= j < i ==> run[j].turn == turns[j]
      invariant stop == if run == [] then Running else run[|run| - 1].stop
      invariant written == Written(run)
    {
      var snapshot;
      ghost var seen;
      snapshot, stop, seen := collector.TakeTurn(turns[i]);
      ghost var event := Event(turns[i], seen, snapshot, stop, collector.Contents());
      RunGrows(cfg, first, run, event);
      WrittenOneMore(run, event);
      if snapshot.Some? {
        written := written + [snapshot.value];
      }
      run := run + [event];
      i := i + 1;
    }
    assert Shows(cfg, first, turns, run, written, stop);
  }

  lemma RunOfNothing(cfg: Config, first: State)
    ensures IsRun(cfg, first, []) && Written([]) == []
  {
  }

  lemma WrittenOneMore(run: seq<Event>, e: Event)
    ensures Written(run + [e]) == Written(run) + if e.written.Some? then [e.written.value] else []
  {
    assert (run + [e])[..|run|] == run;
  }

  lemma RunGrows(cfg: Config, first: State, run: seq<Event>, e: Event)
    requires IsRun(cfg, first, run) && (run != [] ==> run[|run| - 1].stop == Running)
    requires e.turn.poll.Valid() && IsTurn(cfg, StateBefore(first, run, |run|), e)
    ensures IsRun(cfg, first, run + [e])
  {
    hide IsTurn;
    forall i | 0 <= i < |run + [e]|
      ensures (run + [e])[i].turn.poll.Valid() && IsTurn(cfg, StateBefore(first, run + [e], i), (run + [e])[i])
    {
      assert StateBefore(first, run + [e], i) == StateBefore(first, run, i);
    }
  }
}
