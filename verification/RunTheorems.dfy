/** What holds over every run of the main loop, whatever is captured and whatever fails
    (internal/netmon/run_linux.go, lines 75-173). */
module RunTheorems {
  import opened NetTypes
  import opened Sums
  import opened Rates
  import opened Packets
  import opened Sockets
  import opened FlowCounters
  import opened Cgroups
  import opened SnapshotTypes
  import opened TrafficMaps
  import opened Windows
  import opened Accounting
  import opened AccountingTheorems
  import opened RunLoop
  import SnapshotReader

  function LastState(first: State, run: seq<Event>): State {
    StateBefore(first, run, |run|)
  }

  /** The window that no file accounts for yet. */
  function Pending(first: State, run: seq<Event>): Tally {
    if run != [] && run[|run| - 1].stop == Finished then EMPTY_TALLY else LastState(first, run).window
  }

  lemma RunShrinks(cfg: Config, first: State, run: seq<Event>, n: nat)
    requires IsRun(cfg, first, run) && |run| == n + 1
    ensures IsRun(cfg, first, run[..n]) && LastState(first, run[..n]) == StateBefore(first, run, n)
    ensures run[n].turn.poll.Valid() && IsTurn(cfg, StateBefore(first, run, n), run[n])
    ensures Pending(first, run[..n]) == StateBefore(first, run, n).window
  {
    hide IsTurn;
    forall i | 0 <= i <= n ensures StateBefore(first, run[..n], i) == StateBefore(first, run, i) {
    }
    assert forall i :: 0 <= i < n ==> run[..n][i] == run[i];
  }

  // ----- Every packet in exactly one window -----

  function PacketsOf(s: Snapshot): nat {
    s.packets
  }

  function Frames(run: seq<Event>): nat {
    if run == [] then 0 else Frames(run[..|run| - 1]) + if run[|run| - 1].turn.reading.Frame? then 1 else 0
  }

  /** The bytes of a reading that go in one direction. */
  function BytesRead(cfg: Config, reading: Reading, d: Direction): nat {
    if reading.Frame? && DirectionOf(Parsed(reading.data), cfg.mac, cfg.localIPs) == d then Size(LengthOf(reading)) else 0
  }

  function FrameBytes(cfg: Config, run: seq<Event>, d: Direction): nat {
    if run == [] then 0 else FrameBytes(cfg, run[..|run| - 1], d) + BytesRead(cfg, run[|run| - 1].turn.reading, d)
  }

  /** What the written files' windows captured. */
  function FiledBytes(run: seq<Event>, d: Direction): nat {
    if run == [] then 0
    else FiledBytes(run[..|run| - 1], d) + if run[|run| - 1].written.Some? then run[|run| - 1].window.captured.In(d) else 0
  }

  lemma ReadingIsCounted(cfg: Config, s: State, reading: Reading, d: Direction)
    ensures Counted(cfg, s, reading).packets == s.window.packets + if reading.Frame? then 1 else 0
    ensures Counted(cfg, s, reading).captured.In(d) == s.window.captured.In(d) + BytesRead(cfg, reading, d)
  {
    hide Parsed, DestinationOf, DirectionOf;
  }

  lemma TakenCountsPackets(s: Snapshot, cfg: Config, before: State, window: Tally, turn: Turn)
    requires turn.poll.Valid() && IsTaken(s, cfg, before, window, turn)
    ensures s.packets == window.packets && s.drops == Dropped(before.previousDrops, turn.poll.drops)
    ensures s.iface == cfg.iface
  {
    hide Tabulated, Decide, Counts, Lists, Dropped, Elapsed, SortedListing;
  }

  lemma TurnCounts(cfg: Config, s: State, e: Event, d: Direction)
    requires e.turn.poll.Valid() && IsTurn(cfg, s, e)
    ensures e.window.packets == s.window.packets + if e.turn.reading.Frame? then 1 else 0
    ensures e.window.captured.In(d) == s.window.captured.In(d) + BytesRead(cfg, e.turn.reading, d)
    ensures e.written.Some? ==> e.written.value.packets == e.window.packets
    ensures e.written.Some? && e.stop != Finished ==> e.after.window == EMPTY_TALLY
    ensures e.written.None? ==> e.after.window == e.window && e.stop != Finished
  {
    hide Counted, IsTaken, BytesRead;
    NoBytesRead(cfg, CaptureFailed, d);
    ReadingIsCounted(cfg, s, e.turn.reading, d);
    if e.written.Some? {
      TakenCountsPackets(e.written.value, cfg, s, e.window, e.turn);
    }
  }

  lemma NoBytesRead(cfg: Config, reading: Reading, d: Direction)
    ensures !reading.Frame? ==> BytesRead(cfg, reading, d) == 0
  {
  }

  /** Every packet read is counted in exactly one window, and every byte in its direction: what the files
      account for and what is still open make up what was read. */
  lemma {:induction false} EveryPacketInOneWindow(cfg: Config, first: State, run: seq<Event>, d: Direction)
    requires IsRun(cfg, first, run)
    ensures Sum(Written(run), PacketsOf) + Pending(first, run).packets == first.window.packets + Frames(run)
    ensures FiledBytes(run, d) + Pending(first, run).captured.In(d) == first.window.captured.In(d) + FrameBytes(cfg, run, d)
  {
    if run != [] {
      var n := |run| - 1;
      RunShrinks(cfg, first, run, n);
      EveryPacketInOneWindow(cfg, first, run[..n], d);
      hide IsRun, IsTurn, BytesRead, Frames, FrameBytes;
      TurnCounts(cfg, StateBefore(first, run, n), run[n], d);
      WrittenGrows(run, n);
      ReadGrows(cfg, run, n, d);
    }
  }

  lemma WrittenGrows(run: seq<Event>, n: nat)
    requires |run| == n + 1
    ensures Sum(Written(run), PacketsOf) == Sum(Written(run[..n]), PacketsOf)
      + if run[n].written.Some? then run[n].written.value.packets else 0
    ensures Sum(Written(run), DropsOf) == Sum(Written(run[..n]), DropsOf)
      + if run[n].written.Some? then run[n].written.value.drops else 0
  {
    if run[n].written.Some? {
      SumSnoc(Written(run[..n]), run[n].written.value, PacketsOf);
      SumSnoc(Written(run[..n]), run[n].written.value, DropsOf);
    } else {
      assert Written(run) == Written(run[..n]);
    }
  }

  lemma ReadGrows(cfg: Config, run: seq<Event>, n: nat, d: Direction)
    requires |run| == n + 1
    ensures Frames(run) == Frames(run[..n]) + if run[n].turn.reading.Frame? then 1 else 0
    ensures FrameBytes(cfg, run, d) == FrameBytes(cfg, run[..n], d) + BytesRead(cfg, run[n].turn.reading, d)
  {
  }

  // ----- Drops -----

  function DropsOf(s: Snapshot): nat {
    s.drops
  }

  /** The last total that could be read from the drop counter. */
  function LastTotal(first: State, run: seq<Event>): nat {
    if run == [] then first.previousDrops
    else
      var n := |run| - 1;
      if IsPolled(StateBefore(first, run, n), run[n]) then DropsSeen(LastTotal(first, run[..n]), run[n].turn.poll.drops)
      else LastTotal(first, run[..n])
  }

  /** By how much the counter fell below the last total read, summed over all readings. */
  function Setbacks(first: State, run: seq<Event>): nat {
    if run == [] then 0
    else
      var n := |run| - 1;
      Setbacks(first, run[..n]) + SetbackAt(first, run, n)
  }

  function SetbackAt(first: State, run: seq<Event>, i: nat): nat
    requires i < |run|
  {
    Setback(StateBefore(first, run, i), run[i])
  }

  function Setback(s: State, e: Event): nat {
    if IsPolled(s, e) && e.turn.poll.drops.Some? && e.turn.poll.drops.value < s.previousDrops
    then s.previousDrops - e.turn.poll.drops.value else 0
  }

  /** The turn asked for the counters. */
  predicate IsPolled(s: State, e: Event) {
    !e.turn.reading.CaptureFailed? && e.turn.now >= s.deadline
  }

  lemma TurnDrops(cfg: Config, s: State, e: Event)
    requires e.turn.poll.Valid() && IsTurn(cfg, s, e) && e.stop != WriteError
    ensures (if e.written.Some? then e.written.value.drops else 0) + s.previousDrops == e.after.previousDrops + Setback(s, e)
    ensures e.after.previousDrops == if IsPolled(s, e) then DropsSeen(s.previousDrops, e.turn.poll.drops) else s.previousDrops
  {
    hide Counted, IsTaken;
    if e.written.Some? {
      TakenCountsPackets(e.written.value, cfg, s, e.window, e.turn);
    }
  }

  /** The drops of the files add up to the last total read, plus what the counter fell back by in between;
      polls that could not read it leave no gap. */
  lemma {:induction false} DropsTelescope(cfg: Config, first: State, run: seq<Event>)
    requires IsRun(cfg, first, run) && (run != [] ==> run[|run| - 1].stop != WriteError)
    ensures Sum(Written(run), DropsOf) + first.previousDrops == LastTotal(first, run) + Setbacks(first, run)
    ensures LastState(first, run).previousDrops == LastTotal(first, run)
  {
    if run != [] {
      var n := |run| - 1;
      RunShrinks(cfg, first, run, n);
      assert n > 0 ==> run[..n][n - 1].stop == Running;
      DropsTelescope(cfg, first, run[..n]);
      LastTotalGrows(first, run, n);
      hide IsRun, IsTurn, Setback, LastTotal, IsPolled;
      TurnDrops(cfg, StateBefore(first, run, n), run[n]);
      WrittenGrows(run, n);
      SetbacksGrow(first, run, n);
    }
  }

  lemma LastTotalGrows(first: State, run: seq<Event>, n: nat)
    requires |run| == n + 1
    ensures LastTotal(first, run) == if IsPolled(StateBefore(first, run, n), run[n])
      then DropsSeen(LastTotal(first, run[..n]), run[n].turn.poll.drops) else LastTotal(first, run[..n])
  {
  }

  lemma SetbacksGrow(first: State, run: seq<Event>, n: nat)
    requires |run| == n + 1
    ensures Setbacks(first, run) == Setbacks(first, run[..n]) + Setback(StateBefore(first, run, n), run[n])
  {
  }

  /** From the start: the total is reported exactly iff the counter never fell below a total read before. */
  lemma DropsExactIff(cfg: Config, openError: Option<string>, started: nat, resolver: Resolver, run: seq<Event>)
    requires IsRun(cfg, Initial(cfg, openError, started, resolver), run) && (run != [] ==> run[|run| - 1].stop != WriteError)
    ensures var first := Initial(cfg, openError, started, resolver);
            Sum(Written(run), DropsOf) == LastTotal(first, run)
            <==> forall i :: 0 <= i < |run| ==> SetbackAt(first, run, i) == 0
  {
    var first := Initial(cfg, openError, started, resolver);
    hide IsRun, SetbackAt;
    DropsTelescope(cfg, first, run);
    NoSetbacksIff(first, run);
  }

  lemma SetbackInPrefix(first: State, run: seq<Event>, n: nat, i: nat)
    requires i < n < |run|
    ensures SetbackAt(first, run[..n], i) == SetbackAt(first, run, i)
  {
  }

  lemma {:induction false} NoSetbacksIff(first: State, run: seq<Event>)
    ensures Setbacks(first, run) == 0 <==> forall i :: 0 <= i < |run| ==> SetbackAt(first, run, i) == 0
  {
    hide SetbackAt;
    if run != [] {
      var n := |run| - 1;
      NoSetbacksIff(first, run[..n]);
      forall i | 0 <= i < n ensures SetbackAt(first, run[..n], i) == SetbackAt(first, run, i) {
        SetbackInPrefix(first, run, n, i);
      }
    }
  }

  // ----- What a file says about itself -----

  /** A loop without eBPF knows why. */
  predicate Explained(s: State) {
    s.baselines.None? ==> s.fallbackReason != ""
  }

  /** A file names its source truthfully: "ok" only for complete eBPF data, anything else with a reason. */
  predicate Honest(s: Snapshot) {
    && s.version == 4
    && (s.source == "ebpf_cgroup" || s.source == "af_packet_fallback")
    && (s.status == "ok" || (s.status == "partial" && s.reason != ""))
    && (s.status == "ok" ==> s.source == "ebpf_cgroup" && s.scope == "host_and_containers" && s.reason == "")
    && (s.source == "af_packet_fallback" ==> s.scope == "host_network_namespace")
  }

  /** The walk that decided the poll saw the whole map. */
  predicate IsComplete(poll: Poll)
    requires |poll.walks| > 0
  {
    poll.walks[Deciding(poll.walks)].end == Completed
  }

  lemma EbpfIsHonest(s: Snapshot, cfg: Config, before: State, window: Tally, turn: Turn)
    requires turn.poll.Valid() && Usable(before, turn.poll) && IsEbpfSnapshot(s, cfg, before, window, turn)
    ensures Honest(s) && s.source == "ebpf_cgroup"
    ensures s.status == "ok" <==> Deltas(before, turn.poll).error != IterationAborted && turn.poll.systemError.None?
  {
    hide Tabulated, Counts, Lists, Dropped, SortedListing, Deltas, SpanOf;
  }

  lemma FallbackIsHonest(s: Snapshot, cfg: Config, before: State, window: Tally, turn: Turn)
    requires turn.poll.Valid() && IsFallbackSnapshot(s, cfg, before, window, turn) && FallbackReason(before, turn.poll) != ""
    ensures Honest(s) && s.source == "af_packet_fallback" && s.status == "partial"
  {
    hide IsWindowSnapshot, FallbackReason, SpanOf, Dropped;
  }

  lemma DeltasAreComplete(s: State, poll: Poll)
    requires poll.Valid() && s.baselines.Some?
    ensures Deltas(s, poll).error == NoError <==> IsComplete(poll)
  {
    hide Flows, FlowCounters.Observed, Deciding;
  }

  lemma FallbackHasReason(s: State, poll: Poll)
    requires poll.Valid() && Explained(s) && !Usable(s, poll)
    ensures FallbackReason(s, poll) != ""
  {
    hide Deltas, ErrorText;
    assert SWITCHED != "";
  }

  lemma TakenIsHonest(s: Snapshot, cfg: Config, before: State, window: Tally, turn: Turn)
    requires turn.poll.Valid() && IsTaken(s, cfg, before, window, turn) && Explained(before)
    ensures Honest(s)
    ensures s.source == "ebpf_cgroup" <==> Usable(before, turn.poll)
    ensures s.status == "ok"
      <==> before.baselines.Some? && turn.poll.system.Some? && turn.poll.systemError.None? && IsComplete(turn.poll)
  {
    hide IsEbpfSnapshot, IsFallbackSnapshot, Honest, Deltas, IsComplete, FallbackReason, Explained;
    if before.baselines.Some? {
      DeltasAreComplete(before, turn.poll);
    }
    if Usable(before, turn.poll) {
      EbpfIsHonest(s, cfg, before, window, turn);
    } else {
      FallbackHasReason(before, turn.poll);
      FallbackIsHonest(s, cfg, before, window, turn);
    }
  }

  lemma TurnStaysExplained(cfg: Config, s: State, e: Event)
    requires e.turn.poll.Valid() && IsTurn(cfg, s, e) && Explained(s)
    ensures Explained(e.after)
    ensures s.baselines.None? ==> e.after.baselines.None?
    ensures e.written.Some? ==> Honest(e.written.value)
    ensures e.written.Some? ==>
      (e.written.value.source == "ebpf_cgroup" <==> e.after.baselines.Some?)
  {
    hide Counted, IsTaken, Decide, Honest;
    if e.written.Some? {
      TakenIsHonest(e.written.value, cfg, s, e.window, e.turn);
    }
  }

  /** Over any run: every file is of version 4 and honest about its source and status. */
  lemma {:induction false} EveryFileIsHonest(cfg: Config, first: State, run: seq<Event>)
    requires IsRun(cfg, first, run) && Explained(first)
    ensures forall i :: 0 <= i < |Written(run)| ==> Honest(Written(run)[i])
    ensures Explained(LastState(first, run))
  {
    if run != [] {
      var n := |run| - 1;
      RunShrinks(cfg, first, run, n);
      EveryFileIsHonest(cfg, first, run[..n]);
      TurnStaysExplained(cfg, StateBefore(first, run, n), run[n]);
      hide IsRun, IsTurn, Honest, Explained;
    }
  }

  lemma StartsExplained(cfg: Config, openError: Option<string>, started: nat, resolver: Resolver)
    ensures Explained(Initial(cfg, openError, started, resolver))
  {
  }

  /** A file is "ok" iff it is eBPF's, the deciding walk saw the whole map, and the processes were listed without
      an error being returned. What that error leaves out is the subject of `FileStatus`. */
  lemma OkIff(cfg: Config, s: State, e: Event)
    requires e.turn.poll.Valid() && IsTurn(cfg, s, e) && Explained(s) && e.written.Some?
    ensures e.written.value.status == "ok"
      <==> s.baselines.Some? && e.turn.poll.system.Some? && e.turn.poll.systemError.None? && IsComplete(e.turn.poll)
  {
    hide Counted, IsTaken, Decide;
    TakenIsHonest(e.written.value, cfg, s, e.window, e.turn);
  }

  lemma HonestSource(s: Snapshot)
    requires Honest(s)
    ensures s.source == "ebpf_cgroup" || s.source == "af_packet_fallback"
  {
  }

  lemma LastOfRun(first: State, run: seq<Event>, n: nat)
    requires |run| == n + 1
    ensures Written(run) == Written(run[..n]) + if run[n].written.Some? then [run[n].written.value] else []
    ensures LastState(first, run) == run[n].after
  {
  }

  predicate NoWayBack(files: seq<Snapshot>) {
    forall i, j :: 0 <= i < j < |files| && files[i].source == "af_packet_fallback" ==> files[j].source == "af_packet_fallback"
  }

  predicate AnyFallback(files: seq<Snapshot>) {
    exists i :: 0 <= i < |files| && files[i].source == "af_packet_fallback"
  }

  lemma OneMoreFile(files: seq<Snapshot>, file: Snapshot)
    requires NoWayBack(files) && (AnyFallback(files) ==> file.source == "af_packet_fallback")
    ensures NoWayBack(files + [file])
    ensures AnyFallback(files + [file]) <==> AnyFallback(files) || file.source == "af_packet_fallback"
  {
    var more := files + [file];
    assert more[|files|] == file && forall i :: 0 <= i < |files| ==> more[i] == files[i];
  }

  lemma {:induction false} FallbackStays(cfg: Config, first: State, run: seq<Event>)
    requires IsRun(cfg, first, run) && Explained(first)
    ensures NoWayBack(Written(run)) && (AnyFallback(Written(run)) ==> LastState(first, run).baselines.None?)
  {
    if run != [] {
      var n := |run| - 1;
      hide *;
      RunShrinks(cfg, first, run, n);
      FallbackStays(cfg, first, run[..n]);
      EveryFileIsHonest(cfg, first, run[..n]);
      TurnStaysExplained(cfg, StateBefore(first, run, n), run[n]);
      LastOfRun(first, run, n);
      if run[n].written.Some? {
        HonestSource(run[n].written.value);
        OneMoreFile(Written(run[..n]), run[n].written.value);
      } else {
        assert Written(run) == Written(run[..n]);
      }
    }
  }

  /** eBPF never comes back: after a file of the fallback there are only files of the fallback. */
  lemma SwitchIsForGood(cfg: Config, first: State, run: seq<Event>)
    requires IsRun(cfg, first, run) && Explained(first)
    ensures forall i, j :: 0 <= i < j < |Written(run)| && Written(run)[i].source == "af_packet_fallback" ==>
      Written(run)[j].source == "af_packet_fallback"
    ensures (exists i :: 0 <= i < |Written(run)| && Written(run)[i].source == "af_packet_fallback")
      ==> LastState(first, run).baselines.None?
  {
    hide IsRun, Explained, LastState, Written;
    FallbackStays(cfg, first, run);
  }

  // ----- What a file adds up to -----

  /** Per direction, the rates of the rows and of the unknown part stay within the captured rate, and the
      reasons within the unknown part, which exceeds them by at most four. */
  ghost predicate AddsUp(s: Snapshot) {
    forall d: Direction ::
      && Sum(s.processes, ProcessRateIn(d)) + Sum(s.entities, EntityRateIn(d)) + s.unknown.In(d) <= s.captured.In(d)
      && SumOfReasons(s, d) <= s.unknown.In(d) <= SumOfReasons(s, d) + 4
  }

  lemma CgroupAddsUp(s: Snapshot, t: Accounting.Tables, sys: SystemResolver, captured: Traffic, packets: nat, now: nat, ns: nat,
                     iface: string, drops: nat, starts: Starts, d: Direction)
    requires ns > 0 && IsCgroupSnapshot(s, t, sys, captured, packets, now, ns, iface, drops, starts)
    ensures Sum(s.processes, ProcessRateIn(d)) + Sum(s.entities, EntityRateIn(d)) + s.unknown.In(d) <= s.captured.In(d)
    ensures SumOfReasons(s, d) <= s.unknown.In(d) <= SumOfReasons(s, d) + 4
  {
    assert Counts(s, BreakdownOf(t, starts, d), captured.In(d), ns, d);
    hide *;
    RatesStayWithinCaptured(s, t, sys, captured, packets, now, ns, iface, drops, starts, d);
    ReasonsStayWithinUnknown(s, BreakdownOf(t, starts, d), captured.In(d), ns, d);
  }

  lemma LabelChangesNoNumber(s: Snapshot, error: ReadError, systemError: Option<string>)
    requires AddsUp(s)
    ensures AddsUp(Labelled(s, error, systemError))
  {
  }

  lemma CgroupAddsUpBothWays(s: Snapshot, t: Accounting.Tables, sys: SystemResolver, captured: Traffic, packets: nat, now: nat,
                             ns: nat, iface: string, drops: nat, starts: Starts)
    requires ns > 0 && IsCgroupSnapshot(s, t, sys, captured, packets, now, ns, iface, drops, starts)
    ensures AddsUp(s)
  {
    hide IsCgroupSnapshot, Sum, SumOfReasons;
    forall d: Direction
      ensures Sum(s.processes, ProcessRateIn(d)) + Sum(s.entities, EntityRateIn(d)) + s.unknown.In(d) <= s.captured.In(d)
      ensures SumOfReasons(s, d) <= s.unknown.In(d) <= SumOfReasons(s, d) + 4
    {
      CgroupAddsUp(s, t, sys, captured, packets, now, ns, iface, drops, starts, d);
    }
  }

  lemma EbpfAddsUp(s: Snapshot, cfg: Config, before: State, window: Tally, turn: Turn)
    requires turn.poll.Valid() && Usable(before, turn.poll) && IsEbpfSnapshot(s, cfg, before, window, turn)
    ensures AddsUp(s)
  {
    hide AddsUp, Tabulated, IsCgroupSnapshot, Decide, Labelled, Dropped;
    var outcome, sys, span := Deltas(before, turn.poll), turn.poll.system.value, SpanOf(before, turn.now);
    var t := Tabulated(NO_TABLES, sys, outcome.flows);
    var drops := Dropped(before.previousDrops, turn.poll.drops);
    var raw :|
      && IsCgroupSnapshot(raw, t, sys, window.captured, window.packets, span.millis, span.ns, cfg.iface, drops, turn.poll.starts)
      && s == Labelled(raw, outcome.error, turn.poll.systemError);
    CgroupAddsUpBothWays(raw, t, sys, window.captured, window.packets, span.millis, span.ns, cfg.iface, drops, turn.poll.starts);
    LabelChangesNoNumber(raw, outcome.error, turn.poll.systemError);
  }

  lemma FallbackAddsUp(s: Snapshot, cfg: Config, before: State, window: Tally, turn: Turn)
    requires turn.poll.Valid() && IsFallbackSnapshot(s, cfg, before, window, turn) && Windows.Covered(window)
    ensures AddsUp(s)
  {
    var span, drops := SpanOf(before, turn.now), Dropped(before.previousDrops, turn.poll.drops);
    var raw :|
      && IsWindowSnapshot(raw, window, span.millis, span.ns, cfg.iface, drops, turn.poll.starts)
      && s == AsFallback(raw, FallbackReason(before, turn.poll));
    assert raw.entities == [];
    hide IsWindowSnapshot, Windows.Covered, FallbackReason, Dropped, SpanOf;
    forall d: Direction
      ensures Sum(s.processes, ProcessRateIn(d)) + Sum(s.entities, EntityRateIn(d)) + s.unknown.In(d) <= s.captured.In(d)
      ensures SumOfReasons(s, d) <= s.unknown.In(d) <= SumOfReasons(s, d) + 4
    {
      WindowRatesStayWithinCaptured(raw, window, span.millis, span.ns, cfg.iface, drops, turn.poll.starts, d);
    }
  }

  lemma EmptyWindowIsCovered()
    ensures Windows.Covered(EMPTY_TALLY)
  {
  }

  lemma CountingStaysCovered(cfg: Config, s: State, reading: Reading)
    requires Windows.Covered(s.window)
    ensures Windows.Covered(Counted(cfg, s, reading))
  {
    if reading.Frame? {
      var p := Parsed(reading.data);
      var d := DirectionOf(p, cfg.mac, cfg.localIPs);
      var size := Size(LengthOf(reading));
      hide Parsed, DirectionOf, DestinationOf, Windows.Covered, Booked, Windows.Observed;
      if s.baselines.Some? {
        ObservingStaysCovered(s.window, d, size);
      } else {
        AccountKeepsBalance(s.window, DestinationOf(p, d, Some(s.resolver)), d, size);
      }
    }
  }

  lemma ObservingStaysCovered(t: Tally, d: Direction, size: nat)
    requires Windows.Covered(t)
    ensures Windows.Covered(Windows.Observed(t, d, size))
  {
    hide BytesIn, ReasonBytes;
    forall e: Direction ensures BooksOf(Windows.Observed(t, d, size), e).Covered() {
      assert BooksOf(t, e).Covered();
    }
  }

  lemma TurnAddsUp(cfg: Config, s: State, e: Event)
    requires e.turn.poll.Valid() && IsTurn(cfg, s, e) && Windows.Covered(s.window)
    ensures Windows.Covered(e.after.window)
    ensures e.written.Some? ==> AddsUp(e.written.value)
  {
    hide Counted, Windows.Covered, AddsUp, IsEbpfSnapshot, IsFallbackSnapshot, Deltas, FallbackReason;
    CountingStaysCovered(cfg, s, e.turn.reading);
    EmptyWindowIsCovered();
    if e.written.Some? {
      if Usable(s, e.turn.poll) {
        EbpfAddsUp(e.written.value, cfg, s, e.window, e.turn);
      } else {
        FallbackAddsUp(e.written.value, cfg, s, e.window, e.turn);
      }
    }
  }

  /** Over any run, the tick that gives up eBPF included: the numbers of every file add up. */
  lemma {:induction false} EveryFileAddsUp(cfg: Config, first: State, run: seq<Event>)
    requires IsRun(cfg, first, run) && Windows.Covered(first.window)
    ensures forall i :: 0 <= i < |Written(run)| ==> AddsUp(Written(run)[i])
    ensures Windows.Covered(LastState(first, run).window)
  {
    if run != [] {
      var n := |run| - 1;
      RunShrinks(cfg, first, run, n);
      EveryFileAddsUp(cfg, first, run[..n]);
      TurnAddsUp(cfg, StateBefore(first, run, n), run[n]);
      hide IsRun, IsTurn, AddsUp, Windows.Covered;
    }
  }

  lemma EmptyWindowIsBalanced()
    ensures Windows.Balanced(EMPTY_TALLY)
  {
  }

  lemma TurnKeepsBooks(cfg: Config, s: State, e: Event)
    requires e.turn.poll.Valid() && IsTurn(cfg, s, e) && (s.baselines.None? ==> Windows.Balanced(s.window))
    ensures s.baselines.None? ==> Windows.Balanced(e.window)
    ensures e.stop == Running && e.after.baselines.None? ==> Windows.Balanced(e.after.window)
  {
    EmptyWindowIsBalanced();
    if s.baselines.None? && e.turn.reading.Frame? {
      var p := Parsed(e.turn.reading.data);
      var d := DirectionOf(p, cfg.mac, cfg.localIPs);
      assert Counted(cfg, s, e.turn.reading) == Booked(Windows.Observed(s.window, d, Size(LengthOf(e.turn.reading))),
        DestinationOf(p, d, Some(s.resolver)), d, Size(LengthOf(e.turn.reading)));
      hide Parsed, DirectionOf, DestinationOf, Windows.Balanced, Booked, Windows.Observed, IsTaken;
      AccountKeepsBalance(s.window, DestinationOf(p, d, Some(s.resolver)), d, Size(LengthOf(e.turn.reading)));
    }
  }

  /** While the loop runs without eBPF, every packet of the open window is booked to one process or one reason,
      byte for byte. */
  lemma {:induction false} FallbackBooksBalance(cfg: Config, first: State, run: seq<Event>)
    requires IsRun(cfg, first, run) && (first.baselines.None? ==> Windows.Balanced(first.window))
    requires run != [] ==> run[|run| - 1].stop == Running
    ensures LastState(first, run).baselines.None? ==> Windows.Balanced(LastState(first, run).window)
  {
    if run != [] {
      var n := |run| - 1;
      RunShrinks(cfg, first, run, n);
      assert n > 0 ==> run[..n][n - 1].stop == Running;
      FallbackBooksBalance(cfg, first, run[..n]);
      TurnKeepsBooks(cfg, StateBefore(first, run, n), run[n]);
      hide IsRun, IsTurn, Windows.Balanced;
    }
  }

  /** So the coverage percentage of no file is clamped. */
  lemma CoverageIsNeverClamped(s: Snapshot)
    requires AddsUp(s)
    ensures SnapshotReader.Percent(s.captured.rx, s.captured.tx, s.unknown.rx, s.unknown.tx) == (
      var total := s.captured.rx + s.captured.tx;
      if total > 0 then (total - s.unknown.rx - s.unknown.tx) * 100 / total else 100)
  {
    assert s.unknown.In(Ingress) <= s.captured.In(Ingress) && s.unknown.In(Egress) <= s.captured.In(Egress);
    CoverageNeedsNoClamp(s.captured, s.unknown);
  }

  // ----- From the start -----

  lemma StartsCovered(cfg: Config, openError: Option<string>, started: nat, resolver: Resolver)
    ensures var first := Initial(cfg, openError, started, resolver);
            Explained(first) && Windows.Covered(first.window) && Windows.Balanced(first.window)
  {
    hide Windows.Covered, Windows.Balanced;
    StartsExplained(cfg, openError, started, resolver);
    EmptyWindowIsCovered();
    EmptyWindowIsBalanced();
  }

  /** Whatever the loop is given, with or without eBPF: every file is honest and adds up, fallback files are
      followed by fallback files only, no packet and no byte is missing or counted twice, and without eBPF the
      open window is balanced. */
  lemma EveryRunFromTheStart(cfg: Config, openError: Option<string>, started: nat, resolver: Resolver, run: seq<Event>, d: Direction)
    requires IsRun(cfg, Initial(cfg, openError, started, resolver), run)
    ensures forall i :: 0 <= i < |Written(run)| ==> Honest(Written(run)[i]) && AddsUp(Written(run)[i])
    ensures forall i, j :: 0 <= i < j < |Written(run)| && Written(run)[i].source == "af_packet_fallback" ==>
      Written(run)[j].source == "af_packet_fallback"
    ensures var first := Initial(cfg, openError, started, resolver);
            && Sum(Written(run), PacketsOf) + Pending(first, run).packets == Frames(run)
            && FiledBytes(run, d) + Pending(first, run).captured.In(d) == FrameBytes(cfg, run, d)
            && (run != [] && run[|run| - 1].stop == Running && LastState(first, run).baselines.None?
                ==> Windows.Balanced(LastState(first, run).window))
  {
    var first := Initial(cfg, openError, started, resolver);
    assert first.window.packets == 0 && first.window.captured.In(d) == 0;
    hide *;
    StartsCovered(cfg, openError, started, resolver);
    EveryFileIsHonest(cfg, first, run);
    EveryFileAddsUp(cfg, first, run);
    SwitchIsForGood(cfg, first, run);
    EveryPacketInOneWindow(cfg, first, run, d);
    if run != [] && run[|run| - 1].stop == Running {
      FallbackBooksBalance(cfg, first, run);
    }
  }
}
