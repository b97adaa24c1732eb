/** When the loop writes a file, and what the file says of its window's time and of the reason for it
    (internal/netmon/run_linux.go, lines 75-173). */
module RunFiles {
  import opened NetTypes
  import opened Rates
  import opened FlowCounters
  import opened Sockets
  import opened SnapshotTypes
  import opened Windows
  import opened Accounting
  import opened RunLoop
  import opened RunTheorems
  import opened Attribution

  // ----- When -----

  /** When the last file was written after which the loop went on, or else when it began. */
  function LastFileAt(first: State, run: seq<Event>): nat {
    if run == [] then first.started
    else
      var n := |run| - 1;
      if run[n].written.Some? && run[n].stop == Running then run[n].turn.now else LastFileAt(first, run[..n])
  }

  lemma TurnKeepsTime(cfg: Config, s: State, e: Event)
    requires e.turn.poll.Valid() && IsTurn(cfg, s, e) && s.deadline == s.started + cfg.interval
    ensures e.after.started == if e.written.Some? && e.stop == Running then e.turn.now else s.started
    ensures e.after.deadline == e.after.started + cfg.interval
    ensures e.written.Some? <==> !e.turn.reading.CaptureFailed? && e.turn.now >= s.started + cfg.interval && e.turn.poll.written
  {
    hide Counted, IsTaken, Decide, FallbackReason, Usable;
  }

  lemma {:induction false} WindowsBeginWithFiles(cfg: Config, first: State, run: seq<Event>)
    requires IsRun(cfg, first, run) && first.deadline == first.started + cfg.interval
    ensures LastState(first, run).started == LastFileAt(first, run)
    ensures LastState(first, run).deadline == LastFileAt(first, run) + cfg.interval
  {
    if run != [] {
      var n := |run| - 1;
      RunShrinks(cfg, first, run, n);
      WindowsBeginWithFiles(cfg, first, run[..n]);
      hide IsRun, IsTurn;
      TurnKeepsTime(cfg, StateBefore(first, run, n), run[n]);
    }
  }

  /** From the start: a file is written exactly when the interval since the last one has passed and it can be
      written, whether or not a packet has just been read. */
  lemma FileIff(cfg: Config, openError: Option<string>, started: nat, resolver: Resolver, run: seq<Event>, i: nat)
    requires IsRun(cfg, Initial(cfg, openError, started, resolver), run) && i < |run|
    ensures run[i].written.Some?
      <==> && !run[i].turn.reading.CaptureFailed? && run[i].turn.poll.written
           && run[i].turn.now >= LastFileAt(Initial(cfg, openError, started, resolver), run[..i]) + cfg.interval
  {
    var first := Initial(cfg, openError, started, resolver);
    OpenedAt(cfg, first, run, i);
    hide IsRun, IsTurn;
    TurnKeepsTime(cfg, StateBefore(first, run, i), run[i]);
  }

  lemma OpenedAt(cfg: Config, first: State, run: seq<Event>, i: nat)
    requires IsRun(cfg, first, run) && i < |run| && first.deadline == first.started + cfg.interval
    ensures run[i].turn.poll.Valid() && IsTurn(cfg, StateBefore(first, run, i), run[i])
    ensures StateBefore(first, run, i).started == LastFileAt(first, run[..i])
    ensures StateBefore(first, run, i).deadline == StateBefore(first, run, i).started + cfg.interval
  {
    hide IsTurn;
    PrefixIsRun(cfg, first, run, i);
    WindowsBeginWithFiles(cfg, first, run[..i]);
  }

  lemma PrefixIsRun(cfg: Config, first: State, run: seq<Event>, i: nat)
    requires IsRun(cfg, first, run) && i < |run|
    ensures IsRun(cfg, first, run[..i]) && LastState(first, run[..i]) == StateBefore(first, run, i)
  {
    hide IsTurn;
    forall j | 0 <= j <= i ensures StateBefore(first, run[..i], j) == StateBefore(first, run, j) {
    }
    assert forall j :: 0 <= j < i ==> run[..i][j] == run[j];
  }

  // ----- With what -----

  /** The sockets known to the loop: those listed when the last file was written, or else at the beginning. */
  function ListedAt(first: State, run: seq<Event>): Resolver {
    if run == [] then first.resolver
    else
      var n := |run| - 1;
      if run[n].written.Some? && run[n].stop == Running then run[n].turn.poll.resolver else ListedAt(first, run[..n])
  }

  /** A poll that fails: the map could not be walked at all, or no process could be listed. */
  predicate Fails(poll: Poll)
    requires |poll.walks| > 0
  {
    poll.walks[Deciding(poll.walks)].end == Failed || poll.system.None?
  }

  /** What a walk makes of the baselines. */
  function Moved(before: Baselines, walk: Walk): Baselines {
    match walk.end
    case Completed => FlowCounters.Observed(walk.visits)
    case Aborted => before + FlowCounters.Observed(walk.visits)
    case Failed => before
  }

  /** The baselines as the decided walks have left them, poll by poll. */
  function BaselinesOf(first: State, run: seq<Event>): Baselines
    requires forall i :: 0 <= i < |run| ==> |run[i].turn.poll.walks| > 0
  {
    if run == [] then if first.baselines.Some? then first.baselines.value else map[]
    else
      var n := |run| - 1;
      var before, walks := BaselinesOf(first, run[..n]), run[n].turn.poll.walks;
      if IsPolled(StateBefore(first, run, n), run[n]) then Moved(before, walks[Deciding(walks)]) else before
  }

  lemma TurnKeepsEbpf(cfg: Config, s: State, e: Event)
    requires e.turn.poll.Valid() && IsTurn(cfg, s, e)
    ensures e.after.baselines.Some? <==> s.baselines.Some? && !(IsPolled(s, e) && Fails(e.turn.poll))
    ensures e.after.baselines.Some? ==>
      e.after.baselines.value
      == if IsPolled(s, e) then Moved(s.baselines.value, e.turn.poll.walks[Deciding(e.turn.poll.walks)]) else s.baselines.value
    ensures e.after.resolver == if e.written.Some? && e.stop == Running then e.turn.poll.resolver else s.resolver
  {
    hide Counted, IsTaken, Flows, FlowCounters.Observed, Deciding, FallbackReason, Dropped;
  }

  lemma StepOfRun(first: State, run: seq<Event>, n: nat)
    requires |run| == n + 1 && forall i :: 0 <= i < |run| ==> |run[i].turn.poll.walks| > 0
    ensures BaselinesOf(first, run)
      == if IsPolled(StateBefore(first, run, n), run[n])
         then Moved(BaselinesOf(first, run[..n]), run[n].turn.poll.walks[Deciding(run[n].turn.poll.walks)])
         else BaselinesOf(first, run[..n])
    ensures ListedAt(first, run)
      == if run[n].written.Some? && run[n].stop == Running then run[n].turn.poll.resolver else ListedAt(first, run[..n])
  {
    hide Moved, Deciding;
  }

  ghost predicate EverFails(first: State, run: seq<Event>)
    requires forall i :: 0 <= i < |run| ==> |run[i].turn.poll.walks| > 0
  {
    exists i :: 0 <= i < |run| && IsPolled(StateBefore(first, run, i), run[i]) && Fails(run[i].turn.poll)
  }

  lemma EverFailsGrows(first: State, run: seq<Event>, n: nat)
    requires |run| == n + 1 && forall i :: 0 <= i < |run| ==> |run[i].turn.poll.walks| > 0
    ensures EverFails(first, run) <==> EverFails(first, run[..n]) || (IsPolled(StateBefore(first, run, n), run[n]) && Fails(run[n].turn.poll))
  {
    hide Fails, IsPolled;
    forall i | 0 <= i < n ensures run[..n][i] == run[i] && StateBefore(first, run[..n], i) == StateBefore(first, run, i) {
    }
  }

  lemma PollsHaveWalks(cfg: Config, first: State, run: seq<Event>)
    requires IsRun(cfg, first, run)
    ensures forall i :: 0 <= i < |run| ==> |run[i].turn.poll.walks| > 0
  {
    hide IsTurn;
    assert forall i :: 0 <= i < |run| ==> run[i].turn.poll.Valid();
  }

  lemma {:induction false} EbpfSoFar(cfg: Config, first: State, run: seq<Event>)
    requires IsRun(cfg, first, run)
    ensures forall i :: 0 <= i < |run| ==> |run[i].turn.poll.walks| > 0
    ensures LastState(first, run).baselines.Some? <==> first.baselines.Some? && !EverFails(first, run)
    ensures LastState(first, run).baselines.Some? ==> LastState(first, run).baselines.value == BaselinesOf(first, run)
    ensures LastState(first, run).resolver == ListedAt(first, run)
  {
    PollsHaveWalks(cfg, first, run);
    if run != [] {
      var n := |run| - 1;
      hide *;
      RunShrinks(cfg, first, run, n);
      EbpfSoFar(cfg, first, run[..n]);
      TurnKeepsEbpf(cfg, StateBefore(first, run, n), run[n]);
      StepOfRun(first, run, n);
      EverFailsGrows(first, run, n);
      LastOfRun(first, run, n);
    }
  }

  /** From the start: eBPF is in use exactly as long as it could be opened and no poll has failed, its baselines are
      those the decided walks left, and the sockets known are those of the last file. */
  lemma EbpfInUseIff(cfg: Config, openError: Option<string>, started: nat, resolver: Resolver, run: seq<Event>)
    requires IsRun(cfg, Initial(cfg, openError, started, resolver), run)
    ensures forall i :: 0 <= i < |run| ==> |run[i].turn.poll.walks| > 0
    ensures var first := Initial(cfg, openError, started, resolver);
            && (LastState(first, run).baselines.Some? <==> openError.None? && !EverFails(first, run))
            && (LastState(first, run).baselines.Some? ==> LastState(first, run).baselines.value == BaselinesOf(first, run))
            && LastState(first, run).resolver == ListedAt(first, run)
  {
    hide IsRun, EverFails, BaselinesOf, ListedAt, LastState;
    EbpfSoFar(cfg, Initial(cfg, openError, started, resolver), run);
  }

  // ----- What the file says of its window -----

  /** The bytes of a window over its time in nanoseconds, in units of 1024 bytes per second, rounded down. */
  predicate IsRate(rate: nat, bytes: nat, ns: nat) {
    rate * (ns * 1024) <= bytes * 1_000_000_000 < (rate + 1) * (ns * 1024)
  }

  lemma TakenSpans(s: Snapshot, cfg: Config, before: State, window: Tally, turn: Turn)
    requires turn.poll.Valid() && IsTaken(s, cfg, before, window, turn)
    ensures var span := SpanOf(before, turn.now);
            && s.unixMilli == span.millis && s.intervalMS == span.ns / 1_000_000
            && (!Usable(before, turn.poll) ==> forall d: Direction :: s.captured.In(d) == Rate(window.captured.In(d), span.ns))
            && (Usable(before, turn.poll) ==> forall d: Direction :: s.captured.In(d) >= Rate(window.captured.In(d), span.ns))
  {
    hide SpanOf, Rate, Tabulated, Deltas, Lists, SortedListing, Dropped, BreakdownOf, ErrorText;
    var span := SpanOf(before, turn.now);
    if Usable(before, turn.poll) {
      var outcome, sys := Deltas(before, turn.poll), turn.poll.system.value;
      var raw :|
        && IsCgroupSnapshot(raw, Tabulated(NO_TABLES, sys, outcome.flows), sys, window.captured, window.packets, span.millis,
                            span.ns, cfg.iface, Dropped(before.previousDrops, turn.poll.drops), turn.poll.starts)
        && s == Labelled(raw, outcome.error, turn.poll.systemError);
      CapturedAtLeast(raw, Tabulated(NO_TABLES, sys, outcome.flows), sys, window, span, cfg.iface,
                      Dropped(before.previousDrops, turn.poll.drops), turn.poll.starts);
    }
  }

  lemma CapturedAtLeast(raw: Snapshot, t: Accounting.Tables, sys: Cgroups.SystemResolver, window: Tally, span: Span, iface: string,
                        drops: nat, starts: Starts)
    requires span.ns > 0 && IsCgroupSnapshot(raw, t, sys, window.captured, window.packets, span.millis, span.ns, iface, drops, starts)
    ensures forall d: Direction :: raw.captured.In(d) >= Rate(window.captured.In(d), span.ns)
  {
    hide Rate, BreakdownOf;
    forall d: Direction ensures raw.captured.In(d) >= Rate(window.captured.In(d), span.ns) {
      var b := BreakdownOf(t, starts, d);
      assert Counts(raw, b, window.captured.In(d), span.ns, d);
      RateMonotone(window.captured.In(d), b.known + b.Unknown() + b.Residual(window.captured.In(d)), span.ns);
    }
  }

  /** A file is dated to the millisecond and covers the time since its window was opened, a second if the clock
      has not advanced; without eBPF its captured rate is that of the window's bytes over this time. */
  lemma FileSpansItsWindow(cfg: Config, s: State, e: Event, d: Direction)
    requires e.turn.poll.Valid() && IsTurn(cfg, s, e) && e.written.Some? && Explained(s)
    ensures var file, now := e.written.value, e.turn.now;
            var ns := if now > s.started then now - s.started else 1_000_000_000;
            && file.unixMilli == now / 1_000_000 && file.intervalMS == ns / 1_000_000
            && e.window.captured.In(d) * 1_000_000_000 < (file.captured.In(d) + 1) * (ns * 1024)
            && (file.source == "af_packet_fallback" ==> IsRate(file.captured.In(d), e.window.captured.In(d), ns))
  {
    hide Counted, IsTaken, Usable;
    var file := e.written.value;
    var ns := SpanOf(s, e.turn.now).ns;
    TakenSpans(file, cfg, s, e.window, e.turn);
    TakenIsHonest(file, cfg, s, e.window, e.turn);
    RateIs(e.window.captured.In(d), ns);
    hide Rate;
    AtLeastRate(file.captured.In(d), Rate(e.window.captured.In(d), ns), ns * 1024);
  }

  lemma AtLeastRate(a: nat, b: nat, unit: nat)
    requires a >= b
    ensures (a + 1) * unit >= (b + 1) * unit
  {
  }

  // ----- Why -----

  /** The reason a file gives: none if it is complete; the aborted walk, or the namespaces, if it is partial; and
      if eBPF is given up or was never there, what went wrong with it. */
  lemma FileSaysWhy(cfg: Config, s: State, e: Event)
    requires e.turn.poll.Valid() && IsTurn(cfg, s, e) && e.written.Some?
    ensures var file, poll := e.written.value, e.turn.poll;
            var end := poll.walks[Deciding(poll.walks)].end;
            if s.baselines.None? then file.reason == s.fallbackReason
            else if end == Failed then file.reason == SWITCHED + poll.readError
            else if poll.system.None? then
              file.reason == SWITCHED + if end == Aborted then poll.readError
                                        else if poll.systemError.Some? then poll.systemError.value else "<nil>"
            else if end == Aborted then file.reason == PARTIAL_WALK
            else if poll.systemError.Some? then file.reason == PARTIAL_NAMESPACES + poll.systemError.value
            else file.reason == ""
  {
    hide Counted, Tabulated, Flows, FlowCounters.Observed, Deciding, IsCgroupSnapshot, IsWindowSnapshot, SpanOf, Dropped;
    if Usable(s, e.turn.poll) {
      UnlabelledReason(e.written.value, cfg, s, e.window, e.turn);
    }
  }

  lemma UnlabelledReason(s: Snapshot, cfg: Config, before: State, window: Tally, turn: Turn)
    requires turn.poll.Valid() && Usable(before, turn.poll) && IsEbpfSnapshot(s, cfg, before, window, turn)
    ensures s.reason == if Deltas(before, turn.poll).error == IterationAborted then PARTIAL_WALK
                        else if turn.poll.systemError.Some? then PARTIAL_NAMESPACES + turn.poll.systemError.value else ""
  {
    hide Tabulated, Counts, Lists, Dropped, SortedListing, Deltas, SpanOf;
  }

  /** Once without eBPF, every later file gives the same reason. */
  lemma TurnKeepsReason(cfg: Config, s: State, e: Event)
    requires e.turn.poll.Valid() && IsTurn(cfg, s, e)
    ensures s.baselines.None? ==> e.after.fallbackReason == s.fallbackReason && e.after.baselines.None?
    ensures e.written.Some? && e.after.baselines.None? ==> e.written.value.reason == e.after.fallbackReason
  {
    hide Counted, IsEbpfSnapshot, IsWindowSnapshot, SpanOf, Dropped, Deltas;
  }

  lemma {:induction false} OneReasonForAll(cfg: Config, first: State, run: seq<Event>)
    requires IsRun(cfg, first, run) && Explained(first)
    ensures forall i :: 0 <= i < |Written(run)| && Written(run)[i].source == "af_packet_fallback" ==>
      LastState(first, run).baselines.None? && Written(run)[i].reason == LastState(first, run).fallbackReason
  {
    if run != [] {
      var n := |run| - 1;
      hide *;
      RunShrinks(cfg, first, run, n);
      OneReasonForAll(cfg, first, run[..n]);
      EveryFileIsHonest(cfg, first, run[..n]);
      TurnStaysExplained(cfg, StateBefore(first, run, n), run[n]);
      TurnKeepsReason(cfg, StateBefore(first, run, n), run[n]);
      LastOfRun(first, run, n);
      if run[n].written.Some? {
        HonestSource(run[n].written.value);
      }
    }
  }

  // ----- Whose bytes -----

  /** A file of eBPF shows the flows of the walk that decided its poll, each with the process, the container or
      the reason it resolves to, over the time of its window. */
  lemma EbpfFileIsExact(cfg: Config, s: State, e: Event, d: Direction)
    requires e.turn.poll.Valid() && IsTurn(cfg, s, e) && e.written.Some? && Explained(s) && e.written.value.source == "ebpf_cgroup"
    ensures s.baselines.Some? && e.turn.poll.system.Some?
    ensures var poll := e.turn.poll;
            var flows := Flows(s.baselines.value, poll.walks[Deciding(poll.walks)].visits);
            var ns := SpanOf(s, e.turn.now).ns;
            && AreRowsOf(e.written.value.processes, poll.system.value, poll.starts, flows, ns)
            && HasTotals(e.written.value, poll.system.value, poll.starts, flows, e.window.captured.In(d), ns, d)
  {
    hide RunLoop.Counted, IsTaken, Usable, Flows, Deciding, SpanOf, AreRowsOf, HasTotals;
    TakenIsHonest(e.written.value, cfg, s, e.window, e.turn);
    TakenIsExact(e.written.value, cfg, s, e.window, e.turn, d);
  }

  lemma TakenIsExact(file: Snapshot, cfg: Config, s: State, window: Tally, turn: Turn, d: Direction)
    requires turn.poll.Valid() && IsTaken(file, cfg, s, window, turn) && Usable(s, turn.poll)
    ensures s.baselines.Some? && turn.poll.system.Some?
    ensures var flows, ns := Flows(s.baselines.value, turn.poll.walks[Deciding(turn.poll.walks)].visits), SpanOf(s, turn.now).ns;
            && AreRowsOf(file.processes, turn.poll.system.value, turn.poll.starts, flows, ns)
            && HasTotals(file, turn.poll.system.value, turn.poll.starts, flows, window.captured.In(d), ns, d)
  {
    var outcome, sys, span := Deltas(s, turn.poll), turn.poll.system.value, SpanOf(s, turn.now);
    var drops := Dropped(s.previousDrops, turn.poll.drops);
    assert outcome.flows == Flows(s.baselines.value, turn.poll.walks[Deciding(turn.poll.walks)].visits);
    var raw :|
      && IsCgroupSnapshot(raw, Tabulated(NO_TABLES, sys, outcome.flows), sys, window.captured, window.packets, span.millis,
                          span.ns, cfg.iface, drops, turn.poll.starts)
      && file == Labelled(raw, outcome.error, turn.poll.systemError);
    LabelKeepsNumbers(raw, outcome.error, turn.poll.systemError, sys, turn.poll.starts, outcome.flows, window.captured.In(d), span.ns, d);
    hide *;
    ProcessRowsAreExact(raw, sys, outcome.flows, window.captured, window.packets, span.millis, span.ns, cfg.iface, drops, turn.poll.starts);
    TotalsAreExact(raw, sys, outcome.flows, window.captured, window.packets, span.millis, span.ns, cfg.iface, drops, turn.poll.starts, d);
  }

  lemma LabelKeepsNumbers(raw: Snapshot, error: ReadError, systemError: Option<string>, sys: Cgroups.SystemResolver, starts: Starts,
                          flows: seq<CgroupFlow>, captured: nat, ns: nat, d: Direction)
    requires ns > 0
    ensures Labelled(raw, error, systemError).processes == raw.processes
    ensures HasTotals(raw, sys, starts, flows, captured, ns, d) ==> HasTotals(Labelled(raw, error, systemError), sys, starts, flows, captured, ns, d)
  {
    hide BytesTo, FlowBytes, BytesOfReasons, Rate;
  }
}
