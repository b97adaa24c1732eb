/** The snapshot file (internal/netmon/snapshot.go, lines 25-104), as the text it contains. */
module SnapshotText {
  import opened NetTypes
  import opened SnapshotTypes
  import opened Sorting
  import opened Numerals
  import opened TabFields

  /** Tabs and line breaks become spaces, and nothing becomes a dash. */
  function CleanTSV(value: string): string {
    if value == "" then "-" else seq(|value|, i requires 0 <= i < |value| => Cleaned(value[i]))
  }

  function Cleaned(c: char): char {
    if c == TAB || c == RETURN || c == NEWLINE then ' ' else c
  }

  // ----- The fields of each line -----

  function Pair(t: Traffic): seq<string> {
    [Decimal(t.rx), Decimal(t.tx)]
  }

  function MetaFields(s: Snapshot): seq<string> {
    ["M", Decimal(s.version), Decimal(s.unixMilli), Decimal(s.intervalMS), s.iface]
    + Pair(s.captured) + Pair(s.unknown) + [Decimal(s.packets), Decimal(s.drops)]
    + Pair(s.unsupported) + Pair(s.unmatched) + Pair(s.ambiguous) + Pair(s.exited)
    + if s.version >= 3 then [CleanTSV(s.source), CleanTSV(s.status), CleanTSV(s.scope), CleanTSV(s.reason)] else []
  }

  function Names(w: Workload): seq<string> {
    [CleanTSV(w.ns), CleanTSV(w.pod), CleanTSV(w.container), CleanTSV(w.containerID)]
  }

  function ProcessFields(version: nat, r: ProcessRate): seq<string> {
    ["P", Decimal(r.id.pid), Decimal(r.id.startTicks)] + Pair(r.rate)
    + if version >= 4 then [CleanTSV(r.workload.scope), CleanTSV(r.workload.runtime)] + Names(r.workload) + [CleanTSV(r.workload.attribution)]
      else if version >= 3 then [CleanTSV(r.workload.scope)] + Names(r.workload) + [CleanTSV(r.workload.attribution)]
      else []
  }

  function EntityFields(version: nat, r: EntityRate): seq<string> {
    ["C", Decimal(r.workload.cgroupID)]
    + (if version >= 4 then [CleanTSV(r.workload.scope), CleanTSV(r.workload.runtime)] else [])
    + Names(r.workload) + Pair(r.rate) + [CleanTSV(r.workload.attribution)]
  }

  function WorkloadFields(w: Workload): seq<string> {
    ["W", Decimal(w.cgroupID), CleanTSV(w.scope), CleanTSV(w.runtime)] + Names(w) + [CleanTSV(w.cgroupPath), CleanTSV(w.attribution)]
  }

  function ProcessLines(version: nat, rows: seq<ProcessRate>): seq<seq<string>> {
    seq(|rows|, i requires 0 <= i < |rows| => ProcessFields(version, rows[i]))
  }

  function EntityLines(version: nat, rows: seq<EntityRate>): seq<seq<string>> {
    seq(|rows|, i requires 0 <= i < |rows| => EntityFields(version, rows[i]))
  }

  function WorkloadLines(version: nat, rows: seq<Workload>): seq<seq<string>> {
    if version < 4 then [] else seq(|rows|, i requires 0 <= i < |rows| => WorkloadFields(rows[i]))
  }

  function RowLines(s: Snapshot): seq<seq<string>> {
    ProcessLines(s.version, s.processes) + EntityLines(s.version, s.entities) + WorkloadLines(s.version, s.workloads)
  }

  function FileLines(s: Snapshot): seq<seq<string>> {
    [MetaFields(s)] + RowLines(s)
  }

  /** The rows in the order in which they are written. */
  ghost predicate IsSorted(sorted: Snapshot, s: Snapshot) {
    && sorted == s.(processes := sorted.processes, entities := sorted.entities, workloads := sorted.workloads)
    && IsSortOf(sorted.processes, s.processes, PidKey)
    && IsSortOf(sorted.entities, s.entities, EntityKey)
    && (if s.version >= 4 then IsSortOf(sorted.workloads, s.workloads, WorkloadKey) else sorted.workloads == s.workloads)
  }

  /** A file for the snapshot: its rows in some sorted order. */
  ghost predicate IsFile(text: string, s: Snapshot) {
    exists sorted :: IsSorted(sorted, s) && text == Text(FileLines(sorted))
  }

  // ----- The printer -----

  method WriteProcesses(text: string, version: nat, rows: seq<ProcessRate>, ghost before: seq<seq<string>>) returns (r: string)
    requires text == Text(before)
    ensures r == Text(before + ProcessLines(version, rows))
  {
    r := text;
    hide Line, ProcessFields;
    ghost var lines := ProcessLines(version, rows);
    assert before + lines[..0] == before;
    for i := 0 to |rows|
      invariant r == Text(before + lines[..i])
    {
      r := r + Line(ProcessFields(version, rows[i]));
      TextSnoc(before + lines[..i], lines[i]);
      assert before + lines[..i + 1] == (before + lines[..i]) + [lines[i]];
    }
    assert lines[..|rows|] == lines;
  }

  method WriteEntities(text: string, version: nat, rows: seq<EntityRate>, ghost before: seq<seq<string>>) returns (r: string)
    requires text == Text(before)
    ensures r == Text(before + EntityLines(version, rows))
  {
    r := text;
    hide Line, EntityFields;
    ghost var lines := EntityLines(version, rows);
    assert before + lines[..0] == before;
    for i := 0 to |rows|
      invariant r == Text(before + lines[..i])
    {
      r := r + Line(EntityFields(version, rows[i]));
      TextSnoc(before + lines[..i], lines[i]);
      assert before + lines[..i + 1] == (before + lines[..i]) + [lines[i]];
    }
    assert lines[..|rows|] == lines;
  }

  method WriteWorkloads(text: string, version: nat, rows: seq<Workload>, ghost before: seq<seq<string>>) returns (r: string)
    requires text == Text(before)
    requires version >= 4
    ensures r == Text(before + WorkloadLines(version, rows))
  {
    r := text;
    hide Line, WorkloadFields;
    ghost var lines := WorkloadLines(version, rows);
    assert before + lines[..0] == before;
    for i := 0 to |rows|
      invariant r == Text(before + lines[..i])
    {
      r := r + Line(WorkloadFields(rows[i]));
      TextSnoc(before + lines[..i], lines[i]);
      assert before + lines[..i + 1] == (before + lines[..i]) + [lines[i]];
    }
    assert lines[..|rows|] == lines;
  }

  lemma SortedLines(s: Snapshot, processes: seq<ProcessRate>, entities: seq<EntityRate>, workloads: seq<Workload>)
    ensures FileLines(s.(processes := processes, entities := entities, workloads := workloads)) == (
      var head := [MetaFields(s)] + ProcessLines(s.version, processes) + EntityLines(s.version, entities);
      if s.version >= 4 then head + WorkloadLines(s.version, workloads) else head)
  {
    hide ProcessLines, EntityLines, CleanTSV, Decimal;
    var a, b, c := ProcessLines(s.version, processes), EntityLines(s.version, entities), WorkloadLines(s.version, workloads);
    assert [MetaFields(s)] + (a + b + c) == [MetaFields(s)] + a + b + c;
    if s.version < 4 {
      assert [MetaFields(s)] + a + b + c == [MetaFields(s)] + a + b;
    }
  }

  method WriteSnapshot(snapshot: Snapshot) returns (text: string)
    ensures IsFile(text, snapshot)
  {
    hide MetaFields, Line, ProcessLines, EntityLines, WorkloadLines, FileLines;
    text := Line(MetaFields(snapshot));
    ghost var lines := [MetaFields(snapshot)];
    assert Text(lines) == text by {
      assert lines[1..] == [];
      assert Text([]) == "";
    }
    var processes := Sort(snapshot.processes, PidKey);
    text := WriteProcesses(text, snapshot.version, processes, lines);
    lines := lines + ProcessLines(snapshot.version, processes);
    var entities := Sort(snapshot.entities, EntityKey);
    text := WriteEntities(text, snapshot.version, entities, lines);
    lines := lines + EntityLines(snapshot.version, entities);
    var workloads := snapshot.workloads;
    if snapshot.version >= 4 {
      workloads := Sort(snapshot.workloads, WorkloadKey);
      text := WriteWorkloads(text, snapshot.version, workloads, lines);
    }
    ghost var sorted := snapshot.(processes := processes, entities := entities, workloads := workloads);
    SortedLines(snapshot, processes, entities, workloads);
    assert IsSorted(sorted, snapshot) && text == Text(FileLines(sorted));
  }

  // ----- What a cleaned field is -----

  lemma CleanIsPlain(value: string)
    ensures Plain(CleanTSV(value)) && CleanTSV(value) != ""
    ensures RETURN !in CleanTSV(value)
  {
  }

  lemma DecimalIsPlain(n: nat)
    ensures Plain(Decimal(n)) && NUL !in Decimal(n) && Decimal(n) != ""
  {
    DecimalInverse(n);
  }
}
