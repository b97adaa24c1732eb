/** What the front end finds in its tables after reading a file, and what a field of NULs only does to a line
    (smon.sh, lines 370-411). */
module ReadTables {
  import opened NetTypes
  import opened SnapshotTypes
  import opened Numerals
  import opened TabFields
  import opened SnapshotText
  import opened TextRoundTrip
  import R = SnapshotReader

  function EntryAt<V>(m: map<string, V>, key: string): Option<V> {
    if key in m then Some(m[key]) else None
  }

  function Else<V>(a: Option<V>, b: Option<V>): Option<V> {
    if a.Some? then a else b
  }

  // ----- The last row that speaks of a key -----

  function LastProcess(version: nat, rows: seq<ProcessRate>, pid: string): Option<R.ProcessEntry> {
    if rows == [] then None
    else
      var n := |rows| - 1;
      if Decimal(rows[n].id.pid) == pid then Some(NormalProcess(version, rows[n])) else LastProcess(version, rows[..n], pid)
  }

  function LastOfProcesses(version: nat, rows: seq<ProcessRate>, cid: string): Option<R.WorkloadEntry> {
    if rows == [] then None
    else
      var p := NormalProcess(version, rows[|rows| - 1]);
      if p.containerID == cid then Some(WorkloadOf(p)) else LastOfProcesses(version, rows[..|rows| - 1], cid)
  }

  function LastOfEntities(version: nat, rows: seq<EntityRate>, cid: string): Option<R.WorkloadEntry> {
    if rows == [] then None
    else
      var w := rows[|rows| - 1].workload;
      if Normal(w.containerID) == cid then Some(NormalWorkload(version, w)) else LastOfEntities(version, rows[..|rows| - 1], cid)
  }

  function LastOfWorkloads(rows: seq<Workload>, cid: string): Option<Workload> {
    if rows == [] then None
    else
      var w := rows[|rows| - 1];
      if Normal(w.containerID) == cid then Some(w) else LastOfWorkloads(rows[..|rows| - 1], cid)
  }

  function NormalEntities(version: nat, rows: seq<EntityRate>): seq<string> {
    seq(|rows|, i requires 0 <= i < |rows| => NormalEntity(version, rows[i]))
  }

  // ----- One pass each -----

  lemma WithWorkloadAt(t: R.Tables, cid: string, w: R.WorkloadEntry, other: string)
    requires other != ""
    ensures var t' := R.WithWorkload(t, cid, w);
            && EntryAt(t'.workloads, other) == (if cid == other then Some(w) else EntryAt(t.workloads, other))
            && t'.processes == t.processes && t'.entities == t.entities && t'.paths == t.paths
  {
  }

  lemma AfterProcess(t: R.Tables, r: ProcessRate, version: nat, pid: string, cid: string)
    requires cid != ""
    ensures var p, t' := NormalProcess(version, r), AddProcess(t, r, version);
            && EntryAt(t'.processes, pid) == (if Decimal(r.id.pid) == pid then Some(p) else EntryAt(t.processes, pid))
            && EntryAt(t'.workloads, cid) == (if p.containerID == cid then Some(WorkloadOf(p)) else EntryAt(t.workloads, cid))
            && t'.entities == t.entities && t'.paths == t.paths
  {
    hide R.WithWorkload, NormalProcess, Decimal, WorkloadOf;
    var p := NormalProcess(version, r);
    WithWorkloadAt(t.(processes := t.processes[Decimal(r.id.pid) := p]), p.containerID, WorkloadOf(p), cid);
  }

  lemma {:induction false} AfterProcesses(t: R.Tables, rows: seq<ProcessRate>, version: nat, pid: string, cid: string)
    requires cid != ""
    ensures var t' := R.Pass(t, rows, version, AddProcess);
            && EntryAt(t'.processes, pid) == Else(LastProcess(version, rows, pid), EntryAt(t.processes, pid))
            && EntryAt(t'.workloads, cid) == Else(LastOfProcesses(version, rows, cid), EntryAt(t.workloads, cid))
            && t'.entities == t.entities && t'.paths == t.paths
  {
    hide AddProcess, NormalProcess, Decimal, WorkloadOf, EntryAt;
    if rows != [] {
      var n := |rows| - 1;
      AfterProcesses(t, rows[..n], version, pid, cid);
      AfterProcess(R.Pass(t, rows[..n], version, AddProcess), rows[n], version, pid, cid);
    }
  }

  lemma AfterEntity(t: R.Tables, r: EntityRate, version: nat, cid: string)
    requires cid != ""
    ensures var t' := AddEntity(t, r, version);
            && EntryAt(t'.workloads, cid)
               == (if Normal(r.workload.containerID) == cid then Some(NormalWorkload(version, r.workload)) else EntryAt(t.workloads, cid))
            && t'.entities == t.entities + [NormalEntity(version, r)] && t'.processes == t.processes && t'.paths == t.paths
  {
    hide R.WithWorkload, NormalEntity, NormalWorkload, Normal;
    WithWorkloadAt(t.(entities := t.entities + [NormalEntity(version, r)]), Normal(r.workload.containerID),
                   NormalWorkload(version, r.workload), cid);
  }

  lemma NormalEntitiesSnoc(version: nat, rows: seq<EntityRate>, n: nat)
    requires |rows| == n + 1
    ensures NormalEntities(version, rows) == NormalEntities(version, rows[..n]) + [NormalEntity(version, rows[n])]
  {
    hide NormalEntity;
  }

  lemma {:induction false} AfterEntities(t: R.Tables, rows: seq<EntityRate>, version: nat, cid: string)
    requires cid != ""
    ensures var t' := R.Pass(t, rows, version, AddEntity);
            && EntryAt(t'.workloads, cid) == Else(LastOfEntities(version, rows, cid), EntryAt(t.workloads, cid))
            && t'.entities == t.entities + NormalEntities(version, rows) && t'.processes == t.processes && t'.paths == t.paths
  {
    hide AddEntity, NormalEntity, NormalWorkload, Normal, EntryAt;
    if rows != [] {
      var n := |rows| - 1;
      AfterEntities(t, rows[..n], version, cid);
      AfterEntity(R.Pass(t, rows[..n], version, AddEntity), rows[n], version, cid);
      hide NormalEntities;
      NormalEntitiesSnoc(version, rows, n);
    }
  }

  lemma AfterWorkload(t: R.Tables, w: Workload, version: nat, cid: string)
    requires cid != ""
    ensures var t' := AddWorkload(t, w, version);
            && EntryAt(t'.workloads, cid)
               == (if Normal(w.containerID) == cid then Some(NormalWorkload(version, w)) else EntryAt(t.workloads, cid))
            && EntryAt(t'.paths, cid) == (if Normal(w.containerID) == cid then Some(Normal(w.cgroupPath)) else EntryAt(t.paths, cid))
            && t'.entities == t.entities && t'.processes == t.processes
  {
    hide R.WithWorkload, NormalWorkload, Normal;
    var own := Normal(w.containerID);
    if own != "" {
      WithWorkloadAt(t.(paths := t.paths[own := Normal(w.cgroupPath)]), own, NormalWorkload(version, w), cid);
    }
  }

  function WorkloadEntryOf(version: nat, w: Option<Workload>): Option<R.WorkloadEntry> {
    if w.Some? then Some(NormalWorkload(version, w.value)) else None
  }

  function PathOf(w: Option<Workload>): Option<string> {
    if w.Some? then Some(Normal(w.value.cgroupPath)) else None
  }

  lemma {:induction false} AfterWorkloads(t: R.Tables, rows: seq<Workload>, version: nat, cid: string)
    requires cid != ""
    ensures var t' := R.Pass(t, rows, version, AddWorkload);
            && EntryAt(t'.workloads, cid) == Else(WorkloadEntryOf(version, LastOfWorkloads(rows, cid)), EntryAt(t.workloads, cid))
            && EntryAt(t'.paths, cid) == Else(PathOf(LastOfWorkloads(rows, cid)), EntryAt(t.paths, cid))
            && t'.entities == t.entities && t'.processes == t.processes
  {
    hide AddWorkload, NormalWorkload, Normal, EntryAt;
    if rows != [] {
      var n := |rows| - 1;
      AfterWorkloads(t, rows[..n], version, cid);
      AfterWorkload(R.Pass(t, rows[..n], version, AddWorkload), rows[n], version, cid);
    }
  }

  // ----- The tables -----

  /** The last workload line that names the container, else the last container line, else the last process line. */
  function WorkloadFor(s: Snapshot, cid: string): Option<R.WorkloadEntry> {
    var w := if s.version == 4 then WorkloadEntryOf(4, LastOfWorkloads(s.workloads, cid)) else None;
    Else(w, Else(LastOfEntities(s.version, s.entities, cid), LastOfProcesses(s.version, s.processes, cid)))
  }

  /** After reading a version 3 or 4 file: under a PID the last process with it, the containers in order, under
      a container ID what the last line that names it says, and its path only from a workload line. */
  lemma EveryRowIsRead(s: Snapshot, pid: string, cid: string)
    requires Tabular(s.version) && Plain(s.iface) && LegibleSnapshot(s) && cid != ""
    ensures var t := R.AfterPasses(LinesOf(Text(FileLines(s)))[1..], VersionText(s.version));
            && EntryAt(t.processes, pid) == LastProcess(s.version, s.processes, pid)
            && t.entities == NormalEntities(s.version, s.entities)
            && EntryAt(t.workloads, cid) == WorkloadFor(s, cid)
            && EntryAt(t.paths, cid) == if s.version == 4 then PathOf(LastOfWorkloads(s.workloads, cid)) else None
  {
    hide LinesOf, Text, FileLines, LegibleSnapshot, R.AfterPasses, R.Pass, AddProcess, AddEntity, AddWorkload, NormalEntities,
         NormalProcess, NormalWorkload, Normal, Decimal, NormalMeta, LastProcess, LastOfProcesses, LastOfEntities, LastOfWorkloads;
    SnapshotRoundTrip(s);
    VersionIsShown(s);
    var t := R.Pass(R.NO_ENTRIES, s.processes, s.version, AddProcess);
    var t' := R.Pass(t, s.entities, s.version, AddEntity);
    AfterProcesses(R.NO_ENTRIES, s.processes, s.version, pid, cid);
    AfterEntities(t, s.entities, s.version, cid);
    if s.version == 4 {
      AfterWorkloads(t', s.workloads, s.version, cid);
    }
  }

  /** With distinct PIDs, as in every file of the collector, each process is found under its own. */
  lemma {:induction false} EveryProcessIsFound(version: nat, rows: seq<ProcessRate>, i: nat)
    requires i < |rows| && forall j, k :: 0 <= j < k < |rows| ==> rows[j].id.pid != rows[k].id.pid
    ensures LastProcess(version, rows, Decimal(rows[i].id.pid)) == Some(NormalProcess(version, rows[i]))
  {
    hide Decimal, NormalProcess;
    var n := |rows| - 1;
    if i < n {
      DecimalIsInjective(rows[i].id.pid, rows[n].id.pid);
      EveryProcessIsFound(version, rows[..n], i);
    }
  }

  // ----- Fields that cannot be carried -----

  /** Line by line and field by field, for any snapshot: every field is read back into its own variable iff
      none that consists of NULs only stands before one that does not. */
  lemma FieldsReadBackIff(s: Snapshot, i: nat)
    requires Plain(s.iface) && i < |FileLines(s)|
    ensures i < |LinesOf(Text(FileLines(s)))|
    ensures var fields := FileLines(s)[i];
            ReadVars(DropNul(LinesOf(Text(FileLines(s)))[i]), |fields|) == DropNuls(fields) <==> LegibleLine(fields)
  {
    assert LegibleLine(FileLines(s)[i]) <==> EmptyOnlyAtEnd(DropNuls(FileLines(s)[i]));
    assert |Joined(FileLines(s))| == |FileLines(s)| && Joined(FileLines(s))[i] == Join(FileLines(s)[i]);
    hide *;
    LinesOfFile(s);
    FileIsPlain(s);
    LineRoundTripIff(FileLines(s)[i]);
  }

  predicate CarriedBut(fields: seq<string>, shown: seq<string>, i: nat) {
    && CarriedLine(fields, shown) && i < |fields| && shown[i] == ""
    && forall j :: 0 <= j < |shown| && j != i ==> shown[j] != ""
  }

  /** One field of NULs only: its variable and all later ones read the field after theirs. */
  lemma FieldOfNulsShifts(fields: seq<string>, shown: seq<string>, i: nat)
    requires CarriedBut(fields, shown, i)
    ensures ReadVars(DropNul(Join(fields)), |fields|) == shown[..i] + shown[i + 1..] + [""]
  {
    assert |fields| == |shown| && i < |fields|;
    assert NoneEmpty(shown[..i]) && NoneEmpty(shown[i + 1..]);
    assert shown == shown[..i] + [""] + shown[i + 1..];
    assert CarriedLine(fields, shown);
    hide *;
    CarriedLineIsPlain(fields, shown);
    PackedSkips(shown[..i], shown[i + 1..]);
    DropNulOfJoin(fields);
    ReadJoined(shown, |fields|);
    OneBlank();
  }

  lemma OneBlank()
    ensures TabFields.Blank(1) == [""]
  {
    assert TabFields.Blank(0) == [];
  }

  lemma SixthAndSeventh(r: ProcessRate)
    ensures |ShownProcess(4, r)| == 12 && ShownProcess(4, r)[5] == Shown(r.workload.scope)
    ensures ShownProcess(4, r)[6] == Shown(r.workload.runtime)
  {
  }

  /** A scope of NULs only is printed as it is; the shell then takes the runtime for the scope. */
  lemma ScopeOfNulsReadsRuntime(r: ProcessRate)
    requires Shown(r.workload.scope) == "" && forall j :: 0 <= j < 12 && j != 5 ==> ShownProcess(4, r)[j] != ""
    ensures R.ProcessVars(Join(ProcessFields(4, r)), "4")[5] == Shown(r.workload.runtime)
  {
    SixthAndSeventh(r);
    hide Shown, ShownProcess, CarriedLine, ReadVars, DropNul, Join, ProcessFields;
    ProcessCarried4(r);
    assert CarriedBut(ProcessFields(4, r), ShownProcess(4, r), 5);
    hide CarriedBut;
    FieldOfNulsShifts(ProcessFields(4, r), ShownProcess(4, r), 5);
  }

  lemma {:induction false} PackedSkips(a: seq<string>, b: seq<string>)
    requires NoneEmpty(a) && NoneEmpty(b)
    ensures Packed(a + [""] + b) == a + b
  {
    if a == [] {
      PackedHasNoEmpty(b);
      assert (a + [""] + b)[1..] == b;
    } else {
      PackedSkips(a[1..], b);
      assert (a + [""] + b)[1..] == a[1..] + [""] + b;
      assert a == [a[0]] + a[1..];
    }
  }
}
