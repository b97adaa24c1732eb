/** The shell reader undoes the Go printer: for version 3 and 4 snapshots with arbitrary text fields, reading
    the written file gives back every row with its text normalised (internal/netmon/snapshot.go, lines 25-104;
    smon.sh, lines 345-411). */
module TextRoundTrip {
  import opened NetTypes
  import opened SnapshotTypes
  import opened Numerals
  import opened TabFields
  import opened Sorting
  import opened SnapshotText
  import R = SnapshotReader

  // ----- What the shell sees -----

  /** A text field, cleaned by the printer and without NULs. */
  function Shown(value: string): string {
    DropNul(CleanTSV(value))
  }

  predicate Tabular(version: nat) {
    version == 3 || version == 4
  }

  function VersionText(version: nat): string {
    if version == 4 then "4" else "3"
  }

  function ShownProcess(version: nat, r: ProcessRate): seq<string> {
    var w := r.workload;
    if version == 4 then
      ["P", Decimal(r.id.pid), Decimal(r.id.startTicks), Decimal(r.rate.rx), Decimal(r.rate.tx), Shown(w.scope), Shown(w.runtime),
       Shown(w.ns), Shown(w.pod), Shown(w.container), Shown(w.containerID), Shown(w.attribution)]
    else
      ["P", Decimal(r.id.pid), Decimal(r.id.startTicks), Decimal(r.rate.rx), Decimal(r.rate.tx), Shown(w.scope),
       Shown(w.ns), Shown(w.pod), Shown(w.container), Shown(w.containerID), Shown(w.attribution)]
  }

  function ShownEntity(version: nat, r: EntityRate): seq<string> {
    var w := r.workload;
    if version == 4 then
      ["C", Decimal(w.cgroupID), Shown(w.scope), Shown(w.runtime), Shown(w.ns), Shown(w.pod), Shown(w.container), Shown(w.containerID),
       Decimal(r.rate.rx), Decimal(r.rate.tx), Shown(w.attribution)]
    else
      ["C", Decimal(w.cgroupID), Shown(w.ns), Shown(w.pod), Shown(w.container), Shown(w.containerID),
       Decimal(r.rate.rx), Decimal(r.rate.tx), Shown(w.attribution)]
  }

  function ShownWorkload(w: Workload): seq<string> {
    ["W", Decimal(w.cgroupID), Shown(w.scope), Shown(w.runtime), Shown(w.ns), Shown(w.pod), Shown(w.container), Shown(w.containerID),
     Shown(w.cgroupPath), Shown(w.attribution)]
  }

  // ----- The normal form of a row -----

  function Normal(value: string): string {
    R.Undash(Shown(value))
  }

  function NormalProcess(version: nat, r: ProcessRate): R.ProcessEntry {
    var scope := R.UndashOr(Shown(r.workload.scope), "host");
    R.ProcessEntry(
      Decimal(r.id.startTicks), Decimal(r.rate.rx), Decimal(r.rate.tx), scope,
      if version == 4 then Normal(r.workload.runtime) else if scope == "pod" then "containerd" else "",
      Normal(r.workload.ns), Normal(r.workload.pod), Normal(r.workload.container), Normal(r.workload.containerID),
      Normal(r.workload.attribution))
  }

  /** Version 3 has no scope and runtime for containers. */
  function NormalWorkload(version: nat, w: Workload): R.WorkloadEntry {
    R.WorkloadEntry(
      if version == 4 then R.UndashOr(Shown(w.scope), "container") else "pod",
      if version == 4 then Normal(w.runtime) else "containerd",
      Normal(w.ns), Normal(w.pod), Normal(w.container))
  }

  function NormalEntity(version: nat, r: EntityRate): string {
    var w := NormalWorkload(version, r.workload);
    var attribution := Shown(r.workload.attribution);
    Join([Decimal(r.workload.cgroupID), w.scope, R.Dash(w.runtime), R.Dash(w.ns), R.Dash(w.pod), R.Dash(w.container),
          R.Dash(Normal(r.workload.containerID)), Decimal(r.rate.rx), Decimal(r.rate.tx),
          if attribution == "-" then "cgroup" else R.Dash(attribution)])
  }

  function WorkloadOf(p: R.ProcessEntry): R.WorkloadEntry {
    R.WorkloadEntry(p.scope, p.runtime, p.ns, p.pod, p.container)
  }

  function AddEntry(t: R.Tables, pid: string, p: R.ProcessEntry): R.Tables {
    R.WithWorkload(t.(processes := t.processes[pid := p]), p.containerID, WorkloadOf(p))
  }

  function AddProcess(t: R.Tables, r: ProcessRate, version: nat): R.Tables {
    AddEntry(t, Decimal(r.id.pid), NormalProcess(version, r))
  }

  function AddEntity(t: R.Tables, r: EntityRate, version: nat): R.Tables {
    R.WithWorkload(t.(entities := t.entities + [NormalEntity(version, r)]), Normal(r.workload.containerID),
                   NormalWorkload(version, r.workload))
  }

  function AddWorkload(t: R.Tables, w: Workload, version: nat): R.Tables {
    var cid := Normal(w.containerID);
    if cid == "" then t
    else R.WithWorkload(t.(paths := t.paths[cid := Normal(w.cgroupPath)]), cid, NormalWorkload(version, w))
  }

  /** The reader's tables, computed from the rows without going through text. */
  function NormalTables(s: Snapshot): R.Tables {
    var t := R.Pass(R.NO_ENTRIES, s.processes, s.version, AddProcess);
    var t' := R.Pass(t, s.entities, s.version, AddEntity);
    if s.version == 4 then R.Pass(t', s.workloads, s.version, AddWorkload) else t'
  }

  // ----- Fields -----

  /** `field` stands in the file and the shell sees `shown`. */
  predicate Carried(field: string, shown: string) {
    Plain(field) && DropNul(field) == shown
  }

  predicate CarriedLine(fields: seq<string>, shown: seq<string>) {
    |fields| == |shown| && forall i :: 0 <= i < |fields| ==> Carried(fields[i], shown[i])
  }

  /** A line whose fields stay in their places: none that consists of NULs only stands before one that does not. */
  predicate LegibleLine(fields: seq<string>) {
    EmptyOnlyAtEnd(DropNuls(fields))
  }

  predicate LegibleSnapshot(s: Snapshot) {
    forall i :: 0 <= i < |FileLines(s)| ==> LegibleLine(FileLines(s)[i])
  }

  lemma {:induction false} NoNulsToDrop(text: string)
    requires NUL !in text
    ensures DropNul(text) == text
  {
    if text != "" {
      assert text[0] in text && text == [text[0]] + text[1..];
      NoNulsToDrop(text[1..]);
    }
  }

  lemma DecimalReadsBack(n: nat)
    ensures R.Number(Decimal(n)) == n
  {
    DecimalInverse(n);
  }

  lemma CleanCarried(value: string)
    ensures Carried(CleanTSV(value), Shown(value))
  {
    CleanIsPlain(value);
  }

  lemma DecimalCarried(n: nat)
    ensures Carried(Decimal(n), Decimal(n)) && IsDecimal(Decimal(n))
  {
    hide Decimal, Value;
    DecimalInverse(n);
    NoNulsToDrop(Decimal(n));
  }

  lemma PairCarried(t: Traffic)
    ensures Carried(Decimal(t.rx), Decimal(t.rx)) && Carried(Decimal(t.tx), Decimal(t.tx))
    ensures IsDecimal(Decimal(t.rx)) && IsDecimal(Decimal(t.tx))
  {
    hide *;
    DecimalCarried(t.rx);
    DecimalCarried(t.tx);
  }

  lemma WorkloadCarried(w: Workload)
    ensures Carried(CleanTSV(w.scope), Shown(w.scope)) && Carried(CleanTSV(w.runtime), Shown(w.runtime))
    ensures Carried(CleanTSV(w.ns), Shown(w.ns)) && Carried(CleanTSV(w.pod), Shown(w.pod))
    ensures Carried(CleanTSV(w.container), Shown(w.container)) && Carried(CleanTSV(w.containerID), Shown(w.containerID))
    ensures Carried(CleanTSV(w.cgroupPath), Shown(w.cgroupPath)) && Carried(CleanTSV(w.attribution), Shown(w.attribution))
  {
    hide *;
    CleanCarried(w.scope);
    CleanCarried(w.runtime);
    CleanCarried(w.ns);
    CleanCarried(w.pod);
    CleanCarried(w.container);
    CleanCarried(w.containerID);
    CleanCarried(w.cgroupPath);
    CleanCarried(w.attribution);
  }

  lemma KindCarried(kind: string)
    requires kind == "M" || kind == "P" || kind == "C" || kind == "W"
    ensures Carried(kind, kind)
  {
    assert DropNul(kind) == kind by {
      assert kind[1..] == "";
    }
  }

  lemma CarriedLineIsPlain(fields: seq<string>, shown: seq<string>)
    requires CarriedLine(fields, shown)
    ensures PlainLine(fields) && DropNuls(fields) == shown
  {
    hide Plain, DropNul;
    assert forall i :: 0 <= i < |fields| ==> Carried(fields[i], shown[i]);
  }

  /** Into as many variables as there are fields, each variable reads its own field. */
  lemma ReadsCarried(fields: seq<string>, shown: seq<string>)
    requires CarriedLine(fields, shown) && LegibleLine(fields)
    ensures ReadVars(DropNul(Join(fields)), |fields|) == shown
  {
    assert EmptyOnlyAtEnd(DropNuls(fields));
    hide *;
    CarriedLineIsPlain(fields, shown);
    LineRoundTripIff(fields);
  }

  /** What every reading variable list starts with. */
  function Kind(line: string): string {
    ReadVars(DropNul(line), 2)[0]
  }

  /** The first variable tells what kind of line it is, however many variables there are. */
  lemma KindIsFirst(fields: seq<string>, shown: seq<string>)
    requires CarriedLine(fields, shown) && |shown| > 1 && shown[0] != ""
    ensures Kind(Join(fields)) == shown[0]
  {
    assert Plain(shown[0]) by {
      assert Carried(fields[0], shown[0]);
      DropNulPlain(fields[0]);
    }
    assert |fields| == |shown|;
    hide ReadVars, DropNul, CarriedLine, Join, Carried;
    CarriedLineIsPlain(fields, shown);
    DropNulOfJoin(fields);
    assert Join(shown) == shown[0] + [TAB] + Join(shown[1..]) by {
      JoinOfMany(shown);
    }
    ReadWord(shown[0], Join(shown[1..]), 2);
  }

  lemma JoinOfMany(fields: seq<string>)
    requires |fields| > 1
    ensures Join(fields) == fields[0] + [TAB] + Join(fields[1..])
  {
  }

  // ----- Process lines -----

  lemma ProcessCarried4(r: ProcessRate)
    ensures CarriedLine(ProcessFields(4, r), ShownProcess(4, r)) && |ProcessFields(4, r)| == 12
  {
    hide Carried, Shown, CleanTSV, Decimal;
    KindCarried("P");
    DecimalCarried(r.id.pid);
    DecimalCarried(r.id.startTicks);
    PairCarried(r.rate);
    WorkloadCarried(r.workload);
  }

  lemma ProcessCarried3(r: ProcessRate)
    ensures CarriedLine(ProcessFields(3, r), ShownProcess(3, r)) && |ProcessFields(3, r)| == 11
  {
    hide Carried, Shown, CleanTSV, Decimal;
    KindCarried("P");
    DecimalCarried(r.id.pid);
    DecimalCarried(r.id.startTicks);
    PairCarried(r.rate);
    WorkloadCarried(r.workload);
  }

  lemma ProcessNumbers(version: nat, r: ProcessRate)
    ensures var v := ShownProcess(version, r);
            v[0] == "P" && v[1] == Decimal(r.id.pid) && R.AllDecimal(v[1..5])
  {
    hide Shown, Decimal, IsDecimal;
    DecimalCarried(r.id.pid);
    DecimalCarried(r.id.startTicks);
    PairCarried(r.rate);
  }

  lemma ProcessIsNormal(version: nat, r: ProcessRate)
    requires Tabular(version)
    ensures |ShownProcess(version, r)| == if version == 4 then 12 else 11
    ensures R.ProcessOf(ShownProcess(version, r), VersionText(version)) == NormalProcess(version, r)
  {
    hide Shown, Decimal;
  }

  /** A line of four numbers behind a "P" adds one entry. */
  lemma ProcessLineAdds(t: R.Tables, line: string, version: string, v: seq<string>)
    requires R.ProcessVars(line, version) == v && v[0] == "P" && R.AllDecimal(v[1..5])
    ensures R.AfterProcessLine(t, line, version) == AddEntry(t, v[1], R.ProcessOf(v, version))
  {
    hide R.ProcessVars, R.AllDecimal, R.ProcessOf, R.WithWorkload;
  }

  lemma VarsOfProcess(line: string, version: nat)
    requires Tabular(version)
    ensures R.ProcessVars(line, VersionText(version)) == ReadVars(DropNul(line), if version == 4 then 12 else 11)
  {
    hide ReadVars, DropNul;
  }

  lemma ProcessLineIsRead(t: R.Tables, version: nat, r: ProcessRate)
    requires Tabular(version) && LegibleLine(ProcessFields(version, r))
    ensures R.AfterProcessLine(t, Join(ProcessFields(version, r)), VersionText(version)) == AddProcess(t, r, version)
    ensures Kind(Join(ProcessFields(version, r))) == "P"
  {
    var fields, v := ProcessFields(version, r), ShownProcess(version, r);
    assert CarriedLine(fields, v) && |fields| == if version == 4 then 12 else 11 by {
      hide CarriedLine, ProcessFields, ShownProcess, LegibleLine;
      ProcessCarried3(r);
      ProcessCarried4(r);
    }
    assert AddProcess(t, r, version) == AddEntry(t, Decimal(r.id.pid), NormalProcess(version, r));
    hide *;
    ReadsCarried(fields, v);
    VarsOfProcess(Join(fields), version);
    ProcessNumbers(version, r);
    ProcessIsNormal(version, r);
    ProcessLineAdds(t, Join(fields), VersionText(version), v);
    KindIsFirst(fields, v);
  }

  // ----- Container lines -----

  lemma EntityCarried4(r: EntityRate)
    ensures CarriedLine(EntityFields(4, r), ShownEntity(4, r)) && |EntityFields(4, r)| == 11
  {
    hide Carried, Shown, CleanTSV, Decimal;
    KindCarried("C");
    DecimalCarried(r.workload.cgroupID);
    PairCarried(r.rate);
    WorkloadCarried(r.workload);
  }

  lemma EntityCarried3(r: EntityRate)
    ensures CarriedLine(EntityFields(3, r), ShownEntity(3, r)) && |EntityFields(3, r)| == 9
  {
    hide Carried, Shown, CleanTSV, Decimal;
    KindCarried("C");
    DecimalCarried(r.workload.cgroupID);
    PairCarried(r.rate);
    WorkloadCarried(r.workload);
  }

  lemma EntityLineAdds4(t: R.Tables, line: string, r: EntityRate)
    requires ReadVars(DropNul(line), 11) == ShownEntity(4, r)
    ensures R.AfterEntityLine(t, line, "4") == AddEntity(t, r, 4)
  {
    hide Shown, Decimal, IsDecimal, ReadVars, DropNul, Join, R.WithWorkload;
    DecimalCarried(r.workload.cgroupID);
    PairCarried(r.rate);
  }

  lemma EntityLineAdds3(t: R.Tables, line: string, r: EntityRate)
    requires ReadVars(DropNul(line), 9) == ShownEntity(3, r)
    ensures R.AfterEntityLine(t, line, "3") == AddEntity(t, r, 3)
  {
    hide Shown, Decimal, IsDecimal, ReadVars, DropNul, Join, R.WithWorkload;
    DecimalCarried(r.workload.cgroupID);
    PairCarried(r.rate);
  }

  lemma EntityKind(version: nat, r: EntityRate)
    ensures |ShownEntity(version, r)| > 1 && ShownEntity(version, r)[0] == "C"
  {
  }

  lemma EntityLineIsRead(t: R.Tables, version: nat, r: EntityRate)
    requires Tabular(version) && LegibleLine(EntityFields(version, r))
    ensures R.AfterEntityLine(t, Join(EntityFields(version, r)), VersionText(version)) == AddEntity(t, r, version)
    ensures Kind(Join(EntityFields(version, r))) == "C"
  {
    var fields, v := EntityFields(version, r), ShownEntity(version, r);
    assert VersionText(version) == if version == 4 then "4" else "3";
    assert version == 3 || version == 4;
    hide *;
    EntityKind(version, r);
    if version == 4 {
      EntityCarried4(r);
      ReadsCarried(fields, v);
      EntityLineAdds4(t, Join(fields), r);
    } else {
      EntityCarried3(r);
      ReadsCarried(fields, v);
      EntityLineAdds3(t, Join(fields), r);
    }
    KindIsFirst(fields, v);
  }

  // ----- Workload lines -----

  lemma WorkloadLineCarried(w: Workload)
    ensures CarriedLine(WorkloadFields(w), ShownWorkload(w)) && |WorkloadFields(w)| == 10
    ensures ShownWorkload(w)[0] == "W"
  {
    hide Carried, Shown, CleanTSV, Decimal;
    KindCarried("W");
    DecimalCarried(w.cgroupID);
    WorkloadCarried(w);
  }

  lemma WorkloadLineAdds(t: R.Tables, line: string, w: Workload)
    requires ReadVars(DropNul(line), 10) == ShownWorkload(w)
    ensures R.AfterWorkloadLine(t, line, "4") == AddWorkload(t, w, 4)
  {
    hide Shown, Decimal, IsDecimal, ReadVars, DropNul;
    DecimalCarried(w.cgroupID);
  }

  lemma WorkloadLineIsRead(t: R.Tables, w: Workload)
    requires LegibleLine(WorkloadFields(w))
    ensures R.AfterWorkloadLine(t, Join(WorkloadFields(w)), "4") == AddWorkload(t, w, 4)
    ensures Kind(Join(WorkloadFields(w))) == "W"
  {
    hide *;
    WorkloadLineCarried(w);
    ReadsCarried(WorkloadFields(w), ShownWorkload(w));
    WorkloadLineAdds(t, Join(WorkloadFields(w)), w);
    KindIsFirst(WorkloadFields(w), ShownWorkload(w));
  }

  // ----- Passes -----

  lemma {:induction false} PassSplit<T, V>(t: R.Tables, a: seq<T>, b: seq<T>, version: V, add: (R.Tables, T, V) -> R.Tables)
    ensures R.Pass(t, a + b, version, add) == R.Pass(R.Pass(t, a, version, add), b, version, add)
  {
    if b == [] {
      assert a + b == a;
    } else {
      var n := |b| - 1;
      PassSplit(t, a, b[..n], version, add);
      assert (a + b)[..|a + b| - 1] == a + b[..n];
    }
  }

  lemma {:induction false} PassSkips<T, V>(t: R.Tables, items: seq<T>, version: V, add: (R.Tables, T, V) -> R.Tables)
    requires forall i, u :: 0 <= i < |items| ==> add(u, items[i], version) == u
    ensures R.Pass(t, items, version, add) == t
  {
    if items != [] {
      PassSkips(t, items[..|items| - 1], version, add);
    }
  }

  lemma {:induction false} PassMatches<T, V, T', V'>(
    t: R.Tables, items: seq<T>, version: V, add: (R.Tables, T, V) -> R.Tables,
    items': seq<T'>, version': V', add': (R.Tables, T', V') -> R.Tables)
    requires |items| == |items'|
    requires forall i, u :: 0 <= i < |items| ==> add(u, items[i], version) == add'(u, items'[i], version')
    ensures R.Pass(t, items, version, add) == R.Pass(t, items', version', add')
  {
    if items != [] {
      var n := |items| - 1;
      PassMatches(t, items[..n], version, add, items'[..n], version', add');
      assert items[..n + 1][n] == items[n];
    }
  }

  function Joined(lines: seq<seq<string>>): seq<string> {
    seq(|lines|, i requires 0 <= i < |lines| => Join(lines[i]))
  }

  lemma OtherKindsAddNothing(t: R.Tables, line: string, version: string)
    ensures Kind(line) != "P" ==> R.AfterProcessLine(t, line, version) == t
    ensures Kind(line) != "C" ==> R.AfterEntityLine(t, line, version) == t
    ensures Kind(line) != "W" ==> R.AfterWorkloadLine(t, line, version) == t
  {
    FirstOfAny(DropNul(line), 9);
    FirstOfAny(DropNul(line), 10);
    FirstOfAny(DropNul(line), 11);
    FirstOfAny(DropNul(line), 12);
    hide Join, DropNul, IsDecimal, R.AllDecimal, R.ProcessOf, R.WithWorkload, R.Entity, ReadVars;
  }

  lemma FirstOfAny(line: string, n: nat)
    requires n > 1
    ensures ReadVars(line, n)[0] == ReadVars(line, 2)[0]
  {
    hide Cut, SkipTabs;
  }

  lemma ProcessesAreRead(t: R.Tables, version: nat, rows: seq<ProcessRate>)
    requires Tabular(version) && forall i :: 0 <= i < |rows| ==> LegibleLine(ProcessFields(version, rows[i]))
    ensures var lines := Joined(ProcessLines(version, rows));
            && R.Pass(t, lines, VersionText(version), R.AfterProcessLine) == R.Pass(t, rows, version, AddProcess)
            && forall i :: 0 <= i < |lines| ==> Kind(lines[i]) == "P"
  {
    hide LegibleLine, Join, AddProcess, R.AfterProcessLine, ProcessFields, Kind;
    var lines := Joined(ProcessLines(version, rows));
    forall i, u | 0 <= i < |lines|
      ensures R.AfterProcessLine(u, lines[i], VersionText(version)) == AddProcess(u, rows[i], version)
      ensures Kind(lines[i]) == "P"
    {
      ProcessLineIsRead(u, version, rows[i]);
    }
    PassMatches(t, lines, VersionText(version), R.AfterProcessLine, rows, version, AddProcess);
    forall i | 0 <= i < |lines| ensures Kind(lines[i]) == "P" {
      ProcessLineIsRead(t, version, rows[i]);
    }
  }

  lemma EntitiesAreRead(t: R.Tables, version: nat, rows: seq<EntityRate>)
    requires Tabular(version) && forall i :: 0 <= i < |rows| ==> LegibleLine(EntityFields(version, rows[i]))
    ensures var lines := Joined(EntityLines(version, rows));
            && R.Pass(t, lines, VersionText(version), R.AfterEntityLine) == R.Pass(t, rows, version, AddEntity)
            && forall i :: 0 <= i < |lines| ==> Kind(lines[i]) == "C"
  {
    hide LegibleLine, Join, AddEntity, R.AfterEntityLine, EntityFields, Kind;
    var lines := Joined(EntityLines(version, rows));
    forall i, u | 0 <= i < |lines|
      ensures R.AfterEntityLine(u, lines[i], VersionText(version)) == AddEntity(u, rows[i], version)
    {
      EntityLineIsRead(u, version, rows[i]);
    }
    PassMatches(t, lines, VersionText(version), R.AfterEntityLine, rows, version, AddEntity);
    forall i | 0 <= i < |lines| ensures Kind(lines[i]) == "C" {
      EntityLineIsRead(t, version, rows[i]);
    }
  }

  lemma WorkloadsAreRead(t: R.Tables, version: nat, rows: seq<Workload>)
    requires version == 4 && forall i :: 0 <= i < |rows| ==> LegibleLine(WorkloadFields(rows[i]))
    ensures var lines := Joined(WorkloadLines(version, rows));
            && R.Pass(t, lines, "4", R.AfterWorkloadLine) == R.Pass(t, rows, version, AddWorkload)
            && forall i :: 0 <= i < |lines| ==> Kind(lines[i]) == "W"
  {
    hide LegibleLine, Join, AddWorkload, R.AfterWorkloadLine, WorkloadFields, Kind;
    var lines := Joined(WorkloadLines(version, rows));
    forall i, u | 0 <= i < |lines| ensures R.AfterWorkloadLine(u, lines[i], "4") == AddWorkload(u, rows[i], version) {
      WorkloadLineIsRead(u, rows[i]);
    }
    PassMatches(t, lines, "4", R.AfterWorkloadLine, rows, version, AddWorkload);
    forall i | 0 <= i < |lines| ensures Kind(lines[i]) == "W" {
      WorkloadLineIsRead(t, rows[i]);
    }
  }

  ghost predicate AllOfKind(lines: seq<string>, kind: string) {
    forall i :: 0 <= i < |lines| ==> Kind(lines[i]) == kind
  }

  lemma PassTakesFirst<V>(t: R.Tables, a: seq<string>, b: seq<string>, c: seq<string>, version: V,
                          add: (R.Tables, string, V) -> R.Tables, kind: string)
    requires forall u, line: string :: Kind(line) != kind ==> add(u, line, version) == u
    requires forall i :: 0 <= i < |b| ==> Kind(b[i]) != kind
    requires forall i :: 0 <= i < |c| ==> Kind(c[i]) != kind
    ensures R.Pass(t, a + b + c, version, add) == R.Pass(t, a, version, add)
  {
    hide Kind, R.Pass;
    PassSplit(t, a + b, c, version, add);
    PassSplit(t, a, b, version, add);
    PassSkips(R.Pass(t, a, version, add), b, version, add);
    PassSkips(R.Pass(t, a, version, add), c, version, add);
  }

  lemma PassTakesSecond<V>(t: R.Tables, a: seq<string>, b: seq<string>, c: seq<string>, version: V,
                           add: (R.Tables, string, V) -> R.Tables, kind: string)
    requires forall u, line: string :: Kind(line) != kind ==> add(u, line, version) == u
    requires forall i :: 0 <= i < |a| ==> Kind(a[i]) != kind
    requires forall i :: 0 <= i < |c| ==> Kind(c[i]) != kind
    ensures R.Pass(t, a + b + c, version, add) == R.Pass(t, b, version, add)
  {
    hide Kind, R.Pass;
    PassSplit(t, a + b, c, version, add);
    PassSplit(t, a, b, version, add);
    PassSkips(t, a, version, add);
    PassSkips(R.Pass(t, b, version, add), c, version, add);
  }

  lemma PassTakesThird<V>(t: R.Tables, a: seq<string>, b: seq<string>, c: seq<string>, version: V,
                          add: (R.Tables, string, V) -> R.Tables, kind: string)
    requires forall u, line: string :: Kind(line) != kind ==> add(u, line, version) == u
    requires forall i :: 0 <= i < |a| ==> Kind(a[i]) != kind
    requires forall i :: 0 <= i < |b| ==> Kind(b[i]) != kind
    ensures R.Pass(t, a + b + c, version, add) == R.Pass(t, c, version, add)
  {
    hide Kind, R.Pass;
    PassSplit(t, a + b, c, version, add);
    PassSplit(t, a, b, version, add);
    PassSkips(t, a, version, add);
    PassSkips(t, b, version, add);
  }

  /** Each pass takes up the lines of its own kind and passes over the two others. */
  lemma PassesOverKinds(t: R.Tables, a: seq<string>, b: seq<string>, c: seq<string>, version: string)
    requires AllOfKind(a, "P") && AllOfKind(b, "C") && AllOfKind(c, "W")
    ensures R.Pass(t, a + b + c, version, R.AfterProcessLine) == R.Pass(t, a, version, R.AfterProcessLine)
    ensures R.Pass(t, a + b + c, version, R.AfterEntityLine) == R.Pass(t, b, version, R.AfterEntityLine)
    ensures R.Pass(t, a + b + c, version, R.AfterWorkloadLine) == R.Pass(t, c, version, R.AfterWorkloadLine)
  {
    hide Kind, R.AfterProcessLine, R.AfterEntityLine, R.AfterWorkloadLine, R.Pass;
    forall u, line: string
      ensures Kind(line) != "P" ==> R.AfterProcessLine(u, line, version) == u
      ensures Kind(line) != "C" ==> R.AfterEntityLine(u, line, version) == u
      ensures Kind(line) != "W" ==> R.AfterWorkloadLine(u, line, version) == u
    {
      OtherKindsAddNothing(u, line, version);
    }
    assert "P" != "C" && "C" != "W" && "W" != "P";
    PassTakesFirst(t, a, b, c, version, R.AfterProcessLine, "P");
    PassTakesSecond(t, a, b, c, version, R.AfterEntityLine, "C");
    PassTakesThird(t, a, b, c, version, R.AfterWorkloadLine, "W");
  }

  ghost predicate LegibleRows(s: Snapshot) {
    && (forall i :: 0 <= i < |s.processes| ==> LegibleLine(ProcessFields(s.version, s.processes[i])))
    && (forall i :: 0 <= i < |s.entities| ==> LegibleLine(EntityFields(s.version, s.entities[i])))
    && (s.version == 4 ==> forall i :: 0 <= i < |s.workloads| ==> LegibleLine(WorkloadFields(s.workloads[i])))
  }

  lemma JoinedConcat(a: seq<seq<string>>, b: seq<seq<string>>)
    ensures Joined(a + b) == Joined(a) + Joined(b)
  {
    hide Join;
  }

  lemma ThirdPass(t: R.Tables, s: Snapshot)
    requires Tabular(s.version) && LegibleRows(s)
    ensures var lines := Joined(WorkloadLines(s.version, s.workloads));
            && AllOfKind(lines, "W")
            && R.Pass(t, lines, VersionText(s.version), R.AfterWorkloadLine)
               == if s.version == 4 then R.Pass(t, s.workloads, s.version, AddWorkload) else t
  {
    hide Kind, R.AfterWorkloadLine, AddWorkload, WorkloadFields, LegibleLine, Join;
    if s.version == 4 {
      WorkloadsAreRead(t, s.version, s.workloads);
    } else {
      assert Joined(WorkloadLines(s.version, s.workloads)) == [];
    }
  }

  lemma RowsAreRead(s: Snapshot)
    requires Tabular(s.version) && LegibleRows(s)
    ensures R.AfterPasses(Joined(RowLines(s)), VersionText(s.version)) == NormalTables(s)
  {
    var version := VersionText(s.version);
    var a := Joined(ProcessLines(s.version, s.processes));
    var b := Joined(EntityLines(s.version, s.entities));
    var c := Joined(WorkloadLines(s.version, s.workloads));
    var t := R.Pass(R.NO_ENTRIES, s.processes, s.version, AddProcess);
    var t' := R.Pass(t, s.entities, s.version, AddEntity);
    hide LegibleLine, Kind, R.AfterProcessLine, R.AfterEntityLine, R.AfterWorkloadLine, R.Pass, ProcessLines, EntityLines,
         WorkloadLines, AddProcess, AddEntity, AddWorkload, Joined, ProcessFields, EntityFields, WorkloadFields;
    JoinedConcat(ProcessLines(s.version, s.processes), EntityLines(s.version, s.entities));
    JoinedConcat(ProcessLines(s.version, s.processes) + EntityLines(s.version, s.entities), WorkloadLines(s.version, s.workloads));
    ProcessesAreRead(R.NO_ENTRIES, s.version, s.processes);
    EntitiesAreRead(t, s.version, s.entities);
    ThirdPass(t', s);
    PassesOverKinds(R.NO_ENTRIES, a, b, c, version);
    PassesOverKinds(t, a, b, c, version);
    PassesOverKinds(t', a, b, c, version);
  }

  // ----- The first line -----

  function ShownPair(t: Traffic): seq<string> {
    [Decimal(t.rx), Decimal(t.tx)]
  }

  function ShownHead(s: Snapshot): seq<string> {
    ["M", Decimal(s.version), Decimal(s.unixMilli), Decimal(s.intervalMS), DropNul(s.iface)]
  }

  function ShownCounts(s: Snapshot): seq<string> {
    [Decimal(s.packets), Decimal(s.drops)]
  }

  function ShownReasons(s: Snapshot): seq<string> {
    ShownPair(s.unsupported) + ShownPair(s.unmatched) + ShownPair(s.ambiguous) + ShownPair(s.exited)
  }

  function ShownStatus(s: Snapshot): seq<string> {
    [Shown(s.source), Shown(s.status), Shown(s.scope), Shown(s.reason)]
  }

  function ShownMeta(s: Snapshot): seq<string> {
    ShownHead(s) + ShownPair(s.captured) + ShownPair(s.unknown) + ShownCounts(s) + ShownReasons(s) + ShownStatus(s)
  }

  function NormalMeta(s: Snapshot): R.Meta {
    R.Meta("M", Decimal(s.version), Decimal(s.unixMilli), Decimal(s.intervalMS), DropNul(s.iface),
           Decimal(s.captured.rx), Decimal(s.captured.tx), Decimal(s.unknown.rx), Decimal(s.unknown.tx),
           Decimal(s.packets), Decimal(s.drops), ShownReasons(s),
           Shown(s.source), Shown(s.status), Shown(s.scope), Shown(s.reason))
  }

  lemma CarriedConcat(a: seq<string>, x: seq<string>, b: seq<string>, y: seq<string>)
    requires CarriedLine(a, x) && CarriedLine(b, y)
    ensures CarriedLine(a + b, x + y)
  {
    hide Carried;
  }

  lemma PairLineCarried(t: Traffic)
    ensures CarriedLine(Pair(t), ShownPair(t))
  {
    hide Carried, Decimal;
    PairCarried(t);
  }

  lemma HeadCarried(s: Snapshot)
    requires Plain(s.iface)
    ensures CarriedLine(["M", Decimal(s.version), Decimal(s.unixMilli), Decimal(s.intervalMS), s.iface], ShownHead(s))
  {
    assert Carried(s.iface, DropNul(s.iface));
    hide Carried, Decimal, DropNul;
    KindCarried("M");
    DecimalCarried(s.version);
    DecimalCarried(s.unixMilli);
    DecimalCarried(s.intervalMS);
  }

  lemma CountsCarried(s: Snapshot)
    ensures CarriedLine([Decimal(s.packets), Decimal(s.drops)], ShownCounts(s))
  {
    hide Decimal, Carried;
    DecimalCarried(s.packets);
    DecimalCarried(s.drops);
  }

  lemma StatusCarried(s: Snapshot)
    ensures CarriedLine([CleanTSV(s.source), CleanTSV(s.status), CleanTSV(s.scope), CleanTSV(s.reason)], ShownStatus(s))
  {
    hide CleanTSV, Shown, Carried;
    CleanCarried(s.source);
    CleanCarried(s.status);
    CleanCarried(s.scope);
    CleanCarried(s.reason);
  }

  lemma ReasonsCarried(s: Snapshot)
    ensures CarriedLine(Pair(s.unsupported) + Pair(s.unmatched) + Pair(s.ambiguous) + Pair(s.exited), ShownReasons(s))
  {
    hide CarriedLine, Pair, ShownPair;
    PairLineCarried(s.unsupported);
    PairLineCarried(s.unmatched);
    PairLineCarried(s.ambiguous);
    PairLineCarried(s.exited);
    CarriedConcat(Pair(s.unsupported), ShownPair(s.unsupported), Pair(s.unmatched), ShownPair(s.unmatched));
    CarriedConcat(Pair(s.unsupported) + Pair(s.unmatched), ShownPair(s.unsupported) + ShownPair(s.unmatched),
                  Pair(s.ambiguous), ShownPair(s.ambiguous));
    CarriedConcat(Pair(s.unsupported) + Pair(s.unmatched) + Pair(s.ambiguous),
                  ShownPair(s.unsupported) + ShownPair(s.unmatched) + ShownPair(s.ambiguous), Pair(s.exited), ShownPair(s.exited));
  }

  /** The first line, in its six parts. */
  lemma MetaParts(s: Snapshot)
    requires Tabular(s.version)
    ensures MetaFields(s) == ["M", Decimal(s.version), Decimal(s.unixMilli), Decimal(s.intervalMS), s.iface]
      + Pair(s.captured) + Pair(s.unknown) + [Decimal(s.packets), Decimal(s.drops)]
      + (Pair(s.unsupported) + Pair(s.unmatched) + Pair(s.ambiguous) + Pair(s.exited))
      + [CleanTSV(s.source), CleanTSV(s.status), CleanTSV(s.scope), CleanTSV(s.reason)]
  {
    hide Pair, CleanTSV, Decimal;
  }

  lemma MetaCarried(s: Snapshot)
    requires Tabular(s.version) && Plain(s.iface)
    ensures CarriedLine(MetaFields(s), ShownMeta(s))
  {
    var head := ["M", Decimal(s.version), Decimal(s.unixMilli), Decimal(s.intervalMS), s.iface];
    var counts := [Decimal(s.packets), Decimal(s.drops)];
    var reasons := Pair(s.unsupported) + Pair(s.unmatched) + Pair(s.ambiguous) + Pair(s.exited);
    var status := [CleanTSV(s.source), CleanTSV(s.status), CleanTSV(s.scope), CleanTSV(s.reason)];
    assert ShownMeta(s) == ShownHead(s) + ShownPair(s.captured) + ShownPair(s.unknown) + ShownCounts(s) + ShownReasons(s) + ShownStatus(s);
    hide *;
    MetaParts(s);
    HeadCarried(s);
    PairLineCarried(s.captured);
    PairLineCarried(s.unknown);
    CountsCarried(s);
    ReasonsCarried(s);
    StatusCarried(s);
    CarriedConcat(head, ShownHead(s), Pair(s.captured), ShownPair(s.captured));
    CarriedConcat(head + Pair(s.captured), ShownHead(s) + ShownPair(s.captured), Pair(s.unknown), ShownPair(s.unknown));
    var left := head + Pair(s.captured) + Pair(s.unknown);
    var shownLeft := ShownHead(s) + ShownPair(s.captured) + ShownPair(s.unknown);
    CarriedConcat(left, shownLeft, counts, ShownCounts(s));
    CarriedConcat(left + counts, shownLeft + ShownCounts(s), reasons, ShownReasons(s));
    CarriedConcat(left + counts + reasons, shownLeft + ShownCounts(s) + ShownReasons(s), status, ShownStatus(s));
  }

  lemma MetaOfShown(s: Snapshot)
    ensures |ShownMeta(s)| == 23
    ensures var v := ShownMeta(s);
            R.Meta(v[0], v[1], v[2], v[3], v[4], v[5], v[6], v[7], v[8], v[9], v[10], v[11..19], v[19], v[20], v[21], v[22])
            == NormalMeta(s)
  {
    hide Decimal, Shown, DropNul;
    assert |ShownReasons(s)| == 8 && ShownMeta(s)[11..19] == ShownReasons(s);
  }

  lemma MetaFromVars(line: string, v: seq<string>)
    requires |v| == 23 && ReadVars(DropNul(line), 23) == v
    ensures R.ReadMeta(line)
      == R.Meta(v[0], v[1], v[2], v[3], v[4], v[5], v[6], v[7], v[8], v[9], v[10], v[11..19], v[19], v[20], v[21], v[22])
  {
    hide ReadVars, DropNul;
  }

  /** Only the first line need be legible. */
  lemma MetaIsRead(s: Snapshot)
    requires Tabular(s.version) && Plain(s.iface) && LegibleLine(MetaFields(s))
    ensures R.ReadMeta(Join(MetaFields(s))) == NormalMeta(s)
  {
    assert CarriedLine(MetaFields(s), ShownMeta(s)) ==> |MetaFields(s)| == |ShownMeta(s)|;
    hide *;
    MetaCarried(s);
    MetaOfShown(s);
    ReadsCarried(MetaFields(s), ShownMeta(s));
    MetaFromVars(Join(MetaFields(s)), ShownMeta(s));
  }

  // ----- The whole file -----

  lemma ProcessLineIsPlain(version: nat, r: ProcessRate)
    ensures PlainLine(ProcessFields(version, r))
  {
    hide Plain, CleanTSV, Decimal;
    assert Plain("P") by {
      KindIsPlain();
    }
    WorkloadIsPlain(r.workload);
    DecimalIsPlain(r.id.pid);
    DecimalIsPlain(r.id.startTicks);
    PairIsPlain(r.rate);
  }

  lemma KindIsPlain()
    ensures Plain("P") && Plain("C") && Plain("W") && Plain("M")
  {
  }

  lemma PairIsPlain(t: Traffic)
    ensures Plain(Decimal(t.rx)) && Plain(Decimal(t.tx))
  {
    hide Plain, Decimal;
    DecimalIsPlain(t.rx);
    DecimalIsPlain(t.tx);
  }

  lemma WorkloadIsPlain(w: Workload)
    ensures Plain(CleanTSV(w.scope)) && Plain(CleanTSV(w.runtime)) && Plain(CleanTSV(w.ns)) && Plain(CleanTSV(w.pod))
    ensures Plain(CleanTSV(w.container)) && Plain(CleanTSV(w.containerID)) && Plain(CleanTSV(w.cgroupPath))
    ensures Plain(CleanTSV(w.attribution))
  {
    hide Plain, CleanTSV;
    CleanIsPlain(w.scope);
    CleanIsPlain(w.runtime);
    CleanIsPlain(w.ns);
    CleanIsPlain(w.pod);
    CleanIsPlain(w.container);
    CleanIsPlain(w.containerID);
    CleanIsPlain(w.cgroupPath);
    CleanIsPlain(w.attribution);
  }

  lemma EntityLineIsPlain(version: nat, r: EntityRate)
    ensures PlainLine(EntityFields(version, r))
  {
    hide Plain, CleanTSV, Decimal;
    KindIsPlain();
    WorkloadIsPlain(r.workload);
    DecimalIsPlain(r.workload.cgroupID);
    PairIsPlain(r.rate);
  }

  lemma WorkloadLineIsPlain(w: Workload)
    ensures PlainLine(WorkloadFields(w))
  {
    hide Plain, CleanTSV, Decimal;
    KindIsPlain();
    WorkloadIsPlain(w);
    DecimalIsPlain(w.cgroupID);
  }

  lemma RowsArePlain(s: Snapshot)
    ensures forall i :: 0 <= i < |RowLines(s)| ==> PlainLine(RowLines(s)[i])
  {
    hide PlainLine, ProcessFields, EntityFields, WorkloadFields;
    forall r: ProcessRate ensures PlainLine(ProcessFields(s.version, r)) {
      ProcessLineIsPlain(s.version, r);
    }
    forall r: EntityRate ensures PlainLine(EntityFields(s.version, r)) {
      EntityLineIsPlain(s.version, r);
    }
    forall w: Workload ensures PlainLine(WorkloadFields(w)) {
      WorkloadLineIsPlain(w);
    }
  }

  lemma MetaIsPlain(s: Snapshot)
    requires Plain(s.iface)
    ensures PlainLine(MetaFields(s))
  {
    hide CleanTSV, Decimal;
    forall v: string ensures Plain(CleanTSV(v)) {
      CleanIsPlain(v);
    }
    forall n: nat ensures Plain(Decimal(n)) {
      DecimalIsPlain(n);
    }
    assert Plain("M");
    hide Plain;
  }

  lemma FileIsPlain(s: Snapshot)
    requires Plain(s.iface)
    ensures forall i :: 0 <= i < |FileLines(s)| ==> PlainLine(FileLines(s)[i])
  {
    hide PlainLine, MetaFields, RowLines;
    MetaIsPlain(s);
    RowsArePlain(s);
  }

  /** The text has one line per row after the first, and exactly these; text fields cannot break a line. */
  lemma LinesOfFile(s: Snapshot)
    requires Plain(s.iface)
    ensures LinesOf(Text(FileLines(s))) == Joined(FileLines(s))
    ensures |FileLines(s)| == 1 + |s.processes| + |s.entities| + if s.version >= 4 then |s.workloads| else 0
  {
    hide PlainLine, Join, LinesOf, Text, MetaFields, ProcessFields, EntityFields, WorkloadFields, Plain;
    FileIsPlain(s);
    LinesOfText(FileLines(s));
  }

  /** At most three intervals and two seconds old; at least three seconds are granted. */
  predicate Fresh(s: Snapshot, now: nat) {
    now <= s.unixMilli / 1000 + 3 || now <= s.unixMilli / 1000 + s.intervalMS * 3 / 1000 + 2
  }

  lemma NumbersAreDecimal(s: Snapshot)
    ensures var m := NormalMeta(s);
            && R.AllDecimal([m.ts, m.interval, m.capRx, m.capTx, m.unknownRx, m.unknownTx, m.packets, m.drops])
            && R.AllDecimal(m.reasons)
  {
    hide Decimal, Shown, IsDecimal, DropNul;
    DecimalCarried(s.unixMilli);
    DecimalCarried(s.intervalMS);
    DecimalCarried(s.packets);
    DecimalCarried(s.drops);
    PairCarried(s.captured);
    PairCarried(s.unknown);
    PairCarried(s.unsupported);
    PairCarried(s.unmatched);
    PairCarried(s.ambiguous);
    PairCarried(s.exited);
  }

  lemma AgeOfMeta(s: Snapshot, now: nat)
    ensures R.Age(NormalMeta(s), now) <= R.MaxAge(NormalMeta(s)) <==> Fresh(s, now)
  {
    hide Decimal, Shown, DropNul, R.Number;
    DecimalReadsBack(s.unixMilli);
    DecimalReadsBack(s.intervalMS);
  }

  lemma VersionIsShown(s: Snapshot)
    requires Tabular(s.version)
    ensures NormalMeta(s).version == VersionText(s.version) && R.KnownVersion(NormalMeta(s).version)
    ensures NormalMeta(s).kind == "M" && NormalMeta(s).iface == DropNul(s.iface)
  {
    hide Shown, DropNul;
  }

  lemma AcceptedIff(s: Snapshot, netif: string, now: nat)
    requires Tabular(s.version)
    ensures R.Check(NormalMeta(s), netif, now).None? <==> netif == DropNul(s.iface) && Fresh(s, now)
  {
    hide NormalMeta, R.AllDecimal, R.KnownVersion, R.Age, R.MaxAge, Fresh, DropNul;
    VersionIsShown(s);
    NumbersAreDecimal(s);
    AgeOfMeta(s, now);
  }

  lemma LegibleFile(s: Snapshot)
    requires Tabular(s.version) && LegibleSnapshot(s)
    ensures LegibleLine(MetaFields(s)) && LegibleRows(s)
  {
    hide LegibleLine, MetaFields, ProcessFields, EntityFields, WorkloadFields;
    var p, c := |s.processes|, |s.entities|;
    assert FileLines(s)[0] == MetaFields(s);
    forall i | 0 <= i < p ensures LegibleLine(ProcessFields(s.version, s.processes[i])) {
      assert FileLines(s)[1 + i] == ProcessFields(s.version, s.processes[i]);
    }
    forall i | 0 <= i < c ensures LegibleLine(EntityFields(s.version, s.entities[i])) {
      assert FileLines(s)[1 + p + i] == EntityFields(s.version, s.entities[i]);
    }
    if s.version == 4 {
      forall i | 0 <= i < |s.workloads| ensures LegibleLine(WorkloadFields(s.workloads[i])) {
        assert FileLines(s)[1 + p + c + i] == WorkloadFields(s.workloads[i]);
      }
    }
  }

  /** Reading undoes printing: the first line gives back the header, the others the normalised rows. */
  lemma SnapshotRoundTrip(s: Snapshot)
    requires Tabular(s.version) && Plain(s.iface) && LegibleSnapshot(s)
    ensures var lines := LinesOf(Text(FileLines(s)));
            && lines != [] && R.ReadMeta(lines[0]) == NormalMeta(s)
            && R.AfterPasses(lines[1..], NormalMeta(s).version) == NormalTables(s)
  {
    assert Joined(FileLines(s)) == [Join(MetaFields(s))] + Joined(RowLines(s)) by {
      hide MetaFields, RowLines, Join;
    }
    hide *;
    LinesOfFile(s);
    LegibleFile(s);
    MetaIsRead(s);
    VersionIsShown(s);
    RowsAreRead(s);
    var lines := LinesOf(Text(FileLines(s)));
    assert lines[1..] == Joined(RowLines(s));
  }

  /** The front end reading what the collector wrote, at any later time: it takes the rows over iff the
      interface is its own and the file is fresh, and falls back to nothing otherwise. */
  method WriteThenLoad(snapshot: Snapshot, reader: R.NetSnapshot, netif: string, now: nat, interval: string, why: string)
    returns (failure: Option<R.Failure>, ghost sorted: Snapshot)
    requires Tabular(snapshot.version) && Plain(snapshot.iface) && LegibleSnapshot(snapshot)
    modifies reader
    ensures IsSorted(sorted, snapshot)
    ensures failure.None? <==> netif == DropNul(snapshot.iface) && Fresh(snapshot, now)
    ensures failure.None? ==> reader.tables == NormalTables(sorted) && reader.HasMeta(NormalMeta(snapshot))
    ensures failure.Some? ==> reader.IsFallback(interval)
  {
    hide IsSorted, FileLines, Text, LinesOf, R.AfterPasses, NormalTables, Fresh, R.Check, R.ReadMeta, LegibleSnapshot, NormalMeta, Plain;
    var text := WriteSnapshot(snapshot);
    sorted :| IsSorted(sorted, snapshot) && text == Text(FileLines(sorted));
    SortedIsLegible(sorted, snapshot);
    SnapshotRoundTrip(sorted);
    AcceptedIff(snapshot, netif, now);
    failure := reader.Load(Some(text), netif, now, interval, why);
  }

  lemma SortedHeader(sorted: Snapshot, s: Snapshot)
    requires IsSorted(sorted, s)
    ensures sorted.version == s.version && sorted.iface == s.iface && NormalMeta(sorted) == NormalMeta(s)
    ensures MetaFields(sorted) == MetaFields(s)
  {
    hide IsSortOf, CleanTSV, Decimal, Shown, DropNul;
  }

  lemma SortedIsLegible(sorted: Snapshot, s: Snapshot)
    requires Tabular(s.version) && IsSorted(sorted, s) && LegibleSnapshot(s)
    ensures LegibleSnapshot(sorted) && sorted.version == s.version && sorted.iface == s.iface && NormalMeta(sorted) == NormalMeta(s)
  {
    hide LegibleSnapshot, LegibleLine, MetaFields, ProcessFields, EntityFields, WorkloadFields, NormalMeta, FileLines;
    SortedHeader(sorted, s);
    LegibleFile(s);
    forall i | 0 <= i < |sorted.processes| ensures LegibleLine(ProcessFields(s.version, sorted.processes[i])) {
      assert sorted.processes[i] in multiset(s.processes);
    }
    forall i | 0 <= i < |sorted.entities| ensures LegibleLine(EntityFields(s.version, sorted.entities[i])) {
      assert sorted.entities[i] in multiset(s.entities);
    }
    if s.version == 4 {
      forall i | 0 <= i < |sorted.workloads| ensures LegibleLine(WorkloadFields(sorted.workloads[i])) {
        assert sorted.workloads[i] in multiset(s.workloads);
      }
    }
    LegibleFromRows(sorted);
  }

  lemma LegibleFromRows(s: Snapshot)
    requires Tabular(s.version) && LegibleLine(MetaFields(s)) && LegibleRows(s)
    ensures LegibleSnapshot(s)
  {
    hide LegibleLine, MetaFields, ProcessFields, EntityFields, WorkloadFields;
  }
}
