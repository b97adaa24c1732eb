/** What the front end shows for what the collector knew, said without the reader's and the printer's own
    functions (internal/netmon/snapshot.go, lines 25-104; smon.sh, lines 345-436). */
module ReadBack {
  import opened NetTypes
  import opened SnapshotTypes
  import opened Numerals
  import opened TabFields
  import opened SnapshotText
  import opened TextRoundTrip
  import opened ReadTables
  import R = SnapshotReader

  /** `text` is shown for `value`: the same characters with a space for each tab and line break, or `absent` for
      nothing, of which a dash is the written form. */
  predicate Reads(value: string, text: string, absent: string) {
    if value == "" || value == "-" then text == absent
    else
      && |text| == |value|
      && forall i :: 0 <= i < |value| ==>
           text[i] == if value[i] == '\t' || value[i] == '\r' || value[i] == '\n' then ' ' else value[i]
  }

  // ----- One field -----

  lemma CleanedReads(value: string)
    requires NUL !in value
    ensures Reads(value, Shown(value), "-")
    ensures Shown(value) != "" && (Shown(value) == "-" <==> value == "" || value == "-")
  {
    var clean := CleanTSV(value);
    assert NUL !in clean;
    NoNulsToDrop(clean);
    assert value != "" ==> clean[0] == Cleaned(value[0]);
    if clean == "-" && value != "" {
      assert value == [value[0]];
    }
  }

  lemma FieldReads(value: string, default: string)
    requires NUL !in value
    ensures Reads(value, Normal(value), "") && Reads(value, R.UndashOr(Shown(value), default), default)
    ensures Reads(value, R.Dash(Normal(value)), "-")
    ensures Reads(value, if Shown(value) == "-" then default else R.Dash(Shown(value)), default)
  {
    hide Shown;
    CleanedReads(value);
  }

  lemma {:induction false} DropNulCleans(value: string)
    requires value != ""
    ensures DropNul(CleanTSV(value)) == if DropNul(value) == "" then "" else CleanTSV(DropNul(value))
  {
    hide *;
    var c, rest := value[0], value[1..];
    var tail := if rest == "" then "" else CleanTSV(rest);
    assert value == [c] + rest;
    CleanOneMore(c, rest);
    DropOneMore(c, rest);
    DropOneMore(Cleaned(c), tail);
    assert DropNul(CleanTSV(value)) == (if c == NUL then "" else [Cleaned(c)]) + DropNul(tail);
    if rest != "" {
      DropNulCleans(rest);
    }
    var left := DropNul(rest);
    CleanOneMore(c, left);
    if c == NUL {
      assert DropNul(value) == left;
    } else {
      assert DropNul(value) == [c] + left;
      assert CleanTSV([c] + left) == [Cleaned(c)] + if left == "" then "" else CleanTSV(left);
    }
  }

  lemma CleanOneMore(c: char, rest: string)
    ensures CleanTSV([c] + rest) == [Cleaned(c)] + if rest == "" then "" else CleanTSV(rest)
    ensures Cleaned(c) == NUL <==> c == NUL
  {
  }

  lemma DropOneMore(c: char, rest: string)
    ensures DropNul([c] + rest) == (if c == NUL then "" else [c]) + DropNul(rest)
    ensures DropNul("") == ""
  {
  }

  /** NULs count for nothing, wherever they stand. */
  lemma NulsDoNotShow(value: string, default: string)
    ensures Normal(value) == Normal(DropNul(value))
    ensures R.UndashOr(Shown(value), default) == R.UndashOr(Shown(DropNul(value)), default)
  {
    ShownWithoutNuls(value);
    hide Shown;
  }

  lemma ShownWithoutNuls(value: string)
    ensures Shown(value) == Shown(DropNul(value)) || (Shown(value) == "" && Shown(DropNul(value)) == "-")
  {
    hide DropNul, CleanTSV;
    var left := DropNul(value);
    NothingIsClean();
    if value == "" {
    } else {
      DropNulCleans(value);
      if left != "" {
        NoNulsLeft(value);
        NoNulsToDrop(CleanTSV(left));
      }
    }
  }

  lemma NothingIsClean()
    ensures CleanTSV("") == "-" && DropNul("-") == "-" && DropNul("") == ""
  {
    NoNulsToDrop("-");
  }

  lemma NoNulsLeft(value: string)
    ensures NUL !in CleanTSV(DropNul(value))
  {
    DropNulPlain(value);
    var left := DropNul(value);
    hide DropNul;
    forall i | 0 <= i < |left| ensures left[i] != NUL {
      assert left[i] in left;
    }
  }

  // ----- Whole rows -----

  predicate NulFree(w: Workload) {
    && NUL !in w.scope && NUL !in w.runtime && NUL !in w.ns && NUL !in w.pod && NUL !in w.container
    && NUL !in w.containerID && NUL !in w.cgroupPath && NUL !in w.attribution
  }

  /** A process row: numbers in decimal, names as they were. Version 3 carries no runtime; pods are containerd's. */
  lemma ProcessReads(version: nat, r: ProcessRate)
    requires Tabular(version) && NulFree(r.workload)
    ensures var p, w := NormalProcess(version, r), r.workload;
            && p.start == Decimal(r.id.startTicks) && p.rx == Decimal(r.rate.rx) && p.tx == Decimal(r.rate.tx)
            && Reads(w.scope, p.scope, "host")
            && (if version == 4 then Reads(w.runtime, p.runtime, "") else p.runtime == if p.scope == "pod" then "containerd" else "")
            && Reads(w.ns, p.ns, "") && Reads(w.pod, p.pod, "") && Reads(w.container, p.container, "")
            && Reads(w.containerID, p.containerID, "") && Reads(w.attribution, p.attribution, "")
  {
    hide Shown, Normal, Decimal, R.UndashOr, Reads;
    var w := r.workload;
    FieldReads(w.scope, "host");
    FieldReads(w.runtime, "");
    FieldReads(w.ns, "");
    FieldReads(w.pod, "");
    FieldReads(w.container, "");
    FieldReads(w.containerID, "");
    FieldReads(w.attribution, "");
  }

  lemma WorkloadReads(version: nat, w: Workload)
    requires Tabular(version) && NulFree(w)
    ensures var e := NormalWorkload(version, w);
            && (if version == 4 then Reads(w.scope, e.scope, "container") && Reads(w.runtime, e.runtime, "")
                else e.scope == "pod" && e.runtime == "containerd")
            && Reads(w.ns, e.ns, "") && Reads(w.pod, e.pod, "") && Reads(w.container, e.container, "")
  {
    hide Shown, Normal, Decimal, R.UndashOr, Reads;
    FieldReads(w.scope, "container");
    FieldReads(w.runtime, "");
    FieldReads(w.ns, "");
    FieldReads(w.pod, "");
    FieldReads(w.container, "");
  }

  /** A container is listed with ten fields, none of them empty. */
  lemma EntityReads(version: nat, r: EntityRate) returns (f: seq<string>)
    requires Tabular(version) && NulFree(r.workload)
    ensures NormalEntity(version, r) == Join(f) && |f| == 10
    ensures f[0] == Decimal(r.workload.cgroupID) && f[7] == Decimal(r.rate.rx) && f[8] == Decimal(r.rate.tx)
    ensures if version == 4 then Reads(r.workload.scope, f[1], "container") && Reads(r.workload.runtime, f[2], "-")
            else f[1] == "pod" && f[2] == "containerd"
    ensures Reads(r.workload.ns, f[3], "-") && Reads(r.workload.pod, f[4], "-") && Reads(r.workload.container, f[5], "-")
    ensures Reads(r.workload.containerID, f[6], "-") && Reads(r.workload.attribution, f[9], "cgroup")
  {
    hide Shown, Normal, Decimal, R.UndashOr, Reads, R.Dash, Join;
    var w, e := r.workload, NormalWorkload(version, r.workload);
    var attribution := Shown(w.attribution);
    f := [Decimal(w.cgroupID), e.scope, R.Dash(e.runtime), R.Dash(e.ns), R.Dash(e.pod), R.Dash(e.container),
          R.Dash(Normal(w.containerID)), Decimal(r.rate.rx), Decimal(r.rate.tx),
          if attribution == "-" then "cgroup" else R.Dash(attribution)];
    FieldReads(w.scope, "container");
    FieldReads(w.runtime, "");
    FieldReads(w.ns, "");
    FieldReads(w.pod, "");
    FieldReads(w.container, "");
    FieldReads(w.containerID, "");
    FieldReads(w.attribution, "cgroup");
    DashOfText();
  }

  lemma DashOfText()
    ensures R.Dash("containerd") == "containerd"
  {
  }

  // ----- Rows without a container -----

  lemma NothingNormalIsADash(value: string)
    ensures Normal(value) != "-"
  {
  }

  lemma {:induction false} NoDashFiled(version: nat, processes: seq<ProcessRate>, entities: seq<EntityRate>, workloads: seq<Workload>)
    ensures LastOfProcesses(version, processes, "-").None? && LastOfEntities(version, entities, "-").None? && LastOfWorkloads(workloads, "-").None?
    decreases |processes| + |entities| + |workloads|
  {
    hide NormalWorkload, Normal, Decimal;
    if processes != [] {
      NoDashFiled(version, processes[..|processes| - 1], entities, workloads);
      NothingNormalIsADash(processes[|processes| - 1].workload.containerID);
    }
    if entities != [] {
      NoDashFiled(version, processes, entities[..|entities| - 1], workloads);
      NothingNormalIsADash(entities[|entities| - 1].workload.containerID);
    }
    if workloads != [] {
      NoDashFiled(version, processes, entities, workloads[..|workloads| - 1]);
      NothingNormalIsADash(workloads[|workloads| - 1].containerID);
    }
  }

  lemma {:induction false} NoEmptyKey<T>(t: R.Tables, items: seq<T>, version: nat, add: (R.Tables, T, nat) -> R.Tables)
    requires "" !in t.workloads && forall u: R.Tables, x: T :: "" !in u.workloads ==> "" !in add(u, x, version).workloads
    ensures "" !in R.Pass(t, items, version, add).workloads
  {
    if items != [] {
      NoEmptyKey(t, items[..|items| - 1], version, add);
    }
  }

  lemma AddsNoEmptyKey(u: R.Tables, r: ProcessRate, e: EntityRate, w: Workload, version: nat)
    requires "" !in u.workloads
    ensures "" !in AddProcess(u, r, version).workloads && "" !in AddEntity(u, e, version).workloads && "" !in AddWorkload(u, w, version).workloads
  {
    hide NormalProcess, NormalEntity, NormalWorkload, Normal, Decimal;
  }

  /** A row without a container ID, or with a dash for one, files no workload. */
  lemma NoContainerNoWorkload(s: Snapshot)
    requires Tabular(s.version) && Plain(s.iface) && LegibleSnapshot(s)
    ensures var t := R.AfterPasses(LinesOf(Text(FileLines(s)))[1..], VersionText(s.version));
            "" !in t.workloads && "-" !in t.workloads
  {
    hide *;
    EveryRowIsRead(s, "", "-");
    NoDashFor(s);
    SnapshotRoundTrip(s);
    VersionIsShown(s);
    NoEmptyWorkload(s);
  }

  lemma NoDashFor(s: Snapshot)
    ensures WorkloadFor(s, "-").None?
    ensures forall m: map<string, R.WorkloadEntry> :: EntryAt(m, "-").None? ==> "-" !in m
  {
    hide LastOfProcesses, LastOfEntities, LastOfWorkloads, NormalWorkload;
    NoDashFiled(s.version, s.processes, s.entities, s.workloads);
  }

  lemma NoEmptyWorkload(s: Snapshot)
    ensures "" !in NormalTables(s).workloads
  {
    hide AddProcess, AddEntity, AddWorkload, R.Pass;
    forall u: R.Tables, r | "" !in u.workloads ensures "" !in AddProcess(u, r, s.version).workloads {
      AddsNoEmptyKey(u, r, EntityRate(NO_WORKLOAD, NO_TRAFFIC), NO_WORKLOAD, s.version);
    }
    forall u: R.Tables, e | "" !in u.workloads ensures "" !in AddEntity(u, e, s.version).workloads {
      AddsNoEmptyKey(u, ProcessRate(ProcessID(0, 0), NO_TRAFFIC, NO_WORKLOAD), e, NO_WORKLOAD, s.version);
    }
    forall u: R.Tables, w | "" !in u.workloads ensures "" !in AddWorkload(u, w, s.version).workloads {
      AddsNoEmptyKey(u, ProcessRate(ProcessID(0, 0), NO_TRAFFIC, NO_WORKLOAD), EntityRate(NO_WORKLOAD, NO_TRAFFIC), w, s.version);
    }
    var t := R.Pass(R.NO_ENTRIES, s.processes, s.version, AddProcess);
    NoEmptyKey(R.NO_ENTRIES, s.processes, s.version, AddProcess);
    NoEmptyKey(t, s.entities, s.version, AddEntity);
    NoEmptyKey(R.Pass(t, s.entities, s.version, AddEntity), s.workloads, s.version, AddWorkload);
  }

  // ----- The first line -----

  lemma NormalIsUndashed(value: string)
    ensures Normal(value) == R.Undash(Shown(value))
  {
  }

  /** What the front end shows of the first line of a file it accepts. */
  lemma MetaReads(reader: R.NetSnapshot, s: Snapshot)
    requires Tabular(s.version) && reader.HasMeta(NormalMeta(s))
    requires NUL !in s.source && NUL !in s.status && NUL !in s.scope && NUL !in s.reason
    ensures reader.intervalMS == Decimal(s.intervalMS) && reader.packets == Decimal(s.packets) && reader.drops == Decimal(s.drops)
    ensures reader.unknownRx == Decimal(s.unknown.rx) && reader.unknownTx == Decimal(s.unknown.tx)
    ensures reader.reasons == [Decimal(s.unsupported.rx), Decimal(s.unsupported.tx), Decimal(s.unmatched.rx), Decimal(s.unmatched.tx),
                               Decimal(s.ambiguous.rx), Decimal(s.ambiguous.tx), Decimal(s.exited.rx), Decimal(s.exited.tx)]
    ensures Reads(s.source, reader.source, "af_packet_fallback") && Reads(s.status, reader.status, "partial")
    ensures Reads(s.scope, reader.scope, "host_network_namespace") && Reads(s.reason, reader.reason, "")
    ensures reader.percent == R.Percent(s.captured.rx, s.captured.tx, s.unknown.rx, s.unknown.tx)
  {
    hide Shown, Decimal, R.UndashOr, Reads, R.Percent, R.Number, DropNul, Normal;
    assert Normal(s.reason) == R.Undash(Shown(s.reason)) by {
      NormalIsUndashed(s.reason);
    }
    VersionIsShown(s);
    FieldReads(s.source, "af_packet_fallback");
    FieldReads(s.status, "partial");
    FieldReads(s.scope, "host_network_namespace");
    FieldReads(s.reason, "");
    DecimalReadsBack(s.captured.rx);
    DecimalReadsBack(s.captured.tx);
    DecimalReadsBack(s.unknown.rx);
    DecimalReadsBack(s.unknown.tx);
  }

  // ----- What is not taken -----

  predicate Digits(text: string) {
    text != "" && forall i :: 0 <= i < |text| ==> '0' <= text[i] <= '9'
  }

  /** Any line at all: a process line with four whole numbers sets the entry of its PID, every other line nothing. */
  lemma ProcessLineCounts(t: R.Tables, line: string, version: string)
    ensures var v, t' := R.ProcessVars(line, version), R.AfterProcessLine(t, line, version);
            if v[0] == "P" && Digits(v[1]) && Digits(v[2]) && Digits(v[3]) && Digits(v[4])
            then t'.processes.Keys == t.processes.Keys + {v[1]} && t'.entities == t.entities && t'.paths == t.paths
              && t'.processes[v[1]].start == v[2] && t'.processes[v[1]].rx == v[3] && t'.processes[v[1]].tx == v[4]
            else t' == t
  {
    var v := R.ProcessVars(line, version);
    hide R.ProcessVars;
    FourDigits(v);
    hide R.AllDecimal, Digits, IsDecimal;
  }

  lemma FourDigits(v: seq<string>)
    requires |v| >= 5
    ensures R.AllDecimal(v[1..5]) <==> Digits(v[1]) && Digits(v[2]) && Digits(v[3]) && Digits(v[4])
  {
    var w := v[1..5];
    assert w[0] == v[1] && w[1] == v[2] && w[2] == v[3] && w[3] == v[4];
    assert R.AllDecimal(w) <==> Digits(w[0]) && Digits(w[1]) && Digits(w[2]) && Digits(w[3]);
  }

  /** A container line needs three whole numbers, which stand elsewhere in version 3; older files have none. */
  lemma EntityLineCounts(t: R.Tables, line: string, version: string)
    ensures var v4, v3, t' := ReadVars(DropNul(line), 11), ReadVars(DropNul(line), 9), R.AfterEntityLine(t, line, version);
            if (version == "4" && v4[0] == "C" && Digits(v4[1]) && Digits(v4[8]) && Digits(v4[9]))
               || (version == "3" && v3[0] == "C" && Digits(v3[1]) && Digits(v3[6]) && Digits(v3[7]))
            then |t'.entities| == |t.entities| + 1 && t.entities <= t'.entities && t'.processes == t.processes && t'.paths == t.paths
            else t' == t
  {
    hide ReadVars, DropNul, Join;
  }

  /** A workload line needs one number and a container ID. */
  lemma WorkloadLineCounts(t: R.Tables, line: string, version: string)
    ensures var v, t' := ReadVars(DropNul(line), 10), R.AfterWorkloadLine(t, line, version);
            if version == "4" && v[0] == "W" && Digits(v[1]) && v[7] != "" && v[7] != "-"
            then t'.paths == t.paths[v[7] := if v[8] == "-" then "" else v[8]] && t'.workloads.Keys == t.workloads.Keys + {v[7]}
              && t'.processes == t.processes && t'.entities == t.entities
            else t' == t
  {
    hide ReadVars, DropNul;
  }

  /** Any first line: it is accepted iff it is of a known version, for this interface, with whole numbers
      throughout, and not too old. */
  lemma AcceptsIff(m: R.Meta, netif: string, now: nat)
    ensures R.Check(m, netif, now).None?
      <==> && m.kind == "M" && m.version in {"1", "2", "3", "4"} && m.iface == netif
           && Digits(m.ts) && Digits(m.interval) && Digits(m.capRx) && Digits(m.capTx)
           && Digits(m.unknownRx) && Digits(m.unknownTx) && Digits(m.packets) && Digits(m.drops)
           && (m.version == "1" || forall i :: 0 <= i < |m.reasons| ==> Digits(m.reasons[i]))
           && now <= R.Number(m.ts) / 1000 + var limit := R.Number(m.interval) * 3 / 1000 + 2; if limit < 3 then 3 else limit
  {
    hide R.Number;
    var fields := [m.ts, m.interval, m.capRx, m.capTx, m.unknownRx, m.unknownTx, m.packets, m.drops];
    assert R.AllDecimal(fields) ==> forall i :: 0 <= i < 8 ==> Digits(fields[i]);
    assert fields[0] == m.ts && fields[1] == m.interval && fields[2] == m.capRx && fields[3] == m.capTx;
    assert fields[4] == m.unknownRx && fields[5] == m.unknownTx && fields[6] == m.packets && fields[7] == m.drops;
    assert (forall i :: 0 <= i < 8 ==> Digits(fields[i])) ==> R.AllDecimal(fields);
    assert R.AllDecimal(m.reasons) <==> forall i :: 0 <= i < |m.reasons| ==> Digits(m.reasons[i]);
  }
}
