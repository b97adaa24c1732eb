/** The reader of the snapshot file in the shell front end (smon.sh, lines 337-431): its globals and
    associative arrays after one call of `load_net_snapshot`. Numbers stay text, as they do in the shell. */
module SnapshotReader {
  import opened NetTypes
  import opened Numerals
  import opened TabFields

  /** The ten arrays that are always assigned together under one PID. */
  datatype ProcessEntry = ProcessEntry(
    start: string, rx: string, tx: string, scope: string, runtime: string,
    ns: string, pod: string, container: string, containerID: string, attribution: string)

  /** The five arrays that are always assigned together under one container ID. */
  datatype WorkloadEntry = WorkloadEntry(scope: string, runtime: string, ns: string, pod: string, container: string)

  datatype Tables = Tables(
    processes: map<string, ProcessEntry>,
    workloads: map<string, WorkloadEntry>,
    paths: map<string, string>,
    entities: seq<string>)

  const NO_ENTRIES := Tables(map[], map[], map[], [])
  const NO_REASONS: seq<string> := ["0", "0", "0", "0", "0", "0", "0", "0"]

  datatype Meta = Meta(
    kind: string, version: string, ts: string, interval: string, iface: string,
    capRx: string, capTx: string, unknownRx: string, unknownTx: string, packets: string, drops: string,
    reasons: seq<string>, source: string, status: string, scope: string, reason: string)

  datatype Failure = Unreadable | BadHeader | BadFields | BadReasons | Expired

  // ----- Fields -----

  /** A dash stands for nothing. */
  function Undash(field: string): string {
    if field == "-" then "" else field
  }

  function UndashOr(field: string, default: string): string {
    if field == "-" || field == "" then default else field
  }

  /** `${x:--}`: nothing is shown as a dash. */
  function Dash(field: string): string {
    if field == "" then "-" else field
  }

  function Number(text: string): nat {
    if IsDecimal(text) && Value(text, 10) >= 0 then Value(text, 10) else 0
  }

  predicate AllDecimal(fields: seq<string>) {
    forall i :: 0 <= i < |fields| ==> IsDecimal(fields[i])
  }

  function ReadMeta(line: string): Meta {
    var v := ReadVars(DropNul(line), 23);
    Meta(v[0], v[1], v[2], v[3], v[4], v[5], v[6], v[7], v[8], v[9], v[10], v[11..19], v[19], v[20], v[21], v[22])
  }

  // ----- Specification: what one line adds -----

  function WithWorkload(t: Tables, cid: string, entry: WorkloadEntry): Tables {
    if cid == "" then t else t.(workloads := t.workloads[cid := entry])
  }

  function ProcessOf(v: seq<string>, version: string): ProcessEntry
    requires |v| == if version == "4" then 12 else 11
  {
    if version == "4" then
      ProcessEntry(v[2], v[3], v[4], UndashOr(v[5], "host"), Undash(v[6]),
                   Undash(v[7]), Undash(v[8]), Undash(v[9]), Undash(v[10]), Undash(v[11]))
    else
      var scope := UndashOr(v[5], "host");
      ProcessEntry(v[2], v[3], v[4], scope, if scope == "pod" then "containerd" else "",
                   Undash(v[6]), Undash(v[7]), Undash(v[8]), Undash(v[9]), Undash(v[10]))
  }

  function ProcessVars(line: string, version: string): (v: seq<string>)
    ensures |v| == if version == "4" then 12 else 11
  {
    ReadVars(DropNul(line), if version == "4" then 12 else 11)
  }

  function AfterProcessLine(t: Tables, line: string, version: string): Tables {
    var v := ProcessVars(line, version);
    if v[0] != "P" || !AllDecimal(v[1..5]) then t
    else
      var p := ProcessOf(v, version);
      WithWorkload(t.(processes := t.processes[v[1] := p]), p.containerID,
                   WorkloadEntry(p.scope, p.runtime, p.ns, p.pod, p.container))
  }

  function Entity(t: Tables, v: seq<string>, w: WorkloadEntry, cid: string, rx: string, tx: string, attribution: string): Tables
    requires |v| > 1
  {
    var shown := Join([v[1], w.scope, Dash(w.runtime), Dash(w.ns), Dash(w.pod), Dash(w.container), Dash(cid), rx, tx,
                       if attribution == "-" then "cgroup" else Dash(attribution)]);
    WithWorkload(t.(entities := t.entities + [shown]), cid, w)
  }

  function AfterEntityLine(t: Tables, line: string, version: string): Tables {
    if version == "4" then
      var v := ReadVars(DropNul(line), 11);
      if v[0] != "C" || !IsDecimal(v[1]) || !IsDecimal(v[8]) || !IsDecimal(v[9]) then t
      else
        var w := WorkloadEntry(UndashOr(v[2], "container"), Undash(v[3]), Undash(v[4]), Undash(v[5]), Undash(v[6]));
        Entity(t, v, w, Undash(v[7]), v[8], v[9], v[10])
    else if version == "3" then
      var v := ReadVars(DropNul(line), 9);
      if v[0] != "C" || !IsDecimal(v[1]) || !IsDecimal(v[6]) || !IsDecimal(v[7]) then t
      else
        var w := WorkloadEntry("pod", "containerd", Undash(v[2]), Undash(v[3]), Undash(v[4]));
        Entity(t, v, w, Undash(v[5]), v[6], v[7], v[8])
    else t
  }

  function AfterWorkloadLine(t: Tables, line: string, version: string): Tables {
    var v := ReadVars(DropNul(line), 10);
    if version != "4" || v[0] != "W" || !IsDecimal(v[1]) then t
    else
      var w := WorkloadEntry(UndashOr(v[2], "container"), Undash(v[3]), Undash(v[4]), Undash(v[5]), Undash(v[6]));
      var cid := Undash(v[7]);
      if cid == "" then t
      else WithWorkload(t.(paths := t.paths[cid := Undash(v[8])]), cid, w)
  }

  /** One pass over `items`, each of them adding to the tables. */
  function Pass<T, V>(t: Tables, items: seq<T>, version: V, add: (Tables, T, V) -> Tables): Tables {
    if items == [] then t
    else add(Pass(t, items[..|items| - 1], version, add), items[|items| - 1], version)
  }

  function AfterPasses(lines: seq<string>, version: string): Tables {
    var t := Pass(NO_ENTRIES, lines, version, AfterProcessLine);
    var t' := Pass(t, lines, version, AfterEntityLine);
    Pass(t', lines, version, AfterWorkloadLine)
  }

  // ----- Specification: the header -----

  /** Version 1 has no breakdown: everything unknown counts as unmatched. */
  function ReasonsOf(m: Meta): seq<string> {
    if m.version == "1" then ["0", "0", m.unknownRx, m.unknownTx, "0", "0", "0", "0"] else m.reasons
  }

  predicate KnownVersion(version: string) {
    version == "1" || version == "2" || version == "3" || version == "4"
  }

  /** Seconds since the snapshot, and how many are tolerated. */
  function Age(m: Meta, now: nat): nat {
    var taken := Number(m.ts) / 1000;
    if now < taken then 0 else now - taken
  }

  function MaxAge(m: Meta): nat {
    var limit := Number(m.interval) * 3 / 1000 + 2;
    if limit < 3 then 3 else limit
  }

  function Check(m: Meta, netif: string, now: nat): Option<Failure> {
    if m.kind != "M" || !KnownVersion(m.version) || m.iface != netif then Some(BadHeader)
    else if !AllDecimal([m.ts, m.interval, m.capRx, m.capTx, m.unknownRx, m.unknownTx, m.packets, m.drops]) then Some(BadFields)
    else if m.version != "1" && !AllDecimal(m.reasons) then Some(BadReasons)
    else if Age(m, now) > MaxAge(m) then Some(Expired)
    else None
  }

  const BAD_HEADER := "smon-net 快照格式或网卡不匹配"
  const BAD_FIELDS := "smon-net 快照字段无效"
  const BAD_REASONS := "smon-net v2 分类字段无效"
  const EXPIRED := "smon-net 快照已过期 "

  /** The reason shown after a rejection; `why` is the one in place before the file is looked at. */
  function ReasonFor(failure: Failure, why: string, age: nat): string {
    match failure
    case Unreadable => why
    case BadHeader => BAD_HEADER
    case BadFields => BAD_FIELDS
    case BadReasons => BAD_REASONS
    case Expired => EXPIRED + Decimal(age) + "s"
  }

  /** The coverage percentage with both of its clamps. */
  function Percent(capRx: nat, capTx: nat, unknownRx: nat, unknownTx: nat): nat {
    var total: int := capRx + capTx;
    var attributed := if total - unknownRx - unknownTx < 0 then 0 else total - unknownRx - unknownTx;
    var percent := if total > 0 then attributed * 100 / total else 100;
    if percent > 100 then 100 else percent
  }

  method ComputePercent(capRx: nat, capTx: nat, unknownRx: nat, unknownTx: nat) returns (percent: nat)
    ensures percent == Percent(capRx, capTx, unknownRx, unknownTx)
  {
    var total: int := capRx + capTx;
    var attributed := total - unknownRx - unknownTx;
    if attributed < 0 {
      attributed := 0;
    }
    if total > 0 {
      percent := attributed * 100 / total;
    } else {
      percent := 100;
    }
    if percent > 100 {
      percent := 100;
    }
  }

  // ----- The reader -----

  class NetSnapshot {
    var tables: Tables
    var percent: nat
    var source: string
    var status: string
    var scope: string
    var reason: string
    var intervalMS: string
    var unknownRx: string
    var unknownTx: string
    var packets: string
    var drops: string
    var reasons: seq<string>

    constructor ()
      ensures tables == NO_ENTRIES
    {
      tables, percent := NO_ENTRIES, 0;
      source, status, scope, reason := "", "", "", "";
      intervalMS, unknownRx, unknownTx, packets, drops := "0", "0", "0", "0", "0";
      reasons := NO_REASONS;
    }

    /** The values shown without a file, apart from the reason. */
    ghost predicate IsFallback(interval: string)
      reads this
    {
      && tables == NO_ENTRIES && percent == 0
      && source == "ss_tcp_info" && status == "partial" && scope == "host_network_namespace"
      && intervalMS == interval && unknownRx == unknownTx == packets == drops == "0"
      && reasons == NO_REASONS
    }

    /** `why` is the collector's error, or the configured or built-in text that stands for it. */
    method SetFallback(interval: string, why: string)
      modifies this
      ensures IsFallback(interval) && reason == why
    {
      tables, percent := NO_ENTRIES, 0;
      source, status, scope, reason := "ss_tcp_info", "partial", "host_network_namespace", why;
      intervalMS, unknownRx, unknownTx, packets, drops := interval, "0", "0", "0", "0";
      reasons := NO_REASONS;
    }

    /** `file` is the content of the snapshot file if it can be read, `now` the time in seconds. A rejected
        file leaves the fallback values and says why. */
    method Load(file: Option<string>, netif: string, now: nat, interval: string, why: string) returns (failure: Option<Failure>)
      modifies this
      ensures failure == if file.None? || LinesOf(file.value) == [] then Some(Unreadable)
                         else Check(ReadMeta(LinesOf(file.value)[0]), netif, now)
      ensures failure == Some(Unreadable) ==> IsFallback(interval) && reason == why
      ensures failure.Some? && failure.value != Unreadable ==>
        IsFallback(interval) && reason == ReasonFor(failure.value, why, Age(ReadMeta(LinesOf(file.value)[0]), now))
      ensures failure.None? ==> IsLoaded(ReadMeta(LinesOf(file.value)[0]), LinesOf(file.value)[1..])
    {
      hide LinesOf, ReadMeta, AfterPasses, AllDecimal, KnownVersion, Age, MaxAge, HasMeta, Decimal;
      SetFallback(interval, why);
      if file.None? {
        return Some(Unreadable);
      }
      var lines := LinesOf(file.value);
      if lines == [] {
        return Some(Unreadable);
      }
      var m := ReadMeta(lines[0]);
      failure := Reject(m, netif, now, why);
      if failure.Some? {
        return;
      }
      ReadRows(lines[1..], m.version);
      Publish(m);
    }

    /** The checks of the first line, each with its own reason. */
    method Reject(m: Meta, netif: string, now: nat, ghost why: string) returns (failure: Option<Failure>)
      requires reason == why
      modifies this`reason
      ensures failure == Check(m, netif, now) && failure != Some(Unreadable)
      ensures failure.Some? ==> reason == ReasonFor(failure.value, why, Age(m, now))
    {
      hide AllDecimal, KnownVersion, Age, MaxAge, Decimal;
      if m.kind != "M" || !KnownVersion(m.version) || m.iface != netif {
        reason := BAD_HEADER;
        return Some(BadHeader);
      }
      if !AllDecimal([m.ts, m.interval, m.capRx, m.capTx, m.unknownRx, m.unknownTx, m.packets, m.drops]) {
        reason := BAD_FIELDS;
        return Some(BadFields);
      }
      if m.version != "1" && !AllDecimal(m.reasons) {
        reason := BAD_REASONS;
        return Some(BadReasons);
      }
      var age := Age(m, now);
      if age > MaxAge(m) {
        reason := EXPIRED + Decimal(age) + "s";
        return Some(Expired);
      }
      failure := None;
    }

    /** The totals and the metadata of an accepted file. */
    method Publish(m: Meta)
      modifies this
      ensures tables == old(tables)
      ensures HasMeta(m)
    {
      hide Number, Percent, UndashOr, Undash, ReasonsOf, HasStatus;
      percent := ComputePercent(Number(m.capRx), Number(m.capTx), Number(m.unknownRx), Number(m.unknownTx));
      intervalMS, unknownRx, unknownTx := m.interval, m.unknownRx, m.unknownTx;
      packets, drops := m.packets, m.drops;
      reasons := ReasonsOf(m);
      PublishStatus(m);
    }

    method PublishStatus(m: Meta)
      modifies this`source, this`status, this`scope, this`reason
      ensures HasStatus(m)
    {
      hide UndashOr, Undash;
      if m.version == "3" || m.version == "4" {
        source := UndashOr(m.source, "af_packet_fallback");
        status := UndashOr(m.status, "partial");
        scope := UndashOr(m.scope, "host_network_namespace");
        reason := Undash(m.reason);
      } else {
        source, status, scope, reason := "af_packet", "ok", "host_network_namespace", "";
      }
    }

    ghost predicate IsLoaded(m: Meta, lines: seq<string>)
      reads this
    {
      tables == AfterPasses(lines, m.version) && HasMeta(m)
    }

    ghost predicate HasMeta(m: Meta)
      reads this
    {
      && percent == Percent(Number(m.capRx), Number(m.capTx), Number(m.unknownRx), Number(m.unknownTx))
      && intervalMS == m.interval && unknownRx == m.unknownRx && unknownTx == m.unknownTx
      && packets == m.packets && drops == m.drops && reasons == ReasonsOf(m)
      && HasStatus(m)
    }

    ghost predicate HasStatus(m: Meta)
      reads this`source, this`status, this`scope, this`reason
    {
      if m.version == "3" || m.version == "4"
      then source == UndashOr(m.source, "af_packet_fallback") && status == UndashOr(m.status, "partial")
        && scope == UndashOr(m.scope, "host_network_namespace") && reason == Undash(m.reason)
      else source == "af_packet" && status == "ok" && scope == "host_network_namespace" && reason == ""
    }

    /** The passes over the lines after the first: processes, then containers, then workloads. */
    method ReadRows(lines: seq<string>, version: string)
      requires tables == NO_ENTRIES
      modifies this`tables
      ensures tables == AfterPasses(lines, version)
    {
      hide AfterProcessLine, AfterEntityLine, AfterWorkloadLine;
      assert lines[..|lines|] == lines;
      for i := 0 to |lines|
        invariant tables == Pass(NO_ENTRIES, lines[..i], version, AfterProcessLine)
      {
        ReadProcessLine(lines[i], version);
        assert lines[..i + 1][..i] == lines[..i];
      }
      ghost var t := tables;
      if version == "4" {
        for i := 0 to |lines|
          invariant tables == Pass(t, lines[..i], version, AfterEntityLine)
        {
          ReadEntityLine(lines[i]);
          assert lines[..i + 1][..i] == lines[..i];
        }
      } else if version == "3" {
        for i := 0 to |lines|
          invariant tables == Pass(t, lines[..i], version, AfterEntityLine)
        {
          ReadPodLine(lines[i]);
          assert lines[..i + 1][..i] == lines[..i];
        }
      } else {
        OtherVersionsSkip(t, lines, version);
      }
      t := tables;
      if version == "4" {
        for i := 0 to |lines|
          invariant tables == Pass(t, lines[..i], version, AfterWorkloadLine)
        {
          ReadWorkloadLine(lines[i]);
          assert lines[..i + 1][..i] == lines[..i];
        }
      } else {
        OtherVersionsSkip(t, lines, version);
      }
    }

    method ReadProcessLine(line: string, version: string)
      modifies this`tables
      ensures tables == AfterProcessLine(old(tables), line, version)
    {
      var v := ReadVars(DropNul(line), if version == "4" then 12 else 11);
      if v[0] == "P" && AllDecimal(v[1..5]) {
        var scope := v[5];
        if scope == "-" || scope == "" {
          scope := "host";
        }
        var rest := v[6..];
        var runtime := "";
        if version == "4" {
          runtime := Undash(v[6]);
          rest := v[7..];
        } else if scope == "pod" {
          runtime := "containerd";
        }
        var entry := ProcessEntry(v[2], v[3], v[4], scope, runtime,
                                  Undash(rest[0]), Undash(rest[1]), Undash(rest[2]), Undash(rest[3]), Undash(rest[4]));
        tables := tables.(processes := tables.processes[v[1] := entry]);
        if entry.containerID != "" {
          tables := tables.(workloads := tables.workloads[entry.containerID :=
            WorkloadEntry(scope, runtime, entry.ns, entry.pod, entry.container)]);
        }
      }
    }

    method ReadEntityLine(line: string)
      modifies this`tables
      ensures tables == AfterEntityLine(old(tables), line, "4")
    {
      hide ReadVars, DropNul, Join, IsDecimal;
      var v := ReadVars(DropNul(line), 11);
      if v[0] != "C" || !IsDecimal(v[1]) || !IsDecimal(v[8]) || !IsDecimal(v[9]) {
        return;
      }
      var scope, runtime := UndashOr(v[2], "container"), Undash(v[3]);
      var ns, pod, container, cid := Undash(v[4]), Undash(v[5]), Undash(v[6]), Undash(v[7]);
      var attribution := v[10];
      if attribution == "-" {
        attribution := "cgroup";
      }
      var shown := Join([v[1], scope, Dash(runtime), Dash(ns), Dash(pod), Dash(container), Dash(cid), v[8], v[9], Dash(attribution)]);
      tables := tables.(entities := tables.entities + [shown]);
      if cid != "" {
        tables := tables.(workloads := tables.workloads[cid := WorkloadEntry(scope, runtime, ns, pod, container)]);
      }
    }

    /** Version 3 knows only pods of containerd. */
    method ReadPodLine(line: string)
      modifies this`tables
      ensures tables == AfterEntityLine(old(tables), line, "3")
    {
      hide ReadVars, DropNul, Join, IsDecimal;
      var v := ReadVars(DropNul(line), 9);
      if v[0] != "C" || !IsDecimal(v[1]) || !IsDecimal(v[6]) || !IsDecimal(v[7]) {
        return;
      }
      var ns, pod, container, cid := Undash(v[2]), Undash(v[3]), Undash(v[4]), Undash(v[5]);
      var attribution := v[8];
      if attribution == "-" {
        attribution := "cgroup";
      }
      var shown := Join([v[1], "pod", "containerd", Dash(ns), Dash(pod), Dash(container), Dash(cid), v[6], v[7], Dash(attribution)]);
      tables := tables.(entities := tables.entities + [shown]);
      if cid != "" {
        tables := tables.(workloads := tables.workloads[cid := WorkloadEntry("pod", "containerd", ns, pod, container)]);
      }
    }

    method ReadWorkloadLine(line: string)
      modifies this`tables
      ensures tables == AfterWorkloadLine(old(tables), line, "4")
    {
      var v := ReadVars(DropNul(line), 10);
      if v[0] != "W" || !IsDecimal(v[1]) {
        return;
      }
      var scope := UndashOr(v[2], "container");
      var cid := Undash(v[7]);
      if cid != "" {
        tables := tables.(
          workloads := tables.workloads[cid := WorkloadEntry(scope, Undash(v[3]), Undash(v[4]), Undash(v[5]), Undash(v[6]))],
          paths := tables.paths[cid := Undash(v[8])]);
      }
    }
  }

  lemma {:induction false} OtherVersionsSkip(t: Tables, lines: seq<string>, version: string)
    ensures version != "3" && version != "4" ==> Pass(t, lines, version, AfterEntityLine) == t
    ensures version != "4" ==> Pass(t, lines, version, AfterWorkloadLine) == t
  {
    if lines != [] {
      OtherVersionsSkip(t, lines[..|lines| - 1], version);
    }
  }
}
