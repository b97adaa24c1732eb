/** Attribution across network namespaces (internal/netmon/cgroup.go, lines 129-256 and 427-473). */
module Cgroups {
  import opened NetTypes
  import opened Sockets

  datatype ProcessOwner = ProcessOwner(id: ProcessID, cgroupID: nat, netNS: nat, workload: Workload)

  datatype NamespacedResolver = NamespacedResolver(resolver: Resolver, pids: map<ProcessID, ProcessOwner>)

  datatype SystemResolver = SystemResolver(
    byCgroup: map<nat, seq<NamespacedResolver>>,
    workload: map<nat, Workload>)
  {
    function Namespaces(cgroupID: nat): seq<NamespacedResolver> {
      if cgroupID in byCgroup then byCgroup[cgroupID] else []
    }

    ghost predicate Valid() {
      forall c, i :: c in byCgroup && 0 <= i < |byCgroup[c]| ==> byCgroup[c][i].resolver.Valid()
    }

    /** What loading establishes: a process has one record, filed under its own identity, wherever it is
        seen, and a workload carries the cgroup it is filed under. */
    ghost predicate Consistent() {
      && (forall c, i, p :: c in byCgroup && 0 <= i < |byCgroup[c]| && p in byCgroup[c][i].pids ==>
            byCgroup[c][i].pids[p].id == p)
      && (forall c, i, d, j, p ::
            c in byCgroup && 0 <= i < |byCgroup[c]| && p in byCgroup[c][i].pids &&
            d in byCgroup && 0 <= j < |byCgroup[d]| && p in byCgroup[d][j].pids ==>
              byCgroup[c][i].pids[p] == byCgroup[d][j].pids[p])
      && (forall c :: c in workload ==> workload[c].cgroupID == c)
    }
  }

  /** `process` and `workload` are the source's optional pointers; at most one is set. */
  datatype Resolution = Resolution(process: Option<ProcessOwner>, workload: Option<Workload>, reason: UnknownReason)

  // ----- Specification -----

  /** The process one namespace names for a sample, provided that it belongs to the sample's cgroup. */
  ghost function Named(ns: NamespacedResolver, sample: CgroupFlow): Option<ProcessOwner> {
    match Judged(ns.resolver.Seen(), sample.flow)
    case Found(p) => if p in ns.pids && ns.pids[p].cgroupID == sample.cgroupID then Some(ns.pids[p]) else None
    case _ => None
  }

  ghost function Names(all: seq<NamespacedResolver>, sample: CgroupFlow): seq<Option<ProcessOwner>> {
    seq(|all|, i requires 0 <= i < |all| => Named(all[i], sample))
  }

  ghost predicate IsNamed(all: seq<NamespacedResolver>, sample: CgroupFlow, owner: ProcessOwner) {
    Some(owner) in Names(all, sample)
  }

  ghost predicate IsAmbiguousSomewhere(all: seq<NamespacedResolver>, sample: CgroupFlow) {
    exists i :: 0 <= i < |all| && Judged(all[i].resolver.Seen(), sample.flow) == Ambiguous
  }

  predicate HasId(owners: seq<ProcessOwner>, id: ProcessID) {
    exists i :: 0 <= i < |owners| && owners[i].id == id
  }

  /** The first record of each distinct process, in order. */
  function Distinct(names: seq<Option<ProcessOwner>>): seq<ProcessOwner> {
    if names == [] then []
    else
      var before := Distinct(names[..|names| - 1]);
      match names[|names| - 1]
      case None => before
      case Some(owner) => if HasId(before, owner.id) then before else before + [owner]
  }

  ghost function Candidates(all: seq<NamespacedResolver>, sample: CgroupFlow): seq<ProcessOwner> {
    Distinct(Names(all, sample))
  }

  ghost function ReasonFor(all: seq<NamespacedResolver>, sample: CgroupFlow): UnknownReason {
    if |Candidates(all, sample)| > 1 || IsAmbiguousSomewhere(all, sample) then AMBIGUOUS else UNMATCHED
  }

  ghost function Resolved(sys: SystemResolver, sample: CgroupFlow): Resolution {
    if !HasPortsProtocol(sample.flow.protocol) then Resolution(None, None, UNSUPPORTED)
    else
      var all := sys.Namespaces(sample.cgroupID);
      var candidates := Candidates(all, sample);
      var reason := ReasonFor(all, sample);
      if |candidates| == 1 then
        var owner := candidates[0];
        Resolution(Some(owner.(workload := owner.workload.(attribution := "socket"))), None, 0)
      else if sample.cgroupID in sys.workload && sys.workload[sample.cgroupID].IsContainer() then
        Resolution(None, Some(sys.workload[sample.cgroupID].(attribution := "cgroup")), reason)
      else Resolution(None, None, reason)
  }

  // ----- The code -----

  method AppendUniqueOwner(items: seq<ProcessOwner>, owner: ProcessOwner) returns (r: seq<ProcessOwner>)
    ensures r == if HasId(items, owner.id) then items else items + [owner]
  {
    for i := 0 to |items|
      invariant forall j :: 0 <= j < i ==> items[j].id != owner.id
    {
      if items[i].id == owner.id {
        return items;
      }
    }
    return items + [owner];
  }

  lemma NoNamespaces(sample: CgroupFlow)
    ensures Candidates([], sample) == [] && !IsAmbiguousSomewhere([], sample)
  {
  }

  lemma OneMoreNamespace(all: seq<NamespacedResolver>, i: nat, sample: CgroupFlow)
    requires i < |all|
    ensures Candidates(all[..i + 1], sample) == (
      var before := Candidates(all[..i], sample);
      match Named(all[i], sample)
      case None => before
      case Some(owner) => if HasId(before, owner.id) then before else before + [owner])
    ensures IsAmbiguousSomewhere(all[..i + 1], sample)
      <==> IsAmbiguousSomewhere(all[..i], sample) || Judged(all[i].resolver.Seen(), sample.flow) == Ambiguous
  {
    hide Judged, Named, HasId;
    assert Names(all[..i + 1], sample)[..i] == Names(all[..i], sample);
    assert all[..i + 1][i] == all[i];
    assert forall j :: 0 <= j < i ==> all[..i][j] == all[..i + 1][j];
  }

  /** What one namespace contributes, in terms of its resolver's answer. */
  lemma NamedBy(ns: NamespacedResolver, sample: CgroupFlow, process: ProcessID, reason: UnknownReason)
    requires reason != EXITED && VerdictOf(process, reason) == Judged(ns.resolver.Seen(), sample.flow)
    ensures Named(ns, sample) == if reason == 0 && process in ns.pids && ns.pids[process].cgroupID == sample.cgroupID
                                 then Some(ns.pids[process]) else None
    ensures Judged(ns.resolver.Seen(), sample.flow) == Ambiguous <==> reason == AMBIGUOUS
  {
    hide Judged;
  }

  method Resolve(sys: SystemResolver, sample: CgroupFlow) returns (r: Resolution)
    requires sys.Valid()
    ensures r == Resolved(sys, sample)
  {
    if sample.flow.protocol != PROTOCOL_TCP && sample.flow.protocol != PROTOCOL_UDP {
      return Resolution(None, None, UNSUPPORTED);
    }
    hide Judged, IsAmbiguousSomewhere, Candidates, HasId, Named, VerdictOf;
    NoNamespaces(sample);
    var candidates: seq<ProcessOwner> := [];
    var reason := UNMATCHED;
    var all := sys.Namespaces(sample.cgroupID);
    for i := 0 to |all|
      invariant candidates == Candidates(all[..i], sample)
      invariant reason == if IsAmbiguousSomewhere(all[..i], sample) then AMBIGUOUS else UNMATCHED
    {
      var ns := all[i];
      OneMoreNamespace(all, i, sample);
      var process, current := Sockets.Resolve(ns.resolver, sample.flow);
      NamedBy(ns, sample, process, current);
      if current == 0 {
        if process in ns.pids && ns.pids[process].cgroupID == sample.cgroupID {
          candidates := AppendUniqueOwner(candidates, ns.pids[process]);
        }
        continue;
      }
      if current == AMBIGUOUS {
        reason := AMBIGUOUS;
      }
    }
    assert all[..|all|] == all;
    if |candidates| == 1 {
      var owner := candidates[0];
      owner := owner.(workload := owner.workload.(attribution := "socket"));
      return Resolution(Some(owner), None, 0);
    }
    if |candidates| > 1 {
      reason := AMBIGUOUS;
    }
    if sample.cgroupID in sys.workload {
      var workload := sys.workload[sample.cgroupID];
      if workload.IsContainer() {
        return Resolution(None, Some(workload.(attribution := "cgroup")), reason);
      }
    }
    return Resolution(None, None, reason);
  }

  // ----- What the resolution promises -----

  lemma {:induction false} DistinctIsComplete(names: seq<Option<ProcessOwner>>)
    ensures forall i :: 0 <= i < |Distinct(names)| ==> Some(Distinct(names)[i]) in names
    ensures forall i, j :: 0 <= i < j < |Distinct(names)| ==> Distinct(names)[i].id != Distinct(names)[j].id
    ensures forall owner :: Some(owner) in names ==> HasId(Distinct(names), owner.id)
  {
    if names != [] {
      var n := |names| - 1;
      DistinctIsComplete(names[..n]);
      var before, ds := Distinct(names[..n]), Distinct(names);
      assert before <= ds;
      assert forall i :: 0 <= i < |before| ==> ds[i] == before[i];
      forall owner | Some(owner) in names ensures HasId(ds, owner.id) {
        if Some(owner) in names[..n] {
          assert HasId(before, owner.id);
        } else {
          assert names[n] == Some(owner);
          assert !HasId(before, owner.id) ==> ds[|before|] == owner;
        }
      }
    }
  }

  lemma CandidatesAreNamed(all: seq<NamespacedResolver>, sample: CgroupFlow)
    ensures forall i :: 0 <= i < |Candidates(all, sample)| ==> IsNamed(all, sample, Candidates(all, sample)[i])
    ensures forall i, j :: 0 <= i < j < |Candidates(all, sample)| ==> Candidates(all, sample)[i].id != Candidates(all, sample)[j].id
    ensures forall owner :: IsNamed(all, sample, owner) ==> HasId(Candidates(all, sample), owner.id)
  {
    DistinctIsComplete(Names(all, sample));
  }

  ghost predicate NamesOnly(all: seq<NamespacedResolver>, sample: CgroupFlow, id: ProcessID) {
    && (exists owner :: IsNamed(all, sample, owner))
    && (forall owner :: IsNamed(all, sample, owner) ==> owner.id == id)
  }

  lemma OneCandidateIff(all: seq<NamespacedResolver>, sample: CgroupFlow, id: ProcessID)
    ensures NamesOnly(all, sample, id) <==> |Candidates(all, sample)| == 1 && Candidates(all, sample)[0].id == id
  {
    var cs := Candidates(all, sample);
    CandidatesAreNamed(all, sample);
    if owner :| IsNamed(all, sample, owner) {
      assert HasId(cs, owner.id);
    }
    if |cs| > 1 {
      assert IsNamed(all, sample, cs[0]) && IsNamed(all, sample, cs[1]);
      assert cs[0].id != cs[1].id;
    } else if |cs| == 1 {
      assert IsNamed(all, sample, cs[0]);
      forall owner | IsNamed(all, sample, owner) ensures owner.id == cs[0].id {
        assert HasId(cs, owner.id);
      }
    }
  }

  /** A process is named iff the sample is TCP or UDP and exactly one process of its cgroup is named by the
      namespaces of that cgroup together; the record belongs to that cgroup. */
  lemma NamesProcessIff(sys: SystemResolver, sample: CgroupFlow, id: ProcessID)
    ensures (Resolved(sys, sample).process.Some? && Resolved(sys, sample).process.value.id == id)
      <==> HasPortsProtocol(sample.flow.protocol) && NamesOnly(sys.Namespaces(sample.cgroupID), sample, id)
    ensures Resolved(sys, sample).process.Some? ==> Resolved(sys, sample).process.value.cgroupID == sample.cgroupID
  {
    var all := sys.Namespaces(sample.cgroupID);
    OneCandidateIff(all, sample, id);
    CandidatesAreNamed(all, sample);
    if Resolved(sys, sample).process.Some? {
      var cs := Candidates(all, sample);
      assert IsNamed(all, sample, cs[0]);
      var i, p := NamedIsRecorded(all, sample, cs[0]);
    }
  }

  /** Otherwise the container aggregate is used iff the cgroup is a container's, and the reason given is never
      "exited". */
  lemma ElseContainerIff(sys: SystemResolver, sample: CgroupFlow)
    ensures var r := Resolved(sys, sample);
            && (r.workload.Some? <==>
                  && HasPortsProtocol(sample.flow.protocol)
                  && (forall id :: !NamesOnly(sys.Namespaces(sample.cgroupID), sample, id))
                  && sample.cgroupID in sys.workload && sys.workload[sample.cgroupID].IsContainer())
            && (r.workload.Some? ==> r.workload.value == sys.workload[sample.cgroupID].(attribution := "cgroup"))
            && r.reason != EXITED
            && (r.reason == UNSUPPORTED && r.process.None? ==> !HasPortsProtocol(sample.flow.protocol))
  {
    var all := sys.Namespaces(sample.cgroupID);
    var cs := Candidates(all, sample);
    forall id ensures NamesOnly(all, sample, id) <==> |cs| == 1 && cs[0].id == id {
      OneCandidateIff(all, sample, id);
    }
    if |cs| == 1 {
      assert NamesOnly(all, sample, cs[0].id);
    }
  }

  /** A namespace recognises the owner of a sample: its sockets lead to one process, which it has on record for
      the cgroup of the sample. */
  ghost predicate Recognises(ns: NamespacedResolver, sample: CgroupFlow, owner: ProcessOwner) {
    exists p :: Judged(ns.resolver.Seen(), sample.flow) == Found(p) && p in ns.pids && ns.pids[p] == owner
      && owner.cgroupID == sample.cgroupID
  }

  lemma NamedIff(all: seq<NamespacedResolver>, sample: CgroupFlow, owner: ProcessOwner)
    ensures IsNamed(all, sample, owner) <==> exists i :: 0 <= i < |all| && Recognises(all[i], sample, owner)
  {
    hide Judged;
    forall i | 0 <= i < |all| ensures Named(all[i], sample) == Some(owner) <==> Recognises(all[i], sample, owner) {
    }
    if IsNamed(all, sample, owner) {
      var i :| 0 <= i < |all| && Names(all, sample)[i] == Some(owner);
      assert Recognises(all[i], sample, owner);
    }
    if i :| 0 <= i < |all| && Recognises(all[i], sample, owner) {
      assert Names(all, sample)[i] == Some(owner);
    }
  }

  /** The named process comes with a record that some namespace of its cgroup has, marked as found by its socket. */
  lemma NamedOwnerIsRecorded(sys: SystemResolver, sample: CgroupFlow)
    requires Resolved(sys, sample).process.Some?
    ensures exists i, owner ::
      && 0 <= i < |sys.Namespaces(sample.cgroupID)| && Recognises(sys.Namespaces(sample.cgroupID)[i], sample, owner)
      && Resolved(sys, sample).process == Some(owner.(workload := owner.workload.(attribution := "socket")))
  {
    hide Judged, IsNamed, Recognises;
    var all := sys.Namespaces(sample.cgroupID);
    CandidatesAreNamed(all, sample);
    var owner := Candidates(all, sample)[0];
    assert IsNamed(all, sample, owner);
    NamedIff(all, sample, owner);
  }

  /** The reason given when no process is named. */
  lemma ReasonIff(sys: SystemResolver, sample: CgroupFlow)
    requires Resolved(sys, sample).process.None?
    ensures var all, reason := sys.Namespaces(sample.cgroupID), Resolved(sys, sample).reason;
            if sample.flow.protocol != 6 && sample.flow.protocol != 17 then reason == UNSUPPORTED
            else
              && (reason == AMBIGUOUS || reason == UNMATCHED)
              && (reason == AMBIGUOUS <==>
                    || (exists i :: 0 <= i < |all| && Judged(all[i].resolver.Seen(), sample.flow) == Ambiguous)
                    || exists x, y :: IsNamed(all, sample, x) && IsNamed(all, sample, y) && x.id != y.id)
  {
    hide Judged, IsNamed;
    var all := sys.Namespaces(sample.cgroupID);
    var cs := Candidates(all, sample);
    CandidatesAreNamed(all, sample);
    if |cs| > 1 {
      assert IsNamed(all, sample, cs[0]) && IsNamed(all, sample, cs[1]) && cs[0].id != cs[1].id;
    } else if x, y :| IsNamed(all, sample, x) && IsNamed(all, sample, y) && x.id != y.id {
      assert HasId(cs, x.id) && HasId(cs, y.id);
    }
  }

  // ----- Order of the namespaces -----

  lemma PermutedElements<T>(a: seq<T>, b: seq<T>)
    requires multiset(a) == multiset(b)
    ensures forall i :: 0 <= i < |a| ==> a[i] in b
    ensures forall i :: 0 <= i < |b| ==> b[i] in a
  {
    assert forall i :: 0 <= i < |a| ==> a[i] in multiset(a);
    assert forall i :: 0 <= i < |b| ==> b[i] in multiset(b);
  }

  /** All that attribution can see of a namespace: the sockets and their holders, and the recorded processes. */
  datatype View = View(seen: Evidence, pids: map<ProcessID, ProcessOwner>)

  ghost function ViewOf(ns: NamespacedResolver): View {
    View(ns.resolver.Seen(), ns.pids)
  }

  ghost function ViewsOf(all: seq<NamespacedResolver>): seq<View> {
    seq(|all|, i requires 0 <= i < |all| => ViewOf(all[i]))
  }

  /** Systems that show the same: their namespaces may be listed in another order and stored differently. */
  ghost predicate SameSystem(sys: SystemResolver, sys': SystemResolver) {
    sys.workload == sys'.workload && forall c :: multiset(ViewsOf(sys.Namespaces(c))) == multiset(ViewsOf(sys'.Namespaces(c)))
  }

  lemma SameViewSameName(x: NamespacedResolver, y: NamespacedResolver, sample: CgroupFlow)
    requires ViewOf(x) == ViewOf(y)
    ensures Named(x, sample) == Named(y, sample)
    ensures Judged(x.resolver.Seen(), sample.flow) == Judged(y.resolver.Seen(), sample.flow)
  {
    hide Judged;
  }

  lemma NamedByEither(a: seq<NamespacedResolver>, b: seq<NamespacedResolver>, sample: CgroupFlow)
    requires forall i :: 0 <= i < |ViewsOf(a)| ==> ViewsOf(a)[i] in ViewsOf(b)
    ensures forall owner :: IsNamed(a, sample, owner) ==> IsNamed(b, sample, owner)
    ensures IsAmbiguousSomewhere(a, sample) ==> IsAmbiguousSomewhere(b, sample)
  {
    hide Judged, Named, ViewOf;
    forall owner | IsNamed(a, sample, owner) ensures IsNamed(b, sample, owner) {
      var i :| 0 <= i < |a| && Names(a, sample)[i] == Some(owner);
      assert ViewsOf(a)[i] in ViewsOf(b);
      var j :| 0 <= j < |b| && ViewsOf(b)[j] == ViewsOf(a)[i];
      SameViewSameName(a[i], b[j], sample);
      assert Names(b, sample)[j] == Some(owner);
    }
    if i :| 0 <= i < |a| && Judged(a[i].resolver.Seen(), sample.flow) == Ambiguous {
      assert ViewsOf(a)[i] in ViewsOf(b);
      var j :| 0 <= j < |b| && ViewsOf(b)[j] == ViewsOf(a)[i];
      SameViewSameName(a[i], b[j], sample);
    }
  }

  ghost predicate OneRecordEach(all: seq<NamespacedResolver>) {
    forall i, j, p :: 0 <= i < |all| && 0 <= j < |all| && p in all[i].pids && p in all[j].pids ==>
      all[i].pids[p] == all[j].pids[p] && all[i].pids[p].id == p
  }

  lemma {:induction false} SameIdsSameCount(a: seq<ProcessOwner>, b: seq<ProcessOwner>)
    requires forall i, j :: 0 <= i < j < |a| ==> a[i].id != a[j].id
    requires forall i :: 0 <= i < |a| ==> HasId(b, a[i].id)
    ensures |a| <= |b|
    decreases |a|
  {
    if a != [] {
      var n := |a| - 1;
      assert HasId(b, a[n].id);
      var k :| 0 <= k < |b| && b[k].id == a[n].id;
      var b' := b[..k] + b[k + 1..];
      forall i | 0 <= i < n ensures HasId(b', a[..n][i].id) {
        assert HasId(b, a[i].id);
        var j :| 0 <= j < |b| && b[j].id == a[i].id;
        assert b'[if j < k then j else j - 1] == b[j];
      }
      SameIdsSameCount(a[..n], b');
    }
  }

  /** With one record per process the outcome depends on what the namespaces of a cgroup show, not on the order
      in which they are visited. */
  lemma NamespaceOrderIsIrrelevant(sys: SystemResolver, sys': SystemResolver, sample: CgroupFlow)
    requires sys'.workload == sys.workload
    requires multiset(ViewsOf(sys.Namespaces(sample.cgroupID))) == multiset(ViewsOf(sys'.Namespaces(sample.cgroupID)))
    requires OneRecordEach(sys.Namespaces(sample.cgroupID))
    ensures Resolved(sys, sample) == Resolved(sys', sample)
  {
    var a, b := sys.Namespaces(sample.cgroupID), sys'.Namespaces(sample.cgroupID);
    hide Judged, IsNamed, IsAmbiguousSomewhere, Candidates, ViewsOf;
    var cs, ds := Candidates(a, sample), Candidates(b, sample);
    CandidatesAreNamed(a, sample);
    CandidatesAreNamed(b, sample);
    PermutedElements(ViewsOf(a), ViewsOf(b));
    NamedByEither(a, b, sample);
    NamedByEither(b, a, sample);
    SameIdsSameCount(cs, ds);
    SameIdsSameCount(ds, cs);
    if |cs| == 1 {
      assert IsNamed(a, sample, cs[0]) && IsNamed(b, sample, ds[0]) && IsNamed(a, sample, ds[0]);
      assert HasId(cs, ds[0].id);
      NamedRecordsAgree(a, sample, cs[0], ds[0]);
    }
  }

  lemma NamedIsRecorded(all: seq<NamespacedResolver>, sample: CgroupFlow, owner: ProcessOwner) returns (i: nat, p: ProcessID)
    requires IsNamed(all, sample, owner)
    ensures i < |all| && p in all[i].pids && all[i].pids[p] == owner && owner.cgroupID == sample.cgroupID
  {
    i :| 0 <= i < |all| && Names(all, sample)[i] == Some(owner);
    p := Judged(all[i].resolver.Seen(), sample.flow).process;
  }

  lemma NamedRecordsAgree(all: seq<NamespacedResolver>, sample: CgroupFlow, x: ProcessOwner, y: ProcessOwner)
    requires OneRecordEach(all) && IsNamed(all, sample, x) && IsNamed(all, sample, y) && x.id == y.id
    ensures x == y
  {
  }

  /** Two samples that resolve to the same process carry the same record. */
  lemma OneRecordPerProcess(sys: SystemResolver, a: CgroupFlow, b: CgroupFlow)
    requires sys.Consistent()
    requires Resolved(sys, a).process.Some? && Resolved(sys, b).process.Some?
    requires Resolved(sys, a).process.value.id == Resolved(sys, b).process.value.id
    ensures Resolved(sys, a).process == Resolved(sys, b).process
  {
    hide Judged, Candidates, IsNamed, ReasonFor;
    var as', bs := sys.Namespaces(a.cgroupID), sys.Namespaces(b.cgroupID);
    CandidatesAreNamed(as', a);
    CandidatesAreNamed(bs, b);
    var x, y := Candidates(as', a)[0], Candidates(bs, b)[0];
    assert IsNamed(as', a, x) && IsNamed(bs, b, y);
    var i, p := NamedIsRecorded(as', a, x);
    var j, q := NamedIsRecorded(bs, b, y);
    assert p in sys.byCgroup[a.cgroupID][i].pids && q in sys.byCgroup[b.cgroupID][j].pids;
  }
}
