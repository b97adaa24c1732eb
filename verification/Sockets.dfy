/** From a flow tuple to the one process that owns its socket (internal/netmon/proc.go, lines 130-211). */
module Sockets {
  import opened NetTypes

  datatype SocketEntry = SocketEntry(flow: FlowKey, inode: nat)

  /** What was observed: which sockets have which tuple, and which processes hold which socket. */
  datatype Evidence = Evidence(sockets: set<SocketEntry>, owners: map<nat, seq<ProcessID>>)

  /** The inodes of a tuple are kept as a list without repetitions. */
  datatype Resolver = Resolver(flows: map<FlowKey, seq<nat>>, owners: map<nat, seq<ProcessID>>) {

    ghost predicate Valid() {
      forall f :: f in flows ==> flows[f] != [] && NoRepetition(flows[f])
    }

    ghost function Seen(): Evidence {
      Evidence(set f, i | f in flows && i in flows[f] :: SocketEntry(f, i), owners)
    }
  }

  ghost predicate NoRepetition<T>(s: seq<T>) {
    forall i, j :: 0 <= i < j < |s| ==> s[i] != s[j]
  }

  function Elements<T>(s: seq<T>): set<T> {
    set x | x in s
  }

  lemma {:induction false} NoRepetitionCounts<T>(s: seq<T>)
    requires NoRepetition(s)
    ensures |Elements(s)| == |s|
  {
    if s != [] {
      var n := |s| - 1;
      NoRepetitionCounts(s[..n]);
      assert Elements(s) == Elements(s[..n]) + {s[n]};
      assert s[n] !in s[..n];
    }
  }

  // ----- The set specification -----

  datatype Verdict = Unmatched | Found(process: ProcessID) | Ambiguous

  ghost function InodesOf(sockets: set<SocketEntry>, flow: FlowKey): set<nat> {
    set e | e in sockets && e.flow == flow :: e.inode
  }

  function OwnersOf(owners: map<nat, seq<ProcessID>>, inode: nat): seq<ProcessID> {
    if inode in owners then owners[inode] else []
  }

  ghost function Judge(inodes: set<nat>, owners: map<nat, seq<ProcessID>>): Verdict {
    if inode :| inodes == {inode} then
      var holders := OwnersOf(owners, inode);
      if holders == [] then Unmatched else if |holders| == 1 then Found(holders[0]) else Ambiguous
    else Ambiguous
  }

  function UnspecifiedAddresses(addr: Addr): seq<Addr> {
    if addr.V4? then [IPV4_UNSPECIFIED, IPV6_UNSPECIFIED] else [IPV6_UNSPECIFIED]
  }

  /** The keys of a socket bound to `local` and connected to no one, IPv4 before IPv6. */
  function Unconnected(flow: FlowKey, local: AddrPort): seq<FlowKey> {
    var zeros := UnspecifiedAddresses(flow.remote.addr);
    seq(|zeros|, i requires 0 <= i < |zeros| => FlowKey(flow.protocol, local, AddrPort(zeros[i], 0)))
  }

  function BoundTo(flow: FlowKey, zeros: seq<Addr>): seq<FlowKey> {
    if zeros == [] then []
    else
      var n := |zeros| - 1;
      var local := AddrPort(zeros[n], flow.local.port);
      BoundTo(flow, zeros[..n]) + ([flow.(local := local)] + Unconnected(flow, local))
  }

  /** Every key a flow may be found under, most specific first; only UDP has more than the tuple itself. */
  function Precedence(flow: FlowKey): seq<FlowKey> {
    [flow] + if flow.protocol != PROTOCOL_UDP then []
             else Unconnected(flow, flow.local) + BoundTo(flow, UnspecifiedAddresses(flow.local.addr))
  }

  /** `i` is the first position in the precedence list whose key some socket has. */
  ghost predicate MatchesAt(sockets: set<SocketEntry>, keys: seq<FlowKey>, i: nat) {
    && i < |keys|
    && InodesOf(sockets, keys[i]) != {}
    && forall j :: 0 <= j < i ==> InodesOf(sockets, keys[j]) == {}
  }

  ghost function Judged(ev: Evidence, flow: FlowKey): Verdict {
    if i: nat :| MatchesAt(ev.sockets, Precedence(flow), i)
    then Judge(InodesOf(ev.sockets, Precedence(flow)[i]), ev.owners)
    else Unmatched
  }

  /** The source returns a reason; 0 says that there is none and the process is the answer. */
  function VerdictOf(process: ProcessID, reason: UnknownReason): Verdict
    requires reason != EXITED
  {
    if reason == 0 then Found(process) else if reason == UNMATCHED then Unmatched else Ambiguous
  }

  // ----- The code -----

  method NewResolver(entries: seq<SocketEntry>, owners: map<nat, seq<ProcessID>>) returns (r: Resolver)
    ensures r.Valid() && r.Seen() == Evidence(Elements(entries), owners)
  {
    var flows: map<FlowKey, seq<nat>> := map[];
    for n := 0 to |entries|
      invariant Resolver(flows, owners).Valid()
      invariant forall f, i :: (f in flows && i in flows[f]) <==> SocketEntry(f, i) in entries[..n]
    {
      var entry := entries[n];
      var inodes := if entry.flow in flows then flows[entry.flow] else [];
      var found := false;
      for k := 0 to |inodes|
        invariant !found && entry.inode !in inodes[..k]
      {
        if inodes[k] == entry.inode {
          found := true;
          break;
        }
      }
      assert entries[..n + 1] == entries[..n] + [entry];
      if !found {
        flows := flows[entry.flow := inodes + [entry.inode]];
      }
    }
    r := Resolver(flows, owners);
    assert entries[..|entries|] == entries;
    forall e ensures e in r.Seen().sockets <==> e in Elements(entries) {
      assert e == SocketEntry(e.flow, e.inode);
    }
  }

  function ResolveExact(r: Resolver, flow: FlowKey): (ProcessID, UnknownReason) {
    var nobody := ProcessID(0, 0);
    if flow !in r.flows then (nobody, UNMATCHED)
    else
      var inodes := r.flows[flow];
      if |inodes| != 1 then (nobody, AMBIGUOUS)
      else
        var owners := OwnersOf(r.owners, inodes[0]);
        if |owners| == 0 then (nobody, UNMATCHED)
        else if |owners| != 1 then (nobody, AMBIGUOUS)
        else (owners[0], 0)
  }

  lemma ResolveExactJudges(r: Resolver, flow: FlowKey)
    requires r.Valid() && flow in r.flows
    ensures InodesOf(r.Seen().sockets, flow) == Elements(r.flows[flow]) != {}
    ensures ResolveExact(r, flow).1 != EXITED
    ensures VerdictOf(ResolveExact(r, flow).0, ResolveExact(r, flow).1) == Judge(InodesOf(r.Seen().sockets, flow), r.owners)
  {
    var inodes := r.flows[flow];
    assert forall i :: i in inodes ==> SocketEntry(flow, i) in r.Seen().sockets;
    assert InodesOf(r.Seen().sockets, flow) == Elements(inodes);
    assert inodes[0] in Elements(inodes);
    if |inodes| == 1 {
      assert Elements(inodes) == {inodes[0]};
    } else {
      assert inodes[1] in Elements(inodes) && inodes[0] != inodes[1];
    }
  }

  lemma FirstMatchJudges(r: Resolver, flow: FlowKey, i: nat)
    requires r.Valid() && i < |Precedence(flow)| && Precedence(flow)[i] in r.flows
    requires forall j :: 0 <= j < i ==> Precedence(flow)[j] !in r.flows
    ensures Judged(r.Seen(), flow) == Judge(InodesOf(r.Seen().sockets, Precedence(flow)[i]), r.owners)
  {
    var sockets, keys := r.Seen().sockets, Precedence(flow);
    ResolveExactJudges(r, keys[i]);
    forall j | 0 <= j < i ensures InodesOf(sockets, keys[j]) == {} {
      NoSocketNoInodes(r, keys[j]);
    }
    assert MatchesAt(sockets, keys, i);
    forall k: nat | MatchesAt(sockets, keys, k) ensures k == i {
    }
  }

  lemma NoSocketNoInodes(r: Resolver, flow: FlowKey)
    requires flow !in r.flows
    ensures InodesOf(r.Seen().sockets, flow) == {}
  {
  }

  lemma NoMatchJudges(r: Resolver, flow: FlowKey)
    requires forall j :: 0 <= j < |Precedence(flow)| ==> Precedence(flow)[j] !in r.flows
    ensures Judged(r.Seen(), flow) == Unmatched
  {
  }

  /** The wildcard tuples a UDP flow may be found under. */
  method WildcardCandidates(flow: FlowKey) returns (candidates: seq<FlowKey>)
    requires flow.protocol == PROTOCOL_UDP
    ensures Precedence(flow) == [flow] + candidates
  {
    var localZeros := UnspecifiedAddresses(flow.local.addr);
    var remoteZeros := UnspecifiedAddresses(flow.remote.addr);
    candidates := RemoteWildcards(flow, flow.local, remoteZeros);
    for i := 0 to |localZeros|
      invariant candidates == Unconnected(flow, flow.local) + BoundTo(flow, localZeros[..i])
    {
      var local := AddrPort(localZeros[i], flow.local.port);
      assert localZeros[..i + 1][..i] == localZeros[..i];
      candidates := candidates + [flow.(local := local)];
      var more := RemoteWildcards(flow, local, remoteZeros);
      candidates := candidates + more;
    }
    assert localZeros[..|localZeros|] == localZeros;
  }

  method Resolve(r: Resolver, flow: FlowKey) returns (process: ProcessID, reason: UnknownReason)
    requires r.Valid()
    ensures reason != EXITED && VerdictOf(process, reason) == Judged(r.Seen(), flow)
  {
    hide Judged, Judge, InodesOf, ResolveExact;
    ghost var keys := Precedence(flow);
    if flow in r.flows {
      FirstMatchJudges(r, flow, 0);
      ResolveExactJudges(r, flow);
      var (p, why) := ResolveExact(r, flow);
      return p, why;
    }
    if flow.protocol != PROTOCOL_UDP {
      NoMatchJudges(r, flow);
      return ProcessID(0, 0), UNMATCHED;
    }
    var candidates := WildcardCandidates(flow);
    hide Precedence;
    for i := 0 to |candidates|
      invariant forall j :: 0 <= j <= i ==> keys[j] !in r.flows
    {
      assert keys[i + 1] == candidates[i];
      if candidates[i] in r.flows {
        FirstMatchJudges(r, flow, i + 1);
        ResolveExactJudges(r, candidates[i]);
        var (p, why) := ResolveExact(r, candidates[i]);
        return p, why;
      }
    }
    NoMatchJudges(r, flow);
    return ProcessID(0, 0), UNMATCHED;
  }

  method RemoteWildcards(flow: FlowKey, local: AddrPort, zeros: seq<Addr>) returns (keys: seq<FlowKey>)
    requires zeros == UnspecifiedAddresses(flow.remote.addr)
    ensures keys == Unconnected(flow, local)
  {
    keys := [];
    for i := 0 to |zeros|
      invariant |keys| == i && forall j :: 0 <= j < i ==> keys[j] == Unconnected(flow, local)[j]
    {
      keys := keys + [FlowKey(flow.protocol, local, AddrPort(zeros[i], 0))];
    }
  }

  // ----- What the verdict promises -----

  /** The precedence list in full for an IPv4 datagram. */
  lemma PrecedenceOfIPv4Datagram(flow: FlowKey)
    requires flow.protocol == 17 && flow.local.addr.V4? && flow.remote.addr.V4?
    ensures var any4, any6 := AddrPort(V4([0, 0, 0, 0]), 0), AddrPort(V6(ZEROS), 0);
            var all4, all6 := AddrPort(V4([0, 0, 0, 0]), flow.local.port), AddrPort(V6(ZEROS), flow.local.port);
            Precedence(flow) == [
              flow,
              flow.(remote := any4), flow.(remote := any6),
              flow.(local := all4), flow.(local := all4, remote := any4), flow.(local := all4, remote := any6),
              flow.(local := all6), flow.(local := all6, remote := any4), flow.(local := all6, remote := any6)]
  {
    var zeros := [IPV4_UNSPECIFIED, IPV6_UNSPECIFIED];
    assert zeros[..1] == [IPV4_UNSPECIFIED] && [IPV4_UNSPECIFIED][..0] == [];
    assert BoundTo(flow, []) == [];
    assert BoundTo(flow, zeros) == BoundTo(flow, [IPV4_UNSPECIFIED])
        + ([flow.(local := AddrPort(IPV6_UNSPECIFIED, flow.local.port))] + Unconnected(flow, AddrPort(IPV6_UNSPECIFIED, flow.local.port)));
  }

  lemma JudgedAt(ev: Evidence, flow: FlowKey, i: nat)
    requires MatchesAt(ev.sockets, Precedence(flow), i)
    ensures Judged(ev, flow) == Judge(InodesOf(ev.sockets, Precedence(flow)[i]), ev.owners)
  {
  }

  /** A process is named iff the most specific key that any socket has belongs to one socket, and that socket
      to one process: several sockets (SO_REUSEPORT) or several holders are never resolved by a wildcard. */
  lemma FoundIff(ev: Evidence, flow: FlowKey, p: ProcessID)
    ensures Judged(ev, flow) == Found(p)
      <==> exists i: nat, inode :: MatchesAt(ev.sockets, Precedence(flow), i)
             && InodesOf(ev.sockets, Precedence(flow)[i]) == {inode}
             && OwnersOf(ev.owners, inode) == [p]
  {
  }

  /** The same for datagrams between IPv6 ends: no IPv4 key is ever tried. */
  lemma PrecedenceOfIPv6Datagram(flow: FlowKey)
    requires flow.protocol == 17 && !flow.local.addr.V4? && !flow.remote.addr.V4?
    ensures var any6, all6 := AddrPort(V6(ZEROS), 0), AddrPort(V6(ZEROS), flow.local.port);
            Precedence(flow) == [flow, flow.(remote := any6), flow.(local := all6), flow.(local := all6, remote := any6)]
  {
    assert BoundTo(flow, []) == [];
    assert [IPV6_UNSPECIFIED][..0] == [];
  }

  const ZEROS: Octets16 := [0, 0, 0, 0, 0, 0, 0, 0, 0, 0, 0, 0, 0, 0, 0, 0]

  /** From an IPv4 end to an IPv6 one: the local side may be bound to either family, the remote side to IPv6. */
  lemma PrecedenceOfDatagramToIPv6(flow: FlowKey)
    requires flow.protocol == 17 && flow.local.addr.V4? && !flow.remote.addr.V4?
    ensures var any6 := AddrPort(V6(ZEROS), 0);
            var all4, all6 := AddrPort(V4([0, 0, 0, 0]), flow.local.port), AddrPort(V6(ZEROS), flow.local.port);
            Precedence(flow) == [
              flow, flow.(remote := any6),
              flow.(local := all4), flow.(local := all4, remote := any6),
              flow.(local := all6), flow.(local := all6, remote := any6)]
  {
    var zeros := [IPV4_UNSPECIFIED, IPV6_UNSPECIFIED];
    assert zeros[..1] == [IPV4_UNSPECIFIED] && [IPV4_UNSPECIFIED][..0] == [];
    assert BoundTo(flow, []) == [];
    assert BoundTo(flow, zeros) == BoundTo(flow, [IPV4_UNSPECIFIED])
        + ([flow.(local := AddrPort(IPV6_UNSPECIFIED, flow.local.port))] + Unconnected(flow, AddrPort(IPV6_UNSPECIFIED, flow.local.port)));
  }

  /** And from an IPv6 end to an IPv4 one. */
  lemma PrecedenceOfDatagramToIPv4(flow: FlowKey)
    requires flow.protocol == 17 && !flow.local.addr.V4? && flow.remote.addr.V4?
    ensures var any4, any6 := AddrPort(V4([0, 0, 0, 0]), 0), AddrPort(V6(ZEROS), 0);
            var all6 := AddrPort(V6(ZEROS), flow.local.port);
            Precedence(flow) == [
              flow, flow.(remote := any4), flow.(remote := any6),
              flow.(local := all6), flow.(local := all6, remote := any4), flow.(local := all6, remote := any6)]
  {
    assert BoundTo(flow, []) == [];
    assert [IPV6_UNSPECIFIED][..0] == [];
  }

  /** `inode` is the one socket with exactly this tuple. */
  ghost predicate OnlySocket(sockets: set<SocketEntry>, flow: FlowKey, inode: nat) {
    forall e :: e in sockets && e.flow == flow <==> e == SocketEntry(flow, inode)
  }

  /** No wildcard is ever tried for TCP, or for anything but UDP: a process is named iff one socket has exactly
      this tuple and that process alone holds it, and without such a socket there is no match. */
  lemma ConnectionIff(ev: Evidence, flow: FlowKey, p: ProcessID)
    requires flow.protocol != 17
    ensures Judged(ev, flow) == Found(p)
      <==> exists inode :: OnlySocket(ev.sockets, flow, inode) && OwnersOf(ev.owners, inode) == [p]
    ensures Judged(ev, flow) == Unmatched
      <==> (forall e :: e in ev.sockets ==> e.flow != flow)
           || exists inode :: OnlySocket(ev.sockets, flow, inode) && OwnersOf(ev.owners, inode) == []
  {
    var inodes := InodesOf(ev.sockets, flow);
    forall inode: nat ensures inodes == {inode} <==> OnlySocket(ev.sockets, flow, inode) {
      OnlySocketIff(ev.sockets, flow, inode);
    }
    assert Precedence(flow) == [flow];
    if inodes == {} {
      forall e | e in ev.sockets ensures e.flow != flow {
        assert e.flow == flow ==> e.inode in inodes;
      }
    } else {
      JudgedAt(ev, flow, 0);
      var inode :| inode in inodes;
      assert exists e :: e in ev.sockets && e.flow == flow;
    }
  }

  lemma OnlySocketIff(sockets: set<SocketEntry>, flow: FlowKey, inode: nat)
    ensures InodesOf(sockets, flow) == {inode} <==> OnlySocket(sockets, flow, inode)
  {
    var inodes := InodesOf(sockets, flow);
    if inodes == {inode} {
      assert inode in inodes;
      forall e | e in sockets && e.flow == flow ensures e == SocketEntry(flow, inode) {
        assert e.inode in inodes;
      }
    }
    if OnlySocket(sockets, flow, inode) {
      assert SocketEntry(flow, inode) in sockets;
    }
  }

  /** A datagram that no key of its list matches, or whose socket nobody holds, is unmatched. */
  lemma UnmatchedIff(ev: Evidence, flow: FlowKey)
    ensures Judged(ev, flow) == Unmatched
      <==> (forall j :: 0 <= j < |Precedence(flow)| ==> InodesOf(ev.sockets, Precedence(flow)[j]) == {})
           || exists i: nat, inode :: MatchesAt(ev.sockets, Precedence(flow), i)
                && InodesOf(ev.sockets, Precedence(flow)[i]) == {inode} && OwnersOf(ev.owners, inode) == []
  {
    var keys := Precedence(flow);
    if i: nat :| MatchesAt(ev.sockets, keys, i) {
      JudgedAt(ev, flow, i);
    } else {
      NoMatchNoSocket(ev.sockets, keys, |keys|);
    }
  }

  lemma {:induction false} NoMatchNoSocket(sockets: set<SocketEntry>, keys: seq<FlowKey>, n: nat)
    requires n <= |keys| && forall i: nat :: !MatchesAt(sockets, keys, i)
    ensures forall j :: 0 <= j < n ==> InodesOf(sockets, keys[j]) == {}
  {
    if n > 0 {
      NoMatchNoSocket(sockets, keys, n - 1);
      assert !MatchesAt(sockets, keys, n - 1);
    }
  }

  function Rank(v: Verdict): nat {
    match v case Unmatched => 0 case Found(_) => 1 case Ambiguous => 2
  }

  ghost predicate MoreOwners(few: map<nat, seq<ProcessID>>, many: map<nat, seq<ProcessID>>) {
    forall inode ::
      && NoRepetition(OwnersOf(few, inode)) && NoRepetition(OwnersOf(many, inode))
      && Elements(OwnersOf(few, inode)) <= Elements(OwnersOf(many, inode))
  }

  lemma MoreHoldersOnlyRaise(few: seq<ProcessID>, many: seq<ProcessID>)
    requires NoRepetition(few) && NoRepetition(many) && Elements(few) <= Elements(many)
    ensures |few| <= |many|
    ensures |few| == 1 == |many| ==> few == many
  {
    NoRepetitionCounts(few);
    NoRepetitionCounts(many);
    SubsetCounts(Elements(few), Elements(many));
    if |few| == 1 == |many| {
      assert few[0] in Elements(many);
    }
  }

  lemma {:induction false} SubsetCounts<T>(a: set<T>, b: set<T>)
    requires a <= b
    ensures |a| <= |b|
    decreases |a|
  {
    if a != {} {
      var x :| x in a;
      SubsetCounts(a - {x}, b - {x});
    }
  }

  lemma JudgeOnlyRises(few: set<nat>, many: set<nat>, owners: map<nat, seq<ProcessID>>, owners': map<nat, seq<ProcessID>>)
    requires {} != few <= many && MoreOwners(owners, owners')
    ensures Rank(Judge(few, owners)) <= Rank(Judge(many, owners'))
    ensures Judge(few, owners).Found? && Judge(many, owners').Found? ==> Judge(few, owners) == Judge(many, owners')
  {
    if inode :| many == {inode} {
      assert few == {inode};
      assert forall other :: {inode} == {other} ==> other in {inode};
      MoreHoldersOnlyRaise(OwnersOf(owners, inode), OwnersOf(owners', inode));
    }
  }

  /** More sockets and more holders, as long as none has a more specific key than the one matched, move the
      verdict only from unmatched over a process to ambiguous; they never name another process. */
  lemma EvidenceNeverSwapsProcess(ev: Evidence, ev': Evidence, flow: FlowKey)
    requires ev.sockets <= ev'.sockets && MoreOwners(ev.owners, ev'.owners)
    requires forall i: nat, j :: MatchesAt(ev.sockets, Precedence(flow), i) && 0 <= j < i ==> InodesOf(ev'.sockets, Precedence(flow)[j]) == {}
    ensures Rank(Judged(ev, flow)) <= Rank(Judged(ev', flow))
    ensures Judged(ev, flow).Found? && Judged(ev', flow).Found? ==> Judged(ev, flow) == Judged(ev', flow)
  {
    var keys := Precedence(flow);
    if i: nat :| MatchesAt(ev.sockets, keys, i) {
      var few, many := InodesOf(ev.sockets, keys[i]), InodesOf(ev'.sockets, keys[i]);
      forall inode | inode in few ensures inode in many {
        assert SocketEntry(keys[i], inode) in ev'.sockets;
      }
      JudgedAt(ev, flow, i);
      JudgedAt(ev', flow, i);
      JudgeOnlyRises(few, many, ev.owners, ev'.owners);
    }
  }
}
