/** User space's view of the shared byte counters: turning cumulative values into per-poll deltas
    (internal/netmon/ebpf_linux.go). A walk of the kernel map is an input here: what the iterator
    yielded, in order, and how it ended. `CounterProtocol` says where walks come from. */
module FlowCounters {
  import opened NetTypes
  import opened Sums

  const FAMILY_INET: byte := 2
  const FAMILY_INET6: byte := 10

  datatype BpfKey = BpfKey(
    cgroupID: nat,
    family: byte,
    protocol: byte,
    direction: Direction,
    sourcePort: u16,
    destPort: u16,
    sourceIP: Octets16,
    destIP: Octets16)

  type Baselines = map<BpfKey, nat>

  datatype Visit = Visit(key: BpfKey, value: nat)

  datatype WalkEnd = Completed | Aborted | Failed

  datatype Walk = Walk(visits: seq<Visit>, end: WalkEnd)

  datatype ReadError = NoError | IterationAborted | HardError

  /** What one call of `ReadDeltas` leaves behind and returns. */
  datatype Outcome = Outcome(previous: Baselines, flows: seq<CgroupFlow>, error: ReadError)

  // ----- The key a flow is reported under -----

  function KeyAddr(family: byte, ip: Octets16): Addr {
    if family == FAMILY_INET then V4(ip[..4]).Unmap()
    else if family == FAMILY_INET6 then V6(ip).Unmap()
    else NoAddr
  }

  /** The flow of a key, without its bytes; only the two families the kernel program writes have one. */
  function FlowFromBpfKey(key: BpfKey): Option<CgroupFlow> {
    if key.family != FAMILY_INET && key.family != FAMILY_INET6 then None
    else
      var source := AddrPort(KeyAddr(key.family, key.sourceIP), key.sourcePort);
      var dest := AddrPort(KeyAddr(key.family, key.destIP), key.destPort);
      var flow := if key.direction == Egress
                  then FlowKey(key.protocol, source, dest)
                  else FlowKey(key.protocol, dest, source);
      Some(CgroupFlow(key.cgroupID, key.direction, flow, 0))
  }

  predicate Reportable(key: BpfKey) {
    key.family == FAMILY_INET || key.family == FAMILY_INET6
  }

  // ----- One walk -----

  /** The bytes a visit adds: a value below the baseline is a recreated counter, counted from zero. */
  function Delta(base: nat, value: nat): nat {
    if value < base then value else value - base
  }

  function Emission(previous: Baselines, visit: Visit): seq<CgroupFlow> {
    match FlowFromBpfKey(visit.key)
    case None => []
    case Some(flow) =>
      var base := At(previous, visit.key);
      if visit.value == base then [] else [flow.(bytes := Delta(base, visit.value))]
  }

  function Flows(previous: Baselines, visits: seq<Visit>): seq<CgroupFlow> {
    if visits == [] then []
    else Flows(previous, visits[..|visits| - 1]) + Emission(previous, visits[|visits| - 1])
  }

  /** The value read at the last visit of each key. */
  function Observed(visits: seq<Visit>): Baselines {
    if visits == [] then map[]
    else
      var last := visits[|visits| - 1];
      Observed(visits[..|visits| - 1])[last.key := last.value]
  }

  /** A visit that shows on the output: of a family that can be reported, and a value other than the baseline. */
  predicate Emits(previous: Baselines, visit: Visit) {
    (visit.key.family == 2 || visit.key.family == 10) && visit.value != At(previous, visit.key)
  }

  /** How many of the first `i` visits show. */
  function EmittedBefore(previous: Baselines, visits: seq<Visit>, i: nat): nat
    requires i <= |visits|
  {
    if i == 0 then 0 else EmittedBefore(previous, visits, i - 1) + if Emits(previous, visits[i - 1]) then 1 else 0
  }

  /** One flow for each visit that shows, in order: the value itself where it is below the baseline, otherwise
      what it exceeds the baseline by. */
  ghost predicate Tells(flows: seq<CgroupFlow>, previous: Baselines, visits: seq<Visit>) {
    && |flows| == EmittedBefore(previous, visits, |visits|)
    && forall i :: 0 <= i < |visits| && Emits(previous, visits[i]) ==>
         var n, base := EmittedBefore(previous, visits, i), At(previous, visits[i].key);
         && n < |flows| && FlowFromBpfKey(visits[i].key) == Some(flows[n].(bytes := 0))
         && (visits[i].value < base ==> flows[n].bytes == visits[i].value)
         && (visits[i].value >= base ==> base + flows[n].bytes == visits[i].value)
  }

  lemma {:induction false} EmittedOfPrefix(previous: Baselines, visits: seq<Visit>, n: nat, i: nat)
    requires i <= n <= |visits|
    ensures EmittedBefore(previous, visits[..n], i) == EmittedBefore(previous, visits, i)
  {
    if i > 0 {
      EmittedOfPrefix(previous, visits, n, i - 1);
    }
  }

  lemma {:induction false} FlowsTell(previous: Baselines, visits: seq<Visit>)
    ensures Tells(Flows(previous, visits), previous, visits)
  {
    if visits != [] {
      var n := |visits| - 1;
      FlowsTell(previous, visits[..n]);
      EmissionTells(previous, visits[n]);
      hide Tells, Emission, Emits;
      OneMoreTells(Flows(previous, visits[..n]), Emission(previous, visits[n]), previous, visits, n);
    }
  }

  lemma EmissionTells(previous: Baselines, visit: Visit)
    ensures Tells(Emission(previous, visit), previous, [visit])
  {
    assert EmittedBefore(previous, [visit], 0) == 0;
  }

  lemma OneMoreTells(flows: seq<CgroupFlow>, more: seq<CgroupFlow>, previous: Baselines, visits: seq<Visit>, n: nat)
    requires |visits| == n + 1 && Tells(flows, previous, visits[..n]) && Tells(more, previous, [visits[n]])
    ensures Tells(flows + more, previous, visits)
  {
    hide FlowFromBpfKey, Emits;
    forall i | 0 <= i <= n ensures EmittedBefore(previous, visits[..n], i) == EmittedBefore(previous, visits, i) {
      EmittedOfPrefix(previous, visits, n, i);
    }
    assert EmittedBefore(previous, [visits[n]], 0) == 0;
    assert EmittedBefore(previous, visits, n) == |flows| && |flows + more| == EmittedBefore(previous, visits, n + 1);
    forall i | 0 <= i <= n && Emits(previous, visits[i])
      ensures var k, base := EmittedBefore(previous, visits, i), At(previous, visits[i].key);
              && k < |flows + more| && FlowFromBpfKey(visits[i].key) == Some((flows + more)[k].(bytes := 0))
              && (visits[i].value < base ==> (flows + more)[k].bytes == visits[i].value)
              && (visits[i].value >= base ==> base + (flows + more)[k].bytes == visits[i].value)
    {
      var k := EmittedBefore(previous, visits, i);
      if i < n {
        assert visits[..n][i] == visits[i] && k < |flows| && (flows + more)[k] == flows[k];
      } else {
        assert k == |flows| && |more| > 0 && (flows + more)[k] == more[0];
      }
    }
  }

  // ----- A whole poll -----

  const MAX_ATTEMPTS := 3

  /** The attempt whose walk decides the poll: the first that was not aborted, else the final one. */
  function Deciding(attempts: seq<Walk>): (i: nat)
    requires |attempts| > 0
    ensures i < |attempts|
    ensures forall j :: 0 <= j < i ==> attempts[j].end == Aborted
    ensures i == |attempts| - 1 || attempts[i].end != Aborted
  {
    if attempts[0].end != Aborted || |attempts| == 1 then 0 else 1 + Deciding(attempts[1..])
  }

  function Decide(previous: Baselines, walk: Walk): Outcome {
    match walk.end
    case Completed => Outcome(Observed(walk.visits), Flows(previous, walk.visits), NoError)
    case Aborted => Outcome(previous + Observed(walk.visits), Flows(previous, walk.visits), IterationAborted)
    case Failed => Outcome(previous, [], HardError)
  }

  class EBPFCollector {
    var previous: Baselines

    constructor ()
      ensures previous == map[]
    {
      previous := map[];
    }

    method ReadDeltasOnce(walk: Walk) returns (result: seq<CgroupFlow>, current: Baselines, end: WalkEnd)
      ensures result == Flows(previous, walk.visits) && Tells(result, previous, walk.visits)
      ensures current == Observed(walk.visits)
      ensures end == walk.end
    {
      current := map[];
      result := [];
      for i := 0 to |walk.visits|
        invariant result == Flows(previous, walk.visits[..i])
        invariant current == Observed(walk.visits[..i])
      {
        var Visit(key, value) := walk.visits[i];
        assert walk.visits[..i + 1][..i] == walk.visits[..i];
        current := current[key := value];
        var base := At(previous, key);
        if value == base {
          continue;
        }
        var flow := FlowFromBpfKey(key);
        if flow.None? {
          continue;
        }
        if value < base {
          base := 0;
        }
        result := result + [flow.value.(bytes := value - base)];
      }
      assert walk.visits[..|walk.visits|] == walk.visits;
      FlowsTell(previous, walk.visits);
      end := walk.end;
    }

    /** `attempts[i]` is what the i-th walk of the map would observe; later ones may never be made. */
    method ReadDeltas(attempts: seq<Walk>) returns (result: seq<CgroupFlow>, error: ReadError)
      requires |attempts| == MAX_ATTEMPTS + 1
      modifies this
      ensures Outcome(previous, result, error) == Decide(old(previous), attempts[Deciding(attempts)])
      ensures error == IterationAborted <==> forall i :: 0 <= i < 4 ==> attempts[i].end == Aborted
      ensures error == IterationAborted ==> Outcome(previous, result, error) == Decide(old(previous), attempts[3])
    {
      hide Tells, Flows, Observed;
      AllAborted(previous, attempts);
      var attempt := 0;
      while attempt < MAX_ATTEMPTS
        invariant 0 <= attempt <= MAX_ATTEMPTS
        invariant previous == old(previous)
        invariant forall j :: 0 <= j < attempt ==> attempts[j].end == Aborted
      {
        var flows, current, end := ReadDeltasOnce(attempts[attempt]);
        if end == Completed {
          previous := current;
          DecidingIs(attempts, attempt);
          return flows, NoError;
        }
        if end != Aborted {
          DecidingIs(attempts, attempt);
          return [], HardError;
        }
        attempt := attempt + 1;
      }
      DecidingIs(attempts, MAX_ATTEMPTS);
      var flows, current, end := ReadDeltasOnce(attempts[MAX_ATTEMPTS]);
      if end == Completed {
        previous := current;
        return flows, NoError;
      }
      if end == Aborted {
        previous := previous + current;
        return flows, IterationAborted;
      }
      return [], HardError;
    }
  }

  /** The poll is given up only after four aborted walks, and then the fourth counts. */
  lemma AllAborted(previous: Baselines, attempts: seq<Walk>)
    requires |attempts| == MAX_ATTEMPTS + 1
    ensures Decide(previous, attempts[Deciding(attempts)]).error == IterationAborted
      <==> forall i :: 0 <= i < 4 ==> attempts[i].end == Aborted
    ensures (forall i :: 0 <= i < 4 ==> attempts[i].end == Aborted) ==> Deciding(attempts) == 3
  {
    hide Flows, Observed;
    if forall i :: 0 <= i < 4 ==> attempts[i].end == Aborted {
      DecidingIs(attempts, 3);
    }
  }

  /** The retry rule in closed form: an index is the deciding one iff all before it aborted and it either
      did not or is the last. */
  lemma DecidingIs(attempts: seq<Walk>, i: nat)
    requires i < |attempts|
    requires forall j :: 0 <= j < i ==> attempts[j].end == Aborted
    requires i == |attempts| - 1 || attempts[i].end != Aborted
    ensures Deciding(attempts) == i
  {
  }

  // ----- Bytes of a walk, by key and by reported identity -----

  /** The bytes of the flows that are reported under one identity, a flow without its bytes. */
  function BytesOf(flows: seq<CgroupFlow>, id: CgroupFlow): nat {
    if flows == [] then 0
    else
      var last := flows[|flows| - 1];
      BytesOf(flows[..|flows| - 1], id) + if last.(bytes := 0) == id then last.bytes else 0
  }

  lemma {:induction false} BytesOfConcat(a: seq<CgroupFlow>, b: seq<CgroupFlow>, id: CgroupFlow)
    ensures BytesOf(a + b, id) == BytesOf(a, id) + BytesOf(b, id)
  {
    if b == [] {
      assert a + b == a;
    } else {
      BytesOfConcat(a, b[..|b| - 1], id);
      assert (a + b)[..|a + b| - 1] == a + b[..|b| - 1];
    }
  }

  /** What a visit, and a whole walk, add to the running per-key account of emitted bytes. */
  function CreditedVisit(reported: map<BpfKey, nat>, previous: Baselines, visit: Visit): map<BpfKey, nat> {
    if Reportable(visit.key)
    then reported[visit.key := At(reported, visit.key) + Delta(At(previous, visit.key), visit.value)]
    else reported
  }

  function Credited(reported: map<BpfKey, nat>, previous: Baselines, visits: seq<Visit>): map<BpfKey, nat> {
    if visits == [] then reported
    else CreditedVisit(Credited(reported, previous, visits[..|visits| - 1]), previous, visits[|visits| - 1])
  }

  predicate DistinctKeys(visits: seq<Visit>) {
    forall i, j :: 0 <= i < j < |visits| ==> visits[i].key != visits[j].key
  }

  /** A walk that visits each key at most once credits each visited key with exactly one delta, and every
      other key with nothing. */
  lemma {:induction false} CreditedOnce(reported: map<BpfKey, nat>, previous: Baselines, visits: seq<Visit>)
    requires DistinctKeys(visits)
    ensures forall i :: 0 <= i < |visits| ==>
      At(Credited(reported, previous, visits), visits[i].key) == At(reported, visits[i].key)
        + if Reportable(visits[i].key) then Delta(At(previous, visits[i].key), visits[i].value) else 0
    ensures forall k :: (forall i :: 0 <= i < |visits| ==> visits[i].key != k) ==>
      At(Credited(reported, previous, visits), k) == At(reported, k)
  {
    if visits != [] {
      var n := |visits| - 1;
      var rest := visits[..n];
      CreditedOnce(reported, previous, rest);
      assert forall i :: 0 <= i < n ==> rest[i] == visits[i];
      assert At(Credited(reported, previous, rest), visits[n].key) == At(reported, visits[n].key);
    }
  }

  /** In numbers: each visited key is credited with the value read if it fell below the baseline, and else with
      what it exceeds the baseline by. */
  lemma VisitedKeyIsCredited(reported: map<BpfKey, nat>, previous: Baselines, visits: seq<Visit>, i: nat)
    requires DistinctKeys(visits) && i < |visits| && Reportable(visits[i].key)
    ensures var key, after := visits[i].key, At(Credited(reported, previous, visits), visits[i].key);
            if visits[i].value < At(previous, key) then after == At(reported, key) + visits[i].value
            else after + At(previous, key) == At(reported, key) + visits[i].value
  {
    hide Credited;
    CreditedOnce(reported, previous, visits);
  }

  /** And so much is emitted under its identity, if no other visited key shares it. */
  lemma {:induction false} VisitedKeyIsEmitted(previous: Baselines, visits: seq<Visit>, i: nat, id: CgroupFlow)
    requires i < |visits| && FlowFromBpfKey(visits[i].key) == Some(id)
    requires forall j :: 0 <= j < |visits| && j != i ==> FlowFromBpfKey(visits[j].key) != Some(id)
    ensures var base, bytes := At(previous, visits[i].key), BytesOf(Flows(previous, visits), id);
            if visits[i].value < base then bytes == visits[i].value else base + bytes == visits[i].value
  {
    hide FlowFromBpfKey, BytesOf;
    var n := |visits| - 1;
    EmittedOnce(previous, visits[n], id);
    BytesOfConcat(Flows(previous, visits[..n]), Emission(previous, visits[n]), id);
    if i < n {
      VisitedKeyIsEmitted(previous, visits[..n], i, id);
    } else {
      NothingIsEmitted(previous, visits[..n], id);
    }
  }

  lemma EmittedOnce(previous: Baselines, visit: Visit, id: CgroupFlow)
    ensures FlowFromBpfKey(visit.key) != Some(id) ==> BytesOf(Emission(previous, visit), id) == 0
    ensures FlowFromBpfKey(visit.key) == Some(id) ==>
      var base, bytes := At(previous, visit.key), BytesOf(Emission(previous, visit), id);
      if visit.value < base then bytes == visit.value else base + bytes == visit.value
  {
  }

  lemma {:induction false} NothingIsEmitted(previous: Baselines, visits: seq<Visit>, id: CgroupFlow)
    requires forall j :: 0 <= j < |visits| ==> FlowFromBpfKey(visits[j].key) != Some(id)
    ensures BytesOf(Flows(previous, visits), id) == 0
  {
    hide FlowFromBpfKey;
    if visits != [] {
      var n := |visits| - 1;
      NothingIsEmitted(previous, visits[..n], id);
      EmittedOnce(previous, visits[n], id);
      BytesOfConcat(Flows(previous, visits[..n]), Emission(previous, visits[n]), id);
    }
  }

  lemma {:induction false} ObservedOnce(visits: seq<Visit>)
    requires DistinctKeys(visits)
    ensures forall i :: 0 <= i < |visits| ==> visits[i].key in Observed(visits) && Observed(visits)[visits[i].key] == visits[i].value
    ensures forall k :: k in Observed(visits) ==> exists i :: 0 <= i < |visits| && visits[i].key == k
  {
    if visits != [] {
      var n := |visits| - 1;
      var rest := visits[..n];
      ObservedOnce(rest);
      assert forall i :: 0 <= i < n ==> rest[i] == visits[i];
      forall k | k in Observed(visits)
        ensures exists i :: 0 <= i < |visits| && visits[i].key == k
      {
        if k != visits[n].key {
          assert k in Observed(rest);
        } else {
          assert visits[n].key == k;
        }
      }
    }
  }

  // ----- Duplicate visits -----

  /** What the visits of one key add up to. */
  function DeltasOf(base: nat, visits: seq<Visit>, key: BpfKey): nat {
    if visits == [] then 0
    else
      var last := visits[|visits| - 1];
      DeltasOf(base, visits[..|visits| - 1], key) + if last.key == key then Delta(base, last.value) else 0
  }

  /** Whatever a walk visits, a key is credited with the deltas of all its visits. */
  lemma {:induction false} CreditedIsDeltas(reported: map<BpfKey, nat>, previous: Baselines, visits: seq<Visit>, key: BpfKey)
    ensures At(Credited(reported, previous, visits), key)
      == At(reported, key) + if Reportable(key) then DeltasOf(At(previous, key), visits, key) else 0
  {
    if visits != [] {
      CreditedIsDeltas(reported, previous, visits[..|visits| - 1], key);
    }
  }

  /** One flow is emitted per visit. A walk whose last visit of a key is `visits[n]` credits the key with at
      least the change of its baseline, and with exactly that iff every earlier visit read the old one or zero. */
  lemma RepeatVisitsExactIff(reported: map<BpfKey, nat>, previous: Baselines, visits: seq<Visit>, key: BpfKey, n: nat)
    requires Reportable(key) && n < |visits| && visits[n].key == key
    requires forall i :: n < i < |visits| ==> visits[i].key != key
    ensures At(Credited(reported, previous, visits), key) >= At(reported, key) + Delta(At(previous, key), visits[n].value)
    ensures At(Credited(reported, previous, visits), key) == At(reported, key) + Delta(At(previous, key), visits[n].value)
      <==> forall i :: 0 <= i < n && visits[i].key == key ==> visits[i].value == At(previous, key) || visits[i].value == 0
  {
    hide Credited;
    CreditedIsDeltas(reported, previous, visits, key);
    EarlierDeltas(At(previous, key), visits, key, n);
  }

  lemma {:induction false} EarlierDeltas(base: nat, visits: seq<Visit>, key: BpfKey, n: nat)
    requires n < |visits| && visits[n].key == key
    requires forall i :: n < i < |visits| ==> visits[i].key != key
    ensures DeltasOf(base, visits, key) >= Delta(base, visits[n].value)
    ensures DeltasOf(base, visits, key) == Delta(base, visits[n].value)
      <==> forall i :: 0 <= i < n && visits[i].key == key ==> Delta(base, visits[i].value) == 0
  {
    var m := |visits| - 1;
    if n < m {
      EarlierDeltas(base, visits[..m], key, n);
    } else {
      NoDeltasIff(base, visits[..m], key);
    }
  }

  lemma {:induction false} NoDeltasIff(base: nat, visits: seq<Visit>, key: BpfKey)
    ensures DeltasOf(base, visits, key) == 0
      <==> forall i :: 0 <= i < |visits| && visits[i].key == key ==> Delta(base, visits[i].value) == 0
  {
    if visits != [] {
      var m := |visits| - 1;
      var rest := visits[..m];
      NoDeltasIff(base, rest, key);
      assert forall i :: 0 <= i < m ==> rest[i] == visits[i];
    }
  }
}
