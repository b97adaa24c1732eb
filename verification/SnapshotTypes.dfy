/** The snapshot record and the helpers both of its producers share (internal/netmon/aggregate.go). A pair of
    counters for the two directions is a `Traffic`, here in KB/s. */
module SnapshotTypes {
  import opened NetTypes
  import opened Sums
  import opened Rates
  import opened Sockets
  import opened TrafficMaps
  import opened Sorting

  datatype ProcessRate = ProcessRate(id: ProcessID, rate: Traffic, workload: Workload)

  datatype EntityRate = EntityRate(workload: Workload, rate: Traffic)

  datatype Snapshot = Snapshot(
    version: nat,
    unixMilli: nat,
    intervalMS: nat,
    iface: string,
    captured: Traffic,
    unknown: Traffic,
    packets: nat,
    drops: nat,
    unsupported: Traffic,
    unmatched: Traffic,
    ambiguous: Traffic,
    exited: Traffic,
    processes: seq<ProcessRate>,
    entities: seq<EntityRate>,
    workloads: seq<Workload>,
    source: string,
    status: string,
    scope: string,
    reason: string)
  {
    function Reason(r: UnknownReason): Traffic {
      if r == UNSUPPORTED then unsupported
      else if r == UNMATCHED then unmatched
      else if r == AMBIGUOUS then ambiguous
      else exited
    }
  }

  // ----- The keys by which rows are sorted -----

  function PidKey(r: ProcessRate): nat {
    r.id.pid
  }

  function EntityKey(r: EntityRate): nat {
    r.workload.cgroupID
  }

  function WorkloadKey(w: Workload): nat {
    w.cgroupID
  }

  function WithReason(s: Snapshot, r: UnknownReason, t: Traffic): (s': Snapshot)
    ensures forall q: UnknownReason :: s'.Reason(q) == if q == r then t else s.Reason(q)
  {
    if r == UNSUPPORTED then s.(unsupported := t)
    else if r == UNMATCHED then s.(unmatched := t)
    else if r == AMBIGUOUS then s.(ambiguous := t)
    else s.(exited := t)
  }

  function Blank(version: nat, unixMilli: nat, ns: nat, iface: string, packets: nat, drops: nat): Snapshot {
    Snapshot(version, unixMilli, ns / 1_000_000, iface, NO_TRAFFIC, NO_TRAFFIC, packets, drops,
             NO_TRAFFIC, NO_TRAFFIC, NO_TRAFFIC, NO_TRAFFIC, [], [], [], "", "", "", "")
  }

  method AddUnknownRate(s: Snapshot, reason: UnknownReason, traffic: Traffic, ns: nat) returns (r: Snapshot)
    requires ns > 0
    ensures r == WithReason(s, reason, Traffic(s.Reason(reason).rx + Rate(traffic.rx, ns), s.Reason(reason).tx + Rate(traffic.tx, ns)))
  {
    var rx, tx := Rate(traffic.rx, ns), Rate(traffic.tx, ns);
    r := s;
    if reason == UNSUPPORTED {
      r := r.(unsupported := Traffic(r.unsupported.rx + rx, r.unsupported.tx + tx));
    } else if reason == UNMATCHED {
      r := r.(unmatched := Traffic(r.unmatched.rx + rx, r.unmatched.tx + tx));
    } else if reason == AMBIGUOUS {
      r := r.(ambiguous := Traffic(r.ambiguous.rx + rx, r.ambiguous.tx + tx));
    } else if reason == EXITED {
      r := r.(exited := Traffic(r.exited.rx + rx, r.exited.tx + tx));
    }
  }

  /** Two snapshots that differ at most in what the loops over processes and reasons fill in. */
  predicate SameHeader(s: Snapshot, t: Snapshot) {
    s.(unknown := t.unknown, unsupported := t.unsupported, unmatched := t.unmatched, ambiguous := t.ambiguous,
       exited := t.exited, processes := t.processes) == t
  }

  /** The reasons no longer `left` have been rated and added up. */
  ghost predicate Rated(s: Snapshot, unknown: map<UnknownReason, Traffic>, left: set<UnknownReason>, explicit: Traffic, ns: nat)
    requires ns > 0
  {
    && (forall r: UnknownReason :: s.Reason(r) == if r in left || r !in unknown then NO_TRAFFIC else RateOf(unknown[r], ns))
    && (forall d: Direction :: explicit.In(d) == ReasonBytes(unknown - left, d))
  }

  lemma RateOne(s: Snapshot, s': Snapshot, unknown: map<UnknownReason, Traffic>, left: set<UnknownReason>, explicit: Traffic,
                ns: nat, reason: UnknownReason)
    requires ns > 0 && reason in left && left <= unknown.Keys && Rated(s, unknown, left, explicit, ns)
    requires s' == WithReason(s, reason, RateOf(unknown[reason], ns))
    ensures Rated(s', unknown, left - {reason}, Traffic(explicit.rx + unknown[reason].rx, explicit.tx + unknown[reason].tx), ns)
  {
    forall d: Direction
      ensures ReasonBytes(unknown - (left - {reason}), d) == ReasonBytes(unknown - left, d) + unknown[reason].In(d)
    {
      ReasonBytesTake(unknown, left, reason, d);
    }
  }

  /** One line per reason seen, and their sum. */
  method RateUnknown(header: Snapshot, unknown: map<UnknownReason, Traffic>, ns: nat) returns (s: Snapshot, explicit: Traffic)
    requires ns > 0 && forall r: UnknownReason :: header.Reason(r) == NO_TRAFFIC
    ensures forall r: UnknownReason :: s.Reason(r) == if r in unknown then RateOf(unknown[r], ns) else NO_TRAFFIC
    ensures SameHeader(s, header) && s.processes == header.processes && s.unknown == header.unknown
    ensures forall d: Direction :: explicit.In(d) == ReasonBytes(unknown, d)
  {
    s, explicit := header, NO_TRAFFIC;
    var left := unknown.Keys;
    while left != {}
      invariant left <= unknown.Keys
      invariant Rated(s, unknown, left, explicit, ns)
      invariant SameHeader(s, header) && s.processes == header.processes && s.unknown == header.unknown
    {
      var reason :| reason in left;
      ghost var before := s;
      s := AddUnknownRate(s, reason, unknown[reason], ns);
      RateOne(before, s, unknown, left, explicit, ns, reason);
      explicit := Traffic(explicit.rx + unknown[reason].rx, explicit.tx + unknown[reason].tx);
      left := left - {reason};
    }
    assert unknown - {} == unknown;
  }

  // ----- Processes that are still the ones observed -----

  /** The start time of each process that exists now. */
  type Starts = map<nat, nat>

  predicate Alive(starts: Starts, id: ProcessID) {
    id.pid in starts && starts[id.pid] == id.startTicks
  }

  function AliveIn<V>(m: map<ProcessID, V>, starts: Starts): map<ProcessID, V> {
    map id | id in m && Alive(starts, id) :: m[id]
  }

  function ExitedIn<V>(m: map<ProcessID, V>, starts: Starts): map<ProcessID, V> {
    map id | id in m && !Alive(starts, id) :: m[id]
  }

  /** The exited processes are exactly the others. */
  lemma AliveAndExited(m: map<ProcessID, Traffic>, starts: Starts, d: Direction)
    ensures BytesIn(m, d) == BytesIn(AliveIn(m, starts), d) + BytesIn(ExitedIn(m, starts), d)
  {
    assert m == AliveIn(m, starts) + ExitedIn(m, starts);
    BytesOfParts(m, AliveIn(m, starts), ExitedIn(m, starts), d);
  }

  function SumOfReasons(s: Snapshot, d: Direction): nat {
    s.unsupported.In(d) + s.unmatched.In(d) + s.ambiguous.In(d) + s.exited.In(d)
  }

  // ----- Rows listed from a map -----

  /** `rows` are the values of `m`, one per key, in the order of the keys `order`. */
  ghost predicate ListedAs<K, R>(rows: seq<R>, m: map<K, R>, order: seq<K>) {
    && NoRepetition(order) && Elements(order) == m.Keys && |rows| == |order|
    && forall i :: 0 <= i < |order| ==> rows[i] == m[order[i]]
  }

  /** A Go `range` over a map appends its rows in an unspecified order. */
  ghost predicate Lists<K(!new), R>(rows: seq<R>, m: map<K, R>) {
    exists order :: ListedAs(rows, m, order)
  }

  lemma ListsNothing<K(!new), R>()
    ensures Lists<K, R>([], map[])
  {
    assert ListedAs<K, R>([], map[], []);
  }

  lemma ElementsSnoc<K>(order: seq<K>, k: K)
    requires NoRepetition(order) && k !in Elements(order)
    ensures NoRepetition(order + [k]) && Elements(order + [k]) == Elements(order) + {k}
  {
  }

  lemma ListedOneMore<K, R>(rows: seq<R>, m: map<K, R>, order: seq<K>, k: K, r: R)
    requires ListedAs(rows, m, order) && k !in m
    ensures ListedAs(rows + [r], m[k := r], order + [k])
  {
    hide NoRepetition, Elements;
    ElementsSnoc(order, k);
    assert m[k := r].Keys == m.Keys + {k};
    forall i | 0 <= i < |order| ensures order[i] in m {
      ElementIsIn(order, i);
    }
  }

  lemma ElementIsIn<K>(s: seq<K>, i: nat)
    requires i < |s|
    ensures s[i] in Elements(s)
  {
  }

  lemma ListsOneMore<K(!new), R>(rows: seq<R>, m: map<K, R>, k: K, r: R)
    requires Lists(rows, m) && k !in m
    ensures Lists(rows + [r], m[k := r])
  {
    hide ListedAs;
    var order :| ListedAs(rows, m, order);
    ListedOneMore(rows, m, order, k, r);
  }

  /** Entries are taken in any order: one more key of `m` that was still left. */
  lemma ListsTake<K(!new), R>(rows: seq<R>, m: map<K, R>, left: set<K>, k: K)
    requires Lists(rows, m - left) && k in left
    ensures k in m ==> Lists(rows + [m[k]], m - (left - {k}))
    ensures k !in m ==> Lists(rows, m - (left - {k}))
  {
    if k in m {
      assert m - (left - {k}) == (m - left)[k := m[k]];
      ListsOneMore(rows, m - left, k, m[k]);
    } else {
      assert m - (left - {k}) == m - left;
    }
  }

  lemma ListedButLast<K, R>(rows: seq<R>, m: map<K, R>, order: seq<K>, n: nat)
    requires ListedAs(rows, m, order) && |rows| == n + 1
    ensures order[n] in m && rows[n] == m[order[n]]
    ensures ListedAs(rows[..n], m - {order[n]}, order[..n])
  {
  }

  function Each<K, R>(m: map<K, R>, f: R -> nat): map<K, nat> {
    map k | k in m :: f(m[k])
  }

  lemma NothingListed<K, R>(rows: seq<R>, m: map<K, R>, order: seq<K>, f: R -> nat)
    requires ListedAs(rows, m, order) && rows == []
    ensures Sum(rows, f) == Total(Each(m, f))
  {
    assert m.Keys == {} && Each(m, f) == map[];
  }

  lemma EachWithout<K, R>(m: map<K, R>, k: K, f: R -> nat)
    requires k in m
    ensures Each(m, f) - {k} == Each(m - {k}, f) && Each(m, f)[k] == f(m[k])
  {
  }

  lemma {:induction false} ListedTotal<K, R>(rows: seq<R>, m: map<K, R>, order: seq<K>, f: R -> nat)
    requires ListedAs(rows, m, order)
    ensures Sum(rows, f) == Total(Each(m, f))
    decreases |rows|
  {
    if rows == [] {
      NothingListed(rows, m, order, f);
    } else {
      assert |rows| == |order|;
      hide ListedAs, Total, Each;
      var n := |rows| - 1;
      var k := order[n];
      ListedButLast(rows, m, order, n);
      ListedTotal(rows[..n], m - {k}, order[..n], f);
      EachWithout(m, k, f);
      assert k in Each(m, f) by {
        EachKeys(m, f);
      }
      TotalSplit(Each(m, f), k);
    }
  }

  lemma EachKeys<K, R>(m: map<K, R>, f: R -> nat)
    ensures Each(m, f).Keys == m.Keys
  {
  }

  /** Whatever the order, the rows add up to the map's total. */
  lemma ListsTotal<K(!new), R>(rows: seq<R>, m: map<K, R>, f: R -> nat)
    requires Lists(rows, m)
    ensures Sum(rows, f) == Total(Each(m, f))
    ensures |rows| == |m|
  {
    var order :| ListedAs(rows, m, order);
    ListedTotal(rows, m, order, f);
    NoRepetitionCounts(order);
  }

  lemma ElementsWithout<K>(order: seq<K>, j: nat)
    requires NoRepetition(order) && j < |order|
    ensures var without := order[..j] + order[j + 1..];
            NoRepetition(without) && Elements(without) == Elements(order) - {order[j]} && order[j] in Elements(order)
  {
  }

  lemma ListedWithout<K, R>(rows: seq<R>, m: map<K, R>, order: seq<K>, j: nat)
    requires ListedAs(rows, m, order) && j < |rows|
    ensures order[j] in m && m[order[j]] == rows[j]
    ensures ListedAs(rows[..j] + rows[j + 1..], m - {order[j]}, order[..j] + order[j + 1..])
  {
    hide NoRepetition, Elements;
    ElementsWithout(order, j);
    assert (m - {order[j]}).Keys == m.Keys - {order[j]};
    var without, left := order[..j] + order[j + 1..], rows[..j] + rows[j + 1..];
    forall i | 0 <= i < |without| ensures without[i] in Elements(without) && left[i] == m[without[i]] {
      assert without[i] == order[if i < j then i else i + 1] && left[i] == rows[if i < j then i else i + 1];
      ElementIsIn(without, i);
    }
  }

  lemma MultisetWithout<R>(a: seq<R>, j: nat)
    requires j < |a|
    ensures multiset(a[..j] + a[j + 1..]) == multiset(a) - multiset{a[j]} && a[j] in multiset(a)
  {
    assert a == a[..j] + [a[j]] + a[j + 1..];
  }

  lemma ListedLength<K, R>(a: seq<R>, b: seq<R>, m: map<K, R>, orderA: seq<K>, orderB: seq<K>)
    requires ListedAs(a, m, orderA) && ListedAs(b, m, orderB)
    ensures |a| == |orderA| == |b| == |orderB| && forall i :: 0 <= i < |orderA| ==> orderA[i] in orderB
  {
    NoRepetitionCounts(orderA);
    NoRepetitionCounts(orderB);
    assert forall i :: 0 <= i < |orderA| ==> orderA[i] in Elements(orderA);
  }

  /** The place of the first row's key in the other listing; without it, the two list the same rest. */
  lemma SamePlace<K, R>(a: seq<R>, b: seq<R>, m: map<K, R>, orderA: seq<K>, orderB: seq<K>) returns (j: nat)
    requires ListedAs(a, m, orderA) && ListedAs(b, m, orderB) && a != []
    ensures |orderA| == |a| && j < |b| == |orderB| && a[0] == b[j]
    ensures ListedAs(a[..0] + a[1..], m - {orderA[0]}, orderA[..0] + orderA[1..])
    ensures ListedAs(b[..j] + b[j + 1..], m - {orderA[0]}, orderB[..j] + orderB[j + 1..])
  {
    hide *;
    ListedLength(a, b, m, orderA, orderB);
    assert orderA[0] in orderB;
    j :| 0 <= j < |orderB| && orderB[j] == orderA[0];
    ListedWithout(a, m, orderA, 0);
    ListedWithout(b, m, orderB, j);
  }

  lemma {:induction false} ListedSame<K, R>(a: seq<R>, b: seq<R>, m: map<K, R>, orderA: seq<K>, orderB: seq<K>)
    requires ListedAs(a, m, orderA) && ListedAs(b, m, orderB)
    ensures multiset(a) == multiset(b)
    decreases |a|
  {
    hide *;
    if a == [] {
      ListedLength(a, b, m, orderA, orderB);
      assert b == [];
    } else {
      var j := SamePlace(a, b, m, orderA, orderB);
      var restA, restB := a[..0] + a[1..], b[..j] + b[j + 1..];
      ListedSame(restA, restB, m - {orderA[0]}, orderA[..0] + orderA[1..], orderB[..j] + orderB[j + 1..]);
      MultisetWithout(a, 0);
      MultisetWithout(b, j);
      assert multiset(a) == multiset(restA) + multiset{a[0]};
      assert multiset(b) == multiset(restB) + multiset{b[j]};
    }
  }

  /** Two listings of one map differ only in order; sorted by a key that determines the value, not at all. */
  lemma SortedListingIsUnique<K(!new), R>(a: seq<R>, b: seq<R>, m: map<K, R>, sortedA: seq<R>, sortedB: seq<R>, key: R -> nat)
    requires Lists(a, m) && Lists(b, m)
    requires IsSortOf(sortedA, a, key) && IsSortOf(sortedB, b, key)
    requires forall j, k :: j in m && k in m && key(m[j]) == key(m[k]) ==> m[j] == m[k]
    ensures sortedA == sortedB
  {
    var orderA :| ListedAs(a, m, orderA);
    var orderB :| ListedAs(b, m, orderB);
    ListedSame(a, b, m, orderA, orderB);
    forall i | 0 <= i < |sortedA| ensures exists k :: k in m && m[k] == sortedA[i] {
      assert sortedA[i] in multiset(a);
      var n :| 0 <= n < |a| && a[n] == sortedA[i];
      assert orderA[n] in Elements(orderA);
    }
    SortIsUnique(sortedA, sortedB, key);
  }
}
