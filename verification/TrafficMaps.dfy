/** Totals, per direction, of the maps in which the collector books traffic. */
module TrafficMaps {
  import opened NetTypes
  import opened Sums
  import opened Rates

  function TrafficAt<K>(m: map<K, Traffic>, k: K): Traffic {
    if k in m then m[k] else NO_TRAFFIC
  }

  function Column<K>(m: map<K, Traffic>, d: Direction): map<K, nat> {
    map k | k in m :: m[k].In(d)
  }

  ghost function BytesIn<K>(m: map<K, Traffic>, d: Direction): nat {
    Total(Column(m, d))
  }

  /** There are only four reasons, so their sum can be written out. */
  function ReasonBytes(m: map<UnknownReason, Traffic>, d: Direction): nat {
    TrafficAt(m, UNSUPPORTED).In(d) + TrafficAt(m, UNMATCHED).In(d) + TrafficAt(m, AMBIGUOUS).In(d) + TrafficAt(m, EXITED).In(d)
  }

  lemma BytesSet<K>(m: map<K, Traffic>, k: K, t: Traffic, d: Direction)
    ensures BytesIn(m[k := t], d) + TrafficAt(m, k).In(d) == BytesIn(m, d) + t.In(d)
  {
    assert Column(m[k := t], d) == Column(m, d)[k := t.In(d)];
    TotalSet(Column(m, d), k, t.In(d));
  }

  lemma ReasonBytesSet(m: map<UnknownReason, Traffic>, reason: UnknownReason, t: Traffic, d: Direction)
    ensures ReasonBytes(m[reason := t], d) + TrafficAt(m, reason).In(d) == ReasonBytes(m, d) + t.In(d)
  {
    var m' := m[reason := t];
    assert TrafficAt(m', reason) == t;
    assert forall r: UnknownReason :: r != reason ==> TrafficAt(m', r) == TrafficAt(m, r);
  }

  lemma ReasonBytesTake(m: map<UnknownReason, Traffic>, left: set<UnknownReason>, reason: UnknownReason, d: Direction)
    requires reason in left && reason in m
    ensures ReasonBytes(m - (left - {reason}), d) == ReasonBytes(m - left, d) + m[reason].In(d)
  {
  }

  /** Booking bytes under a key adds them to the total of their direction only. */
  lemma BytesPlus<K>(m: map<K, Traffic>, k: K, d: Direction, n: nat, e: Direction)
    ensures BytesIn(m[k := TrafficAt(m, k).Plus(d, n)], e) == BytesIn(m, e) + if d == e then n else 0
  {
    BytesSet(m, k, TrafficAt(m, k).Plus(d, n), e);
  }

  /** Entries are taken in any order: one more key of `m` that was still left. */
  lemma BytesTake<K>(m: map<K, Traffic>, left: set<K>, k: K, d: Direction)
    requires k in left
    ensures BytesIn(m - (left - {k}), d) == BytesIn(m - left, d) + TrafficAt(m, k).In(d)
  {
    if k in m {
      assert m - (left - {k}) == (m - left)[k := m[k]];
      BytesSet(m - left, k, m[k], d);
    } else {
      assert m - (left - {k}) == m - left;
    }
  }

  lemma BytesOfNone<K>(d: Direction)
    ensures BytesIn<K>(map[], d) == 0
  {
  }

  lemma BytesOfParts<K>(m: map<K, Traffic>, a: map<K, Traffic>, b: map<K, Traffic>, d: Direction)
    requires a.Keys !! b.Keys && m == a + b
    ensures BytesIn(m, d) == BytesIn(a, d) + BytesIn(b, d)
  {
    assert Column(m, d) == Column(a, d) + Column(b, d);
    TotalOfParts(Column(m, d), Column(a, d), Column(b, d));
  }

  function EachRateOf<K>(m: map<K, Traffic>, ns: nat): map<K, Traffic>
    requires ns > 0
  {
    map k | k in m :: RateOf(m[k], ns)
  }

  /** Rounding the parts of a traffic total down, direction by direction. */
  lemma RateOfBytes<K>(m: map<K, Traffic>, ns: nat, d: Direction)
    requires ns > 0
    ensures BytesIn(EachRateOf(m, ns), d) <= Rate(BytesIn(m, d), ns)
    ensures Rate(BytesIn(m, d), ns) <= BytesIn(EachRateOf(m, ns), d) + if m == map[] then 0 else |m| - 1
  {
    assert Column(EachRateOf(m, ns), d) == EachRate(Column(m, d), ns);
    assert Column(m, d).Keys == m.Keys;
    RateOfTotal(Column(m, d), ns);
  }
}
