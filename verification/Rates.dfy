/** Bytes over an interval as whole KB/s (internal/netmon/aggregate.go, lines 331-333). The source divides in
    float64 and truncates; here the quotient is exact. */
module Rates {
  import opened NetTypes
  import opened Sums

  const SECOND: nat := 1_000_000_000

  /** Durations are nanoseconds; an elapsed time that is not positive counts as one second. */
  function Elapsed(elapsed: int): (ns: nat)
    ensures ns > 0
  {
    if elapsed <= 0 then SECOND else elapsed
  }

  /** Floor division by repeated subtraction, which keeps multiplication out of every later proof. */
  function Quotient(x: nat, d: nat): nat
    requires d > 0
    decreases x
  {
    if x < d then 0 else 1 + Quotient(x - d, d)
  }

  lemma {:induction false} QuotientBounds(x: nat, d: nat)
    requires d > 0
    ensures Quotient(x, d) * d <= x < (Quotient(x, d) + 1) * d
    decreases x
  {
    if x >= d {
      QuotientBounds(x - d, d);
    }
  }

  function Rate(bytes: nat, ns: nat): nat
    requires ns > 0
  {
    Quotient(bytes * SECOND, ns * 1024)
  }

  /** In numbers: bytes per nanosecond, in units of 1024 bytes per second, rounded down. */
  lemma RateIs(bytes: nat, ns: nat)
    requires ns > 0
    ensures Rate(bytes, ns) * (ns * 1024) <= bytes * 1_000_000_000 < (Rate(bytes, ns) + 1) * (ns * 1024)
  {
    QuotientBounds(bytes * SECOND, ns * 1024);
  }

  function RateOf(t: Traffic, ns: nat): Traffic
    requires ns > 0
  {
    Traffic(Rate(t.rx, ns), Rate(t.tx, ns))
  }

  lemma QuotientIsUnique(x: nat, d: nat, q: nat)
    requires d > 0 && q * d <= x < (q + 1) * d
    ensures Quotient(x, d) == q
  {
    var p := Quotient(x, d);
    QuotientBounds(x, d);
    MultiplesAreApart(p, q, d);
    MultiplesAreApart(q, p, d);
  }

  /** It is the integer quotient. */
  lemma QuotientIsFloor(x: nat, d: nat)
    requires d > 0
    ensures Quotient(x, d) == x / d
  {
    QuotientIsUnique(x, d, x / d);
  }

  lemma MultiplesAreApart(p: nat, q: nat, d: nat)
    requires d > 0
    ensures p < q ==> (p + 1) * d <= q * d
  {
  }

  lemma FloorOfSum(x: nat, y: nat, d: nat)
    requires d > 0
    ensures Quotient(x, d) + Quotient(y, d) <= Quotient(x + y, d) <= Quotient(x, d) + Quotient(y, d) + 1
  {
    var p, q := Quotient(x, d), Quotient(y, d);
    QuotientBounds(x, d);
    QuotientBounds(y, d);
    assert (p + q) * d == p * d + q * d;
    assert (p + q + 1) * d == p * d + q * d + d;
    assert (p + q + 2) * d == (p + 1) * d + (q + 1) * d;
    QuotientIsUnique(x + y, d, if x + y < (p + q + 1) * d then p + q else p + q + 1);
  }

  lemma RateOfSum(a: nat, b: nat, ns: nat)
    requires ns > 0
    ensures Rate(a, ns) + Rate(b, ns) <= Rate(a + b, ns) <= Rate(a, ns) + Rate(b, ns) + 1
  {
    FloorOfSum(a * SECOND, b * SECOND, ns * 1024);
    assert a * SECOND + b * SECOND == (a + b) * SECOND;
  }

  lemma RateOfNothing(ns: nat)
    requires ns > 0
    ensures Rate(0, ns) == 0
  {
  }

  lemma RateMonotone(a: nat, b: nat, ns: nat)
    requires ns > 0 && a <= b
    ensures Rate(a, ns) <= Rate(b, ns)
  {
    RateOfSum(a, b - a, ns);
  }

  function EachRate<K>(m: map<K, nat>, ns: nat): map<K, nat>
    requires ns > 0
  {
    map k | k in m :: Rate(m[k], ns)
  }

  /** Rounding each of several shares down never exceeds the rounded total, and falls short of it by less than
      the number of shares. */
  lemma {:induction false} RateOfTotal<K>(m: map<K, nat>, ns: nat)
    requires ns > 0
    ensures Total(EachRate(m, ns)) <= Rate(Total(m), ns)
    ensures Rate(Total(m), ns) <= Total(EachRate(m, ns)) + if m == map[] then 0 else |m| - 1
    decreases |m|
  {
    if m != map[] {
      var k :| k in m;
      var rest := m - {k};
      TotalSplit(m, k);
      TotalSplit(EachRate(m, ns), k);
      assert EachRate(m, ns) - {k} == EachRate(rest, ns);
      RateOfTotal(rest, ns);
      RateOfSum(m[k], Total(rest), ns);
      if rest == map[] {
        assert Total(rest) == 0;
      }
    }
  }
}
