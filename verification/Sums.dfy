/** Totals over sequences and over map values. A Go `range` visits map entries in no fixed order, so the
    total of a map is defined by an arbitrary choice of the next key and shown not to depend on it. */
module Sums {

  function At<K>(m: map<K, nat>, k: K): nat {
    if k in m then m[k] else 0
  }

  ghost function TotalOver<K>(m: map<K, nat>, keys: set<K>): nat
    requires keys <= m.Keys
  {
    if keys == {} then 0
    else
      var k :| k in keys;
      m[k] + TotalOver(m, keys - {k})
  }

  ghost function Total<K>(m: map<K, nat>): nat {
    TotalOver(m, m.Keys)
  }

  lemma {:induction false} OverSplit<K>(m: map<K, nat>, keys: set<K>, k: K)
    requires k in keys && keys <= m.Keys
    ensures TotalOver(m, keys) == m[k] + TotalOver(m, keys - {k})
    decreases keys
  {
    var c :| c in keys && TotalOver(m, keys) == m[c] + TotalOver(m, keys - {c});
    if c != k {
      OverSplit(m, keys - {c}, k);
      OverSplit(m, keys - {k}, c);
      assert keys - {c} - {k} == keys - {k} - {c};
    }
  }

  lemma {:induction false} OverMonotone<K>(a: map<K, nat>, b: map<K, nat>, keys: set<K>)
    requires keys <= a.Keys && keys <= b.Keys && forall k :: k in keys ==> a[k] <= b[k]
    ensures TotalOver(a, keys) <= TotalOver(b, keys)
    decreases keys
  {
    if keys != {} {
      var k :| k in keys;
      OverSplit(a, keys, k);
      OverSplit(b, keys, k);
      OverMonotone(a, b, keys - {k});
    }
  }

  lemma {:induction false} OverParts<K>(m: map<K, nat>, a: set<K>, b: set<K>)
    requires a !! b && a + b <= m.Keys
    ensures TotalOver(m, a + b) == TotalOver(m, a) + TotalOver(m, b)
    decreases a
  {
    if a == {} {
      assert a + b == b;
    } else {
      var k :| k in a;
      OverSplit(m, a, k);
      OverSplit(m, a + b, k);
      assert (a + b) - {k} == (a - {k}) + b;
      OverParts(m, a - {k}, b);
    }
  }

  lemma OverSame<K>(a: map<K, nat>, b: map<K, nat>, keys: set<K>)
    requires keys <= a.Keys && keys <= b.Keys && forall k :: k in keys ==> a[k] == b[k]
    ensures TotalOver(a, keys) == TotalOver(b, keys)
  {
  }

  /** Two disjoint parts make up the whole. */
  lemma TotalOfParts<K>(m: map<K, nat>, a: map<K, nat>, b: map<K, nat>)
    requires a.Keys !! b.Keys && m == a + b
    ensures Total(m) == Total(a) + Total(b)
  {
    OverParts(m, a.Keys, b.Keys);
    OverSame(m, a, a.Keys);
    OverSame(m, b, b.Keys);
  }

  lemma TotalSplit<K>(m: map<K, nat>, k: K)
    requires k in m
    ensures Total(m) == m[k] + Total(m - {k})
  {
    OverSplit(m, m.Keys, k);
    OverSame(m, m - {k}, m.Keys - {k});
  }

  lemma TotalSet<K>(m: map<K, nat>, k: K, v: nat)
    ensures Total(m[k := v]) + At(m, k) == Total(m) + v
  {
    TotalSplit(m[k := v], k);
    assert m[k := v] - {k} == m - {k};
    if k in m {
      TotalSplit(m, k);
    } else {
      assert m - {k} == m;
    }
  }

  lemma TotalMonotone<K>(a: map<K, nat>, b: map<K, nat>)
    requires forall k :: At(a, k) <= At(b, k)
    ensures Total(a) <= Total(b)
  {
    var common := a.Keys * b.Keys;
    assert a.Keys == common + (a.Keys - common) && b.Keys == common + (b.Keys - common);
    OverParts(a, common, a.Keys - common);
    OverParts(b, common, b.Keys - common);
    forall k | k in common ensures a[k] <= b[k] {
      assert At(a, k) <= At(b, k);
    }
    OverMonotone(a, b, common);
    forall k | k in a.Keys - common ensures a[k] == 0 {
      assert At(a, k) <= At(b, k);
    }
    OverZero(a, a.Keys - common);
  }

  lemma {:induction false} OverZero<K>(m: map<K, nat>, keys: set<K>)
    requires keys <= m.Keys && forall k :: k in keys ==> m[k] == 0
    ensures TotalOver(m, keys) == 0
    decreases keys
  {
    if keys != {} {
      var k :| k in keys;
      OverSplit(m, keys, k);
      OverZero(m, keys - {k});
    }
  }

  /** The sum of `f` over a sequence. */
  function Sum<T>(s: seq<T>, f: T -> nat): nat {
    if s == [] then 0 else Sum(s[..|s| - 1], f) + f(s[|s| - 1])
  }

  lemma SumSnoc<T>(s: seq<T>, x: T, f: T -> nat)
    ensures Sum(s + [x], f) == Sum(s, f) + f(x)
  {
  }

  lemma {:induction false} SumConcat<T>(a: seq<T>, b: seq<T>, f: T -> nat)
    ensures Sum(a + b, f) == Sum(a, f) + Sum(b, f)
  {
    if b == [] {
      assert a + b == a;
    } else {
      assert a + b == (a + b[..|b| - 1]) + [b[|b| - 1]];
      SumSnoc(a + b[..|b| - 1], b[|b| - 1], f);
      SumConcat(a, b[..|b| - 1], f);
    }
  }
}
