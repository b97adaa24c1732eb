/** What a sort that promises no stability determines (`sort.Slice`, as used in internal/netmon/cgroup.go and
    internal/netmon/snapshot.go). */
module Sorting {

  ghost predicate SortedBy<R>(rows: seq<R>, key: R -> nat) {
    forall i, j :: 0 <= i < j < |rows| ==> key(rows[i]) <= key(rows[j])
  }

  ghost predicate IsSortOf<R>(sorted: seq<R>, rows: seq<R>, key: R -> nat) {
    SortedBy(sorted, key) && multiset(sorted) == multiset(rows)
  }

  method Sort<R>(rows: seq<R>, key: R -> nat) returns (sorted: seq<R>)
    ensures IsSortOf(sorted, rows, key)
  {
    sorted := [];
    for n := 0 to |rows|
      invariant IsSortOf(sorted, rows[..n], key)
    {
      sorted := Insert(sorted, rows[n], key);
      assert rows[..n + 1] == rows[..n] + [rows[n]];
    }
    assert rows[..|rows|] == rows;
  }

  method Insert<R>(rows: seq<R>, row: R, key: R -> nat) returns (r: seq<R>)
    requires SortedBy(rows, key)
    ensures SortedBy(r, key) && multiset(r) == multiset(rows) + multiset{row}
  {
    var i := |rows|;
    while i > 0 && key(rows[i - 1]) > key(row)
      invariant 0 <= i <= |rows|
      invariant forall j :: i <= j < |rows| ==> key(row) < key(rows[j])
    {
      i := i - 1;
    }
    r := rows[..i] + [row] + rows[i..];
    PartsAreSorted(rows, row, i, key);
    hide SortedBy;
    JoinedIsSorted(rows[..i], row, rows[i..], key);
    PartsAreAll(rows, row, i);
  }

  lemma PartsAreAll<R>(rows: seq<R>, row: R, i: nat)
    requires i <= |rows|
    ensures multiset(rows[..i] + [row] + rows[i..]) == multiset(rows) + multiset{row}
  {
    assert rows == rows[..i] + rows[i..];
  }

  lemma PartsAreSorted<R>(rows: seq<R>, row: R, i: nat, key: R -> nat)
    requires SortedBy(rows, key) && i <= |rows|
    requires forall j :: i <= j < |rows| ==> key(row) < key(rows[j])
    ensures SortedBy(rows[..i], key) && SortedBy(rows[i..], key)
    ensures forall j :: 0 <= j < |rows[i..]| ==> key(row) < key(rows[i..][j])
  {
  }

  lemma JoinedIsSorted<R>(a: seq<R>, row: R, b: seq<R>, key: R -> nat)
    requires SortedBy(a, key) && SortedBy(b, key)
    requires a != [] ==> key(a[|a| - 1]) <= key(row)
    requires forall j :: 0 <= j < |b| ==> key(row) < key(b[j])
    ensures SortedBy(a + [row] + b, key)
  {
  }

  /** Rows with equal keys are equal: then there is only one sorted order. */
  ghost predicate KeyDetermines<R>(rows: seq<R>, key: R -> nat) {
    forall i, j :: 0 <= i < |rows| && 0 <= j < |rows| && key(rows[i]) == key(rows[j]) ==> rows[i] == rows[j]
  }

  lemma LastIsLargest<R>(a: seq<R>, b: seq<R>, key: R -> nat, n: nat)
    requires SortedBy(b, key) && multiset(a) == multiset(b) && |a| == |b| == n + 1
    ensures key(a[n]) <= key(b[n])
    ensures b[n] in a
  {
    assert a[n] in multiset(b) && b[n] in multiset(a);
    var i :| 0 <= i < |b| && b[i] == a[n];
  }

  lemma DropLast<R>(a: seq<R>, n: nat)
    requires |a| == n + 1
    ensures multiset(a[..n]) == multiset(a) - multiset{a[n]}
  {
    assert a == a[..n] + [a[n]];
  }

  lemma SameLast<R>(a: seq<R>, b: seq<R>, key: R -> nat, n: nat)
    requires SortedBy(a, key) && SortedBy(b, key) && multiset(a) == multiset(b) && KeyDetermines(a, key)
    requires |a| == |b| == n + 1
    ensures a[n] == b[n]
  {
    LastIsLargest(a, b, key, n);
    LastIsLargest(b, a, key, n);
  }

  lemma {:induction false} SortIsUnique<R>(a: seq<R>, b: seq<R>, key: R -> nat)
    requires SortedBy(a, key) && SortedBy(b, key) && multiset(a) == multiset(b)
    requires KeyDetermines(a, key)
    ensures a == b
    decreases |a|
  {
    assert |a| == |multiset(a)| == |multiset(b)| == |b|;
    if a != [] {
      var n := |a| - 1;
      var a', b' := a[..n], b[..n];
      assert a == a' + [a[n]] && b == b' + [b[n]];
      assert a[n] == b[n] by {
        SameLast(a, b, key, n);
      }
      assert multiset(a') == multiset(b') by {
        DropLast(a, n);
        DropLast(b, n);
      }
      assert KeyDetermines(a', key) by {
        assert forall i :: 0 <= i < n ==> a'[i] == a[i];
      }
      SortIsUnique(a', b', key);
    }
  }
}
