/** Runtime metadata gathered from several sources (internal/netmon/runtime_metadata.go, lines 98-193;
    internal/netmon/cgroup.go, lines 427-446). */
module Catalog {
  import opened NetTypes

  // ----- Merging two descriptions of one container -----

  const POD := "pod"

  /** The later text, unless it says nothing. */
  function Later(before: string, after: string): string {
    if after != "" then after else before
  }

  /** "cri" only says that some runtime answered. */
  function LaterRuntime(before: string, after: string): string {
    if after != "" && after != "cri" then after else before
  }

  function LaterScope(before: string, after: string): string {
    if after == POD || (after != "" && before != POD) then after else before
  }

  function Merged(a: Workload, b: Workload): Workload {
    a.(scope := LaterScope(a.scope, b.scope), runtime := LaterRuntime(a.runtime, b.runtime), ns := Later(a.ns, b.ns),
       pod := Later(a.pod, b.pod), container := Later(a.container, b.container), containerID := Later(a.containerID, b.containerID))
  }

  method MergeWorkload(target: Workload, source: Workload) returns (r: Workload)
    ensures r == Merged(target, source)
  {
    r := target;
    if source.scope == "pod" || (source.scope != "" && r.scope != "pod") {
      r := r.(scope := source.scope);
    }
    if source.runtime != "" && source.runtime != "cri" {
      r := r.(runtime := source.runtime);
    }
    if source.ns != "" {
      r := r.(ns := source.ns);
    }
    if source.pod != "" {
      r := r.(pod := source.pod);
    }
    if source.container != "" {
      r := r.(container := source.container);
    }
    if source.containerID != "" {
      r := r.(containerID := source.containerID);
    }
  }

  function MergedAll(a: Workload, more: seq<Workload>): Workload {
    if more == [] then a else Merged(MergedAll(a, more[..|more| - 1]), more[|more| - 1])
  }

  /** Descriptions may be merged among themselves first. */
  lemma MergeIsAssociative(a: Workload, b: Workload, c: Workload)
    ensures Merged(Merged(a, b), c) == Merged(a, Merged(b, c))
  {
  }

  lemma {:induction false} MergeMayBeGrouped(a: Workload, b: Workload, more: seq<Workload>)
    ensures MergedAll(Merged(a, b), more) == Merged(a, MergedAll(b, more))
  {
    if more != [] {
      var n := |more| - 1;
      MergeMayBeGrouped(a, b, more[..n]);
      MergeIsAssociative(a, MergedAll(b, more[..n]), more[n]);
    }
  }

  /** Once a pod, always a pod: the scope is "pod" iff one of the descriptions says so. */
  lemma {:induction false} PodAbsorbs(a: Workload, more: seq<Workload>)
    ensures MergedAll(a, more).scope == POD <==> a.scope == POD || exists i :: 0 <= i < |more| && more[i].scope == POD
  {
    if more != [] {
      var n := |more| - 1;
      PodAbsorbs(a, more[..n]);
      assert (exists i :: 0 <= i < |more| && more[i].scope == POD)
        <==> more[n].scope == POD || exists i :: 0 <= i < n && more[..n][i].scope == POD by {
        assert forall i :: 0 <= i < n ==> more[..n][i] == more[i];
      }
    }
  }

  /** No two of the texts say different things. */
  predicate Agree(a: string, b: string) {
    a == "" || b == "" || a == b
  }

  function Definite(runtime: string): string {
    if runtime == "cri" then "" else runtime
  }

  /** Nothing that `b` and `c` would both add to `a` differs. */
  predicate Compatible(a: Workload, b: Workload, c: Workload) {
    && (a.scope == POD || b.scope == POD || c.scope == POD || Agree(b.scope, c.scope))
    && Agree(Definite(b.runtime), Definite(c.runtime)) && Agree(b.ns, c.ns) && Agree(b.pod, c.pod)
    && Agree(b.container, c.container) && Agree(b.containerID, c.containerID)
  }

  /** The order in which two sources answer does not matter iff they do not contradict each other; a pod's
      scope never does. */
  lemma MergeOrderIrrelevantIff(a: Workload, b: Workload, c: Workload)
    ensures Merged(Merged(a, b), c) == Merged(Merged(a, c), b) <==> Compatible(a, b, c)
  {
  }

  // ----- The catalog -----

  function Finished(w: Workload): Workload {
    w.(scope := if w.scope == "" then "container" else w.scope, attribution := "cgroup")
  }

  function ItemAt(items: map<string, Workload>, id: string): Workload {
    if id in items then items[id] else NO_WORKLOAD
  }

  function AfterItem(items: map<string, Workload>, w: Workload): map<string, Workload> {
    if w.containerID == "" then items
    else items[w.containerID := Finished(Merged(ItemAt(items, w.containerID), w))]
  }

  function ItemsOf(workloads: seq<Workload>): map<string, Workload> {
    if workloads == [] then map[]
    else AfterItem(ItemsOf(workloads[..|workloads| - 1]), workloads[|workloads| - 1])
  }

  /** Each item is filed under its own container ID, which is not empty. */
  ghost predicate Filed(items: map<string, Workload>) {
    forall id :: id in items ==> id != "" && items[id].containerID == id
  }

  predicate Related(a: string, b: string) {
    a <= b || b <= a
  }

  function RelatedIds(items: map<string, Workload>, id: string): set<string> {
    set k | k in items && Related(k, id)
  }

  /** The exact item, or else the only one whose ID is a prefix of the ID or the other way round. */
  ghost function FoundIn(items: map<string, Workload>, id: string): Option<Workload> {
    if id == "" then None
    else if id in items then Some(items[id])
    else if k :| RelatedIds(items, id) == {k} then Some(items[k])
    else None
  }

  class WorkloadCatalog {
    var items: map<string, Workload>

    constructor ()
      ensures items == map[]
    {
      items := map[];
    }

    method MergeItem(workload: Workload)
      modifies this
      ensures items == AfterItem(old(items), workload)
    {
      if workload.containerID == "" {
        return;
      }
      var current := ItemAt(items, workload.containerID);
      current := MergeWorkload(current, workload);
      if current.scope == "" {
        current := current.(scope := "container");
      }
      current := current.(attribution := "cgroup");
      items := items[workload.containerID := current];
    }

    method MergeItems(workloads: seq<Workload>)
      requires items == map[]
      modifies this
      ensures items == ItemsOf(workloads) && Filed(items)
    {
      hide AfterItem;
      for i := 0 to |workloads|
        invariant items == ItemsOf(workloads[..i])
      {
        MergeItem(workloads[i]);
        assert workloads[..i + 1][..i] == workloads[..i];
      }
      assert workloads[..|workloads|] == workloads;
      ItemsAreFiled(workloads);
    }

    /** The keys are visited in any order. */
    method Lookup(containerID: string) returns (r: Option<Workload>)
      requires Filed(items)
      ensures r == FoundIn(items, containerID)
    {
      if containerID == "" || |items| == 0 {
        return None;
      }
      if containerID in items {
        return Some(items[containerID]);
      }
      r := None;
      var left := items.Keys;
      ghost var seen: set<string> := {};
      while left != {}
        invariant left <= items.Keys
        invariant seen == RelatedIds(items, containerID) - left
        invariant r.None? ==> seen == {}
        invariant r.Some? ==> seen == {r.value.containerID} && r.value.containerID in items && r.value == items[r.value.containerID]
      {
        var id :| id in left;
        left := left - {id};
        if containerID <= id || id <= containerID {
          var workload := items[id];
          if r.Some? && r.value.containerID != workload.containerID {
            assert id in RelatedIds(items, containerID) && r.value.containerID in RelatedIds(items, containerID);
            return None;
          }
          r := Some(workload);
          seen := seen + {id};
        }
      }
      assert seen == RelatedIds(items, containerID);
    }
  }

  lemma {:induction false} ItemsAreFiled(workloads: seq<Workload>)
    ensures Filed(ItemsOf(workloads))
  {
    if workloads != [] {
      var n := |workloads| - 1;
      ItemsAreFiled(workloads[..n]);
      assert Merged(ItemAt(ItemsOf(workloads[..n]), workloads[n].containerID), workloads[n]).containerID
        == Later(ItemAt(ItemsOf(workloads[..n]), workloads[n].containerID).containerID, workloads[n].containerID);
    }
  }

  /** What the sources say about one container, in the order in which they say it. */
  function About(workloads: seq<Workload>, id: string): seq<Workload> {
    if workloads == [] then []
    else
      var n := |workloads| - 1;
      About(workloads[..n], id) + if workloads[n].containerID == id then [workloads[n]] else []
  }

  /** Filling in the default scope early does no harm. */
  lemma DefaultsMayWait(a: Workload, w: Workload)
    ensures Finished(Merged(Finished(a), w)) == Finished(Merged(a, w))
  {
  }

  lemma ItemMergesOneMore(said: seq<Workload>, w: Workload, item: Workload)
    requires item == if said == [] then NO_WORKLOAD else Finished(MergedAll(NO_WORKLOAD, said))
    ensures Finished(Merged(item, w)) == Finished(MergedAll(NO_WORKLOAD, said + [w]))
  {
    hide Merged, Finished;
    assert (said + [w])[..|said|] == said;
    DefaultsMayWait(MergedAll(NO_WORKLOAD, said), w);
  }

  /** An item is the merge of everything said about it, with the defaults filled in once. */
  lemma {:induction false} ItemIsMerge(workloads: seq<Workload>, id: string)
    requires id != ""
    ensures id in ItemsOf(workloads) <==> About(workloads, id) != []
    ensures id in ItemsOf(workloads) ==> ItemsOf(workloads)[id] == Finished(MergedAll(NO_WORKLOAD, About(workloads, id)))
  {
    hide Merged, MergedAll, Finished;
    if workloads != [] {
      var n := |workloads| - 1;
      var items := ItemsOf(workloads[..n]);
      ItemIsMerge(workloads[..n], id);
      if workloads[n].containerID == id {
        ItemMergesOneMore(About(workloads[..n], id), workloads[n], ItemAt(items, id));
      } else {
        assert About(workloads, id) == About(workloads[..n], id);
      }
    }
  }

  /** A container is found iff its ID is listed or exactly one listed ID is a prefix of it or starts with it;
      two of them are no match, however alike. */
  lemma FoundIff(items: map<string, Workload>, id: string, k: string)
    requires Filed(items)
    ensures (FoundIn(items, id).Some? && FoundIn(items, id).value.containerID == k)
      <==> && id != "" && k in items
           && (k == id || (id !in items && (k <= id || id <= k) && forall j :: j in items && (j <= id || id <= j) ==> j == k))
  {
    assert RelatedIds(items, id) == {k}
      <==> k in items && (k <= id || id <= k) && forall j :: j in items && (j <= id || id <= j) ==> j == k by {
      assert forall j :: j in RelatedIds(items, id) <==> j in items && (j <= id || id <= j);
      if RelatedIds(items, id) == {k} {
        assert k in RelatedIds(items, id);
      }
    }
  }
}
