/** When the order in which metadata sources answer matters for the whole catalog
    (internal/netmon/runtime_metadata.go, lines 119-133 and 182-193; internal/netmon/cgroup.go, lines 427-446). */
module CatalogOrder {
  import opened NetTypes
  import opened Catalog

  function NsOf(w: Workload): string { w.ns }

  function PodOf(w: Workload): string { w.pod }

  function ContainerOf(w: Workload): string { w.container }

  function IdOf(w: Workload): string { w.containerID }

  function RuntimeOf(w: Workload): string { Definite(w.runtime) }

  function ScopeOf(w: Workload): string { w.scope }

  /** The last text that says anything. */
  function LastSaid(said: seq<Workload>, f: Workload -> string): string {
    if said == [] then "" else Later(LastSaid(said[..|said| - 1], f), f(said[|said| - 1]))
  }

  predicate Unanimous(said: seq<Workload>, f: Workload -> string) {
    forall i, j :: 0 <= i < |said| && 0 <= j < |said| ==> Agree(f(said[i]), f(said[j]))
  }

  predicate HasPod(said: seq<Workload>) {
    exists i :: 0 <= i < |said| && said[i].scope == POD
  }

  // ----- Merges, field by field -----

  lemma {:induction false} TextsAreLast(said: seq<Workload>)
    ensures var m := MergedAll(NO_WORKLOAD, said);
            && m.ns == LastSaid(said, NsOf) && m.pod == LastSaid(said, PodOf) && m.container == LastSaid(said, ContainerOf)
            && m.containerID == LastSaid(said, IdOf)
            && m.cgroupID == NO_WORKLOAD.cgroupID && m.cgroupPath == "" && m.attribution == ""
  {
    if said != [] {
      TextsAreLast(said[..|said| - 1]);
    }
  }

  lemma {:induction false} RuntimeIsLast(said: seq<Workload>)
    ensures MergedAll(NO_WORKLOAD, said).runtime == LastSaid(said, RuntimeOf)
  {
    if said != [] {
      RuntimeIsLast(said[..|said| - 1]);
    }
  }

  lemma {:induction false} ScopeIsLast(said: seq<Workload>)
    ensures MergedAll(NO_WORKLOAD, said).scope == if HasPod(said) then POD else LastSaid(said, ScopeOf)
  {
    PodAbsorbs(NO_WORKLOAD, said);
    if said != [] && !HasPod(said) {
      var n := |said| - 1;
      assert !HasPod(said[..n]) by {
        assert forall i :: 0 <= i < n ==> said[..n][i] == said[i];
      }
      ScopeIsLast(said[..n]);
      assert said[n].scope != POD;
    }
  }

  // ----- Unanimous descriptions -----

  lemma {:induction false} NothingSaidIff(said: seq<Workload>, f: Workload -> string)
    ensures LastSaid(said, f) == "" <==> forall i :: 0 <= i < |said| ==> f(said[i]) == ""
    ensures LastSaid(said, f) != "" ==> exists i :: 0 <= i < |said| && f(said[i]) == LastSaid(said, f)
  {
    if said != [] {
      var n := |said| - 1;
      NothingSaidIff(said[..n], f);
      assert forall i :: 0 <= i < n ==> said[..n][i] == said[i];
      if LastSaid(said[..n], f) != "" {
        var i :| 0 <= i < n && f(said[..n][i]) == LastSaid(said[..n], f);
        assert f(said[i]) == LastSaid(said[..n], f);
      }
    }
  }

  lemma SilenceSpreads(a: seq<Workload>, b: seq<Workload>, f: Workload -> string)
    requires LastSaid(b, f) == "" && forall i :: 0 <= i < |a| ==> a[i] in b
    ensures LastSaid(a, f) == ""
  {
    hide LastSaid;
    NothingSaidIff(a, f);
    NothingSaidIff(b, f);
  }

  lemma UnanimousOrder(a: seq<Workload>, b: seq<Workload>, f: Workload -> string)
    requires multiset(a) == multiset(b) && Unanimous(a, f)
    ensures LastSaid(a, f) == LastSaid(b, f)
  {
    hide LastSaid;
    SameElements(a, b);
    if LastSaid(b, f) == "" {
      SilenceSpreads(a, b, f);
    } else if LastSaid(a, f) == "" {
      SilenceSpreads(b, a, f);
    } else {
      NothingSaidIff(a, f);
      NothingSaidIff(b, f);
      var j :| 0 <= j < |b| && f(b[j]) == LastSaid(b, f);
      var i :| 0 <= i < |a| && a[i] == b[j];
      var k :| 0 <= k < |a| && f(a[k]) == LastSaid(a, f);
    }
  }

  lemma SameElements(a: seq<Workload>, b: seq<Workload>)
    requires multiset(a) == multiset(b)
    ensures forall i :: 0 <= i < |a| ==> a[i] in b
    ensures forall i :: 0 <= i < |b| ==> b[i] in a
    ensures HasPod(a) <==> HasPod(b)
  {
    assert forall i :: 0 <= i < |a| ==> a[i] in multiset(b);
    assert forall i :: 0 <= i < |b| ==> b[i] in multiset(a);
    if i :| 0 <= i < |a| && a[i].scope == POD {
      var j :| 0 <= j < |b| && b[j] == a[i];
    }
    if i :| 0 <= i < |b| && b[i].scope == POD {
      var j :| 0 <= j < |a| && a[j] == b[i];
    }
  }

  /** No field is told two different things; one "pod" settles the scope. */
  predicate NoContradiction(said: seq<Workload>) {
    && Unanimous(said, NsOf) && Unanimous(said, PodOf) && Unanimous(said, ContainerOf) && Unanimous(said, RuntimeOf)
    && (HasPod(said) || Unanimous(said, ScopeOf))
  }

  lemma UnanimousMerge(a: seq<Workload>, b: seq<Workload>, id: string)
    requires multiset(a) == multiset(b) && NoContradiction(a)
    requires forall i :: 0 <= i < |a| ==> a[i].containerID == id
    ensures MergedAll(NO_WORKLOAD, a) == MergedAll(NO_WORKLOAD, b)
  {
    hide MergedAll, LastSaid, HasPod;
    TextsAreLast(a);
    TextsAreLast(b);
    RuntimeIsLast(a);
    RuntimeIsLast(b);
    ScopeIsLast(a);
    ScopeIsLast(b);
    SameElements(a, b);
    UnanimousOrder(a, b, NsOf);
    UnanimousOrder(a, b, PodOf);
    UnanimousOrder(a, b, ContainerOf);
    UnanimousOrder(a, b, RuntimeOf);
    UnanimousOrder(a, b, IdOf);
    if !HasPod(a) {
      UnanimousOrder(a, b, ScopeOf);
    }
  }

  // ----- The whole catalog -----

  lemma AboutOneMore(workloads: seq<Workload>, n: nat, id: string)
    requires |workloads| == n + 1
    ensures multiset(About(workloads, id)) == multiset(About(workloads[..n], id)) + (if workloads[n].containerID == id then multiset{workloads[n]} else multiset{})
    ensures multiset(workloads) == multiset(workloads[..n]) + multiset{workloads[n]}
  {
    assert workloads == workloads[..n] + [workloads[n]];
  }

  lemma {:induction false} AboutCounts(workloads: seq<Workload>, id: string, w: Workload)
    ensures multiset(About(workloads, id))[w] == if w.containerID == id then multiset(workloads)[w] else 0
  {
    if workloads != [] {
      hide About;
      var n := |workloads| - 1;
      AboutCounts(workloads[..n], id, w);
      AboutOneMore(workloads, n, id);
    }
  }

  lemma {:induction false} AboutIsAbout(workloads: seq<Workload>, id: string)
    ensures forall i :: 0 <= i < |About(workloads, id)| ==>
      About(workloads, id)[i].containerID == id && About(workloads, id)[i] in workloads
  {
    if workloads != [] {
      AboutIsAbout(workloads[..|workloads| - 1], id);
    }
  }

  lemma SameAbout(a: seq<Workload>, b: seq<Workload>, id: string)
    requires multiset(a) == multiset(b)
    ensures multiset(About(a, id)) == multiset(About(b, id))
  {
    forall w ensures multiset(About(a, id))[w] == multiset(About(b, id))[w] {
      AboutCounts(a, id, w);
      AboutCounts(b, id, w);
    }
  }

  ghost predicate OrderIsIrrelevant(workloads: seq<Workload>) {
    forall other :: multiset(other) == multiset(workloads) ==> ItemsOf(other) == ItemsOf(workloads)
  }

  ghost predicate Consistent(workloads: seq<Workload>) {
    forall id :: id != "" ==> NoContradiction(About(workloads, id))
  }

  lemma ConsistentOrder(a: seq<Workload>, b: seq<Workload>)
    requires multiset(a) == multiset(b) && Consistent(a)
    ensures ItemsOf(a) == ItemsOf(b)
  {
    hide NoContradiction, ItemsOf, About, MergedAll, Finished;
    ItemsAreFiled(a);
    ItemsAreFiled(b);
    forall id ensures id in ItemsOf(a) <==> id in ItemsOf(b)
      ensures id in ItemsOf(a) ==> ItemsOf(a)[id] == ItemsOf(b)[id]
    {
      if id != "" {
        SameAbout(a, b, id);
        ItemIsMerge(a, id);
        ItemIsMerge(b, id);
        AboutIsAbout(a, id);
        assert |About(a, id)| == |multiset(About(a, id))| == |multiset(About(b, id))| == |About(b, id)|;
        UnanimousMerge(About(a, id), About(b, id), id);
      }
    }
  }

  /** Moved to the end, a description has the last word. */
  lemma LastWord(workloads: seq<Workload>, w: Workload) returns (other: seq<Workload>)
    requires w in workloads && w.containerID != ""
    ensures multiset(other) == multiset(workloads) && w.containerID in ItemsOf(other)
    ensures var item := ItemsOf(other)[w.containerID];
            && (w.ns != "" ==> item.ns == w.ns) && (w.pod != "" ==> item.pod == w.pod)
            && (w.container != "" ==> item.container == w.container)
            && (Definite(w.runtime) != "" ==> item.runtime == Definite(w.runtime))
            && (w.scope != "" && !HasPod(About(workloads, w.containerID)) ==> item.scope == w.scope)
  {
    var p :| 0 <= p < |workloads| && workloads[p] == w;
    var rest := workloads[..p] + workloads[p + 1..];
    other := rest + [w];
    assert workloads == workloads[..p] + [w] + workloads[p + 1..];
    assert other[..|rest|] == rest;
    var id := w.containerID;
    assert ItemsOf(other)[id] == Finished(Merged(ItemAt(ItemsOf(rest), id), w));
    if !HasPod(About(workloads, id)) {
      SameAbout(workloads, other, id);
      SameElements(About(workloads, id), About(other, id));
      assert About(other, id) == About(rest, id) + [w];
      assert !HasPod(About(rest, id)) by {
        assert forall i :: 0 <= i < |About(rest, id)| ==> About(other, id)[i] == About(rest, id)[i];
      }
      NoPodNoPodScope(rest, id);
    }
  }

  lemma NoPodNoPodScope(workloads: seq<Workload>, id: string)
    requires id != "" && !HasPod(About(workloads, id))
    ensures ItemAt(ItemsOf(workloads), id).scope != POD
  {
    ItemIsMerge(workloads, id);
    PodAbsorbs(NO_WORKLOAD, About(workloads, id));
  }

  lemma BothLastWords(workloads: seq<Workload>, x: Workload, y: Workload)
    requires OrderIsIrrelevant(workloads) && x in workloads && y in workloads && x.containerID == y.containerID != ""
    ensures Agree(x.ns, y.ns) && Agree(x.pod, y.pod) && Agree(x.container, y.container)
    ensures Agree(Definite(x.runtime), Definite(y.runtime))
    ensures HasPod(About(workloads, x.containerID)) || Agree(x.scope, y.scope)
  {
    hide ItemsOf, About, HasPod;
    var a := LastWord(workloads, x);
    var b := LastWord(workloads, y);
    assert ItemsOf(a) == ItemsOf(workloads) == ItemsOf(b);
  }

  /** Whatever the order in which any number of sources answer, the catalog is the same iff they do not
      contradict each other about any container; a pod's scope is never contradicted. */
  lemma CatalogOrderIrrelevantIff(workloads: seq<Workload>)
    ensures OrderIsIrrelevant(workloads) <==> Consistent(workloads)
  {
    hide ItemsOf, About, HasPod;
    if Consistent(workloads) {
      forall other | multiset(other) == multiset(workloads) ensures ItemsOf(other) == ItemsOf(workloads) {
        ConsistentOrder(workloads, other);
      }
    }
    if OrderIsIrrelevant(workloads) {
      forall id | id != "" ensures NoContradiction(About(workloads, id)) {
        OrderKnowsNoContradiction(workloads, id);
      }
    }
  }

  lemma OrderKnowsNoContradiction(workloads: seq<Workload>, id: string)
    requires OrderIsIrrelevant(workloads) && id != ""
    ensures NoContradiction(About(workloads, id))
  {
    hide About, HasPod, OrderIsIrrelevant;
    var said := About(workloads, id);
    AboutIsAbout(workloads, id);
    forall i, j | 0 <= i < |said| && 0 <= j < |said|
      ensures Agree(NsOf(said[i]), NsOf(said[j])) && Agree(PodOf(said[i]), PodOf(said[j]))
      ensures Agree(ContainerOf(said[i]), ContainerOf(said[j])) && Agree(RuntimeOf(said[i]), RuntimeOf(said[j]))
      ensures HasPod(said) || Agree(ScopeOf(said[i]), ScopeOf(said[j]))
    {
      BothLastWords(workloads, said[i], said[j]);
    }
  }

  // ----- What the catalog says of a container -----

  /** `text` is the last thing that was said, or nothing was. */
  predicate IsLastWord(text: string, said: seq<Workload>, f: Workload -> string) {
    || (text == "" && forall i :: 0 <= i < |said| ==> f(said[i]) == "")
    || (text != "" && exists i :: 0 <= i < |said| && f(said[i]) == text && forall j :: i < j < |said| ==> f(said[j]) == "")
  }

  lemma {:induction false} LastSaidIsLastWord(said: seq<Workload>, f: Workload -> string)
    ensures IsLastWord(LastSaid(said, f), said, f)
  {
    if said != [] {
      var n := |said| - 1;
      var before := LastSaid(said[..n], f);
      LastSaidIsLastWord(said[..n], f);
      assert forall i :: 0 <= i < n ==> said[..n][i] == said[i];
      if f(said[n]) == "" && before != "" {
        var i :| 0 <= i < n && f(said[..n][i]) == before && forall j :: i < j < n ==> f(said[..n][j]) == "";
        assert f(said[i]) == before && forall j :: i < j < n ==> f(said[j]) == f(said[..n][j]);
      } else if f(said[n]) != "" {
        assert f(said[n]) == LastSaid(said, f);
      }
    }
  }

  /** The runtime as told; "cri" does not tell any. */
  function ToldRuntime(w: Workload): string {
    if w.runtime == "cri" then "" else w.runtime
  }

  lemma {:induction false} SameWords(said: seq<Workload>, f: Workload -> string, g: Workload -> string)
    requires forall w :: f(w) == g(w)
    ensures LastSaid(said, f) == LastSaid(said, g)
  {
    if said != [] {
      SameWords(said[..|said| - 1], f, g);
    }
  }

  /** The later source wins, field by field: each name is the last that any source gave for the container, the
      scope is "pod" if one said so, and "container" if none said anything. */
  lemma LastWordWins(workloads: seq<Workload>, id: string)
    requires id != "" && id in ItemsOf(workloads)
    ensures var item, said := ItemsOf(workloads)[id], About(workloads, id);
            && IsLastWord(item.ns, said, NsOf) && IsLastWord(item.pod, said, PodOf) && IsLastWord(item.container, said, ContainerOf)
            && IsLastWord(item.runtime, said, ToldRuntime) && item.containerID == id && item.attribution == "cgroup"
            && (if exists i :: 0 <= i < |said| && said[i].scope == "pod" then item.scope == "pod"
                else if forall i :: 0 <= i < |said| ==> said[i].scope == "" then item.scope == "container"
                else IsLastWord(item.scope, said, ScopeOf))
  {
    ItemIsMerge(workloads, id);
    ItemsAreFiled(workloads);
    hide ItemsOf, About, LastSaid, MergedAll, IsLastWord;
    var said := About(workloads, id);
    TextsAreLast(said);
    RuntimeIsLast(said);
    ScopeIsLast(said);
    SameWords(said, RuntimeOf, ToldRuntime);
    LastSaidIsLastWord(said, NsOf);
    LastSaidIsLastWord(said, PodOf);
    LastSaidIsLastWord(said, ContainerOf);
    LastSaidIsLastWord(said, ToldRuntime);
    LastSaidIsLastWord(said, ScopeOf);
    NothingSaidIff(said, ScopeOf);
  }

  /** What is said about a container is what carries its ID, in the order in which it was said. */
  lemma {:induction false} AboutIsSaid(workloads: seq<Workload>, id: string)
    ensures forall i :: 0 <= i < |About(workloads, id)| ==> About(workloads, id)[i].containerID == id
    ensures forall w :: multiset(About(workloads, id))[w] == if w.containerID == id then multiset(workloads)[w] else 0
  {
    if workloads != [] {
      var n := |workloads| - 1;
      AboutIsSaid(workloads[..n], id);
      assert workloads == workloads[..n] + [workloads[n]];
    }
  }
}
