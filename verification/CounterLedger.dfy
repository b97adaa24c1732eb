/** Where every counted byte ends up (internal/netmon/ebpf_linux.go, lines 80-144; internal/netmon/bpf/netmon.c,
    lines 87-93): an account of each incarnation of a key, kept beside any run of the counter protocol. It knows
    what was counted and what was read, and nothing of how the collector computes its deltas. */
module CounterLedger {
  import opened NetTypes
  import opened Sums
  import opened FlowCounters
  import opened CounterProtocol
  import opened CounterTheorems

  /** Of one key, by incarnation: the bytes counted, and the bytes last read by a walk that was acted on.
      `hidden` sums the baselines that were subtracted from the counter of a later incarnation. */
  datatype Ledger = Ledger(totals: map<nat, nat>, read: map<nat, nat>, hidden: nat)

  const NOTHING := Ledger(map[], map[], 0)

  function Counted(l: Ledger, k: Kernel, cpu: nat, key: BpfKey): Ledger
    requires cpu in k.pending
  {
    match k.pending[cpu]
    case Hit(other, id, len) => if other == key then l.(totals := l.totals[id := At(l.totals, id) + len]) else l
    case Miss(other, len) => if other == key then l.(totals := l.totals[k.nextId := len]) else l
  }

  /** A counter read at or above a baseline that a former incarnation left behind. */
  predicate Overtakes(s: State, visit: Visit, m: Mark) {
    && visit.key in s.previous && visit.key in s.marks
    && s.marks[visit.key].id != m.id && s.previous[visit.key] <= visit.value
  }

  function ReadOne(l: Ledger, s: State, visit: Visit, m: Mark): Ledger {
    l.(read := l.read[m.id := visit.value],
       hidden := l.hidden + if Overtakes(s, visit, m) then At(s.previous, visit.key) else 0)
  }

  function ReadAll(l: Ledger, s: State, visits: seq<Visit>, marks: seq<Mark>, key: BpfKey): Ledger
    requires |visits| == |marks|
  {
    if visits == [] then l
    else
      var n := |visits| - 1;
      var before := ReadAll(l, s, visits[..n], marks[..n], key);
      if visits[n].key == key then ReadOne(before, s, visits[n], marks[n]) else before
  }

  function After(l: Ledger, s: State, step: Step, key: BpfKey): Ledger
    requires Shaped(s) && Enabled(s, step)
  {
    match step
    case Update(cpu) => Counted(l, s.kernel, cpu, key)
    case EndWalk(end) =>
      if Concludes(s, end) && end != Failed then ReadAll(l, s, s.walk.value.visits, s.walk.value.marks, key) else l
    case _ => l
  }

  function LedgerOf(l: Ledger, s: State, steps: seq<Step>, key: BpfKey): Ledger
    requires Shaped(s) && Allowed(s, steps)
    decreases |steps|
  {
    if steps == [] then l else LedgerOf(After(l, s, steps[0], key), Next(s, steps[0]), steps[1..], key)
  }

  // ----- The invariant -----

  ghost predicate KernelTold(k: Kernel, key: BpfKey, l: Ledger) {
    && Total(l.totals) == At(k.counted, key)
    && (forall id :: id in l.totals ==> id < k.nextId)
    && (key in k.live ==> k.live[key].id in l.totals && l.totals[k.live[key].id] == k.live[key].bytes)
    && forall cpu :: cpu in k.pending && k.pending[cpu].Hit? && k.pending[cpu].key == key ==> k.pending[cpu].id in l.totals
  }

  /** The live incarnation, if it was read at all, is the one the baseline is from. */
  ghost predicate ReadTold(s: State, key: BpfKey, l: Ledger) {
    && (forall id :: id in l.read ==> id in l.totals && l.read[id] <= l.totals[id])
    && At(s.reported, key) + l.hidden == Total(l.read)
    && (key in s.previous ==> key in s.marks && s.marks[key].id in l.read && l.read[s.marks[key].id] == s.previous[key])
    && (key in s.kernel.live && s.kernel.live[key].id in l.read ==> key in s.previous && s.marks[key].id == s.kernel.live[key].id)
  }

  ghost predicate VisitTold(s: State, l: Ledger, visit: Visit, m: Mark) {
    && m.id in l.totals && visit.value <= l.totals[m.id]
    && (m.id in l.read ==> visit.key in s.previous && visit.key in s.marks && s.marks[visit.key].id == m.id
                           && s.previous[visit.key] <= visit.value)
    && (visit.key in s.kernel.live && s.kernel.live[visit.key].id in l.read ==> m.id == s.kernel.live[visit.key].id)
  }

  ghost predicate WalkTold(s: State, key: BpfKey, l: Ledger)
    requires Shaped(s) && s.walk.Some?
  {
    var w := s.walk.value;
    && (forall i :: 0 <= i < |w.visits| && w.visits[i].key == key ==> VisitTold(s, l, w.visits[i], w.marks[i]))
    && (key in s.kernel.live && s.kernel.live[key].id in l.read ==> key in w.stayed)
  }

  ghost predicate Told(s: State, key: BpfKey, l: Ledger)
    requires Shaped(s)
  {
    KernelTold(s.kernel, key, l) && ReadTold(s, key, l) && (s.walk.Some? ==> WalkTold(s, key, l))
  }

  // ----- Kernel steps -----

  lemma UpdateCounts(k: Kernel, cpu: nat, key: BpfKey, l: Ledger)
    requires KernelTold(k, key, l) && cpu in k.pending
    ensures var l' := Counted(l, k, cpu, key);
            && Total(l'.totals) == At(Updated(k, cpu).counted, key) && l' == l.(totals := l'.totals)
            && (forall id :: id in l.totals ==> id in l'.totals && l.totals[id] <= l'.totals[id])
            && forall id :: id in l'.totals && id !in l.totals ==> id == k.nextId && k.pending[cpu].Miss?
  {
    hide Total;
    match k.pending[cpu]
    case Hit(other, id, len) => TotalSet(l.totals, id, At(l.totals, id) + len);
    case Miss(other, len) => TotalSet(l.totals, k.nextId, len);
  }

  lemma UpdateTold(k: Kernel, cpu: nat, key: BpfKey, l: Ledger)
    requires KernelTold(k, key, l) && cpu in k.pending
    ensures KernelTold(Updated(k, cpu), key, Counted(l, k, cpu, key))
    ensures forall id :: id in l.totals ==>
      id in Counted(l, k, cpu, key).totals && l.totals[id] <= Counted(l, k, cpu, key).totals[id]
    ensures Counted(l, k, cpu, key) == l.(totals := Counted(l, k, cpu, key).totals)
  {
    hide Total, At, Plus;
    UpdateCounts(k, cpu, key, l);
    UpdateEntry(k, cpu, key, l);
  }

  lemma UpdateEntry(k: Kernel, cpu: nat, key: BpfKey, l: Ledger)
    requires KernelTold(k, key, l) && cpu in k.pending
    ensures var k', l' := Updated(k, cpu), Counted(l, k, cpu, key);
            && (key in k'.live ==> k'.live[key].id in l'.totals && l'.totals[k'.live[key].id] == k'.live[key].bytes)
            && k'.pending == k.pending - {cpu} && k'.nextId == k.nextId + if k.pending[cpu].Miss? then 1 else 0
  {
    hide Total, Plus;
  }

  lemma KernelStepTold(k: Kernel, step: Step, key: BpfKey, l: Ledger)
    requires step.Update? || step.Refuse? ==> step.cpu in k.pending
    requires step.Evict? ==> step.key in k.live
    requires KernelTold(k, key, l) && !step.Update?
    ensures KernelTold(KernelNext(k, step), key, l)
  {
    hide Total;
  }

  /** What a kernel step can do to the entry of a key: it grows, goes, or is replaced by a new incarnation. */
  lemma LiveAfter(s: State, step: Step, key: BpfKey)
    requires Shaped(s) && Enabled(s, step) && IsKernelStep(step)
    ensures var live, live' := s.kernel.live, Next(s, step).kernel.live;
            key in live' && live'[key].id != s.kernel.nextId ==>
              key in live && live'[key].id == live[key].id && key !in Removed(s.kernel, step)
  {
  }

  lemma KernelStepKeepsTold(s: State, step: Step, key: BpfKey, l: Ledger)
    requires Shaped(s) && Told(s, key, l) && Enabled(s, step) && IsKernelStep(step)
    ensures Told(Next(s, step), key, After(l, s, step, key))
  {
    var s', l' := Next(s, step), After(l, s, step, key);
    if step.Update? {
      UpdateTold(s.kernel, step.cpu, key, l);
    } else {
      KernelStepTold(s.kernel, step, key, l);
    }
    LiveAfter(s, step, key);
    assert KernelTold(s'.kernel, key, l');
    assert s'.previous == s.previous && s'.marks == s.marks && s'.reported == s.reported;
    assert s.walk.Some? ==> s'.walk == Some(s.walk.value.(stayed := s.walk.value.stayed - Removed(s.kernel, step)));
    assert l' == l.(totals := l'.totals) && forall id :: id in l.totals ==> id in l'.totals && l.totals[id] <= l'.totals[id];
    assert forall id :: id in l.read ==> id in l.totals && id < s.kernel.nextId;
    hide KernelTold, Next, After, Total, Removed, Counted;
    if s.walk.Some? {
      var w := s.walk.value;
      forall i | 0 <= i < |w.visits| && w.visits[i].key == key ensures VisitTold(s', l', w.visits[i], w.marks[i]) {
        assert VisitTold(s, l, w.visits[i], w.marks[i]);
      }
    }
  }

  // ----- Walk steps -----

  lemma WalkStepKeepsTold(s: State, step: Step, key: BpfKey, l: Ledger)
    requires Shaped(s) && Told(s, key, l) && Enabled(s, step) && (step.BeginWalk? || step.VisitKey?)
    ensures Told(Next(s, step), key, After(l, s, step, key))
  {
    hide Total;
    var s' := Next(s, step);
    var w' := s'.walk.value;
    forall i | 0 <= i < |w'.visits| && w'.visits[i].key == key ensures VisitTold(s', l, w'.visits[i], w'.marks[i]) {
      if step.VisitKey? && i < |w'.visits| - 1 {
        assert VisitTold(s, l, s.walk.value.visits[i], s.walk.value.marks[i]);
      }
    }
  }

  lemma {:induction false} NothingToRead(l: Ledger, s: State, visits: seq<Visit>, marks: seq<Mark>, key: BpfKey)
    requires |visits| == |marks| && forall i :: 0 <= i < |visits| ==> visits[i].key != key
    ensures ReadAll(l, s, visits, marks, key) == l
  {
    if visits != [] {
      var n := |visits| - 1;
      NothingToRead(l, s, visits[..n], marks[..n], key);
    }
  }

  lemma {:induction false} ReadOnce(l: Ledger, s: State, visits: seq<Visit>, marks: seq<Mark>, key: BpfKey, i: nat)
    requires |visits| == |marks| && DistinctKeys(visits) && i < |visits| && visits[i].key == key
    ensures ReadAll(l, s, visits, marks, key) == ReadOne(l, s, visits[i], marks[i])
  {
    hide ReadOne;
    var n := |visits| - 1;
    if i < n {
      assert visits[n].key != key;
      ReadOnce(l, s, visits[..n], marks[..n], key, i);
    } else {
      NothingToRead(l, s, visits[..n], marks[..n], key);
    }
  }

  /** The heart of it: what the collector adds for a visit is what the ledger finds newly read, but for a
      baseline left by a former incarnation. */
  lemma ReadOneAddsUp(l: Ledger, s: State, visit: Visit, m: Mark)
    requires ReadTold(s, visit.key, l) && VisitTold(s, l, visit, m)
    ensures var l', base := ReadOne(l, s, visit, m), At(s.previous, visit.key);
            Total(l'.read) + l.hidden + (if visit.value < base then 0 else base) == Total(l.read) + l'.hidden + visit.value
  {
    hide Total;
    TotalSet(l.read, m.id, visit.value);
  }

  /** A visited key after a walk that is acted on. */
  lemma VisitedIsTold(s: State, end: WalkEnd, key: BpfKey, l: Ledger, i: nat)
    requires Shaped(s) && s.walk.Some? && Told(s, key, l) && Reportable(key)
    requires Concludes(s, end) && end != Failed && NoRepeats(s, EndWalk(end))
    requires i < |s.walk.value.visits| && s.walk.value.visits[i].key == key
    ensures var l' := After(l, s, EndWalk(end), key);
            && ReadTold(Next(s, EndWalk(end)), key, l')
            && l' == ReadOne(l, s, s.walk.value.visits[i], s.walk.value.marks[i])
  {
    var w := s.walk.value;
    var visit, m := w.visits[i], w.marks[i];
    assert After(l, s, EndWalk(end), key) == ReadAll(l, s, w.visits, w.marks, key);
    assert VisitTold(s, l, visit, m);
    assert ReadTold(s, key, l);
    assert DistinctKeys(w.visits);
    VisitedState(s, end, i);
    hide *;
    ReadOnce(l, s, w.visits, w.marks, key, i);
    OneReadIsTold(s, Next(s, EndWalk(end)), l, visit, m);
  }

  /** What acting on a walk leaves of a key it visited. */
  lemma VisitedState(s: State, end: WalkEnd, i: nat)
    requires Shaped(s) && s.walk.Some? && Concludes(s, end) && end != Failed && NoRepeats(s, EndWalk(end))
    requires i < |s.walk.value.visits| && Reportable(s.walk.value.visits[i].key)
    ensures IsReadOf(s, Next(s, EndWalk(end)), s.walk.value.visits[i], s.walk.value.marks[i])
  {
    var w := s.walk.value;
    CommittedState(s, end);
    ObservedOnce(w.visits);
    MarksOfOnce(w.visits, w.marks);
    VisitedKeyIsCredited(s.reported, s.previous, w.visits, i);
    hide Next, Observed, Credited, MarksOf;
  }

  ghost predicate IsReadOf(s: State, s': State, visit: Visit, m: Mark) {
    var key, base := visit.key, At(s.previous, visit.key);
    && s'.kernel == s.kernel && key in s'.previous && s'.previous[key] == visit.value && key in s'.marks && s'.marks[key] == m
    && (if visit.value < base then At(s'.reported, key) == At(s.reported, key) + visit.value
        else At(s'.reported, key) + base == At(s.reported, key) + visit.value)
  }

  lemma OneReadIsTold(s: State, s': State, l: Ledger, visit: Visit, m: Mark)
    requires IsReadOf(s, s', visit, m) && ReadTold(s, visit.key, l) && VisitTold(s, l, visit, m)
    ensures ReadTold(s', visit.key, ReadOne(l, s, visit, m))
  {
    hide Total;
    ReadOneAddsUp(l, s, visit, m);
  }

  lemma MissedIsTold(s: State, end: WalkEnd, key: BpfKey, l: Ledger)
    requires Shaped(s) && s.walk.Some? && Told(s, key, l)
    requires Concludes(s, end) && end != Failed && NoRepeats(s, EndWalk(end)) && NoOmissions(s, EndWalk(end))
    requires forall i :: 0 <= i < |s.walk.value.visits| ==> s.walk.value.visits[i].key != key
    ensures After(l, s, EndWalk(end), key) == l && ReadTold(Next(s, EndWalk(end)), key, l)
  {
    var w := s.walk.value;
    CommittedState(s, end);
    ObservedOnce(w.visits);
    MarksOfOnce(w.visits, w.marks);
    CreditedOnce(s.reported, s.previous, w.visits);
    NothingToRead(l, s, w.visits, w.marks, key);
    assert key !in Observed(w.visits);
    assert end == Completed ==> key !in w.stayed;
    hide Next, Observed, Credited, MarksOf, Total, ReadAll;
  }

  lemma EndWalkKeepsTold(s: State, end: WalkEnd, key: BpfKey, l: Ledger)
    requires Shaped(s) && s.walk.Some? && Told(s, key, l) && Reportable(key)
    requires NoRepeats(s, EndWalk(end)) && NoOmissions(s, EndWalk(end))
    ensures Told(Next(s, EndWalk(end)), key, After(l, s, EndWalk(end), key))
  {
    var s' := Next(s, EndWalk(end));
    assert s'.walk.None? && s'.kernel == s.kernel;
    if !(Concludes(s, end) && end != Failed) {
      DecidedByLast(s, end);
    } else if i :| 0 <= i < |s.walk.value.visits| && s.walk.value.visits[i].key == key {
      VisitedIsTold(s, end, key, l, i);
      hide ReadTold, Next, After, Total;
    } else {
      MissedIsTold(s, end, key, l);
      hide ReadTold, Next, After, Total;
    }
  }

  /** A walk that is not acted on changes nothing that is told. */
  lemma DecidedByLast(s: State, end: WalkEnd)
    requires Shaped(s) && s.walk.Some? && !(Concludes(s, end) && end != Failed)
    ensures var s' := Next(s, EndWalk(end));
            s'.previous == s.previous && s'.marks == s.marks && s'.reported == s.reported && s'.kernel == s.kernel
  {
    OnlyDecidedWalksReport(s, EndWalk(end));
  }

  lemma {:induction false} RunKeepsTold(s: State, steps: seq<Step>, key: BpfKey, l: Ledger)
    requires Shaped(s) && Told(s, key, l) && Reportable(key) && Allowed(s, steps) && WellFormed(s, steps)
    ensures Told(Run(s, steps), key, LedgerOf(l, s, steps, key))
    decreases |steps|
  {
    hide Told, Next, NoRepeats, NoOmissions, After;
    if steps != [] {
      var step := steps[0];
      if step.EndWalk? {
        EndWalkKeepsTold(s, step.end, key, l);
      } else if step.BeginWalk? || step.VisitKey? {
        WalkStepKeepsTold(s, step, key, l);
      } else {
        KernelStepKeepsTold(s, step, key, l);
      }
      RunKeepsTold(Next(s, step), steps[1..], key, After(l, s, step, key));
    }
  }

  // ----- What was counted, reported and lost -----

  /** The bytes of each incarnation that no walk acted on has read, or not yet. */
  function Unread(l: Ledger): map<nat, nat> {
    map id | id in l.totals :: if At(l.read, id) <= l.totals[id] then l.totals[id] - At(l.read, id) else 0
  }

  lemma {:induction false} PartsAddUp(whole: map<nat, nat>, a: map<nat, nat>, b: map<nat, nat>)
    requires b.Keys == whole.Keys && a.Keys <= whole.Keys && forall id :: id in whole ==> whole[id] == At(a, id) + b[id]
    ensures Total(whole) == Total(a) + Total(b)
    decreases |whole|
  {
    hide Total;
    if whole == map[] {
      assert a == map[] && b == map[];
      TotalOfNothing();
    } else {
      var id :| id in whole;
      TotalSplit(whole, id);
      TotalSplit(b, id);
      PartsAddUp(whole - {id}, a - {id}, b - {id});
      if id in a {
        TotalSplit(a, id);
      } else {
        assert a - {id} == a;
      }
    }
  }

  lemma TotalOfNothing()
    ensures Total<nat>(map[]) == 0
  {
  }

  lemma TellsAll(s: State, key: BpfKey, l: Ledger)
    requires Shaped(s) && Told(s, key, l)
    ensures At(s.kernel.counted, key) == At(s.reported, key) + l.hidden + Total(Unread(l))
  {
    hide Total;
    PartsAddUp(l.totals, l.read, Unread(l));
  }

  lemma StartsTold(key: BpfKey)
    ensures Shaped(INIT) && Told(INIT, key, NOTHING)
  {
  }

  /** Through every well-formed run, evictions and recreated counters included: the bytes counted under a key
      are those reported, those never read, and those hidden behind the baseline of a former incarnation. */
  lemma EveryByteIsTold(steps: seq<Step>, key: BpfKey)
    requires Reportable(key) && Allowed(INIT, steps) && WellFormed(INIT, steps)
    ensures var s, l := Run(INIT, steps), LedgerOf(NOTHING, INIT, steps, key);
            && At(s.kernel.counted, key) == Total(l.totals)
            && At(s.reported, key) + l.hidden == Total(l.read)
            && At(s.kernel.counted, key) == At(s.reported, key) + l.hidden + Total(Unread(l))
  {
    hide Run, LedgerOf, WellFormed, Allowed;
    StartsTold(key);
    RunKeepsTold(INIT, steps, key, NOTHING);
    TellsAll(Run(INIT, steps), key, LedgerOf(NOTHING, INIT, steps, key));
  }

  /** When a walk has been acted on, what it leaves unreported of a key it visited is the growth since then of
      the incarnation it read, the unread bytes of all others, which are gone, and what was hidden. */
  lemma CommitLeavesOnlyUnread(steps: seq<Step>, end: WalkEnd, key: BpfKey, i: nat)
    requires Reportable(key) && Allowed(INIT, steps) && WellFormed(INIT, steps)
    requires var s := Run(INIT, steps);
             && s.walk.Some? && Concludes(s, end) && end != Failed && NoRepeats(s, EndWalk(end)) && NoOmissions(s, EndWalk(end))
             && i < |s.walk.value.visits| && s.walk.value.visits[i].key == key
    ensures var s := Run(INIT, steps);
            var s' := Next(s, EndWalk(end));
            var l := After(LedgerOf(NOTHING, INIT, steps, key), s, EndWalk(end), key);
            var id, value := s.walk.value.marks[i].id, s.walk.value.visits[i].value;
            && id in l.totals && value <= l.totals[id]
            && At(s'.kernel.counted, key)
               == At(s'.reported, key) + l.hidden + (l.totals[id] - value) + Total(Unread(l) - {id})
            && forall other :: other in l.totals && other != id && key in s.kernel.live && other == s.kernel.live[key].id
                 ==> At(l.read, other) == 0
  {
    hide Run, LedgerOf, WellFormed, Allowed, Total;
    var s, l := Run(INIT, steps), LedgerOf(NOTHING, INIT, steps, key);
    var s' := Next(s, EndWalk(end));
    var l' := After(l, s, EndWalk(end), key);
    StartsTold(key);
    RunKeepsTold(INIT, steps, key, NOTHING);
    EndWalkKeepsTold(s, end, key, l);
    VisitedIsTold(s, end, key, l, i);
    TellsAll(s', key, l');
    var id := s.walk.value.marks[i].id;
    assert VisitTold(s, l, s.walk.value.visits[i], s.walk.value.marks[i]);
    assert id in Unread(l');
    TotalSplit(Unread(l'), id);
    CommittedState(s, end);
    MarksOfOnce(s.walk.value.visits, s.walk.value.marks);
  }

  // ----- When bytes are hidden -----

  /** The step acts on a walk in which a recreated counter of the key has overtaken a baseline. */
  ghost predicate Hides(s: State, step: Step, key: BpfKey)
    requires Shaped(s) && Enabled(s, step)
  {
    && step.EndWalk? && Concludes(s, step.end) && step.end != Failed
    && exists i :: 0 <= i < |s.walk.value.visits| && s.walk.value.visits[i].key == key && At(s.previous, key) > 0
         && Overtakes(s, s.walk.value.visits[i], s.walk.value.marks[i])
  }

  ghost predicate NeverHides(s: State, steps: seq<Step>, key: BpfKey)
    requires Shaped(s) && Allowed(s, steps)
    decreases |steps|
  {
    steps == [] || (!Hides(s, steps[0], key) && NeverHides(Next(s, steps[0]), steps[1..], key))
  }

  lemma {:induction false} ReadAllHides(l: Ledger, s: State, visits: seq<Visit>, marks: seq<Mark>, key: BpfKey)
    requires |visits| == |marks|
    ensures var l' := ReadAll(l, s, visits, marks, key);
            && l'.hidden >= l.hidden
            && (l'.hidden > l.hidden <==>
                  exists i :: 0 <= i < |visits| && visits[i].key == key && At(s.previous, key) > 0 && Overtakes(s, visits[i], marks[i]))
  {
    if visits != [] {
      var n := |visits| - 1;
      ReadAllHides(l, s, visits[..n], marks[..n], key);
      assert forall i :: 0 <= i < n ==> visits[..n][i] == visits[i] && marks[..n][i] == marks[i];
    }
  }

  lemma AfterHides(l: Ledger, s: State, step: Step, key: BpfKey)
    requires Shaped(s) && Enabled(s, step)
    ensures After(l, s, step, key).hidden >= l.hidden
    ensures After(l, s, step, key).hidden > l.hidden <==> Hides(s, step, key)
  {
    hide ReadAll, Overtakes;
    if step.EndWalk? {
      ReadAllHides(l, s, s.walk.value.visits, s.walk.value.marks, key);
    }
  }

  lemma {:induction false} HiddenGrows(l: Ledger, s: State, steps: seq<Step>, key: BpfKey)
    requires Shaped(s) && Allowed(s, steps)
    ensures LedgerOf(l, s, steps, key).hidden >= l.hidden
    ensures LedgerOf(l, s, steps, key).hidden == l.hidden <==> NeverHides(s, steps, key)
    decreases |steps|
  {
    hide After, Next, Hides;
    if steps != [] {
      AfterHides(l, s, steps[0], key);
      HiddenGrows(After(l, s, steps[0], key), Next(s, steps[0]), steps[1..], key);
    }
  }

  /** Only unread bytes go unreported iff no walk that was acted on found a recreated counter of the key at or
      above the baseline of a former incarnation. */
  lemma OnlyUnreadIsLostIff(steps: seq<Step>, key: BpfKey)
    requires Reportable(key) && Allowed(INIT, steps) && WellFormed(INIT, steps)
    ensures var s, l := Run(INIT, steps), LedgerOf(NOTHING, INIT, steps, key);
            At(s.kernel.counted, key) == At(s.reported, key) + Total(Unread(l)) <==> NeverHides(INIT, steps, key)
  {
    hide Run, LedgerOf, WellFormed, Allowed, NeverHides, Total;
    EveryByteIsTold(steps, key);
    HiddenGrows(NOTHING, INIT, steps, key);
  }

  // ----- A run that hides bytes -----

  lemma PacketRun(s: State, key: BpfKey, n: nat)
    requires Shaped(s) && s.walk.None? && s.kernel.pending == map[] && key !in s.kernel.live && Reportable(key)
    ensures var steps := [Lookup(0, key, n), Update(0)];
            && Allowed(s, steps) && WellFormed(s, steps)
            && Run(s, steps) == s.(kernel := s.kernel.(
                 live := s.kernel.live[key := Cell(s.kernel.nextId, n)],
                 nextId := s.kernel.nextId + 1,
                 counted := Plus(s.kernel.counted, key, n)))
  {
    TwoSteps(s, Lookup(0, key, n), Update(0));
  }

  /** A whole poll over a map with one entry. */
  lemma WalkRun(s: State, key: BpfKey, cell: Cell)
    requires Shaped(s) && s.walk.None? && s.attempts == [] && s.kernel.live == map[key := cell] && Reportable(key)
    ensures var steps := [BeginWalk, VisitKey(key)] + [EndWalk(Completed)];
            && Allowed(s, steps) && WellFormed(s, steps)
            && var r := Run(s, steps);
               r.kernel == s.kernel && r.walk.None? && r.attempts == [] && r.previous == map[key := cell.bytes]
               && At(r.reported, key) == At(s.reported, key) + cell.bytes - if cell.bytes < At(s.previous, key) then 0 else At(s.previous, key)
  {
    var read := Next(Next(s, BeginWalk), VisitKey(key));
    var visits := [Visit(key, cell.bytes)];
    assert read.walk.value.visits == visits && visits[0].key == key;
    CommittedState(read, Completed);
    VisitedKeyIsCredited(s.reported, s.previous, visits, 0);
    assert visits[..0] == [] && Observed(visits) == map[key := cell.bytes];
    hide Allowed, WellFormed, Run, Credited, Observed, MarksOf, Decide;
    TwoSteps(s, BeginWalk, VisitKey(key));
    OneStep(read, EndWalk(Completed));
    RunAppend(s, [BeginWalk, VisitKey(key)], [EndWalk(Completed)]);
  }

  lemma PacketThenWalk(s: State, key: BpfKey, n: nat) returns (steps: seq<Step>)
    requires Shaped(s) && s.walk.None? && s.attempts == [] && s.kernel.pending == map[] && s.kernel.live == map[] && Reportable(key)
    ensures Allowed(s, steps) && WellFormed(s, steps)
    ensures var r := Run(s, steps);
            && r.walk.None? && r.attempts == [] && r.kernel.pending == map[] && r.kernel.live.Keys == {key}
            && r.previous == map[key := n] && At(r.kernel.counted, key) == At(s.kernel.counted, key) + n
            && At(r.reported, key) == At(s.reported, key) + n - if n < At(s.previous, key) then 0 else At(s.previous, key)
  {
    hide Allowed, WellFormed, Run;
    var packet, walk := [Lookup(0, key, n), Update(0)], [BeginWalk, VisitKey(key)] + [EndWalk(Completed)];
    PacketRun(s, key, n);
    WalkRun(Run(s, packet), key, Cell(s.kernel.nextId, n));
    RunAppend(s, packet, walk);
    steps := packet + walk;
  }

  /** Five bytes are counted and reported; the entry is evicted, eight more are counted and read: three are reported. */
  lemma OvertakenCounterHides(key: BpfKey) returns (before: seq<Step>, after: seq<Step>)
    requires Reportable(key)
    ensures Allowed(INIT, before) && At(Run(INIT, before).kernel.counted, key) == 5 == At(Run(INIT, before).reported, key)
    ensures Allowed(INIT, before + after) && WellFormed(INIT, before + after)
    ensures var s := Run(INIT, before + after);
            At(s.kernel.counted, key) == 13 && At(s.previous, key) == 8 && At(s.reported, key) == 8
  {
    hide Allowed, WellFormed, Run;
    before := PacketThenWalk(INIT, key, 5);
    var s := Run(INIT, before);
    assert Next(s, Evict(key)).kernel.live == map[];
    OneStep(s, Evict(key));
    var rest := PacketThenWalk(Next(s, Evict(key)), key, 8);
    RunAppend(s, [Evict(key)], rest);
    after := [Evict(key)] + rest;
    RunAppend(INIT, before, after);
  }
}
