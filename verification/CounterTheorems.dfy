/** What follows from the counter protocol for the flows that leave the collector: the bound on every
    reported identity, exact conservation while no entry is lost, and why both assumptions about the
    iterator are needed (internal/netmon/ebpf_linux.go, lines 80-144). */
module CounterTheorems {
  import opened NetTypes
  import opened Sums
  import opened FlowCounters
  import opened CounterProtocol

  // ----- One poll of the protocol is one call of ReadDeltas -----

  /** The attempts of a concluded poll decide it the same way whatever further walks would have seen. */
  lemma PollIsReadDeltas(s: State, end: WalkEnd, all: seq<Walk>)
    requires Shaped(s) && s.walk.Some? && Concludes(s, end)
    requires |all| == MAX_ATTEMPTS + 1 && s.attempts + [Walk(s.walk.value.visits, end)] <= all
    ensures var s' := Next(s, EndWalk(end));
            var outcome := Decide(s.previous, all[Deciding(all)]);
            s'.previous == outcome.previous && s'.emitted == s.emitted + outcome.flows
  {
    LastWalkDecides(s, end);
    assert forall i :: 0 <= i < |s.attempts| ==> s.attempts[i].end == Aborted;
    assert |s.attempts| < MAX_ATTEMPTS ==> end != Aborted;
    hide *;
    var n := |s.attempts|;
    var made := s.attempts + [Walk(s.walk.value.visits, end)];
    assert forall i :: 0 <= i <= n ==> all[i] == made[i];
    DecidingIs(all, n);
  }

  lemma LastWalkDecides(s: State, end: WalkEnd)
    requires Shaped(s) && s.walk.Some? && Concludes(s, end)
    ensures var s', outcome := Next(s, EndWalk(end)), Decide(s.previous, Walk(s.walk.value.visits, end));
            s'.previous == outcome.previous && s'.emitted == s.emitted + outcome.flows
  {
    hide Flows, FlowCounters.Observed, Credited, MarksOf, Decide, Deciding;
    DecidingIs(s.attempts + [Walk(s.walk.value.visits, end)], |s.attempts|);
  }

  /** Discarded attempts, hard errors and everything the kernel does leave the baselines and the output
      alone. */
  lemma OnlyDecidedWalksReport(s: State, step: Step)
    requires Shaped(s) && Enabled(s, step)
    requires !(step.EndWalk? && Concludes(s, step.end) && step.end != Failed)
    ensures Next(s, step).previous == s.previous
    ensures Next(s, step).reported == s.reported
    ensures Next(s, step).emitted == s.emitted
  {
  }

  // ----- Emitted flows -----

  /** The part of a per-key account that is reported under one identity; an IPv4 key and the key of the
      IPv4-mapped IPv6 tuple share one. */
  function Under(m: map<BpfKey, nat>, id: CgroupFlow): map<BpfKey, nat> {
    map key | key in m && FlowFromBpfKey(key) == Some(id) :: m[key]
  }

  lemma PlusUnder(m: map<BpfKey, nat>, key: BpfKey, n: nat, id: CgroupFlow)
    ensures Total(Under(m[key := At(m, key) + n], id))
         == Total(Under(m, id)) + if FlowFromBpfKey(key) == Some(id) then n else 0
  {
    var m' := m[key := At(m, key) + n];
    if FlowFromBpfKey(key) == Some(id) {
      assert Under(m', id) == Under(m, id)[key := At(m, key) + n];
      TotalSet(Under(m, id), key, At(m, key) + n);
    } else {
      assert Under(m', id) == Under(m, id);
    }
  }

  lemma EmissionBytes(previous: Baselines, visit: Visit, id: CgroupFlow)
    ensures BytesOf(Emission(previous, visit), id)
         == if FlowFromBpfKey(visit.key) == Some(id) then Delta(At(previous, visit.key), visit.value) else 0
  {
  }

  lemma CreditedVisitIsEmitted(reported: map<BpfKey, nat>, previous: Baselines, visit: Visit, id: CgroupFlow)
    ensures Total(Under(CreditedVisit(reported, previous, visit), id))
         == Total(Under(reported, id)) + BytesOf(Emission(previous, visit), id)
  {
    hide Total, Emission, BytesOf;
    EmissionBytes(previous, visit, id);
    PlusUnder(reported, visit.key, Delta(At(previous, visit.key), visit.value), id);
  }

  lemma {:induction false} CreditedIsEmitted(reported: map<BpfKey, nat>, previous: Baselines, visits: seq<Visit>, id: CgroupFlow)
    ensures Total(Under(Credited(reported, previous, visits), id))
         == Total(Under(reported, id)) + BytesOf(Flows(previous, visits), id)
  {
    if visits != [] {
      var n := |visits| - 1;
      CreditedIsEmitted(reported, previous, visits[..n], id);
      CreditedVisitIsEmitted(Credited(reported, previous, visits[..n]), previous, visits[n], id);
      BytesOfConcat(Flows(previous, visits[..n]), Emission(previous, visits[n]), id);
    }
  }

  lemma {:induction false} EmittedIsReported(s: State, steps: seq<Step>, id: CgroupFlow)
    requires Shaped(s) && Allowed(s, steps)
    requires BytesOf(s.emitted, id) == Total(Under(s.reported, id))
    ensures BytesOf(Run(s, steps).emitted, id) == Total(Under(Run(s, steps).reported, id))
    decreases |steps|
  {
    if steps != [] {
      var step := steps[0];
      if step.EndWalk? && Concludes(s, step.end) && step.end != Failed {
        var w := s.walk.value;
        DecidingIs(s.attempts + [Walk(w.visits, step.end)], |s.attempts|);
        CreditedIsEmitted(s.reported, s.previous, w.visits, id);
        BytesOfConcat(s.emitted, Flows(s.previous, w.visits), id);
      } else {
        OnlyDecidedWalksReport(s, step);
      }
      EmittedIsReported(Next(s, step), steps[1..], id);
    }
  }

  /** The same safety on the output itself: the flows returned over all polls under one cgroup, direction
      and tuple never carry more bytes than were counted for it. */
  lemma FlowsNeverExceedCounted(steps: seq<Step>, id: CgroupFlow)
    requires Allowed(INIT, steps) && WellFormed(INIT, steps)
    ensures BytesOf(Run(INIT, steps).emitted, id) <= Total(Under(Run(INIT, steps).kernel.counted, id))
  {
    var s := Run(INIT, steps);
    assert Under(INIT.reported, id) == map[];
    EmittedIsReported(INIT, steps, id);
    forall key ensures At(Under(s.reported, id), key) <= At(Under(s.kernel.counted, id), key) {
      NeverOverReports(steps, key);
    }
    TotalMonotone(Under(s.reported, id), Under(s.kernel.counted, id));
  }

  // ----- Exact conservation -----

  /** No entry leaves the map: nothing is evicted and no insert finds the key present. */
  predicate KeepsEntries(s: State, step: Step) {
    Removed(s.kernel, step) !! s.kernel.live.Keys
  }

  ghost predicate ExactKey(s: State, key: BpfKey) {
    && At(s.kernel.dead, key) == 0
    && (key in s.kernel.live ==> Reportable(key))
    && (key in s.previous ==> key in s.kernel.live)
    && At(s.reported, key) == At(s.previous, key) <= At(s.kernel.counted, key)
  }

  ghost predicate ExactPending(s: State) {
    forall cpu :: cpu in s.kernel.pending ==>
      var p := s.kernel.pending[cpu];
      && Reportable(p.key)
      && (p.Hit? ==> p.key in s.kernel.live && s.kernel.live[p.key].id == p.id)
  }

  ghost predicate ExactVisit(s: State, visit: Visit)
    requires s.walk.Some?
  {
    && visit.key in s.kernel.live
    && At(s.previous, visit.key) <= visit.value <= At(s.kernel.counted, visit.key)
    && At(s.walk.value.atBegin, visit.key) <= visit.value
  }

  ghost predicate ExactWalk(s: State)
    requires s.walk.Some?
  {
    var w := s.walk.value;
    && (forall i :: 0 <= i < |w.visits| ==> ExactVisit(s, w.visits[i]))
    && w.stayed <= s.kernel.live.Keys
    && s.previous.Keys <= w.stayed
    && (forall key :: At(w.atBegin, key) <= At(s.kernel.counted, key))
    && (forall key :: At(w.atBegin, key) > 0 ==> key in w.stayed)
  }

  ghost predicate Exact(s: State) {
    && (forall key :: Balanced(s.kernel, key) && ExactKey(s, key))
    && ExactPending(s)
    && (s.walk.Some? ==> ExactWalk(s))
  }

  lemma KernelStepKeepsExact(s: State, step: Step)
    requires Shaped(s) && Exact(s) && Enabled(s, step) && IsKernelStep(step) && KeepsEntries(s, step)
    ensures Exact(Next(s, step))
  {
    hide ExactPending, ExactWalk;
    var s' := Next(s, step);
    forall key ensures Balanced(s'.kernel, key) && ExactKey(s', key) {
      assert Balanced(s.kernel, key) && ExactKey(s, key);
      StepKeepsBalance(s.kernel, step, key);
      KernelStepKeepsKey(s, step, key);
    }
    KernelStepKeepsPending(s, step);
    if s.walk.Some? {
      KernelStepKeepsWalk(s, step);
    }
  }

  lemma KernelStepKeepsKey(s: State, step: Step, key: BpfKey)
    requires Shaped(s) && Exact(s) && Enabled(s, step) && IsKernelStep(step) && KeepsEntries(s, step)
    requires Balanced(s.kernel, key) && ExactKey(s, key)
    ensures ExactKey(Next(s, step), key)
  {
    hide ExactWalk, Balanced;
  }

  lemma KernelStepKeepsPending(s: State, step: Step)
    requires Shaped(s) && Exact(s) && Enabled(s, step) && IsKernelStep(step) && KeepsEntries(s, step)
    ensures ExactPending(Next(s, step))
  {
  }

  lemma KernelStepKeepsWalk(s: State, step: Step)
    requires Shaped(s) && Exact(s) && Enabled(s, step) && IsKernelStep(step) && KeepsEntries(s, step)
    requires s.walk.Some?
    ensures ExactWalk(Next(s, step))
  {
    var s' := Next(s, step);
    forall i | 0 <= i < |s'.walk.value.visits| ensures ExactVisit(s', s'.walk.value.visits[i]) {
      assert ExactVisit(s, s.walk.value.visits[i]);
    }
  }

  lemma WalkStepKeepsExact(s: State, step: Step)
    requires Shaped(s) && Exact(s) && Enabled(s, step) && (step.BeginWalk? || step.VisitKey?)
    ensures Exact(Next(s, step))
  {
    var s' := Next(s, step);
    forall key ensures Balanced(s'.kernel, key) && ExactKey(s', key) {
      assert Balanced(s.kernel, key) && ExactKey(s, key);
    }
    if step.VisitKey? {
      var visits := s'.walk.value.visits;
      forall i | 0 <= i < |visits| ensures ExactVisit(s', visits[i]) {
        if i < |visits| - 1 {
          assert ExactVisit(s, visits[i]);
        } else {
          assert ExactKey(s, step.key) && Balanced(s.kernel, step.key);
        }
      }
    } else {
      var w := s'.walk.value;
      assert w.stayed == s.kernel.live.Keys;
      forall key ensures key in s.previous ==> key in w.stayed
        ensures At(w.atBegin, key) > 0 ==> key in w.stayed
      {
        assert Balanced(s.kernel, key) && ExactKey(s, key);
      }
    }
  }

  lemma CommitVisitedIsExact(s: State, end: WalkEnd, i: nat)
    requires Shaped(s) && Exact(s) && s.walk.Some? && i < |s.walk.value.visits|
    requires NoRepeats(s, EndWalk(end)) && Concludes(s, end) && end != Failed
    ensures var s' := Next(s, EndWalk(end));
            var Visit(key, value) := s.walk.value.visits[i];
            At(s'.previous, key) == At(s'.reported, key) == value
  {
    var w := s.walk.value;
    CommittedState(s, end);
    hide Next, FlowCounters.Observed, Credited, MarksOf;
    ObservedOnce(w.visits);
    CreditedOnce(s.reported, s.previous, w.visits);
    assert ExactVisit(s, w.visits[i]) && ExactKey(s, w.visits[i].key);
  }

  lemma CommitMissedIsExact(s: State, end: WalkEnd, key: BpfKey)
    requires Shaped(s) && Exact(s) && s.walk.Some?
    requires forall i :: 0 <= i < |s.walk.value.visits| ==> s.walk.value.visits[i].key != key
    requires NoRepeats(s, EndWalk(end)) && NoOmissions(s, EndWalk(end)) && Concludes(s, end) && end != Failed
    ensures var s' := Next(s, EndWalk(end));
            At(s'.previous, key) == At(s.previous, key) && At(s'.reported, key) == At(s.reported, key)
            && (key in s'.previous ==> key in s.previous)
    ensures end == Completed ==> At(s.walk.value.atBegin, key) == 0
  {
    var w := s.walk.value;
    CommittedState(s, end);
    hide Next, FlowCounters.Observed, Credited, MarksOf;
    ObservedOnce(w.visits);
    CreditedOnce(s.reported, s.previous, w.visits);
    assert key !in Observed(w.visits);
    assert end == Completed ==> key !in w.stayed;
  }

  /** After a decided walk the baseline of each visited key is what was read, and exactly that much has been
      reported; a key the walk missed keeps both. */
  lemma CommitIsExact(s: State, end: WalkEnd, key: BpfKey)
    requires Shaped(s) && Exact(s) && s.walk.Some?
    requires NoRepeats(s, EndWalk(end)) && NoOmissions(s, EndWalk(end))
    requires Concludes(s, end) && end != Failed
    ensures ExactKey(Next(s, EndWalk(end)), key)
    ensures end == Completed ==> At(s.walk.value.atBegin, key) <= At(Next(s, EndWalk(end)).reported, key)
  {
    var w := s.walk.value;
    assert ExactKey(s, key);
    if i :| 0 <= i < |w.visits| && w.visits[i].key == key {
      assert ExactVisit(s, w.visits[i]);
      CommitVisitedIsExact(s, end, i);
    } else {
      CommitMissedIsExact(s, end, key);
    }
  }

  lemma EndWalkKeepsExact(s: State, end: WalkEnd)
    requires Shaped(s) && Exact(s) && s.walk.Some?
    requires NoRepeats(s, EndWalk(end)) && NoOmissions(s, EndWalk(end))
    ensures Exact(Next(s, EndWalk(end)))
  {
    var s' := Next(s, EndWalk(end));
    forall key ensures Balanced(s'.kernel, key) && ExactKey(s', key) {
      assert Balanced(s.kernel, key) && ExactKey(s, key);
      if Concludes(s, end) && end != Failed {
        CommitIsExact(s, end, key);
      } else {
        OnlyDecidedWalksReport(s, EndWalk(end));
      }
    }
  }

  lemma {:induction false} RunKeepsExact(s: State, steps: seq<Step>)
    requires Shaped(s) && Exact(s) && Allowed(s, steps) && WellFormed(s, steps) && Throughout(s, steps, KeepsEntries)
    ensures Exact(Run(s, steps))
    decreases |steps|
  {
    if steps != [] {
      var step := steps[0];
      if step.EndWalk? {
        EndWalkKeepsExact(s, step.end);
      } else if step.BeginWalk? || step.VisitKey? {
        WalkStepKeepsExact(s, step);
      } else {
        KernelStepKeepsExact(s, step);
      }
      RunKeepsExact(Next(s, steps[0]), steps[1..]);
    }
  }

  /** While no entry is lost, what has been reported under a key is exactly its baseline, a value its counter
      has reached, and everything counted is still in the map. */
  lemma ReportedIsBaseline(steps: seq<Step>, key: BpfKey)
    requires Allowed(INIT, steps) && WellFormed(INIT, steps) && Throughout(INIT, steps, KeepsEntries)
    ensures var s := Run(INIT, steps);
            && At(s.reported, key) == At(s.previous, key) <= At(s.kernel.counted, key)
            && At(s.kernel.counted, key) == if key in s.kernel.live then s.kernel.live[key].bytes else 0
  {
    RunKeepsExact(INIT, steps);
    var s := Run(INIT, steps);
    assert Balanced(s.kernel, key) && ExactKey(s, key);
  }

  /** While no entry is lost, a complete walk catches up with everything counted before it began, also for the
      keys that earlier partial walks missed. */
  lemma CompleteWalkCatchesUp(steps: seq<Step>, key: BpfKey)
    requires Allowed(INIT, steps) && WellFormed(INIT, steps) && Throughout(INIT, steps, KeepsEntries)
    requires var s := Run(INIT, steps);
             Shaped(s) && s.walk.Some? && NoRepeats(s, EndWalk(Completed)) && NoOmissions(s, EndWalk(Completed))
    ensures var s := Run(INIT, steps);
            At(s.walk.value.atBegin, key) <= At(Next(s, EndWalk(Completed)).reported, key) <= At(s.kernel.counted, key)
  {
    RunKeepsExact(INIT, steps);
    CommitIsExact(Run(INIT, steps), Completed, key);
  }

  // ----- Both assumptions about the iterator are needed -----

  lemma {:induction false} RunSnoc(s: State, steps: seq<Step>, step: Step, p: (State, Step) -> bool)
    requires Shaped(s) && Allowed(s, steps) && Shaped(Run(s, steps)) && Enabled(Run(s, steps), step)
    ensures Allowed(s, steps + [step]) && Run(s, steps + [step]) == Next(Run(s, steps), step)
    ensures Throughout(s, steps, p) && p(Run(s, steps), step) ==> Throughout(s, steps + [step], p)
    decreases |steps|
  {
    if steps == [] {
      assert [step][1..] == [] && steps + [step] == [step];
    } else {
      RunSnoc(Next(s, steps[0]), steps[1..], step, p);
      assert (steps + [step])[1..] == steps[1..] + [step];
    }
  }

  /** A run that has counted `n` bytes under one key, with its bookkeeping. */
  ghost predicate Holds(steps: seq<Step>, p: (State, Step) -> bool, key: BpfKey, n: nat,
                        previous: Baselines, reported: map<BpfKey, nat>, visits: Option<seq<Visit>>)
  {
    && Allowed(INIT, steps) && Throughout(INIT, steps, p)
    && var s := Run(INIT, steps);
    && Shaped(s) && s.attempts == [] && s.previous == previous && s.reported == reported
    && s.kernel == Kernel(map[key := Cell(0, n)], 1, map[], map[key := n], map[])
    && (visits.None? ==> s.walk.None?)
    && (visits.Some? ==> s.walk.Some? && s.walk.value.visits == visits.value && s.walk.value.stayed == {key})
  }

  ghost predicate OnlyEndsMatter(p: (State, Step) -> bool) {
    forall s: State, step: Step :: !step.EndWalk? ==> p(s, step)
  }

  lemma FirstPacket(p: (State, Step) -> bool, key: BpfKey, n: nat) returns (steps: seq<Step>)
    requires Reportable(key) && OnlyEndsMatter(p)
    ensures Holds(steps, p, key, n, map[], map[], None)
  {
    RunSnoc(INIT, [], Lookup(0, key, n), p);
    RunSnoc(INIT, [Lookup(0, key, n)], Update(0), p);
    steps := [Lookup(0, key, n)] + [Update(0)];
    assert [] + [Lookup(0, key, n)] == [Lookup(0, key, n)];
    var s := Run(INIT, steps);
    assert s.kernel.pending == map[] && s.kernel.dead == map[];
  }

  lemma PacketOnHit(s: State, key: BpfKey, n: nat, m: nat)
    requires Shaped(s) && Reportable(key)
    requires s.kernel == Kernel(map[key := Cell(0, n)], 1, map[], map[key := n], map[])
    ensures var looked := Next(s, Lookup(0, key, m));
            Enabled(looked, Update(0))
            && Next(looked, Update(0)) == s.(kernel := Kernel(map[key := Cell(0, n + m)], 1, map[], map[key := n + m], map[]))
  {
    var looked := Next(s, Lookup(0, key, m));
    assert s.walk.Some? ==> s.walk.value.stayed - {} == s.walk.value.stayed;
    var k := KernelNext(looked.kernel, Update(0));
    assert looked.kernel.pending == map[0 := Hit(key, 0, m)];
    assert k.pending == map[] && k.live == map[key := Cell(0, n + m)] && k.counted == map[key := n + m];
  }

  lemma NextPacket(before: seq<Step>, p: (State, Step) -> bool, key: BpfKey, n: nat, m: nat,
                   previous: Baselines, reported: map<BpfKey, nat>, visits: Option<seq<Visit>>)
    returns (steps: seq<Step>)
    requires Reportable(key) && OnlyEndsMatter(p)
    requires Holds(before, p, key, n, previous, reported, visits)
    ensures Holds(steps, p, key, n + m, previous, reported, visits)
  {
    PacketOnHit(Run(INIT, before), key, n, m);
    RunSnoc(INIT, before, Lookup(0, key, m), p);
    var looked := before + [Lookup(0, key, m)];
    RunSnoc(INIT, looked, Update(0), p);
    steps := looked + [Update(0)];
  }

  lemma Begin(before: seq<Step>, p: (State, Step) -> bool, key: BpfKey, n: nat, previous: Baselines, reported: map<BpfKey, nat>)
    returns (steps: seq<Step>)
    requires OnlyEndsMatter(p)
    requires Holds(before, p, key, n, previous, reported, None)
    ensures Holds(steps, p, key, n, previous, reported, Some([]))
  {
    RunSnoc(INIT, before, BeginWalk, p);
    steps := before + [BeginWalk];
  }

  lemma Read(before: seq<Step>, p: (State, Step) -> bool, key: BpfKey, n: nat,
             previous: Baselines, reported: map<BpfKey, nat>, visits: seq<Visit>)
    returns (steps: seq<Step>)
    requires OnlyEndsMatter(p)
    requires Holds(before, p, key, n, previous, reported, Some(visits))
    ensures Holds(steps, p, key, n, previous, reported, Some(visits + [Visit(key, n)]))
  {
    RunSnoc(INIT, before, VisitKey(key), p);
    steps := before + [VisitKey(key)];
  }

  lemma Complete(before: seq<Step>, p: (State, Step) -> bool, key: BpfKey, n: nat,
                 previous: Baselines, reported: map<BpfKey, nat>, visits: seq<Visit>)
    returns (steps: seq<Step>)
    requires Holds(before, p, key, n, previous, reported, Some(visits))
    requires p(Run(INIT, before), EndWalk(Completed))
    ensures Holds(steps, p, key, n, Observed(visits), Credited(reported, previous, visits), None)
  {
    DecidingIs([Walk(visits, Completed)], 0);
    assert [] + [Walk(visits, Completed)] == [Walk(visits, Completed)];
    RunSnoc(INIT, before, EndWalk(Completed), p);
    steps := before + [EndWalk(Completed)];
  }

  lemma CreditedTwo(key: BpfKey, v: nat, w: nat)
    requires Reportable(key)
    ensures At(Credited(map[], map[], [Visit(key, v), Visit(key, w)]), key) == v + w
    ensures Credited(map[], map[], [Visit(key, v)]) == map[key := v] == Observed([Visit(key, v)])
  {
    assert [Visit(key, v), Visit(key, w)][..1] == [Visit(key, v)];
    assert [Visit(key, v)][..0] == [];
    assert Credited(map[], map[], []) == map[];
    assert Credited(map[], map[], [Visit(key, v)]) == map[key := v];
  }

  lemma OneKeyNotOmitted(steps: seq<Step>, key: BpfKey, n: nat, visits: seq<Visit>)
    requires Holds(steps, NoOmissions, key, n, map[], map[], Some(visits))
    requires visits != [] && visits[0].key == key
    ensures NoOmissions(Run(INIT, steps), EndWalk(Completed))
  {
  }

  lemma FirstVisit(key: BpfKey) returns (steps: seq<Step>)
    requires Reportable(key)
    ensures Holds(steps, NoOmissions, key, 5, map[], map[], Some([Visit(key, 5)]))
  {
    assert OnlyEndsMatter(NoOmissions);
    hide *;
    steps := FirstPacket(NoOmissions, key, 5);
    steps := Begin(steps, NoOmissions, key, 5, map[], map[]);
    steps := Read(steps, NoOmissions, key, 5, map[], map[], []);
    assert [] + [Visit(key, 5)] == [Visit(key, 5)];
  }

  lemma RepeatedVisit(key: BpfKey) returns (steps: seq<Step>)
    requires Reportable(key)
    ensures var visits := [Visit(key, 5), Visit(key, 8)];
            Holds(steps, NoOmissions, key, 8, Observed(visits), Credited(map[], map[], visits), None)
  {
    assert OnlyEndsMatter(NoOmissions);
    hide *;
    steps := FirstVisit(key);
    steps := NextPacket(steps, NoOmissions, key, 5, 3, map[], map[], Some([Visit(key, 5)]));
    steps := Read(steps, NoOmissions, key, 8, map[], map[], [Visit(key, 5)]);
    var visits := [Visit(key, 5), Visit(key, 8)];
    assert [Visit(key, 5)] + [Visit(key, 8)] == visits && visits[0].key == key;
    assert Shaped(Run(INIT, steps)) && Allowed(INIT, steps) by {
      HoldsIsAllowed(steps, NoOmissions, key, 8, map[], map[], Some(visits));
    }
    OneKeyNotOmitted(steps, key, 8, visits);
    steps := Complete(steps, NoOmissions, key, 8, map[], map[], visits);
  }

  lemma HoldsIsAllowed(steps: seq<Step>, p: (State, Step) -> bool, key: BpfKey, n: nat, previous: Baselines,
                       reported: map<BpfKey, nat>, visits: Option<seq<Visit>>)
    requires Holds(steps, p, key, n, previous, reported, visits)
    ensures Shaped(INIT) && Allowed(INIT, steps) && Throughout(INIT, steps, p) && Shaped(Run(INIT, steps))
    ensures At(Run(INIT, steps).kernel.counted, key) == n && Run(INIT, steps).reported == reported
  {
  }

  /** Eight bytes counted, thirteen reported: a completed walk that visits one key twice while it grows. */
  lemma RepeatedVisitOverReports(key: BpfKey) returns (steps: seq<Step>)
    requires Reportable(key)
    ensures Allowed(INIT, steps) && Throughout(INIT, steps, NoOmissions)
    ensures At(Run(INIT, steps).kernel.counted, key) == 8
    ensures At(Run(INIT, steps).reported, key) == 13
  {
    hide Run, Allowed, Throughout, Holds, Credited, Observed, NoOmissions, At;
    var visits := [Visit(key, 5), Visit(key, 8)];
    steps := RepeatedVisit(key);
    HoldsIsAllowed(steps, NoOmissions, key, 8, Observed(visits), Credited(map[], map[], visits), None);
    CreditedTwo(key, 5, 8);
  }

  lemma OmissionDropsBaseline(key: BpfKey) returns (steps: seq<Step>)
    requires Reportable(key)
    ensures Holds(steps, NoRepeats, key, 5, map[], map[key := 5], None)
  {
    var once := [Visit(key, 5)];
    assert [] + once == once;
    CreditedTwo(key, 5, 5);
    steps := FirstPacket(NoRepeats, key, 5);
    steps := Begin(steps, NoRepeats, key, 5, map[], map[]);
    steps := Read(steps, NoRepeats, key, 5, map[], map[], []);
    steps := Complete(steps, NoRepeats, key, 5, map[], map[], once);
    steps := Begin(steps, NoRepeats, key, 5, map[key := 5], map[key := 5]);
    steps := Complete(steps, NoRepeats, key, 5, map[key := 5], map[key := 5], []);
  }

  /** Five bytes counted, ten reported: a completed walk that skips a key still in the map drops its
      baseline, and the next walk reports the whole counter again. */
  lemma OmittedKeyOverReports(key: BpfKey) returns (steps: seq<Step>)
    requires Reportable(key)
    ensures Allowed(INIT, steps) && Throughout(INIT, steps, NoRepeats)
    ensures At(Run(INIT, steps).kernel.counted, key) == 5
    ensures At(Run(INIT, steps).reported, key) == 10
  {
    var once := [Visit(key, 5)];
    var five: map<BpfKey, nat> := map[key := 5];
    steps := OmissionDropsBaseline(key);
    steps := Begin(steps, NoRepeats, key, 5, map[], five);
    steps := Read(steps, NoRepeats, key, 5, map[], five, []);
    assert [] + once == once;
    steps := Complete(steps, NoRepeats, key, 5, map[], five, once);
    CreditedOnce(five, map[], once);
  }

  // ----- Exactly when a lost baseline does harm -----

  /** Some well-formed continuation reports more for the key than is counted under it. */
  ghost predicate CanOverReport(s: State, key: BpfKey)
    requires Shaped(s)
  {
    exists steps :: Allowed(s, steps) && WellFormed(s, steps)
      && At(Run(s, steps).reported, key) > At(Run(s, steps).kernel.counted, key)
  }

  lemma {:induction false} RunAppend(s: State, a: seq<Step>, b: seq<Step>)
    requires Shaped(s) && Allowed(s, a) && WellFormed(s, a)
    requires Allowed(Run(s, a), b) && WellFormed(Run(s, a), b)
    ensures Allowed(s, a + b) && WellFormed(s, a + b) && Run(s, a + b) == Run(Run(s, a), b)
    decreases |a|
  {
    hide Enabled, Next, Shaped, NoRepeats, NoOmissions;
    if a == [] {
      assert a + b == b;
    } else {
      RunAppend(Next(s, a[0]), a[1..], b);
      assert (a + b)[0] == a[0] && (a + b)[1..] == a[1..] + b;
    }
  }

  lemma OneStep(s: State, step: Step)
    requires Shaped(s) && Enabled(s, step) && NoRepeats(s, step) && NoOmissions(s, step)
    ensures Allowed(s, [step]) && WellFormed(s, [step]) && Run(s, [step]) == Next(s, step)
  {
    assert [step][1..] == [];
  }

  lemma TwoSteps(s: State, first: Step, second: Step)
    requires Shaped(s) && Enabled(s, first) && NoRepeats(s, first) && NoOmissions(s, first)
    requires Enabled(Next(s, first), second) && NoRepeats(Next(s, first), second) && NoOmissions(Next(s, first), second)
    ensures Allowed(s, [first, second]) && WellFormed(s, [first, second])
    ensures Run(s, [first, second]) == Next(Next(s, first), second)
  {
    hide Allowed, WellFormed, Run, NoRepeats, NoOmissions, Next, Enabled;
    OneStep(s, first);
    OneStep(Next(s, first), second);
    RunAppend(s, [first], [second]);
    assert [first] + [second] == [first, second];
  }

  /** An aborted attempt that saw nothing. */
  lemma EmptyAttempt(s: State) returns (steps: seq<Step>)
    requires Shaped(s) && s.walk.None? && |s.attempts| < MAX_ATTEMPTS
    ensures Allowed(s, steps) && WellFormed(s, steps)
    ensures Run(s, steps) == s.(attempts := s.attempts + [Walk([], Aborted)])
  {
    TwoSteps(s, BeginWalk, EndWalk(Aborted));
    steps := [BeginWalk, EndWalk(Aborted)];
  }

  /** Attempts can be aborted until the next walk is the last. */
  lemma {:induction false} AttemptsRunOut(s: State) returns (steps: seq<Step>, attempts: seq<Walk>)
    requires Shaped(s) && s.walk.None?
    ensures Allowed(s, steps) && WellFormed(s, steps)
    ensures Run(s, steps) == s.(attempts := attempts) && |attempts| == MAX_ATTEMPTS && Shaped(s.(attempts := attempts))
    decreases MAX_ATTEMPTS - |s.attempts|
  {
    if |s.attempts| == MAX_ATTEMPTS {
      steps, attempts := [], s.attempts;
      assert s.(attempts := attempts) == s;
    } else {
      hide Allowed, WellFormed, Run;
      var first := EmptyAttempt(s);
      var rest;
      rest, attempts := AttemptsRunOut(Run(s, first));
      RunAppend(s, first, rest);
      steps := first + rest;
    }
  }

  /** The last attempt of a poll reads one key and is aborted: the key is credited with its whole counter. */
  lemma PartialWalkReports(s: State, key: BpfKey) returns (steps: seq<Step>)
    requires Shaped(s) && s.walk.None? && |s.attempts| == MAX_ATTEMPTS
    requires key in s.kernel.live && key !in s.previous && Reportable(key)
    ensures Allowed(s, steps) && WellFormed(s, steps)
    ensures Run(s, steps).kernel == s.kernel
    ensures At(Run(s, steps).reported, key) == At(s.reported, key) + s.kernel.live[key].bytes
  {
    var begun := Next(s, BeginWalk);
    var read := Next(begun, VisitKey(key));
    var visits := [Visit(key, s.kernel.live[key].bytes)];
    assert read.walk.value.visits == visits;
    CommittedState(read, Aborted);
    CreditedOnce(s.reported, s.previous, visits);
    assert visits[0].key == key;
    hide Allowed, WellFormed, Run, Credited, FlowCounters.Observed, MarksOf, Decide;
    TwoSteps(s, BeginWalk, VisitKey(key));
    OneStep(read, EndWalk(Aborted));
    RunAppend(s, [BeginWalk, VisitKey(key)], [EndWalk(Aborted)]);
    steps := [BeginWalk, VisitKey(key)] + [EndWalk(Aborted)];
  }

  lemma LostBaselineOverReports(s: State, key: BpfKey)
    requires Shaped(s) && s.walk.None? && Balanced(s.kernel, key)
    requires key in s.kernel.live && key !in s.previous && Reportable(key)
    requires At(s.reported, key) > At(s.kernel.dead, key)
    ensures CanOverReport(s, key)
  {
    hide Allowed, WellFormed, Run, Next;
    var wait, attempts := AttemptsRunOut(s);
    var last := PartialWalkReports(Run(s, wait), key);
    RunAppend(s, wait, last);
    var steps := wait + last;
    assert At(Run(s, steps).reported, key) > At(Run(s, steps).kernel.counted, key);
  }

  /** Between polls, once the baseline of a live key is gone, later well-formed walks can over-report it iff
      more has been reported than the bytes of its dead incarnations: iff the lost baseline still covered
      bytes of the counter that lives. */
  lemma LostBaselineHarmsIff(s: State, key: BpfKey)
    requires Shaped(s) && s.walk.None? && Balanced(s.kernel, key)
    requires key in s.kernel.live && key !in s.previous && Reportable(key)
    ensures CanOverReport(s, key) <==> At(s.reported, key) > At(s.kernel.dead, key)
  {
    hide Allowed, WellFormed, Run, Inv, Balanced;
    InvBetweenWalks(s, key);
    if At(s.reported, key) > At(s.kernel.dead, key) {
      LostBaselineOverReports(s, key);
    } else {
      forall steps | Allowed(s, steps) && WellFormed(s, steps)
        ensures At(Run(s, steps).reported, key) <= At(Run(s, steps).kernel.counted, key)
      {
        RunKeepsInv(s, steps, key);
        InvBounds(Run(s, steps), key);
      }
    }
  }
}
