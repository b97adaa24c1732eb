/** The shared counter map as a transition system: packets counted by the kernel program
    (internal/netmon/bpf/netmon.c, lines 87-94) interleaved with LRU evictions and with the walks of
    `ReadDeltas` (internal/netmon/ebpf_linux.go, lines 80-144).

    A packet is two steps, the lookup and the update it decides, so an entry can disappear, or be created by
    another CPU, between them. Every entry is an incarnation with its own identifier; an addition that
    reaches an incarnation after its eviction is counted but can no longer be read. */
module CounterProtocol {
  import opened NetTypes
  import opened Sums
  import opened FlowCounters

  datatype Cell = Cell(id: nat, bytes: nat)

  datatype Pending =
    | Hit(key: BpfKey, id: nat, len: nat)
    | Miss(key: BpfKey, len: nat)

  /** `counted` and `dead` are history: all bytes ever counted under a key, and those held by incarnations
      that are gone. */
  datatype Kernel = Kernel(
    live: map<BpfKey, Cell>,
    nextId: nat,
    pending: map<nat, Pending>,
    counted: map<BpfKey, nat>,
    dead: map<BpfKey, nat>)

  /** History attached to a value read from the map: the incarnation it was read from, and the bytes that
      were already dead under its key at that moment. */
  datatype Mark = Mark(id: nat, dead: nat)

  /** `stayed` holds the keys whose incarnation has been in the map since the walk began; `atBegin` is what
      had been counted when it began. */
  datatype OpenWalk = OpenWalk(
    visits: seq<Visit>,
    marks: seq<Mark>,
    stayed: set<BpfKey>,
    atBegin: map<BpfKey, nat>)

  /** `attempts` are the aborted walks of the poll in progress. `emitted` is every flow ever returned;
      `reported` is the same by raw key. */
  datatype State = State(
    kernel: Kernel,
    previous: Baselines,
    marks: map<BpfKey, Mark>,
    attempts: seq<Walk>,
    walk: Option<OpenWalk>,
    reported: map<BpfKey, nat>,
    emitted: seq<CgroupFlow>)

  datatype Step =
    | Lookup(cpu: nat, key: BpfKey, len: nat)
    | Update(cpu: nat)
    | Refuse(cpu: nat)
    | Evict(key: BpfKey)
    | BeginWalk
    | VisitKey(key: BpfKey)
    | EndWalk(end: WalkEnd)

  const INIT := State(Kernel(map[], 0, map[], map[], map[]), map[], map[], [], None, map[], [])

  // ----- Steps -----

  predicate Enabled(s: State, step: Step) {
    match step
    case Lookup(cpu, key, _) => cpu !in s.kernel.pending && Reportable(key)
    case Update(cpu) => cpu in s.kernel.pending
    case Refuse(cpu) => cpu in s.kernel.pending && s.kernel.pending[cpu].Miss?
    case Evict(key) => key in s.kernel.live
    case BeginWalk => s.walk.None?
    case VisitKey(key) => s.walk.Some? && key in s.kernel.live
    case EndWalk(_) => s.walk.Some?
  }

  function Plus(m: map<BpfKey, nat>, key: BpfKey, n: nat): map<BpfKey, nat> {
    m[key := At(m, key) + n]
  }

  /** The addition after a hit, or the `BPF_ANY` insert after a miss, which replaces whatever another CPU
      may have inserted meanwhile. */
  function Updated(k: Kernel, cpu: nat): Kernel
    requires cpu in k.pending
  {
    var rest := k.(pending := k.pending - {cpu});
    match k.pending[cpu]
    case Hit(key, id, len) =>
      var done := rest.(counted := Plus(k.counted, key, len));
      if key in k.live && k.live[key].id == id
      then done.(live := k.live[key := Cell(id, k.live[key].bytes + len)])
      else done.(dead := Plus(k.dead, key, len))
    case Miss(key, len) =>
      rest.(
        counted := Plus(k.counted, key, len),
        live := k.live[key := Cell(k.nextId, len)],
        nextId := k.nextId + 1,
        dead := if key in k.live then Plus(k.dead, key, k.live[key].bytes) else k.dead)
  }

  function KernelNext(k: Kernel, step: Step): Kernel
    requires step.Update? || step.Refuse? ==> step.cpu in k.pending
    requires step.Evict? ==> step.key in k.live
  {
    match step
    case Lookup(cpu, key, len) =>
      k.(pending := k.pending[cpu := if key in k.live then Hit(key, k.live[key].id, len) else Miss(key, len)])
    case Update(cpu) => Updated(k, cpu)
    case Refuse(cpu) => k.(pending := k.pending - {cpu})
    case Evict(key) => k.(live := k.live - {key}, dead := Plus(k.dead, key, k.live[key].bytes))
    case _ => k
  }

  /** The key whose incarnation a step removes from the map, by eviction or by overwriting it. */
  function Removed(k: Kernel, step: Step): set<BpfKey> {
    match step
    case Evict(key) => {key}
    case Update(cpu) => if cpu in k.pending && k.pending[cpu].Miss? then {k.pending[cpu].key} else {}
    case _ => {}
  }

  predicate Concludes(s: State, end: WalkEnd) {
    end != Aborted || |s.attempts| == MAX_ATTEMPTS
  }

  function MarksOf(visits: seq<Visit>, marks: seq<Mark>): map<BpfKey, Mark>
    requires |visits| == |marks|
  {
    if visits == [] then map[]
    else
      var n := |visits| - 1;
      MarksOf(visits[..n], marks[..n])[visits[n].key := marks[n]]
  }

  /** The end of a walk: an aborted attempt is retried while attempts are left; otherwise the collector does
      what `ReadDeltas` does with the attempts made. */
  function Ended(s: State, end: WalkEnd): State
    requires Shaped(s) && s.walk.Some?
  {
    var w := s.walk.value;
    var attempts := s.attempts + [Walk(w.visits, end)];
    if !Concludes(s, end) then s.(walk := None, attempts := attempts)
    else
      var outcome := Decide(s.previous, attempts[Deciding(attempts)]);
      var marks := MarksOf(w.visits, w.marks);
      s.(
        walk := None,
        attempts := [],
        previous := outcome.previous,
        marks := if end == Completed then marks else if end == Aborted then s.marks + marks else s.marks,
        reported := if end == Failed then s.reported else Credited(s.reported, s.previous, w.visits),
        emitted := s.emitted + outcome.flows)
  }

  predicate Shaped(s: State) {
    && |s.attempts| <= MAX_ATTEMPTS
    && (forall i :: 0 <= i < |s.attempts| ==> s.attempts[i].end == Aborted)
    && (s.walk.Some? ==> |s.walk.value.marks| == |s.walk.value.visits|)
  }

  function Next(s: State, step: Step): (s': State)
    requires Shaped(s) && Enabled(s, step)
    ensures Shaped(s')
  {
    match step
    case BeginWalk => s.(walk := Some(OpenWalk([], [], s.kernel.live.Keys, s.kernel.counted)))
    case VisitKey(key) =>
      var w := s.walk.value;
      var cell := s.kernel.live[key];
      s.(walk := Some(w.(
        visits := w.visits + [Visit(key, cell.bytes)],
        marks := w.marks + [Mark(cell.id, At(s.kernel.dead, key))])))
    case EndWalk(end) => Ended(s, end)
    case _ =>
      var gone := Removed(s.kernel, step);
      s.(
        kernel := KernelNext(s.kernel, step),
        walk := if s.walk.Some? then Some(s.walk.value.(stayed := s.walk.value.stayed - gone)) else None)
  }

  // ----- The two assumptions about the map iterator -----

  /** The code emits one flow per visit, so a walk it acts on must not visit a key twice. */
  predicate NoRepeats(s: State, step: Step) {
    step.EndWalk? && s.walk.Some? && step.end != Failed && Concludes(s, step.end) ==> DistinctKeys(s.walk.value.visits)
  }

  /** A completed walk replaces every baseline, so it must visit each entry that stayed in the map. */
  predicate NoOmissions(s: State, step: Step) {
    step == EndWalk(Completed) && s.walk.Some? ==>
      forall k :: k in s.walk.value.stayed ==> exists i :: 0 <= i < |s.walk.value.visits| && s.walk.value.visits[i].key == k
  }

  // ----- Runs -----

  ghost predicate Allowed(s: State, steps: seq<Step>)
    requires Shaped(s)
    decreases |steps|
  {
    steps == [] || (Enabled(s, steps[0]) && Allowed(Next(s, steps[0]), steps[1..]))
  }

  ghost predicate Throughout(s: State, steps: seq<Step>, p: (State, Step) -> bool)
    requires Shaped(s) && Allowed(s, steps)
    decreases |steps|
  {
    steps == [] || (p(s, steps[0]) && Throughout(Next(s, steps[0]), steps[1..], p))
  }

  ghost predicate WellFormed(s: State, steps: seq<Step>)
    requires Shaped(s) && Allowed(s, steps)
  {
    Throughout(s, steps, NoRepeats) && Throughout(s, steps, NoOmissions)
  }

  function Run(s: State, steps: seq<Step>): (r: State)
    requires Shaped(s) && Allowed(s, steps)
    ensures Shaped(r)
    decreases |steps|
  {
    if steps == [] then s else Run(Next(s, steps[0]), steps[1..])
  }

  // ----- The invariant -----

  /** Every byte counted under a key is in its live entry or dead. */
  ghost predicate Balanced(k: Kernel, key: BpfKey) {
    && At(k.counted, key) == At(k.dead, key) + (if key in k.live then k.live[key].bytes else 0)
    && (key in k.live ==> k.live[key].id < k.nextId)
  }

  /** A value read from incarnation `m.id` of `key` is still covered by that incarnation while it lives, and
      by the dead bytes once it is gone. */
  ghost predicate Covered(k: Kernel, key: BpfKey, m: Mark, value: nat) {
    && m.id < k.nextId
    && if key in k.live && k.live[key].id == m.id
       then m.dead <= At(k.dead, key) && value <= k.live[key].bytes
       else m.dead + value <= At(k.dead, key)
  }

  ghost predicate BaselineInv(s: State, key: BpfKey) {
    if key in s.previous
    then key in s.marks
      && Covered(s.kernel, key, s.marks[key], s.previous[key])
      && At(s.reported, key) <= s.marks[key].dead + s.previous[key]
    else At(s.reported, key) <= At(s.kernel.dead, key)
  }

  ghost predicate VisitInv(s: State, visit: Visit, m: Mark) {
    && Covered(s.kernel, visit.key, m, visit.value)
    && At(s.reported, visit.key) + Delta(At(s.previous, visit.key), visit.value) <= m.dead + visit.value
  }

  ghost predicate WalkInv(s: State, key: BpfKey)
    requires s.walk.Some?
  {
    var w := s.walk.value;
    && |w.marks| == |w.visits|
    && (forall i :: 0 <= i < |w.visits| && w.visits[i].key == key ==> VisitInv(s, w.visits[i], w.marks[i]))
    && (key in s.previous && key in s.marks && key in s.kernel.live && s.kernel.live[key].id == s.marks[key].id
        ==> key in w.stayed)
  }

  /** Each key has its own invariant, which no other key can break. */
  ghost predicate Inv(s: State, key: BpfKey) {
    Balanced(s.kernel, key) && BaselineInv(s, key) && (s.walk.Some? ==> WalkInv(s, key))
  }

  lemma StepKeepsBalance(k: Kernel, step: Step, key: BpfKey)
    requires step.Update? || step.Refuse? ==> step.cpu in k.pending
    requires step.Evict? ==> step.key in k.live
    requires Balanced(k, key)
    ensures Balanced(KernelNext(k, step), key)
    ensures At(k.dead, key) <= At(KernelNext(k, step).dead, key)
  {
  }

  /** Whatever the kernel does next, a value once read stays covered: counters of one incarnation only grow,
      and the bytes of a removed incarnation are all dead. */
  lemma CoveredIsStable(k: Kernel, step: Step, key: BpfKey, m: Mark, value: nat)
    requires step.Update? || step.Refuse? ==> step.cpu in k.pending
    requires step.Evict? ==> step.key in k.live
    requires Covered(k, key, m, value)
    ensures Covered(KernelNext(k, step), key, m, value)
  {
  }

  predicate IsKernelStep(step: Step) {
    step.Lookup? || step.Update? || step.Refuse? || step.Evict?
  }

  lemma KernelStepKeepsInv(s: State, step: Step, key: BpfKey)
    requires Shaped(s) && Inv(s, key) && Enabled(s, step) && IsKernelStep(step)
    ensures Inv(Next(s, step), key)
  {
    var s' := Next(s, step);
    assert s'.kernel == KernelNext(s.kernel, step);
    StepKeepsBalance(s.kernel, step, key);
    if key in s.previous {
      CoveredIsStable(s.kernel, step, key, s.marks[key], s.previous[key]);
    }
    if s.walk.Some? {
      KernelStepKeepsWalk(s, step, key);
    }
  }

  lemma KernelStepKeepsWalk(s: State, step: Step, key: BpfKey)
    requires Shaped(s) && Inv(s, key) && Enabled(s, step) && IsKernelStep(step) && s.walk.Some?
    ensures WalkInv(Next(s, step), key)
  {
    var s', w := Next(s, step), s.walk.value;
    forall i | 0 <= i < |w.visits| && w.visits[i].key == key ensures VisitInv(s', w.visits[i], w.marks[i]) {
      assert VisitInv(s, w.visits[i], w.marks[i]);
      CoveredIsStable(s.kernel, step, key, w.marks[i], w.visits[i].value);
    }
  }

  lemma BeginWalkKeepsInv(s: State, key: BpfKey)
    requires Shaped(s) && Inv(s, key) && Enabled(s, BeginWalk)
    ensures Inv(Next(s, BeginWalk), key)
  {
  }

  /** Reading a key: whichever incarnation the baseline came from, the delta fits under what is counted. */
  lemma VisitKeepsInv(s: State, visited: BpfKey, key: BpfKey)
    requires Shaped(s) && Inv(s, key) && Enabled(s, VisitKey(visited))
    ensures Inv(Next(s, VisitKey(visited)), key)
  {
    var s' := Next(s, VisitKey(visited));
    var w, w' := s.walk.value, s'.walk.value;
    forall i | 0 <= i < |w'.visits| && w'.visits[i].key == key ensures VisitInv(s', w'.visits[i], w'.marks[i]) {
      assert i < |w.visits| ==> VisitInv(s, w.visits[i], w.marks[i]);
    }
  }

  lemma {:induction false} MarksOfOnce(visits: seq<Visit>, marks: seq<Mark>)
    requires |visits| == |marks| && DistinctKeys(visits)
    ensures MarksOf(visits, marks).Keys == Observed(visits).Keys
    ensures forall i :: 0 <= i < |visits| ==> visits[i].key in MarksOf(visits, marks) && MarksOf(visits, marks)[visits[i].key] == marks[i]
  {
    if visits != [] {
      var n := |visits| - 1;
      MarksOfOnce(visits[..n], marks[..n]);
      assert forall i :: 0 <= i < n ==> visits[..n][i] == visits[i] && marks[..n][i] == marks[i];
    }
  }

  /** What the end of a poll that returns data leaves behind. */
  lemma CommittedState(s: State, end: WalkEnd)
    requires Shaped(s) && s.walk.Some? && Concludes(s, end) && end != Failed
    ensures var w, s' := s.walk.value, Next(s, EndWalk(end));
            && s'.kernel == s.kernel && s'.reported == Credited(s.reported, s.previous, w.visits)
            && s'.previous == (if end == Completed then Observed(w.visits) else s.previous + Observed(w.visits))
            && s'.marks == if end == Completed then MarksOf(w.visits, w.marks) else s.marks + MarksOf(w.visits, w.marks)
  {
    hide Observed, Credited, MarksOf;
    DecidingIs(s.attempts + [Walk(s.walk.value.visits, end)], |s.attempts|);
  }

  lemma VisitedBaseline(s: State, end: WalkEnd, i: nat)
    requires Shaped(s) && s.walk.Some? && i < |s.walk.value.visits| && WalkInv(s, s.walk.value.visits[i].key)
    requires NoRepeats(s, EndWalk(end)) && Concludes(s, end) && end != Failed
    ensures BaselineInv(Next(s, EndWalk(end)), s.walk.value.visits[i].key)
  {
    var w := s.walk.value;
    CommittedState(s, end);
    hide Next, Ended, Observed, Credited, MarksOf;
    ObservedOnce(w.visits);
    CreditedOnce(s.reported, s.previous, w.visits);
    MarksOfOnce(w.visits, w.marks);
    assert VisitInv(s, w.visits[i], w.marks[i]);
  }

  lemma MissedBaseline(s: State, end: WalkEnd, key: BpfKey)
    requires Shaped(s) && s.walk.Some? && WalkInv(s, key) && BaselineInv(s, key)
    requires forall i :: 0 <= i < |s.walk.value.visits| ==> s.walk.value.visits[i].key != key
    requires NoRepeats(s, EndWalk(end)) && NoOmissions(s, EndWalk(end)) && Concludes(s, end) && end != Failed
    ensures BaselineInv(Next(s, EndWalk(end)), key)
  {
    var w := s.walk.value;
    CommittedState(s, end);
    hide Next, Ended, Observed, Credited, MarksOf, VisitInv;
    ObservedOnce(w.visits);
    CreditedOnce(s.reported, s.previous, w.visits);
    MarksOfOnce(w.visits, w.marks);
    assert key !in Observed(w.visits);
    assert key !in w.stayed || end != Completed;
  }

  /** The baseline of one key across the end of a walk. */
  lemma CommitKeepsBaseline(s: State, end: WalkEnd, key: BpfKey)
    requires Shaped(s) && Inv(s, key) && Enabled(s, EndWalk(end))
    requires NoRepeats(s, EndWalk(end)) && NoOmissions(s, EndWalk(end))
    requires Concludes(s, end) && end != Failed
    ensures BaselineInv(Next(s, EndWalk(end)), key)
  {
    assert WalkInv(s, key) && BaselineInv(s, key);
    hide WalkInv, BaselineInv, NoRepeats, NoOmissions, Next;
    if i :| 0 <= i < |s.walk.value.visits| && s.walk.value.visits[i].key == key {
      VisitedBaseline(s, end, i);
    } else {
      MissedBaseline(s, end, key);
    }
  }

  lemma EndWalkKeepsInv(s: State, end: WalkEnd, key: BpfKey)
    requires Shaped(s) && Inv(s, key) && Enabled(s, EndWalk(end))
    requires NoRepeats(s, EndWalk(end)) && NoOmissions(s, EndWalk(end))
    ensures Inv(Next(s, EndWalk(end)), key)
  {
    hide Credited, MarksOf, Observed, Flows;
    if Concludes(s, end) {
      DecidingIs(s.attempts + [Walk(s.walk.value.visits, end)], |s.attempts|);
    }
    if Concludes(s, end) && end != Failed {
      CommitKeepsBaseline(s, end, key);
    }
  }

  /** Every step keeps the invariant of every key; the two assumptions bear on the ends of walks only. */
  lemma StepKeepsInv(s: State, step: Step, key: BpfKey)
    requires Shaped(s) && Inv(s, key) && Enabled(s, step)
    requires NoRepeats(s, step) && NoOmissions(s, step)
    ensures Inv(Next(s, step), key)
  {
    hide Inv, Next;
    match step
    case BeginWalk => BeginWalkKeepsInv(s, key);
    case VisitKey(visited) => VisitKeepsInv(s, visited, key);
    case EndWalk(end) => EndWalkKeepsInv(s, end, key);
    case _ => KernelStepKeepsInv(s, step, key);
  }

  lemma {:induction false} RunKeepsInv(s: State, steps: seq<Step>, key: BpfKey)
    requires Shaped(s) && Inv(s, key) && Allowed(s, steps) && WellFormed(s, steps)
    ensures Inv(Run(s, steps), key)
    decreases |steps|
  {
    hide Inv, Next, NoRepeats, NoOmissions;
    if steps != [] {
      StepKeepsInv(s, steps[0], key);
      RunKeepsInv(Next(s, steps[0]), steps[1..], key);
    }
  }

  /** What the invariant says between walks. */
  lemma InvBetweenWalks(s: State, key: BpfKey)
    requires s.walk.None? && Balanced(s.kernel, key) && key !in s.previous
    ensures Inv(s, key) <==> At(s.reported, key) <= At(s.kernel.dead, key)
  {
  }

  lemma InvBounds(s: State, key: BpfKey)
    requires Inv(s, key)
    ensures At(s.reported, key) <= At(s.kernel.counted, key)
  {
  }

  /** Safety over every run: no key is ever reported for more bytes than were counted under it, through
      lost updates, evictions, recreated counters, retried, partial and failed walks. */
  lemma NeverOverReports(steps: seq<Step>, key: BpfKey)
    requires Allowed(INIT, steps) && WellFormed(INIT, steps)
    ensures At(Run(INIT, steps).reported, key) <= At(Run(INIT, steps).kernel.counted, key)
  {
    assert Inv(INIT, key);
    RunKeepsInv(INIT, steps, key);
    InvBounds(Run(INIT, steps), key);
  }
}
