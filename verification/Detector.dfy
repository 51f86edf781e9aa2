/** The loop detector: an exact existence proof per candidate selector, a bounded witness search,
    an independent validation of every witness, and the outcome they add up to.

    Everything an assessment says is tied here to the question and the limits it was asked under: the search is
    described by what it would find without bounds, and each bound by where that search runs into it. */
module Detector {
  import opened Lists
  import opened Masks
  import opened Probe
  import opened SimpleCycles
  import opened Topology
  import opened Evidence
  import opened Ledger
  import opened Witness
  import opened HopViews
  import opened WitnessSearch
  import opened Completeness
  import opened Existence
  import opened LoopKinds
  import opened WitnessOrder

  const MASK_BYTES_CEILING: nat := 256 * 1024 * 1024
  const VALIDATION_BUDGET: nat := 4_000_000

  predicate Sane(limits: Limits) {
    && 0 < limits.maxWitnessHops <= 256 && limits.maxWitnesses > 0 && limits.maxCyclesEnumerated > 0
    && limits.maxSearchSteps > 0 && limits.maxCandidateSelectors > 0
  }

  /** A scope lists declared selectors in strict order; an empty one asks about every selector. */
  predicate ScopeFits(t: TopologyDefinition, scope: seq<nat>) {
    StrictlyIncreasing(scope) && forall s :: s in scope ==> s in t.selectors
  }

  // ----- What is searched, as a function of the question -----

  /** A question over a canonical definition, with the hop table a ledger answers it by. */
  ghost predicate IsPosed(q: Question) {
    && IsCanonical(q.t) && IsTableOf(q.t, q.table)
    && forall e {:trigger OpenEntryFits(q, e)} :: 0 <= e < |q.t.edges| ==> OpenEntryFits(q, e)
  }

  lemma AskedIsPosed(t: TopologyDefinition, store: Store, byEdge: ByEdge, fence: FenceVector, now: nat)
    requires IsCanonical(t)
    ensures IsPosed(Asked(t, store, byEdge, fence, now))
  {
    forall e | 0 <= e < |t.edges|
      ensures OpenEntryFits(Asked(t, store, byEdge, fence, now), e)
    {
      ResolvedEntriesFit(t, store, byEdge, fence, now, e);
    }
  }

  ghost function CandidatesIn(q: Question, scope: seq<nat>): seq<nat> {
    Restricted(Collected(q.t, q.table, |q.table|), scope)
  }

  lemma CandidatesHold(q: Question, scope: seq<nat>)
    requires IsPosed(q)
    ensures StrictlyIncreasing(CandidatesIn(q, scope))
    ensures EdgeIdsDistinct(q.t.edges) ==> AreCandidates(q.t, q.table, scope, CandidatesIn(q, scope))
  {
    CollectedAscends(q.t, q.table, |q.table|);
    RestrictedMeans(Collected(q.t, q.table, |q.table|), scope);
    if EdgeIdsDistinct(q.t.edges) {
      CollectedIsOffered(q.t, q.table, |q.table|);
    }
  }

  ghost function NamingOf(q: Question, scope: seq<nat>): Naming {
    Naming(q.t, CandidatesIn(q, scope), q.current)
  }

  ghost function SettingOf(q: Question, scope: seq<nat>, limits: Limits): Setting
    requires IsPosed(q)
  {
    var nodes := |q.t.resources|;
    Setting(ViewsOf(q.t, q.table, CandidatesIn(q, scope)), nodes, |CandidatesIn(q, scope)|,
            if limits.maxWitnessHops < nodes then limits.maxWitnessHops else nodes)
  }

  lemma SettingFits(q: Question, scope: seq<nat>, limits: Limits)
    requires IsPosed(q) && limits.maxWitnessHops > 0 && q.t.resources != []
    ensures Describes(q, NamingOf(q, scope), SettingOf(q, scope, limits))
    ensures EndpointsInRange(SettingOf(q, scope, limits).hops, |q.t.resources|)
  {
    var g := SettingOf(q, scope, limits);
    CandidatesHold(q, scope);
    ViewsOfAreViews(q.t, q.table, CandidatesIn(q, scope));
    forall i | 0 <= i < |g.hops| && g.hops[i].traversable
      ensures g.hops[i].fromNode < g.nodeCount && g.hops[i].toNode < g.nodeCount
      ensures |g.hops[i].mask| == WordsFor(g.candidateCount)
    {
      assert IsViewOf(q.t, q.table, CandidatesIn(q, scope), i, g.hops[i]);
    }
  }

  /** The search, had it no bounds but the one on length. */
  ghost function WholeSearch(q: Question, scope: seq<nat>, limits: Limits): (total: Report)
    requires IsPosed(q)
    ensures IsTimed(total)
  {
    var g := SettingOf(q, scope, limits);
    ExploreAllIsTimed(g.hops, g.Full(), g.maxDepth, g.nodeCount);
    ExploreAll(g.hops, g.Full(), g.maxDepth, g.nodeCount)
  }

  // ----- Which bounds the question runs into -----

  ghost predicate TooManySelectors(q: Question, scope: seq<nat>, limits: Limits) {
    |CandidatesIn(q, scope)| > limits.maxCandidateSelectors
  }

  ghost predicate TooMuchMemory(q: Question, scope: seq<nat>) {
    |q.t.edges| * WordsFor(|CandidatesIn(q, scope)|) * 8 > MASK_BYTES_CEILING
  }

  ghost predicate ProofTooLong(q: Question, scope: seq<nat>, limits: Limits) {
    |CandidatesIn(q, scope)| * |q.t.edges| > limits.maxSearchSteps
  }

  /** The existence proof is not carried through. */
  ghost predicate GivesUp(q: Question, scope: seq<nat>, limits: Limits) {
    TooManySelectors(q, scope, limits) || TooMuchMemory(q, scope) || ProofTooLong(q, scope, limits)
  }

  /** The existence proof finds a proven cycle, so witnesses are searched for. */
  ghost predicate IsSearched(q: Question, scope: seq<nat>, limits: Limits) {
    !GivesUp(q, scope, limits) && SomeCycleAmong(q.t, q.table, CandidatesIn(q, scope), Proven)
  }

  /** The cycles the bounded search emits are the first ones of the search without bounds. */
  ghost function EmittedCycles(q: Question, scope: seq<nat>, limits: Limits): seq<Cycle>
    requires IsPosed(q) && limits.maxWitnesses > 0
  {
    WholeSearch(q, scope, limits).cycles[..Emitted(limits, WholeSearch(q, scope, limits))]
  }

  // ----- The assessment -----

  /** Which bounds an assessment ran into. */
  datatype BoundsHit = BoundsHit(
    candidates: bool, maskMemory: bool, existenceSteps: bool, enumerationSteps: bool, cycles: bool, length: bool,
    dropped: nat, rejected: nat)

  const NO_BOUNDS: BoundsHit := BoundsHit(false, false, false, false, false, false, 0, 0)

  datatype LoopAssessment = LoopAssessment(
    outcome: LoopOutcome, witnesses: seq<LoopWitness>, bounds: BoundsHit,
    searchLimitReached: bool, additionalCyclesPossible: bool)

  function Early(outcome: LoopOutcome, bounds: BoundsHit): LoopAssessment {
    LoopAssessment(outcome, [], bounds, outcome == Indeterminate, false)
  }

  /** Each bound is reported exactly where the question runs into it. */
  ghost predicate BoundsFit(q: Question, scope: seq<nat>, limits: Limits, b: BoundsHit)
    requires IsPosed(q) && limits.maxWitnesses > 0
  {
    var total, searched := WholeSearch(q, scope, limits), IsSearched(q, scope, limits);
    && (b.candidates <==> TooManySelectors(q, scope, limits))
    && (b.maskMemory <==> !b.candidates && TooMuchMemory(q, scope))
    && (b.existenceSteps <==> !b.candidates && !b.maskMemory && ProofTooLong(q, scope, limits))
    && (b.cycles <==> searched && StopsAtCycle(limits, total))
    && (b.enumerationSteps <==> searched && !b.cycles && total.steps > limits.maxSearchSteps)
    && (b.length <==> searched && CutSeen(limits, total))
  }

  /** `w` is what the detector makes of the cycle `c`: its resources and hops by name, the candidates all of its hops
      carry, and the evidence about those hops. */
  ghost predicate Shows(q: Question, scope: seq<nat>, limits: Limits, c: Cycle, w: LoopWitness)
    requires IsPosed(q)
  {
    && IsWitnessOf(NamingOf(q, scope), SettingOf(q, scope, limits), c, w.(evidence := {}))
    && w.evidence == Contributing(q.store, w.hops)
  }

  ghost predicate IsShown(q: Question, scope: seq<nat>, limits: Limits, c: Cycle, ws: seq<LoopWitness>)
    requires IsPosed(q)
  {
    exists w :: w in ws && Shows(q, scope, limits, c, w)
  }

  ghost predicate AllUsable(t: TopologyDefinition, cycles: seq<Cycle>) {
    forall c {:trigger c in cycles} :: c in cycles ==> CycleIsUsable(t, c)
  }

  ghost predicate NoneUsable(t: TopologyDefinition, cycles: seq<Cycle>) {
    forall c {:trigger c in cycles} :: c in cycles ==> !CycleIsUsable(t, c)
  }

  /** What validating the witnesses of the cycles costs, where every hop costs `each`. */
  ghost function CycleCost(cycles: seq<Cycle>, each: nat): nat {
    if cycles == [] then 0 else CycleCost(cycles[..|cycles| - 1], each) + |cycles[|cycles| - 1]| * each
  }

  ghost predicate WithinBudget(t: TopologyDefinition, cycles: seq<Cycle>) {
    |cycles| <= 1 || CycleCost(cycles, |t.edges| + 1) <= VALIDATION_BUDGET
  }

  /** Some cycle emitted is a loop to the validator. */
  ghost predicate EmitsLoop(q: Question, scope: seq<nat>, limits: Limits)
    requires IsPosed(q) && limits.maxWitnesses > 0
  {
    exists c, w ::
      c in EmittedCycles(q, scope, limits) && Shows(q, scope, limits, c, w) && IsLoop(q, w, limits.maxWitnessHops)
  }

  /** What shows a cycle emitted and is a loop is among the witnesses. */
  ghost predicate KeepsLoops(q: Question, scope: seq<nat>, limits: Limits, ws: seq<LoopWitness>)
    requires IsPosed(q) && limits.maxWitnesses > 0
  {
    forall c, w ::
      c in EmittedCycles(q, scope, limits) && Shows(q, scope, limits, c, w) && IsLoop(q, w, limits.maxWitnessHops) ==>
      w in ws
  }

  /** What validation makes of the cycles emitted. With distinct edge identities, a witness is accepted exactly when the
      links of its cycle are up and its resources enabled. */
  ghost predicate WitnessesFit(q: Question, scope: seq<nat>, limits: Limits, a: LoopAssessment)
    requires IsPosed(q) && limits.maxWitnesses > 0
  {
    var emitted := EmittedCycles(q, scope, limits);
    && AllLoops(q, a.witnesses, limits.maxWitnessHops) && NoRepeats(a.witnesses)
    && (forall w {:trigger w in a.witnesses} :: w in a.witnesses ==>
        exists c :: c in emitted && Shows(q, scope, limits, c, w))
    && (a.witnesses == [] <==> !EmitsLoop(q, scope, limits))
    && (a.bounds.dropped == 0 ==> KeepsLoops(q, scope, limits, a.witnesses))
    && (EdgeIdsDistinct(q.t.edges) ==>
          && |a.witnesses| + a.bounds.dropped + a.bounds.rejected == |emitted|
          && (a.witnesses == [] <==> NoneUsable(q.t, emitted))
          && (AllUsable(q.t, emitted) ==> a.bounds.rejected == 0)
          && (a.bounds.dropped == 0 ==> forall c :: c in emitted ==>
              (CycleIsUsable(q.t, c) <==> IsShown(q, scope, limits, c, a.witnesses)))
          && (WithinBudget(q.t, emitted) ==> a.bounds.dropped == 0)
          && (AllUsable(q.t, emitted) ==> (a.bounds.dropped == 0 <==> WithinBudget(q.t, emitted))))
  }

  /** What an assessment comes to. */
  ghost predicate AssessmentHolds(q: Question, scope: seq<nat>, limits: Limits, a: LoopAssessment)
    requires IsPosed(q) && limits.maxWitnesses > 0
  {
    && BoundsFit(q, scope, limits, a.bounds)
    && (a.searchLimitReached <==> a.outcome == Indeterminate || a.bounds.cycles || a.bounds.length)
    && (a.additionalCyclesPossible <==> a.witnesses != [] && (a.bounds.cycles || a.bounds.length))
    && if IsSearched(q, scope, limits) then
         a.outcome == (if a.witnesses != [] then LoopConfirmed else Indeterminate) && WitnessesFit(q, scope, limits, a)
       else
         && a.witnesses == [] && a.bounds.dropped == a.bounds.rejected == 0
         && a.outcome == if GivesUp(q, scope, limits) then Indeterminate
            else TruthAmong(q.t, q.table, CandidatesIn(q, scope))
  }

  // ----- What the search emits -----

  ghost predicate AllLoops(q: Question, ws: seq<LoopWitness>, maxHops: nat) {
    forall w {:trigger w in ws} :: w in ws ==> IsLoop(q, w, maxHops)
  }

  /** The search ended with the witnesses of the cycles emitted. */
  ghost predicate AreEmitted(q: Question, scope: seq<nat>, limits: Limits, ws: seq<LoopWitness>)
    requires IsPosed(q) && limits.maxWitnesses > 0
  {
    AreWitnessesOf(NamingOf(q, scope), SettingOf(q, scope, limits), EmittedCycles(q, scope, limits), ws)
  }

  /** Every cycle found has room in the length bound and a candidate in common. */
  lemma CyclesFound(q: Question, scope: seq<nat>, limits: Limits)
    requires IsPosed(q) && limits.maxWitnessHops > 0 && q.t.resources != []
    ensures var g := SettingOf(q, scope, limits);
            && Distinct(WholeSearch(q, scope, limits).cycles)
            && forall c :: c in WholeSearch(q, scope, limits).cycles <==>
               FoundFrom(g.hops, g.Full(), g.maxDepth, g.nodeCount, c)
  {
    var g := SettingOf(q, scope, limits);
    ExploreAllIsExact(g.hops, g.Full(), g.maxDepth, g.nodeCount);
  }

  /** The validator's view of what the search makes of a cycle. */
  lemma ShownIsLoop(q: Question, scope: seq<nat>, limits: Limits, c: Cycle, w: LoopWitness)
    requires IsPosed(q) && EdgeIdsDistinct(q.t.edges) && limits.maxWitnessHops > 0 && q.t.resources != []
    requires c in WholeSearch(q, scope, limits).cycles && Shows(q, scope, limits, c, w)
    ensures IsLoop(q, w, limits.maxWitnessHops) <==> CycleIsUsable(q.t, c)
  {
    var nm, g := NamingOf(q, scope), SettingOf(q, scope, limits);
    SettingFits(q, scope, limits);
    CyclesFound(q, scope, limits);
    assert FoundFrom(g.hops, g.Full(), g.maxDepth, g.nodeCount, c);
    var blank := w.(evidence := {});
    EmittedIsLoop(q, nm, g, c, blank, limits.maxWitnessHops);
    assert WithEvidence(q.store, blank) == w;
  }

  /** What the order of witnesses looks at decides what the search emits. */
  lemma EmittedKeysDecide(nm: Naming, g: Setting, cycles: seq<Cycle>, ws: seq<LoopWitness>)
    requires nm.Fits(g) && AreWitnessesOf(nm, g, cycles, ws)
    ensures KeysDecide(ws)
  {
    forall a, b | a in ws && b in ws && SameKey(a, b)
      ensures a == b
    {
      var i :| 0 <= i < |ws| && ws[i] == a;
      var j :| 0 <= j < |ws| && ws[j] == b;
      assert IsWitnessOf(nm, g, cycles[i], a) && IsWitnessOf(nm, g, cycles[j], b);
      SameNodes(nm.t, CycleNodes(g.hops, cycles[i]), CycleNodes(g.hops, cycles[j]), a.cycle);
    }
  }

  lemma SameNodes(t: TopologyDefinition, a: seq<nat>, b: seq<nat>, ids: seq<nat>)
    requires ResourcesIncrease(t.resources) && NamesNodes(t, a, ids) && NamesNodes(t, b, ids)
    ensures a == b
  {
    forall i | 0 <= i < |a|
      ensures a[i] == b[i]
    {
      assert ids[i] == t.resources[a[i]].id == t.resources[b[i]].id;
      assert a[i] < b[i] ==> IdBefore(t.resources, a[i], b[i]);
      assert b[i] < a[i] ==> IdBefore(t.resources, b[i], a[i]);
    }
  }

  /** Where edge identities are distinct, hops by name are hops. */
  lemma SameHops(t: TopologyDefinition, a: Cycle, b: Cycle, ids: seq<nat>)
    requires EdgeIdsDistinct(t.edges) && NamesHops(t, a, ids) && NamesHops(t, b, ids)
    ensures a == b
  {
    forall i | 0 <= i < |a|
      ensures a[i] == b[i]
    {
      assert ids[i] == t.edges[a[i]].id == t.edges[b[i]].id;
    }
  }

  lemma EmittedDiffer(nm: Naming, g: Setting, cycles: seq<Cycle>, ws: seq<LoopWitness>)
    requires EdgeIdsDistinct(nm.t.edges) && AreWitnessesOf(nm, g, cycles, ws) && Distinct(cycles)
    ensures NoRepeats(ws)
  {
    forall i, j | 0 <= i < j < |ws|
      ensures ws[i] != ws[j]
    {
      assert IsWitnessOf(nm, g, cycles[i], ws[i]) && IsWitnessOf(nm, g, cycles[j], ws[j]);
      if ws[i] == ws[j] {
        SameHops(nm.t, cycles[i], cycles[j], ws[i].hops);
      }
    }
  }

  lemma {:induction false} EmittedCost(nm: Naming, g: Setting, cycles: seq<Cycle>, ws: seq<LoopWitness>, each: nat)
    requires AreWitnessesOf(nm, g, cycles, ws)
    ensures CostOf(ws, each) == CycleCost(cycles, each)
    decreases |ws|
  {
    if ws != [] {
      var last := |ws| - 1;
      assert IsWitnessOf(nm, g, cycles[last], ws[last]);
      EmittedCost(nm, g, cycles[..last], ws[..last], each);
    }
  }

  /** No more cycles are emitted than witnesses may be retained. */
  lemma EmittedAreFew(limits: Limits, total: Report)
    requires IsTimed(total) && limits.maxWitnesses > 0
    ensures Emitted(limits, total) <= limits.maxWitnesses
  {
    WithinHolds(total.at, limits.maxSearchSteps);
    if StopAt(limits) < |total.at| {
      assert total.at[StopAt(limits)] <= limits.maxSearchSteps
             <==> StopAt(limits) < Within(total.at, limits.maxSearchSteps);
    }
  }

  // ----- Validation -----

  ghost predicate HasLoop(q: Question, ws: seq<LoopWitness>, maxHops: nat) {
    exists w :: w in ws && IsLoop(q, WithEvidence(q.store, w), maxHops)
  }

  /** Nothing among the first `n` witnesses is dropped. */
  ghost predicate FitsBudget(q: Question, ws: seq<LoopWitness>, n: nat, maxHops: nat)
    requires n <= |ws|
  {
    n == 0 || CostOf(ws[..n], |q.t.edges| + 1) <= VALIDATION_BUDGET || !HasLoop(q, ws[..n - 1], maxHops)
  }

  ghost predicate AllEmittedLoops(q: Question, ws: seq<LoopWitness>, maxHops: nat) {
    forall w {:trigger w in ws} :: w in ws ==> IsLoop(q, WithEvidence(q.store, w), maxHops)
  }

  /** The loops among the witnesses are all there, with their evidence. */
  ghost predicate AllThere(q: Question, ws: seq<LoopWitness>, maxHops: nat, accepted: seq<LoopWitness>) {
    forall v :: v in ws && IsLoop(q, WithEvidence(q.store, v), maxHops) ==> WithEvidence(q.store, v) in accepted
  }

  /** `accepted` lists some of the witnesses, in their order, with their evidence. */
  ghost predicate ArePicked(q: Question, ws: seq<LoopWitness>, accepted: seq<LoopWitness>) {
    if ws == [] then accepted == [] else
      var front, w := ws[..|ws| - 1], WithEvidence(q.store, ws[|ws| - 1]);
      || ArePicked(q, front, accepted)
      || (accepted != [] && accepted[|accepted| - 1] == w && ArePicked(q, front, accepted[..|accepted| - 1]))
  }

  lemma {:induction false} PickedFrom(q: Question, ws: seq<LoopWitness>, accepted: seq<LoopWitness>, w: LoopWitness)
    requires ArePicked(q, ws, accepted) && w in accepted
    ensures exists v :: v in ws && w == WithEvidence(q.store, v)
    decreases |ws|
  {
    var front := ws[..|ws| - 1];
    if ArePicked(q, front, accepted) {
      PickedFrom(q, front, accepted, w);
    } else if w in accepted[..|accepted| - 1] {
      PickedFrom(q, front, accepted[..|accepted| - 1], w);
    }
  }

  /** The evidence does not make witnesses alike that were not. */
  lemma {:induction false} PickedDiffer(q: Question, ws: seq<LoopWitness>, accepted: seq<LoopWitness>)
    requires ArePicked(q, ws, accepted) && KeysDecide(ws) && NoRepeats(ws)
    ensures NoRepeats(accepted)
    decreases |ws|
  {
    if ws != [] {
      var front, last := ws[..|ws| - 1], ws[|ws| - 1];
      assert forall v :: v in front ==> v in ws && v != last;
      if ArePicked(q, front, accepted) {
        PickedDiffer(q, front, accepted);
      } else {
        var before := accepted[..|accepted| - 1];
        PickedDiffer(q, front, before);
        forall i | 0 <= i < |before|
          ensures before[i] != WithEvidence(q.store, last)
        {
          PickedFrom(q, front, before, before[i]);
          var v :| v in front && before[i] == WithEvidence(q.store, v);
          assert !SameKey(v, last);
        }
      }
    }
  }

  /** What the validation of the witnesses comes to. */
  datatype Validated = Validated(accepted: seq<LoopWitness>, dropped: nat, rejected: nat, spent: nat)

  ghost predicate AreValidated(q: Question, ws: seq<LoopWitness>, maxHops: nat, v: Validated) {
    && |v.accepted| + v.dropped + v.rejected == |ws|
    && AllLoops(q, v.accepted, maxHops) && ArePicked(q, ws, v.accepted)
    && (v.accepted == [] <==> !HasLoop(q, ws, maxHops))
    && (v.dropped == 0 ==> AllThere(q, ws, maxHops, v.accepted))
    && (v.dropped == 0 <==> FitsBudget(q, ws, |ws|, maxHops))
    && (v.dropped == 0 ==> v.spent == CostOf(ws, |q.t.edges| + 1))
    && (AllEmittedLoops(q, ws, maxHops) ==> v.rejected == 0)
  }

  lemma NothingValidated(q: Question, maxHops: nat)
    ensures AreValidated(q, [], maxHops, Validated([], 0, 0, 0))
  {
  }

  lemma OneMoreLoop(q: Question, ws: seq<LoopWitness>, w: LoopWitness, maxHops: nat)
    ensures HasLoop(q, ws + [w], maxHops) <==> HasLoop(q, ws, maxHops) || IsLoop(q, WithEvidence(q.store, w), maxHops)
    ensures AllEmittedLoops(q, ws + [w], maxHops)
            <==> AllEmittedLoops(q, ws, maxHops) && IsLoop(q, WithEvidence(q.store, w), maxHops)
  {
    var more := ws + [w];
    assert w in more;
    assert forall v :: v in ws ==> v in more;
  }

  lemma OneMoreFits(q: Question, ws: seq<LoopWitness>, w: LoopWitness, maxHops: nat)
    ensures CostOf(ws + [w], |q.t.edges| + 1) == CostOf(ws, |q.t.edges| + 1) + PriceOf(w, |q.t.edges| + 1)
    ensures FitsBudget(q, ws + [w], |ws| + 1, maxHops)
       <==> CostOf(ws + [w], |q.t.edges| + 1) <= VALIDATION_BUDGET || !HasLoop(q, ws, maxHops)
    ensures FitsBudget(q, ws + [w], |ws| + 1, maxHops) ==> FitsBudget(q, ws, |ws|, maxHops)
  {
    var more := ws + [w];
    assert more[..|ws| + 1] == more && more[..|ws|] == ws;
    CostGrows(ws, w, |q.t.edges| + 1);
    assert ws[..|ws|] == ws;
    if ws != [] && HasLoop(q, ws[..|ws| - 1], maxHops) {
      var v :| v in ws[..|ws| - 1] && IsLoop(q, WithEvidence(q.store, v), maxHops);
      assert v in ws;
    }
  }

  lemma DroppedOne(q: Question, ws: seq<LoopWitness>, w: LoopWitness, maxHops: nat, v: Validated)
    requires AreValidated(q, ws, maxHops, v) && v.accepted != []
    requires v.spent + PriceOf(w, |q.t.edges| + 1) > VALIDATION_BUDGET
    ensures AreValidated(q, ws + [w], maxHops, v.(dropped := v.dropped + 1))
  {
    OneMoreLoop(q, ws, w, maxHops);
    OneMoreFits(q, ws, w, maxHops);
    assert (ws + [w])[..|ws|] == ws;
  }

  /** The witness accepted or rejected. */
  function With(v: Validated, w: LoopWitness, accepts: bool, cost: nat): Validated {
    if accepts then v.(accepted := v.accepted + [w], spent := v.spent + cost)
    else v.(rejected := v.rejected + 1, spent := v.spent + cost)
  }

  lemma ValidatedOne(q: Question, ws: seq<LoopWitness>, w: LoopWitness, maxHops: nat, v: Validated)
    requires AreValidated(q, ws, maxHops, v)
    requires v.accepted == [] || v.spent + PriceOf(w, |q.t.edges| + 1) <= VALIDATION_BUDGET
    ensures AreValidated(q, ws + [w], maxHops,
                         With(v, WithEvidence(q.store, w), IsLoop(q, WithEvidence(q.store, w), maxHops),
                              PriceOf(w, |q.t.edges| + 1)))
  {
    OneMoreLoop(q, ws, w, maxHops);
    OneMoreFits(q, ws, w, maxHops);
    var all, more := ws + [w], v.accepted + [WithEvidence(q.store, w)];
    assert all[..|ws|] == ws && more[..|v.accepted|] == v.accepted;
  }

  /** Validates one more witness, unless the budget is spent. */
  method ValidateNext(ghost ws: seq<LoopWitness>, next: LoopWitness, t: TopologyDefinition, ledger: EvidenceLedger,
                      current: FenceVector, now: nat, maxHops: nat, v0: Validated)
    returns (v: Validated)
    requires AreValidated(Asked(t, ledger.observations, ledger.byEdge, current, now), ws, maxHops, v0)
    ensures AreValidated(Asked(t, ledger.observations, ledger.byEdge, current, now), ws + [next], maxHops, v)
  {
    ghost var q := Asked(t, ledger.observations, ledger.byEdge, current, now);
    var cost := PriceOf(next, |t.edges| + 1);
    if v0.accepted != [] && v0.spent + cost > VALIDATION_BUDGET {
      DroppedOne(q, ws, next, maxHops, v0);
      v := v0.(dropped := v0.dropped + 1);
    } else {
      var w := WithEvidence(ledger.observations, next);
      ValidatedOne(q, ws, next, maxHops, v0);
      var validation := Validate(w, t, ledger, current, now, maxHops);
      v := With(v0, w, validation == Accepted, cost);
    }
  }

  /** Keeps the witnesses the validator accepts, within the validation budget. */
  method ValidateAll(ws: seq<LoopWitness>, t: TopologyDefinition, ledger: EvidenceLedger, current: FenceVector,
                     now: nat, maxHops: nat)
    returns (v: Validated)
    ensures AreValidated(Asked(t, ledger.observations, ledger.byEdge, current, now), ws, maxHops, v)
  {
    ghost var q := Asked(t, ledger.observations, ledger.byEdge, current, now);
    v := Validated([], 0, 0, 0);
    NothingValidated(q, maxHops);
    assert ws[..0] == [];
    for k := 0 to |ws|
      invariant AreValidated(q, ws[..k], maxHops, v)
    {
      assert ws[..k + 1] == ws[..k] + [ws[k]];
      v := ValidateNext(ws[..k], ws[k], t, ledger, current, now, maxHops, v);
    }
    assert ws[..|ws|] == ws;
  }

  // ----- From the phases to the assessment -----

  /** The witness list is the emitted witnesses in canonical order, each once. */
  ghost predicate IsTidied(emitted: seq<LoopWitness>, ws: seq<LoopWitness>, each: nat) {
    && (forall w :: w in ws <==> w in emitted) && NoRepeats(ws)
    && (NoRepeats(emitted) ==> multiset(ws) == multiset(emitted) && CostOf(ws, each) == CostOf(emitted, each))
  }

  lemma EmittedIsShown(q: Question, scope: seq<nat>, limits: Limits, emitted: seq<LoopWitness>, i: nat)
    requires IsPosed(q) && limits.maxWitnesses > 0 && AreEmitted(q, scope, limits, emitted) && i < |emitted|
    ensures var c := EmittedCycles(q, scope, limits)[i];
            && c in WholeSearch(q, scope, limits).cycles
            && Shows(q, scope, limits, c, WithEvidence(q.store, emitted[i]))
  {
    var nm, g, c, w := NamingOf(q, scope), SettingOf(q, scope, limits), EmittedCycles(q, scope, limits)[i], emitted[i];
    assert IsWitnessOf(nm, g, c, w);
    assert WithEvidence(q.store, w).(evidence := {}) == w;
  }

  /** Witness by witness and cycle by cycle: a loop exactly where the cycle is usable. */
  ghost predicate Match(q: Question, cycles: seq<Cycle>, ws: seq<LoopWitness>, maxHops: nat) {
    && |ws| == |cycles|
    && forall i {:trigger ws[i]} {:trigger cycles[i]} :: 0 <= i < |ws| ==>
         (IsLoop(q, WithEvidence(q.store, ws[i]), maxHops) <==> CycleIsUsable(q.t, cycles[i]))
  }

  lemma MatchDecides(q: Question, cycles: seq<Cycle>, ws: seq<LoopWitness>, maxHops: nat)
    requires Match(q, cycles, ws, maxHops)
    ensures HasLoop(q, ws, maxHops) <==> !NoneUsable(q.t, cycles)
    ensures AllEmittedLoops(q, ws, maxHops) <==> AllUsable(q.t, cycles)
  {
    forall i | 0 <= i < |cycles|
      ensures cycles[i] in cycles && ws[i] in ws
    {
    }
  }

  /** With distinct edge identities, the loops among the emitted witnesses are those of the usable cycles. */
  lemma EmittedMatch(q: Question, scope: seq<nat>, limits: Limits, emitted: seq<LoopWitness>)
    requires IsPosed(q) && Sane(limits) && q.t.resources != [] && EdgeIdsDistinct(q.t.edges)
    requires AreEmitted(q, scope, limits, emitted)
    ensures Match(q, EmittedCycles(q, scope, limits), emitted, limits.maxWitnessHops)
  {
    forall i | 0 <= i < |emitted|
      ensures IsLoop(q, WithEvidence(q.store, emitted[i]), limits.maxWitnessHops)
              <==> CycleIsUsable(q.t, EmittedCycles(q, scope, limits)[i])
    {
      EmittedIsShown(q, scope, limits, emitted, i);
      ShownIsLoop(q, scope, limits, EmittedCycles(q, scope, limits)[i], WithEvidence(q.store, emitted[i]));
    }
  }

  lemma SameLoops(q: Question, a: seq<LoopWitness>, b: seq<LoopWitness>, maxHops: nat)
    requires forall w :: w in a <==> w in b
    ensures HasLoop(q, a, maxHops) <==> HasLoop(q, b, maxHops)
    ensures AllEmittedLoops(q, a, maxHops) <==> AllEmittedLoops(q, b, maxHops)
  {
  }

  lemma EmittedAreApart(q: Question, scope: seq<nat>, limits: Limits, emitted: seq<LoopWitness>)
    requires IsPosed(q) && Sane(limits) && q.t.resources != [] && EdgeIdsDistinct(q.t.edges)
    requires AreEmitted(q, scope, limits, emitted)
    ensures NoRepeats(emitted)
  {
    CyclesFound(q, scope, limits);
    EmittedDiffer(NamingOf(q, scope), SettingOf(q, scope, limits), EmittedCycles(q, scope, limits), emitted);
  }

  lemma EmittedCostsTheSame(q: Question, scope: seq<nat>, limits: Limits, emitted: seq<LoopWitness>, each: nat)
    requires IsPosed(q) && limits.maxWitnesses > 0 && AreEmitted(q, scope, limits, emitted)
    ensures |emitted| == |EmittedCycles(q, scope, limits)|
            && CostOf(emitted, each) == CycleCost(EmittedCycles(q, scope, limits), each)
  {
    EmittedCost(NamingOf(q, scope), SettingOf(q, scope, limits), EmittedCycles(q, scope, limits), emitted, each);
  }

  /** What is dropped, by what the cycles cost. */
  lemma BudgetDecides(q: Question, cycles: seq<Cycle>, ws: seq<LoopWitness>, maxHops: nat)
    requires |ws| == |cycles| && CostOf(ws, |q.t.edges| + 1) == CycleCost(cycles, |q.t.edges| + 1)
    ensures WithinBudget(q.t, cycles) ==> FitsBudget(q, ws, |ws|, maxHops)
    ensures AllEmittedLoops(q, ws, maxHops) ==> (FitsBudget(q, ws, |ws|, maxHops) <==> WithinBudget(q.t, cycles))
  {
    assert ws[..|ws|] == ws;
    if |ws| > 1 {
      assert ws[0] in ws[..|ws| - 1] && ws[0] in ws;
    }
  }

  /** The cycles whose witness is kept. */
  lemma KeptIsShown(q: Question, scope: seq<nat>, limits: Limits, emitted: seq<LoopWitness>, ws: seq<LoopWitness>,
                    v: Validated, i: nat)
    requires IsPosed(q) && Sane(limits) && q.t.resources != [] && EdgeIdsDistinct(q.t.edges)
    requires AreEmitted(q, scope, limits, emitted) && i < |emitted| && emitted[i] in ws
    requires AreValidated(q, ws, limits.maxWitnessHops, v) && v.dropped == 0
    ensures CycleIsUsable(q.t, EmittedCycles(q, scope, limits)[i])
            <==> IsShown(q, scope, limits, EmittedCycles(q, scope, limits)[i], v.accepted)
  {
    var c, w := EmittedCycles(q, scope, limits)[i], WithEvidence(q.store, emitted[i]);
    EmittedIsShown(q, scope, limits, emitted, i);
    ShownIsLoop(q, scope, limits, c, w);
    assert CycleIsUsable(q.t, c) ==> w in v.accepted;
    if x :| x in v.accepted && Shows(q, scope, limits, c, x) {
      ShownIsLoop(q, scope, limits, c, x);
    }
  }

  /** Every witness kept shows a cycle emitted. */
  lemma KeptAreEmitted(q: Question, scope: seq<nat>, limits: Limits, emitted: seq<LoopWitness>, ws: seq<LoopWitness>,
                       v: Validated)
    requires IsPosed(q) && Sane(limits) && AreEmitted(q, scope, limits, emitted)
             && IsTidied(emitted, ws, |q.t.edges| + 1)
    requires AreValidated(q, ws, limits.maxWitnessHops, v)
    ensures NoRepeats(v.accepted)
    ensures forall w {:trigger w in v.accepted} :: w in v.accepted ==>
              exists c :: c in EmittedCycles(q, scope, limits) && Shows(q, scope, limits, c, w)
  {
    EmittedKeysDecide(NamingOf(q, scope), SettingOf(q, scope, limits), EmittedCycles(q, scope, limits), emitted);
    PickedDiffer(q, ws, v.accepted);
    forall w | w in v.accepted
      ensures exists c :: c in EmittedCycles(q, scope, limits) && Shows(q, scope, limits, c, w)
    {
      PickedFrom(q, ws, v.accepted, w);
      var x :| x in ws && w == WithEvidence(q.store, x);
      var i :| 0 <= i < |emitted| && emitted[i] == x;
      EmittedIsShown(q, scope, limits, emitted, i);
      assert EmittedCycles(q, scope, limits)[i] in EmittedCycles(q, scope, limits);
    }
  }

  /** What is dropped, and what is kept where nothing is. */
  lemma DropsDecide(q: Question, scope: seq<nat>, limits: Limits, emitted: seq<LoopWitness>, ws: seq<LoopWitness>,
                    v: Validated)
    requires IsPosed(q) && Sane(limits) && q.t.resources != [] && EdgeIdsDistinct(q.t.edges)
    requires AreEmitted(q, scope, limits, emitted) && IsTidied(emitted, ws, |q.t.edges| + 1)
    requires AreValidated(q, ws, limits.maxWitnessHops, v)
    ensures |ws| == |EmittedCycles(q, scope, limits)|
    ensures WithinBudget(q.t, EmittedCycles(q, scope, limits)) ==> v.dropped == 0
    ensures AllEmittedLoops(q, ws, limits.maxWitnessHops) ==>
            (v.dropped == 0 <==> WithinBudget(q.t, EmittedCycles(q, scope, limits)))
  {
    EmittedAreApart(q, scope, limits, emitted);
    EmittedCostsTheSame(q, scope, limits, emitted, |q.t.edges| + 1);
    assert |ws| == |multiset(ws)| && |emitted| == |multiset(emitted)|;
    BudgetDecides(q, EmittedCycles(q, scope, limits), ws, limits.maxWitnessHops);
  }

  lemma KeptAreShown(q: Question, scope: seq<nat>, limits: Limits, emitted: seq<LoopWitness>, ws: seq<LoopWitness>,
                     v: Validated)
    requires IsPosed(q) && Sane(limits) && q.t.resources != [] && EdgeIdsDistinct(q.t.edges)
    requires AreEmitted(q, scope, limits, emitted) && IsTidied(emitted, ws, |q.t.edges| + 1)
    requires AreValidated(q, ws, limits.maxWitnessHops, v) && v.dropped == 0
    ensures forall c :: c in EmittedCycles(q, scope, limits) ==>
            (CycleIsUsable(q.t, c) <==> IsShown(q, scope, limits, c, v.accepted))
  {
    forall i | 0 <= i < |emitted|
      ensures CycleIsUsable(q.t, EmittedCycles(q, scope, limits)[i])
              <==> IsShown(q, scope, limits, EmittedCycles(q, scope, limits)[i], v.accepted)
    {
      assert emitted[i] in emitted;
      KeptIsShown(q, scope, limits, emitted, ws, v, i);
    }
  }

  /** What shows a cycle emitted is what the search made of it. */
  lemma ShownIsEmitted(q: Question, scope: seq<nat>, limits: Limits, emitted: seq<LoopWitness>, i: nat, w: LoopWitness)
    requires IsPosed(q) && limits.maxWitnesses > 0 && AreEmitted(q, scope, limits, emitted) && i < |emitted|
    requires Shows(q, scope, limits, EmittedCycles(q, scope, limits)[i], w)
    ensures w == WithEvidence(q.store, emitted[i])
  {
    var nm, g, c := NamingOf(q, scope), SettingOf(q, scope, limits), EmittedCycles(q, scope, limits)[i];
    assert IsWitnessOf(nm, g, c, emitted[i]);
    WitnessIsDecided(nm, g, c, emitted[i], w.(evidence := {}));
  }

  lemma WitnessIsDecided(nm: Naming, g: Setting, c: Cycle, a: LoopWitness, b: LoopWitness)
    requires IsWitnessOf(nm, g, c, a) && IsWitnessOf(nm, g, c, b)
    ensures a == b
  {
    var nodes := CycleNodes(g.hops, c);
    forall i | 0 <= i < |c|
      ensures a.cycle[i] == b.cycle[i] && a.hops[i] == b.hops[i]
    {
      assert nodes[i] < |nm.t.resources| && c[i] < |nm.t.edges|;
    }
    assert a.cycle == b.cycle && a.hops == b.hops;
  }

  lemma ShownIsListed(q: Question, scope: seq<nat>, limits: Limits, emitted: seq<LoopWitness>, c: Cycle, w: LoopWitness)
    returns (x: LoopWitness)
    requires IsPosed(q) && limits.maxWitnesses > 0 && AreEmitted(q, scope, limits, emitted)
    requires c in EmittedCycles(q, scope, limits) && Shows(q, scope, limits, c, w)
    ensures x in emitted && w == WithEvidence(q.store, x)
  {
    var i :| 0 <= i < |EmittedCycles(q, scope, limits)| && EmittedCycles(q, scope, limits)[i] == c;
    ShownIsEmitted(q, scope, limits, emitted, i, w);
    x := emitted[i];
  }

  lemma ListedIsShown(q: Question, scope: seq<nat>, limits: Limits, emitted: seq<LoopWitness>, x: LoopWitness)
    returns (c: Cycle)
    requires IsPosed(q) && limits.maxWitnesses > 0 && AreEmitted(q, scope, limits, emitted) && x in emitted
    ensures c in EmittedCycles(q, scope, limits) && Shows(q, scope, limits, c, WithEvidence(q.store, x))
  {
    var i :| 0 <= i < |emitted| && emitted[i] == x;
    EmittedIsShown(q, scope, limits, emitted, i);
    c := EmittedCycles(q, scope, limits)[i];
  }

  lemma LoopsAreEmitted(q: Question, scope: seq<nat>, limits: Limits, emitted: seq<LoopWitness>)
    requires IsPosed(q) && limits.maxWitnesses > 0 && AreEmitted(q, scope, limits, emitted)
    ensures HasLoop(q, emitted, limits.maxWitnessHops) <==> EmitsLoop(q, scope, limits)
  {
    if c, w :|
      c in EmittedCycles(q, scope, limits) && Shows(q, scope, limits, c, w) && IsLoop(q, w, limits.maxWitnessHops)
    {
      var x := ShownIsListed(q, scope, limits, emitted, c, w);
    }
    if x :| x in emitted && IsLoop(q, WithEvidence(q.store, x), limits.maxWitnessHops) {
      var c := ListedIsShown(q, scope, limits, emitted, x);
    }
  }

  /** Where nothing is dropped, the loops among the cycles emitted are kept. */
  lemma LoopsAreKept(q: Question, scope: seq<nat>, limits: Limits, emitted: seq<LoopWitness>, ws: seq<LoopWitness>,
                     accepted: seq<LoopWitness>)
    requires IsPosed(q) && limits.maxWitnesses > 0 && AreEmitted(q, scope, limits, emitted)
    requires forall x :: x in emitted ==> x in ws
    requires AllThere(q, ws, limits.maxWitnessHops, accepted)
    ensures KeepsLoops(q, scope, limits, accepted)
  {
    forall c, w | c in EmittedCycles(q, scope, limits) && Shows(q, scope, limits, c, w)
      && IsLoop(q, w, limits.maxWitnessHops)
      ensures w in accepted
    {
      var x := ShownIsListed(q, scope, limits, emitted, c, w);
      assert x in ws;
    }
  }

  lemma WitnessesHold(q: Question, scope: seq<nat>, limits: Limits, emitted: seq<LoopWitness>, ws: seq<LoopWitness>,
                      v: Validated, a: LoopAssessment)
    requires IsPosed(q) && Sane(limits) && q.t.resources != []
    requires AreEmitted(q, scope, limits, emitted) && IsTidied(emitted, ws, |q.t.edges| + 1)
    requires AreValidated(q, ws, limits.maxWitnessHops, v)
    requires a.witnesses == v.accepted && a.bounds.dropped == v.dropped && a.bounds.rejected == v.rejected
    ensures WitnessesFit(q, scope, limits, a)
  {
    KeptAreEmitted(q, scope, limits, emitted, ws, v);
    LoopsAreEmitted(q, scope, limits, emitted);
    SameLoops(q, emitted, ws, limits.maxWitnessHops);
    if v.dropped == 0 {
      LoopsAreKept(q, scope, limits, emitted, ws, v.accepted);
    }
    if EdgeIdsDistinct(q.t.edges) {
      EmittedMatch(q, scope, limits, emitted);
      MatchDecides(q, EmittedCycles(q, scope, limits), emitted, limits.maxWitnessHops);
      DropsDecide(q, scope, limits, emitted, ws, v);
      if v.dropped == 0 {
        KeptAreShown(q, scope, limits, emitted, ws, v);
      }
    }
  }

  /** The outcome, from the existence flags and what the search and the validator left. */
  function OutcomeOf(e: Existence, confirmed: bool): LoopOutcome {
    if e.proven && confirmed then LoopConfirmed
    else if e.proven || e.stepsExhausted then Indeterminate
    else if e.conflictOnly then LoopConflict
    else if e.unproven then LoopUnknown
    else NoLoop
  }

  function Concluded(e: Existence, p: Progress, v: Validated, resized: bool): LoopAssessment {
    var outcome := OutcomeOf(e, v.accepted != []);
    LoopAssessment(outcome, v.accepted,
      BoundsHit(false, false, e.stepsExhausted, p.stepsExhausted, p.cyclesExhausted || resized, p.lengthBoundReached,
                v.dropped, v.rejected),
      e.stepsExhausted || p.cyclesExhausted || resized || p.lengthBoundReached || outcome == Indeterminate,
      v.accepted != [] && (p.cyclesExhausted || resized || p.lengthBoundReached))
  }

  /** What the phases have established when the outcome is chosen. */
  ghost predicate PhasesHold(q: Question, scope: seq<nat>, limits: Limits, e: Existence, p: Progress,
                             ws: seq<LoopWitness>, v: Validated)
    requires IsPosed(q) && limits.maxWitnesses > 0
  {
    && !TooManySelectors(q, scope, limits) && !TooMuchMemory(q, scope)
    && (e.stepsExhausted <==> ProofTooLong(q, scope, limits))
    && (!e.stepsExhausted ==> ExistenceHolds(SettingOf(q, scope, limits).hops, |CandidatesIn(q, scope)|, e))
    && (if e.proven && !e.stepsExhausted
        then IsResult(NamingOf(q, scope), SettingOf(q, scope, limits), limits, WholeSearch(q, scope, limits), p)
        else p == START)
    && IsTidied(p.witnesses, ws, |q.t.edges| + 1) && AreValidated(q, ws, limits.maxWitnessHops, v)
  }

  lemma NothingKept(q: Question, ws: seq<LoopWitness>, maxHops: nat, v: Validated)
    requires IsTidied([], ws, |q.t.edges| + 1) && AreValidated(q, ws, maxHops, v)
    ensures v.accepted == [] && v.dropped == v.rejected == 0
  {
    assert |ws| == |multiset(ws)|;
  }

  lemma FlagsDecideSearch(q: Question, scope: seq<nat>, limits: Limits, e: Existence)
    requires IsPosed(q) && ExistenceHolds(SettingOf(q, scope, limits).hops, |CandidatesIn(q, scope)|, e)
             && !e.stepsExhausted
    ensures e.proven <==> SomeCycleAmong(q.t, q.table, CandidatesIn(q, scope), Proven)
    ensures !e.proven ==> OutcomeOf(e, false) == TruthAmong(q.t, q.table, CandidatesIn(q, scope))
  {
    ViewsOfAreViews(q.t, q.table, CandidatesIn(q, scope));
    FlagsGiveTruth(q.t, q.table, CandidatesIn(q, scope), SettingOf(q, scope, limits).hops, e);
  }

  /** Without a search, the existence proof has the last word. */
  lemma UnsearchedHolds(q: Question, scope: seq<nat>, limits: Limits, e: Existence, p: Progress, ws: seq<LoopWitness>,
                        v: Validated)
    requires IsPosed(q) && limits.maxWitnesses > 0 && PhasesHold(q, scope, limits, e, p, ws, v)
             && (e.stepsExhausted || !e.proven)
    ensures AssessmentHolds(q, scope, limits, Concluded(e, p, v, false))
  {
    NothingKept(q, ws, limits.maxWitnessHops, v);
    if !e.stepsExhausted {
      FlagsDecideSearch(q, scope, limits, e);
    }
  }

  lemma BoundsHold(q: Question, scope: seq<nat>, limits: Limits, e: Existence, p: Progress, v: Validated)
    requires IsPosed(q) && limits.maxWitnesses > 0 && IsSearched(q, scope, limits) && e.proven && !e.stepsExhausted
    requires IsResult(NamingOf(q, scope), SettingOf(q, scope, limits), limits, WholeSearch(q, scope, limits), p)
    ensures BoundsFit(q, scope, limits, Concluded(e, p, v, false).bounds)
    ensures AreEmitted(q, scope, limits, p.witnesses)
  {
  }

  lemma SearchedHolds(q: Question, scope: seq<nat>, limits: Limits, e: Existence, p: Progress, ws: seq<LoopWitness>,
                      v: Validated)
    requires IsPosed(q) && Sane(limits) && q.t.resources != []
    requires PhasesHold(q, scope, limits, e, p, ws, v) && !e.stepsExhausted && e.proven
    ensures AssessmentHolds(q, scope, limits, Concluded(e, p, v, false))
  {
    FlagsDecideSearch(q, scope, limits, e);
    BoundsHold(q, scope, limits, e, p, v);
    WitnessesHold(q, scope, limits, p.witnesses, ws, v, Concluded(e, p, v, false));
  }

  lemma GivenUp(q: Question, scope: seq<nat>, limits: Limits)
    requires IsPosed(q) && limits.maxWitnesses > 0
    ensures TooManySelectors(q, scope, limits) ==>
              AssessmentHolds(q, scope, limits, Early(Indeterminate, NO_BOUNDS.(candidates := true)))
    ensures !TooManySelectors(q, scope, limits) && TooMuchMemory(q, scope) ==>
              AssessmentHolds(q, scope, limits, Early(Indeterminate, NO_BOUNDS.(maskMemory := true)))
  {
  }

  lemma NothingToTraverse(q: Question, scope: seq<nat>, limits: Limits)
    requires IsPosed(q) && limits.maxWitnesses > 0 && (q.t.edges == [] || q.t.resources == [])
    ensures AssessmentHolds(q, scope, limits, Early(NoLoop, NO_BOUNDS))
  {
    assert q.t.edges != [] ==> EdgeFits(q.t.resources, q.t.selectors, q.t.edges[0]);
    assert CandidatesIn(q, scope) == [];
  }

  // ----- The outcome, kind by kind -----

  /** What an outcome says of the hop table: a loop of open hops is confirmed, or the question left open; otherwise a
      conflict is answered where some selector in scope has a loop and none without a conflicted hop, an unknown where
      there is no such selector and one has a loop that may be open, and no loop where there is none of any kind. */
  ghost predicate AnswersByKind(q: Question, scope: seq<nat>, limits: Limits, outcome: LoopOutcome) {
    if GivesUp(q, scope, limits) then outcome == Indeterminate
    else if SomeLoop(q.t, q.table, scope, OPEN_HOPS) then outcome in {LoopConfirmed, Indeterminate}
    else
      && (outcome == LoopConflict <==> SomeContested(q.t, q.table, scope))
      && (outcome == LoopUnknown <==>
          !SomeContested(q.t, q.table, scope) && SomeLoop(q.t, q.table, scope, POSSIBLE_HOPS))
      && (outcome == NoLoop <==> !SomeLoop(q.t, q.table, scope, ALL_HOPS))
      && outcome in {LoopConflict, LoopUnknown, NoLoop}
  }

  lemma {:induction false} SizeOf(s: seq<nat>, elements: set<nat>)
    requires StrictlyIncreasing(s) && forall x :: x in elements <==> x in s
    ensures |elements| == |s|
    decreases |s|
  {
    if s == [] {
      assert elements == {};
    } else {
      var last, front := s[|s| - 1], s[..|s| - 1];
      assert s == front + [last];
      assert last !in front;
      SizeOf(front, elements - {last});
    }
  }

  /** The existence proof is given up exactly when the selectors in scope that some hop takes are too many, their masks
      too large, or asking about each of them too long. */
  lemma GivesUpExactly(q: Question, scope: seq<nat>, limits: Limits, asked: set<nat>)
    requires IsPosed(q) && EdgeIdsDistinct(q.t.edges)
    requires forall s :: s in asked <==> (scope == [] || s in scope) && exists i :: Takes(q.t, q.table, s, ALL_HOPS, i)
    ensures GivesUp(q, scope, limits) <==>
            || |asked| > limits.maxCandidateSelectors
            || |q.t.edges| * ((|asked| + 63) / 64) * 8 > 268_435_456
            || |asked| * |q.t.edges| > limits.maxSearchSteps
  {
    CandidatesHold(q, scope);
    forall s
      ensures s in asked <==> s in CandidatesIn(q, scope)
    {
      assert forall i: nat :: Takes(q.t, q.table, s, ALL_HOPS, i) <==> Carries(q.t, q.table, s, HopClass.Conflicted, i);
      assert InScope(scope, s) <==> scope == [] || s in scope;
    }
    SizeOf(CandidatesIn(q, scope), asked);
  }

  lemma OutcomeByKind(q: Question, scope: seq<nat>, limits: Limits, a: LoopAssessment)
    requires IsAnswer(q, scope, limits, a) && EdgeIdsDistinct(q.t.edges)
    ensures AnswersByKind(q, scope, limits, a.outcome)
  {
    CandidatesHold(q, scope);
    CandidatesSuffice(q.t, q.table, scope, CandidatesIn(q, scope));
    TruthByKinds(q.t, q.table, scope);
  }

  // ----- The detector -----

  /** The existence test, the witness search, and the validation. */
  method SearchViews(t: TopologyDefinition, ledger: EvidenceLedger, fence: FenceVector, now: nat, ghost scope: seq<nat>,
                     limits: Limits, table: seq<HopRecord>, candidates: seq<nat>)
    returns (a: LoopAssessment)
    requires Sane(limits) && t.resources != []
    requires var q := Asked(t, ledger.observations, ledger.byEdge, fence, now);
             && IsPosed(q) && table == q.table && candidates == CandidatesIn(q, scope) && StrictlyIncreasing(candidates)
             && !TooManySelectors(q, scope, limits) && !TooMuchMemory(q, scope)
    ensures var q := Asked(t, ledger.observations, ledger.byEdge, fence, now);
            IsPosed(q) && AssessmentHolds(q, scope, limits, a)
  {
    ghost var q := Asked(t, ledger.observations, ledger.byEdge, fence, now);
    SettingFits(q, scope, limits);
    var views := BuildViews(t, table, candidates);
    var e := Exists(views, |t.resources|, |candidates|, limits.maxSearchSteps);
    var p := START;
    if e.proven && !e.stepsExhausted {
      p := Enumerate(Naming(t, candidates, fence),
                     Setting(views, |t.resources|, |candidates|,
                             if limits.maxWitnessHops < |t.resources| then limits.maxWitnessHops
                                else |t.resources|), limits);
      EmittedAreFew(limits, WholeSearch(q, scope, limits));
      EmittedKeysDecide(NamingOf(q, scope), SettingOf(q, scope, limits), EmittedCycles(q, scope, limits), p.witnesses);
    }
    var ws, resized := Tidy(p.witnesses, limits.maxWitnesses, |t.edges| + 1);
    var v := ValidateAll(ws, t, ledger, fence, now, limits.maxWitnessHops);
    a := Concluded(e, p, v, resized);
    if e.proven && !e.stepsExhausted {
      SearchedHolds(q, scope, limits, e, p, ws, v);
    } else {
      UnsearchedHolds(q, scope, limits, e, p, ws, v);
    }
  }

  /** The phases after the candidates are known. */
  method Search(t: TopologyDefinition, ledger: EvidenceLedger, fence: FenceVector, now: nat, ghost scope: seq<nat>,
                limits: Limits, table: seq<HopRecord>, candidates: seq<nat>)
    returns (a: LoopAssessment)
    requires Sane(limits) && t.resources != []
    requires var q := Asked(t, ledger.observations, ledger.byEdge, fence, now);
             IsPosed(q) && table == q.table && candidates == CandidatesIn(q, scope) && StrictlyIncreasing(candidates)
    ensures var q := Asked(t, ledger.observations, ledger.byEdge, fence, now);
            IsPosed(q) && AssessmentHolds(q, scope, limits, a)
  {
    GivenUp(Asked(t, ledger.observations, ledger.byEdge, fence, now), scope, limits);
    if |candidates| > limits.maxCandidateSelectors {
      a := Early(Indeterminate, NO_BOUNDS.(candidates := true));
    } else if |t.edges| * WordsFor(|candidates|) * 8 > MASK_BYTES_CEILING {
      a := Early(Indeterminate, NO_BOUNDS.(maskMemory := true));
    } else {
      a := SearchViews(t, ledger, fence, now, scope, limits, table, candidates);
    }
  }

  /** A request that is not turned away. */
  predicate IsProper(t: TopologyDefinition, fence: FenceVector, scope: seq<nat>, limits: Limits) {
    Sane(limits) && !FenceIsZero(fence) && t.generation == fence.topology && ScopeFits(t, scope)
  }

  /** The assessment of a question posed. */
  ghost predicate IsAnswer(q: Question, scope: seq<nat>, limits: Limits, a: LoopAssessment) {
    limits.maxWitnesses > 0 && IsPosed(q) && AssessmentHolds(q, scope, limits, a)
  }

  /** The answer to a proper request, once hops are resolved and candidates collected. */
  method AssessIn(t: TopologyDefinition, ledger: EvidenceLedger, fence: FenceVector, now: nat, scope: seq<nat>,
                  limits: Limits, table: seq<HopRecord>, offered: seq<nat>)
    returns (a: LoopAssessment)
    requires IsCanonical(t) && Sane(limits) && StrictlyIncreasing(offered)
    requires table == HopTable(t, ledger.byEdge, fence, now) && offered == Collected(t, table, |table|)
    ensures var q := Asked(t, ledger.observations, ledger.byEdge, fence, now);
            IsAnswer(q, scope, limits, a)
    ensures a.outcome in {NoLoop, LoopConfirmed, LoopConflict, LoopUnknown, Indeterminate}
  {
    var candidates := Restrict(offered, scope);
    AskedIsPosed(t, ledger.observations, ledger.byEdge, fence, now);
    if t.edges == [] || t.resources == [] {
      NothingToTraverse(Asked(t, ledger.observations, ledger.byEdge, fence, now), scope, limits);
      return Early(NoLoop, NO_BOUNDS);
    }
    a := Search(t, ledger, fence, now, scope, limits, table, candidates);
  }

  /** Answers the detection question. */
  method Assess(t: TopologyDefinition, ledger: EvidenceLedger, fence: FenceVector, now: nat, scope: seq<nat>,
                limits: Limits)
    returns (a: LoopAssessment)
    requires IsCanonical(t)
    ensures !IsProper(t, fence, scope, limits) ==> a == Early(a.outcome, NO_BOUNDS)
    ensures a.outcome == UnsupportedRequest <==>
              || limits.maxWitnessHops == 0 || limits.maxWitnessHops > 256 || limits.maxWitnesses == 0
              || limits.maxCyclesEnumerated == 0 || limits.maxSearchSteps == 0 || limits.maxCandidateSelectors == 0
    ensures a.outcome == StaleRequest <==> Sane(limits) && !FenceIsZero(fence) && t.generation != fence.topology
    ensures a.outcome == InvalidRequest <==>
              Sane(limits) && (FenceIsZero(fence) || (t.generation == fence.topology && !ScopeFits(t, scope)))
    ensures IsProper(t, fence, scope, limits) ==>
              IsAnswer(Asked(t, ledger.observations, ledger.byEdge, fence, now), scope, limits, a)
    ensures IsProper(t, fence, scope, limits) && EdgeIdsDistinct(t.edges) ==>
              AnswersByKind(Asked(t, ledger.observations, ledger.byEdge, fence, now), scope, limits, a.outcome)
  {
    if !Sane(limits) {
      return Early(UnsupportedRequest, NO_BOUNDS);
    }
    if FenceIsZero(fence) {
      return Early(InvalidRequest, NO_BOUNDS);
    }
    if t.generation != fence.topology {
      return Early(StaleRequest, NO_BOUNDS);
    }
    var table := ledger.ResolveAll(t, fence, now);
    var offered := CollectCandidates(t, table);
    if !ScopeFits(t, scope) {
      return Early(InvalidRequest, NO_BOUNDS);
    }
    a := AssessIn(t, ledger, fence, now, scope, limits, table, offered);
    if EdgeIdsDistinct(t.edges) {
      OutcomeByKind(Asked(t, ledger.observations, ledger.byEdge, fence, now), scope, limits, a);
    }
  }
}
