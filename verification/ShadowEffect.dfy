/** What containment achieves on the shadow: which hops stay open, and that no confirmed loop survives. */
module ShadowEffect {
  import opened Lists
  import opened Topology
  import opened Order
  import opened Evidence
  import opened Ledger
  import opened Witness
  import opened HittingSet
  import opened HittingSetSolver
  import opened Planner
  import opened Containment
  import opened Shadow
  import opened HopViews
  import opened Detector
  import opened Coverage
  import WitnessSearch

  /** `shadow` is what applying the targets to `t` gives. */
  ghost predicate IsShadowOf(t: TopologyDefinition, targets: seq<ContainmentTarget>, shadow: TopologyDefinition) {
    shadow == t.(edges := shadow.edges) && AreCut(t.edges, targets, |targets|, shadow.edges)
  }

  ghost predicate IsOpenFor(t: TopologyDefinition, e: nat, obs: set<ForwardingObservation>, current: FenceVector,
                            now: nat, s: nat) {
    && e < |t.edges| && RecordOf(t, e, obs, current, now).resolution == ProvenOpen
    && s in RecordOf(t, e, obs, current, now).effectiveSelectors
  }

  /** On the same evidence, a hop is proven open for a selector in the shadow exactly when it was before and no
      target lists the two together. */
  lemma OpenInShadow(t: TopologyDefinition, targets: seq<ContainmentTarget>, shadow: TopologyDefinition, e: nat,
                     obs: set<ForwardingObservation>, current: FenceVector, now: nat, s: nat)
    requires IsShadowOf(t, targets, shadow) && e < |t.edges|
    ensures IsOpenFor(shadow, e, obs, current, now, s)
       <==> IsOpenFor(t, e, obs, current, now, s) && !IsListed(t.edges, targets, |targets|, e, s)
  {
    assert IsCut(t.edges[e], shadow.edges[e], Gone(t.edges, targets, |targets|, e));
    var before := Keep(t.edges[e].admittedSelectors, ExactSelectors(obs, obs, current, now));
    var after := Keep(shadow.edges[e].admittedSelectors, ExactSelectors(obs, obs, current, now));
    assert s in after <==> s in before && !IsListed(t.edges, targets, |targets|, e, s);
  }

  lemma {:induction false} SamePositions(a: seq<ForwardingEdge>, b: seq<ForwardingEdge>, id: nat)
    requires |a| == |b| && forall e {:trigger b[e]} :: 0 <= e < |b| ==> a[e].id == b[e].id
    ensures EdgeIndex(a, id) == EdgeIndex(b, id)
    decreases |a|
  {
    if a != [] {
      SamePositions(a[..|a| - 1], b[..|b| - 1], id);
    }
  }

  lemma ShadowKeepsPositions(t: TopologyDefinition, targets: seq<ContainmentTarget>, shadow: TopologyDefinition,
                             id: nat)
    requires IsShadowOf(t, targets, shadow)
    ensures EdgeIndex(shadow.edges, id) == EdgeIndex(t.edges, id)
  {
    forall e | 0 <= e < |shadow.edges|
      ensures t.edges[e].id == shadow.edges[e].id
    {
      assert IsCut(t.edges[e], shadow.edges[e], Gone(t.edges, targets, |targets|, e));
    }
    SamePositions(t.edges, shadow.edges, id);
  }

  ghost predicate HopIsListed(t: TopologyDefinition, targets: seq<ContainmentTarget>, w: LoopWitness, i: nat, s: nat) {
    i < |w.hops| && EdgeIndex(t.edges, w.hops[i]).Some?
      && IsListed(t.edges, targets, |targets|, EdgeIndex(t.edges, w.hops[i]).value, s)
  }

  ghost predicate NoneListed(t: TopologyDefinition, targets: seq<ContainmentTarget>, w: LoopWitness, i: nat) {
    forall s :: s in w.selectors ==> !HopIsListed(t, targets, w, i, s)
  }

  /** A hop carries a loop in the shadow exactly when it carried it before and no target lists it with one of its
      selectors. */
  lemma ShadowHop(t: TopologyDefinition, targets: seq<ContainmentTarget>, shadow: TopologyDefinition, store: Store,
                  byEdge: ByEdge, current: FenceVector, now: nat, w: LoopWitness, i: nat)
    requires IsShadowOf(t, targets, shadow) && w.selectors != [] && i < |w.cycle| == |w.hops|
    ensures HopHolds(Asked(shadow, store, byEdge, current, now), w, i)
       <==> HopHolds(Asked(t, store, byEdge, current, now), w, i) && NoneListed(t, targets, w, i)
  {
    ShadowKeepsPositions(t, targets, shadow, w.hops[i]);
    if EdgeIndex(t.edges, w.hops[i]).Some? {
      var e := EdgeIndex(t.edges, w.hops[i]).value;
      assert IsCut(t.edges[e], shadow.edges[e], Gone(t.edges, targets, |targets|, e));
      var obs := About(byEdge, t.edges[e].id);
      forall s | s in w.selectors
        ensures IsOpenFor(shadow, e, obs, current, now, s)
           <==> IsOpenFor(t, e, obs, current, now, s) && !IsListed(t.edges, targets, |targets|, e, s)
        ensures s in shadow.edges[e].admittedSelectors <==>
                s in t.edges[e].admittedSelectors && !IsListed(t.edges, targets, |targets|, e, s)
      {
        OpenInShadow(t, targets, shadow, e, obs, current, now, s);
      }
      CarriedForAll(t, store, byEdge, current, now, w, i, e);
      CarriedForAll(shadow, store, byEdge, current, now, w, i, e);
    }
  }

  /** A usable hop carries a witness exactly when it is open for each of its selectors. */
  lemma CarriedForAll(t: TopologyDefinition, store: Store, byEdge: ByEdge, current: FenceVector, now: nat,
                      w: LoopWitness, i: nat, e: nat)
    requires i < |w.cycle| == |w.hops| && EdgeIndex(t.edges, w.hops[i]) == Some(e) && w.selectors != []
    ensures HopHolds(Asked(t, store, byEdge, current, now), w, i) <==>
            && JoinsUp(t, e, w.cycle[i], Successor(w.cycle, i))
            && forall s :: s in w.selectors ==>
                 s in t.edges[e].admittedSelectors && IsOpenFor(t, e, About(byEdge, t.edges[e].id), current, now, s)
  {
    var obs := About(byEdge, t.edges[e].id);
    assert Asked(t, store, byEdge, current, now).table[e] == RecordOf(t, e, obs, current, now);
    assert w.selectors[0] in w.selectors;
  }

  /** The edge is up and joins enabled resources. */
  ghost predicate JoinsUp(t: TopologyDefinition, e: nat, from: nat, to: nat) {
    && e < |t.edges| && t.edges[e].from == from && t.edges[e].to == to && t.edges[e].link == Up
    && FindResource(t.resources, from).Some? && FindResource(t.resources, from).value.admin == Enabled
    && FindResource(t.resources, to).Some? && FindResource(t.resources, to).value.admin == Enabled
  }

  /** The loops of the shadow are exactly the loops of the definition no hop of which a target lists with one of their
      selectors. */
  lemma SurvivesExactly(t: TopologyDefinition, targets: seq<ContainmentTarget>, shadow: TopologyDefinition,
                        store: Store, byEdge: ByEdge, current: FenceVector, now: nat, w: LoopWitness, maxHops: nat)
    requires IsShadowOf(t, targets, shadow)
    ensures IsLoop(Asked(shadow, store, byEdge, current, now), w, maxHops) <==>
            && IsLoop(Asked(t, store, byEdge, current, now), w, maxHops)
            && forall i :: 0 <= i < |w.hops| ==> NoneListed(t, targets, w, i)
  {
    if w.selectors != [] && |w.hops| == |w.cycle| {
      forall i | 0 <= i < |w.hops|
        ensures HopHolds(Asked(shadow, store, byEdge, current, now), w, i)
           <==> HopHolds(Asked(t, store, byEdge, current, now), w, i) && NoneListed(t, targets, w, i)
      {
        ShadowHop(t, targets, shadow, store, byEdge, current, now, w, i);
      }
      var q, r := Asked(t, store, byEdge, current, now), Asked(shadow, store, byEdge, current, now);
      assert HopsHold(r, w) <==> HopsHold(q, w) && forall i :: 0 <= i < |w.hops| ==> NoneListed(t, targets, w, i);
      assert DomainsOf(r, w.cycle) == DomainsOf(q, w.cycle);
    }
  }

  /** Every witness has, for each of its selectors, a hop that a target lists with that selector. */
  ghost predicate AllListed(t: TopologyDefinition, targets: seq<ContainmentTarget>, ws: seq<LoopWitness>) {
    forall v, s :: v in ws && s in v.selectors ==> SomeListed(t, targets, v, s)
  }

  ghost predicate SomeListed(t: TopologyDefinition, targets: seq<ContainmentTarget>, v: LoopWitness, s: nat) {
    exists i :: 0 <= i < |v.hops| && HopIsListed(t, targets, v, i, s)
  }

  /** A loop for some selectors is one for each of them alone. */
  lemma LoopForOne(q: Question, v: LoopWitness, maxHops: nat, s: nat)
    requires IsLoop(q, v, maxHops) && s in v.selectors
    ensures IsLoop(q, v.(selectors := [s]), maxHops)
  {
    var w := v.(selectors := [s]);
    forall i | 0 <= i < |w.cycle|
      ensures HopHolds(q, w, i)
    {
      assert HopHolds(q, v, i);
    }
  }

  ghost predicate NamesInScope(scope: seq<nat>, w: LoopWitness) {
    forall s :: s in w.selectors ==> InScope(scope, s)
  }

  ghost predicate NoLoopIn(q: Question, scope: seq<nat>, maxHops: nat) {
    forall w {:trigger IsLoop(q, w, maxHops)} :: NamesInScope(scope, w) ==> !IsLoop(q, w, maxHops)
  }

  /** Where witnesses cover every loop in scope, the shadow has no loop in scope left exactly when each witness is
      listed for each of its selectors. */
  lemma NoLoopSurvivesExactly(t: TopologyDefinition, targets: seq<ContainmentTarget>, shadow: TopologyDefinition,
                              store: Store, byEdge: ByEdge, current: FenceVector, now: nat, scope: seq<nat>,
                                ws: seq<LoopWitness>, maxHops: nat)
    requires IsShadowOf(t, targets, shadow)
    requires AllLoops(Asked(t, store, byEdge, current, now), ws, maxHops) && forall v :: v in ws ==>
             NamesInScope(scope, v)
    requires Covers(Asked(t, store, byEdge, current, now), scope, ws, maxHops)
    ensures NoLoopIn(Asked(shadow, store, byEdge, current, now), scope, maxHops) <==> AllListed(t, targets, ws)
  {
    var q, r := Asked(t, store, byEdge, current, now), Asked(shadow, store, byEdge, current, now);
    if AllListed(t, targets, ws) {
      forall w | NamesInScope(scope, w)
        ensures !IsLoop(r, w, maxHops)
      {
        SurvivesExactly(t, targets, shadow, store, byEdge, current, now, w, maxHops);
        if IsLoop(q, w, maxHops) {
          ListedIsGone(t, targets, q, scope, ws, w, maxHops);
        }
      }
    }
    if NoLoopIn(r, scope, maxHops) {
      forall v, s | v in ws && s in v.selectors
        ensures SomeListed(t, targets, v, s)
      {
        GoneIsListed(t, targets, shadow, store, byEdge, current, now, scope, v, s, maxHops);
      }
    }
  }

  /** A loop whose selectors all lost it in the shadow is listed with each of them. */
  lemma GoneIsListed(t: TopologyDefinition, targets: seq<ContainmentTarget>, shadow: TopologyDefinition, store: Store,
                     byEdge: ByEdge, current: FenceVector, now: nat, scope: seq<nat>, v: LoopWitness, s: nat,
                       maxHops: nat)
    requires IsShadowOf(t, targets, shadow) && NoLoopIn(Asked(shadow, store, byEdge, current, now), scope, maxHops)
    requires IsLoop(Asked(t, store, byEdge, current, now), v, maxHops) && s in v.selectors && NamesInScope(scope, v)
    ensures SomeListed(t, targets, v, s)
  {
    var w := v.(selectors := [s]);
    LoopForOne(Asked(t, store, byEdge, current, now), v, maxHops, s);
    SurvivesExactly(t, targets, shadow, store, byEdge, current, now, w, maxHops);
    assert NamesInScope(scope, w);
    var i :| 0 <= i < |w.hops| && !NoneListed(t, targets, w, i);
    assert HopIsListed(t, targets, v, i, s);
  }

  /** A covered loop whose witness is listed has a listed hop. */
  lemma ListedIsGone(t: TopologyDefinition, targets: seq<ContainmentTarget>, q: Question, scope: seq<nat>,
                     ws: seq<LoopWitness>, w: LoopWitness, maxHops: nat)
    requires AllListed(t, targets, ws) && Covers(q, scope, ws, maxHops) && IsLoop(q, w, maxHops)
             && NamesInScope(scope, w)
    ensures exists i :: 0 <= i < |w.hops| && !NoneListed(t, targets, w, i)
  {
    var v :| v in ws && v.cycle == w.cycle && v.hops == w.hops && forall s :: s in w.selectors ==> s in v.selectors;
    var s := w.selectors[0];
    assert s in w.selectors && SomeListed(t, targets, v, s);
    var i :| 0 <= i < |v.hops| && HopIsListed(t, targets, v, i, s);
    assert HopIsListed(t, targets, w, i, s);
    assert !NoneListed(t, targets, w, i);
  }

  // ----- Published plans break what they were made for -----

  predicate CyclesAscend(ws: seq<Confirmed>) {
    forall i {:trigger ws[i]} :: 0 <= i < |ws| ==> StrictlyIncreasing(ws[i].w.cycle)
  }

  /** An affirmative plan hits every witness with a target made for it. */
  lemma PublishedHits(a: Assessed, t: TopologyDefinition, policy: ContainmentPolicy, inst: Instance, keys: seq<nat>,
                      sol: Solution, plan: ContainmentPlan, i: nat)
    returns (k: nat)
    requires IsPublication(plan, a, t, policy, inst, keys, sol) && plan.IsAffirmative() && i < |a.witnesses|
    ensures k < |plan.targets| && TargetFits(t, a.witnesses, |a.witnesses|, plan.targets[k])
    ensures plan.targets[k].resource in a.witnesses[i].w.cycle
  {
    var draft :| Drafted(a, t, policy, sol, draft) && plan == Published(draft, a, t, policy);
    assert IsHitBy(a.witnesses[i].w, TargetResources(plan.targets));
    var r :| r in a.witnesses[i].w.cycle && r in TargetResources(plan.targets);
    k :| 0 <= k < |plan.targets| && TargetResources(plan.targets)[k] == r;
  }

  /** Where cycles ascend, some hop of every witness is listed with every one of its selectors. */
  lemma WitnessIsListed(a: Assessed, t: TopologyDefinition, policy: ContainmentPolicy, inst: Instance, keys: seq<nat>,
                        sol: Solution, plan: ContainmentPlan, i: nat)
    returns (p: nat)
    requires IsPublication(plan, a, t, policy, inst, keys, sol) && plan.IsAffirmative() && i < |a.witnesses|
    requires CyclesAscend(a.witnesses) && HopsMatch(a.witnesses)
    ensures p < |a.witnesses[i].w.hops|
    ensures EdgeIndex(t.edges, a.witnesses[i].w.hops[p]).Some? ==>
              forall s :: s in a.witnesses[i].w.selectors ==> HopIsListed(t, plan.targets, a.witnesses[i].w, p, s)
  {
    var w := a.witnesses[i].w;
    var k := PublishedHits(a, t, policy, inst, keys, sol, plan, i);
    var target := plan.targets[k];
    p :| 0 <= p < |w.cycle| && w.cycle[p] == target.resource;
    StrictIsNondecreasing(w.cycle);
    SortedIsFound(w.cycle, target.resource);
    assert Touches(w, p, target.resource);
    assert TouchesHop(w, target.resource, |w.cycle|, w.hops[p]);
    assert NamesHop(a.witnesses, |a.witnesses|, target.resource, w.hops[p]);
    assert w.hops[p] in target.affectedHops;
    var j :| 0 <= j < |target.affectedHops| && target.affectedHops[j] == w.hops[p];
    if EdgeIndex(t.edges, w.hops[p]).Some? {
      var e := EdgeIndex(t.edges, w.hops[p]).value;
      forall s | s in w.selectors
        ensures HopIsListed(t, plan.targets, w, p, s)
      {
        assert NamesSelector(a.witnesses, |a.witnesses|, target.resource, s);
        assert s in target.selectors;
        assert ListedBy(t.edges, target, |target.affectedHops|, e, s);
        assert IsListed(t.edges, plan.targets, |plan.targets|, e, s);
      }
    }
  }

  /** Where cycles ascend, an affirmative plan lists every witness it was made for, for each of its selectors. */
  lemma AscendingAreListed(a: Assessed, t: TopologyDefinition, policy: ContainmentPolicy, inst: Instance,
                           keys: seq<nat>, sol: Solution, plan: ContainmentPlan, ws: seq<LoopWitness>, q: Question,
                             maxHops: nat)
    requires IsPublication(plan, a, t, policy, inst, keys, sol) && plan.IsAffirmative() && CyclesAscend(a.witnesses)
    requires |ws| == |a.witnesses| && forall i {:trigger ws[i]} :: 0 <= i < |ws| ==> a.witnesses[i].w == ws[i]
    requires q.t == t && AllLoops(q, ws, maxHops)
    ensures AllListed(t, plan.targets, ws)
  {
    forall i | 0 <= i < |a.witnesses|
      ensures |a.witnesses[i].w.hops| == |a.witnesses[i].w.cycle|
    {
      assert ws[i] in ws;
    }
    forall v, s | v in ws && s in v.selectors
      ensures SomeListed(t, plan.targets, v, s)
    {
      var i :| 0 <= i < |ws| && ws[i] == v;
      assert a.witnesses[i].w == v;
      var p := WitnessIsListed(a, t, policy, inst, keys, sol, plan, i);
      assert HopHolds(q, v, p);
      assert HopIsListed(t, plan.targets, v, p, s);
    }
  }

  /** A request over a definition whose states are known, with budget for the whole search and for validating what it
      finds; an affirmative plan for the witnesses assessed; and cycles that ascend: in the shadow of that plan no loop
      in scope is left. */
  lemma AssessedLoopsAreGone(la: LoopAssessment, limits: WitnessSearch.Limits, a: Assessed, t: TopologyDefinition,
                             policy: ContainmentPolicy, inst: Instance, keys: seq<nat>, sol: Solution,
                               plan: ContainmentPlan, shadow: TopologyDefinition, store: Store, byEdge: ByEdge,
                               fence: FenceVector, now: nat, scope: seq<nat>)
    requires IsPosed(Asked(t, store, byEdge, fence, now)) && Sane(limits) && Clean(t)
    requires AssessmentHolds(Asked(t, store, byEdge, fence, now), scope, limits, la)
    requires HasBudget(Asked(t, store, byEdge, fence, now), scope, limits)
    requires |la.witnesses| == |a.witnesses| && forall i {:trigger la.witnesses[i]} :: 0 <= i < |la.witnesses| ==>
             a.witnesses[i].w == la.witnesses[i]
    requires IsPublication(plan, a, t, policy, inst, keys, sol) && plan.IsAffirmative() && CyclesAscend(a.witnesses)
    requires IsShadowOf(t, plan.targets, shadow)
    ensures NoLoopIn(Asked(shadow, store, byEdge, fence, now), scope, limits.maxWitnessHops)
  {
    var q := Asked(t, store, byEdge, fence, now);
    EnoughBudget(q, scope, limits, la);
    KeptAreInScope(q, scope, limits, la);
    AscendingAreListed(a, t, policy, inst, keys, sol, plan, la.witnesses, q, limits.maxWitnessHops);
    NoLoopSurvivesExactly(t, plan.targets, shadow, store, byEdge, fence, now, scope, la.witnesses,
                          limits.maxWitnessHops);
  }
}
