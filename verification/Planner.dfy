/** The containment planner: from confirmed witnesses to targets, and the validator that re-derives its claims. */
module Planner {
  import opened Lists
  import opened Topology
  import opened Order
  import opened Evidence
  import opened Witness
  import opened HittingSet
  import opened HittingSetSolver

  datatype ContainmentPolicy = ContainmentPolicy(
    generation: nat, maxTargets: nat, maxTotalCost: nat, eligibleKinds: seq<nat>, eligibleDomains: seq<nat>,
    allowCrossDomain: bool, maxSearchNodes: nat)

  /** A witness under the identity the assessment gives it. */
  datatype Confirmed = Confirmed(id: nat, w: LoopWitness)

  datatype ContainmentTarget = ContainmentTarget(
    resource: nat, domain: nat, cost: nat, selectors: seq<nat>, affectedHops: seq<nat>)

  /** The identity of the witness that cannot be broken, and its cycle. */
  datatype Certificate = Certificate(named: nat, cycle: seq<nat>)

  datatype ContainmentPlan = ContainmentPlan(
    fence: FenceVector, policyGeneration: nat, outcome: ContainmentOutcome, targets: seq<ContainmentTarget>,
    totalCost: nat, certificate: Option<Certificate>, withinPolicyBudget: bool)
  {
    predicate IsAffirmative() {
      outcome == PlanOptimal || outcome == PlanFeasible
    }

    predicate AuthorizesAction() {
      outcome == PlanOptimal && withinPolicyBudget && targets != []
    }
  }

  datatype PlanLimits = PlanLimits(maxPlanTargets: nat, maxSearchNodes: nat)

  datatype Planned = Plan(plan: ContainmentPlan) | RefusedUnsupported | RefusedInvalid | RefusedStale | RefusedExhausted

  // ----- Eligibility -----

  predicate MayContain(t: TopologyDefinition, policy: ContainmentPolicy, r: nat) {
    var record := FindResource(t.resources, r);
    && record.Some? && record.value.containable
    && BinarySearch(policy.eligibleKinds, record.value.kind)
    && (policy.eligibleDomains == [] || BinarySearch(policy.eligibleDomains, record.value.domain))
  }

  function CostIn(t: TopologyDefinition, r: nat): nat {
    var record := FindResource(t.resources, r);
    if record.Some? then record.value.containmentCost else 0
  }

  predicate Eligible(t: TopologyDefinition, policy: ContainmentPolicy, r: nat) {
    MayContain(t, policy, r) && CostIn(t, r) != 0
  }

  predicate Admissible(policy: ContainmentPolicy, w: LoopWitness) {
    policy.allowCrossDomain || !w.crossesDomains
  }

  /** What containment may use to break a witness. */
  predicate MayBreak(t: TopologyDefinition, policy: ContainmentPolicy, w: LoopWitness, r: nat) {
    Admissible(policy, w) && r in w.cycle && Eligible(t, policy, r)
  }

  predicate Unbreakable(t: TopologyDefinition, policy: ContainmentPolicy, w: LoopWitness) {
    forall r :: r in w.cycle ==> !MayBreak(t, policy, w, r)
  }

  // ----- The instance -----

  function ChoicesOf(t: TopologyDefinition, keys: seq<nat>): seq<Choice> {
    seq(|keys|, i requires 0 <= i < |keys| => Choice(keys[i], CostIn(t, keys[i])))
  }

  ghost predicate SetFits(t: TopologyDefinition, policy: ContainmentPolicy, w: LoopWitness, set_: seq<nat>) {
    forall r :: r in set_ <==> MayBreak(t, policy, w, r)
  }

  ghost predicate SetsFit(t: TopologyDefinition, policy: ContainmentPolicy, ws: seq<Confirmed>, sets: seq<seq<nat>>,
                          n: nat) {
    n <= |ws| && |sets| == n && forall i {:trigger sets[i]} {:trigger ws[i]} :: 0 <= i < n ==>
      SetFits(t, policy, ws[i].w, sets[i])
  }

  ghost predicate KeysFit(sets: seq<seq<nat>>, keys: seq<nat>) {
    StrictlyIncreasing(keys) && forall r :: r in keys <==> exists i :: 0 <= i < |sets| && r in sets[i]
  }

  /** The instance asks to hit every witness with what may break it. */
  ghost predicate InstanceFits(t: TopologyDefinition, policy: ContainmentPolicy, ws: seq<Confirmed>, inst: Instance,
                               keys: seq<nat>) {
    && SetsFit(t, policy, ws, inst.sets, |ws|) && KeysFit(inst.sets, keys)
    && inst.options == ChoicesOf(t, keys)
  }

  method EligibleOn(t: TopologyDefinition, policy: ContainmentPolicy, w: LoopWitness) returns (set_: seq<nat>)
    ensures SetFits(t, policy, w, set_)
  {
    set_ := [];
    if Admissible(policy, w) {
      for k := 0 to |w.cycle|
        invariant forall r :: r in set_ <==> r in w.cycle[..k] && Eligible(t, policy, r)
      {
        assert w.cycle[..k + 1] == w.cycle[..k] + [w.cycle[k]];
        if Eligible(t, policy, w.cycle[k]) {
          set_ := InsertUnique(set_, w.cycle[k]);
        }
      }
      assert w.cycle[..|w.cycle|] == w.cycle;
    }
  }

  method BuildInstance(t: TopologyDefinition, policy: ContainmentPolicy, ws: seq<Confirmed>, budget: nat)
    returns (inst: Instance, ghost keys: seq<nat>)
    ensures InstanceFits(t, policy, ws, inst, keys) && inst.maxSearchNodes == budget
  {
    var sets, known: seq<nat> := [], [];
    for k := 0 to |ws|
      invariant SetsFit(t, policy, ws, sets, k) && KeysFit(sets, known)
    {
      var set_ := EligibleOn(t, policy, ws[k].w);
      InsertAllAscends(known, set_);
      known := InsertAll(known, set_);
      ghost var before := sets;
      sets := sets + [set_];
      assert forall r :: (exists i :: 0 <= i < |sets| && r in sets[i]) <==>
             (exists i :: 0 <= i < |before| && r in before[i]) || r in set_ by {
        assert sets[|before|] == set_ && forall i :: 0 <= i < |before| ==> sets[i] == before[i];
      }
    }
    keys := known;
    inst := Instance(sets, ChoicesOf(t, known), budget);
  }

  // ----- What a selection of options amounts to -----

  function SumOf(t: TopologyDefinition, ids: seq<nat>): nat {
    if ids == [] then 0 else SumOf(t, ids[..|ids| - 1]) + CostIn(t, ids[|ids| - 1])
  }

  lemma SumAppends(t: TopologyDefinition, ids: seq<nat>, r: nat)
    ensures SumOf(t, ids + [r]) == SumOf(t, ids) + CostIn(t, r)
  {
    assert (ids + [r])[..|ids|] == ids;
  }

  /** One more option, taken or not. */
  lemma OneMoreOption(t: TopologyDefinition, keys: seq<nat>, x: set<nat>, n: nat)
    requires n < |keys|
    ensures var options := ChoicesOf(t, keys);
            && ResourcesBelow(options, x, n + 1) == ResourcesBelow(options, x, n) + (if n in x then [keys[n]] else [])
            && CostBelow(options, x, n + 1) == CostBelow(options, x, n) + (if n in x then CostIn(t, keys[n]) else 0)
  {
  }

  ghost predicate IsSelected(keys: seq<nat>, x: set<nat>, n: nat, r: nat) {
    exists o :: o in x && o < n && o < |keys| && keys[o] == r
  }

  lemma {:induction false} SelectionCosts(t: TopologyDefinition, keys: seq<nat>, x: set<nat>, n: nat)
    requires n <= |keys|
    ensures SumOf(t, ResourcesBelow(ChoicesOf(t, keys), x, n)) == CostBelow(ChoicesOf(t, keys), x, n)
  {
    if n > 0 {
      SelectionCosts(t, keys, x, n - 1);
      OneMoreOption(t, keys, x, n - 1);
      var ids := ResourcesBelow(ChoicesOf(t, keys), x, n - 1);
      SumAppends(t, ids, keys[n - 1]);
      assert ids + [] == ids;
    }
  }

  lemma {:induction false} SelectionLists(t: TopologyDefinition, keys: seq<nat>, x: set<nat>, n: nat, r: nat)
    requires n <= |keys|
    ensures r in ResourcesBelow(ChoicesOf(t, keys), x, n) <==> IsSelected(keys, x, n, r)
  {
    if n > 0 {
      SelectionLists(t, keys, x, n - 1, r);
      OneMoreOption(t, keys, x, n - 1);
      assert IsSelected(keys, x, n, r) <==> IsSelected(keys, x, n - 1, r) || (n - 1 in x && keys[n - 1] == r);
    }
  }

  lemma SelectionAddsUp(t: TopologyDefinition, keys: seq<nat>, x: set<nat>, n: nat)
    requires n <= |keys|
    ensures SumOf(t, ResourcesBelow(ChoicesOf(t, keys), x, n)) == CostBelow(ChoicesOf(t, keys), x, n)
    ensures forall r :: r in ResourcesBelow(ChoicesOf(t, keys), x, n) <==> IsSelected(keys, x, n, r)
  {
    SelectionCosts(t, keys, x, n);
    forall r: nat
      ensures r in ResourcesBelow(ChoicesOf(t, keys), x, n) <==> IsSelected(keys, x, n, r)
    {
      SelectionLists(t, keys, x, n, r);
    }
  }

  lemma {:induction false} SelectionAscends(t: TopologyDefinition, keys: seq<nat>, x: set<nat>, n: nat)
    requires n <= |keys| && StrictlyIncreasing(keys)
    ensures StrictlyIncreasing(ResourcesBelow(ChoicesOf(t, keys), x, n))
  {
    if n > 0 {
      SelectionAscends(t, keys, x, n - 1);
      SelectionAddsUp(t, keys, x, n - 1);
      OneMoreOption(t, keys, x, n - 1);
      var ids := ResourcesBelow(ChoicesOf(t, keys), x, n - 1);
      forall i | 0 <= i < |ids|
        ensures ids[i] < keys[n - 1]
      {
        assert ids[i] in ids;
      }
    }
  }

  lemma TargetsAreInOrder(t: TopologyDefinition, keys: seq<nat>, x: set<nat>)
    requires StrictlyIncreasing(keys)
    ensures TargetsOf(ChoicesOf(t, keys), x) == ResourcesBelow(ChoicesOf(t, keys), x, |keys|)
  {
    SelectionAscends(t, keys, x, |keys|);
    var ids := ResourcesBelow(ChoicesOf(t, keys), x, |keys|);
    SortIdsAscends(ids);
    StrictIsNondecreasing(ids);
    AscendingIsUnique(SortIds(ids), ids);
  }

  /** What the solver reaches is an ordered list of keys that hits every set at its own total cost. */
  lemma ReachedIsHonest(t: TopologyDefinition, policy: ContainmentPolicy, ws: seq<Confirmed>, inst: Instance,
                        keys: seq<nat>, targets: seq<nat>, cost: nat)
    requires InstanceFits(t, policy, ws, inst, keys) && IsReached(inst, targets, cost)
    ensures StrictlyIncreasing(targets) && SumOf(t, targets) == cost
    ensures forall r :: r in targets ==> r in keys
    ensures forall i :: 0 <= i < |ws| ==> IsBroken(t, policy, ws[i].w, targets)
  {
    var x :| IsHittingSet(inst, x) && TargetsOf(inst.options, x) == targets && CostOf(inst.options, x) == cost;
    TargetsAreInOrder(t, keys, x);
    SelectionAscends(t, keys, x, |keys|);
    SelectionAddsUp(t, keys, x, |keys|);
    forall i | 0 <= i < |ws|
      ensures IsBroken(t, policy, ws[i].w, targets)
    {
      assert HitsSet(inst, x, i);
      var o :| o in x && o < |inst.options| && inst.options[o].resource in inst.sets[i];
      assert keys[o] in targets && MayBreak(t, policy, ws[i].w, keys[o]);
    }
  }

  ghost predicate IsBroken(t: TopologyDefinition, policy: ContainmentPolicy, w: LoopWitness, targets: seq<nat>) {
    exists r :: r in targets && MayBreak(t, policy, w, r)
  }

  lemma KeysAreDistinct(t: TopologyDefinition, keys: seq<nat>)
    requires StrictlyIncreasing(keys)
    ensures OptionsDistinct(ChoicesOf(t, keys))
  {
  }

  /** The sets that no option hits are the witnesses that nothing may break. */
  lemma UnhittableIsUnbreakable(t: TopologyDefinition, policy: ContainmentPolicy, ws: seq<Confirmed>, inst: Instance,
                                keys: seq<nat>, i: nat)
    requires InstanceFits(t, policy, ws, inst, keys) && i < |ws|
    ensures CannotHit(inst, i) <==> Unbreakable(t, policy, ws[i].w)
  {
    if !Unbreakable(t, policy, ws[i].w) {
      var r :| r in ws[i].w.cycle && MayBreak(t, policy, ws[i].w, r);
      assert r in inst.sets[i];
      assert r in keys;
      var o :| 0 <= o < |keys| && keys[o] == r;
      assert inst.options[o].resource in inst.sets[i];
    }
    if Unbreakable(t, policy, ws[i].w) {
      assert forall r :: r in inst.sets[i] ==> MayBreak(t, policy, ws[i].w, r);
    }
  }

  // ----- Targets -----

  /** Hop `k` of the witness enters or leaves the resource. */
  predicate Touches(w: LoopWitness, k: nat, r: nat)
    requires k < |w.cycle|
  {
    w.cycle[k] == r || Successor(w.cycle, k) == r
  }

  ghost predicate NamesSelector(ws: seq<Confirmed>, n: nat, r: nat, s: nat) {
    exists i :: 0 <= i < n <= |ws| && BinarySearch(ws[i].w.cycle, r) && s in ws[i].w.selectors
  }

  ghost predicate TouchesHop(w: LoopWitness, r: nat, n: nat, h: nat) {
    exists k :: 0 <= k < n && k < |w.cycle| && k < |w.hops| && Touches(w, k, r) && w.hops[k] == h
  }

  ghost predicate NamesHop(ws: seq<Confirmed>, n: nat, r: nat, h: nat) {
    exists i :: 0 <= i < n <= |ws| && BinarySearch(ws[i].w.cycle, r) && TouchesHop(ws[i].w, r, |ws[i].w.cycle|, h)
  }

  /** The selectors of the witnesses the resource is found on, and their hops that touch it. */
  ghost predicate TargetFits(t: TopologyDefinition, ws: seq<Confirmed>, n: nat, target: ContainmentTarget) {
    && StrictlyIncreasing(target.selectors) && StrictlyIncreasing(target.affectedHops)
    && (forall s {:trigger s in target.selectors} :: s in target.selectors <==>
        NamesSelector(ws, n, target.resource, s))
    && (forall h {:trigger h in target.affectedHops} :: h in target.affectedHops <==>
        NamesHop(ws, n, target.resource, h))
  }

  method HopsAt(w: LoopWitness, r: nat, before: seq<nat>) returns (hops: seq<nat>)
    requires |w.hops| == |w.cycle| && StrictlyIncreasing(before)
    ensures StrictlyIncreasing(hops)
    ensures forall h :: h in hops <==> h in before || TouchesHop(w, r, |w.cycle|, h)
  {
    hops := before;
    for k := 0 to |w.cycle|
      invariant StrictlyIncreasing(hops)
      invariant forall h :: h in hops <==> h in before || TouchesHop(w, r, k, h)
    {
      InsertUniqueAscends(hops, w.hops[k]);
      if Touches(w, k, r) {
        hops := InsertUnique(hops, w.hops[k]);
      }
      forall h
        ensures TouchesHop(w, r, k + 1, h) <==> TouchesHop(w, r, k, h) || (Touches(w, k, r) && w.hops[k] == h)
      {
      }
    }
  }

  predicate HopsMatch(ws: seq<Confirmed>) {
    forall i {:trigger ws[i]} :: 0 <= i < |ws| ==> |ws[i].w.hops| == |ws[i].w.cycle|
  }

  lemma OneMoreWitness(ws: seq<Confirmed>, n: nat, r: nat)
    requires n < |ws|
    ensures forall s :: NamesSelector(ws, n + 1, r, s) <==>
            NamesSelector(ws, n, r, s) || (BinarySearch(ws[n].w.cycle, r) && s in ws[n].w.selectors)
    ensures forall h :: NamesHop(ws, n + 1, r, h) <==>
                   NamesHop(ws, n, r, h)
                     || (BinarySearch(ws[n].w.cycle, r) && TouchesHop(ws[n].w, r, |ws[n].w.cycle|, h))
  {
  }

  method BuildTarget(t: TopologyDefinition, ws: seq<Confirmed>, r: nat) returns (target: ContainmentTarget)
    requires HopsMatch(ws) && FindResource(t.resources, r).Some?
    ensures TargetFits(t, ws, |ws|, target) && target.resource == r
    ensures target.domain == FindResource(t.resources, r).value.domain && target.cost == CostIn(t, r)
  {
    var selectors: seq<nat>, hops: seq<nat> := [], [];
    target := ContainmentTarget(r, FindResource(t.resources, r).value.domain, CostIn(t, r), selectors, hops);
    for n := 0 to |ws|
      invariant target == ContainmentTarget(r, FindResource(t.resources, r).value.domain, CostIn(t, r), selectors, hops)
      invariant TargetFits(t, ws, n, target)
    {
      OneMoreWitness(ws, n, r);
      if BinarySearch(ws[n].w.cycle, r) {
        InsertAllAscends(selectors, ws[n].w.selectors);
        selectors := InsertAll(selectors, ws[n].w.selectors);
        hops := HopsAt(ws[n].w, r, hops);
        target := target.(selectors := selectors, affectedHops := hops);
      }
    }
  }

  /** The edge of this identity enters or leaves the resource. */
  predicate Joins(t: TopologyDefinition, h: nat, r: nat) {
    var at := EdgeIndex(t.edges, h);
    at.Some? && (t.edges[at.value].from == r || t.edges[at.value].to == r)
  }

  lemma TouchedAreJoined(q: Question, w: LoopWitness, maxHops: nat, r: nat, h: nat)
    requires IsLoop(q, w, maxHops)
    ensures TouchesHop(w, r, |w.cycle|, h) <==> h in w.hops && Joins(q.t, h, r)
  {
    forall k | 0 <= k < |w.cycle|
      ensures Touches(w, k, r) <==> Joins(q.t, w.hops[k], r)
    {
      assert HopHolds(q, w, k);
    }
    if h in w.hops && Joins(q.t, h, r) {
      var k :| 0 <= k < |w.hops| && w.hops[k] == h;
      assert Touches(w, k, r);
    }
  }

  /** A target made for loops lists the hops that enter or leave the resource on the loops it is found on, and no
      others. */
  lemma TargetDecides(q: Question, ws: seq<Confirmed>, maxHops: nat, target: ContainmentTarget, h: nat)
    requires TargetFits(q.t, ws, |ws|, target)
    requires forall i {:trigger ws[i]} :: 0 <= i < |ws| ==> IsLoop(q, ws[i].w, maxHops)
    ensures h in target.affectedHops <==>
            Joins(q.t, h, target.resource)
            && exists i :: 0 <= i < |ws| && BinarySearch(ws[i].w.cycle, target.resource) && h in ws[i].w.hops
  {
    forall i | 0 <= i < |ws|
      ensures TouchesHop(ws[i].w, target.resource, |ws[i].w.cycle|, h) <==>
              h in ws[i].w.hops && Joins(q.t, h, target.resource)
    {
      TouchedAreJoined(q, ws[i].w, maxHops, target.resource, h);
    }
  }

  /** One target for each resource, in the same order. */
  ghost predicate TargetsFit(t: TopologyDefinition, ws: seq<Confirmed>, ids: seq<nat>,
                             targets: seq<ContainmentTarget>) {
    && |targets| == |ids|
    && forall i {:trigger targets[i]} {:trigger ids[i]} :: 0 <= i < |ids| ==>
         TargetFits(t, ws, |ws|, targets[i]) && targets[i].resource == ids[i] && targets[i].cost == CostIn(t, ids[i])
  }

  /** The sort by resource: a target goes before the larger ones. */
  function InsertTarget(targets: seq<ContainmentTarget>, target: ContainmentTarget): (r: seq<ContainmentTarget>)
    ensures (forall i :: 0 <= i < |targets| ==> targets[i].resource <= target.resource) ==> r == targets + [target]
  {
    if targets == [] then [target] else
      var last := |targets| - 1;
      if target.resource < targets[last].resource then InsertTarget(targets[..last], target) + [targets[last]]
      else targets + [target]
  }

  method BuildTargets(t: TopologyDefinition, ws: seq<Confirmed>, ids: seq<nat>)
    returns (targets: seq<ContainmentTarget>)
    requires HopsMatch(ws) && StrictlyIncreasing(ids) && forall r :: r in ids ==> FindResource(t.resources, r).Some?
    ensures TargetsFit(t, ws, ids, targets)
  {
    targets := [];
    for k := 0 to |ids|
      invariant TargetsFit(t, ws, ids[..k], targets)
    {
      assert ids[..k + 1] == ids[..k] + [ids[k]];
      var target := BuildTarget(t, ws, ids[k]);
      assert forall i :: 0 <= i < k ==> targets[i].resource == ids[..k][i];
      targets := InsertTarget(targets, target);
    }
    assert ids[..|ids|] == ids;
  }
}
