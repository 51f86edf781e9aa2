/** Publishing a containment plan: the validator, and the planner that submits its own plan to it. */
module Containment {
  import opened Lists
  import opened Topology
  import opened Order
  import opened Evidence
  import opened Witness
  import opened HittingSet
  import opened HittingSetSolver
  import opened Planner

  /** What the planner reads of an assessment. */
  datatype Assessed = Assessed(confirmed: bool, fence: FenceVector, witnesses: seq<Confirmed>)

  // ----- The validator -----

  function TargetResources(targets: seq<ContainmentTarget>): (r: seq<nat>)
    ensures |r| == |targets|
  {
    seq(|targets|, i requires 0 <= i < |targets| => targets[i].resource)
  }

  function TargetCosts(targets: seq<ContainmentTarget>): nat {
    if targets == [] then 0 else TargetCosts(targets[..|targets| - 1]) + targets[|targets| - 1].cost
  }

  /** The halving search finds the resource on some witness. */
  ghost predicate IsImplicated(ws: seq<Confirmed>, r: nat) {
    exists i :: 0 <= i < |ws| && BinarySearch(ws[i].w.cycle, r)
  }

  ghost predicate IsHitBy(w: LoopWitness, ids: seq<nat>) {
    exists r :: r in w.cycle && r in ids
  }

  ghost predicate TargetClaimHolds(ws: seq<Confirmed>, t: TopologyDefinition, policy: ContainmentPolicy,
                                   target: ContainmentTarget) {
    MayContain(t, policy, target.resource) && target.cost == CostIn(t, target.resource)
      && IsImplicated(ws, target.resource)
  }

  /** Ordered, eligible, implicated targets at their true cost that hit every witness. */
  ghost predicate TargetsClaimHolds(plan: ContainmentPlan, ws: seq<Confirmed>, t: TopologyDefinition,
                                    policy: ContainmentPolicy) {
    && plan.targets != [] && StrictlyIncreasing(TargetResources(plan.targets))
    && (forall k {:trigger plan.targets[k]} :: 0 <= k < |plan.targets| ==>
        TargetClaimHolds(ws, t, policy, plan.targets[k]))
    && plan.totalCost == TargetCosts(plan.targets)
    && forall i {:trigger ws[i]} :: 0 <= i < |ws| ==> IsHitBy(ws[i].w, TargetResources(plan.targets))
  }

  ghost predicate IsFirstNamed(ws: seq<Confirmed>, id: nat, i: nat) {
    i < |ws| && ws[i].id == id && forall k :: 0 <= k < i ==> ws[k].id != id
  }

  ghost predicate NoneMayContain(t: TopologyDefinition, policy: ContainmentPolicy, w: LoopWitness) {
    forall r :: r in w.cycle ==> !MayContain(t, policy, r)
  }

  /** The first witness of the certificate's identity has no resource that may be contained. */
  ghost predicate CertificateHolds(plan: ContainmentPlan, ws: seq<Confirmed>, t: TopologyDefinition,
                                   policy: ContainmentPolicy) {
    plan.certificate.Some? && exists i: nat ::
      IsFirstNamed(ws, plan.certificate.value.named, i) && NoneMayContain(t, policy, ws[i].w)
  }

  ghost predicate ClaimsHold(plan: ContainmentPlan, a: Assessed, t: TopologyDefinition, policy: ContainmentPolicy) {
    && plan.fence == a.fence && plan.policyGeneration == policy.generation
    && (if plan.IsAffirmative() then TargetsClaimHolds(plan, a.witnesses, t, policy)
        else
          && plan.targets == []
          && (plan.outcome == ProvenInfeasible ==> CertificateHolds(plan, a.witnesses, t, policy)))
  }

  method FirstNamed(ws: seq<Confirmed>, id: nat) returns (r: Option<nat>)
    ensures r.Some? ==> IsFirstNamed(ws, id, r.value)
    ensures r.None? ==> forall i :: 0 <= i < |ws| ==> ws[i].id != id
  {
    for i := 0 to |ws|
      invariant forall k :: 0 <= k < i ==> ws[k].id != id
    {
      if ws[i].id == id {
        return Some(i);
      }
    }
    return None;
  }

  method SomeMayBeContained(t: TopologyDefinition, policy: ContainmentPolicy, w: LoopWitness) returns (any: bool)
    ensures any <==> !NoneMayContain(t, policy, w)
  {
    any := false;
    for k := 0 to |w.cycle|
      invariant forall i :: 0 <= i < k ==> !MayContain(t, policy, w.cycle[i])
    {
      if MayContain(t, policy, w.cycle[k]) {
        return true;
      }
    }
  }

  method CheckCertificate(plan: ContainmentPlan, ws: seq<Confirmed>, t: TopologyDefinition, policy: ContainmentPolicy)
    returns (valid: bool)
    ensures valid <==> CertificateHolds(plan, ws, t, policy)
  {
    if plan.certificate.None? {
      return false;
    }
    var first := FirstNamed(ws, plan.certificate.value.named);
    if first.None? {
      return false;
    }
    var any := SomeMayBeContained(t, policy, ws[first.value].w);
    assert forall i :: IsFirstNamed(ws, plan.certificate.value.named, i) ==> i == first.value;
    return !any;
  }

  method FoundOnSome(ws: seq<Confirmed>, r: nat) returns (found: bool)
    ensures found <==> IsImplicated(ws, r)
  {
    found := false;
    for i := 0 to |ws|
      invariant forall k :: 0 <= k < i ==> !BinarySearch(ws[k].w.cycle, r)
    {
      if BinarySearch(ws[i].w.cycle, r) {
        return true;
      }
    }
  }

  /** Canonical order without repetition, checked between neighbours. */
  method InStrictOrder(targets: seq<ContainmentTarget>) returns (ordered: bool)
    ensures ordered <==> StrictlyIncreasing(TargetResources(targets))
  {
    ghost var ids := TargetResources(targets);
    if targets == [] {
      return true;
    }
    for k := 1 to |targets|
      invariant StrictlyIncreasing(ids[..k])
    {
      if targets[k - 1].resource >= targets[k].resource {
        assert ids[k - 1] >= ids[k];
        return false;
      }
      assert forall i :: 0 <= i < k ==> ids[..k][i] <= ids[..k][k - 1];
      assert ids[..k + 1] == ids[..k] + [ids[k]];
    }
    assert ids[..|ids|] == ids;
    return true;
  }

  method CheckHits(ws: seq<Confirmed>, chosen: seq<nat>) returns (all: bool)
    requires StrictlyIncreasing(chosen)
    ensures all <==> forall i {:trigger ws[i]} :: 0 <= i < |ws| ==> IsHitBy(ws[i].w, chosen)
  {
    StrictIsNondecreasing(chosen);
    for i := 0 to |ws|
      invariant forall k {:trigger ws[k]} :: 0 <= k < i ==> IsHitBy(ws[k].w, chosen)
    {
      var hit := false;
      for k := 0 to |ws[i].w.cycle|
        invariant hit ==> IsHitBy(ws[i].w, chosen)
        invariant !hit ==> forall m :: 0 <= m < k ==> ws[i].w.cycle[m] !in chosen
      {
        SortedIsFound(chosen, ws[i].w.cycle[k]);
        hit := hit || BinarySearch(chosen, ws[i].w.cycle[k]);
      }
      if !hit {
        return false;
      }
    }
    return true;
  }

  /** Every target by itself, and what they cost together. */
  method CheckEachTarget(targets: seq<ContainmentTarget>, ws: seq<Confirmed>, t: TopologyDefinition,
                         policy: ContainmentPolicy)
    returns (valid: bool, total: nat)
    ensures valid
            <==> forall k {:trigger targets[k]} :: 0 <= k < |targets| ==> TargetClaimHolds(ws, t, policy, targets[k])
    ensures valid ==> total == TargetCosts(targets)
  {
    total := 0;
    for k := 0 to |targets|
      invariant forall i {:trigger targets[i]} :: 0 <= i < k ==> TargetClaimHolds(ws, t, policy, targets[i])
      invariant total == TargetCosts(targets[..k])
    {
      var found := FoundOnSome(ws, targets[k].resource);
      if !MayContain(t, policy, targets[k].resource) || targets[k].cost != CostIn(t, targets[k].resource) || !found {
        return false, total;
      }
      assert targets[..k + 1][..k] == targets[..k];
      total := total + CostIn(t, targets[k].resource);
    }
    assert targets[..|targets|] == targets;
    return true, total;
  }

  method CheckTargets(plan: ContainmentPlan, ws: seq<Confirmed>, t: TopologyDefinition, policy: ContainmentPolicy)
    returns (valid: bool)
    ensures valid <==> TargetsClaimHolds(plan, ws, t, policy)
  {
    if plan.targets == [] {
      return false;
    }
    var ordered := InStrictOrder(plan.targets);
    if !ordered {
      return false;
    }
    var total;
    valid, total := CheckEachTarget(plan.targets, ws, t, policy);
    if !valid {
      return;
    }
    var all := CheckHits(ws, TargetResources(plan.targets));
    return total == plan.totalCost && all;
  }

  /** Accepts a plan exactly when everything it claims holds. */
  method ValidatePlan(plan: ContainmentPlan, a: Assessed, t: TopologyDefinition, policy: ContainmentPolicy)
    returns (valid: bool)
    ensures valid <==> ClaimsHold(plan, a, t, policy)
  {
    if plan.fence != a.fence || plan.policyGeneration != policy.generation {
      return false;
    }
    if plan.outcome == ProvenInfeasible {
      valid := CheckCertificate(plan, a.witnesses, t, policy);
      return valid && plan.targets == [];
    }
    if !plan.IsAffirmative() {
      return plan.targets == [];
    }
    valid := CheckTargets(plan, a.witnesses, t, policy);
  }

  // ----- The planner -----

  /** The plan before it is validated. */
  ghost predicate Drafted(a: Assessed, t: TopologyDefinition, policy: ContainmentPolicy, sol: Solution,
                          draft: ContainmentPlan) {
    && draft.fence == a.fence && draft.policyGeneration == policy.generation
    && draft.outcome == sol.outcome
    && (if draft.IsAffirmative() then
          TargetsFit(t, a.witnesses, sol.targets, draft.targets) && draft.totalCost == sol.totalCost
        else draft.targets == [])
    && (draft.withinPolicyBudget <==>
        draft.IsAffirmative() && |draft.targets| <= policy.maxTargets && draft.totalCost <= policy.maxTotalCost)
    && (sol.outcome == ProvenInfeasible && sol.unhittableSet < |a.witnesses| ==>
          draft.certificate
            == Some(Certificate(a.witnesses[sol.unhittableSet].id, a.witnesses[sol.unhittableSet].w.cycle)))
  }

  lemma FittingTargetsAddUp(t: TopologyDefinition, ws: seq<Confirmed>, ids: seq<nat>, targets: seq<ContainmentTarget>)
    requires TargetsFit(t, ws, ids, targets)
    ensures TargetResources(targets) == ids
    ensures TargetCosts(targets) == SumOf(t, ids)
  {
    CostsAddUp(t, ids, targets, |ids|);
    assert ids[..|ids|] == ids && targets[..|ids|] == targets;
  }

  lemma {:induction false} CostsAddUp(t: TopologyDefinition, ids: seq<nat>, targets: seq<ContainmentTarget>, n: nat)
    requires |targets| == |ids| && n <= |ids|
    requires forall i {:trigger targets[i]} :: 0 <= i < |ids| ==> targets[i].cost == CostIn(t, ids[i])
    ensures TargetCosts(targets[..n]) == SumOf(t, ids[..n])
  {
    if n > 0 {
      CostsAddUp(t, ids, targets, n - 1);
      assert targets[..n][..n - 1] == targets[..n - 1] && ids[..n][..n - 1] == ids[..n - 1];
    }
  }

  predicate SanePlanLimits(limits: PlanLimits) {
    limits.maxPlanTargets > 0 && limits.maxSearchNodes > 0
  }

  /** What the planner publishes of a draft: itself when its claims hold, and no targets otherwise. */
  ghost function Published(draft: ContainmentPlan, a: Assessed, t: TopologyDefinition,
                           policy: ContainmentPolicy): ContainmentPlan {
    if ClaimsHold(draft, a, t, policy) then draft
    else draft.(outcome := PlanInvalid, targets := [], withinPolicyBudget := false)
  }

  ghost predicate IsPublication(plan: ContainmentPlan, a: Assessed, t: TopologyDefinition, policy: ContainmentPolicy,
                                inst: Instance, keys: seq<nat>, sol: Solution)
  {
    && InstanceFits(t, policy, a.witnesses, inst, keys) && SolutionHolds(inst, sol)
    && exists draft :: Drafted(a, t, policy, sol, draft) && plan == Published(draft, a, t, policy)
  }

  method DraftPlan(a: Assessed, t: TopologyDefinition, policy: ContainmentPolicy, inst: Instance, ghost keys: seq<nat>,
                   sol: Solution)
    returns (draft: ContainmentPlan)
    requires HopsMatch(a.witnesses) && a.witnesses != []
    requires InstanceFits(t, policy, a.witnesses, inst, keys) && SolutionHolds(inst, sol)
    ensures Drafted(a, t, policy, sol, draft)
  {
    draft := ContainmentPlan(a.fence, policy.generation, sol.outcome, [], 0, None, false);
    if sol.outcome == PlanOptimal || sol.outcome == PlanFeasible {
      ReachedIsHonest(t, policy, a.witnesses, inst, keys, sol.targets, sol.totalCost);
      KeysAreResources(t, policy, a.witnesses, inst, keys);
      var targets := BuildTargets(t, a.witnesses, sol.targets);
      FittingTargetsAddUp(t, a.witnesses, sol.targets, targets);
      draft := if TargetCosts(targets) != sol.totalCost then draft.(outcome := PlanInvalid) else
        draft.(targets := targets, totalCost := sol.totalCost,
               withinPolicyBudget := |targets| <= policy.maxTargets && sol.totalCost <= policy.maxTotalCost);
    } else if sol.outcome == ProvenInfeasible {
      var i := if sol.hasUnhittableSet && sol.unhittableSet < |a.witnesses| then sol.unhittableSet else 0;
      draft := draft.(certificate := Some(Certificate(a.witnesses[i].id, a.witnesses[i].w.cycle)));
    }
  }

  lemma KeysAreResources(t: TopologyDefinition, policy: ContainmentPolicy, ws: seq<Confirmed>, inst: Instance,
                         keys: seq<nat>)
    requires InstanceFits(t, policy, ws, inst, keys)
    ensures forall r :: r in keys ==> FindResource(t.resources, r).Some? && Eligible(t, policy, r)
  {
    forall r | r in keys
      ensures FindResource(t.resources, r).Some? && Eligible(t, policy, r)
    {
      var i :| 0 <= i < |inst.sets| && r in inst.sets[i];
      assert SetFits(t, policy, ws[i].w, inst.sets[i]);
    }
  }

  predicate IsOrderly(policy: ContainmentPolicy) {
    StrictlyIncreasing(policy.eligibleKinds) && StrictlyIncreasing(policy.eligibleDomains)
  }

  /** The planner answers under sane limits and an orderly policy of the generation that the assessment binds. */
  predicate CanPlan(a: Assessed, policy: ContainmentPolicy, limits: PlanLimits) {
    && SanePlanLimits(limits) && policy.generation != 0 && policy.generation == a.fence.policy
    && IsOrderly(policy) && policy.maxTargets <= limits.maxPlanTargets
  }

  method PlanContainment(a: Assessed, t: TopologyDefinition, policy: ContainmentPolicy, limits: PlanLimits)
    returns (p: Planned, ghost inst: Instance, ghost keys: seq<nat>, ghost sol: Solution)
    requires HopsMatch(a.witnesses)
    ensures p.RefusedUnsupported? <==> !SanePlanLimits(limits)
    ensures p.Plan? <==> CanPlan(a, policy, limits)
    ensures p.RefusedStale? <==>
              SanePlanLimits(limits) && policy.generation != 0 && policy.generation != a.fence.policy
    ensures p.RefusedInvalid? <==>
              && SanePlanLimits(limits)
              && (policy.generation == 0 || (policy.generation == a.fence.policy && !IsOrderly(policy)))
    ensures p.RefusedExhausted? <==>
              && SanePlanLimits(limits) && policy.generation != 0 && policy.generation == a.fence.policy
              && IsOrderly(policy) && policy.maxTargets > limits.maxPlanTargets
    ensures p.Plan? && !a.confirmed ==> p.plan.outcome == NotRequired && p.plan.targets == []
    ensures p.Plan? && a.confirmed && a.witnesses == [] ==> p.plan.outcome == PlanInvalid && p.plan.targets == []
    ensures p.Plan? && a.confirmed && a.witnesses != [] ==> IsPublication(p.plan, a, t, policy, inst, keys, sol)
    ensures p.Plan? && a.confirmed && a.witnesses != [] ==>
              Budget(inst) == if policy.maxSearchNodes == 0 then limits.maxSearchNodes else policy.maxSearchNodes
  {
    inst, keys := Instance([], [], 0), [];
    sol := Solution(NotRequired, [], 0, 0, false, false, false, 0);
    if !SanePlanLimits(limits) {
      return RefusedUnsupported, inst, keys, sol;
    }
    if policy.generation == 0 {
      return RefusedInvalid, inst, keys, sol;
    }
    if policy.generation != a.fence.policy {
      return RefusedStale, inst, keys, sol;
    }
    if !StrictlyIncreasing(policy.eligibleKinds) || !StrictlyIncreasing(policy.eligibleDomains) {
      return RefusedInvalid, inst, keys, sol;
    }
    if policy.maxTargets > limits.maxPlanTargets {
      return RefusedExhausted, inst, keys, sol;
    }
    var plan := ContainmentPlan(a.fence, policy.generation, NotRequired, [], 0, None, false);
    if !a.confirmed {
      return Plan(plan), inst, keys, sol;
    }
    if a.witnesses == [] {
      return Plan(plan.(outcome := PlanInvalid)), inst, keys, sol;
    }
    var instance, solution;
    instance, keys :=
      BuildInstance(t, policy, a.witnesses, if policy.maxSearchNodes == 0 then limits.maxSearchNodes
                    else policy.maxSearchNodes);
    solution := SolveHittingSet(instance);
    inst, sol := instance, solution;
    plan := DraftPlan(a, t, policy, instance, keys, solution);
    ghost var draft := plan;
    var valid := ValidatePlan(plan, a, t, policy);
    if !valid {
      plan := plan.(outcome := PlanInvalid, targets := [], withinPolicyBudget := false);
    }
    assert plan == Published(draft, a, t, policy);
    p := Plan(plan);
  }

  // ----- What a published plan means -----

  /** When a draft's claims hold. Found targets decide an affirmative one; the certificate decides an infeasible one. */
  lemma DraftIsHonestWhen(a: Assessed, t: TopologyDefinition, policy: ContainmentPolicy, inst: Instance, keys: seq<nat>,
                          sol: Solution, draft: ContainmentPlan)
    requires a.witnesses != [] && InstanceFits(t, policy, a.witnesses, inst, keys) && SolutionHolds(inst, sol)
    requires Drafted(a, t, policy, sol, draft)
    ensures draft.IsAffirmative() ==>
              (ClaimsHold(draft, a, t, policy) <==> forall r :: r in sol.targets ==> IsImplicated(a.witnesses, r))
    ensures draft.outcome == ProvenInfeasible ==>
              && sol.unhittableSet < |a.witnesses| && Unbreakable(t, policy, a.witnesses[sol.unhittableSet].w)
              && (ClaimsHold(draft, a, t, policy) <==>
                  exists i: nat ::
                    IsFirstNamed(a.witnesses, a.witnesses[sol.unhittableSet].id, i)
                    && NoneMayContain(t, policy, a.witnesses[i].w))
    ensures draft.outcome == SearchLimitReached ==> ClaimsHold(draft, a, t, policy)
  {
    if draft.IsAffirmative() {
      AffirmativeDraft(a, t, policy, inst, keys, sol, draft);
    }
    if draft.outcome == ProvenInfeasible {
      UnhittableIsUnbreakable(t, policy, a.witnesses, inst, keys, sol.unhittableSet);
    }
  }

  /** Fitting targets that may be contained hold what they claim exactly when they are found on witnesses. */
  lemma FoundTargetsClaim(ws: seq<Confirmed>, t: TopologyDefinition, policy: ContainmentPolicy, ids: seq<nat>,
                          targets: seq<ContainmentTarget>)
    requires TargetsFit(t, ws, ids, targets) && forall r :: r in ids ==> MayContain(t, policy, r)
    ensures (forall k {:trigger targets[k]} :: 0 <= k < |targets| ==> TargetClaimHolds(ws, t, policy, targets[k]))
            <==> forall r :: r in ids ==> IsImplicated(ws, r)
  {
    forall k | 0 <= k < |ids|
      ensures TargetClaimHolds(ws, t, policy, targets[k]) <==> IsImplicated(ws, ids[k])
    {
      assert ids[k] in ids && targets[k].resource == ids[k];
    }
  }

  lemma AffirmativeDraft(a: Assessed, t: TopologyDefinition, policy: ContainmentPolicy, inst: Instance, keys: seq<nat>,
                         sol: Solution, draft: ContainmentPlan)
    requires a.witnesses != [] && InstanceFits(t, policy, a.witnesses, inst, keys) && SolutionHolds(inst, sol)
    requires Drafted(a, t, policy, sol, draft) && draft.IsAffirmative()
    ensures ClaimsHold(draft, a, t, policy) <==> forall r :: r in sol.targets ==> IsImplicated(a.witnesses, r)
  {
    ReachedIsHonest(t, policy, a.witnesses, inst, keys, sol.targets, sol.totalCost);
    KeysAreResources(t, policy, a.witnesses, inst, keys);
    BrokenAreHit(t, policy, a.witnesses, sol.targets);
    FittingDraft(a, t, policy, sol.targets, draft);
  }

  lemma FittingDraft(a: Assessed, t: TopologyDefinition, policy: ContainmentPolicy, ids: seq<nat>,
                     draft: ContainmentPlan)
    requires draft.fence == a.fence && draft.policyGeneration == policy.generation && draft.IsAffirmative()
    requires TargetsFit(t, a.witnesses, ids, draft.targets) && draft.totalCost == SumOf(t, ids)
    requires ids != [] && StrictlyIncreasing(ids) && forall r :: r in ids ==> MayContain(t, policy, r)
    requires forall i {:trigger a.witnesses[i]} :: 0 <= i < |a.witnesses| ==> IsHitBy(a.witnesses[i].w, ids)
    ensures ClaimsHold(draft, a, t, policy) <==> forall r :: r in ids ==> IsImplicated(a.witnesses, r)
  {
    FittingTargetsAddUp(t, a.witnesses, ids, draft.targets);
    FoundTargetsClaim(a.witnesses, t, policy, ids, draft.targets);
  }

  lemma BrokenAreHit(t: TopologyDefinition, policy: ContainmentPolicy, ws: seq<Confirmed>, ids: seq<nat>)
    requires ws != [] && forall i :: 0 <= i < |ws| ==> IsBroken(t, policy, ws[i].w, ids)
    ensures ids != [] && forall i {:trigger ws[i]} :: 0 <= i < |ws| ==> IsHitBy(ws[i].w, ids)
  {
    assert IsBroken(t, policy, ws[0].w, ids);
    forall i | 0 <= i < |ws|
      ensures IsHitBy(ws[i].w, ids)
    {
      assert IsBroken(t, policy, ws[i].w, ids);
    }
  }

  /** Exactly when the planner withholds what the solver found. */
  lemma WithheldExactly(a: Assessed, t: TopologyDefinition, policy: ContainmentPolicy, inst: Instance, keys: seq<nat>,
                        sol: Solution, plan: ContainmentPlan)
    requires a.witnesses != [] && IsPublication(plan, a, t, policy, inst, keys, sol)
    ensures plan.outcome == PlanInvalid <==>
            || (sol.outcome in {PlanOptimal, PlanFeasible} && exists r ::
                r in sol.targets && !IsImplicated(a.witnesses, r))
            || (sol.outcome == ProvenInfeasible
                && !exists i: nat ::
                   IsFirstNamed(a.witnesses, a.witnesses[sol.unhittableSet].id, i)
                   && NoneMayContain(t, policy, a.witnesses[i].w))
    ensures plan.outcome != PlanInvalid ==> plan.outcome == sol.outcome
    ensures sol.outcome == ProvenInfeasible ==> Unbreakable(t, policy, a.witnesses[sol.unhittableSet].w)
  {
    var draft :| Drafted(a, t, policy, sol, draft) && plan == Published(draft, a, t, policy);
    DraftIsHonestWhen(a, t, policy, inst, keys, sol, draft);
  }

  lemma ReachedAreImplicated(t: TopologyDefinition, policy: ContainmentPolicy, ws: seq<Confirmed>, inst: Instance,
                             keys: seq<nat>, sol: Solution)
    requires InstanceFits(t, policy, ws, inst, keys) && SolutionHolds(inst, sol)
    requires sol.outcome in {PlanOptimal, PlanFeasible}
    requires forall i {:trigger ws[i]} :: 0 <= i < |ws| ==> StrictlyIncreasing(ws[i].w.cycle)
    ensures forall r :: r in sol.targets ==> IsImplicated(ws, r)
  {
    ReachedIsHonest(t, policy, ws, inst, keys, sol.targets, sol.totalCost);
    forall r | r in sol.targets
      ensures IsImplicated(ws, r)
    {
      var i :| 0 <= i < |inst.sets| && r in inst.sets[i];
      assert SetFits(t, policy, ws[i].w, inst.sets[i]);
      StrictIsNondecreasing(ws[i].w.cycle);
      SortedIsFound(ws[i].w.cycle, r);
    }
  }

  /** Where cycles ascend, no target set is withheld. */
  lemma AscendingIsPublished(a: Assessed, t: TopologyDefinition, policy: ContainmentPolicy, inst: Instance,
                             keys: seq<nat>, sol: Solution, plan: ContainmentPlan)
    requires a.witnesses != [] && IsPublication(plan, a, t, policy, inst, keys, sol)
    requires forall i {:trigger a.witnesses[i]} :: 0 <= i < |a.witnesses| ==> StrictlyIncreasing(a.witnesses[i].w.cycle)
    ensures sol.outcome in {PlanOptimal, PlanFeasible} ==>
            plan.outcome == sol.outcome && TargetResources(plan.targets) == sol.targets
  {
    if sol.outcome in {PlanOptimal, PlanFeasible} {
      ReachedAreImplicated(t, policy, a.witnesses, inst, keys, sol);
      WithheldExactly(a, t, policy, inst, keys, sol, plan);
      var draft :| Drafted(a, t, policy, sol, draft) && plan == Published(draft, a, t, policy);
      FittingTargetsAddUp(t, a.witnesses, sol.targets, draft.targets);
    }
  }

  /** Witnesses that all carry one identity: the certificate is checked against the first of them, whichever it
      names. */
  lemma SharedIdentityWithholds(a: Assessed, t: TopologyDefinition, policy: ContainmentPolicy, inst: Instance,
                                keys: seq<nat>, sol: Solution, plan: ContainmentPlan)
    requires a.witnesses != [] && IsPublication(plan, a, t, policy, inst, keys, sol) && sol.outcome == ProvenInfeasible
    requires forall i :: 0 <= i < |a.witnesses| ==> a.witnesses[i].id == a.witnesses[0].id
    ensures plan.outcome == (if NoneMayContain(t, policy, a.witnesses[0].w) then ProvenInfeasible else PlanInvalid)
  {
    WithheldExactly(a, t, policy, inst, keys, sol, plan);
    assert IsFirstNamed(a.witnesses, a.witnesses[0].id, 0);
    assert forall i: nat :: IsFirstNamed(a.witnesses, a.witnesses[0].id, i) ==> i == 0;
  }

  /** Resource 1 may be contained, 2 may not. */
  const TWO_DOMAINS: TopologyDefinition := TopologyDefinition(1,
    [ResourceRecord(1, 1, 0, Enabled, true, 1), ResourceRecord(2, 2, 0, Enabled, false, 0)],
    [ForwardingEdge(5, 1, 1, 1, Up, [9]), ForwardingEdge(6, 2, 2, 2, Up, [9])], [9])

  const ANY_TARGET: ContainmentPolicy := ContainmentPolicy(1, 4, 100, [0], [], false, 100)

  /** Two loops of one hop each, neither with an identity of its own. */
  function Unnamed(fence: FenceVector): Assessed {
    Assessed(true, fence, [Confirmed(0, LoopWitness([1], [5], [9], fence, false, {})),
                           Confirmed(0, LoopWitness([2], [6], [9], fence, false, {}))])
  }

  /** The second loop cannot be broken, the certificate names identity zero, and the first witness of that identity can
      be contained: infeasibility is proved, and the plan withheld. */
  lemma UnnamedIsWithheld(fence: FenceVector, inst: Instance, keys: seq<nat>, sol: Solution, plan: ContainmentPlan)
    requires IsPublication(plan, Unnamed(fence), TWO_DOMAINS, ANY_TARGET, inst, keys, sol)
    ensures sol.outcome == ProvenInfeasible && plan.outcome == PlanInvalid
  {
    var a := Unnamed(fence);
    ResourceIndexIsUnique(TWO_DOMAINS.resources, 0);
    ResourceIndexIsUnique(TWO_DOMAINS.resources, 1);
    assert [0][..0] == [];
    assert BinarySearch([0], 0);
    UnhittableIsUnbreakable(TWO_DOMAINS, ANY_TARGET, a.witnesses, inst, keys, 1);
    assert 1 in a.witnesses[0].w.cycle && MayContain(TWO_DOMAINS, ANY_TARGET, 1);
    SharedIdentityWithholds(a, TWO_DOMAINS, ANY_TARGET, inst, keys, sol, plan);
  }

  /** Witnesses with identities of their own, within the domains allowed: infeasibility is published when it is
      found. */
  lemma InfeasibleIsPublished(a: Assessed, t: TopologyDefinition, policy: ContainmentPolicy, inst: Instance,
                              keys: seq<nat>, sol: Solution, plan: ContainmentPlan)
    requires a.witnesses != [] && IsPublication(plan, a, t, policy, inst, keys, sol)
    requires forall i, j :: 0 <= i < j < |a.witnesses| ==> a.witnesses[i].id != a.witnesses[j].id
    requires forall i :: 0 <= i < |a.witnesses| ==> Admissible(policy, a.witnesses[i].w)
    requires forall r :: MayContain(t, policy, r) ==> CostIn(t, r) != 0
    ensures sol.outcome == ProvenInfeasible ==> plan.outcome == ProvenInfeasible
  {
    WithheldExactly(a, t, policy, inst, keys, sol, plan);
    if sol.outcome == ProvenInfeasible {
      var u := sol.unhittableSet;
      assert IsFirstNamed(a.witnesses, a.witnesses[u].id, u);
      forall r | r in a.witnesses[u].w.cycle
        ensures !MayContain(t, policy, r)
      {
        assert !MayBreak(t, policy, a.witnesses[u].w, r);
      }
    }
  }

  // ----- Optimality, in terms of resources -----

  ghost function NumbersOf(keys: seq<nat>, ids: seq<nat>): set<nat> {
    set o | 0 <= o < |keys| && keys[o] in ids
  }

  lemma BeforeLast(s: seq<nat>)
    requires s != [] && StrictlyIncreasing(s)
    ensures StrictlyIncreasing(s[..|s| - 1])
    ensures forall r :: r in s[..|s| - 1] <==> r in s && r < s[|s| - 1]
    ensures forall r :: r in s ==> r <= s[|s| - 1]
  {
  }

  /** Part of an ordered list has no higher sum and no more members; with as many, it is the list. */
  lemma {:induction false} PartAddsUpToLess(t: TopologyDefinition, part: seq<nat>, ids: seq<nat>)
    requires StrictlyIncreasing(part) && StrictlyIncreasing(ids) && forall r :: r in part ==> r in ids
    ensures SumOf(t, part) <= SumOf(t, ids) && |part| <= |ids|
    ensures |part| == |ids| ==> part == ids
    decreases |ids|
  {
    if part != [] {
      var n, m := |part| - 1, |ids| - 1;
      assert part[n] in part && part[n] in ids;
      BeforeLast(part);
      BeforeLast(ids);
      if part[n] == ids[m] {
        forall r | r in part[..n]
          ensures r in ids[..m]
        {
          assert r in part && r in ids;
        }
        PartAddsUpToLess(t, part[..n], ids[..m]);
        assert part == part[..n] + [part[n]] && ids == ids[..m] + [ids[m]];
      } else {
        PartAddsUpToLess(t, part, ids[..m]);
      }
    }
  }

  lemma BreakingIsHitting(t: TopologyDefinition, policy: ContainmentPolicy, ws: seq<Confirmed>, inst: Instance,
                          keys: seq<nat>, ids: seq<nat>)
    requires InstanceFits(t, policy, ws, inst, keys)
    requires forall i :: 0 <= i < |ws| ==> IsBroken(t, policy, ws[i].w, ids)
    ensures IsHittingSet(inst, NumbersOf(keys, ids))
  {
    forall i | 0 <= i < |inst.sets|
      ensures HitsSet(inst, NumbersOf(keys, ids), i)
    {
      assert IsBroken(t, policy, ws[i].w, ids);
      var r :| r in ids && MayBreak(t, policy, ws[i].w, r);
      assert SetFits(t, policy, ws[i].w, inst.sets[i]);
      assert r in inst.sets[i];
      assert r in keys;
      var o :| 0 <= o < |keys| && keys[o] == r;
      assert inst.options[o].resource == r;
    }
  }

  /** No choice of resources that may break every witness betters an optimal plan. */
  lemma NothingBettersOptimal(a: Assessed, t: TopologyDefinition, policy: ContainmentPolicy, inst: Instance,
                              keys: seq<nat>, sol: Solution, plan: ContainmentPlan, ids: seq<nat>)
    requires a.witnesses != [] && IsPublication(plan, a, t, policy, inst, keys, sol) && plan.outcome == PlanOptimal
    requires StrictlyIncreasing(ids) && forall i :: 0 <= i < |a.witnesses| ==>
             IsBroken(t, policy, a.witnesses[i].w, ids)
    ensures !Better(ids, SumOf(t, ids), TargetResources(plan.targets), plan.totalCost)
  {
    var x := NumbersOf(keys, ids);
    BreakingIsHitting(t, policy, a.witnesses, inst, keys, ids);
    KeysAreDistinct(t, keys);
    WithheldExactly(a, t, policy, inst, keys, sol, plan);
    FittingTargetsAddUp(t, a.witnesses, sol.targets, plan.targets);
    assert NoWorse(inst.options, sol.targets, sol.totalCost, x);
    TargetsAreInOrder(t, keys, x);
    SelectionAscends(t, keys, x, |keys|);
    SelectionAddsUp(t, keys, x, |keys|);
    var part := TargetsOf(inst.options, x);
    PartAddsUpToLess(t, part, ids);
    LexIsIrreflexive(part);
    NotBetterIsTransitive(ids, SumOf(t, ids), part, SumOf(t, part), sol.targets, sol.totalCost);
  }

  /** An optimal plan leads every choice of resources that may break every witness: none is cheaper, none as cheap is
      smaller, and against one as cheap and as large the first resource where they differ is the plan's. */
  lemma OptimalLeads(a: Assessed, t: TopologyDefinition, policy: ContainmentPolicy, inst: Instance, keys: seq<nat>,
                     sol: Solution, plan: ContainmentPlan, ids: seq<nat>)
    requires a.witnesses != [] && IsPublication(plan, a, t, policy, inst, keys, sol) && plan.outcome == PlanOptimal
    requires StrictlyIncreasing(ids) && forall i :: 0 <= i < |a.witnesses| ==>
             IsBroken(t, policy, a.witnesses[i].w, ids)
    ensures Leads(TargetResources(plan.targets), plan.totalCost, ids, SumOf(t, ids))
  {
    NothingBettersOptimal(a, t, policy, inst, keys, sol, plan, ids);
    NotBetterLeads(TargetResources(plan.targets), plan.totalCost, ids, SumOf(t, ids));
  }

  /** Published infeasibility is true: no choice of resources breaks every witness. */
  lemma InfeasibleIsTrue(a: Assessed, t: TopologyDefinition, policy: ContainmentPolicy, inst: Instance, keys: seq<nat>,
                         sol: Solution, plan: ContainmentPlan, ids: seq<nat>)
    requires a.witnesses != [] && IsPublication(plan, a, t, policy, inst, keys, sol) && plan.outcome == ProvenInfeasible
    ensures exists i :: 0 <= i < |a.witnesses| && !IsBroken(t, policy, a.witnesses[i].w, ids)
  {
    WithheldExactly(a, t, policy, inst, keys, sol, plan);
    assert !IsBroken(t, policy, a.witnesses[sol.unhittableSet].w, ids);
  }

  // ----- What may be contained -----

  /** A resource of the definition that can be contained at this cost, of a kind the policy lists, and in a domain it
      lists where it lists any. */
  ghost predicate IsContainable(t: TopologyDefinition, policy: ContainmentPolicy, r: nat, cost: nat) {
    exists x ::
      && x in t.resources && x.id == r && x.containable && x.containmentCost == cost
      && x.kind in policy.eligibleKinds && (policy.eligibleDomains == [] || x.domain in policy.eligibleDomains)
  }

  /** What may be contained, and at which cost, over resources and lists in order. */
  lemma ContainableDecides(t: TopologyDefinition, policy: ContainmentPolicy, r: nat, cost: nat)
    requires ResourcesIncrease(t.resources) && IsOrderly(policy)
    ensures MayContain(t, policy, r) && CostIn(t, r) == cost <==> IsContainable(t, policy, r, cost)
  {
    StrictIsNondecreasing(policy.eligibleKinds);
    StrictIsNondecreasing(policy.eligibleDomains);
    forall x | x in t.resources
      ensures FindResource(t.resources, x.id) == Some(x)
      ensures BinarySearch(policy.eligibleKinds, x.kind) <==> x.kind in policy.eligibleKinds
      ensures BinarySearch(policy.eligibleDomains, x.domain) <==> x.domain in policy.eligibleDomains
    {
      var i :| 0 <= i < |t.resources| && t.resources[i] == x;
      ResourceIndexIsUnique(t.resources, i);
      SortedIsFound(policy.eligibleKinds, x.kind);
      SortedIsFound(policy.eligibleDomains, x.domain);
    }
  }

  /** What may break a witness: a resource on its cycle that can be contained at some cost, unless the witness crosses
      domains and the policy allows none that does. */
  lemma BreakingDecides(t: TopologyDefinition, policy: ContainmentPolicy, w: LoopWitness, r: nat)
    requires ResourcesIncrease(t.resources) && IsOrderly(policy)
    ensures MayBreak(t, policy, w, r) <==>
            && r in w.cycle && (policy.allowCrossDomain || !w.crossesDomains)
            && exists cost :: cost > 0 && IsContainable(t, policy, r, cost)
  {
    ContainableDecides(t, policy, r, CostIn(t, r));
    if cost :| cost > 0 && IsContainable(t, policy, r, cost) {
      ContainableDecides(t, policy, r, cost);
    }
  }

  /** Every target published can be contained at the cost it is charged at. */
  lemma PublishedIsContainable(a: Assessed, t: TopologyDefinition, policy: ContainmentPolicy, inst: Instance,
                               keys: seq<nat>, sol: Solution, plan: ContainmentPlan, k: nat)
    requires IsPublication(plan, a, t, policy, inst, keys, sol) && k < |plan.targets|
    requires ResourcesIncrease(t.resources) && IsOrderly(policy)
    ensures IsContainable(t, policy, plan.targets[k].resource, plan.targets[k].cost)
  {
    ContainableDecides(t, policy, plan.targets[k].resource, plan.targets[k].cost);
  }
}
