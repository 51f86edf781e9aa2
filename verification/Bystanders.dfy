/** Forwarding that a plan takes away although no witness needs it: a target lists all the selectors of its witnesses
    with all of their hops, also those that no witness has together. */
module Bystanders {
  import opened Lists
  import opened Topology
  import opened Order
  import opened Witness
  import opened HittingSet
  import opened HittingSetSolver
  import opened Planner
  import opened Containment
  import opened Shadow
  import opened ShadowEffect

  /** Some witness takes the hop, for the selector. */
  ghost predicate IsWitnessed(ws: seq<Confirmed>, hop: nat, s: nat) {
    exists i :: 0 <= i < |ws| && hop in ws[i].w.hops && s in ws[i].w.selectors
  }

  /** The hop carried the selector, and does not in the shadow. */
  predicate Loses(t: TopologyDefinition, shadow: TopologyDefinition, e: nat, s: nat) {
    && e < |t.edges| && e < |shadow.edges|
    && s in t.edges[e].admittedSelectors && s !in shadow.edges[e].admittedSelectors
  }

  ghost predicate OnlyWitnessedIsCut(t: TopologyDefinition, ws: seq<Confirmed>, shadow: TopologyDefinition) {
    forall e: nat, s: nat {:trigger Loses(t, shadow, e, s)} :: Loses(t, shadow, e, s) ==>
      IsWitnessed(ws, t.edges[e].id, s)
  }

  /** One witness found on the resource takes the hop there, another found on it has the selector, the hop admits it,
      and no witness has the two together. */
  ghost predicate IsBystander(t: TopologyDefinition, ws: seq<Confirmed>, r: nat, e: nat, s: nat) {
    && e < |t.edges| && s in t.edges[e].admittedSelectors
    && NamesHop(ws, |ws|, r, t.edges[e].id) && NamesSelector(ws, |ws|, r, s) && !IsWitnessed(ws, t.edges[e].id, s)
  }

  lemma ListedByTarget(t: TopologyDefinition, ws: seq<Confirmed>, target: ContainmentTarget, e: nat, s: nat)
    requires EdgeIdsDistinct(t.edges) && TargetFits(t, ws, |ws|, target) && e < |t.edges|
    ensures ListedBy(t.edges, target, |target.affectedHops|, e, s)
       <==> NamesSelector(ws, |ws|, target.resource, s) && NamesHop(ws, |ws|, target.resource, t.edges[e].id)
  {
    var id := t.edges[e].id;
    EdgeIndexIsUnique(t.edges, e);
    if id in target.affectedHops {
      var j :| 0 <= j < |target.affectedHops| && target.affectedHops[j] == id;
    }
    if j :| 0 <= j < |target.affectedHops| && EdgeIndex(t.edges, target.affectedHops[j]) == Some(e) {
      assert target.affectedHops[j] in target.affectedHops;
    }
    assert s in target.selectors <==> NamesSelector(ws, |ws|, target.resource, s);
    assert id in target.affectedHops <==> NamesHop(ws, |ws|, target.resource, id);
  }

  /** A selector is lost on a hop exactly when some target is for a resource on which witnesses take the hop and have
      the selector, together or not. */
  lemma LosesExactly(t: TopologyDefinition, ws: seq<Confirmed>, ids: seq<nat>, targets: seq<ContainmentTarget>,
                     shadow: TopologyDefinition, e: nat, s: nat)
    requires EdgeIdsDistinct(t.edges) && TargetsFit(t, ws, ids, targets) && IsShadowOf(t, targets, shadow)
             && e < |t.edges|
    ensures Loses(t, shadow, e, s) <==>
            && s in t.edges[e].admittedSelectors
            && exists r :: r in ids && NamesSelector(ws, |ws|, r, s) && NamesHop(ws, |ws|, r, t.edges[e].id)
  {
    assert IsCut(t.edges[e], shadow.edges[e], Gone(t.edges, targets, |targets|, e));
    forall k | 0 <= k < |targets|
      ensures ListedBy(t.edges, targets[k], |targets[k].affectedHops|, e, s)
         <==> NamesSelector(ws, |ws|, ids[k], s) && NamesHop(ws, |ws|, ids[k], t.edges[e].id)
    {
      assert TargetFits(t, ws, |ws|, targets[k]) && targets[k].resource == ids[k];
      ListedByTarget(t, ws, targets[k], e, s);
    }
    if r :| r in ids && NamesSelector(ws, |ws|, r, s) && NamesHop(ws, |ws|, r, t.edges[e].id) {
      var k :| 0 <= k < |ids| && ids[k] == r;
      assert ListedBy(t.edges, targets[k], |targets[k].affectedHops|, e, s);
    }
  }

  /** Exactly when targets made for witnesses cut only what lies on a witness: no hop is a bystander at any of them. */
  lemma CutsOnlyWitnessed(t: TopologyDefinition, ws: seq<Confirmed>, ids: seq<nat>, targets: seq<ContainmentTarget>,
                          shadow: TopologyDefinition)
    requires EdgeIdsDistinct(t.edges) && TargetsFit(t, ws, ids, targets) && IsShadowOf(t, targets, shadow)
    ensures OnlyWitnessedIsCut(t, ws, shadow) <==> forall r, e, s :: r in ids ==> !IsBystander(t, ws, r, e, s)
  {
    if r, e, s :| r in ids && IsBystander(t, ws, r, e, s) {
      LosesExactly(t, ws, ids, targets, shadow, e, s);
      assert Loses(t, shadow, e, s);
    }
    if forall r, e, s :: r in ids ==> !IsBystander(t, ws, r, e, s) {
      forall e: nat, s: nat | Loses(t, shadow, e, s)
        ensures IsWitnessed(ws, t.edges[e].id, s)
      {
        LosesExactly(t, ws, ids, targets, shadow, e, s);
        var r :| r in ids && NamesSelector(ws, |ws|, r, s) && NamesHop(ws, |ws|, r, t.edges[e].id);
        assert !IsBystander(t, ws, r, e, s);
      }
    }
  }

  lemma PublishedFits(a: Assessed, t: TopologyDefinition, policy: ContainmentPolicy, inst: Instance, keys: seq<nat>,
                      sol: Solution, plan: ContainmentPlan)
    requires IsPublication(plan, a, t, policy, inst, keys, sol) && plan.IsAffirmative()
    ensures TargetsFit(t, a.witnesses, sol.targets, plan.targets)
  {
    var draft :| Drafted(a, t, policy, sol, draft) && plan == Published(draft, a, t, policy);
  }

  /** Exactly when an affirmative plan cuts only what lies on a witness. */
  lemma PlanCutsOnlyWitnessed(a: Assessed, t: TopologyDefinition, policy: ContainmentPolicy, inst: Instance,
                              keys: seq<nat>, sol: Solution, plan: ContainmentPlan, shadow: TopologyDefinition)
    requires EdgeIdsDistinct(t.edges) && IsShadowOf(t, plan.targets, shadow)
    requires IsPublication(plan, a, t, policy, inst, keys, sol) && plan.IsAffirmative()
    ensures OnlyWitnessedIsCut(t, a.witnesses, shadow)
       <==> forall r, e, s :: r in sol.targets ==> !IsBystander(t, a.witnesses, r, e, s)
  {
    PublishedFits(a, t, policy, inst, keys, sol, plan);
    CutsOnlyWitnessed(t, a.witnesses, sol.targets, plan.targets, shadow);
  }

  /** Witnesses that a resource is found on all have the same selectors. */
  ghost predicate AgreeOnSelectors(ws: seq<Confirmed>, r: nat) {
    forall i, j, s {:trigger s in ws[i].w.selectors, ws[j].w} ::
      0 <= i < |ws| && 0 <= j < |ws| && BinarySearch(ws[i].w.cycle, r) && BinarySearch(ws[j].w.cycle, r)
        && s in ws[i].w.selectors ==>
        s in ws[j].w.selectors
  }

  /** Where they do, every hop they take there has all of them. */
  lemma AgreeingSpare(ws: seq<Confirmed>, r: nat, hop: nat, s: nat)
    requires AgreeOnSelectors(ws, r) && NamesHop(ws, |ws|, r, hop) && NamesSelector(ws, |ws|, r, s)
    ensures IsWitnessed(ws, hop, s)
  {
    var i :| 0 <= i < |ws| && BinarySearch(ws[i].w.cycle, r) && TouchesHop(ws[i].w, r, |ws[i].w.cycle|, hop);
    var j :| 0 <= j < |ws| && BinarySearch(ws[j].w.cycle, r) && s in ws[j].w.selectors;
    assert s in ws[i].w.selectors && hop in ws[i].w.hops;
  }
}
