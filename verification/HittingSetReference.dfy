/** The exhaustive reference solver, and its agreement with the branch and bound. */
module HittingSetReference {
  import opened Sets
  import opened HittingSet
  import opened HittingSetSolver

  const MAX_REFERENCE_OPTIONS: nat := 24

  // ----- Subsets as masks -----

  function Pow2(n: nat): (r: nat)
    ensures r > 0
  {
    if n == 0 then 1 else 2 * Pow2(n - 1)
  }

  function Bit(mask: nat, i: nat): bool {
    if i == 0 then mask % 2 == 1 else Bit(mask / 2, i - 1)
  }

  ghost function Chosen(mask: nat, n: nat): set<nat> {
    set i | 0 <= i < n && Bit(mask, i)
  }

  /** The mask that selects the options of `x` from number `k` on. */
  ghost function Code(x: set<nat>, k: nat, n: nat): nat
    requires k <= n
    decreases n - k
  {
    if k == n then 0 else (if k in x then 1 else 0) + 2 * Code(x, k + 1, n)
  }

  lemma {:induction false} CodeBits(x: set<nat>, k: nat, n: nat, i: nat)
    requires k + i < n
    ensures Bit(Code(x, k, n), i) <==> k + i in x
    decreases i
  {
    assert Code(x, k, n) / 2 == Code(x, k + 1, n);
    if i > 0 {
      CodeBits(x, k + 1, n, i - 1);
    }
  }

  lemma {:induction false} CodeInRange(x: set<nat>, k: nat, n: nat)
    requires k <= n
    ensures Code(x, k, n) < Pow2(n - k)
    decreases n - k
  {
    if k < n {
      CodeInRange(x, k + 1, n);
    }
  }

  /** Every selection has its mask. */
  lemma EverySelectionHasAMask(x: set<nat>, n: nat)
    requires x <= Below(n)
    ensures Code(x, 0, n) < Pow2(n) && Chosen(Code(x, 0, n), n) == x
  {
    CodeInRange(x, 0, n);
    forall i | 0 <= i < n
      ensures Bit(Code(x, 0, n), i) <==> i in x
    {
      CodeBits(x, 0, n, i);
    }
  }

  // ----- One subset -----

  lemma {:induction false} ChosenResources(options: seq<Choice>, x: set<nat>, n: nat, y: nat)
    requires n <= |options|
    ensures y in ResourcesBelow(options, x, n) <==> exists o :: o in x && o < n && options[o].resource == y
  {
    if n > 0 {
      ChosenResources(options, x, n - 1, y);
    }
  }

  method Choose(options: seq<Choice>, mask: nat) returns (chosen: seq<nat>, cost: nat)
    ensures chosen == TargetsOf(options, Chosen(mask, |options|)) && cost == CostOf(options, Chosen(mask, |options|))
    ensures forall y :: y in chosen <==>
            exists o :: o in Chosen(mask, |options|) && o < |options| && options[o].resource == y
  {
    ghost var x := Chosen(mask, |options|);
    chosen, cost := [], 0;
    for index := 0 to |options|
      invariant chosen == ResourcesBelow(options, x, index) && cost == CostBelow(options, x, index)
    {
      if Bit(mask, index) {
        chosen, cost := chosen + [options[index].resource], cost + options[index].cost;
      }
    }
    forall y
      ensures y in SortIds(chosen) <==> exists o :: o in x && o < |options| && options[o].resource == y
    {
      ChosenResources(options, x, |options|, y);
      assert y in SortIds(chosen) <==> y in multiset(SortIds(chosen));
      assert y in multiset(chosen) <==> y in chosen;
    }
    chosen := SortIds(chosen);
  }

  method HitsOne(set_: seq<nat>, chosen: seq<nat>) returns (hit: bool)
    ensures hit <==> exists r :: r in set_ && r in chosen
  {
    hit := false;
    for k := 0 to |set_|
      invariant hit <==> exists r :: r in set_[..k] && r in chosen
    {
      assert set_[..k + 1] == set_[..k] + [set_[k]];
      hit := hit || set_[k] in chosen;
    }
    assert set_[..|set_|] == set_;
  }

  /** Whether a subset hits all sets, and the empty set that stopped it. */
  method TestSubset(inst: Instance, mask: nat, chosen: seq<nat>) returns (hitsAll: bool, empty: EmptySet)
    requires forall y :: y in chosen <==>
             exists o :: o in Chosen(mask, |inst.options|) && o < |inst.options| && inst.options[o].resource == y
    ensures hitsAll <==> IsHittingSet(inst, Chosen(mask, |inst.options|))
    ensures empty.IsEmptySet? ==> empty.at < |inst.sets| && inst.sets[empty.at] == []
  {
    ghost var x := Chosen(mask, |inst.options|);
    hitsAll, empty := true, NoEmptySet;
    for s := 0 to |inst.sets|
      invariant hitsAll && empty.NoEmptySet?
      invariant forall k {:trigger HitsSet(inst, x, k)} :: 0 <= k < s ==> HitsSet(inst, x, k)
    {
      var hit := HitsOne(inst.sets[s], chosen);
      assert hit <==> HitsSet(inst, x, s);
      if !hit {
        if inst.sets[s] == [] {
          empty := IsEmptySet(s);
        }
        hitsAll := false;
        return;
      }
    }
  }

  datatype EmptySet = NoEmptySet | IsEmptySet(at: nat)

  // ----- All subsets -----

  /** The incumbent is the best of the hitting sets among the first masks. */
  ghost predicate BestOfMasks(inst: Instance, have: bool, best: seq<nat>, bestCost: nat, below: nat) {
    && (have ==> IsReached(inst, best, bestCost))
    && forall m: nat {:trigger Chosen(m, |inst.options|)} ::
       m < below && IsHittingSet(inst, Chosen(m, |inst.options|)) ==>
         have && NoWorse(inst.options, best, bestCost, Chosen(m, |inst.options|))
  }

  lemma BetterBeatsTheRest(inst: Instance, best: seq<nat>, bestCost: nat, t: seq<nat>, c: nat, y: set<nat>)
    requires Better(t, c, best, bestCost) && NoWorse(inst.options, best, bestCost, y)
    ensures NoWorse(inst.options, t, c, y)
  {
    BranchAndBound.BetterIsAsymmetric(t, c, best, bestCost);
    NotBetterIsTransitive(TargetsOf(inst.options, y), CostOf(inst.options, y), best, bestCost, t, c);
  }

  lemma NextMask(inst: Instance, have: bool, best: seq<nat>, bestCost: nat, mask: nat)
    requires BestOfMasks(inst, have, best, bestCost, mask)
    ensures var x := Chosen(mask, |inst.options|);
            var t, c := TargetsOf(inst.options, x), CostOf(inst.options, x);
            if IsHittingSet(inst, x) && ObjectiveBetter(t, c, best, bestCost, have) then
               BestOfMasks(inst, true, t, c, mask + 1)
            else BestOfMasks(inst, have, best, bestCost, mask + 1)
  {
    var x := Chosen(mask, |inst.options|);
    if IsHittingSet(inst, x)
       && ObjectiveBetter(TargetsOf(inst.options, x), CostOf(inst.options, x), best, bestCost, have) {
      NextIsBest(inst, have, best, bestCost, mask, x);
    } else {
      BestStays(inst, have, best, bestCost, mask, x);
    }
  }

  /** A hitting set that betters the incumbent takes its place. */
  lemma NextIsBest(inst: Instance, have: bool, best: seq<nat>, bestCost: nat, mask: nat, x: set<nat>)
    requires BestOfMasks(inst, have, best, bestCost, mask) && x == Chosen(mask, |inst.options|) && IsHittingSet(inst, x)
    requires ObjectiveBetter(TargetsOf(inst.options, x), CostOf(inst.options, x), best, bestCost, have)
    ensures BestOfMasks(inst, true, TargetsOf(inst.options, x), CostOf(inst.options, x), mask + 1)
  {
    PartIsNoWorse(inst.options, x, x);
    forall m: nat | m < mask && IsHittingSet(inst, Chosen(m, |inst.options|))
      ensures NoWorse(inst.options, TargetsOf(inst.options, x), CostOf(inst.options, x), Chosen(m, |inst.options|))
    {
      BetterBeatsTheRest(inst, best, bestCost, TargetsOf(inst.options, x), CostOf(inst.options, x),
                         Chosen(m, |inst.options|));
    }
  }

  lemma BestStays(inst: Instance, have: bool, best: seq<nat>, bestCost: nat, mask: nat, x: set<nat>)
    requires BestOfMasks(inst, have, best, bestCost, mask) && x == Chosen(mask, |inst.options|)
    requires IsHittingSet(inst, x) ==> have && NoWorse(inst.options, best, bestCost, x)
    ensures BestOfMasks(inst, have, best, bestCost, mask + 1)
  {
    forall m: nat | m < mask + 1 && IsHittingSet(inst, Chosen(m, |inst.options|))
      ensures have && NoWorse(inst.options, best, bestCost, Chosen(m, |inst.options|))
    {
      assert m == mask ==> Chosen(m, |inst.options|) == x;
    }
  }

  /** What the reference promises of an instance it supports. */
  ghost predicate ReferenceHolds(inst: Instance, r: Solution) {
    if |inst.options| > MAX_REFERENCE_OPTIONS then r.outcome == PlanUnsupported
    else if r.outcome == PlanOptimal then IsBest(inst, r.targets, r.totalCost) && r.provedMinimum && !r.provedInfeasible
    else
      && r.outcome == ProvenInfeasible && r.provedInfeasible && !r.provedMinimum
      && r.targets == [] && r.totalCost == 0
      && (forall x :: !IsHittingSet(inst, x))
      && (r.hasUnhittableSet ==> r.unhittableSet < |inst.sets| && inst.sets[r.unhittableSet] == [])
  }

  lemma AllMasksAreAllSelections(inst: Instance, have: bool, best: seq<nat>, bestCost: nat)
    requires BestOfMasks(inst, have, best, bestCost, Pow2(|inst.options|))
    ensures have ==> IsBest(inst, best, bestCost)
    ensures !have ==> forall x :: !IsHittingSet(inst, x)
  {
    forall x | IsHittingSet(inst, x)
      ensures have && NoWorse(inst.options, best, bestCost, x)
    {
      EverySelectionHasAMask(x, |inst.options|);
      assert Chosen(Code(x, 0, |inst.options|), |inst.options|) == x;
    }
  }

  method SolveReference(inst: Instance) returns (r: Solution)
    ensures ReferenceHolds(inst, r)
    ensures r.outcome == PlanOptimal ==> LeadsAll(inst, r.targets, r.totalCost)
  {
    if |inst.options| > MAX_REFERENCE_OPTIONS {
      return Solution(PlanUnsupported, [], 0, 0, false, false, false, 0);
    }
    var best: seq<nat>, bestCost: nat, have := [], 0, false;
    var unhittable: nat, anyUnhittable := 0, false;
    for mask := 0 to Pow2(|inst.options|)
      invariant BestOfMasks(inst, have, best, bestCost, mask)
      invariant anyUnhittable ==> unhittable < |inst.sets| && inst.sets[unhittable] == []
    {
      NextMask(inst, have, best, bestCost, mask);
      var chosen, cost := Choose(inst.options, mask);
      var hitsAll, empty := TestSubset(inst, mask, chosen);
      if empty.IsEmptySet? {
        anyUnhittable, unhittable := true, empty.at;
      }
      if hitsAll && ObjectiveBetter(chosen, cost, best, bestCost, have) {
        best, bestCost, have := chosen, cost, true;
      }
    }
    AllMasksAreAllSelections(inst, have, best, bestCost);
    BestLeads(inst, best, bestCost);
    if have {
      return Solution(PlanOptimal, best, bestCost, 0, true, false, false, 0);
    }
    r := Solution(ProvenInfeasible, [], 0, 0, false, true, anyUnhittable, unhittable);
  }

  // ----- Agreement -----

  /** Some set cannot be hit exactly when nothing hits all sets. */
  lemma InfeasibleMeansNoHittingSet(inst: Instance)
    ensures SomeSetCannotBeHit(inst) <==> forall x :: !IsHittingSet(inst, x)
  {
    if SomeSetCannotBeHit(inst) {
      var s :| CannotHit(inst, s);
      forall x
        ensures !IsHittingSet(inst, x)
      {
        assert !HitsSet(inst, x, s);
      }
    } else {
      var all := Below(|inst.options|);
      forall s | 0 <= s < |inst.sets|
        ensures HitsSet(inst, all, s)
      {
        assert !CannotHit(inst, s);
        var o :| 0 <= o < |inst.options| && inst.options[o].resource in inst.sets[s];
        assert o in all;
      }
      assert IsHittingSet(inst, all);
    }
  }

  predicate WithinBudget(r: Solution) {
    r.outcome != PlanFeasible && r.outcome != SearchLimitReached
  }

  /** Within budget, the search and the reference return the same plan. */
  lemma SolversAgree(inst: Instance, a: Solution, b: Solution)
    requires OptionsDistinct(inst.options) && |inst.options| <= MAX_REFERENCE_OPTIONS
    requires SolutionHolds(inst, a) && WithinBudget(a) && ReferenceHolds(inst, b)
    ensures a.outcome == b.outcome && a.provedMinimum == b.provedMinimum && a.provedInfeasible == b.provedInfeasible
    ensures a.outcome == PlanOptimal ==> a.targets == b.targets && a.totalCost == b.totalCost
  {
    InfeasibleMeansNoHittingSet(inst);
    if a.outcome == PlanOptimal && b.outcome == PlanOptimal {
      BestIsUnique(inst, a.targets, a.totalCost, b.targets, b.totalCost);
    }
  }

  /** Within budget, the plan depends on neither the order nor the repetition of the sets. */
  lemma SetOrderIsIrrelevant(inst: Instance, other: Instance, a: Solution, b: Solution)
    requires OptionsDistinct(inst.options) && inst.options == other.options
    requires forall s :: s in inst.sets <==> s in other.sets
    requires SolutionHolds(inst, a) && WithinBudget(a) && SolutionHolds(other, b) && WithinBudget(b)
    ensures a.outcome == b.outcome
    ensures a.outcome == PlanOptimal ==> a.targets == b.targets && a.totalCost == b.totalCost
  {
    InfeasibleMeansNoHittingSet(inst);
    InfeasibleMeansNoHittingSet(other);
    forall x
      ensures IsHittingSet(inst, x) <==> IsHittingSet(other, x)
    {
      HittingIgnoresSetOrder(inst, other, x);
      HittingIgnoresSetOrder(other, inst, x);
    }
    if a.outcome == PlanOptimal && b.outcome == PlanOptimal {
      BestIgnoresSetOrder(inst, other, a.targets, a.totalCost);
      BestIsUnique(other, a.targets, a.totalCost, b.targets, b.totalCost);
    }
  }
}
