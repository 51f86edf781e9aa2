/** The containment instance: what it means for targets to be the best hitting set. */
module HittingSet {
  import opened Lists
  import opened Sets
  import opened Sorting

  datatype Choice = Choice(resource: nat, cost: nat)

  datatype Instance = Instance(sets: seq<seq<nat>>, options: seq<Choice>, maxSearchNodes: nat)

  predicate OptionsDistinct(options: seq<Choice>) {
    forall i, j :: 0 <= i < j < |options| ==> options[i].resource != options[j].resource
  }

  // ----- The objective -----

  /** Minimum cost, then fewest targets, then the smallest target sequence. */
  predicate Better(a: seq<nat>, aCost: nat, b: seq<nat>, bCost: nat) {
    if aCost != bCost then aCost < bCost
    else if |a| != |b| then |a| < |b|
    else LexLess(a, b)
  }

  /** The comparison as the searches make it. */
  predicate ObjectiveBetter(candidate: seq<nat>, candidateCost: nat, incumbent: seq<nat>, incumbentCost: nat,
                            haveIncumbent: bool) {
    !haveIncumbent || Better(candidate, candidateCost, incumbent, incumbentCost)
  }

  lemma {:induction false} LexIsNegativelyTransitive(a: seq<nat>, b: seq<nat>, c: seq<nat>)
    requires !LexLess(a, b) && !LexLess(b, c)
    ensures !LexLess(a, c)
    decreases |a|
  {
    if a != [] && b != [] && c != [] && a[0] == b[0] == c[0] {
      LexIsNegativelyTransitive(a[1..], b[1..], c[1..]);
    }
  }

  lemma NotBetterIsTransitive(a: seq<nat>, aCost: nat, b: seq<nat>, bCost: nat, c: seq<nat>, cCost: nat)
    requires !Better(a, aCost, b, bCost) && !Better(b, bCost, c, cCost)
    ensures !Better(a, aCost, c, cCost)
  {
    if aCost == bCost == cCost && |a| == |b| == |c| {
      LexIsNegativelyTransitive(a, b, c);
    }
  }

  lemma BetterIsTotal(a: seq<nat>, aCost: nat, b: seq<nat>, bCost: nat)
    requires !Better(a, aCost, b, bCost) && !Better(b, bCost, a, aCost)
    ensures a == b && aCost == bCost
  {
    LexIsTotal(a, b);
  }

  // ----- The objective on indices -----

  /** No dearer; at equal cost no longer; and at equal cost and length smaller where they first differ. */
  ghost predicate Leads(a: seq<nat>, aCost: nat, b: seq<nat>, bCost: nat) {
    && aCost <= bCost
    && (aCost == bCost ==> |a| <= |b|)
    && (aCost == bCost && |a| == |b| ==> forall k: nat {:trigger FirstDifferAt(a, b, k)} ::
        FirstDifferAt(a, b, k) ==> a[k] < b[k])
  }

  /** To be no worse is to lead. */
  lemma NotBetterLeads(a: seq<nat>, aCost: nat, b: seq<nat>, bCost: nat)
    ensures !Better(b, bCost, a, aCost) <==> Leads(a, aCost, b, bCost)
  {
    if aCost == bCost && |a| == |b| {
      LexLeads(a, b);
    }
  }

  lemma LexLeads(a: seq<nat>, b: seq<nat>)
    requires |a| == |b|
    ensures !LexLess(b, a) <==>
            forall k: nat {:trigger FirstDifferAt(a, b, k)} :: FirstDifferAt(a, b, k) ==> a[k] < b[k]
  {
    if a == b {
      LexIsIrreflexive(a);
    } else {
      var k := FirstDifference(a, b);
      LexDecides(b, a, k);
      forall i: nat | FirstDifferAt(a, b, i)
        ensures i == k
      {
      }
    }
  }

  // ----- Sorting targets -----

  function SortIds(s: seq<nat>): (r: seq<nat>)
    ensures multiset(r) == multiset(s)
  {
    SortByKeeps(s, IdKey);
    SortBy(s, IdKey)
  }

  lemma SortIdsAscends(s: seq<nat>)
    ensures Nondecreasing(SortIds(s))
  {
    SortBySorts(s, IdKey);
    forall i, j | 0 <= i <= j < |SortIds(s)|
      ensures SortIds(s)[i] <= SortIds(s)[j]
    {
      assert i < j ==> InOrder(SortIds(s), IdKey, i, j);
    }
  }

  lemma AscendingIsSorted(s: seq<nat>)
    requires Nondecreasing(s)
    ensures IsSortedBy(s, IdKey)
  {
  }

  /** Contents in order are in one order only. */
  lemma {:induction false} AscendingIsUnique(a: seq<nat>, b: seq<nat>)
    requires Nondecreasing(a) && Nondecreasing(b) && multiset(a) == multiset(b)
    ensures a == b
    decreases |a|
  {
    SameLength(a, b);
    if a != [] {
      var n := |a| - 1;
      AscendingIsSorted(a);
      AscendingIsSorted(b);
      SortedFront(a, a[n], IdKey);
      SortedFront(b, b[n], IdKey);
      SortedFront(a, b[n], IdKey);
      SortedFront(b, a[n], IdKey);
      AscendingIsUnique(a[..n], b[..n]);
      SameEnds(a, b);
    }
  }

  lemma SortIgnoresOrder(a: seq<nat>, b: seq<nat>)
    requires multiset(a) == multiset(b)
    ensures SortIds(a) == SortIds(b)
  {
    SortIdsAscends(a);
    SortIdsAscends(b);
    AscendingIsUnique(SortIds(a), SortIds(b));
  }

  // ----- Selections of options -----

  /** The selected options' resources, in option order. */
  ghost function ResourcesBelow(options: seq<Choice>, x: set<nat>, n: nat): seq<nat>
    requires n <= |options|
  {
    if n == 0 then [] else
      ResourcesBelow(options, x, n - 1) + if n - 1 in x then [options[n - 1].resource] else []
  }

  ghost function CostBelow(options: seq<Choice>, x: set<nat>, n: nat): nat
    requires n <= |options|
  {
    if n == 0 then 0 else
      CostBelow(options, x, n - 1) + if n - 1 in x then options[n - 1].cost else 0
  }

  ghost function TargetsOf(options: seq<Choice>, x: set<nat>): seq<nat> {
    SortIds(ResourcesBelow(options, x, |options|))
  }

  ghost function CostOf(options: seq<Choice>, x: set<nat>): nat {
    CostBelow(options, x, |options|)
  }

  ghost predicate IsSelection(options: seq<Choice>, x: set<nat>) {
    x <= Below(|options|)
  }

  /** Some selected option is in the set. */
  ghost predicate HitsSet(inst: Instance, x: set<nat>, s: nat) {
    s < |inst.sets| && exists o :: o in x && o < |inst.options| && inst.options[o].resource in inst.sets[s]
  }

  ghost predicate IsHittingSet(inst: Instance, x: set<nat>) {
    IsSelection(inst.options, x) && forall s {:trigger HitsSet(inst, x, s)} :: 0 <= s < |inst.sets| ==>
      HitsSet(inst, x, s)
  }

  /** `targets` at `cost` is no worse than the selection `x`. */
  ghost predicate NoWorse(options: seq<Choice>, targets: seq<nat>, cost: nat, x: set<nat>) {
    !Better(TargetsOf(options, x), CostOf(options, x), targets, cost)
  }

  ghost predicate IsReached(inst: Instance, targets: seq<nat>, cost: nat) {
    exists x :: IsHittingSet(inst, x) && TargetsOf(inst.options, x) == targets && CostOf(inst.options, x) == cost
  }

  /** `targets` at `cost` is a hitting set that no other betters. */
  ghost predicate IsBest(inst: Instance, targets: seq<nat>, cost: nat) {
    IsReached(inst, targets, cost) && forall x :: IsHittingSet(inst, x) ==> NoWorse(inst.options, targets, cost, x)
  }

  /** The targets lead every hitting set: none is cheaper, none as cheap has fewer targets, and against one as cheap and
      as large the first resource where they differ is the smaller. */
  ghost predicate LeadsAll(inst: Instance, targets: seq<nat>, cost: nat) {
    forall x :: IsHittingSet(inst, x) ==> Leads(targets, cost, TargetsOf(inst.options, x), CostOf(inst.options, x))
  }

  /** The best hitting set is the one that leads every other. */
  lemma BestLeads(inst: Instance, targets: seq<nat>, cost: nat)
    ensures IsBest(inst, targets, cost) <==> IsReached(inst, targets, cost) && LeadsAll(inst, targets, cost)
  {
    forall x | IsHittingSet(inst, x)
      ensures NoWorse(inst.options, targets, cost, x)
         <==> Leads(targets, cost, TargetsOf(inst.options, x), CostOf(inst.options, x))
    {
      NotBetterLeads(targets, cost, TargetsOf(inst.options, x), CostOf(inst.options, x));
    }
  }

  /** There is at most one best hitting set. */
  lemma BestIsUnique(inst: Instance, a: seq<nat>, aCost: nat, b: seq<nat>, bCost: nat)
    requires IsBest(inst, a, aCost) && IsBest(inst, b, bCost)
    ensures a == b && aCost == bCost
  {
    var x :| IsHittingSet(inst, x) && TargetsOf(inst.options, x) == a && CostOf(inst.options, x) == aCost;
    var y :| IsHittingSet(inst, y) && TargetsOf(inst.options, y) == b && CostOf(inst.options, y) == bCost;
    assert NoWorse(inst.options, a, aCost, y) && NoWorse(inst.options, b, bCost, x);
    BetterIsTotal(a, aCost, b, bCost);
  }

  /** Being best does not depend on the order, or the repetition, of the sets. */
  lemma BestIgnoresSetOrder(inst: Instance, other: Instance, targets: seq<nat>, cost: nat)
    requires inst.options == other.options
    requires forall s :: s in inst.sets <==> s in other.sets
    requires IsBest(inst, targets, cost)
    ensures IsBest(other, targets, cost)
  {
    forall x
      ensures IsHittingSet(inst, x) <==> IsHittingSet(other, x)
    {
      HittingIgnoresSetOrder(inst, other, x);
      HittingIgnoresSetOrder(other, inst, x);
    }
  }

  lemma HittingIgnoresSetOrder(inst: Instance, other: Instance, x: set<nat>)
    requires inst.options == other.options
    requires forall s :: s in other.sets ==> s in inst.sets
    ensures IsHittingSet(inst, x) ==> IsHittingSet(other, x)
  {
    if IsHittingSet(inst, x) {
      forall s | 0 <= s < |other.sets|
        ensures HitsSet(other, x, s)
      {
        assert other.sets[s] in inst.sets;
        var i :| 0 <= i < |inst.sets| && inst.sets[i] == other.sets[s];
        assert HitsSet(inst, x, i);
      }
    }
  }

  // ----- How cost and targets grow with the selection -----

  lemma {:induction false} AddOption(options: seq<Choice>, x: set<nat>, o: nat, n: nat)
    requires n <= |options| && o !in x
    ensures o < n ==> CostBelow(options, x + {o}, n) == CostBelow(options, x, n) + options[o].cost
    ensures o < n ==>
            multiset(ResourcesBelow(options, x + {o}, n)) == multiset(ResourcesBelow(options, x, n))
            + multiset{options[o].resource}
    ensures o >= n ==> CostBelow(options, x + {o}, n) == CostBelow(options, x, n)
    ensures o >= n ==> ResourcesBelow(options, x + {o}, n) == ResourcesBelow(options, x, n)
  {
    if n > 0 {
      AddOption(options, x, o, n - 1);
    }
  }

  lemma {:induction false} NothingSelected(options: seq<Choice>, n: nat)
    requires n <= |options|
    ensures CostBelow(options, {}, n) == 0 && ResourcesBelow(options, {}, n) == []
  {
    if n > 0 {
      NothingSelected(options, n - 1);
    }
  }

  /** A larger selection costs no less and has no fewer targets; one with as many is the same. */
  lemma {:induction false} LargerIsNoCheaper(options: seq<Choice>, x: set<nat>, y: set<nat>, n: nat)
    requires n <= |options| && x <= y
    ensures CostBelow(options, x, n) <= CostBelow(options, y, n)
    ensures |ResourcesBelow(options, x, n)| <= |ResourcesBelow(options, y, n)|
    ensures |ResourcesBelow(options, x, n)| == |ResourcesBelow(options, y, n)| ==>
              ResourcesBelow(options, x, n) == ResourcesBelow(options, y, n)
  {
    if n > 0 {
      LargerIsNoCheaper(options, x, y, n - 1);
    }
  }

  lemma TargetCount(options: seq<Choice>, x: set<nat>)
    ensures |TargetsOf(options, x)| == |ResourcesBelow(options, x, |options|)|
  {
    var r := ResourcesBelow(options, x, |options|);
    assert |multiset(SortIds(r))| == |SortIds(r)| && |multiset(r)| == |r|;
  }

  /** No selection is better than a part of it. */
  lemma PartIsNoWorse(options: seq<Choice>, x: set<nat>, y: set<nat>)
    requires x <= y
    ensures NoWorse(options, TargetsOf(options, x), CostOf(options, x), y)
  {
    LargerIsNoCheaper(options, x, y, |options|);
    TargetCount(options, x);
    TargetCount(options, y);
    LexIsIrreflexive(TargetsOf(options, x));
  }
}
