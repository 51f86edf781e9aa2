/** The exact hitting-set search: branch and bound with counts updated and undone in place,
    a strict cost prune, and a node budget. */
module BranchAndBound {
  import opened Lists
  import opened Sets
  import opened Topology
  import opened HittingSet

  /** The instance as the search indexes it: the options that hit each set. */
  datatype Problem = Problem(options: seq<Choice>, setOptions: seq<seq<nat>>) {
    ghost predicate Valid() {
      forall s, j {:trigger setOptions[s][j]} :: 0 <= s < |setOptions| && 0 <= j < |setOptions[s]| ==>
        setOptions[s][j] < |options|
    }

    /** The sets no option of `current` hits. */
    ghost function Uncovered(current: seq<nat>): set<nat> {
      set s | 0 <= s < |setOptions| && IsUncovered(current, s)
    }

    ghost predicate IsUncovered(current: seq<nat>, s: nat) {
      s < |setOptions| && forall o :: o in current ==> o !in setOptions[s]
    }
  }

  /** The best hitting set so far, the nodes counted, and whether the budget ran out. */
  datatype Status = Status(have: bool, best: seq<nat>, bestCost: nat, nodes: nat, exhausted: bool)

  ghost function SeqCost(options: seq<Choice>, current: seq<nat>): nat {
    if current == [] then 0 else
      var last := current[|current| - 1];
      SeqCost(options, current[..|current| - 1]) + if last < |options| then options[last].cost else 0
  }

  ghost function SeqTargets(options: seq<Choice>, current: seq<nat>): seq<nat> {
    if current == [] then [] else
      var last := current[|current| - 1];
      SeqTargets(options, current[..|current| - 1]) + if last < |options| then [options[last].resource] else []
  }

  // ----- The search as a function -----

  /** Among the first `n` sets, the uncovered one with the fewest options, the first of them. */
  ghost function BranchAmong(pb: Problem, current: seq<nat>, n: nat): (r: Option<nat>)
    requires n <= |pb.setOptions|
    ensures r.Some? ==> r.value < n && pb.IsUncovered(current, r.value)
    ensures r.None? ==> forall s :: 0 <= s < n ==> !pb.IsUncovered(current, s)
  {
    if n == 0 then None else
      var before := BranchAmong(pb, current, n - 1);
      if !pb.IsUncovered(current, n - 1) then before
      else if before.None? || |pb.setOptions[n - 1]| < |pb.setOptions[before.value]| then Some(n - 1)
      else before
  }

  ghost function BranchSet(pb: Problem, current: seq<nat>): Option<nat> {
    BranchAmong(pb, current, |pb.setOptions|)
  }

  lemma FewerUncovered(pb: Problem, current: seq<nat>, b: nat, o: nat)
    requires pb.IsUncovered(current, b) && o in pb.setOptions[b]
    ensures |pb.Uncovered(current + [o])| < |pb.Uncovered(current)|
  {
    var more := current + [o];
    assert o in more;
    forall s | s in pb.Uncovered(more)
      ensures s in pb.Uncovered(current) - {b}
    {
      assert forall p :: p in current ==> p in more;
    }
    SubsetIsNoLarger(pb.Uncovered(more), pb.Uncovered(current) - {b});
  }

  ghost function Offer(pb: Problem, current: seq<nat>, st: Status): Status {
    var targets, cost := SortIds(SeqTargets(pb.options, current)), SeqCost(pb.options, current);
    if ObjectiveBetter(targets, cost, st.best, st.bestCost, st.have) then
      st.(have := true, best := targets, bestCost := cost)
    else st
  }

  ghost function Search(pb: Problem, budget: nat, current: seq<nat>, st: Status): Status
    requires pb.Valid()
    decreases |pb.Uncovered(current)|, 2, 0
  {
    if st.exhausted then st
    else if st.nodes + 1 > budget then st.(nodes := st.nodes + 1, exhausted := true)
    else AtNode(pb, budget, current, st.(nodes := st.nodes + 1))
  }

  /** What is done at a node that was counted. */
  ghost function AtNode(pb: Problem, budget: nat, current: seq<nat>, st: Status): Status
    requires pb.Valid()
    decreases |pb.Uncovered(current)|, 1, 0
  {
    var branch := BranchSet(pb, current);
    if branch.None? then Offer(pb, current, st) else Branch(pb, budget, current, branch.value, 0, st)
  }

  /** Tries the options of set `b` from number `j` on. */
  ghost function Branch(pb: Problem, budget: nat, current: seq<nat>, b: nat, j: nat, st: Status): Status
    requires pb.Valid() && pb.IsUncovered(current, b) && j <= |pb.setOptions[b]|
    decreases |pb.Uncovered(current)|, 0, |pb.setOptions[b]| - j
  {
    if j == |pb.setOptions[b]| then st else
      var o := pb.setOptions[b][j];
      if st.have && SeqCost(pb.options, current) + pb.options[o].cost > st.bestCost then
         Branch(pb, budget, current, b, j + 1, st)
      else
        FewerUncovered(pb, current, b, o);
        var next := Search(pb, budget, current + [o], st);
        if next.exhausted then next else Branch(pb, budget, current, b, j + 1, next)
  }

  // ----- Optimality -----

  ghost predicate HitsAll(pb: Problem, x: set<nat>) {
    && IsSelection(pb.options, x)
    && forall s {:trigger Meets(pb, x, s)} :: 0 <= s < |pb.setOptions| ==> Meets(pb, x, s)
  }

  ghost predicate Meets(pb: Problem, x: set<nat>, s: nat) {
    s < |pb.setOptions| && exists o :: o in x && o in pb.setOptions[s]
  }

  ghost predicate Incumbent(pb: Problem, st: Status) {
    st.have ==>
      exists x :: HitsAll(pb, x) && TargetsOf(pb.options, x) == st.best && CostOf(pb.options, x) == st.bestCost
  }

  /** The status is no worse than before. */
  ghost predicate Improves(before: Status, after: Status) {
    before.have ==> after.have && !Better(before.best, before.bestCost, after.best, after.bestCost)
  }

  ghost predicate Beaten(pb: Problem, st: Status, x: set<nat>) {
    st.have && NoWorse(pb.options, st.best, st.bestCost, x)
  }

  ghost function Members(current: seq<nat>): set<nat> {
    set o | o in current
  }

  ghost predicate DistinctOptions(pb: Problem, current: seq<nat>) {
    && (forall i :: 0 <= i < |current| ==> current[i] < |pb.options|)
    && forall i, j :: 0 <= i < j < |current| ==> current[i] != current[j]
  }

  lemma {:induction false} SeqAddsUp(options: seq<Choice>, current: seq<nat>)
    requires forall i :: 0 <= i < |current| ==> current[i] < |options|
    requires forall i, j :: 0 <= i < j < |current| ==> current[i] != current[j]
    ensures SeqCost(options, current) == CostOf(options, Members(current))
    ensures multiset(SeqTargets(options, current)) == multiset(ResourcesBelow(options, Members(current), |options|))
    decreases |current|
  {
    if current == [] {
      assert Members(current) == {};
      NothingSelected(options, |options|);
    } else {
      var front, last := current[..|current| - 1], current[|current| - 1];
      SeqAddsUp(options, front);
      assert current == front + [last];
      assert Members(current) == Members(front) + {last};
      AddOption(options, Members(front), last, |options|);
    }
  }

  /** The running cost and the sorted targets are those of the selection made. */
  lemma SeqIsSelection(pb: Problem, current: seq<nat>)
    requires DistinctOptions(pb, current)
    ensures SeqCost(pb.options, current) == CostOf(pb.options, Members(current))
    ensures SortIds(SeqTargets(pb.options, current)) == TargetsOf(pb.options, Members(current))
  {
    SeqAddsUp(pb.options, current);
    SortIgnoresOrder(SeqTargets(pb.options, current), ResourcesBelow(pb.options, Members(current), |pb.options|));
  }

  lemma ImprovesAreBeaten(pb: Problem, before: Status, after: Status, x: set<nat>)
    requires Improves(before, after) && Beaten(pb, before, x)
    ensures Beaten(pb, after, x)
  {
    NotBetterIsTransitive(TargetsOf(pb.options, x), CostOf(pb.options, x), before.best, before.bestCost, after.best,
                          after.bestCost);
  }

  lemma ImprovesIsTransitive(a: Status, b: Status, c: Status)
    requires Improves(a, b) && Improves(b, c)
    ensures Improves(a, c)
  {
    if a.have {
      NotBetterIsTransitive(a.best, a.bestCost, b.best, b.bestCost, c.best, c.bestCost);
    }
  }

  lemma ImprovesIsReflexive(a: Status, b: Status)
    requires a.have == b.have && a.best == b.best && a.bestCost == b.bestCost
    ensures Improves(a, b)
  {
    LexIsIrreflexive(a.best);
  }

  lemma OfferHolds(pb: Problem, current: seq<nat>, st: Status)
    requires pb.Valid() && DistinctOptions(pb, current) && BranchSet(pb, current).None? && Incumbent(pb, st)
    ensures var r := Offer(pb, current, st);
            && Incumbent(pb, r) && Improves(st, r)
            && forall x :: HitsAll(pb, x) && Members(current) <= x ==> Beaten(pb, r, x)
  {
    var r := Offer(pb, current, st);
    var mine := Members(current);
    SeqIsSelection(pb, current);
    LexIsIrreflexive(r.best);
    assert HitsAll(pb, mine) by {
      forall s | 0 <= s < |pb.setOptions|
        ensures Meets(pb, mine, s)
      {
        assert !pb.IsUncovered(current, s);
      }
    }
    if st.have && r == st {
    } else if st.have {
      BetterIsAsymmetric(r.best, r.bestCost, st.best, st.bestCost);
    }
    forall x | HitsAll(pb, x) && mine <= x
      ensures Beaten(pb, r, x)
    {
      PartIsNoWorse(pb.options, mine, x);
      NotBetterIsTransitive(TargetsOf(pb.options, x), CostOf(pb.options, x), TargetsOf(pb.options, mine),
                            CostOf(pb.options, mine),
                            r.best, r.bestCost);
    }
  }

  lemma BetterIsAsymmetric(a: seq<nat>, aCost: nat, b: seq<nat>, bCost: nat)
    requires Better(a, aCost, b, bCost)
    ensures !Better(b, bCost, a, aCost)
  {
    if aCost == bCost && |a| == |b| {
      LexIsAsymmetric(a, b);
    }
  }

  lemma ExtensionIsDistinct(pb: Problem, current: seq<nat>, b: nat, j: nat)
    requires pb.Valid() && DistinctOptions(pb, current) && pb.IsUncovered(current, b) && j < |pb.setOptions[b]|
    ensures DistinctOptions(pb, current + [pb.setOptions[b][j]])
    ensures Members(current + [pb.setOptions[b][j]]) == Members(current) + {pb.setOptions[b][j]}
  {
    assert pb.setOptions[b][j] !in current;
  }

  /** A branch pruned on cost holds nothing better than the incumbent. */
  lemma PruneIsSafe(pb: Problem, current: seq<nat>, o: nat, st: Status, x: set<nat>)
    requires DistinctOptions(pb, current) && o < |pb.options| && o !in current
    requires st.have && SeqCost(pb.options, current) + pb.options[o].cost > st.bestCost
    requires Members(current) <= x && o in x
    ensures Beaten(pb, st, x)
  {
    SeqIsSelection(pb, current);
    AddOption(pb.options, Members(current), o, |pb.options|);
    LargerIsNoCheaper(pb.options, Members(current) + {o}, x, |pb.options|);
  }

  /** What a piece of the search that started from `before` is left with. */
  ghost predicate PieceHolds(pb: Problem, budget: nat, before: Status, after: Status) {
    && Incumbent(pb, after) && Improves(before, after)
    && before.nodes <= after.nodes <= budget + 1
    && (if after.exhausted then after.nodes == budget + 1 else after.nodes <= budget)
  }

  /** Some option of set `b` from number `j` on is in `x`. */
  ghost predicate MeetsFrom(pb: Problem, x: set<nat>, b: nat, j: nat) {
    b < |pb.setOptions| && exists i :: j <= i < |pb.setOptions[b]| && pb.setOptions[b][i] in x
  }

  ghost predicate BeatsExtensions(pb: Problem, current: seq<nat>, st: Status) {
    forall x :: HitsAll(pb, x) && Members(current) <= x ==> Beaten(pb, st, x)
  }

  ghost predicate BeatsFrom(pb: Problem, current: seq<nat>, b: nat, j: nat, st: Status) {
    forall x :: HitsAll(pb, x) && Members(current) <= x && MeetsFrom(pb, x, b, j) ==> Beaten(pb, st, x)
  }

  /** A search that ends within budget leaves an incumbent no hitting set above `current` betters. */
  lemma {:induction false} SearchHolds(pb: Problem, budget: nat, current: seq<nat>, st: Status)
    requires pb.Valid() && DistinctOptions(pb, current) && Incumbent(pb, st)
    requires !st.exhausted && st.nodes <= budget
    ensures var r := Search(pb, budget, current, st);
            PieceHolds(pb, budget, st, r) && (!r.exhausted ==> BeatsExtensions(pb, current, r))
    decreases |pb.Uncovered(current)|, 1, 0
  {
    var counted := st.(nodes := st.nodes + 1);
    ImprovesIsReflexive(st, counted);
    if st.nodes + 1 > budget {
      ImprovesIsReflexive(st, counted.(exhausted := true));
    } else {
      var branch := BranchSet(pb, current);
      if branch.None? {
        OfferHolds(pb, current, counted);
        ImprovesIsTransitive(st, counted, Offer(pb, current, counted));
      } else {
        BranchHolds(pb, budget, current, branch.value, 0, counted);
        var r := Branch(pb, budget, current, branch.value, 0, counted);
        ImprovesIsTransitive(st, counted, r);
        if !r.exhausted {
          forall x | HitsAll(pb, x) && Members(current) <= x
            ensures Beaten(pb, r, x)
          {
            assert Meets(pb, x, branch.value);
          }
        }
      }
    }
  }

  lemma {:induction false} BranchHolds(pb: Problem, budget: nat, current: seq<nat>, b: nat, j: nat, st: Status)
    requires pb.Valid() && DistinctOptions(pb, current) && Incumbent(pb, st)
    requires !st.exhausted && st.nodes <= budget
    requires pb.IsUncovered(current, b) && j <= |pb.setOptions[b]|
    ensures var r := Branch(pb, budget, current, b, j, st);
            PieceHolds(pb, budget, st, r) && (!r.exhausted ==> BeatsFrom(pb, current, b, j, r))
    decreases |pb.Uncovered(current)|, 0, |pb.setOptions[b]| - j
  {
    if j == |pb.setOptions[b]| {
      ImprovesIsReflexive(st, st);
    } else {
      var o := pb.setOptions[b][j];
      if st.have && SeqCost(pb.options, current) + pb.options[o].cost > st.bestCost {
        BranchHolds(pb, budget, current, b, j + 1, st);
        var r := Branch(pb, budget, current, b, j + 1, st);
        if !r.exhausted {
          PrunedOptionIsBeaten(pb, current, b, j, st, r);
        }
      } else {
        ExtensionIsDistinct(pb, current, b, j);
        FewerUncovered(pb, current, b, o);
        SearchHolds(pb, budget, current + [o], st);
        var next := Search(pb, budget, current + [o], st);
        if !next.exhausted {
          BranchHolds(pb, budget, current, b, j + 1, next);
          var r := Branch(pb, budget, current, b, j + 1, next);
          ImprovesIsTransitive(st, next, r);
          if !r.exhausted {
            SearchedOptionIsBeaten(pb, current, b, j, next, r);
          }
        }
      }
    }
  }

  lemma PrunedOptionIsBeaten(pb: Problem, current: seq<nat>, b: nat, j: nat, st: Status, r: Status)
    requires pb.Valid() && DistinctOptions(pb, current) && pb.IsUncovered(current, b) && j < |pb.setOptions[b]|
    requires st.have && SeqCost(pb.options, current) + pb.options[pb.setOptions[b][j]].cost > st.bestCost
    requires Improves(st, r) && BeatsFrom(pb, current, b, j + 1, r)
    ensures BeatsFrom(pb, current, b, j, r)
  {
    var o := pb.setOptions[b][j];
    forall x | HitsAll(pb, x) && Members(current) <= x && MeetsFrom(pb, x, b, j)
      ensures Beaten(pb, r, x)
    {
      if o in x {
        PruneIsSafe(pb, current, o, st, x);
        ImprovesAreBeaten(pb, st, r, x);
      } else {
        assert MeetsFrom(pb, x, b, j + 1);
      }
    }
  }

  lemma SearchedOptionIsBeaten(pb: Problem, current: seq<nat>, b: nat, j: nat, next: Status, r: Status)
    requires pb.Valid() && DistinctOptions(pb, current) && pb.IsUncovered(current, b) && j < |pb.setOptions[b]|
    requires BeatsExtensions(pb, current + [pb.setOptions[b][j]], next)
    requires Improves(next, r) && BeatsFrom(pb, current, b, j + 1, r)
    ensures BeatsFrom(pb, current, b, j, r)
  {
    var o := pb.setOptions[b][j];
    ExtensionIsDistinct(pb, current, b, j);
    forall x | HitsAll(pb, x) && Members(current) <= x && MeetsFrom(pb, x, b, j)
      ensures Beaten(pb, r, x)
    {
      if o in x {
        assert Members(current + [o]) <= x;
        ImprovesAreBeaten(pb, next, r, x);
      } else {
        assert MeetsFrom(pb, x, b, j + 1);
      }
    }
  }
}
