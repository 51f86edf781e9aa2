/** The hitting-set solvers: the in-place branch and bound, and the exhaustive reference. */
module HittingSetSolver {
  import opened Sets
  import opened Topology
  import opened HittingSet
  import opened BranchAndBound
  import opened Order

  datatype ContainmentOutcome =
    | NotRequired | PlanOptimal | PlanFeasible | ProvenInfeasible
    | SearchLimitReached | PlanUnsupported | PlanInvalid

  datatype Solution = Solution(
    outcome: ContainmentOutcome, targets: seq<nat>, totalCost: nat, nodesExpanded: nat,
    provedMinimum: bool, provedInfeasible: bool, hasUnhittableSet: bool, unhittableSet: nat)

  const DEFAULT_SEARCH_NODES: nat := 2_000_000

  // ----- Indexing the instance -----

  /** The option a resource stands for: the last one listed with it. */
  function OptionIndex(options: seq<Choice>, resource: nat): (r: Option<nat>)
    ensures r.Some? ==> r.value < |options| && options[r.value].resource == resource
  {
    if options == [] then None
    else if options[|options| - 1].resource == resource then Some(|options| - 1)
    else OptionIndex(options[..|options| - 1], resource)
  }

  lemma {:induction false} OptionIndexOfDistinct(options: seq<Choice>, o: nat)
    requires OptionsDistinct(options) && o < |options|
    ensures OptionIndex(options, options[o].resource) == Some(o)
    decreases |options|
  {
    if o < |options| - 1 {
      OptionIndexOfDistinct(options[..|options| - 1], o);
    }
  }

  ghost predicate IsOptionOf(inst: Instance, s: nat, o: nat) {
    s < |inst.sets| && exists r :: r in inst.sets[s] && OptionIndex(inst.options, r) == Some(o)
  }

  /** Which options hit which sets, in both directions. */
  ghost predicate IndexFits(inst: Instance, setOptions: seq<seq<nat>>, optionSets: seq<seq<nat>>, n: nat) {
    && |setOptions| == |inst.sets| && |optionSets| == |inst.options| && n <= |inst.sets|
    && (forall s, o {:trigger o in setOptions[s]} :: 0 <= s < n ==> (o in setOptions[s] <==> IsOptionOf(inst, s, o)))
    && (forall s {:trigger setOptions[s]} :: n <= s < |inst.sets| ==> setOptions[s] == [])
    && (forall o, s: nat {:trigger multiset(optionSets[o])[s]} :: 0 <= o < |inst.options| ==>
          (multiset(optionSets[o])[s] > 0 <==> s < n && o in setOptions[s]))
  }

  method IndexSet(inst: Instance, s: nat, setOptions0: seq<seq<nat>>, optionSets0: seq<seq<nat>>)
    returns (setOptions: seq<seq<nat>>, optionSets: seq<seq<nat>>)
    requires s < |inst.sets| && IndexFits(inst, setOptions0, optionSets0, s)
    ensures IndexFits(inst, setOptions, optionSets, s + 1)
  {
    var list: seq<nat> := [];
    optionSets := optionSets0;
    for k := 0 to |inst.sets[s]|
      invariant |optionSets| == |inst.options|
      invariant forall o :: o in list <==>
                exists i :: 0 <= i < k && OptionIndex(inst.options, inst.sets[s][i]) == Some(o)
      invariant forall o, p: nat {:trigger multiset(optionSets[o])[p]} :: 0 <= o < |inst.options| ==>
                  (multiset(optionSets[o])[p] > 0 <==> multiset(optionSets0[o])[p] > 0 || (p == s && o in list))
    {
      var position := OptionIndex(inst.options, inst.sets[s][k]);
      if position.Some? {
        list := InsertUnique(list, position.value);
        optionSets := optionSets[position.value := optionSets[position.value] + [s]];
      }
    }
    setOptions := setOptions0[s := list];
    forall o
      ensures o in list <==> IsOptionOf(inst, s, o)
    {
      if o in list {
        var i :| 0 <= i < |inst.sets[s]| && OptionIndex(inst.options, inst.sets[s][i]) == Some(o);
        assert inst.sets[s][i] in inst.sets[s];
      }
    }
  }

  method BuildIndex(inst: Instance) returns (setOptions: seq<seq<nat>>, optionSets: seq<seq<nat>>)
    ensures IndexFits(inst, setOptions, optionSets, |inst.sets|)
  {
    setOptions, optionSets := seq(|inst.sets|, _ => []), seq(|inst.options|, _ => []);
    assert forall o :: 0 <= o < |inst.options| ==> optionSets[o] == [];
    for s := 0 to |inst.sets|
      invariant IndexFits(inst, setOptions, optionSets, s)
    {
      setOptions, optionSets := IndexSet(inst, s, setOptions, optionSets);
    }
  }

  lemma IndexIsValid(inst: Instance, setOptions: seq<seq<nat>>, optionSets: seq<seq<nat>>)
    requires IndexFits(inst, setOptions, optionSets, |inst.sets|)
    ensures Problem(inst.options, setOptions).Valid()
  {
    forall s, j | 0 <= s < |setOptions| && 0 <= j < |setOptions[s]|
      ensures setOptions[s][j] < |inst.options|
    {
      assert setOptions[s][j] in setOptions[s];
    }
  }

  /** With distinct resources, hitting the indexed sets is hitting the sets. */
  lemma IndexKeepsMeaning(inst: Instance, setOptions: seq<seq<nat>>, optionSets: seq<seq<nat>>, x: set<nat>)
    requires OptionsDistinct(inst.options) && IndexFits(inst, setOptions, optionSets, |inst.sets|)
    ensures HitsAll(Problem(inst.options, setOptions), x) <==> IsHittingSet(inst, x)
  {
    var pb := Problem(inst.options, setOptions);
    forall s | 0 <= s < |inst.sets|
      ensures IsSelection(inst.options, x) ==> (Meets(pb, x, s) <==> HitsSet(inst, x, s))
    {
      if IsSelection(inst.options, x) && HitsSet(inst, x, s) {
        var o :| o in x && o < |inst.options| && inst.options[o].resource in inst.sets[s];
        OptionIndexOfDistinct(inst.options, o);
        assert IsOptionOf(inst, s, o);
        assert o in setOptions[s];
      }
      if IsSelection(inst.options, x) && Meets(pb, x, s) {
        var o :| o in x && o in setOptions[s];
        assert IsOptionOf(inst, s, o);
      }
    }
  }

  // ----- The in-place search -----

  predicate InRange(current: seq<nat>, n: nat) {
    forall i {:trigger current[i]} :: 0 <= i < |current| ==> current[i] < n
  }

  /** How many times the sets listed for the options of `current` name set `s`. */
  ghost function CoverOf(optionSets: seq<seq<nat>>, current: seq<nat>, s: nat): nat {
    if current == [] then 0 else
      var last := current[|current| - 1];
      CoverOf(optionSets, current[..|current| - 1], s) + if last < |optionSets| then multiset(optionSets[last])[s]
        else 0
  }

  lemma {:induction false} CoverDecidesUncovered(inst: Instance, setOptions: seq<seq<nat>>, optionSets: seq<seq<nat>>,
                                                 current: seq<nat>, s: nat)
    requires IndexFits(inst, setOptions, optionSets, |inst.sets|) && s < |inst.sets|
    requires InRange(current, |inst.options|)
    ensures CoverOf(optionSets, current, s) == 0 <==> Problem(inst.options, setOptions).IsUncovered(current, s)
    decreases |current|
  {
    if current != [] {
      var front, last := current[..|current| - 1], current[|current| - 1];
      CoverDecidesUncovered(inst, setOptions, optionSets, front, s);
      assert current == front + [last];
      assert multiset(optionSets[last])[s] > 0 <==> last in setOptions[s];
    }
  }

  predicate Counted(before: nat, hits: nat, after: nat, add: bool) {
    if add then after == before + hits else before == after + hits
  }

  /** Counts the sets of one option in, or out again. */
  method Apply(cover: seq<nat>, list: seq<nat>, add: bool) returns (r: seq<nat>)
    requires InRange(list, |cover|)
    requires !add ==> forall s {:trigger cover[s]} :: 0 <= s < |cover| ==> cover[s] >= multiset(list)[s]
    ensures |r| == |cover|
    ensures forall s {:trigger r[s]} :: 0 <= s < |r| ==> Counted(cover[s], multiset(list)[s], r[s], add)
  {
    r := cover;
    for k := 0 to |list|
      invariant |r| == |cover|
      invariant forall s {:trigger r[s]} :: 0 <= s < |r| ==>
                  Counted(cover[s], multiset(list[..k])[s], r[s], add)
    {
      assert list[..k + 1] == list[..k] + [list[k]];
      if add {
        r := r[list[k] := r[list[k]] + 1];
      } else {
        assert multiset(list) == multiset(list[..k + 1]) + multiset(list[k + 1..]) by {
          assert list == list[..k + 1] + list[k + 1..];
        }
        if r[list[k]] > 0 {
          r := r[list[k] := r[list[k]] - 1];
        }
      }
    }
    assert list[..|list|] == list;
  }

  /** Counts and cost are those of the options on the path. */
  ghost predicate PathHolds(inst: Instance, optionSets: seq<seq<nat>>, cover: seq<nat>, current: seq<nat>, cost: nat) {
    && InRange(current, |inst.options|)
    && |cover| == |inst.sets|
    && (forall s {:trigger cover[s]} :: 0 <= s < |cover| ==> cover[s] == CoverOf(optionSets, current, s))
    && cost == SeqCost(inst.options, current)
  }

  method Taken(inst: Instance, ghost setOptions: seq<seq<nat>>, optionSets: seq<seq<nat>>, cover: seq<nat>,
               current: seq<nat>, cost: nat, option: nat)
    returns (cover': seq<nat>, current': seq<nat>, cost': nat)
    requires IndexFits(inst, setOptions, optionSets, |inst.sets|) && PathHolds(inst, optionSets, cover, current, cost)
    requires option < |inst.options|
    ensures PathHolds(inst, optionSets, cover', current', cost') && current' == current + [option]
  {
    OptionSetsInRange(inst, setOptions, optionSets, option);
    cover' := Apply(cover, optionSets[option], true);
    current' := current + [option];
    cost' := cost + inst.options[option].cost;
    assert current'[..|current|] == current;
  }

  method Undone(inst: Instance, ghost setOptions: seq<seq<nat>>, optionSets: seq<seq<nat>>, cover: seq<nat>,
                current: seq<nat>, cost: nat)
    returns (cover': seq<nat>, current': seq<nat>, cost': nat)
    requires IndexFits(inst, setOptions, optionSets, |inst.sets|) && PathHolds(inst, optionSets, cover, current, cost)
    requires current != []
    ensures PathHolds(inst, optionSets, cover', current', cost') && current' == current[..|current| - 1]
  {
    var option := current[|current| - 1];
    OptionSetsInRange(inst, setOptions, optionSets, option);
    cover' := Apply(cover, optionSets[option], false);
    current' := current[..|current| - 1];
    cost' := cost - inst.options[option].cost;
  }

  lemma OptionSetsInRange(inst: Instance, setOptions: seq<seq<nat>>, optionSets: seq<seq<nat>>, o: nat)
    requires IndexFits(inst, setOptions, optionSets, |inst.sets|) && o < |inst.options|
    ensures InRange(optionSets[o], |inst.sets|)
  {
    forall k | 0 <= k < |optionSets[o]|
      ensures optionSets[o][k] < |inst.sets|
    {
      assert multiset(optionSets[o])[optionSets[o][k]] > 0;
    }
  }

  /** Keeps the better of the incumbent and the options on the path. */
  method Offered(options: seq<Choice>, current: seq<nat>, cost: nat, have: bool, best: seq<nat>, bestCost: nat)
    returns (have': bool, best': seq<nat>, bestCost': nat)
    requires InRange(current, |options|) && cost == SeqCost(options, current)
    ensures forall setOptions, nodes,
            exhausted {:trigger Offer(Problem(options, setOptions), current,
                                      Status(have, best, bestCost, nodes, exhausted))} ::
              Status(have', best', bestCost', nodes, exhausted)
              == Offer(Problem(options, setOptions), current, Status(have, best, bestCost, nodes, exhausted))
  {
    var candidate := CandidateOf(options, current);
    if ObjectiveBetter(candidate, cost, best, bestCost, have) {
      have', best', bestCost' := true, candidate, cost;
    } else {
      have', best', bestCost' := have, best, bestCost;
    }
  }

  /** The sorted resources of the options on a path. */
  method CandidateOf(options: seq<Choice>, current: seq<nat>) returns (candidate: seq<nat>)
    requires InRange(current, |options|)
    ensures candidate == SortIds(SeqTargets(options, current))
  {
    candidate := [];
    for k := 0 to |current|
      invariant candidate == SeqTargets(options, current[..k])
    {
      assert current[..k + 1][..k] == current[..k];
      candidate := candidate + [options[current[k]].resource];
    }
    assert current[..|current|] == current;
    candidate := SortIds(candidate);
  }

  /** The first set without an option. */
  method FindUnhittable(setOptions: seq<seq<nat>>) returns (unhittable: bool, at: nat)
    ensures unhittable <==> exists s :: 0 <= s < |setOptions| && setOptions[s] == []
    ensures unhittable ==> at < |setOptions| && setOptions[at] == [] && forall s :: 0 <= s < at ==> setOptions[s] != []
  {
    for s := 0 to |setOptions|
      invariant forall k :: 0 <= k < s ==> setOptions[k] != []
    {
      if setOptions[s] == [] {
        return true, s;
      }
    }
    return false, 0;
  }

  class HittingSetSearch {
    const instance: Instance
    const budget: nat
    const setOptions: seq<seq<nat>>
    const optionSets: seq<seq<nat>>
    var coverCount: seq<nat>
    var current: seq<nat>
    var best: seq<nat>
    var bestCost: nat
    var runningCost: nat
    var nodes: nat
    var haveBest: bool
    var exhausted: bool
    var unhittable: bool
    var unhittableSet: nat
    var emptyInstance: bool

    ghost function Pb(): Problem {
      Problem(instance.options, setOptions)
    }

    ghost function Status(): Status
      reads this`haveBest, this`best, this`bestCost, this`nodes, this`exhausted
    {
      BranchAndBound.Status(haveBest, best, bestCost, nodes, exhausted)
    }

    ghost predicate Indexed() {
      IndexFits(instance, setOptions, optionSets, |instance.sets|) && Pb().Valid()
    }

    /** Counts and cost are those of the options on the current path. */
    ghost predicate OnPath(path: seq<nat>)
      reads this`coverCount, this`current, this`runningCost
    {
      current == path && PathHolds(instance, optionSets, coverCount, path, runningCost)
    }

    constructor (instance: Instance, budget: nat)
      ensures Indexed() && OnPath([]) && this.instance == instance && this.budget == budget
      ensures Status() == BranchAndBound.Status(false, [], 0, 0, false)
      ensures unhittable <==> exists s :: 0 <= s < |setOptions| && setOptions[s] == []
      ensures unhittable ==> unhittableSet < |setOptions| && setOptions[unhittableSet] == []
      ensures emptyInstance <==> !unhittable && instance.sets == []
    {
      var listed, listing := BuildIndex(instance);
      IndexIsValid(instance, listed, listing);
      this.instance, this.budget, setOptions, optionSets := instance, budget, listed, listing;
      coverCount := seq(|instance.sets|, _ => 0);
      current, best, bestCost, runningCost, nodes := [], [], 0, 0, 0;
      haveBest, exhausted := false, false;
      var found, at := FindUnhittable(listed);
      unhittable, unhittableSet, emptyInstance := found, at, !found && instance.sets == [];
    }

    method ChooseBranchSet() returns (r: Option<nat>)
      requires Indexed() && OnPath(current)
      ensures r == BranchSet(Pb(), current)
    {
      r := None;
      for s := 0 to |coverCount|
        invariant r == BranchAmong(Pb(), current, s)
      {
        CoverDecidesUncovered(instance, setOptions, optionSets, current, s);
        if coverCount[s] == 0 && (r.None? || |setOptions[s]| < |setOptions[r.value]|
                                  || (|setOptions[s]| == |setOptions[r.value]| && s < r.value)) {
          r := Some(s);
        }
      }
    }

    /** Takes an option onto the path. */
    method Choose(option: nat, ghost path: seq<nat>)
      requires Indexed() && OnPath(path) && option < |instance.options|
      modifies this`coverCount, this`current, this`runningCost
      ensures OnPath(path + [option])
    {
      coverCount, current, runningCost :=
        Taken(instance, setOptions, optionSets, coverCount, current, runningCost, option);
    }

    /** Takes the last option off the path again. */
    method Unchoose(ghost path: seq<nat>)
      requires Indexed() && path != [] && OnPath(path)
      modifies this`coverCount, this`current, this`runningCost
      ensures OnPath(path[..|path| - 1])
    {
      coverCount, current, runningCost := Undone(instance, setOptions, optionSets, coverCount, current, runningCost);
    }

    /** The current path as a candidate. */
    method OfferCurrent()
      requires OnPath(current)
      modifies this`best, this`bestCost, this`haveBest
      ensures Status() == Offer(Pb(), current, old(Status()))
    {
      haveBest, best, bestCost := Offered(instance.options, current, runningCost, haveBest, best, bestCost);
    }

    /** Counts a node against the budget. */
    method CountNode()
      requires !exhausted
      modifies this`nodes, this`exhausted
      ensures Status() == old(Status()).(nodes := old(nodes) + 1, exhausted := old(nodes) + 1 > budget)
    {
      nodes := nodes + 1;
      if nodes > budget {
        exhausted := true;
      }
    }

    /** Searches everything above the current path, and leaves the path and its counts as they were. */
    method Search(ghost path: seq<nat>)
      requires Indexed() && OnPath(path)
      modifies this`coverCount, this`current, this`runningCost, this`best, this`bestCost, this`haveBest, this`nodes,
               this`exhausted
      ensures OnPath(path)
      ensures Status() == BranchAndBound.Search(Pb(), budget, path, old(Status()))
      decreases |Pb().Uncovered(path)|, 2
    {
      if exhausted {
        return;
      }
      CountNode();
      if exhausted {
        return;
      }
      SearchNode(path);
    }

    method SearchNode(ghost path: seq<nat>)
      requires Indexed() && OnPath(path) && !exhausted
      modifies this`coverCount, this`current, this`runningCost, this`best, this`bestCost, this`haveBest, this`nodes,
               this`exhausted
      ensures OnPath(path)
      ensures Status() == AtNode(Pb(), budget, path, old(Status()))
      decreases |Pb().Uncovered(path)|, 1
    {
      var branch := ChooseBranchSet();
      if branch.None? {
        OfferCurrent();
      } else {
        SearchBranch(branch.value, path);
      }
    }

    method SearchBranch(b: nat, ghost path: seq<nat>)
      requires Indexed() && OnPath(path) && Pb().IsUncovered(path, b) && !exhausted
      modifies this`coverCount, this`current, this`runningCost, this`best, this`bestCost, this`haveBest, this`nodes,
               this`exhausted
      ensures OnPath(path)
      ensures Status() == Branch(Pb(), budget, path, b, 0, old(Status()))
      decreases |Pb().Uncovered(path)|, 0
    {
      ghost var end := Branch(Pb(), budget, path, b, 0, Status());
      var j := 0;
      while j < |setOptions[b]| && !exhausted
        invariant j <= |setOptions[b]| && OnPath(path)
        invariant end == if exhausted then Status() else Branch(Pb(), budget, path, b, j, Status())
        decreases |setOptions[b]| - j
      {
        var option := setOptions[b][j];
        if !(haveBest && runningCost + instance.options[option].cost > bestCost) {
          FewerUncovered(Pb(), path, b, option);
          Choose(option, path);
          Search(path + [option]);
          Unchoose(path + [option]);
          assert (path + [option])[..|path|] == path;
        }
        j := j + 1;
      }
    }
  }

  // ----- Solving -----

  /** No option can hit set `s`. */
  ghost predicate CannotHit(inst: Instance, s: nat) {
    s < |inst.sets| && forall o {:trigger inst.options[o]} :: 0 <= o < |inst.options| ==>
      inst.options[o].resource !in inst.sets[s]
  }

  ghost predicate SomeSetCannotBeHit(inst: Instance) {
    exists s :: CannotHit(inst, s)
  }

  function Budget(inst: Instance): nat {
    if inst.maxSearchNodes == 0 then DEFAULT_SEARCH_NODES else inst.maxSearchNodes
  }

  /** The search's verdict is truthful under any budget. */
  ghost predicate SolutionHolds(inst: Instance, r: Solution) {
    && r.outcome in {PlanOptimal, PlanFeasible, ProvenInfeasible, SearchLimitReached}
    && (r.outcome == ProvenInfeasible <==> SomeSetCannotBeHit(inst))
    && (r.hasUnhittableSet <==> r.outcome == ProvenInfeasible)
    && (r.hasUnhittableSet ==> CannotHit(inst, r.unhittableSet))
    && (r.outcome in {PlanOptimal, PlanFeasible} ==> IsReached(inst, r.targets, r.totalCost))
    && (r.outcome == PlanOptimal && OptionsDistinct(inst.options) ==> IsBest(inst, r.targets, r.totalCost))
    && (r.provedMinimum <==> r.outcome == PlanOptimal)
    && (r.provedInfeasible <==> r.outcome == ProvenInfeasible)
    && r.nodesExpanded <= Budget(inst) + 1
    && (r.outcome in {PlanFeasible, SearchLimitReached} <==> r.nodesExpanded == Budget(inst) + 1)
  }

  lemma NoOptionIndexed(inst: Instance, setOptions: seq<seq<nat>>, optionSets: seq<seq<nat>>, s: nat)
    requires IndexFits(inst, setOptions, optionSets, |inst.sets|) && s < |inst.sets|
    ensures setOptions[s] == [] <==> CannotHit(inst, s)
  {
    if setOptions[s] != [] {
      assert setOptions[s][0] in setOptions[s];
      assert IsOptionOf(inst, s, setOptions[s][0]);
    } else {
      forall o | 0 <= o < |inst.options|
        ensures inst.options[o].resource !in inst.sets[s]
      {
        ResourceIsIndexed(inst.options, o);
        var i := OptionIndex(inst.options, inst.options[o].resource).value;
        assert inst.options[o].resource in inst.sets[s] ==> IsOptionOf(inst, s, i);
        assert i !in setOptions[s];
      }
    }
  }

  lemma {:induction false} ResourceIsIndexed(options: seq<Choice>, o: nat)
    requires o < |options|
    ensures OptionIndex(options, options[o].resource).Some?
    decreases |options|
  {
    if o < |options| - 1 {
      ResourceIsIndexed(options[..|options| - 1], o);
    }
  }

  /** What the indexed sets are hit by hits the sets, even when resources repeat. */
  lemma IndexIsSound(inst: Instance, setOptions: seq<seq<nat>>, optionSets: seq<seq<nat>>, x: set<nat>)
    requires IndexFits(inst, setOptions, optionSets, |inst.sets|)
    requires HitsAll(Problem(inst.options, setOptions), x)
    ensures IsHittingSet(inst, x)
  {
    var pb := Problem(inst.options, setOptions);
    forall s | 0 <= s < |inst.sets|
      ensures HitsSet(inst, x, s)
    {
      assert Meets(pb, x, s);
      var o :| o in x && o in setOptions[s];
      assert IsOptionOf(inst, s, o);
    }
  }

  /** All options together hit every set that has one. */
  lemma AllOptionsHit(pb: Problem)
    requires pb.Valid() && forall s :: 0 <= s < |pb.setOptions| ==> pb.setOptions[s] != []
    ensures HitsAll(pb, Below(|pb.options|))
  {
    var all := Below(|pb.options|);
    forall s | 0 <= s < |pb.setOptions|
      ensures Meets(pb, all, s)
    {
      assert pb.setOptions[s][0] in all && pb.setOptions[s][0] in pb.setOptions[s];
    }
  }

  ghost predicate RunHolds(inst: Instance, st: Status) {
    && (st.have ==> IsReached(inst, st.best, st.bestCost))
    && (!st.exhausted ==> st.have)
    && (st.have && !st.exhausted && OptionsDistinct(inst.options) ==> IsBest(inst, st.best, st.bestCost))
    && (if st.exhausted then st.nodes == Budget(inst) + 1 else st.nodes <= Budget(inst))
  }

  /** What the whole search ends with. */
  lemma WholeSearchHolds(inst: Instance, setOptions: seq<seq<nat>>, optionSets: seq<seq<nat>>)
    requires IndexFits(inst, setOptions, optionSets, |inst.sets|) && Problem(inst.options, setOptions).Valid()
    requires forall s :: 0 <= s < |setOptions| ==> setOptions[s] != []
    ensures RunHolds(inst, Search(Problem(inst.options, setOptions), Budget(inst), [], Status(false, [], 0, 0, false)))
  {
    var pb, start := Problem(inst.options, setOptions), Status(false, [], 0, 0, false);
    SearchHolds(pb, Budget(inst), [], start);
    var st := Search(pb, Budget(inst), [], start);
    AllOptionsHit(pb);
    assert Members([]) <= Below(|pb.options|);
    assert !st.exhausted ==> Beaten(pb, st, Below(|pb.options|));
    if st.have {
      var x :| HitsAll(pb, x) && TargetsOf(pb.options, x) == st.best && CostOf(pb.options, x) == st.bestCost;
      IndexIsSound(inst, setOptions, optionSets, x);
      if !st.exhausted && OptionsDistinct(inst.options) {
        forall y | IsHittingSet(inst, y)
          ensures NoWorse(inst.options, st.best, st.bestCost, y)
        {
          IndexKeepsMeaning(inst, setOptions, optionSets, y);
          assert Members([]) <= y;
          assert Beaten(pb, st, y);
        }
      }
    }
  }

  /** Nothing has to be selected when there is nothing to hit. */
  lemma EmptyInstanceIsSolved(inst: Instance)
    requires inst.sets == []
    ensures IsBest(inst, [], 0) && !SomeSetCannotBeHit(inst)
  {
    NothingSelected(inst.options, |inst.options|);
    assert IsHittingSet(inst, {}) && TargetsOf(inst.options, {}) == [];
    forall x | IsHittingSet(inst, x)
      ensures NoWorse(inst.options, [], 0, x)
    {
      PartIsNoWorse(inst.options, {}, x);
    }
  }

  method SolveHittingSet(inst: Instance) returns (r: Solution)
    ensures SolutionHolds(inst, r)
    ensures r.outcome == PlanOptimal && OptionsDistinct(inst.options) ==> LeadsAll(inst, r.targets, r.totalCost)
  {
    var search := new HittingSetSearch(inst, Budget(inst));
    r := Solution(ProvenInfeasible, [], 0, 0, false, false, false, 0);
    if search.unhittable {
      NoOptionIndexed(inst, search.setOptions, search.optionSets, search.unhittableSet);
      return r.(provedInfeasible := true, hasUnhittableSet := true, unhittableSet := search.unhittableSet);
    }
    if search.emptyInstance {
      EmptyInstanceIsSolved(inst);
      BestLeads(inst, [], 0);
      return r.(outcome := PlanOptimal, provedMinimum := true);
    }
    forall s: nat
      ensures !CannotHit(inst, s)
    {
      if s < |inst.sets| {
        NoOptionIndexed(inst, search.setOptions, search.optionSets, s);
      }
    }
    WholeSearchHolds(inst, search.setOptions, search.optionSets);
    search.Search([]);
    assert RunHolds(inst, search.Status());
    r := r.(nodesExpanded := search.nodes);
    BestLeads(inst, search.best, search.bestCost);
    if search.haveBest {
      r := r.(targets := search.best, totalCost := search.bestCost, provedMinimum := !search.exhausted,
              outcome := if search.exhausted then PlanFeasible else PlanOptimal);
    } else if search.exhausted {
      r := r.(outcome := SearchLimitReached);
    } else {
      r := r.(provedInfeasible := true);
    }
  }
}
