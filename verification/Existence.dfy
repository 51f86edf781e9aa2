/** The existence phase of the detector: which kinds of cycle some selector has, and the answer the hop table calls
    for. */
module Existence {
  import opened Graph
  import opened Masks
  import opened Probe
  import opened SimpleCycles
  import opened Agreement
  import opened Topology
  import opened Evidence
  import opened HopViews

  datatype LoopOutcome =
    | NoLoop | LoopConfirmed | LoopUnknown | StaleRequest
    | LoopConflict | InvalidRequest | UnsupportedRequest | Indeterminate

  // ----- What the outcome is to mean -----

  /** Some selector in scope has a cycle using hops of class at most `highest`. */
  ghost predicate SomeCycle(t: TopologyDefinition, table: seq<HopRecord>, scope: seq<nat>, highest: HopClass) {
    exists s :: InScope(scope, s) && HasCycle(CarryingArcs(t, table, s, highest))
  }

  /** Selector `s` has a cycle, but only by traversing a conflicted hop. */
  ghost predicate OnlyByConflict(t: TopologyDefinition, table: seq<HopRecord>, s: nat) {
    HasCycle(CarryingArcs(t, table, s, HopClass.Conflicted)) && !HasCycle(CarryingArcs(t, table, s, HopClass.Unproven))
  }

  ghost predicate SomeOnlyByConflict(t: TopologyDefinition, table: seq<HopRecord>, scope: seq<nat>) {
    exists s :: InScope(scope, s) && OnlyByConflict(t, table, s)
  }

  /** The answer the hop table calls for. */
  ghost function Truth(t: TopologyDefinition, table: seq<HopRecord>, scope: seq<nat>): LoopOutcome {
    if SomeCycle(t, table, scope, Proven) then LoopConfirmed
    else if SomeOnlyByConflict(t, table, scope) then LoopConflict
    else if SomeCycle(t, table, scope, HopClass.Unproven) then LoopUnknown
    else NoLoop
  }

  lemma ArcsGrowWithClass(t: TopologyDefinition, table: seq<HopRecord>, s: nat, low: HopClass, high: HopClass)
    requires low.Rank() <= high.Rank()
    ensures CarryingArcs(t, table, s, low) <= CarryingArcs(t, table, s, high)
    ensures HasCycle(CarryingArcs(t, table, s, low)) ==> HasCycle(CarryingArcs(t, table, s, high))
  {
    forall a | a in CarryingArcs(t, table, s, low)
      ensures a in CarryingArcs(t, table, s, high)
    {
      var i :| 0 <= i < |t.edges| && Carries(t, table, s, low, i)
               && a == Arc(Position(t, t.edges[i].from), Position(t, t.edges[i].to));
      assert Carries(t, table, s, high, i);
    }
    if HasCycle(CarryingArcs(t, table, s, low)) {
      HasCycleIsMonotone(CarryingArcs(t, table, s, low), CarryingArcs(t, table, s, high));
    }
  }

  /** NoLoop is called for exactly when no selector in scope has any cycle of traversable hops. */
  lemma NoLoopMeansNoCycle(t: TopologyDefinition, table: seq<HopRecord>, scope: seq<nat>)
    ensures Truth(t, table, scope) == NoLoop <==> !SomeCycle(t, table, scope, HopClass.Conflicted)
  {
    forall s | InScope(scope, s)
      ensures HasCycle(CarryingArcs(t, table, s, Proven)) ==> HasCycle(CarryingArcs(t, table, s, HopClass.Unproven))
      ensures HasCycle(CarryingArcs(t, table, s, HopClass.Unproven)) ==>
              HasCycle(CarryingArcs(t, table, s, HopClass.Conflicted))
    {
      ArcsGrowWithClass(t, table, s, Proven, HopClass.Unproven);
      ArcsGrowWithClass(t, table, s, HopClass.Unproven, HopClass.Conflicted);
    }
  }

  // ----- The existence phase -----

  datatype Existence = Existence(proven: bool, unproven: bool, conflictOnly: bool, stepsExhausted: bool, steps: nat)

  ghost predicate HasSelectorCycle(views: seq<HopView>, k: nat, highest: HopClass) {
    HasCycle(SelectorArcs(views, k, highest))
  }

  ghost predicate UnprovenAt(views: seq<HopView>, k: nat) {
    !HasSelectorCycle(views, k, Proven) && HasSelectorCycle(views, k, HopClass.Unproven)
  }

  ghost predicate ConflictAt(views: seq<HopView>, k: nat) {
    && !HasSelectorCycle(views, k, Proven) && !HasSelectorCycle(views, k, HopClass.Unproven)
    && HasSelectorCycle(views, k, HopClass.Conflicted)
  }

  /** What the existence flags say of the candidates numbered below `n`. */
  ghost predicate ExistenceHolds(views: seq<HopView>, n: nat, e: Existence) {
    && (e.proven <==> exists k :: 0 <= k < n && HasSelectorCycle(views, k, Proven))
    && (e.unproven <==> exists k :: 0 <= k < n && UnprovenAt(views, k))
    && (e.conflictOnly <==> exists k :: 0 <= k < n && ConflictAt(views, k))
  }

  lemma OneMoreSelector(views: seq<HopView>, k: nat, before: Existence, e: Existence)
    requires ExistenceHolds(views, k, before)
    requires e.proven == (before.proven || HasSelectorCycle(views, k, Proven))
    requires e.unproven == (before.unproven || UnprovenAt(views, k))
    requires e.conflictOnly == (before.conflictOnly || ConflictAt(views, k))
    ensures ExistenceHolds(views, k + 1, e)
  {
  }

  ghost function ArcsBelow(views: seq<HopView>, s: nat, n: nat, highest: HopClass): set<Arc> {
    set i | 0 <= i < n && CarriesWithin(views, s, highest, i) && i < |views| :: Arc(views[i].fromNode, views[i].toNode)
  }

  lemma ArcsBelowStep(views: seq<HopView>, s: nat, n: nat, highest: HopClass)
    requires n < |views|
    ensures ArcsBelow(views, s, n + 1, highest)
         == ArcsBelow(views, s, n, highest)
            + if CarriesWithin(views, s, highest, n) then {Arc(views[n].fromNode, views[n].toNode)} else {}
  {
  }

  lemma ArcsOfOneMore(edges: seq<Edge>, e: Edge, highest: HopClass)
    ensures Arcs(edges + [e], highest) == Arcs(edges, highest) + if e.Usable(highest) then {Arc(e.from, e.to)} else {}
  {
    var more := edges + [e];
    assert more[|edges|] == e;
    forall a | a in Arcs(edges, highest)
      ensures a in Arcs(more, highest)
    {
      var i :| 0 <= i < |edges| && edges[i].Usable(highest) && a == Arc(edges[i].from, edges[i].to);
      assert more[i] == edges[i];
    }
  }

  ghost predicate EndpointsInRange(views: seq<HopView>, nodeCount: nat) {
    forall i {:trigger views[i]} :: 0 <= i < |views| && views[i].traversable ==>
      views[i].fromNode < nodeCount && views[i].toNode < nodeCount
  }

  /** Loads the hops that carry candidate `s` into the probe. */
  method LoadProbe(views: seq<HopView>, s: nat, probe: CycleProbe) returns (touched: bool)
    requires probe.Valid() && EndpointsInRange(views, probe.nodeCount)
    modifies probe
    ensures probe.Valid()
    ensures forall highest :: Arcs(probe.edges, highest) == SelectorArcs(views, s, highest)
    ensures !touched ==> probe.edges == []
  {
    probe.Clear();
    touched := false;
    for i := 0 to |views|
      invariant probe.Valid()
      invariant !touched ==> probe.edges == []
      invariant forall highest :: Arcs(probe.edges, highest) == ArcsBelow(views, s, i, highest)
    {
      ghost var before := probe.edges;
      var view := views[i];
      if view.traversable && HasBit(view.mask, s) {
        touched := true;
        probe.AddEdge(view.fromNode, view.toNode, view.klass);
      }
      forall highest
        ensures Arcs(probe.edges, highest) == ArcsBelow(views, s, i + 1, highest)
      {
        ArcsBelowStep(views, s, i, highest);
        ArcsOfOneMore(before, Edge(view.fromNode, view.toNode, view.klass), highest);
      }
    }
    forall highest
      ensures ArcsBelow(views, s, |views|, highest) == SelectorArcs(views, s, highest)
    {
    }
  }

  /** The verdict on one selector. */
  method ProbeSelector(views: seq<HopView>, k: nat, probe: CycleProbe, before: Existence) returns (e: Existence)
    requires probe.Valid() && EndpointsInRange(views, probe.nodeCount)
    requires ExistenceHolds(views, k, before)
    modifies probe
    ensures probe.Valid()
    ensures ExistenceHolds(views, k + 1, e)
    ensures e.steps == before.steps && e.stepsExhausted == before.stepsExhausted
  {
    var touched := LoadProbe(views, k, probe);
    e := before;
    if touched {
      e := AskProbe(views, k, probe, before);
    } else {
      forall highest
        ensures !HasSelectorCycle(views, k, highest)
      {
        assert Arcs(probe.edges, highest) == {};
        RankedGraphIsAcyclic(Arcs(probe.edges, highest), map[]);
      }
    }
    OneMoreSelector(views, k, before, e);
  }

  method AskProbe(views: seq<HopView>, k: nat, probe: CycleProbe, before: Existence) returns (e: Existence)
    requires probe.Valid()
    requires forall highest :: Arcs(probe.edges, highest) == SelectorArcs(views, k, highest)
    modifies probe
    ensures probe.Valid()
    ensures e == before.(proven := before.proven || HasSelectorCycle(views, k, Proven),
                         unproven := before.unproven || UnprovenAt(views, k),
                         conflictOnly := before.conflictOnly || ConflictAt(views, k))
  {
    ghost var edges := probe.edges;
    assert Arcs(edges, Proven) == SelectorArcs(views, k, Proven);
    assert Arcs(edges, HopClass.Unproven) == SelectorArcs(views, k, HopClass.Unproven);
    assert Arcs(edges, HopClass.Conflicted) == SelectorArcs(views, k, HopClass.Conflicted);
    var found := probe.HasCycle(Proven);
    if found {
      return before.(proven := true);
    }
    found := probe.HasCycle(HopClass.Unproven);
    if found {
      return before.(unproven := true);
    }
    found := probe.HasCycle(HopClass.Conflicted);
    e := if found then before.(conflictOnly := true) else before;
  }

  /** Asks the probe about every candidate, as long as the step budget lasts. */
  method Exists(views: seq<HopView>, nodeCount: nat, candidateCount: nat, maxSearchSteps: nat) returns (e: Existence)
    requires EndpointsInRange(views, nodeCount)
    ensures e.stepsExhausted <==> candidateCount * |views| > maxSearchSteps
    ensures !e.stepsExhausted ==> ExistenceHolds(views, candidateCount, e)
  {
    e := Existence(false, false, false, false, 0);
    var probe := new CycleProbe(nodeCount);
    var k := 0;
    while k < candidateCount && !e.stepsExhausted
      invariant k <= candidateCount && probe.Valid() && probe.nodeCount == nodeCount && fresh(probe)
      invariant !e.stepsExhausted ==> e.steps == k * |views| <= maxSearchSteps && ExistenceHolds(views, k, e)
      invariant e.stepsExhausted ==> candidateCount * |views| > maxSearchSteps
      decreases !e.stepsExhausted, candidateCount - k
    {
      e := e.(steps := e.steps + |views|);
      ProductGrows(k, candidateCount, |views|);
      if e.steps > maxSearchSteps {
        e := e.(stepsExhausted := true);
      } else {
        e := ProbeSelector(views, k, probe, e);
        k := k + 1;
      }
    }
  }

  lemma ProductGrows(k: nat, n: nat, size: nat)
    requires k < n
    ensures k * size + size == (k + 1) * size <= n * size
  {
  }

  // ----- From flags on candidates to the truth about selectors -----

  /** Some candidate has a cycle using hops of class at most `highest`. */
  ghost predicate SomeCycleAmong(t: TopologyDefinition, table: seq<HopRecord>, candidates: seq<nat>,
                                 highest: HopClass) {
    exists s :: s in candidates && HasCycle(CarryingArcs(t, table, s, highest))
  }

  ghost predicate SomeOnlyByConflictAmong(t: TopologyDefinition, table: seq<HopRecord>, candidates: seq<nat>) {
    exists s :: s in candidates && OnlyByConflict(t, table, s)
  }

  /** The answer the hop table calls for where only the candidates are asked about. */
  ghost function TruthAmong(t: TopologyDefinition, table: seq<HopRecord>, candidates: seq<nat>): LoopOutcome {
    if SomeCycleAmong(t, table, candidates, Proven) then LoopConfirmed
    else if SomeOnlyByConflictAmong(t, table, candidates) then LoopConflict
    else if SomeCycleAmong(t, table, candidates, HopClass.Unproven) then LoopUnknown
    else NoLoop
  }

  lemma CandidateCycles(t: TopologyDefinition, table: seq<HopRecord>, candidates: seq<nat>, views: seq<HopView>, k: nat,
                        highest: HopClass)
    requires AreViewsOf(t, table, candidates, views) && k < |candidates|
    ensures HasSelectorCycle(views, k, highest) <==> HasCycle(CarryingArcs(t, table, candidates[k], highest))
  {
    ViewsCarry(t, table, candidates, views, k, highest);
  }

  lemma KindsOfCycle(t: TopologyDefinition, table: seq<HopRecord>, candidates: seq<nat>, views: seq<HopView>, k: nat)
    requires AreViewsOf(t, table, candidates, views) && k < |candidates|
    ensures HasSelectorCycle(views, k, Proven) <==> HasCycle(CarryingArcs(t, table, candidates[k], Proven))
    ensures ConflictAt(views, k) <==> OnlyByConflict(t, table, candidates[k])
    ensures UnprovenAt(views, k) <==> HasCycle(CarryingArcs(t, table, candidates[k], HopClass.Unproven))
                                      && !HasCycle(CarryingArcs(t, table, candidates[k], Proven))
  {
    CandidateCycles(t, table, candidates, views, k, Proven);
    CandidateCycles(t, table, candidates, views, k, HopClass.Unproven);
    CandidateCycles(t, table, candidates, views, k, HopClass.Conflicted);
    ArcsGrowWithClass(t, table, candidates[k], Proven, HopClass.Unproven);
  }

  /** The existence flags pick out the answer the hop table calls for among the candidates. */
  lemma FlagsGiveTruth(t: TopologyDefinition, table: seq<HopRecord>, candidates: seq<nat>, views: seq<HopView>,
                       e: Existence)
    requires AreViewsOf(t, table, candidates, views) && ExistenceHolds(views, |candidates|, e)
    ensures e.proven <==> SomeCycleAmong(t, table, candidates, Proven)
    ensures TruthAmong(t, table, candidates) == if e.proven then LoopConfirmed else if e.conflictOnly then LoopConflict
                                                else if e.unproven then LoopUnknown else NoLoop
  {
    forall k | 0 <= k < |candidates|
      ensures HasSelectorCycle(views, k, Proven) <==> HasCycle(CarryingArcs(t, table, candidates[k], Proven))
      ensures ConflictAt(views, k) <==> OnlyByConflict(t, table, candidates[k])
      ensures UnprovenAt(views, k) <==> HasCycle(CarryingArcs(t, table, candidates[k], HopClass.Unproven))
                                        && !HasCycle(CarryingArcs(t, table, candidates[k], Proven))
    {
      KindsOfCycle(t, table, candidates, views, k);
    }
    assert forall k :: 0 <= k < |candidates| ==> candidates[k] in candidates;
  }

  /** The candidates are the selectors in scope that some traversable hop offers. */
  ghost predicate AreCandidates(t: TopologyDefinition, table: seq<HopRecord>, scope: seq<nat>, candidates: seq<nat>) {
    forall s :: s in candidates <==> OfferedBy(t, table, |table|, s) && InScope(scope, s)
  }

  /** Asking about the candidates is asking about every selector in scope. */
  lemma CandidatesSuffice(t: TopologyDefinition, table: seq<HopRecord>, scope: seq<nat>, candidates: seq<nat>)
    requires IsTableOf(t, table) && AreCandidates(t, table, scope, candidates)
    ensures forall highest :: SomeCycleAmong(t, table, candidates, highest) <==> SomeCycle(t, table, scope, highest)
    ensures TruthAmong(t, table, candidates) == Truth(t, table, scope)
  {
    forall s, highest | InScope(scope, s) && HasCycle(CarryingArcs(t, table, s, highest))
      ensures s in candidates
    {
      if !OfferedBy(t, table, |table|, s) {
        OnlyOfferedSelectorsCycle(t, table, s, highest);
      }
    }
    assert forall s :: s in candidates ==> InScope(scope, s);
    assert SomeOnlyByConflictAmong(t, table, candidates) <==> SomeOnlyByConflict(t, table, scope);
  }
}
