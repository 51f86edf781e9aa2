/** What an assessment is worth: when it answers, that its answer is the truth, and when its witnesses cover every
    loop. */
module Coverage {
  import opened Sets
  import opened Graph
  import opened Probe
  import opened SimpleCycles
  import opened SearchOrder
  import opened Agreement
  import opened Topology
  import opened Evidence
  import opened Witness
  import opened HopViews
  import opened WitnessSearch
  import opened Completeness
  import opened Existence
  import opened Detector

  /** The loops of the question that name only selectors in scope are all covered by `ws`. */
  ghost predicate Covers(q: Question, scope: seq<nat>, ws: seq<LoopWitness>, maxHops: nat) {
    forall w {:trigger IsLoop(q, w, maxHops)} ::
      IsLoop(q, w, maxHops) && (forall s :: s in w.selectors ==> InScope(scope, s)) ==>
      exists v :: v in ws && v.cycle == w.cycle && v.hops == w.hops && forall s :: s in w.selectors ==> s in v.selectors
  }

  /** The cycles the bounded search does not come to. */
  ghost function MissedCycles(q: Question, scope: seq<nat>, limits: Limits): seq<Cycle>
    requires IsPosed(q) && limits.maxWitnesses > 0
  {
    WholeSearch(q, scope, limits).cycles[Emitted(limits, WholeSearch(q, scope, limits))..]
  }

  /** A search that its bounds stop has come to the first cycles: by their smallest resource, and of one smallest
      resource by the edge, in canonical order, where they part. */
  lemma EmittedComeFirst(q: Question, scope: seq<nat>, limits: Limits, c: Cycle, d: Cycle)
    requires IsPosed(q) && Sane(limits) && q.t.resources != []
    requires c in EmittedCycles(q, scope, limits) && d in MissedCycles(q, scope, limits)
    ensures ComesBefore(SettingOf(q, scope, limits).hops, c, d)
  {
    var g, cycles := SettingOf(q, scope, limits), WholeSearch(q, scope, limits).cycles;
    var n := Emitted(limits, WholeSearch(q, scope, limits));
    SearchGoesInOrder(g.hops, g.Full(), g.maxDepth, g.nodeCount);
    var i :| 0 <= i < n && cycles[..n][i] == c;
    var j :| 0 <= j < |cycles| - n && cycles[n..][j] == d;
    assert ComesBefore(g.hops, cycles[i], cycles[n + j]);
  }

  // ----- Searching is for what is there -----

  /** Where any candidate has a proven cycle there are resources. */
  lemma CycleNeedsResources(q: Question, scope: seq<nat>, limits: Limits)
    requires IsPosed(q) && IsSearched(q, scope, limits)
    ensures q.t.resources != []
  {
    var s :| s in CandidatesIn(q, scope) && HasCycle(CarryingArcs(q.t, q.table, s, Proven));
    if q.t.edges == [] {
      RankedGraphIsAcyclic(CarryingArcs(q.t, q.table, s, Proven), map[]);
    } else {
      assert EdgeFits(q.t.resources, q.t.selectors, q.t.edges[0]);
    }
  }

  /** A cycle found is a proven cycle of some candidate. */
  lemma FoundIsProven(q: Question, scope: seq<nat>, limits: Limits, c: Cycle)
    requires IsPosed(q) && limits.maxWitnessHops > 0 && q.t.resources != []
    requires IsRootedCycle(SettingOf(q, scope, limits).hops, c)
    requires Common(SettingOf(q, scope, limits).hops, SettingOf(q, scope, limits).Full(), c) != {}
    ensures SomeCycleAmong(q.t, q.table, CandidatesIn(q, scope), Proven)
  {
    var g, candidates := SettingOf(q, scope, limits), CandidatesIn(q, scope);
    var k :| k in Common(g.hops, g.Full(), c);
    CycleGivesWalk(g.hops, g.Full(), k, c);
    ViewsOfAreViews(q.t, q.table, candidates);
    CandidateCycles(q.t, q.table, candidates, g.hops, k, Proven);
    assert candidates[k] in candidates;
  }

  lemma RootInRange(g: Setting, c: Cycle)
    requires g.Valid() && IsRootedCycle(g.hops, c)
    ensures g.hops[c[0]].fromNode < g.nodeCount
  {
    assert TakesOpenHop(g.hops, g.hops[c[0]].fromNode, c, 0);
  }

  /** A proven cycle is found, unless the length bound cuts the search. */
  lemma ProvenIsFound(q: Question, scope: seq<nat>, limits: Limits)
    requires IsPosed(q) && limits.maxWitnessHops > 0 && IsSearched(q, scope, limits)
    requires WholeSearch(q, scope, limits).cycles == []
    ensures WholeSearch(q, scope, limits).Pruned()
  {
    var g, candidates := SettingOf(q, scope, limits), CandidatesIn(q, scope);
    CycleNeedsResources(q, scope, limits);
    SettingFits(q, scope, limits);
    CyclesFound(q, scope, limits);
    var s :| s in candidates && HasCycle(CarryingArcs(q.t, q.table, s, Proven));
    var k :| 0 <= k < |candidates| && candidates[k] == s;
    CandidateCycles(q.t, q.table, candidates, g.hops, k, Proven);
    var c := WalkGivesCycle(g.hops, g.Full(), k);
    RootInRange(g, c);
    if !WholeSearch(q, scope, limits).Pruned() {
      UnprunedMeansAll(g.hops, g.Full(), g.maxDepth, g.nodeCount, g.hops[c[0]].fromNode, c);
      assert FoundFrom(g.hops, g.Full(), g.maxDepth, g.nodeCount, c);
    }
  }

  // ----- Loops and cycles -----

  /** A simple cycle is no longer than there are nodes. */
  lemma RootedCycleFits(g: Setting, c: Cycle)
    requires g.Valid() && IsRootedCycle(g.hops, c)
    ensures |c| <= g.nodeCount
  {
    var nodes := CycleNodes(g.hops, c);
    forall i, j | 0 <= i < j < |nodes|
      ensures nodes[i] != nodes[j]
    {
      assert NodesDiffer(g.hops, g.hops[c[0]].fromNode, c, i, j);
    }
    CountDecidesDuplicates(nodes);
    forall x | x in Elements(nodes)
      ensures x in Below(g.nodeCount)
    {
      var i :| 0 <= i < |nodes| && nodes[i] == x;
      CycleNodesInRange(g, c, i);
    }
    SubsetIsNoLarger(Elements(nodes), Below(g.nodeCount));
  }

  lemma LoopSelectorsAreCandidates(q: Question, scope: seq<nat>, w: LoopWitness, maxHops: nat)
    requires IsPosed(q) && EdgeIdsDistinct(q.t.edges) && IsLoop(q, w, maxHops)
    requires forall s :: s in w.selectors ==> InScope(scope, s)
    ensures forall s :: s in w.selectors ==> s in CandidatesIn(q, scope)
  {
    CandidatesHold(q, scope);
    assert HopHolds(q, w, 0);
    var e := EdgeIndex(q.t.edges, w.hops[0]).value;
    forall s | s in w.selectors
      ensures s in CandidatesIn(q, scope)
    {
      assert Carries(q.t, q.table, s, HopClass.Conflicted, e);
    }
  }

  lemma LoopNeedsResources(q: Question, w: LoopWitness, maxHops: nat)
    requires IsLoop(q, w, maxHops)
    ensures q.t.resources != []
  {
    assert HopHolds(q, w, 0);
  }

  lemma LoopIsUsable(q: Question, w: LoopWitness, maxHops: nat)
    requires IsLoop(q, w, maxHops)
    ensures CycleIsUsable(q.t, HopNumbers(q, w))
  {
    forall i | 0 <= i < |w.hops|
      ensures EdgeIsUsable(q.t, HopNumbers(q, w)[i])
    {
      assert HopHolds(q, w, i);
    }
  }

  /** Every loop in scope is one of the usable cycles of the search without bounds. */
  lemma LoopIsCycle(q: Question, scope: seq<nat>, limits: Limits, w: LoopWitness)
    requires IsPosed(q) && limits.maxWitnessHops > 0 && EdgeIdsDistinct(q.t.edges)
             && IsLoop(q, w, limits.maxWitnessHops)
    requires forall s :: s in w.selectors ==> InScope(scope, s)
    ensures HopNumbers(q, w) in WholeSearch(q, scope, limits).cycles && CycleIsUsable(q.t, HopNumbers(q, w))
    ensures SomeCycleAmong(q.t, q.table, CandidatesIn(q, scope), Proven)
  {
    var nm, g, c := NamingOf(q, scope), SettingOf(q, scope, limits), HopNumbers(q, w);
    LoopNeedsResources(q, w, limits.maxWitnessHops);
    LoopSelectorsAreCandidates(q, scope, w, limits.maxWitnessHops);
    SettingFits(q, scope, limits);
    LoopIsRootedCycle(q, nm, g, w, limits.maxWitnessHops);
    assert w.selectors[0] in nm.candidates;
    var k :| 0 <= k < |nm.candidates| && nm.candidates[k] == w.selectors[0];
    assert k in Common(g.hops, g.Full(), c);
    RootInRange(g, c);
    RootedCycleFits(g, c);
    CyclesFound(q, scope, limits);
    assert FoundFrom(g.hops, g.Full(), g.maxDepth, g.nodeCount, c);
    FoundIsProven(q, scope, limits, c);
    LoopIsUsable(q, w, limits.maxWitnessHops);
  }

  /** What the detector makes of a cycle, whether it comes to it or not. */
  ghost function Namesake(q: Question, scope: seq<nat>, limits: Limits, c: Cycle): LoopWitness
    requires IsPosed(q) && c != [] && c[0] < |SettingOf(q, scope, limits).hops|
  {
    var nm, g := NamingOf(q, scope), SettingOf(q, scope, limits);
    var nodes := CycleNodes(g.hops, c);
    WithEvidence(q.store, LoopWitness(
      seq(|c|, i requires 0 <= i < |c| => if nodes[i] < |q.t.resources| then q.t.resources[nodes[i]].id else 0),
      seq(|c|, i requires 0 <= i < |c| => if c[i] < |q.t.edges| then q.t.edges[c[i]].id else 0),
      Chosen(nm.candidates, Common(g.hops, g.Full(), c)), q.current, |DomainsOfNodes(q.t, nodes)| > 1, {}))
  }

  lemma NamesakeShows(q: Question, scope: seq<nat>, limits: Limits, c: Cycle)
    requires IsPosed(q) && limits.maxWitnessHops > 0 && q.t.resources != [] && c in WholeSearch(q, scope, limits).cycles
    ensures c != [] && c[0] < |SettingOf(q, scope, limits).hops|
    ensures Shows(q, scope, limits, c, Namesake(q, scope, limits, c))
    ensures forall s :: s in Namesake(q, scope, limits, c).selectors ==> InScope(scope, s)
  {
    var nm, g := NamingOf(q, scope), SettingOf(q, scope, limits);
    SettingFits(q, scope, limits);
    CyclesFound(q, scope, limits);
    assert FoundFrom(g.hops, g.Full(), g.maxDepth, g.nodeCount, c);
    forall i | 0 <= i < |c|
      ensures c[i] < |q.t.edges| && CycleNodes(g.hops, c)[i] < |q.t.resources|
    {
      CycleNodesInRange(g, c, i);
    }
    ChosenMeans(nm.candidates, Common(g.hops, g.Full(), c));
    CollectedAscends(q.t, q.table, |q.table|);
    RestrictedMeans(Collected(q.t, q.table, |q.table|), scope);
  }

  // ----- Coverage -----

  ghost predicate AllFound(q: Question, scope: seq<nat>, limits: Limits, ws: seq<LoopWitness>)
    requires IsPosed(q)
  {
    forall w {:trigger w in ws} :: w in ws ==>
      exists c :: c in WholeSearch(q, scope, limits).cycles && Shows(q, scope, limits, c, w)
  }

  /** A witness shows no two cycles. */
  lemma ShowsOne(q: Question, scope: seq<nat>, limits: Limits, a: Cycle, b: Cycle, v: LoopWitness, w: LoopWitness)
    requires IsPosed(q) && EdgeIdsDistinct(q.t.edges) && v.hops == w.hops
    requires Shows(q, scope, limits, a, v) && Shows(q, scope, limits, b, w)
    ensures a == b
  {
    SameHops(q.t, a, b, v.hops);
  }

  lemma CoveredIsShown(q: Question, scope: seq<nat>, limits: Limits, ws: seq<LoopWitness>, c: Cycle)
    requires IsPosed(q) && limits.maxWitnessHops > 0 && EdgeIdsDistinct(q.t.edges) && q.t.resources != []
    requires AllFound(q, scope, limits, ws) && Covers(q, scope, ws, limits.maxWitnessHops)
    requires c in WholeSearch(q, scope, limits).cycles && CycleIsUsable(q.t, c)
    ensures IsShown(q, scope, limits, c, ws)
  {
    NamesakeShows(q, scope, limits, c);
    var x := Namesake(q, scope, limits, c);
    ShownIsLoop(q, scope, limits, c, x);
    var v :| v in ws && v.cycle == x.cycle && v.hops == x.hops && forall s :: s in x.selectors ==> s in v.selectors;
    var b :| b in WholeSearch(q, scope, limits).cycles && Shows(q, scope, limits, b, v);
    ShowsOne(q, scope, limits, c, b, x, v);
  }

  lemma ShownIsCovered(q: Question, scope: seq<nat>, limits: Limits, ws: seq<LoopWitness>, w: LoopWitness)
    requires IsPosed(q) && limits.maxWitnessHops > 0 && EdgeIdsDistinct(q.t.edges)
    requires IsLoop(q, w, limits.maxWitnessHops) && forall s :: s in w.selectors ==> InScope(scope, s)
    requires IsShown(q, scope, limits, HopNumbers(q, w), ws)
    ensures exists v :: v in ws && v.cycle == w.cycle && v.hops == w.hops && forall s :: s in w.selectors ==>
            s in v.selectors
  {
    LoopNeedsResources(q, w, limits.maxWitnessHops);
    LoopSelectorsAreCandidates(q, scope, w, limits.maxWitnessHops);
    SettingFits(q, scope, limits);
    var v :| v in ws && Shows(q, scope, limits, HopNumbers(q, w), v);
    WitnessOfLoopMatches(q, NamingOf(q, scope), SettingOf(q, scope, limits), w, v.(evidence := {}),
                         limits.maxWitnessHops);
  }

  /** Witnesses of cycles cover every loop in scope exactly when they show every usable cycle. */
  lemma CoversDecides(q: Question, scope: seq<nat>, limits: Limits, ws: seq<LoopWitness>)
    requires IsPosed(q) && limits.maxWitnessHops > 0 && EdgeIdsDistinct(q.t.edges) && q.t.resources != []
    requires AllFound(q, scope, limits, ws)
    ensures Covers(q, scope, ws, limits.maxWitnessHops) <==>
            forall c :: c in WholeSearch(q, scope, limits).cycles && CycleIsUsable(q.t, c) ==>
              IsShown(q, scope, limits, c, ws)
  {
    var cycles := WholeSearch(q, scope, limits).cycles;
    if Covers(q, scope, ws, limits.maxWitnessHops) {
      forall c | c in cycles && CycleIsUsable(q.t, c)
        ensures IsShown(q, scope, limits, c, ws)
      {
        CoveredIsShown(q, scope, limits, ws, c);
      }
    }
    if forall c :: c in cycles && CycleIsUsable(q.t, c) ==> IsShown(q, scope, limits, c, ws) {
      forall w | IsLoop(q, w, limits.maxWitnessHops) && forall s :: s in w.selectors ==> InScope(scope, s)
        ensures exists v :: v in ws && v.cycle == w.cycle && v.hops == w.hops && forall s :: s in w.selectors ==>
                s in v.selectors
      {
        LoopIsCycle(q, scope, limits, w);
        ShownIsCovered(q, scope, limits, ws, w);
      }
    }
  }

  ghost predicate AllEmitted(q: Question, scope: seq<nat>, limits: Limits, ws: seq<LoopWitness>)
    requires IsPosed(q) && limits.maxWitnesses > 0
  {
    forall w {:trigger w in ws} :: w in ws ==>
      exists c :: c in EmittedCycles(q, scope, limits) && Shows(q, scope, limits, c, w)
  }

  lemma EmittedOrMissed(q: Question, scope: seq<nat>, limits: Limits, c: Cycle)
    requires IsPosed(q) && Sane(limits) && q.t.resources != []
    ensures c in WholeSearch(q, scope, limits).cycles
            <==> c in EmittedCycles(q, scope, limits) || c in MissedCycles(q, scope, limits)
    ensures !(c in EmittedCycles(q, scope, limits) && c in MissedCycles(q, scope, limits))
  {
    var emitted, missed, cycles :=
      EmittedCycles(q, scope, limits), MissedCycles(q, scope, limits), WholeSearch(q, scope, limits).cycles;
    assert cycles == emitted + missed;
    CyclesFound(q, scope, limits);
    forall i, j | 0 <= i < |emitted| && 0 <= j < |missed|
      ensures emitted[i] != missed[j]
    {
      assert cycles[i] != cycles[|emitted| + j];
    }
  }

  /** What is emitted is found. */
  lemma EmittedIsFound(q: Question, scope: seq<nat>, limits: Limits, ws: seq<LoopWitness>)
    requires IsPosed(q) && Sane(limits) && q.t.resources != [] && AllEmitted(q, scope, limits, ws)
    ensures AllFound(q, scope, limits, ws)
  {
    forall w | w in ws
      ensures exists c :: c in WholeSearch(q, scope, limits).cycles && Shows(q, scope, limits, c, w)
    {
      var c :| c in EmittedCycles(q, scope, limits) && Shows(q, scope, limits, c, w);
      EmittedOrMissed(q, scope, limits, c);
    }
  }

  /** What is missed is not shown. */
  lemma MissedIsNotShown(q: Question, scope: seq<nat>, limits: Limits, ws: seq<LoopWitness>, c: Cycle)
    requires IsPosed(q) && Sane(limits) && EdgeIdsDistinct(q.t.edges) && q.t.resources != []
    requires AllEmitted(q, scope, limits, ws) && c in MissedCycles(q, scope, limits)
    ensures !IsShown(q, scope, limits, c, ws)
  {
    EmittedOrMissed(q, scope, limits, c);
    forall w | w in ws
      ensures !Shows(q, scope, limits, c, w)
    {
      var b :| b in EmittedCycles(q, scope, limits) && Shows(q, scope, limits, b, w);
      if Shows(q, scope, limits, c, w) {
        ShowsOne(q, scope, limits, b, c, w, w);
      }
    }
  }

  /** What is emitted is shown where it is usable, and what is missed is not shown. */
  ghost predicate ShowsEmitted(q: Question, scope: seq<nat>, limits: Limits, ws: seq<LoopWitness>)
    requires IsPosed(q) && limits.maxWitnesses > 0
  {
    && (forall c :: c in EmittedCycles(q, scope, limits) ==>
        (CycleIsUsable(q.t, c) <==> IsShown(q, scope, limits, c, ws)))
    && forall c :: c in MissedCycles(q, scope, limits) ==> !IsShown(q, scope, limits, c, ws)
  }

  lemma ShownUnlessMissed(q: Question, scope: seq<nat>, limits: Limits, ws: seq<LoopWitness>)
    requires IsPosed(q) && limits.maxWitnesses > 0 && ShowsEmitted(q, scope, limits, ws)
    ensures NoneUsable(q.t, MissedCycles(q, scope, limits)) <==>
            forall c :: c in WholeSearch(q, scope, limits).cycles && CycleIsUsable(q.t, c) ==>
              IsShown(q, scope, limits, c, ws)
  {
    var cycles := WholeSearch(q, scope, limits).cycles;
    assert cycles == EmittedCycles(q, scope, limits) + MissedCycles(q, scope, limits);
    assert forall c :: c in cycles <==> c in EmittedCycles(q, scope, limits) || c in MissedCycles(q, scope, limits);
  }

  lemma SearchedCoverage(q: Question, scope: seq<nat>, limits: Limits, a: LoopAssessment)
    requires IsPosed(q) && Sane(limits) && EdgeIdsDistinct(q.t.edges) && q.t.resources != []
    requires WitnessesFit(q, scope, limits, a) && a.bounds.dropped == 0
    ensures Covers(q, scope, a.witnesses, limits.maxWitnessHops) <==> NoneUsable(q.t, MissedCycles(q, scope, limits))
  {
    EmittedIsFound(q, scope, limits, a.witnesses);
    forall c | c in MissedCycles(q, scope, limits)
      ensures !IsShown(q, scope, limits, c, a.witnesses)
    {
      MissedIsNotShown(q, scope, limits, a.witnesses, c);
    }
    ShownUnlessMissed(q, scope, limits, a.witnesses);
    CoversDecides(q, scope, limits, a.witnesses);
  }

  /** Without a search there is nothing to show, and all there is to cover is missed. */
  lemma UnsearchedCoverage(q: Question, scope: seq<nat>, limits: Limits)
    requires IsPosed(q) && Sane(limits) && EdgeIdsDistinct(q.t.edges)
    ensures Covers(q, scope, [], limits.maxWitnessHops) <==> NoneUsable(q.t, WholeSearch(q, scope, limits).cycles)
    ensures !SomeCycleAmong(q.t, q.table, CandidatesIn(q, scope), Proven) ==>
            Covers(q, scope, [], limits.maxWitnessHops)
  {
    if q.t.resources == [] {
      forall w
        ensures !IsLoop(q, w, limits.maxWitnessHops)
      {
        if IsLoop(q, w, limits.maxWitnessHops) {
          LoopNeedsResources(q, w, limits.maxWitnessHops);
        }
      }
    } else {
      CoversDecides(q, scope, limits, []);
      CyclesFound(q, scope, limits);
      var g := SettingOf(q, scope, limits);
      forall c | c in WholeSearch(q, scope, limits).cycles
        ensures SomeCycleAmong(q.t, q.table, CandidatesIn(q, scope), Proven)
      {
        assert FoundFrom(g.hops, g.Full(), g.maxDepth, g.nodeCount, c);
        FoundIsProven(q, scope, limits, c);
      }
    }
  }

  // ----- What is dropped -----

  ghost function ShowerOf(q: Question, scope: seq<nat>, limits: Limits, c: Cycle,
                          ws: seq<LoopWitness>): (w: LoopWitness)
    requires IsPosed(q) && IsShown(q, scope, limits, c, ws)
    ensures w in ws && Shows(q, scope, limits, c, w)
  {
    var w :| w in ws && Shows(q, scope, limits, c, w);
    w
  }

  ghost predicate AllShown(q: Question, scope: seq<nat>, limits: Limits, cycles: seq<Cycle>, ws: seq<LoopWitness>)
    requires IsPosed(q)
  {
    forall i {:trigger cycles[i]} :: 0 <= i < |cycles| ==> IsShown(q, scope, limits, cycles[i], ws)
  }

  lemma {:induction false} AllOfThem(ws: seq<LoopWitness>)
    ensures |set w | w in ws| <= |ws|
  {
    if ws != [] {
      var last := |ws| - 1;
      AllOfThem(ws[..last]);
      assert (set w | w in ws) == (set w | w in ws[..last]) + {ws[last]};
    }
  }

  /** It takes as many witnesses as there are cycles to show. */
  lemma EachNeedsItsOwn(q: Question, scope: seq<nat>, limits: Limits, cycles: seq<Cycle>, ws: seq<LoopWitness>)
    requires IsPosed(q) && EdgeIdsDistinct(q.t.edges) && Distinct(cycles) && AllShown(q, scope, limits, cycles, ws)
    ensures |cycles| <= |ws|
  {
    var n := |cycles|;
    var shown := seq(n, i requires 0 <= i < n => ShowerOf(q, scope, limits, cycles[i], ws));
    if n > |ws| {
      AllOfThem(ws);
      var i, j := Pigeonhole(shown, set w | w in ws);
      ShowsOne(q, scope, limits, cycles[i], cycles[j], shown[i], shown[j]);
    }
  }

  lemma EmittedDiffers(q: Question, scope: seq<nat>, limits: Limits)
    requires IsPosed(q) && Sane(limits) && q.t.resources != []
    ensures Distinct(EmittedCycles(q, scope, limits))
    ensures forall c :: c in EmittedCycles(q, scope, limits) ==> c in WholeSearch(q, scope, limits).cycles
  {
    CyclesFound(q, scope, limits);
  }

  /** A witness dropped for its cost leaves a loop uncovered: whatever is kept shows fewer cycles than were emitted, and
      every one of them is a loop. */
  lemma DroppingLeavesALoop(q: Question, scope: seq<nat>, limits: Limits, a: LoopAssessment)
    requires IsPosed(q) && Sane(limits) && EdgeIdsDistinct(q.t.edges) && AllUsable(q.t, EmittedCycles(q, scope, limits))
    requires AssessmentHolds(q, scope, limits, a) && a.bounds.dropped > 0
    ensures !Covers(q, scope, a.witnesses, limits.maxWitnessHops)
  {
    CycleNeedsResources(q, scope, limits);
    EmittedDiffers(q, scope, limits);
    if Covers(q, scope, a.witnesses, limits.maxWitnessHops) {
      EmittedIsFound(q, scope, limits, a.witnesses);
      forall i | 0 <= i < |EmittedCycles(q, scope, limits)|
        ensures IsShown(q, scope, limits, EmittedCycles(q, scope, limits)[i], a.witnesses)
      {
        assert EmittedCycles(q, scope, limits)[i] in EmittedCycles(q, scope, limits);
        CoveredIsShown(q, scope, limits, a.witnesses, EmittedCycles(q, scope, limits)[i]);
      }
      EachNeedsItsOwn(q, scope, limits, EmittedCycles(q, scope, limits), a.witnesses);
    }
  }

  /** Validating what the search emits stays within the budget. */
  ghost predicate FitsValidation(q: Question, scope: seq<nat>, limits: Limits)
    requires IsPosed(q) && limits.maxWitnesses > 0
  {
    WithinBudget(q.t, EmittedCycles(q, scope, limits))
  }

  /** An assessment covers every loop in scope exactly when the search came to every usable cycle, or did not have to
      come to any, as long as validating what was emitted stays within its budget. Where it does not, and every cycle
      emitted is usable, a loop is left uncovered. */
  lemma CoverageDecides(q: Question, scope: seq<nat>, limits: Limits, a: LoopAssessment)
    requires IsPosed(q) && Sane(limits) && EdgeIdsDistinct(q.t.edges) && AssessmentHolds(q, scope, limits, a)
    requires FitsValidation(q, scope, limits) || AllUsable(q.t, EmittedCycles(q, scope, limits))
    ensures Covers(q, scope, a.witnesses, limits.maxWitnessHops) <==>
            if IsSearched(q, scope, limits)
            then FitsValidation(q, scope, limits) && NoneUsable(q.t, MissedCycles(q, scope, limits))
            else !GivesUp(q, scope, limits) || NoneUsable(q.t, WholeSearch(q, scope, limits).cycles)
  {
    if !IsSearched(q, scope, limits) {
      UnsearchedCoverage(q, scope, limits);
    } else if a.bounds.dropped == 0 {
      CycleNeedsResources(q, scope, limits);
      SearchedCoverage(q, scope, limits, a);
    } else {
      DroppingLeavesALoop(q, scope, limits, a);
    }
  }

  // ----- Answers -----

  /** There is a cycle within the length bound, and the first of them is closed before the steps run out. */
  ghost predicate FirstInTime(limits: Limits, total: Report) {
    total.cycles != [] && |total.at| > 0 && total.at[0] <= limits.maxSearchSteps
  }

  lemma FirstDecides(limits: Limits, total: Report)
    requires IsTimed(total) && limits.maxWitnesses > 0 && limits.maxCyclesEnumerated > 0
    ensures Emitted(limits, total) > 0 <==> FirstInTime(limits, total)
  {
    WithinHolds(total.at, limits.maxSearchSteps);
    assert StopAt(limits) < |total.at| && StopAt(limits) > 0 ==> total.at[0] < total.at[StopAt(limits)];
    assert |total.at| > 0 ==> (total.at[0] <= limits.maxSearchSteps <==> 0 < Within(total.at, limits.maxSearchSteps));
  }

  lemma AllInTime(limits: Limits, total: Report)
    requires IsTimed(total) && limits.maxWitnesses > 0 && !OverBudget(limits, total)
    ensures Emitted(limits, total) == |total.cycles|
  {
    WithinMeans(total.at, limits.maxSearchSteps, |total.at|);
  }

  /** Where no state is unknown, every cycle found is usable. */
  lemma KnownAreUsable(q: Question, scope: seq<nat>, limits: Limits)
    requires IsPosed(q) && limits.maxWitnessHops > 0 && StatesKnown(q.t) && q.t.resources != []
    ensures AllUsable(q.t, WholeSearch(q, scope, limits).cycles)
  {
    var g := SettingOf(q, scope, limits);
    SettingFits(q, scope, limits);
    CyclesFound(q, scope, limits);
    forall c | c in WholeSearch(q, scope, limits).cycles
      ensures CycleIsUsable(q.t, c)
    {
      assert FoundFrom(g.hops, g.Full(), g.maxDepth, g.nodeCount, c);
      KnownIsUsable(q, NamingOf(q, scope), g, c);
    }
  }

  /** The answers: an answer given is the one the hop table calls for, and the question is left open exactly when the
      existence proof is given up, or a proven cycle exists and no usable one is emitted. */
  lemma AnswerDecides(q: Question, scope: seq<nat>, limits: Limits, a: LoopAssessment)
    requires IsPosed(q) && limits.maxWitnesses > 0 && EdgeIdsDistinct(q.t.edges) && AssessmentHolds(q, scope, limits, a)
    ensures a.outcome != Indeterminate ==> a.outcome == Truth(q.t, q.table, scope)
    ensures a.outcome == Indeterminate <==>
            || GivesUp(q, scope, limits)
            || (SomeCycle(q.t, q.table, scope, Proven) && NoneUsable(q.t, EmittedCycles(q, scope, limits)))
  {
    CandidatesHold(q, scope);
    CandidatesSuffice(q.t, q.table, scope, CandidatesIn(q, scope));
  }

  /** Over a definition whose states are known, the question is answered exactly when the existence proof is carried
      through and, where a proven cycle exists, the search closes a first one within the bounds on length and steps. */
  lemma CleanAnswerDecides(q: Question, scope: seq<nat>, limits: Limits, a: LoopAssessment)
    requires IsPosed(q) && Sane(limits) && Clean(q.t) && AssessmentHolds(q, scope, limits, a)
    ensures a.outcome == (if GivesUp(q, scope, limits) ||
                             (SomeCycle(q.t, q.table, scope, Proven)
                              && !FirstInTime(limits, WholeSearch(q, scope, limits)))
                          then Indeterminate else Truth(q.t, q.table, scope))
  {
    AnswerDecides(q, scope, limits, a);
    CandidatesHold(q, scope);
    CandidatesSuffice(q.t, q.table, scope, CandidatesIn(q, scope));
    if IsSearched(q, scope, limits) {
      CycleNeedsResources(q, scope, limits);
      KnownAreUsable(q, scope, limits);
      FirstDecides(limits, WholeSearch(q, scope, limits));
      EmittedOrNone(q, scope, limits);
    }
  }

  /** The conditions under which the validator can refuse nothing the search emits. */
  ghost predicate Clean(t: TopologyDefinition) {
    StatesKnown(t) && EdgeIdsDistinct(t.edges)
  }

  lemma EmittedOrNone(q: Question, scope: seq<nat>, limits: Limits)
    requires IsPosed(q) && limits.maxWitnesses > 0 && AllUsable(q.t, WholeSearch(q, scope, limits).cycles)
    ensures AllUsable(q.t, EmittedCycles(q, scope, limits))
    ensures NoneUsable(q.t, EmittedCycles(q, scope, limits)) <==> Emitted(limits, WholeSearch(q, scope, limits)) == 0
  {
    var emitted := EmittedCycles(q, scope, limits);
    assert forall c :: c in emitted ==> c in WholeSearch(q, scope, limits).cycles;
    assert emitted != [] ==> emitted[0] in emitted;
  }

  /** The bounds on selectors, memory, steps, cycles and witnesses leave room for all there is to do. */
  ghost predicate HasBudget(q: Question, scope: seq<nat>, limits: Limits)
    requires IsPosed(q) && limits.maxWitnesses > 0
  {
    && !GivesUp(q, scope, limits) && !OverBudget(limits, WholeSearch(q, scope, limits))
    && WithinBudget(q.t, WholeSearch(q, scope, limits).cycles)
  }

  /** Nothing the whole search finds is missed. */
  lemma NothingMissed(q: Question, scope: seq<nat>, limits: Limits)
    requires IsPosed(q) && limits.maxWitnesses > 0 && !OverBudget(limits, WholeSearch(q, scope, limits))
    ensures EmittedCycles(q, scope, limits) == WholeSearch(q, scope, limits).cycles
            && MissedCycles(q, scope, limits) == []
    ensures WholeSearch(q, scope, limits).cycles != [] ==> FirstInTime(limits, WholeSearch(q, scope, limits))
  {
    var total := WholeSearch(q, scope, limits);
    AllInTime(limits, total);
    assert total.cycles != [] ==> 1 <= total.at[0] <= total.steps;
  }

  /** With budget enough, the answer is the truth unless the length bound hides the only cycles, and the witnesses cover
      every loop. */
  lemma EnoughBudget(q: Question, scope: seq<nat>, limits: Limits, a: LoopAssessment)
    requires IsPosed(q) && Sane(limits) && Clean(q.t) && AssessmentHolds(q, scope, limits, a)
    requires HasBudget(q, scope, limits)
    ensures !WholeSearch(q, scope, limits).Pruned() ==> a.outcome == Truth(q.t, q.table, scope)
    ensures a.bounds.dropped == 0 && Covers(q, scope, a.witnesses, limits.maxWitnessHops)
  {
    NothingMissed(q, scope, limits);
    CoverageDecides(q, scope, limits, a);
    if !WholeSearch(q, scope, limits).Pruned() {
      EnoughAnswers(q, scope, limits, a);
    }
  }

  lemma EnoughAnswers(q: Question, scope: seq<nat>, limits: Limits, a: LoopAssessment)
    requires IsPosed(q) && Sane(limits) && Clean(q.t) && AssessmentHolds(q, scope, limits, a)
    requires HasBudget(q, scope, limits) && !WholeSearch(q, scope, limits).Pruned()
    ensures a.outcome == Truth(q.t, q.table, scope)
  {
    CleanAnswerDecides(q, scope, limits, a);
    CandidatesHold(q, scope);
    CandidatesSuffice(q.t, q.table, scope, CandidatesIn(q, scope));
    NothingMissed(q, scope, limits);
    if IsSearched(q, scope, limits) && WholeSearch(q, scope, limits).cycles == [] {
      ProvenIsFound(q, scope, limits);
    }
  }

  /** What an assessment keeps are loops, for selectors in scope. */
  lemma KeptAreInScope(q: Question, scope: seq<nat>, limits: Limits, a: LoopAssessment)
    requires IsPosed(q) && limits.maxWitnesses > 0 && AssessmentHolds(q, scope, limits, a)
    ensures AllLoops(q, a.witnesses, limits.maxWitnessHops)
    ensures forall w, s :: w in a.witnesses && s in w.selectors ==> InScope(scope, s)
  {
    CollectedAscends(q.t, q.table, |q.table|);
    RestrictedMeans(Collected(q.t, q.table, |q.table|), scope);
    var nm, g := NamingOf(q, scope), SettingOf(q, scope, limits);
    forall w, s | w in a.witnesses && s in w.selectors
      ensures InScope(scope, s)
    {
      var c :| c in EmittedCycles(q, scope, limits) && Shows(q, scope, limits, c, w);
      ChosenMeans(nm.candidates, Common(g.hops, g.Full(), c));
    }
  }

  lemma MissedAreUsable(q: Question, scope: seq<nat>, limits: Limits)
    requires IsPosed(q) && limits.maxWitnesses > 0 && AllUsable(q.t, WholeSearch(q, scope, limits).cycles)
    ensures NoneUsable(q.t, MissedCycles(q, scope, limits)) <==> MissedCycles(q, scope, limits) == []
  {
    var missed := MissedCycles(q, scope, limits);
    assert forall c :: c in missed ==> c in WholeSearch(q, scope, limits).cycles;
    assert missed != [] ==> missed[0] in missed;
  }

  /** Exactly when an assessment leaves a loop uncovered with no flag to say so: the search is called for and meets
      neither the bound on cycles nor the one on length; it emits something; and either the steps run out before the
      last cycle, or validating what it emits goes over the budget. */
  lemma SilentExactly(q: Question, scope: seq<nat>, limits: Limits, a: LoopAssessment)
    requires IsPosed(q) && Sane(limits) && Clean(q.t) && AssessmentHolds(q, scope, limits, a)
    ensures var total := WholeSearch(q, scope, limits);
            !a.searchLimitReached && !Covers(q, scope, a.witnesses, limits.maxWitnessHops) <==>
            && IsSearched(q, scope, limits) && !StopsAtCycle(limits, total) && !CutSeen(limits, total)
            && 0 < Emitted(limits, total)
            && (Emitted(limits, total) < |total.cycles| || !FitsValidation(q, scope, limits))
    ensures !a.searchLimitReached && IsSearched(q, scope, limits) ==>
              a.outcome == LoopConfirmed && !a.additionalCyclesPossible
  {
    if IsSearched(q, scope, limits) {
      CycleNeedsResources(q, scope, limits);
      KnownAreUsable(q, scope, limits);
      EmittedOrNone(q, scope, limits);
      MissedAreUsable(q, scope, limits);
      CoverageDecides(q, scope, limits, a);
    } else {
      UnsearchedCoverage(q, scope, limits);
    }
  }
}
