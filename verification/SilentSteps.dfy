/** A search that runs out of steps says so in no flag of its assessment: a definition of two nodes and three hops,
    every one of them stated open, on which a confirmed assessment has no flag set and leaves a loop uncovered. */
module SilentSteps {
  import opened Masks
  import opened SimpleCycles
  import opened Topology
  import opened Order
  import opened Evidence
  import opened Ledger
  import opened Witness
  import opened HopViews
  import opened WitnessSearch
  import opened Completeness
  import opened Existence
  import opened Detector
  import opened Coverage
  import opened Statements

  /** From 1 to 2, back again, and from 2 to itself. */
  const TWO_NODES: TopologyDefinition := TopologyDefinition(1,
    [ResourceRecord(1, 1, 0, Enabled, false, 0), ResourceRecord(2, 1, 0, Enabled, false, 0)],
    [ForwardingEdge(5, 1, 2, 1, Up, [9]), ForwardingEdge(6, 2, 1, 1, Up, [9]), ForwardingEdge(7, 2, 2, 1, Up, [9])],
      [9])

  const THREE_STEPS: Limits := Limits(8, 10, 100, 3, 4)

  /** The hops as the search sees them. */
  ghost predicate AreTwoNodes(hops: seq<HopView>) {
    && |hops| == 3 && (forall i {:trigger hops[i]} :: 0 <= i < 3 ==> hops[i].Open() && Bits(hops[i].mask) == {0})
    && hops[0].fromNode == 0 && hops[0].toNode == 1 && hops[1].fromNode == 1 && hops[1].toNode == 0
    && hops[2].fromNode == 1 && hops[2].toNode == 1
  }

  lemma OutOfTwoNodes(hops: seq<HopView>)
    requires AreTwoNodes(hops)
    ensures OutHops(hops, 0) == [0] && OutHops(hops, 1) == [1, 2]
  {
    var one, two := hops[..1], hops[..2];
    assert two[..1] == one && hops[..2] == two && one[..0] == [];
    assert OutHops(one, 0) == [0] && OutHops(one, 1) == [];
    assert OutHops(two, 0) == [0] && OutHops(two, 1) == [1];
  }

  lemma AllInCommon(hops: seq<HopView>, path: Cycle)
    requires AreTwoNodes(hops) && forall i :: 0 <= i < |path| ==> path[i] < 3
    ensures Common(hops, {0}, path) == {0}
  {
    CommonMeansAll(hops, {0}, path, 0);
    forall s | s in Common(hops, {0}, path)
      ensures s == 0
    {
      CommonMeansAll(hops, {0}, path, s);
    }
  }

  /** Behind the hop from 0 to 1: the hop back closes a cycle, the one from 1 to itself leads nowhere new. */
  lemma BehindFirstHop(hops: seq<HopView>)
    requires AreTwoNodes(hops)
    ensures Explore(hops, {0}, 2, 0, [0], 0) == Report([[0, 1]], [1], [], 2)
  {
    OutOfTwoNodes(hops);
    AllInCommon(hops, [0] + [1]);
    AllInCommon(hops, [0] + [2]);
    assert [0] + [1] == [0, 1];
    assert EndNode(hops, 0, [0]) == 1;
    assert NodeAt(hops, 0, [0], 1) == 1;
    assert OnPath(hops, 0, [0], 1);
    assert Visit(hops, {0}, 2, 0, [0], 1) == PASSED;
    assert Visit(hops, {0}, 2, 0, [0], 0) == Closed([0, 1]);
    assert Explore(hops, {0}, 2, 0, [0], 2) == NOTHING;
    assert Explore(hops, {0}, 2, 0, [0], 1) == PASSED.Then(NOTHING);
    assert Explore(hops, {0}, 2, 0, [0], 0) == Closed([0, 1]).Then(PASSED.Then(NOTHING));
  }

  lemma FromNodeZero(hops: seq<HopView>)
    requires AreTwoNodes(hops)
    ensures Explore(hops, {0}, 2, 0, [], 0) == Report([[0, 1]], [2], [], 3)
  {
    OutOfTwoNodes(hops);
    BehindFirstHop(hops);
    AllInCommon(hops, [] + [0]);
    assert [] + [0] == [0];
    assert EndNode(hops, 0, []) == 0;
    assert !OnPath(hops, 0, [], 1);
    assert Visit(hops, {0}, 2, 0, [], 0) == PASSED.Then(Report([[0, 1]], [1], [], 2));
    assert Explore(hops, {0}, 2, 0, [], 1) == NOTHING;
    NothingThen(PASSED.Then(Report([[0, 1]], [1], [], 2)));
  }

  /** From node 1: the hop back is below the start, and the hop to itself closes a cycle. */
  lemma FromNodeOne(hops: seq<HopView>)
    requires AreTwoNodes(hops)
    ensures Explore(hops, {0}, 2, 1, [], 0) == Report([[2]], [2], [], 2)
  {
    OutOfTwoNodes(hops);
    AllInCommon(hops, [] + [1]);
    AllInCommon(hops, [] + [2]);
    assert [] + [2] == [2];
    assert EndNode(hops, 1, []) == 1;
    assert Visit(hops, {0}, 2, 1, [], 0) == PASSED;
    assert Visit(hops, {0}, 2, 1, [], 1) == Closed([2]);
    assert Explore(hops, {0}, 2, 1, [], 2) == NOTHING;
    assert Explore(hops, {0}, 2, 1, [], 1) == Closed([2]).Then(NOTHING);
    assert Explore(hops, {0}, 2, 1, [], 0) == PASSED.Then(Closed([2]).Then(NOTHING));
  }

  lemma WholeOfTwoNodes(hops: seq<HopView>)
    requires AreTwoNodes(hops)
    ensures ExploreAll(hops, {0}, 2, 2) == Report([[0, 1], [2]], [2, 5], [], 5)
  {
    FromNodeZero(hops);
    FromNodeOne(hops);
    NothingThen(Report([[0, 1]], [2], [], 3));
    assert ExploreAll(hops, {0}, 2, 0) == NOTHING;
    assert ExploreAll(hops, {0}, 2, 1) == NOTHING.Then(Report([[0, 1]], [2], [], 3));
    assert ExploreAll(hops, {0}, 2, 2) == Report([[0, 1]], [2], [], 3).Then(Report([[2]], [2], [], 2));
  }

  // ----- The question -----

  ghost function Posed(store: Store): Question
  {
    DefinitionIsPlain();
    Asked(TWO_NODES, store, StatementsAbout(TWO_NODES), STATED_AT, 5)
  }

  lemma DefinitionIsPlain()
    ensures IsCanonical(TWO_NODES) && EdgeIdsDistinct(TWO_NODES.edges) && StatesKnown(TWO_NODES)
    ensures Position(TWO_NODES, 1) == 0 && Position(TWO_NODES, 2) == 1
    ensures ResourceIndex(TWO_NODES.resources, 1) == Some(0) && ResourceIndex(TWO_NODES.resources, 2) == Some(1)
    ensures forall e {:trigger TWO_NODES.edges[e]} :: 0 <= e < 3 ==> IsPlain(TWO_NODES, TWO_NODES.edges[e])
  {
    var rs := TWO_NODES.resources;
    assert IdBefore(rs, 0, 1);
    ResourceIndexIsUnique(rs, 0);
    ResourceIndexIsUnique(rs, 1);
  }

  lemma EveryHopIsProven(store: Store)
    ensures IsPosed(Posed(store)) && |Posed(store).table| == 3
    ensures forall e {:trigger Posed(store).table[e]} :: 0 <= e < 3 ==>
              Posed(store).table[e].resolution == ProvenOpen && Posed(store).table[e].effectiveSelectors == [9]
  {
    DefinitionIsPlain();
    AskedIsPosed(TWO_NODES, store, StatementsAbout(TWO_NODES), STATED_AT, 5);
    forall e | 0 <= e < 3
      ensures Posed(store).table[e].resolution == ProvenOpen && Posed(store).table[e].effectiveSelectors == [9]
    {
      assert TWO_NODES.edges[e].admittedSelectors == [9];
      StatedIsOpen(TWO_NODES, e);
    }
  }

  lemma OneCandidate(store: Store)
    ensures CandidatesIn(Posed(store), []) == [9]
  {
    EveryHopIsProven(store);
    var q := Posed(store);
    assert InsertUnique([], 9) == [9] && InsertUnique([9], 9) == [9];
    assert [9][..0] == [];
    assert InsertAll([], [9]) == [9] && InsertAll([9], [9]) == [9];
    assert Offer(q.t, q.table[0]) == [9] && Offer(q.t, q.table[1]) == [9] && Offer(q.t, q.table[2]) == [9];
    assert Collected(q.t, q.table, 1) == [9];
    assert Collected(q.t, q.table, 2) == [9];
  }

  lemma HopIsOpen(q: Question, i: nat)
    requires IsPosed(q) && i < |q.t.edges| && IsPlain(q.t, q.t.edges[i])
    requires q.table[i].resolution == ProvenOpen && q.table[i].effectiveSelectors == [9]
    ensures var view := ViewOf(q.t, q.table, [9], i);
            && view.Open() && Bits(view.mask) == {0}
            && view.fromNode == Position(q.t, q.t.edges[i].from) && view.toNode == Position(q.t, q.t.edges[i].to)
  {
    assert NumbersOf([9], [9]) == {0};
  }

  lemma HopsAreTwoNodes(store: Store)
    ensures IsPosed(Posed(store)) && AreTwoNodes(SettingOf(Posed(store), [], THREE_STEPS).hops)
  {
    EveryHopIsProven(store);
    OneCandidate(store);
    DefinitionIsPlain();
    var q := Posed(store);
    forall i | 0 <= i < 3
      ensures SettingOf(q, [], THREE_STEPS).hops[i] == ViewOf(q.t, q.table, [9], i)
      ensures var view := ViewOf(q.t, q.table, [9], i);
              && view.Open() && Bits(view.mask) == {0}
              && view.fromNode == Position(q.t, q.t.edges[i].from) && view.toNode == Position(q.t, q.t.edges[i].to)
    {
      HopIsOpen(q, i);
    }
  }

  /** What the search of the question above works on. */
  ghost predicate IsSmall(q: Question) {
    && IsPosed(q) && |q.t.resources| == 2 && |q.t.edges| == 3 && CandidatesIn(q, []) == [9]
    && AreTwoNodes(SettingOf(q, [], THREE_STEPS).hops)
  }

  lemma PosedIsSmall(store: Store)
    ensures IsSmall(Posed(store))
  {
    HopsAreTwoNodes(store);
    OneCandidate(store);
  }

  lemma WholeSearchHere(q: Question)
    requires IsSmall(q)
    ensures WholeSearch(q, [], THREE_STEPS) == Report([[0, 1], [2]], [2, 5], [], 5)
  {
    var g := SettingOf(q, [], THREE_STEPS);
    assert g.Full() == {0};
    WholeOfTwoNodes(g.hops);
  }

  lemma CutShort(total: Report)
    requires total == Report([[0, 1], [2]], [2, 5], [], 5)
    ensures !StopsAtCycle(THREE_STEPS, total) && !CutSeen(THREE_STEPS, total) && Emitted(THREE_STEPS, total) == 1
  {
    WithinMeans(total.at, 3, 1);
  }

  lemma SearchedHere(q: Question)
    requires IsSmall(q)
    ensures IsSearched(q, [], THREE_STEPS)
  {
    var g := SettingOf(q, [], THREE_STEPS);
    AllInCommon(g.hops, [2]);
    assert g.Full() == {0};
    assert TakesOpenHop(g.hops, 1, [2], 0);
    FoundIsProven(q, [], THREE_STEPS, [2]);
  }

  /** Whatever assessment the detector gives, it confirms a loop with no flag set and nothing dropped, and leaves
      another loop uncovered. */
  lemma SilentStepsMissALoop(store: Store, a: LoopAssessment)
    requires IsPosed(Posed(store)) && AssessmentHolds(Posed(store), [], THREE_STEPS, a)
    ensures a.outcome == LoopConfirmed && !a.searchLimitReached && !a.additionalCyclesPossible && a.bounds.dropped == 0
    ensures !Covers(Posed(store), [], a.witnesses, THREE_STEPS.maxWitnessHops)
  {
    DefinitionIsPlain();
    PosedIsSmall(store);
    SearchedHere(Posed(store));
    WholeSearchHere(Posed(store));
    CutShort(WholeSearch(Posed(store), [], THREE_STEPS));
    SilentExactly(Posed(store), [], THREE_STEPS, a);
  }

  /** It is a proper request over a definition whose states are all known. */
  lemma RequestIsProper()
    ensures IsProper(TWO_NODES, STATED_AT, [], THREE_STEPS) && IsCanonical(TWO_NODES) && Clean(TWO_NODES)
  {
    DefinitionIsPlain();
  }

  /** Its evidence is what a run of the ledger leaves. */
  lemma EvidenceIsReached(limits: LedgerLimits)
    requires HasRoom(TWO_NODES, limits)
    ensures var s := StatedLedger(TWO_NODES, limits);
            Asked(TWO_NODES, s.store, s.byEdge, STATED_AT, 5) == Posed(s.store)
  {
    DefinitionIsPlain();
    forall i | 0 <= i < 3
      ensures Structure(StatementOf(TWO_NODES.edges[i]), limits) == Status.Ok
    {
      assert TWO_NODES.edges[i].admittedSelectors == [9];
    }
    StatedIsReached(TWO_NODES, limits);
  }
}
