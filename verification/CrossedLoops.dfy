/** A published plan that takes away what no witness needs: two loops through resource 1, one open for selector 1 and
    the other for selector 2, and in the shadow of the plan for both each of them has lost both selectors. */
module CrossedLoops {
  import opened Lists
  import opened Topology
  import opened Order
  import opened Evidence
  import opened Ledger
  import opened Witness
  import opened HittingSet
  import opened HittingSetSolver
  import opened Planner
  import opened Containment
  import opened Shadow
  import opened ShadowEffect
  import opened Bystanders
  import opened Statements

  function Hop(id: nat, from: nat, to: nat, selectors: seq<nat>): ForwardingEdge {
    ForwardingEdge(id, from, to, 1, Up, selectors)
  }

  /** Every hop admits both selectors. */
  const WIDE: TopologyDefinition := TopologyDefinition(1,
    [ResourceRecord(1, 1, 0, Enabled, true, 1), ResourceRecord(2, 1, 0, Enabled, false, 0),
     ResourceRecord(3, 1, 0, Enabled, false, 0)],
    [Hop(10, 1, 2, [1, 2]), Hop(12, 1, 3, [1, 2]), Hop(11, 2, 1, [1, 2]), Hop(13, 3, 1, [1, 2])], [1, 2])

  /** What has been stated open: between 1 and 2 selector 1, between 1 and 3 selector 2. */
  const STATED: TopologyDefinition := WIDE.(edges :=
    [Hop(10, 1, 2, [1]), Hop(12, 1, 3, [2]), Hop(11, 2, 1, [1]), Hop(13, 3, 1, [2])])

  const POLICY: ContainmentPolicy := ContainmentPolicy(1, 4, 100, [0], [], false, 100)

  function First(store: Store): LoopWitness {
    LoopWitness([1, 2], [10, 11], [1], STATED_AT, false, Contributing(store, [10, 11]))
  }

  function Second(store: Store): LoopWitness {
    LoopWitness([1, 3], [12, 13], [2], STATED_AT, false, Contributing(store, [12, 13]))
  }

  function BothLoops(store: Store): Assessed {
    Assessed(true, STATED_AT, [Confirmed(1, First(store)), Confirmed(2, Second(store))])
  }

  const TARGET: ContainmentTarget := ContainmentTarget(1, 1, 1, [1, 2], [10, 11, 12, 13])

  const PLAN: ContainmentPlan := ContainmentPlan(STATED_AT, 1, PlanOptimal, [TARGET], 1, None, true)

  // ----- The definition -----

  lemma ResourcesHere()
    ensures ResourcesIncrease(WIDE.resources)
    ensures ResourceIndex(WIDE.resources, 1) == Some(0) && ResourceIndex(WIDE.resources, 2) == Some(1)
    ensures ResourceIndex(WIDE.resources, 3) == Some(2)
  {
    var rs := WIDE.resources;
    assert ResourcesIncrease(rs);
    ResourceIndexIsUnique(rs, 0);
    ResourceIndexIsUnique(rs, 1);
    ResourceIndexIsUnique(rs, 2);
  }

  lemma EdgesHere()
    ensures EdgeIdsDistinct(WIDE.edges) && EdgeIdsDistinct(STATED.edges)
    ensures EdgeIndex(WIDE.edges, 10) == Some(0) && EdgeIndex(WIDE.edges, 12) == Some(1)
    ensures EdgeIndex(WIDE.edges, 11) == Some(2) && EdgeIndex(WIDE.edges, 13) == Some(3)
  {
    var es := WIDE.edges;
    assert EdgeIdsDistinct(es);
    EdgeIndexIsUnique(es, 0);
    EdgeIndexIsUnique(es, 1);
    EdgeIndexIsUnique(es, 2);
    EdgeIndexIsUnique(es, 3);
  }

  // ----- Both witnesses are loops -----

  ghost function Posed(store: Store): (q: Question)
    ensures |q.table| == |WIDE.edges|
  {
    EdgesHere();
    Asked(WIDE, store, StatementsAbout(STATED), STATED_AT, 5)
  }

  lemma HopJoins(store: Store, w: LoopWitness, i: nat, e: nat, s: nat)
    requires i < |w.cycle| == |w.hops| && w.selectors == [s] && EdgeIndex(WIDE.edges, w.hops[i]) == Some(e)
    requires e < 4 && STATED.edges[e].admittedSelectors == [s] && s in WIDE.edges[e].admittedSelectors
    requires WIDE.edges[e].from == w.cycle[i] && WIDE.edges[e].to == Successor(w.cycle, i)
    ensures HopHolds(Posed(store), w, i)
  {
    ResourcesHere();
    EdgesHere();
    WiderHopHolds(WIDE, STATED, store, w, i, e);
  }

  lemma OneDomain(store: Store, w: LoopWitness)
    requires w.cycle != [] && w.cycle[0] == 1
    ensures DomainsOf(Posed(store), w.cycle) == {1}
  {
    ResourcesHere();
    assert IsOneDomain(WIDE);
    assert DomainsOf(Posed(store), w.cycle) <= {1};
    assert 1 in DomainsOf(Posed(store), w.cycle) by {
      assert FindResource(WIDE.resources, w.cycle[0]).Some?;
    }
  }

  lemma ShapeIsRight(q: Question, w: LoopWitness, x: nat, s: nat)
    requires w.cycle == [1, x] && x > 1 && |w.hops| == 2 && w.selectors == [s] && w.fence == q.current
    ensures ShapeHolds(q, w, 8)
  {
    assert IsLeastAt([1, x], 0);
  }

  lemma TwoHopsLoop(store: Store, w: LoopWitness, x: nat, s: nat)
    requires w.cycle == [1, x] && x > 1 && |w.hops| == 2 && w.selectors == [s] && w.fence == STATED_AT
             && !w.crossesDomains
    requires w.evidence == Contributing(store, w.hops) && HopHolds(Posed(store), w, 0) && HopHolds(Posed(store), w, 1)
    ensures IsLoop(Posed(store), w, 8)
  {
    ShapeIsRight(Posed(store), w, x, s);
    OneDomain(store, w);
  }

  lemma FirstIsLoop(store: Store)
    ensures IsLoop(Posed(store), First(store), 8)
  {
    var w := First(store);
    EdgesHere();
    HopJoins(store, w, 0, 0, 1);
    HopJoins(store, w, 1, 2, 1);
    TwoHopsLoop(store, w, 2, 1);
  }

  lemma SecondIsLoop(store: Store)
    ensures IsLoop(Posed(store), Second(store), 8)
  {
    var w := Second(store);
    EdgesHere();
    HopJoins(store, w, 0, 1, 2);
    HopJoins(store, w, 1, 3, 2);
    TwoHopsLoop(store, w, 3, 2);
  }

  // ----- The plan -----

  const INSTANCE: Instance := Instance([[1], [1]], [Choice(1, 1)], 100)

  const SOLUTION: Solution := Solution(PlanOptimal, [1], 1, 2, true, false, false, 0)

  lemma OneIsFound()
    ensures BinarySearch([1, 2], 1) && BinarySearch([1, 3], 1)
  {
    assert [1, 2][..1] == [1] && [1, 3][..1] == [1] && [1][..0] == [];
    assert LowerBound([1], 1) == 0;
  }

  /** Only resource 1 may break either loop. */
  lemma OnlyOne(store: Store, w: LoopWitness, r: nat)
    requires w == First(store) || w == Second(store)
    ensures MayBreak(WIDE, POLICY, w, r) <==> r == 1
    ensures MayContain(WIDE, POLICY, 1) && CostIn(WIDE, 1) == 1
  {
    ResourcesHere();
    assert [0][..0] == [];
    assert BinarySearch([0], 0);
  }

  lemma InstanceIsTheirs(store: Store)
    ensures InstanceFits(WIDE, POLICY, BothLoops(store).witnesses, INSTANCE, [1])
  {
    var ws := BothLoops(store).witnesses;
    forall i, r | 0 <= i < 2
      ensures r in INSTANCE.sets[i] <==> MayBreak(WIDE, POLICY, ws[i].w, r)
    {
      OnlyOne(store, ws[i].w, r);
    }
    forall i | 0 <= i < 2
      ensures SetFits(WIDE, POLICY, ws[i].w, INSTANCE.sets[i])
    {
    }
    OnlyOne(store, ws[0].w, 1);
    assert ChoicesOf(WIDE, [1]) == [Choice(1, 1)];
    assert 1 in INSTANCE.sets[0];
  }

  lemma OneSelection()
    ensures TargetsOf(INSTANCE.options, {0}) == [1] && CostOf(INSTANCE.options, {0}) == 1
  {
    assert ResourcesBelow(INSTANCE.options, {0}, 0) == [];
    assert ResourcesBelow(INSTANCE.options, {0}, 1) == [1];
    assert [1][..0] == [];
    assert SortIds([1]) == [1];
  }

  lemma SolutionIsTrue()
    ensures SolutionHolds(INSTANCE, SOLUTION)
  {
    OneSelection();
    assert INSTANCE.options[0].resource in INSTANCE.sets[0] && INSTANCE.options[0].resource in INSTANCE.sets[1];
    assert HitsSet(INSTANCE, {0}, 0) && HitsSet(INSTANCE, {0}, 1);
    assert IsHittingSet(INSTANCE, {0});
    forall x | IsHittingSet(INSTANCE, x)
      ensures NoWorse(INSTANCE.options, [1], 1, x)
    {
      assert HitsSet(INSTANCE, x, 0);
      assert x == {0};
      LexIsIrreflexive([1]);
    }
  }

  lemma HopsAtOne(w: LoopWitness, h: nat)
    requires |w.cycle| == |w.hops| == 2 && w.cycle[0] == 1
    ensures TouchesHop(w, 1, 2, h) <==> h == w.hops[0] || h == w.hops[1]
  {
    assert Touches(w, 0, 1) && Touches(w, 1, 1);
  }

  lemma TargetIsTheirs(store: Store)
    ensures TargetFits(WIDE, BothLoops(store).witnesses, 2, TARGET)
  {
    var ws := BothLoops(store).witnesses;
    OneIsFound();
    forall s
      ensures NamesSelector(ws, 2, 1, s) <==> s == 1 || s == 2
    {
      assert ws[0].w.selectors == [1] && ws[1].w.selectors == [2];
    }
    forall h
      ensures NamesHop(ws, 2, 1, h) <==> h in [10, 11, 12, 13]
    {
      HopsAtOne(First(store), h);
      HopsAtOne(Second(store), h);
      assert ws[0].w == First(store) && ws[1].w == Second(store);
    }
  }

  /** The plan passes the validator, so it is published as it was drafted. */
  lemma PlanIsPublished(store: Store)
    ensures IsPublication(PLAN, BothLoops(store), WIDE, POLICY, INSTANCE, [1], SOLUTION) && PLAN.AuthorizesAction()
  {
    var a := BothLoops(store);
    InstanceIsTheirs(store);
    SolutionIsTrue();
    TargetIsTheirs(store);
    OnlyOne(store, First(store), 1);
    assert TargetsFit(WIDE, a.witnesses, [1], PLAN.targets);
    assert Drafted(a, WIDE, POLICY, SOLUTION, PLAN);
    OneIsFound();
    assert a.witnesses[0].w.cycle == [1, 2] && IsImplicated(a.witnesses, 1);
    FittingTargetsAddUp(WIDE, a.witnesses, [1], PLAN.targets);
    assert SumOf(WIDE, [1]) == 1 by {
      assert [1][..0] == [];
    }
    assert 1 in First(store).cycle && 1 in Second(store).cycle && 1 in [1];
    assert ClaimsHold(PLAN, a, WIDE, POLICY);
  }

  // ----- Its shadow -----

  lemma NotTogether(store: Store)
    ensures !IsWitnessed(BothLoops(store).witnesses, 10, 2)
  {
    assert 2 !in First(store).selectors && 10 !in Second(store).hops;
  }

  lemma ListedHere()
    ensures IsListed(WIDE.edges, PLAN.targets, 1, 0, 2)
  {
    EdgesHere();
    var targets := PLAN.targets;
    assert TARGET.affectedHops[0] == 10 && TARGET.selectors[1] == 2;
    assert ListedBy(WIDE.edges, targets[0], |targets[0].affectedHops|, 0, 2);
  }

  /** Both are loops on the evidence there is, the plan for them is optimal, published, and authorizes action; and in
      its shadow the hop from 1 to 2 has lost the selector of the other loop, which no witness takes there. */
  lemma PublishedPlanCutsABystander(store: Store, shadow: TopologyDefinition)
    requires IsShadowOf(WIDE, PLAN.targets, shadow)
    ensures IsLoop(Posed(store), First(store), 8) && IsLoop(Posed(store), Second(store), 8)
    ensures IsPublication(PLAN, BothLoops(store), WIDE, POLICY, INSTANCE, [1], SOLUTION) && PLAN.AuthorizesAction()
    ensures Loses(WIDE, shadow, 0, 2) && !IsWitnessed(BothLoops(store).witnesses, WIDE.edges[0].id, 2)
  {
    FirstIsLoop(store);
    SecondIsLoop(store);
    PlanIsPublished(store);
    NotTogether(store);
    ListedHere();
    assert IsCut(WIDE.edges[0], shadow.edges[0], Gone(WIDE.edges, PLAN.targets, 1, 0));
    assert WIDE.edges[0].admittedSelectors[1] == 2;
  }

  /** The evidence is what a run of the ledger leaves. */
  lemma EvidenceIsReached(limits: LedgerLimits)
    requires HasRoom(STATED, limits)
    ensures EdgeIdsDistinct(STATED.edges)
    ensures StatedLedger(STATED, limits).byEdge == StatementsAbout(STATED)
  {
    EdgesHere();
    forall i | 0 <= i < 4
      ensures Structure(StatementOf(STATED.edges[i]), limits) == Status.Ok
    {
      assert STATED.edges[i].admittedSelectors == [1] || STATED.edges[i].admittedSelectors == [2];
    }
    RunStatesAll(STATED, limits);
  }
}
