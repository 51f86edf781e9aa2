/** A published plan that leaves a loop alone: resource 2 lies on both confirmed loops, but the halving search finds it
    on the ascending one only, so the target made for it lists no hop of the other. */
module EscapingLoop {
  import opened Lists
  import opened Topology
  import opened Order
  import opened Ledger
  import opened Witness
  import opened HittingSet
  import opened HittingSetSolver
  import opened Planner
  import opened Containment
  import opened Shadow
  import opened ShadowEffect
  import opened Statements

  /** Two loops through resource 2, the only one that may be contained: 2, 5 and 1, 3, 2. */
  const FOUR_NODES: TopologyDefinition := TopologyDefinition(1,
    [ResourceRecord(1, 1, 0, Enabled, false, 0), ResourceRecord(2, 1, 0, Enabled, true, 1),
     ResourceRecord(3, 1, 0, Enabled, false, 0), ResourceRecord(5, 1, 0, Enabled, false, 0)],
    [ForwardingEdge(20, 1, 3, 1, Up, [1]), ForwardingEdge(22, 2, 1, 1, Up, [1]), ForwardingEdge(10, 2, 5, 1, Up, [1]),
     ForwardingEdge(21, 3, 2, 1, Up, [1]), ForwardingEdge(11, 5, 2, 1, Up, [1])], [1])

  /** The definition without selector 1 on the hops between 2 and 5. */
  const SHADOW: TopologyDefinition := FOUR_NODES.(edges :=
    [ForwardingEdge(20, 1, 3, 1, Up, [1]), ForwardingEdge(22, 2, 1, 1, Up, [1]), ForwardingEdge(10, 2, 5, 1, Up, []),
     ForwardingEdge(21, 3, 2, 1, Up, [1]), ForwardingEdge(11, 5, 2, 1, Up, [])])

  const POLICY: ContainmentPolicy := ContainmentPolicy(1, 4, 100, [0], [], false, 100)

  function Ascending(store: Store): LoopWitness {
    LoopWitness([2, 5], [10, 11], [1], STATED_AT, false, Contributing(store, [10, 11]))
  }

  function Unordered(store: Store): LoopWitness {
    LoopWitness([1, 3, 2], [20, 21, 22], [1], STATED_AT, false, Contributing(store, [20, 21, 22]))
  }

  function BothLoops(store: Store): Assessed {
    Assessed(true, STATED_AT, [Confirmed(1, Ascending(store)), Confirmed(2, Unordered(store))])
  }

  const TARGET: ContainmentTarget := ContainmentTarget(2, 1, 1, [1], [10, 11])

  const PLAN: ContainmentPlan := ContainmentPlan(STATED_AT, 1, PlanOptimal, [TARGET], 1, None, true)

  // ----- The definition -----

  lemma ResourcesHere()
    ensures ResourcesIncrease(FOUR_NODES.resources)
    ensures ResourceIndex(FOUR_NODES.resources, 1) == Some(0) && ResourceIndex(FOUR_NODES.resources, 2) == Some(1)
    ensures ResourceIndex(FOUR_NODES.resources, 3) == Some(2) && ResourceIndex(FOUR_NODES.resources, 5) == Some(3)
  {
    var rs := FOUR_NODES.resources;
    assert ResourcesIncrease(rs);
    ResourceIndexIsUnique(rs, 0);
    ResourceIndexIsUnique(rs, 1);
    ResourceIndexIsUnique(rs, 2);
    ResourceIndexIsUnique(rs, 3);
  }

  lemma EdgesHere()
    ensures EdgeIdsDistinct(FOUR_NODES.edges)
    ensures EdgeIndex(FOUR_NODES.edges, 20) == Some(0) && EdgeIndex(FOUR_NODES.edges, 22) == Some(1)
    ensures EdgeIndex(FOUR_NODES.edges, 10) == Some(2) && EdgeIndex(FOUR_NODES.edges, 21) == Some(3)
    ensures EdgeIndex(FOUR_NODES.edges, 11) == Some(4)
  {
    var es := FOUR_NODES.edges;
    assert EdgeIdsDistinct(es);
    EdgeIndexIsUnique(es, 0);
    EdgeIndexIsUnique(es, 1);
    EdgeIndexIsUnique(es, 2);
    EdgeIndexIsUnique(es, 3);
    EdgeIndexIsUnique(es, 4);
  }

  lemma DefinitionIsCanonical()
    ensures IsCanonical(FOUR_NODES)
    ensures forall e {:trigger FOUR_NODES.edges[e]} :: 0 <= e < 5 ==> IsPlain(FOUR_NODES, FOUR_NODES.edges[e])
  {
    ResourcesHere();
    forall e | 0 <= e < 5
      ensures IsPlain(FOUR_NODES, FOUR_NODES.edges[e])
              && EdgeFits(FOUR_NODES.resources, FOUR_NODES.selectors, FOUR_NODES.edges[e])
    {
    }
  }

  // ----- Both witnesses are loops -----

  lemma Joins(w: LoopWitness, i: nat, e: nat)
    requires i < |w.cycle| == |w.hops| && w.selectors == [1] && EdgeIndex(FOUR_NODES.edges, w.hops[i]) == Some(e)
    requires e < 5 && FOUR_NODES.edges[e].from == w.cycle[i] && FOUR_NODES.edges[e].to == Successor(w.cycle, i)
    ensures Follows(FOUR_NODES, w, i)
  {
    DefinitionIsCanonical();
    assert IsPlain(FOUR_NODES, FOUR_NODES.edges[e]);
    assert FOUR_NODES.edges[e].admittedSelectors == [1];
  }

  lemma BothFollow(store: Store)
    ensures AllFollow(FOUR_NODES, Ascending(store)) && AllFollow(FOUR_NODES, Unordered(store))
  {
    EdgesHere();
    Joins(Ascending(store), 0, 2);
    Joins(Ascending(store), 1, 4);
    Joins(Unordered(store), 0, 0);
    Joins(Unordered(store), 1, 3);
    Joins(Unordered(store), 2, 1);
  }

  lemma ShapesHere(q: Question, store: Store)
    requires q.current == STATED_AT
    ensures ShapeHolds(q, Ascending(store), 8) && ShapeHolds(q, Unordered(store), 8)
  {
    assert IsLeastAt([2, 5], 0) && IsLeastAt([1, 3, 2], 0);
  }

  lemma AscendingIsLoop(store: Store)
    ensures EdgeIdsDistinct(FOUR_NODES.edges) && IsLoop(Stated(FOUR_NODES, store), Ascending(store), 8)
  {
    EdgesHere();
    ShapesHere(Stated(FOUR_NODES, store), store);
    BothFollow(store);
    FollowedIsLoop(FOUR_NODES, store, Ascending(store), 8);
  }

  lemma UnorderedIsLoop(store: Store)
    ensures EdgeIdsDistinct(FOUR_NODES.edges) && IsLoop(Stated(FOUR_NODES, store), Unordered(store), 8)
  {
    EdgesHere();
    ShapesHere(Stated(FOUR_NODES, store), store);
    BothFollow(store);
    FollowedIsLoop(FOUR_NODES, store, Unordered(store), 8);
  }

  // ----- The plan -----

  const INSTANCE: Instance := Instance([[2], [2]], [Choice(2, 1)], 100)

  const SOLUTION: Solution := Solution(PlanOptimal, [2], 1, 2, true, false, false, 0)

  /** The search for 2 in 1, 3, 2 looks at 3 first, and then only to its left. */
  lemma UnorderedIsMissed()
    ensures !BinarySearch([1, 3, 2], 2) && BinarySearch([2, 5], 2)
  {
    assert [1, 3, 2][..1] == [1];
    assert LowerBound([1], 2) == 1;
    assert [2, 5][..1] == [2];
    assert LowerBound([2], 2) == 0;
  }

  /** Only resource 2 may break either loop. */
  lemma OnlyTwo(store: Store, w: LoopWitness, r: nat)
    requires w == Ascending(store) || w == Unordered(store)
    ensures MayBreak(FOUR_NODES, POLICY, w, r) <==> r == 2
    ensures MayContain(FOUR_NODES, POLICY, 2) && CostIn(FOUR_NODES, 2) == 1
  {
    ResourcesHere();
    assert [0][..0] == [];
    assert BinarySearch([0], 0);
  }

  lemma InstanceIsTheirs(store: Store)
    ensures InstanceFits(FOUR_NODES, POLICY, BothLoops(store).witnesses, INSTANCE, [2])
  {
    var ws := BothLoops(store).witnesses;
    forall i, r | 0 <= i < 2
      ensures r in INSTANCE.sets[i] <==> MayBreak(FOUR_NODES, POLICY, ws[i].w, r)
    {
      OnlyTwo(store, ws[i].w, r);
    }
    forall i | 0 <= i < 2
      ensures SetFits(FOUR_NODES, POLICY, ws[i].w, INSTANCE.sets[i])
    {
    }
    OnlyTwo(store, ws[0].w, 2);
    assert ChoicesOf(FOUR_NODES, [2]) == [Choice(2, 1)];
    assert 2 in INSTANCE.sets[0];
  }

  lemma OneSelection()
    ensures TargetsOf(INSTANCE.options, {0}) == [2] && CostOf(INSTANCE.options, {0}) == 1
  {
    assert ResourcesBelow(INSTANCE.options, {0}, 0) == [];
    assert ResourcesBelow(INSTANCE.options, {0}, 1) == [2];
    assert [2][..0] == [];
    assert SortIds([2]) == [2];
  }

  lemma SolutionIsTrue()
    ensures SolutionHolds(INSTANCE, SOLUTION)
  {
    OneSelection();
    assert INSTANCE.options[0].resource in INSTANCE.sets[0] && INSTANCE.options[0].resource in INSTANCE.sets[1];
    assert HitsSet(INSTANCE, {0}, 0) && HitsSet(INSTANCE, {0}, 1);
    assert IsHittingSet(INSTANCE, {0});
    forall x | IsHittingSet(INSTANCE, x)
      ensures NoWorse(INSTANCE.options, [2], 1, x)
    {
      assert HitsSet(INSTANCE, x, 0);
      assert x == {0};
      LexIsIrreflexive([2]);
    }
  }

  lemma TargetIsTheirs(store: Store)
    ensures TargetFits(FOUR_NODES, BothLoops(store).witnesses, 2, TARGET)
  {
    var ws := BothLoops(store).witnesses;
    UnorderedIsMissed();
    forall s
      ensures NamesSelector(ws, 2, 2, s) <==> s == 1
    {
      assert ws[0].w.selectors == [1];
    }
    forall h
      ensures NamesHop(ws, 2, 2, h) <==> h == 10 || h == 11
    {
      var w := ws[0].w;
      assert w.hops[0] == 10 && w.hops[1] == 11 && Touches(w, 0, 2) && Touches(w, 1, 2);
      assert TouchesHop(w, 2, 2, h) <==> h == 10 || h == 11;
    }
  }

  /** The plan passes the validator, so it is published as it was drafted. */
  lemma PlanIsPublished(store: Store)
    ensures IsPublication(PLAN, BothLoops(store), FOUR_NODES, POLICY, INSTANCE, [2], SOLUTION)
            && PLAN.AuthorizesAction()
  {
    var a := BothLoops(store);
    InstanceIsTheirs(store);
    SolutionIsTrue();
    TargetIsTheirs(store);
    OnlyTwo(store, Ascending(store), 2);
    assert TargetsFit(FOUR_NODES, a.witnesses, [2], PLAN.targets);
    assert Drafted(a, FOUR_NODES, POLICY, SOLUTION, PLAN);
    UnorderedIsMissed();
    assert a.witnesses[0].w.cycle == [2, 5] && IsImplicated(a.witnesses, 2);
    FittingTargetsAddUp(FOUR_NODES, a.witnesses, [2], PLAN.targets);
    assert SumOf(FOUR_NODES, [2]) == 1 by {
      assert [2][..0] == [];
    }
    assert 2 in Ascending(store).cycle && 2 in Unordered(store).cycle && 2 in [2];
    assert ClaimsHold(PLAN, a, FOUR_NODES, POLICY);
  }

  // ----- Its shadow -----

  lemma ListedHere(e: nat, s: nat)
    requires e < 5
    ensures IsListed(FOUR_NODES.edges, [TARGET], 1, e, s) <==> s == 1 && (e == 2 || e == 4)
  {
    EdgesHere();
    assert TARGET.affectedHops[0] == 10 && TARGET.affectedHops[1] == 11;
    assert ListedBy(FOUR_NODES.edges, TARGET, 2, e, s) <==> s == 1 && (e == 2 || e == 4);
    assert [TARGET][0] == TARGET;
  }

  lemma ShadowHere()
    ensures IsShadowOf(FOUR_NODES, [TARGET], SHADOW)
  {
    forall e | 0 <= e < 5
      ensures IsCut(FOUR_NODES.edges[e], SHADOW.edges[e], Gone(FOUR_NODES.edges, [TARGET], 1, e))
    {
      forall s: nat
        ensures IsListed(FOUR_NODES.edges, [TARGET], 1, e, s) <==> s == 1 && (e == 2 || e == 4)
      {
        ListedHere(e, s);
      }
    }
  }

  lemma NotListed(store: Store)
    ensures forall i :: 0 <= i < 3 ==> NoneListed(FOUR_NODES, [TARGET], Unordered(store), i)
  {
    EdgesHere();
    forall i | 0 <= i < 3
      ensures NoneListed(FOUR_NODES, [TARGET], Unordered(store), i)
    {
      ListedHere(EdgeIndex(FOUR_NODES.edges, Unordered(store).hops[i]).value, 1);
    }
  }

  /** The loop of the definition that is a loop of the shadow. */
  lemma UnorderedSurvives(store: Store)
    ensures EdgeIdsDistinct(FOUR_NODES.edges)
    ensures IsLoop(Asked(SHADOW, store, StatementsAbout(FOUR_NODES), STATED_AT, 5), Unordered(store), 8)
  {
    UnorderedIsLoop(store);
    ShadowHere();
    NotListed(store);
    SurvivesExactly(FOUR_NODES, [TARGET], SHADOW, store, StatementsAbout(FOUR_NODES), STATED_AT, 5, Unordered(store),
                    8);
  }

  /** The plan for the two loops is optimal, published, and authorizes action; and on the same evidence the second loop
      is there in its shadow. */
  lemma PublishedPlanLeavesALoop(store: Store)
    ensures IsPublication(PLAN, BothLoops(store), FOUR_NODES, POLICY, INSTANCE, [2], SOLUTION)
    ensures PLAN.outcome == PlanOptimal && PLAN.AuthorizesAction() && IsShadowOf(FOUR_NODES, PLAN.targets, SHADOW)
    ensures EdgeIdsDistinct(FOUR_NODES.edges) && BothLoops(store).witnesses[1].w == Unordered(store)
    ensures IsLoop(Asked(SHADOW, store, StatementsAbout(FOUR_NODES), STATED_AT, 5), Unordered(store), 8)
  {
    PlanIsPublished(store);
    ShadowHere();
    UnorderedSurvives(store);
  }

  /** The evidence is what a run of the ledger leaves. */
  lemma EvidenceIsReached(limits: LedgerLimits)
    requires HasRoom(FOUR_NODES, limits)
    ensures EdgeIdsDistinct(FOUR_NODES.edges)
    ensures StatedLedger(FOUR_NODES, limits).byEdge == StatementsAbout(FOUR_NODES)
  {
    EdgesHere();
    forall i | 0 <= i < 5
      ensures Structure(StatementOf(FOUR_NODES.edges[i]), limits) == Status.Ok
    {
      assert FOUR_NODES.edges[i].admittedSelectors == [1];
    }
    RunStatesAll(FOUR_NODES, limits);
  }
}
