/** The witness search and the witness validator agree: every cycle the search emits is a loop
    the validator accepts, and every loop the validator could accept is one of those cycles. */
module Completeness {
  import opened Lists
  import opened Masks
  import opened SimpleCycles
  import opened Topology
  import opened Evidence
  import opened Ledger
  import opened Witness
  import opened HopViews
  import opened WitnessSearch

  /** No resource or link is in an unknown state. */
  predicate StatesKnown(t: TopologyDefinition) {
    && (forall i {:trigger t.resources[i]} :: 0 <= i < |t.resources| ==> t.resources[i].admin != AdminUnknown)
    && (forall i {:trigger t.edges[i]} :: 0 <= i < |t.edges| ==> t.edges[i].link != LinkUnknown)
  }

  function WithEvidence(store: Store, w: LoopWitness): LoopWitness {
    w.(evidence := Contributing(store, w.hops))
  }

  /** What a proven-open entry of the hop table says about its edge. */
  ghost predicate OpenEntryFits(q: Question, e: nat) {
    && e < |q.t.edges| == |q.table|
    && (q.table[e].resolution == ProvenOpen ==>
          && EndpointsFit(q.t.resources, q.t.edges[e])
          && !DefinitionCloses(q.t, q.t.edges[e])
          && forall s :: s in q.table[e].effectiveSelectors ==> s in q.t.edges[e].admittedSelectors)
  }

  lemma ResolvedEntriesFit(t: TopologyDefinition, store: Store, byEdge: ByEdge, current: FenceVector, now: nat, e: nat)
    requires e < |t.edges|
    ensures OpenEntryFits(Asked(t, store, byEdge, current, now), e)
  {
    var obs := About(byEdge, t.edges[e].id);
    ProvenOpenMeans(t, e, obs, current, now);
    assert Asked(t, store, byEdge, current, now).table[e] == RecordOf(t, e, obs, current, now);
  }

  /** The hop table, the search setting and the names all describe one question. */
  ghost predicate Describes(q: Question, nm: Naming, g: Setting) {
    && IsCanonical(q.t) && g.Valid() && nm.Fits(g)
    && nm.t == q.t && nm.fence == q.current && |q.table| == |q.t.edges|
    && StrictlyIncreasing(nm.candidates)
    && AreViewsOf(q.t, q.table, nm.candidates, g.hops)
    && forall e {:trigger OpenEntryFits(q, e)} :: 0 <= e < |q.t.edges| ==> OpenEntryFits(q, e)
  }

  // ----- Chosen selectors -----

  lemma {:induction false} ChosenMeans(candidates: seq<nat>, bits: set<nat>)
    ensures forall s :: s in Chosen(candidates, bits) <==>
            exists k :: 0 <= k < |candidates| && k in bits && candidates[k] == s
    decreases |candidates|
  {
    if candidates != [] {
      var last := |candidates| - 1;
      ChosenMeans(candidates[..last], bits);
      assert candidates == candidates[..last] + [candidates[last]];
    }
  }

  lemma {:induction false} ChosenIncreases(candidates: seq<nat>, bits: set<nat>)
    requires StrictlyIncreasing(candidates)
    ensures StrictlyIncreasing(Chosen(candidates, bits))
    decreases |candidates|
  {
    if candidates != [] {
      var last := |candidates| - 1;
      ChosenIncreases(candidates[..last], bits);
      ChosenMeans(candidates[..last], bits);
      var front := Chosen(candidates[..last], bits);
      forall i | 0 <= i < |front|
        ensures front[i] < candidates[last]
      {
        assert front[i] in front;
      }
    }
  }

  // ----- Emitted cycles are accepted exactly when their own links and resources are usable -----

  /** The edge is up and joins enabled resources. */
  ghost predicate EdgeIsUsable(t: TopologyDefinition, e: nat) {
    && e < |t.edges| && t.edges[e].link == Up
    && FindResource(t.resources, t.edges[e].from).Some?
    && FindResource(t.resources, t.edges[e].from).value.admin == Enabled
    && FindResource(t.resources, t.edges[e].to).Some? && FindResource(t.resources, t.edges[e].to).value.admin == Enabled
  }

  ghost predicate CycleIsUsable(t: TopologyDefinition, c: Cycle) {
    forall i {:trigger c[i]} :: 0 <= i < |c| ==> EdgeIsUsable(t, c[i])
  }

  /** Where no state is unknown, every hop proven open is usable. */
  lemma KnownIsUsable(q: Question, nm: Naming, g: Setting, c: Cycle)
    requires Describes(q, nm, g) && StatesKnown(q.t) && IsRootedCycle(g.hops, c)
    ensures CycleIsUsable(q.t, c)
  {
    forall i | 0 <= i < |c|
      ensures EdgeIsUsable(q.t, c[i])
    {
      assert TakesOpenHop(g.hops, g.hops[c[0]].fromNode, c, i);
      assert IsViewOf(q.t, q.table, nm.candidates, c[i], g.hops[c[i]]);
      assert OpenEntryFits(q, c[i]);
      assert q.t.edges[c[i]].link != LinkUnknown;
      EndpointIsPosition(q.t, q.t.edges[c[i]].from);
      EndpointIsPosition(q.t, q.t.edges[c[i]].to);
    }
  }

  /** An open view carries what its mask allows between the nodes it names, exactly when its edge is usable. */
  lemma OpenViewIsUsable(q: Question, nm: Naming, g: Setting, e: nat, selectors: seq<nat>)
    requires Describes(q, nm, g) && e < |g.hops| && g.hops[e].Open()
    requires forall s :: s in selectors ==>
             exists k :: k in Bits(g.hops[e].mask) && k < |nm.candidates| && nm.candidates[k] == s
    ensures g.hops[e].fromNode < |q.t.resources| && g.hops[e].toNode < |q.t.resources|
    ensures CarriesOpenly(q, e, q.t.resources[g.hops[e].fromNode].id, q.t.resources[g.hops[e].toNode].id, selectors)
            <==> EdgeIsUsable(q.t, e)
  {
    var view, edge := g.hops[e], q.t.edges[e];
    assert IsViewOf(q.t, q.table, nm.candidates, e, view);
    assert OpenEntryFits(q, e);
    assert q.table[e].resolution == ProvenOpen;
    EndpointIsPosition(q.t, edge.from);
    EndpointIsPosition(q.t, edge.to);
    forall s | s in selectors
      ensures s in q.table[e].effectiveSelectors && s in edge.admittedSelectors
    {
      var k :| k in Bits(view.mask) && k < |nm.candidates| && nm.candidates[k] == s;
      assert k in NumbersOf(nm.candidates, SourceOf(q.table[e], edge));
    }
  }

  lemma EndpointIsPosition(t: TopologyDefinition, id: nat)
    requires FindResource(t.resources, id).Some?
    ensures Position(t, id) < |t.resources| && t.resources[Position(t, id)].id == id
    ensures FindResource(t.resources, id).value == t.resources[Position(t, id)]
  {
  }

  lemma EmittedHopHolds(q: Question, nm: Naming, g: Setting, c: Cycle, w: LoopWitness, i: nat)
    requires Describes(q, nm, g) && EdgeIdsDistinct(q.t.edges)
    requires IsWitnessOf(nm, g, c, w) && i < |c|
    ensures HopHolds(q, w, i) <==> EdgeIsUsable(q.t, c[i])
  {
    var start := g.hops[c[0]].fromNode;
    assert TakesOpenHop(g.hops, start, c, i);
    ChosenMeans(nm.candidates, Common(g.hops, g.Full(), c));
    forall s | s in w.selectors
      ensures exists k :: k in Bits(g.hops[c[i]].mask) && k < |nm.candidates| && nm.candidates[k] == s
    {
      var k :| 0 <= k < |nm.candidates| && k in Common(g.hops, g.Full(), c) && nm.candidates[k] == s;
      CommonMeansAll(g.hops, g.Full(), c, k);
    }
    OpenViewIsUsable(q, nm, g, c[i], w.selectors);
    EdgeIndexIsUnique(q.t.edges, c[i]);
    EmittedEndpoints(q, nm, g, c, w, i);
  }

  /** The ends of hop `i` are the resources before and after it. */
  lemma EmittedEndpoints(q: Question, nm: Naming, g: Setting, c: Cycle, w: LoopWitness, i: nat)
    requires nm.t == q.t && IsWitnessOf(nm, g, c, w) && i < |c|
    ensures c[i] < |g.hops| && c[i] < |q.t.edges| && w.hops[i] == q.t.edges[c[i]].id
    ensures g.hops[c[i]].fromNode < |q.t.resources| && w.cycle[i] == q.t.resources[g.hops[c[i]].fromNode].id
    ensures g.hops[c[i]].toNode < |q.t.resources| && Successor(w.cycle, i) == q.t.resources[g.hops[c[i]].toNode].id
  {
    var start := g.hops[c[0]].fromNode;
    var nodes := CycleNodes(g.hops, c);
    assert TakesOpenHop(g.hops, start, c, i);
    assert c[i] < |nm.t.edges| && nodes[i] == g.hops[c[i]].fromNode;
    var next := if i + 1 == |c| then 0 else i + 1;
    assert NodeAt(g.hops, start, c, i + 1) == g.hops[c[i]].toNode;
    assert nodes[next] == g.hops[c[i]].toNode;
    assert w.cycle[next] == Successor(w.cycle, i);
  }

  lemma EmittedShape(q: Question, nm: Naming, g: Setting, c: Cycle, w: LoopWitness, maxHops: nat)
    requires Describes(q, nm, g) && IsWitnessOf(nm, g, c, w)
    requires |c| <= maxHops && Common(g.hops, g.Full(), c) != {}
    ensures ShapeHolds(q, w, maxHops)
  {
    RootIsLeast(nm, g, c, w.cycle);
    ChosenIncreases(nm.candidates, Common(g.hops, g.Full(), c));
    ChosenMeans(nm.candidates, Common(g.hops, g.Full(), c));
    var k :| k in Common(g.hops, g.Full(), c);
    CommonMeansAll(g.hops, g.Full(), c, k);
    assert nm.candidates[k] in w.selectors;
    var nodes := CycleNodes(g.hops, c);
    forall i, j | 0 <= i < j < |w.cycle|
      ensures w.cycle[i] != w.cycle[j]
    {
      assert NodesDiffer(g.hops, g.hops[c[0]].fromNode, c, i, j);
      assert nodes[i] != nodes[j];
      assert nodes[i] < nodes[j] ==> IdBefore(q.t.resources, nodes[i], nodes[j]);
      assert nodes[j] < nodes[i] ==> IdBefore(q.t.resources, nodes[j], nodes[i]);
    }
  }

  lemma EmittedDomains(q: Question, nm: Naming, g: Setting, c: Cycle, w: LoopWitness)
    requires Describes(q, nm, g) && IsWitnessOf(nm, g, c, w)
    ensures DomainsOf(q, w.cycle) == DomainsOfNodes(q.t, CycleNodes(g.hops, c))
  {
    var nodes := CycleNodes(g.hops, c);
    forall i | 0 <= i < |nodes|
      ensures nodes[i] < |q.t.resources| && FindResource(q.t.resources, w.cycle[i]) == Some(q.t.resources[nodes[i]])
    {
      assert w.cycle[i] == q.t.resources[nodes[i]].id;
      ResourceIndexIsUnique(q.t.resources, nodes[i]);
    }
  }

  lemma EmittedHopsHold(q: Question, nm: Naming, g: Setting, c: Cycle, w: LoopWitness, v: LoopWitness)
    requires Describes(q, nm, g) && EdgeIdsDistinct(q.t.edges) && IsWitnessOf(nm, g, c, w)
    requires v.cycle == w.cycle && v.hops == w.hops && v.selectors == w.selectors
    ensures HopsHold(q, v) <==> CycleIsUsable(q.t, c)
  {
    forall i | 0 <= i < |c|
      ensures HopHolds(q, v, i) <==> EdgeIsUsable(q.t, c[i])
    {
      EmittedHopHolds(q, nm, g, c, w, i);
      assert HopHolds(q, w, i) <==> HopHolds(q, v, i);
    }
    if HopsHold(q, v) {
      forall i | 0 <= i < |c|
        ensures EdgeIsUsable(q.t, c[i])
      {
        assert HopHolds(q, v, i);
      }
    }
  }

  /** A cycle the search emits is a loop in the validator's eyes exactly when all of its links are up and all of its
      resources are enabled. */
  lemma EmittedIsLoop(q: Question, nm: Naming, g: Setting, c: Cycle, w: LoopWitness, maxHops: nat)
    requires Describes(q, nm, g) && EdgeIdsDistinct(q.t.edges)
    requires IsWitnessOf(nm, g, c, w)
    requires |c| <= maxHops && Common(g.hops, g.Full(), c) != {}
    ensures IsLoop(q, WithEvidence(q.store, w), maxHops) <==> CycleIsUsable(q.t, c)
  {
    EmittedShape(q, nm, g, c, w, maxHops);
    EmittedDomains(q, nm, g, c, w);
    EmittedHopsHold(q, nm, g, c, w, WithEvidence(q.store, w));
  }

  // ----- Loops are emitted cycles -----

  /** The hop numbers of a loop. */
  ghost function HopNumbers(q: Question, w: LoopWitness): Cycle {
    seq(|w.hops|, i requires 0 <= i < |w.hops| =>
      if EdgeIndex(q.t.edges, w.hops[i]).Some? then EdgeIndex(q.t.edges, w.hops[i]).value else 0)
  }

  /** The hop of a loop is an open view between the positions of its resources. */
  lemma LoopHopIsOpen(q: Question, nm: Naming, g: Setting, w: LoopWitness, i: nat)
    requires Describes(q, nm, g) && HopHolds(q, w, i)
    requires w.selectors != [] && forall s :: s in w.selectors ==> s in nm.candidates
    ensures var e := HopNumbers(q, w)[i];
            && e < |g.hops| && g.hops[e].Open()
            && g.hops[e].fromNode == Position(q.t, w.cycle[i])
            && g.hops[e].toNode == Position(q.t, Successor(w.cycle, i))
            && forall k :: 0 <= k < |nm.candidates| && nm.candidates[k] in w.selectors ==> k in Bits(g.hops[e].mask)
  {
    var e := HopNumbers(q, w)[i];
    assert CarriesOpenly(q, e, w.cycle[i], Successor(w.cycle, i), w.selectors);
    assert IsViewOf(q.t, q.table, nm.candidates, e, g.hops[e]);
    assert w.selectors[0] in nm.candidates;
    var k :| 0 <= k < |nm.candidates| && nm.candidates[k] == w.selectors[0];
    assert k in NumbersOf(nm.candidates, SourceOf(q.table[e], q.t.edges[e]));
    assert forall n :: 0 <= n < |nm.candidates| && nm.candidates[n] in w.selectors ==>
             n in NumbersOf(nm.candidates, SourceOf(q.table[e], q.t.edges[e]));
  }

  lemma PositionsFollowIds(q: Question, w: LoopWitness, i: nat, j: nat)
    requires IsCanonical(q.t) && i < |w.cycle| && j < |w.cycle| && w.cycle[i] < w.cycle[j]
    requires FindResource(q.t.resources, w.cycle[i]).Some? && FindResource(q.t.resources, w.cycle[j]).Some?
    ensures Position(q.t, w.cycle[i]) < Position(q.t, w.cycle[j])
  {
    var a, b := Position(q.t, w.cycle[i]), Position(q.t, w.cycle[j]);
    EndpointIsPosition(q.t, w.cycle[i]);
    EndpointIsPosition(q.t, w.cycle[j]);
    assert b < a ==> IdBefore(q.t.resources, b, a);
  }

  lemma LoopResourceIsFound(q: Question, w: LoopWitness, i: nat)
    requires HopHolds(q, w, i)
    ensures FindResource(q.t.resources, w.cycle[i]).Some?
  {
  }

  /** Every loop over candidate selectors is a rooted cycle of the search, carrying at least its selectors. */
  lemma LoopIsRootedCycle(q: Question, nm: Naming, g: Setting, w: LoopWitness, maxHops: nat)
    requires Describes(q, nm, g) && IsLoop(q, w, maxHops)
    requires forall s :: s in w.selectors ==> s in nm.candidates
    ensures var c := HopNumbers(q, w);
            && IsRootedCycle(g.hops, c) && |c| == |w.cycle|
            && (forall k :: 0 <= k < |nm.candidates| && nm.candidates[k] in w.selectors ==>
                k in Common(g.hops, g.Full(), c))
  {
    var c := HopNumbers(q, w);
    forall i | 0 <= i < |c|
      ensures c[i] < |g.hops| && g.hops[c[i]].Open()
      ensures g.hops[c[i]].fromNode == Position(q.t, w.cycle[i])
              && g.hops[c[i]].toNode == Position(q.t, Successor(w.cycle, i))
      ensures forall k :: 0 <= k < |nm.candidates| && nm.candidates[k] in w.selectors ==> k in Bits(g.hops[c[i]].mask)
    {
      assert HopHolds(q, w, i);
      LoopHopIsOpen(q, nm, g, w, i);
    }
    LoopNodes(q, g, w, c, maxHops);
    forall k | 0 <= k < |nm.candidates| && nm.candidates[k] in w.selectors
      ensures k in Common(g.hops, g.Full(), c)
    {
      CommonMeansAll(g.hops, g.Full(), c, k);
    }
  }

  lemma LoopNodes(q: Question, g: Setting, w: LoopWitness, c: Cycle, maxHops: nat)
    requires IsCanonical(q.t) && IsLoop(q, w, maxHops) && |c| == |w.cycle|
    requires forall i {:trigger c[i]} :: 0 <= i < |c| ==>
               && c[i] < |g.hops| && g.hops[c[i]].Open()
               && g.hops[c[i]].fromNode == Position(q.t, w.cycle[i])
               && g.hops[c[i]].toNode == Position(q.t, Successor(w.cycle, i))
    ensures IsRootedCycle(g.hops, c)
  {
    var start := g.hops[c[0]].fromNode;
    forall i | 0 <= i < |c|
      ensures NodeAt(g.hops, start, c, i) == Position(q.t, w.cycle[i])
    {
      assert i > 0 ==> g.hops[c[i - 1]].toNode == Position(q.t, w.cycle[i]);
    }
    forall i | 0 <= i < |c|
      ensures TakesOpenHop(g.hops, start, c, i)
    {
      assert g.hops[c[i]].Open();
    }
    assert g.hops[c[|c| - 1]].toNode == start;
    forall i, j | 0 <= i < j < |c|
      ensures NodesDiffer(g.hops, start, c, i, j)
    {
      PositionsDiffer(q, w, maxHops, i, j);
    }
    forall j | 0 < j < |c|
      ensures IsAbove(g.hops, start, c, j)
    {
      PositionsDiffer(q, w, maxHops, 0, j);
    }
  }

  lemma PositionsDiffer(q: Question, w: LoopWitness, maxHops: nat, i: nat, j: nat)
    requires IsCanonical(q.t) && IsLoop(q, w, maxHops) && i < j < |w.cycle|
    ensures Position(q.t, w.cycle[i]) != Position(q.t, w.cycle[j])
    ensures i == 0 ==> Position(q.t, w.cycle[i]) < Position(q.t, w.cycle[j])
  {
    assert HopHolds(q, w, i) && HopHolds(q, w, j);
    LoopResourceIsFound(q, w, i);
    LoopResourceIsFound(q, w, j);
    assert w.cycle[i] != w.cycle[j];
    if w.cycle[i] < w.cycle[j] {
      PositionsFollowIds(q, w, i, j);
    } else {
      PositionsFollowIds(q, w, j, i);
    }
  }

  /** The witness of a loop's cycle visits the loop's resources over the loop's hops. */
  lemma WitnessOfLoopMatches(q: Question, nm: Naming, g: Setting, w: LoopWitness, v: LoopWitness, maxHops: nat)
    requires Describes(q, nm, g) && IsLoop(q, w, maxHops)
    requires forall s :: s in w.selectors ==> s in nm.candidates
    requires IsWitnessOf(nm, g, HopNumbers(q, w), v)
    ensures v.cycle == w.cycle && v.hops == w.hops
    ensures forall s :: s in w.selectors ==> s in v.selectors
  {
    var c := HopNumbers(q, w);
    LoopIsRootedCycle(q, nm, g, w, maxHops);
    ChosenMeans(nm.candidates, Common(g.hops, g.Full(), c));
    forall i | 0 <= i < |c|
      ensures v.cycle[i] == w.cycle[i] && v.hops[i] == w.hops[i]
    {
      EmittedEndpoints(q, nm, g, c, v, i);
      assert HopHolds(q, w, i);
      LoopHopIsOpen(q, nm, g, w, i);
      LoopResourceIsFound(q, w, i);
      EndpointIsPosition(q.t, w.cycle[i]);
    }
    forall s | s in w.selectors
      ensures s in v.selectors
    {
      var k :| 0 <= k < |nm.candidates| && nm.candidates[k] == s;
      assert k in Common(g.hops, g.Full(), c);
    }
  }
}
