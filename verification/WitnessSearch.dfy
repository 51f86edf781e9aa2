/** The bounded witness search: an iterative depth-first walk with an explicit stack, proved to
    perform the exploration that module SimpleCycles describes. */
module WitnessSearch {
  import opened Lists
  import opened Sets
  import opened Masks
  import opened SimpleCycles
  import opened Topology
  import opened Evidence
  import opened Witness

  datatype Limits = Limits(
    maxWitnessHops: nat, maxWitnesses: nat, maxCyclesEnumerated: nat, maxSearchSteps: nat, maxCandidateSelectors: nat)

  datatype Frame = Frame(node: nat, cursor: nat, start: nat)

  /** What the search of one start node works on. */
  datatype Setting = Setting(hops: seq<HopView>, nodeCount: nat, candidateCount: nat, maxDepth: nat) {
    ghost predicate Valid() {
      && maxDepth > 0
      && forall i :: 0 <= i < |hops| && hops[i].traversable ==>
           hops[i].fromNode < nodeCount && hops[i].toNode < nodeCount && |hops[i].mask| == WordsFor(candidateCount)
    }

    ghost function Full(): set<nat> {
      Below(candidateCount)
    }

    ghost function Explored(start: nat, path: Cycle, cursor: nat): Report {
      Explore(hops, Full(), maxDepth, start, path, cursor)
    }
  }

  /** The mutable part of the search below one start node. */
  datatype Walk = Walk(stack: seq<Frame>, pathNodes: seq<nat>, pathEdges: seq<nat>, onPath: seq<bool>, masks: seq<Mask>)

  ghost predicate FramesHold(g: Setting, start: nat, w: Walk) {
    && |w.pathNodes| == |w.stack|
    && (forall i {:trigger w.stack[i]} :: 0 <= i < |w.stack| ==>
          w.stack[i].node == w.pathNodes[i] == NodeAt(g.hops, start, w.pathEdges, i) && w.stack[i].start == start)
  }

  ghost predicate OnPathHolds(g: Setting, start: nat, w: Walk) {
    && |w.onPath| == g.nodeCount
    && forall v {:trigger w.onPath[v]} :: 0 <= v < g.nodeCount ==>
       (w.onPath[v] <==> OnPath(g.hops, start, w.pathEdges, v))
  }

  ghost predicate MasksHold(g: Setting, w: Walk) {
    && |w.masks| == g.maxDepth + 1
    && (forall i {:trigger w.masks[i]} :: 0 <= i <= g.maxDepth ==> |w.masks[i]| == WordsFor(g.candidateCount))
    && forall i {:trigger w.masks[i]} :: 0 <= i <= |w.pathEdges| && i <= g.maxDepth ==>
         Bits(w.masks[i]) == Common(g.hops, g.Full(), w.pathEdges[..i])
  }

  ghost predicate WalkHolds(g: Setting, start: nat, w: Walk) {
    && w.stack != []
    && |w.pathEdges| + 1 == |w.stack| <= g.maxDepth
    && IsSimplePath(g.hops, start, w.pathEdges)
    && FramesHold(g, start, w) && OnPathHolds(g, start, w) && MasksHold(g, w)
  }

  /** What is left to do for the lowest `k` frames, the topmost of them first. */
  ghost function Rest(g: Setting, start: nat, pathEdges: seq<nat>, stack: seq<Frame>, k: nat): Report
    requires k <= |stack| && k <= |pathEdges| + 1
  {
    if k == 0 then NOTHING else
      g.Explored(start, pathEdges[..k - 1], stack[k - 1].cursor).Then(Rest(g, start, pathEdges, stack, k - 1))
  }

  ghost function RestOf(g: Setting, start: nat, w: Walk): Report
    requires |w.pathEdges| + 1 >= |w.stack|
  {
    Rest(g, start, w.pathEdges, w.stack, |w.stack|)
  }

  lemma {:induction false} RestIgnoresTop(g: Setting, start: nat, path1: seq<nat>, stack1: seq<Frame>,
                                          path2: seq<nat>, stack2: seq<Frame>, k: nat)
    requires k <= |stack1| && k <= |stack2| && k <= |path1| + 1 && k <= |path2| + 1
    requires forall i :: 0 <= i < k ==> stack1[i] == stack2[i]
    requires forall i :: 0 <= i < k - 1 ==> path1[i] == path2[i]
    ensures Rest(g, start, path1, stack1, k) == Rest(g, start, path2, stack2, k)
  {
    if k > 0 {
      RestIgnoresTop(g, start, path1, stack1, path2, stack2, k - 1);
      assert path1[..k - 1] == path2[..k - 1];
    }
  }

  lemma ThenIsAssociative(a: Report, b: Report, c: Report)
    ensures a.Then(b).Then(c) == a.Then(b.Then(c))
  {
    var x, y := a.Then(b).Then(c), a.Then(b.Then(c));
    assert x.cycles == y.cycles && x.at == y.at && x.cuts == y.cuts;
  }

  lemma NothingThen(a: Report)
    ensures NOTHING.Then(a) == a && a.Then(NOTHING) == a
  {
    var x, y := NOTHING.Then(a), a.Then(NOTHING);
    assert x.cycles == a.cycles == y.cycles && x.at == a.at == y.at && x.cuts == a.cuts == y.cuts;
  }

  lemma {:induction false} RestIsTimed(g: Setting, start: nat, pathEdges: seq<nat>, stack: seq<Frame>, k: nat)
    requires k <= |stack| && k <= |pathEdges| + 1
    ensures IsTimed(Rest(g, start, pathEdges, stack, k))
  {
    if k > 0 {
      ExploreIsTimed(g.hops, g.Full(), g.maxDepth, start, pathEdges[..k - 1], stack[k - 1].cursor);
      RestIsTimed(g, start, pathEdges, stack, k - 1);
      ThenIsTimed(g.Explored(start, pathEdges[..k - 1], stack[k - 1].cursor), Rest(g, start, pathEdges, stack, k - 1));
    }
  }

  // ----- The steps of the walk -----

  function Popped(w: Walk): Walk
    requires w.stack != [] && w.pathNodes != []
    requires w.stack[|w.stack| - 1].node < |w.onPath|
  {
    w.(stack := w.stack[..|w.stack| - 1], pathNodes := w.pathNodes[..|w.pathNodes| - 1],
       pathEdges := if w.pathEdges == [] then [] else w.pathEdges[..|w.pathEdges| - 1],
       onPath := w.onPath[w.stack[|w.stack| - 1].node := false])
  }

  function Advanced(w: Walk): Walk
    requires w.stack != []
  {
    var top := w.stack[|w.stack| - 1];
    w.(stack := w.stack[|w.stack| - 1 := top.(cursor := top.cursor + 1)])
  }

  function Pushed(w: Walk, edge: nat, next: nat, start: nat, mask: Mask): Walk
    requires next < |w.onPath| && |w.pathNodes| < |w.masks|
  {
    w.(stack := w.stack + [Frame(next, 0, start)], pathNodes := w.pathNodes + [next], pathEdges := w.pathEdges + [edge],
       onPath := w.onPath[next := true], masks := w.masks[|w.pathNodes| := mask])
  }

  lemma TopOfWalk(g: Setting, start: nat, w: Walk)
    requires WalkHolds(g, start, w)
    ensures var top := w.stack[|w.stack| - 1];
            top.node == EndNode(g.hops, start, w.pathEdges) && top.start == start
  {
  }

  lemma EndNodeInRange(g: Setting, start: nat, w: Walk)
    requires g.Valid() && WalkHolds(g, start, w) && start < g.nodeCount
    ensures EndNode(g.hops, start, w.pathEdges) < g.nodeCount
  {
    if w.pathEdges != [] {
      assert TakesOpenHop(g.hops, start, w.pathEdges, |w.pathEdges| - 1);
    }
  }

  lemma PopHolds(g: Setting, start: nat, w: Walk)
    requires g.Valid() && WalkHolds(g, start, w) && start < g.nodeCount
    requires w.stack[|w.stack| - 1].cursor >= |OutHops(g.hops, EndNode(g.hops, start, w.pathEdges))|
    ensures w.stack[|w.stack| - 1].node < g.nodeCount
    ensures |Popped(w).pathEdges| + 1 >= |Popped(w).stack|
    ensures RestOf(g, start, w) == RestOf(g, start, Popped(w))
    ensures |w.stack| > 1 ==> WalkHolds(g, start, Popped(w))
  {
    TopOfWalk(g, start, w);
    EndNodeInRange(g, start, w);
    var n := |w.stack|;
    var p := Popped(w);
    assert w.pathEdges[..n - 1] == w.pathEdges;
    NothingThen(Rest(g, start, w.pathEdges, w.stack, n - 1));
    RestIgnoresTop(g, start, w.pathEdges, w.stack, p.pathEdges, p.stack, n - 1);
    if n > 1 {
      PathPrefix(g.hops, start, w.pathEdges, n - 2);
      PopKeepsPath(g, start, w);
    }
  }

  lemma PathPrefix(hops: seq<HopView>, start: nat, path: Cycle, k: nat)
    requires IsSimplePath(hops, start, path) && k <= |path|
    ensures IsSimplePath(hops, start, path[..k])
    ensures forall i :: 0 <= i <= k ==> NodeAt(hops, start, path[..k], i) == NodeAt(hops, start, path, i)
  {
    var prefix := path[..k];
    forall i | 0 <= i <= k
      ensures NodeAt(hops, start, prefix, i) == NodeAt(hops, start, path, i)
    {
      NodeAtPrefix(hops, start, prefix, path, i);
    }
    forall i | 0 <= i < k
      ensures TakesOpenHop(hops, start, prefix, i)
    {
      assert TakesOpenHop(hops, start, path, i);
    }
    forall i | 0 < i <= k
      ensures IsAbove(hops, start, prefix, i)
    {
      assert IsAbove(hops, start, path, i);
    }
    forall i, j | 0 <= i < j <= k
      ensures NodesDiffer(hops, start, prefix, i, j)
    {
      assert NodesDiffer(hops, start, path, i, j);
    }
  }

  lemma PopKeepsPath(g: Setting, start: nat, w: Walk)
    requires g.Valid() && WalkHolds(g, start, w) && start < g.nodeCount && |w.stack| > 1
    requires w.stack[|w.stack| - 1].node == EndNode(g.hops, start, w.pathEdges) < g.nodeCount
    ensures var p := Popped(w);
            FramesHold(g, start, p) && OnPathHolds(g, start, p) && MasksHold(g, p)
  {
    var p := Popped(w);
    var n := |w.pathEdges|;
    var last := EndNode(g.hops, start, w.pathEdges);
    PathPrefix(g.hops, start, w.pathEdges, n - 1);
    forall v | 0 <= v < g.nodeCount
      ensures p.onPath[v] <==> OnPath(g.hops, start, p.pathEdges, v)
    {
      assert w.onPath[v] <==> OnPath(g.hops, start, w.pathEdges, v);
      if i :| 0 <= i <= n && NodeAt(g.hops, start, w.pathEdges, i) == v {
        if i < n {
          assert NodesDiffer(g.hops, start, w.pathEdges, i, n);
          assert NodeAt(g.hops, start, p.pathEdges, i) == v;
        } else {
          forall j | 0 <= j <= n - 1
            ensures NodeAt(g.hops, start, p.pathEdges, j) != v
          {
            assert NodesDiffer(g.hops, start, w.pathEdges, j, n);
          }
        }
      }
    }
    assert forall i :: 0 <= i <= n - 1 ==> p.pathEdges[..i] == w.pathEdges[..i];
  }

  /** What is left to do is what is left at the top, and then what is left below it. */
  lemma TopIsFirst(g: Setting, start: nat, w: Walk)
    requires w.stack != [] && |w.stack| == |w.pathEdges| + 1
    ensures RestOf(g, start, w)
         == g.Explored(start, w.pathEdges,
                       w.stack[|w.stack| - 1].cursor).Then(Rest(g, start, w.pathEdges, w.stack, |w.stack| - 1))
  {
    assert w.pathEdges[..|w.stack| - 1] == w.pathEdges;
  }

  lemma FirstStepApart(before: Report, after: Report, here: Report, next: Report, v: Report, below: Report)
    requires before == here.Then(below) && after == next.Then(below) && here == v.Then(next)
    ensures before == v.Then(after)
  {
    ThenIsAssociative(v, next, below);
  }

  lemma AdvanceAccounts(g: Setting, start: nat, w: Walk)
    requires w.stack != [] && |w.stack| == |w.pathEdges| + 1
    requires w.stack[|w.stack| - 1].cursor < |OutHops(g.hops, EndNode(g.hops, start, w.pathEdges))|
    ensures RestOf(g, start, w)
         == Visit(g.hops, g.Full(), g.maxDepth, start, w.pathEdges, w.stack[|w.stack| - 1].cursor)
              .Then(RestOf(g, start, Advanced(w)))
  {
    var n := |w.stack|;
    var a, cursor := Advanced(w), w.stack[n - 1].cursor;
    var below := Rest(g, start, w.pathEdges, w.stack, n - 1);
    TopIsFirst(g, start, w);
    TopIsFirst(g, start, a);
    RestIgnoresTop(g, start, w.pathEdges, w.stack, a.pathEdges, a.stack, n - 1);
    ExploreStep(g, start, w.pathEdges, cursor);
    FirstStepApart(RestOf(g, start, w), RestOf(g, start, a), g.Explored(start, w.pathEdges, cursor),
                   g.Explored(start, w.pathEdges, cursor + 1),
                     Visit(g.hops, g.Full(), g.maxDepth, start, w.pathEdges, cursor), below);
  }

  lemma AdvanceHolds(g: Setting, start: nat, w: Walk)
    requires WalkHolds(g, start, w)
    requires w.stack[|w.stack| - 1].cursor < |OutHops(g.hops, EndNode(g.hops, start, w.pathEdges))|
    ensures WalkHolds(g, start, Advanced(w))
    ensures RestOf(g, start, w)
         == Visit(g.hops, g.Full(), g.maxDepth, start, w.pathEdges, w.stack[|w.stack| - 1].cursor)
              .Then(RestOf(g, start, Advanced(w)))
  {
    AdvanceAccounts(g, start, w);
    AdvancedFrames(g, start, w);
  }

  lemma AdvancedFrames(g: Setting, start: nat, w: Walk)
    requires w.stack != [] && FramesHold(g, start, w)
    ensures FramesHold(g, start, Advanced(w))
  {
  }

  lemma ExploreStep(g: Setting, start: nat, path: Cycle, cursor: nat)
    requires cursor < |OutHops(g.hops, EndNode(g.hops, start, path))|
    ensures g.Explored(start, path, cursor)
         == Visit(g.hops, g.Full(), g.maxDepth, start, path, cursor).Then(g.Explored(start, path, cursor + 1))
  {
  }

  lemma PushHolds(g: Setting, start: nat, w: Walk, edge: nat, mask: Mask)
    requires g.Valid() && WalkHolds(g, start, w)
    requires IsOpenHopFrom(g.hops, edge, EndNode(g.hops, start, w.pathEdges))
    requires |w.stack| < g.maxDepth
    requires |mask| == WordsFor(g.candidateCount) && Bits(mask) == Common(g.hops, g.Full(), w.pathEdges + [edge])
    requires start < g.hops[edge].toNode && !OnPath(g.hops, start, w.pathEdges, g.hops[edge].toNode)
    ensures g.hops[edge].toNode < g.nodeCount
    ensures var p := Pushed(w, edge, g.hops[edge].toNode, start, mask);
            && WalkHolds(g, start, p)
            && RestOf(g, start, p) == g.Explored(start, w.pathEdges + [edge], 0).Then(RestOf(g, start, w))
  {
    var next := g.hops[edge].toNode;
    var p := Pushed(w, edge, next, start, mask);
    var n := |w.pathEdges|;
    PathExtends(g.hops, start, w.pathEdges, edge);
    forall i | 0 <= i <= n
      ensures NodeAt(g.hops, start, p.pathEdges, i) == NodeAt(g.hops, start, w.pathEdges, i)
    {
      NodeAtPrefix(g.hops, start, w.pathEdges, p.pathEdges, i);
    }
    assert NodeAt(g.hops, start, p.pathEdges, n + 1) == next;
    forall v | 0 <= v < g.nodeCount
      ensures p.onPath[v] <==> OnPath(g.hops, start, p.pathEdges, v)
    {
      assert w.onPath[v] <==> OnPath(g.hops, start, w.pathEdges, v);
      if OnPath(g.hops, start, w.pathEdges, v) {
        var i :| 0 <= i <= n && NodeAt(g.hops, start, w.pathEdges, i) == v;
        assert NodeAt(g.hops, start, p.pathEdges, i) == v;
      }
    }
    assert forall i :: 0 <= i <= n ==> p.pathEdges[..i] == w.pathEdges[..i];
    assert p.pathEdges[..n + 1] == p.pathEdges;
    RestIgnoresTop(g, start, w.pathEdges, w.stack, p.pathEdges, p.stack, n + 1);
  }

  // ----- Witnesses of cycles -----

  /** What turns node and hop numbers into identities. */
  datatype Naming = Naming(t: TopologyDefinition, candidates: seq<nat>, fence: FenceVector) {
    ghost predicate Fits(g: Setting) {
      && |g.hops| == |t.edges| && g.nodeCount == |t.resources| && g.candidateCount == |candidates|
      && ResourcesIncrease(t.resources)
    }
  }

  /** The candidates whose number is in `bits`, in order. */
  ghost function Chosen(candidates: seq<nat>, bits: set<nat>): seq<nat> {
    if candidates == [] then [] else
      var last := |candidates| - 1;
      Chosen(candidates[..last], bits) + if last in bits then [candidates[last]] else []
  }

  ghost predicate NamesNodes(t: TopologyDefinition, nodes: seq<nat>, ids: seq<nat>) {
    && |ids| == |nodes|
    && forall i {:trigger ids[i]} {:trigger nodes[i]} :: 0 <= i < |nodes| ==>
         nodes[i] < |t.resources| && ids[i] == t.resources[nodes[i]].id
  }

  ghost predicate NamesHops(t: TopologyDefinition, c: Cycle, ids: seq<nat>) {
    && |ids| == |c|
    && forall i {:trigger ids[i]} {:trigger c[i]} :: 0 <= i < |c| ==> c[i] < |t.edges| && ids[i] == t.edges[c[i]].id
  }

  ghost function CycleNodes(hops: seq<HopView>, c: Cycle): seq<nat>
    requires c != [] && c[0] < |hops|
  {
    seq(|c|, i requires 0 <= i => NodeAt(hops, hops[c[0]].fromNode, c, i))
  }

  /** The witness a rooted cycle stands for. */
  ghost predicate IsWitnessOf(nm: Naming, g: Setting, c: Cycle, w: LoopWitness) {
    && IsRootedCycle(g.hops, c)
    && NamesNodes(nm.t, CycleNodes(g.hops, c), w.cycle)
    && NamesHops(nm.t, c, w.hops)
    && w.selectors == Chosen(nm.candidates, Common(g.hops, g.Full(), c))
    && w.fence == nm.fence && w.evidence == {}
    && (w.crossesDomains <==> |DomainsOfNodes(nm.t, CycleNodes(g.hops, c))| > 1)
  }

  ghost function DomainsOfNodes(t: TopologyDefinition, nodes: seq<nat>): set<nat> {
    set i | 0 <= i < |nodes| && nodes[i] < |t.resources| :: t.resources[nodes[i]].domain
  }

  ghost predicate AreWitnessesOf(nm: Naming, g: Setting, cycles: seq<Cycle>, ws: seq<LoopWitness>) {
    |ws| == |cycles| && forall i {:trigger ws[i]} :: 0 <= i < |cycles| ==> IsWitnessOf(nm, g, cycles[i], ws[i])
  }

  lemma WitnessesAppend(nm: Naming, g: Setting, cycles: seq<Cycle>, ws: seq<LoopWitness>, moreCycles: seq<Cycle>,
                        more: seq<LoopWitness>)
    requires AreWitnessesOf(nm, g, cycles, ws) && AreWitnessesOf(nm, g, moreCycles, more)
    ensures AreWitnessesOf(nm, g, cycles + moreCycles, ws + more)
  {
  }

  method ChosenBy(candidates: seq<nat>, mask: Mask) returns (r: seq<nat>)
    ensures r == Chosen(candidates, Bits(mask))
  {
    r := [];
    for i := 0 to |candidates|
      invariant r == Chosen(candidates[..i], Bits(mask))
    {
      assert candidates[..i + 1][..i] == candidates[..i];
      if HasBit(mask, i) {
        r := r + [candidates[i]];
      }
    }
    assert candidates[..|candidates|] == candidates;
  }

  method NameNodes(t: TopologyDefinition, nodes: seq<nat>) returns (ids: seq<nat>, domains: set<nat>)
    requires forall i :: 0 <= i < |nodes| ==> nodes[i] < |t.resources|
    ensures NamesNodes(t, nodes, ids)
    ensures domains == DomainsOfNodes(t, nodes)
  {
    ids, domains := [], {};
    for k := 0 to |nodes|
      invariant |ids| == k && forall i {:trigger ids[i]} :: 0 <= i < k ==> ids[i] == t.resources[nodes[i]].id
      invariant domains == set i | 0 <= i < k && nodes[i] < |t.resources| :: t.resources[nodes[i]].domain
    {
      ids := ids + [t.resources[nodes[k]].id];
      domains := domains + {t.resources[nodes[k]].domain};
    }
  }

  method NameHops(t: TopologyDefinition, edges: seq<nat>) returns (ids: seq<nat>)
    requires forall i :: 0 <= i < |edges| ==> edges[i] < |t.edges|
    ensures NamesHops(t, edges, ids)
  {
    ids := [];
    for k := 0 to |edges|
      invariant |ids| == k && forall i {:trigger ids[i]} :: 0 <= i < k ==> ids[i] == t.edges[edges[i]].id
    {
      ids := ids + [t.edges[edges[k]].id];
    }
  }

  lemma RootIsLeast(nm: Naming, g: Setting, c: Cycle, ids: seq<nat>)
    requires g.Valid() && nm.Fits(g) && IsRootedCycle(g.hops, c)
    requires NamesNodes(nm.t, CycleNodes(g.hops, c), ids)
    ensures IsCanonicalRotation(ids)
  {
    var nodes := CycleNodes(g.hops, c);
    forall i | 0 < i < |ids|
      ensures ids[0] < ids[i]
    {
      assert IsAbove(g.hops, g.hops[c[0]].fromNode, c, i);
      assert nodes[0] < nodes[i] < |nm.t.resources|;
      assert IdBefore(nm.t.resources, nodes[0], nodes[i]);
    }
  }

  lemma CycleNodesInRange(g: Setting, c: Cycle, i: nat)
    requires g.Valid() && IsRootedCycle(g.hops, c) && i < |c|
    ensures c[i] < |g.hops| && CycleNodes(g.hops, c)[i] < g.nodeCount
  {
    assert TakesOpenHop(g.hops, g.hops[c[0]].fromNode, c, i);
  }

  method BuildWitness(nm: Naming, g: Setting, pathNodes: seq<nat>, pathEdges: seq<nat>, edge: nat, mask: Mask)
    returns (w: LoopWitness)
    requires g.Valid() && nm.Fits(g)
    requires var c := pathEdges + [edge];
             IsRootedCycle(g.hops, c) && Bits(mask) == Common(g.hops, g.Full(), c) && pathNodes == CycleNodes(g.hops, c)
    ensures IsWitnessOf(nm, g, pathEdges + [edge], w)
  {
    ghost var c := pathEdges + [edge];
    forall i | 0 <= i < |c|
      ensures c[i] < |nm.t.edges| && pathNodes[i] < |nm.t.resources|
    {
      CycleNodesInRange(g, c, i);
    }
    var ids, domains := NameNodes(nm.t, pathNodes);
    var hops := NameHops(nm.t, pathEdges + [edge]);
    RootIsLeast(nm, g, c, ids);
    ids, hops := CanonicalizeCycleWithHops(ids, hops);
    var selectors := ChosenBy(nm.candidates, mask);
    w := LoopWitness(ids, hops, selectors, nm.fence, |domains| > 1, {});
  }

  // ----- The loop -----

  datatype Progress = Progress(
    witnesses: seq<LoopWitness>, steps: nat, cycles: nat,
    stepsExhausted: bool, cyclesExhausted: bool, lengthBoundReached: bool)
  {
    predicate Exhausted() {
      stepsExhausted || cyclesExhausted
    }
  }

  // ----- Where the bounds cut the search -----

  /** The number of the closing at which the bounds on cycles and on witnesses stop the search. */
  function StopAt(limits: Limits): nat
    requires limits.maxWitnesses > 0
  {
    if limits.maxWitnesses <= limits.maxCyclesEnumerated then limits.maxWitnesses - 1 else limits.maxCyclesEnumerated
  }

  /** The whole search, had it no bounds, closes that many cycles before the steps run out. */
  ghost predicate StopsAtCycle(limits: Limits, total: Report)
    requires limits.maxWitnesses > 0
  {
    StopAt(limits) < |total.at| && total.at[StopAt(limits)] <= limits.maxSearchSteps
  }

  /** The whole search takes more than the bounds allow. */
  ghost predicate OverBudget(limits: Limits, total: Report)
    requires limits.maxWitnesses > 0
  {
    StopsAtCycle(limits, total) || total.steps > limits.maxSearchSteps
  }

  /** How many of the times lie within the first `n` steps. */
  ghost function Within(times: seq<nat>, n: nat): (r: nat)
    ensures r <= |times|
  {
    if times == [] || times[|times| - 1] <= n then |times| else Within(times[..|times| - 1], n)
  }

  /** How many cycles are emitted: those closed in time, and the bounds on cycles and witnesses. */
  ghost function Emitted(limits: Limits, total: Report): nat
    requires limits.maxWitnesses > 0
  {
    if StopsAtCycle(limits, total) then
      if limits.maxWitnesses <= limits.maxCyclesEnumerated then StopAt(limits) + 1 else StopAt(limits)
    else Within(total.at, limits.maxSearchSteps)
  }

  /** The length bound cuts the search before another bound stops it. */
  ghost predicate CutSeen(limits: Limits, total: Report)
    requires limits.maxWitnesses > 0
  {
    |total.cuts| > 0 && total.cuts[0] <= if StopsAtCycle(limits, total) then total.at[StopAt(limits)]
      else limits.maxSearchSteps
  }

  /** What a bounded search comes to, by what the whole search would be. */
  ghost predicate IsResult(nm: Naming, g: Setting, limits: Limits, total: Report, p: Progress)
    requires limits.maxWitnesses > 0
  {
    && (p.cyclesExhausted <==> StopsAtCycle(limits, total))
    && (p.stepsExhausted <==> !StopsAtCycle(limits, total) && total.steps > limits.maxSearchSteps)
    && (p.lengthBoundReached <==> CutSeen(limits, total))
    && Emitted(limits, total) <= |total.cycles|
    && AreWitnessesOf(nm, g, total.cycles[..Emitted(limits, total)], p.witnesses)
  }

  /** `p` is where the work reported in `done` leads, inside every bound. */
  ghost predicate Tracks(nm: Naming, g: Setting, limits: Limits, p: Progress, done: Report) {
    && !p.Exhausted() && IsTimed(done)
    && p.steps == done.steps <= limits.maxSearchSteps
    && p.cycles == |done.cycles| <= limits.maxCyclesEnumerated
    && p.lengthBoundReached == done.Pruned()
    && |p.witnesses| < limits.maxWitnesses
    && AreWitnessesOf(nm, g, done.cycles, p.witnesses)
  }

  lemma {:induction false} WithinMeans(times: seq<nat>, n: nat, k: nat)
    requires k <= |times| && StrictlyIncreasing(times)
    requires forall i {:trigger times[i]} :: 0 <= i < |times| ==> (times[i] <= n <==> i < k)
    ensures Within(times, n) == k
    decreases |times|
  {
    if k < |times| {
      var front := times[..|times| - 1];
      assert forall i {:trigger front[i]} :: 0 <= i < |front| ==> front[i] == times[i];
      WithinMeans(front, n, k);
    } else if times != [] {
      assert times[|times| - 1] <= n;
    }
  }

  /** A search that ended inside the bounds. */
  lemma RanOn(nm: Naming, g: Setting, limits: Limits, p: Progress, total: Report)
    requires Tracks(nm, g, limits, p, total)
    ensures IsResult(nm, g, limits, total, p)
  {
    WithinMeans(total.at, limits.maxSearchSteps, |total.at|);
    assert total.cycles[..|total.cycles|] == total.cycles;
  }

  /** What follows is later. */
  lemma TimesAhead(done: Report, x: Report, total: Report)
    requires IsTimed(done) && IsTimed(x) && total == done.Then(x)
    ensures IsTimed(total)
    ensures forall i {:trigger total.at[i]} :: 0 <= i < |total.at| ==>
            (i < |done.at| ==> total.at[i] == done.at[i]) && (total.at[i] <= done.steps <==> i < |done.at|)
    ensures forall i {:trigger total.cuts[i]} :: 0 <= i < |total.cuts| ==>
            (total.cuts[i] <= done.steps <==> i < |done.cuts|)
    ensures total.cycles[..|done.cycles|] == done.cycles
  {
    ThenIsTimed(done, x);
    assert total.at == done.at + Later(x.at, done.steps) && total.cuts == done.cuts + Later(x.cuts, done.steps);
    forall i | 0 <= i < |total.at|
      ensures (i < |done.at| ==> total.at[i] == done.at[i]) && (total.at[i] <= done.steps <==> i < |done.at|)
    {
      assert i < |done.at| ==> 1 <= done.at[i] <= done.steps;
      assert i >= |done.at| ==> 1 <= x.at[i - |done.at|] && total.at[i] == x.at[i - |done.at|] + done.steps;
    }
    forall i | 0 <= i < |total.cuts|
      ensures total.cuts[i] <= done.steps <==> i < |done.cuts|
    {
      assert i < |done.cuts| ==> 1 <= done.cuts[i] <= done.steps;
      assert i >= |done.cuts| ==> 1 <= x.cuts[i - |done.cuts|] && total.cuts[i] == x.cuts[i - |done.cuts|] + done.steps;
    }
  }

  /** The step behind the last one allowed stops the search. */
  lemma StepsRunOut(nm: Naming, g: Setting, limits: Limits, p: Progress, done: Report, x: Report, total: Report)
    requires Tracks(nm, g, limits, p, done) && done.steps == limits.maxSearchSteps
    requires IsTimed(x) && x.steps > 0 && total == done.Then(x)
    ensures IsResult(nm, g, limits, total, p.(steps := p.steps + 1, stepsExhausted := true))
  {
    TimesAhead(done, x, total);
    WithinMeans(total.at, limits.maxSearchSteps, |done.at|);
  }

  /** Where the closing of `c` stands in the whole search. */
  lemma ClosingStands(done: Report, c: Cycle, rest: Report, total: Report)
    requires IsTimed(done) && IsTimed(rest) && total == done.Then(Closed(c).Then(rest))
    ensures IsTimed(total) && |total.at| > |done.at| && total.at[|done.at|] == done.steps + 1
    ensures total.cycles[..|done.cycles|] == done.cycles && total.cycles[..|done.cycles| + 1] == done.cycles + [c]
    ensures |total.cuts| > 0 && total.cuts[0] <= done.steps + 1 <==> done.Pruned()
  {
    ThenIsTimed(Closed(c), rest);
    TimesAhead(done, Closed(c).Then(rest), total);
    var n := |done.at|;
    assert total.at[n] == Closed(c).Then(rest).at[0] + done.steps == 1 + done.steps;
    assert |total.cuts| > 0 && |done.cuts| == 0 ==> total.cuts[0] == Closed(c).Then(rest).cuts[0] + done.steps;
    assert |rest.cuts| > 0 ==> Closed(c).Then(rest).cuts[0] == rest.cuts[0] + 1;
  }

  /** A cycle closed when no more may be enumerated stops the search; one that fills the witnesses stops it after it. */
  lemma CyclesRunOut(nm: Naming, g: Setting, limits: Limits, p: Progress, done: Report, c: Cycle, rest: Report,
                     total: Report, emitted: seq<LoopWitness>)
    requires Tracks(nm, g, limits, p, done) && done.steps < limits.maxSearchSteps
    requires IsTimed(rest) && total == done.Then(Closed(c).Then(rest))
    requires if |done.cycles| == limits.maxCyclesEnumerated then emitted == p.witnesses
             else |p.witnesses| + 1 == limits.maxWitnesses && AreWitnessesOf(nm, g, done.cycles + [c], emitted)
    ensures forall steps, cycles ::
              IsResult(nm, g, limits, total, Progress(emitted, steps, cycles, false, true, p.lengthBoundReached))
  {
    ClosingStands(done, c, rest, total);
    assert StopAt(limits) == |done.at|;
  }

  /** What comes behind the place where the search stopped makes no difference. */
  lemma ResultStays(nm: Naming, g: Setting, limits: Limits, total: Report, more: Report, p: Progress)
    requires limits.maxWitnesses > 0 && IsTimed(total) && IsTimed(more)
    requires IsResult(nm, g, limits, total, p) && p.Exhausted()
    ensures IsResult(nm, g, limits, total.Then(more), p)
  {
    var longer := total.Then(more);
    TimesAhead(total, more, longer);
    var n := Emitted(limits, total);
    assert longer.cycles[..n] == total.cycles[..n];
    assert longer.cuts[..|total.cuts|] == total.cuts;
    if !StopsAtCycle(limits, total) {
      WithinHolds(total.at, limits.maxSearchSteps);
      WithinMeans(longer.at, limits.maxSearchSteps, n);
    }
  }

  lemma {:induction false} WithinHolds(times: seq<nat>, n: nat)
    requires StrictlyIncreasing(times)
    ensures forall i {:trigger times[i]} :: 0 <= i < |times| ==> (times[i] <= n <==> i < Within(times, n))
    decreases |times|
  {
    if times != [] && times[|times| - 1] > n {
      var front := times[..|times| - 1];
      WithinHolds(front, n);
      assert forall i {:trigger times[i]} :: 0 <= i < |front| ==> front[i] == times[i];
    }
  }

  // ----- The turns of the loop -----

  ghost predicate Underway(nm: Naming, g: Setting, limits: Limits, start: nat, w: Walk, p: Progress, done: Report,
                           total: Report) {
    && Tracks(nm, g, limits, p, done)
    && |w.pathEdges| + 1 >= |w.stack|
    && done.Then(RestOf(g, start, w)) == total
    && (w.stack != [] ==> WalkHolds(g, start, w))
    && (w.stack == [] ==> IsClean(g, w.onPath, w.masks))
  }

  /** Looking at one out-hop: what it reports, and what remains. */
  lemma LookAccounts(g: Setting, start: nat, w: Walk, done: Report, total: Report)
    requires WalkHolds(g, start, w)
    requires w.stack[|w.stack| - 1].cursor < |OutHops(g.hops, EndNode(g.hops, start, w.pathEdges))|
    requires done.Then(RestOf(g, start, w)) == total
    ensures WalkHolds(g, start, Advanced(w))
    ensures var v := Visit(g.hops, g.Full(), g.maxDepth, start, w.pathEdges, w.stack[|w.stack| - 1].cursor);
            var rest := RestOf(g, start, Advanced(w));
            && done.Then(v).Then(rest) == total == done.Then(v.Then(rest))
            && IsTimed(v) && IsTimed(rest) && IsTimed(v.Then(rest)) && v.steps >= 1
  {
    AdvanceHolds(g, start, w);
    var v := Visit(g.hops, g.Full(), g.maxDepth, start, w.pathEdges, w.stack[|w.stack| - 1].cursor);
    var rest := RestOf(g, start, Advanced(w));
    ThenIsAssociative(done, v, rest);
    VisitIsTimed(g.hops, g.Full(), g.maxDepth, start, w.pathEdges, w.stack[|w.stack| - 1].cursor);
    RestIsTimed(g, start, Advanced(w).pathEdges, Advanced(w).stack, |Advanced(w).stack|);
    ThenIsTimed(v, rest);
  }

  lemma CommonExtends(hops: seq<HopView>, full: set<nat>, path: Cycle, e: nat)
    requires e < |hops|
    ensures Common(hops, full, path + [e]) == Common(hops, full, path) * Bits(hops[e].mask)
  {
    assert (path + [e])[..|path|] == path;
  }

  lemma PathNodesOfCycle(g: Setting, start: nat, w: Walk, e: nat)
    requires WalkHolds(g, start, w)
    requires IsOpenHopFrom(g.hops, e, EndNode(g.hops, start, w.pathEdges)) && g.hops[e].toNode == start
    ensures IsRootedCycle(g.hops, w.pathEdges + [e])
    ensures CycleNodes(g.hops, w.pathEdges + [e]) == w.pathNodes
  {
    PathCloses(g.hops, start, w.pathEdges, e);
    var c := w.pathEdges + [e];
    forall i | 0 <= i < |c|
      ensures NodeAt(g.hops, start, c, i) == w.pathNodes[i]
    {
      NodeAtPrefix(g.hops, start, w.pathEdges, c, i);
      assert w.stack[i].node == w.pathNodes[i];
    }
  }

  /** What is known when the next out-hop `edge` of the top frame is looked at. */
  ghost predicate Looking(nm: Naming, g: Setting, limits: Limits, start: nat, w: Walk, p: Progress, edge: nat,
                          done: Report, total: Report) {
    && Underway(nm, g, limits, start, w, p, done, total) && w.stack != []
    && var out := OutHops(g.hops, EndNode(g.hops, start, w.pathEdges));
       var top := w.stack[|w.stack| - 1];
       top.cursor < |out| && out[top.cursor] == edge && IsOpenHopFrom(g.hops, edge, EndNode(g.hops, start, w.pathEdges))
  }

  /** One more step that closed nothing. */
  lemma StepTaken(nm: Naming, g: Setting, limits: Limits, p: Progress, done: Report, v: Report)
    requires Tracks(nm, g, limits, p, done) && done.steps < limits.maxSearchSteps && (v == PASSED || v == CUT)
    ensures Tracks(nm, g, limits, p.(steps := p.steps + 1, lengthBoundReached := p.lengthBoundReached || v == CUT),
                   done.Then(v))
  {
    ThenIsTimed(done, v);
    EitherPruned(done, v);
    assert done.Then(v).cycles == done.cycles;
  }

  /** What the out-hop looked at leads to. */
  ghost function FoundAt(g: Setting, start: nat, w: Walk): Report
    requires w.stack != [] && w.stack[|w.stack| - 1].cursor < |OutHops(g.hops, EndNode(g.hops, start, w.pathEdges))|
  {
    Visit(g.hops, g.Full(), g.maxDepth, start, w.pathEdges, w.stack[|w.stack| - 1].cursor)
  }

  /** The out-hop closes nothing and leads no deeper. */
  lemma NothingClosed(nm: Naming, g: Setting, limits: Limits, start: nat, w: Walk, p: Progress, edge: nat, done: Report,
                      total: Report)
    requires Looking(nm, g, limits, start, w, p, edge, done, total) && p.steps < limits.maxSearchSteps
    requires var found := FoundAt(g, start, w); found == PASSED || found == CUT
    ensures var found := FoundAt(g, start, w);
            Underway(nm, g, limits, start, Advanced(w),
                     p.(steps := p.steps + 1, lengthBoundReached := p.lengthBoundReached || found == CUT),
                       done.Then(found), total)
  {
    LookAccounts(g, start, w, done, total);
    StepTaken(nm, g, limits, p, done, FoundAt(g, start, w));
  }

  /** The steps are used up. */
  lemma OutOfSteps(nm: Naming, g: Setting, limits: Limits, start: nat, w: Walk, p: Progress, edge: nat, done: Report,
                   total: Report)
    requires Looking(nm, g, limits, start, w, p, edge, done, total) && p.steps == limits.maxSearchSteps
    ensures IsResult(nm, g, limits, total, p.(steps := p.steps + 1, stepsExhausted := true))
  {
    LookAccounts(g, start, w, done, total);
    StepsRunOut(nm, g, limits, p, done, FoundAt(g, start, w).Then(RestOf(g, start, Advanced(w))), total);
  }

  /** The search goes on below the out-hop. */
  lemma Deeper(nm: Naming, g: Setting, limits: Limits, start: nat, w: Walk, p: Progress, edge: nat, mask: Mask,
               done: Report, total: Report)
    requires g.Valid() && start < g.nodeCount
    requires Looking(nm, g, limits, start, w, p, edge, done, total) && p.steps < limits.maxSearchSteps
             && |w.stack| < g.maxDepth
    requires |mask| == WordsFor(g.candidateCount) && Bits(mask) == Common(g.hops, g.Full(), w.pathEdges + [edge])
    requires start < g.hops[edge].toNode && !OnPath(g.hops, start, w.pathEdges, g.hops[edge].toNode)
    requires FoundAt(g, start, w) == PASSED.Then(g.Explored(start, w.pathEdges + [edge], 0))
    ensures g.hops[edge].toNode < |w.onPath| && |w.pathNodes| < |w.masks|
    ensures Underway(nm, g, limits, start, Pushed(Advanced(w), edge, g.hops[edge].toNode, start, mask),
                     p.(steps := p.steps + 1),
                     done.Then(PASSED), total)
  {
    LookAccounts(g, start, w, done, total);
    PushHolds(g, start, Advanced(w), edge, mask);
    StepTaken(nm, g, limits, p, done, PASSED);
    DeeperAccounts(done, FoundAt(g, start, w), g.Explored(start, w.pathEdges + [edge], 0),
                   RestOf(g, start, Advanced(w)),
                   RestOf(g, start, Pushed(Advanced(w), edge, g.hops[edge].toNode, start, mask)), total);
  }

  /** Where the out-hop leads, when it closes no cycle and something is still in common. */
  method LookBehind(nm: Naming, g: Setting, limits: Limits, edge: nat, mask: Mask, ghost start: nat, w0: Walk,
                    before: Progress, ghost done0: Report, ghost total: Report)
    returns (w: Walk, p: Progress, ghost done: Report)
    requires g.Valid() && nm.Fits(g) && start < g.nodeCount && limits.maxWitnesses > 0
    requires Looking(nm, g, limits, start, w0, before, edge, done0, total) && before.steps < limits.maxSearchSteps
    requires |mask| == WordsFor(g.candidateCount) && Bits(mask) == Common(g.hops, g.Full(), w0.pathEdges + [edge]) != {}
    requires g.hops[edge].toNode != start
    ensures Underway(nm, g, limits, start, w, p, done, total) && p.steps > before.steps && !p.Exhausted()
  {
    w, p, done := Advanced(w0), before.(steps := before.steps + 1), done0.Then(FoundAt(g, start, w0));
    var next, top := g.hops[edge].toNode, w0.stack[|w0.stack| - 1];
    TopOfWalk(g, start, w0);
    if next <= top.start || w0.onPath[next] {
      NothingClosed(nm, g, limits, start, w0, before, edge, done0, total);
    } else if |w0.pathNodes| >= g.maxDepth {
      NothingClosed(nm, g, limits, start, w0, before, edge, done0, total);
      p := p.(lengthBoundReached := true);
    } else {
      Deeper(nm, g, limits, start, w0, before, edge, mask, done0, total);
      w := Pushed(w, edge, next, top.start, mask);
      done := done0.Then(PASSED);
    }
  }

  /** Looks at one out-hop of the top frame. */
  method Look(nm: Naming, g: Setting, limits: Limits, edge: nat, ghost start: nat, w0: Walk, before: Progress,
              ghost done0: Report, ghost total: Report)
    returns (w: Walk, p: Progress, ghost done: Report)
    requires g.Valid() && nm.Fits(g) && start < g.nodeCount && limits.maxWitnesses > 0
    requires Looking(nm, g, limits, start, w0, before, edge, done0, total)
    ensures p.Exhausted() ==> IsResult(nm, g, limits, total, p)
    ensures !p.Exhausted() ==> Underway(nm, g, limits, start, w, p, done, total) && p.steps > before.steps
  {
    w, p, done := Advanced(w0), before.(steps := before.steps + 1), done0.Then(FoundAt(g, start, w0));
    if p.steps > limits.maxSearchSteps {
      OutOfSteps(nm, g, limits, start, w0, before, edge, done0, total);
      p := p.(stepsExhausted := true);
      return;
    }
    var view, top := g.hops[edge], w0.stack[|w0.stack| - 1];
    CommonExtends(g.hops, g.Full(), w0.pathEdges, edge);
    assert w0.pathEdges[..|w0.pathEdges|] == w0.pathEdges;
    var scratch := And(w0.masks[|w0.pathNodes| - 1], view.mask);
    var empty := IsEmpty(scratch);
    TopOfWalk(g, start, w0);
    if empty {
      NothingClosed(nm, g, limits, start, w0, before, edge, done0, total);
    } else if view.toNode == top.start {
      w, p, done := Emit(nm, g, limits, edge, scratch, start, w0, before, done0, total);
    } else {
      w, p, done := LookBehind(nm, g, limits, edge, scratch, start, w0, before, done0, total);
    }
  }

  /** Going deeper: what was found behind the out-hop is still to do. */
  lemma DeeperAccounts(done: Report, found: Report, deeper: Report, rest: Report, all: Report, total: Report)
    requires found == PASSED.Then(deeper) && all == deeper.Then(rest) && total == done.Then(found).Then(rest)
    ensures done.Then(PASSED).Then(all) == total
  {
    ThenIsAssociative(PASSED, deeper, rest);
    ThenIsAssociative(done, PASSED, all);
    ThenIsAssociative(done, found, rest);
  }

  /** One more step that closed a cycle, inside every bound. */
  lemma CycleTaken(nm: Naming, g: Setting, limits: Limits, p: Progress, done: Report, c: Cycle, w: LoopWitness)
    requires Tracks(nm, g, limits, p, done) && done.steps < limits.maxSearchSteps
    requires |done.cycles| < limits.maxCyclesEnumerated && |p.witnesses| + 1 < limits.maxWitnesses
             && IsWitnessOf(nm, g, c, w)
    ensures Tracks(nm, g, limits, p.(steps := p.steps + 1, cycles := p.cycles + 1, witnesses := p.witnesses + [w]),
                   done.Then(Closed(c)))
  {
    ThenIsTimed(done, Closed(c));
    EitherPruned(done, Closed(c));
    WitnessesAppend(nm, g, done.cycles, p.witnesses, [c], [w]);
  }

  /** The out-hop closes a cycle. */
  ghost predicate Closing(nm: Naming, g: Setting, limits: Limits, start: nat, w: Walk, p: Progress, edge: nat,
                          done: Report, total: Report) {
    && Looking(nm, g, limits, start, w, p, edge, done, total) && p.steps < limits.maxSearchSteps
    && g.hops[edge].toNode == start && Common(g.hops, g.Full(), w.pathEdges + [edge]) != {}
  }

  /** The cycle closed is one too many. */
  lemma StopsHere(nm: Naming, g: Setting, limits: Limits, start: nat, w: Walk, p: Progress, edge: nat, done: Report,
                  total: Report)
    requires Closing(nm, g, limits, start, w, p, edge, done, total) && p.cycles == limits.maxCyclesEnumerated
    ensures IsResult(nm, g, limits, total, p.(steps := p.steps + 1, cycles := p.cycles + 1, cyclesExhausted := true))
  {
    LookAccounts(g, start, w, done, total);
    assert FoundAt(g, start, w) == Closed(w.pathEdges + [edge]);
    CyclesRunOut(nm, g, limits, p, done, w.pathEdges + [edge], RestOf(g, start, Advanced(w)), total, p.witnesses);
  }

  /** The witness of the cycle closed is the last one there is room for. */
  lemma StopsBehind(nm: Naming, g: Setting, limits: Limits, start: nat, w: Walk, p: Progress, edge: nat, done: Report,
                    total: Report, emitted: LoopWitness)
    requires Closing(nm, g, limits, start, w, p, edge, done, total)
    requires p.cycles < limits.maxCyclesEnumerated && |p.witnesses| + 1 == limits.maxWitnesses
    requires IsWitnessOf(nm, g, w.pathEdges + [edge], emitted)
    ensures IsResult(nm, g, limits, total,
                     p.(steps := p.steps + 1, cycles := p.cycles + 1, witnesses := p.witnesses + [emitted],
                        cyclesExhausted := true))
  {
    LookAccounts(g, start, w, done, total);
    assert FoundAt(g, start, w) == Closed(w.pathEdges + [edge]);
    WitnessesAppend(nm, g, done.cycles, p.witnesses, [w.pathEdges + [edge]], [emitted]);
    CyclesRunOut(nm, g, limits, p, done, w.pathEdges + [edge], RestOf(g, start, Advanced(w)), total,
                 p.witnesses + [emitted]);
  }

  /** The search goes on behind the cycle closed. */
  lemma GoesOnBehind(nm: Naming, g: Setting, limits: Limits, start: nat, w: Walk, p: Progress, edge: nat, done: Report,
                     total: Report, emitted: LoopWitness)
    requires Closing(nm, g, limits, start, w, p, edge, done, total)
    requires p.cycles < limits.maxCyclesEnumerated && |p.witnesses| + 1 < limits.maxWitnesses
    requires IsWitnessOf(nm, g, w.pathEdges + [edge], emitted)
    ensures Underway(nm, g, limits, start, Advanced(w),
                     p.(steps := p.steps + 1, cycles := p.cycles + 1, witnesses := p.witnesses + [emitted]),
                     done.Then(Closed(w.pathEdges + [edge])), total)
  {
    LookAccounts(g, start, w, done, total);
    assert FoundAt(g, start, w) == Closed(w.pathEdges + [edge]);
    CycleTaken(nm, g, limits, p, done, w.pathEdges + [edge], emitted);
  }

  /** Emits the cycle that `edge` closes. */
  method Emit(nm: Naming, g: Setting, limits: Limits, edge: nat, mask: Mask, ghost start: nat, w0: Walk,
              before: Progress, ghost done0: Report, ghost total: Report)
    returns (w: Walk, p: Progress, ghost done: Report)
    requires g.Valid() && nm.Fits(g) && start < g.nodeCount && limits.maxWitnesses > 0
    requires Closing(nm, g, limits, start, w0, before, edge, done0, total)
    requires Bits(mask) == Common(g.hops, g.Full(), w0.pathEdges + [edge])
    ensures p.Exhausted() ==> IsResult(nm, g, limits, total, p)
    ensures !p.Exhausted() ==> Underway(nm, g, limits, start, w, p, done, total) && p.steps > before.steps
  {
    w, p := Advanced(w0), before.(steps := before.steps + 1, cycles := before.cycles + 1);
    done := done0.Then(Closed(w0.pathEdges + [edge]));
    if p.cycles > limits.maxCyclesEnumerated {
      StopsHere(nm, g, limits, start, w0, before, edge, done0, total);
      p := p.(cyclesExhausted := true);
      return;
    }
    PathNodesOfCycle(g, start, w0, edge);
    var emitted := BuildWitness(nm, g, w0.pathNodes, w0.pathEdges, edge, mask);
    p := p.(witnesses := p.witnesses + [emitted]);
    if |p.witnesses| >= limits.maxWitnesses {
      StopsBehind(nm, g, limits, start, w0, before, edge, done0, total, emitted);
      p := p.(cyclesExhausted := true);
    } else {
      GoesOnBehind(nm, g, limits, start, w0, before, edge, done0, total, emitted);
    }
  }

  /** One turn of the loop: retire the top frame, or look at its next out-hop. */
  method Turn(nm: Naming, g: Setting, limits: Limits, provenOut: seq<seq<nat>>, ghost start: nat, w0: Walk,
              before: Progress, ghost done0: Report, ghost total: Report)
    returns (w: Walk, p: Progress, ghost done: Report)
    requires g.Valid() && nm.Fits(g) && start < g.nodeCount && w0.stack != [] && limits.maxWitnesses > 0
    requires |provenOut| == g.nodeCount && forall v :: 0 <= v < g.nodeCount ==> provenOut[v] == OutHops(g.hops, v)
    requires Underway(nm, g, limits, start, w0, before, done0, total)
    ensures p.Exhausted() ==> IsResult(nm, g, limits, total, p)
    ensures !p.Exhausted() ==> Underway(nm, g, limits, start, w, p, done, total)
    ensures !p.Exhausted() ==> p.steps > before.steps || (p.steps == before.steps && |w.stack| < |w0.stack|)
  {
    var top := w0.stack[|w0.stack| - 1];
    TopOfWalk(g, start, w0);
    EndNodeInRange(g, start, w0);
    if top.cursor >= |provenOut[top.node]| {
      PopHolds(g, start, w0);
      PopIsClean(g, start, w0);
      return Popped(w0), before, done0;
    }
    OutHopsAreOpen(g.hops, top.node);
    w, p, done := Look(nm, g, limits, provenOut[top.node][top.cursor], start, w0, before, done0, total);
  }

  /** When the last frame is retired, nothing is marked any more. */
  lemma PopIsClean(g: Setting, start: nat, w: Walk)
    requires g.Valid() && WalkHolds(g, start, w) && start < g.nodeCount
    ensures |w.stack| == 1 ==> w.stack[0].node < |w.onPath| && IsClean(g, Popped(w).onPath, w.masks)
  {
    if |w.stack| == 1 {
      TopOfWalk(g, start, w);
      forall v | 0 <= v < g.nodeCount && v != start
        ensures !w.onPath[v]
      {
        assert w.onPath[v] <==> OnPath(g.hops, start, w.pathEdges, v);
      }
    }
  }

  /** The first frame of the search below `start`. */
  lemma WalkStarts(g: Setting, start: nat, masks: seq<Mask>, mask: Mask, onPath: seq<bool>)
    requires g.Valid() && start < g.nodeCount && onPath == seq(g.nodeCount, _ => false)
    requires |masks| == g.maxDepth + 1
    requires forall i {:trigger masks[i]} :: 0 <= i <= g.maxDepth ==> |masks[i]| == WordsFor(g.candidateCount)
    requires |mask| == WordsFor(g.candidateCount) && Bits(mask) == g.Full()
    ensures var w := Walk([Frame(start, 0, start)], [start], [], onPath[start := true], masks[0 := mask]);
            WalkHolds(g, start, w)
  {
    var w := Walk([Frame(start, 0, start)], [start], [], onPath[start := true], masks[0 := mask]);
    EmptyPathIsSimple(g.hops, start);
    StartFramesHold(g, start, w);
    StartIsOnPath(g, start, w);
    StartMasksHold(g, w);
  }

  lemma StartFramesHold(g: Setting, start: nat, w: Walk)
    requires w.stack == [Frame(start, 0, start)] && w.pathNodes == [start] && w.pathEdges == []
    ensures FramesHold(g, start, w)
  {
    assert NodeAt(g.hops, start, w.pathEdges, 0) == start;
  }

  lemma StartMasksHold(g: Setting, w: Walk)
    requires g.Valid() && w.pathEdges == [] && |w.masks| == g.maxDepth + 1
    requires forall i {:trigger w.masks[i]} :: 0 <= i <= g.maxDepth ==> |w.masks[i]| == WordsFor(g.candidateCount)
    requires Bits(w.masks[0]) == g.Full()
    ensures MasksHold(g, w)
  {
    assert w.pathEdges[..0] == [];
  }

  lemma RestOfOneFrame(g: Setting, start: nat, path: Cycle, frame: Frame, report: Report)
    requires path == [] && report == g.Explored(start, [], frame.cursor)
    ensures Rest(g, start, path, [frame], 1) == report
  {
    NothingThen(report);
    assert Rest(g, start, path, [frame], 0) == NOTHING;
    assert path[..0] == [];
  }

  lemma StartIsOnPath(g: Setting, start: nat, w: Walk)
    requires start < g.nodeCount && w.pathEdges == [] && w.onPath == seq(g.nodeCount, _ => false)[start := true]
    ensures OnPathHolds(g, start, w)
  {
    assert NodeAt(g.hops, start, [], 0) == start;
    assert OnPath(g.hops, start, [], start);
  }

  ghost predicate IsClean(g: Setting, onPath: seq<bool>, masks: seq<Mask>) {
    && onPath == seq(g.nodeCount, _ => false) && |masks| == g.maxDepth + 1
    && forall i {:trigger masks[i]} :: 0 <= i <= g.maxDepth ==> |masks[i]| == WordsFor(g.candidateCount)
  }

  /** The whole search below one start node, behind the searches reported in `below`. */
  method SearchFrom(nm: Naming, g: Setting, limits: Limits, provenOut: seq<seq<nat>>, start: nat, p0: Progress,
                    onPath0: seq<bool>, masks0: seq<Mask>, ghost below: Report)
    returns (p: Progress, onPath: seq<bool>, masks: seq<Mask>)
    requires g.Valid() && nm.Fits(g) && start < g.nodeCount && IsClean(g, onPath0, masks0) && limits.maxWitnesses > 0
    requires |provenOut| == g.nodeCount && forall v :: 0 <= v < g.nodeCount ==> provenOut[v] == OutHops(g.hops, v)
    requires Tracks(nm, g, limits, p0, below)
    ensures var total := below.Then(g.Explored(start, [], 0));
            && (p.Exhausted() ==> IsResult(nm, g, limits, total, p))
            && (!p.Exhausted() ==> Tracks(nm, g, limits, p, total) && IsClean(g, onPath, masks))
  {
    ghost var total := below.Then(g.Explored(start, [], 0));
    var all := AllCandidates(g.candidateCount);
    WalkStarts(g, start, masks0, all, onPath0);
    RestOfOneFrame(g, start, [], Frame(start, 0, start), g.Explored(start, [], 0));
    var w := Walk([Frame(start, 0, start)], [start], [], onPath0[start := true], masks0[0 := all]);
    p := p0;
    ghost var done := below;
    while w.stack != [] && !p.Exhausted()
      invariant p.Exhausted() ==> IsResult(nm, g, limits, total, p)
      invariant !p.Exhausted() ==> Underway(nm, g, limits, start, w, p, done, total)
      decreases !p.Exhausted(), limits.maxSearchSteps + 1 - p.steps, |w.stack|
    {
      w, p, done := Turn(nm, g, limits, provenOut, start, w, p, done, total);
    }
    onPath, masks := w.onPath, w.masks;
    if !p.Exhausted() {
      NothingThen(done);
    }
  }

  /** The open hops of every node, in the order of the hop table. */
  method CollectOutHops(hops: seq<HopView>, nodeCount: nat) returns (out: seq<seq<nat>>)
    requires forall i :: 0 <= i < |hops| && hops[i].Open() ==> hops[i].fromNode < nodeCount
    ensures |out| == nodeCount && forall v :: 0 <= v < nodeCount ==> out[v] == OutHops(hops, v)
  {
    out := seq(nodeCount, _ => []);
    for k := 0 to |hops|
      invariant |out| == nodeCount && forall v :: 0 <= v < nodeCount ==> out[v] == OutHops(hops[..k], v)
    {
      assert hops[..k + 1][..k] == hops[..k];
      if hops[k].Open() {
        out := out[hops[k].fromNode := out[hops[k].fromNode] + [k]];
      }
    }
    assert hops[..|hops|] == hops;
  }

  lemma NoOutHopsNothing(g: Setting, start: nat)
    requires OutHops(g.hops, start) == []
    ensures g.Explored(start, [], 0) == NOTHING
  {
  }

  const START: Progress := Progress([], 0, 0, false, false, false)

  /** The search below one start node, if it has any out-hop. */
  method SearchNext(nm: Naming, g: Setting, limits: Limits, provenOut: seq<seq<nat>>, start: nat, p0: Progress,
                    onPath0: seq<bool>, masks0: seq<Mask>, ghost below: Report)
    returns (p: Progress, onPath: seq<bool>, masks: seq<Mask>)
    requires g.Valid() && nm.Fits(g) && start < g.nodeCount && IsClean(g, onPath0, masks0) && limits.maxWitnesses > 0
    requires |provenOut| == g.nodeCount && forall v :: 0 <= v < g.nodeCount ==> provenOut[v] == OutHops(g.hops, v)
    requires Tracks(nm, g, limits, p0, below)
    ensures var total := below.Then(g.Explored(start, [], 0));
            && (p.Exhausted() ==> IsResult(nm, g, limits, total, p))
            && (!p.Exhausted() ==> Tracks(nm, g, limits, p, total) && IsClean(g, onPath, masks))
  {
    if provenOut[start] == [] {
      NoOutHopsNothing(g, start);
      NothingThen(below);
      return p0, onPath0, masks0;
    }
    p, onPath, masks := SearchFrom(nm, g, limits, provenOut, start, p0, onPath0, masks0, below);
  }

  /** What searching below the first start nodes comes to, one more at a time. */
  ghost predicate GoesOn(g: Setting, below: nat -> Report, i: nat) {
    IsTimed(below(i)) && below(i + 1) == below(i).Then(g.Explored(i, [], 0))
  }

  lemma SearchesBelow(g: Setting) returns (below: nat -> Report)
    ensures below(0) == NOTHING && below(g.nodeCount) == ExploreAll(g.hops, g.Full(), g.maxDepth, g.nodeCount)
    ensures forall i {:trigger GoesOn(g, below, i)} :: GoesOn(g, below, i)
  {
    below := (i: nat) => ExploreAll(g.hops, g.Full(), g.maxDepth, i);
    forall i
      ensures GoesOn(g, below, i)
    {
      ExploreAllIsTimed(g.hops, g.Full(), g.maxDepth, i);
    }
  }

  /** A search that stopped somewhere would not have gone on behind that. */
  lemma {:induction false} StoppedForGood(nm: Naming, g: Setting, limits: Limits, below: nat -> Report, k: nat, n: nat,
                                          p: Progress)
    requires k <= n && limits.maxWitnesses > 0 && p.Exhausted() && forall i {:trigger GoesOn(g, below, i)} ::
             GoesOn(g, below, i)
    requires IsResult(nm, g, limits, below(k), p)
    ensures IsResult(nm, g, limits, below(n), p)
    decreases n
  {
    if k < n {
      StoppedForGood(nm, g, limits, below, k, n - 1, p);
      assert GoesOn(g, below, n - 1);
      ExploreIsTimed(g.hops, g.Full(), g.maxDepth, n - 1, [], 0);
      ResultStays(nm, g, limits, below(n - 1), g.Explored(n - 1, [], 0), p);
    }
  }

  lemma NothingDone(nm: Naming, g: Setting, limits: Limits)
    requires limits.maxWitnesses > 0
    ensures Tracks(nm, g, limits, START, NOTHING)
  {
  }

  /** The search from every start node in turn, until a bound stops it. */
  method SearchAll(nm: Naming, g: Setting, limits: Limits, provenOut: seq<seq<nat>>, onPath0: seq<bool>,
                   masks0: seq<Mask>, ghost below: nat -> Report)
    returns (p: Progress)
    requires g.Valid() && nm.Fits(g) && IsClean(g, onPath0, masks0) && limits.maxWitnesses > 0
    requires |provenOut| == g.nodeCount && forall v :: 0 <= v < g.nodeCount ==> provenOut[v] == OutHops(g.hops, v)
    requires below(0) == NOTHING && forall i {:trigger GoesOn(g, below, i)} :: GoesOn(g, below, i)
    ensures IsResult(nm, g, limits, below(g.nodeCount), p)
  {
    NothingDone(nm, g, limits);
    p := START;
    var onPath, masks, start := onPath0, masks0, 0;
    while start < g.nodeCount && !p.Exhausted()
      invariant start <= g.nodeCount
      invariant p.Exhausted() ==> IsResult(nm, g, limits, below(start), p)
      invariant !p.Exhausted() ==> Tracks(nm, g, limits, p, below(start)) && IsClean(g, onPath, masks)
      decreases g.nodeCount - start
    {
      assert GoesOn(g, below, start);
      p, onPath, masks := SearchNext(nm, g, limits, provenOut, start, p, onPath, masks, below(start));
      start := start + 1;
    }
    if p.Exhausted() {
      StoppedForGood(nm, g, limits, below, start, g.nodeCount, p);
    } else {
      RanOn(nm, g, limits, p, below(g.nodeCount));
    }
  }

  /** The whole bounded search. What it comes to is decided by what the search without bounds would be: the cycles
      emitted are its first ones, and each bound is met exactly where it is. */
  method Enumerate(nm: Naming, g: Setting, limits: Limits) returns (p: Progress)
    requires g.Valid() && nm.Fits(g)
    requires limits.maxWitnesses > 0
    ensures IsResult(nm, g, limits, ExploreAll(g.hops, g.Full(), g.maxDepth, g.nodeCount), p)
  {
    var provenOut := CollectOutHops(g.hops, g.nodeCount);
    var blank: Mask := seq(WordsFor(g.candidateCount), _ => {});
    ghost var below := SearchesBelow(g);
    p := SearchAll(nm, g, limits, provenOut, seq(g.nodeCount, _ => false), seq(g.maxDepth + 1, _ => blank), below);
  }
}
