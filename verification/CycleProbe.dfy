/** The exact cycle-existence test of the detector: Kahn's algorithm over a compressed
    adjacency that is rebuilt for every hop class asked about. */
module Probe {
  import opened Graph
  import opened Sets

  /** Hop classes, in the order in which the probes admit them. */
  datatype HopClass = Proven | Unproven | Conflicted {
    function Rank(): nat {
      match this
      case Proven => 0
      case Unproven => 1
      case Conflicted => 2
    }
  }

  datatype Edge = Edge(from: nat, to: nat, klass: HopClass) {
    predicate Usable(highest: HopClass) {
      klass.Rank() <= highest.Rank()
    }
  }

  predicate EndpointsBelow(edges: seq<Edge>, n: nat) {
    forall i :: 0 <= i < |edges| ==> edges[i].from < n && edges[i].to < n
  }

  /** The arcs of the edges whose class is at most `highest`. */
  ghost function Arcs(edges: seq<Edge>, highest: HopClass): set<Arc> {
    set i | 0 <= i < |edges| && edges[i].Usable(highest) :: Arc(edges[i].from, edges[i].to)
  }

  // ----- The compressed adjacency, stated on prefixes of the edge list -----

  ghost function Targets(edges: seq<Edge>, highest: HopClass, v: nat): seq<nat> {
    if edges == [] then [] else
      var e := edges[|edges| - 1];
      var rest := Targets(edges[..|edges| - 1], highest, v);
      if e.Usable(highest) && e.from == v then rest + [e.to] else rest
  }

  ghost function UsableCount(edges: seq<Edge>, highest: HopClass): nat {
    if edges == [] then 0 else
      UsableCount(edges[..|edges| - 1], highest) + if edges[|edges| - 1].Usable(highest) then 1 else 0
  }

  /** The usable out-degree of the node before `v`. */
  ghost function DegreeBefore(edges: seq<Edge>, highest: HopClass, v: nat): nat {
    if v == 0 then 0 else |Targets(edges, highest, v - 1)|
  }

  /** Where the out-list of node `v` begins. */
  ghost function Offset(edges: seq<Edge>, highest: HopClass, v: nat): nat {
    if v == 0 then 0 else Offset(edges, highest, v - 1) + |Targets(edges, highest, v - 1)|
  }

  /** Usable edges into `t` whose source is outside `removed`. */
  ghost function PendingIn(edges: seq<Edge>, highest: HopClass, removed: set<nat>, t: nat): nat {
    if edges == [] then 0 else
      var e := edges[|edges| - 1];
      PendingIn(edges[..|edges| - 1], highest, removed, t)
      + if e.Usable(highest) && e.to == t && e.from !in removed then 1 else 0
  }

  lemma PrefixStep(edges: seq<Edge>, highest: HopClass, k: nat)
    requires k < |edges|
    ensures edges[..k + 1] != [] && edges[..k + 1][..k] == edges[..k] && edges[..k + 1][k] == edges[k]
  {
  }

  lemma {:induction false} OffsetAddsUp(edges: seq<Edge>, highest: HopClass, v: nat)
    ensures edges == [] ==> Offset(edges, highest, v) == 0
    ensures edges != [] ==>
              var e := edges[|edges| - 1];
              Offset(edges, highest, v) == Offset(edges[..|edges| - 1], highest, v)
                                           + if e.Usable(highest) && e.from < v then 1 else 0
    decreases v
  {
    if v > 0 {
      OffsetAddsUp(edges, highest, v - 1);
    }
  }

  lemma {:induction false} OffsetIsUsableCount(edges: seq<Edge>, highest: HopClass, n: nat)
    requires EndpointsBelow(edges, n)
    ensures Offset(edges, highest, n) == UsableCount(edges, highest)
    decreases |edges|
  {
    OffsetAddsUp(edges, highest, n);
    if edges != [] {
      OffsetIsUsableCount(edges[..|edges| - 1], highest, n);
    }
  }

  lemma {:induction false} OffsetIsMonotone(edges: seq<Edge>, highest: HopClass, u: nat, v: nat)
    requires u <= v
    ensures Offset(edges, highest, u) <= Offset(edges, highest, v)
    decreases v - u
  {
    if u < v {
      OffsetIsMonotone(edges, highest, u, v - 1);
    }
  }

  lemma {:induction false} TargetsGrow(edges: seq<Edge>, highest: HopClass, v: nat, k: nat)
    requires k <= |edges|
    ensures |Targets(edges[..k], highest, v)| <= |Targets(edges, highest, v)|
    ensures k < |edges| && edges[k].Usable(highest) && edges[k].from == v ==>
              |Targets(edges[..k], highest, v)| < |Targets(edges, highest, v)|
    decreases |edges| - k
  {
    if k < |edges| {
      PrefixStep(edges, highest, k);
      TargetsGrow(edges, highest, v, k + 1);
    } else {
      assert edges[..k] == edges;
    }
  }

  lemma {:induction false} TargetsBelow(edges: seq<Edge>, highest: HopClass, v: nat, n: nat)
    requires EndpointsBelow(edges, n)
    ensures forall j :: 0 <= j < |Targets(edges, highest, v)| ==> Targets(edges, highest, v)[j] < n
    decreases |edges|
  {
    if edges != [] {
      TargetsBelow(edges[..|edges| - 1], highest, v, n);
    }
  }

  /** Removing `v` takes away exactly the edges it has into `t`. */
  lemma {:induction false} RemovalTakesItsEdges(edges: seq<Edge>, highest: HopClass, removed: set<nat>, v: nat, t: nat)
    requires v !in removed
    ensures PendingIn(edges, highest, removed, t)
         == PendingIn(edges, highest, removed + {v}, t) + multiset(Targets(edges, highest, v))[t]
    decreases |edges|
  {
    if edges != [] {
      RemovalTakesItsEdges(edges[..|edges| - 1], highest, removed, v, t);
    }
  }

  lemma {:induction false} NothingPending(edges: seq<Edge>, highest: HopClass, removed: set<nat>, t: nat)
    requires PendingIn(edges, highest, removed, t) == 0
    ensures forall u :: Arc(u, t) in Arcs(edges, highest) ==> u in removed
    decreases |edges|
  {
    if edges != [] {
      var front := edges[..|edges| - 1];
      NothingPending(front, highest, removed, t);
      forall u | Arc(u, t) in Arcs(edges, highest)
        ensures u in removed
      {
        var i :| 0 <= i < |edges| && edges[i].Usable(highest) && Arc(edges[i].from, edges[i].to) == Arc(u, t);
        if i < |front| {
          assert front[i] == edges[i];
          assert Arc(u, t) in Arcs(front, highest);
        }
      }
    }
  }

  lemma {:induction false} SomethingPending(edges: seq<Edge>, highest: HopClass, removed: set<nat>, t: nat)
    returns (u: nat)
    requires PendingIn(edges, highest, removed, t) > 0
    ensures Arc(u, t) in Arcs(edges, highest) && u !in removed
    decreases |edges|
  {
    var last := |edges| - 1;
    if edges[last].Usable(highest) && edges[last].to == t && edges[last].from !in removed {
      u := edges[last].from;
    } else {
      u := SomethingPending(edges[..last], highest, removed, t);
      var i :| 0 <= i < last && edges[..last][i].Usable(highest)
               && Arc(edges[..last][i].from, edges[..last][i].to) == Arc(u, t);
      assert edges[i] == edges[..last][i];
    }
  }

  /** The target that `seen`, a prefix of the edges, lists `j`-th for `v` is in its place. */
  ghost predicate PlacedAt(edges: seq<Edge>, seen: seq<Edge>, highest: HopClass, outList: seq<nat>, v: nat, j: nat) {
    && j < |Targets(seen, highest, v)|
    && Offset(edges, highest, v) + j < |outList|
    && outList[Offset(edges, highest, v) + j] == Targets(seen, highest, v)[j]
  }

  ghost predicate ArePlaced(edges: seq<Edge>, seen: seq<Edge>, highest: HopClass, n: nat, outList: seq<nat>) {
    forall v, j {:trigger PlacedAt(edges, seen, highest, outList, v, j)} ::
      0 <= v < n && 0 <= j < |Targets(seen, highest, v)| ==> PlacedAt(edges, seen, highest, outList, v, j)
  }

  /** The out-list of every node lies at its offset. */
  ghost predicate IsCsr(edges: seq<Edge>, highest: HopClass, n: nat, offsets: seq<nat>, outList: seq<nat>) {
    && AreOffsets(edges, highest, n, offsets)
    && |outList| == offsets[n]
    && ArePlaced(edges, edges, highest, n, outList)
  }

  /** Every arc into a ranked node comes from a node of lower rank. */
  ghost predicate RanksArcs(edges: seq<Edge>, highest: HopClass, rank: map<nat, nat>) {
    forall a :: a in Arcs(edges, highest) && a.to in rank ==> a.from in rank && rank[a.from] < rank[a.to]
  }

  ghost predicate AreOffsets(edges: seq<Edge>, highest: HopClass, n: nat, offsets: seq<nat>) {
    && |offsets| == n + 1
    && forall v {:trigger offsets[v]} :: 0 <= v <= n ==> offsets[v] == Offset(edges, highest, v)
  }

  ghost predicate ArePending(edges: seq<Edge>, highest: HopClass, removed: set<nat>, n: nat, indegree: seq<nat>) {
    && |indegree| == n
    && forall t {:trigger indegree[t]} :: 0 <= t < n ==> indegree[t] == PendingIn(edges, highest, removed, t)
  }

  /** Prefix sums of the usable out-degrees, and their total. */
  method CountOut(edges: seq<Edge>, n: nat, highest: HopClass) returns (offsets: seq<nat>, usable: nat)
    requires EndpointsBelow(edges, n)
    ensures AreOffsets(edges, highest, n, offsets)
    ensures usable == UsableCount(edges, highest) == offsets[n]
  {
    offsets := seq(n + 1, _ => 0);
    usable := 0;
    for k := 0 to |edges|
      invariant |offsets| == n + 1
      invariant usable == UsableCount(edges[..k], highest)
      invariant forall v {:trigger offsets[v]} :: 0 <= v <= n ==> offsets[v] == DegreeBefore(edges[..k], highest, v)
    {
      PrefixStep(edges, highest, k);
      var e := edges[k];
      if e.Usable(highest) {
        offsets := offsets[e.from + 1 := offsets[e.from + 1] + 1];
        usable := usable + 1;
      }
    }
    assert edges[..|edges|] == edges;
    offsets := SumUp(edges, n, highest, offsets);
    OffsetIsUsableCount(edges, highest, n);
  }

  method SumUp(edges: seq<Edge>, n: nat, highest: HopClass, degrees: seq<nat>) returns (offsets: seq<nat>)
    requires |degrees| == n + 1
    requires forall v {:trigger degrees[v]} :: 0 <= v <= n ==> degrees[v] == DegreeBefore(edges, highest, v)
    ensures AreOffsets(edges, highest, n, offsets)
  {
    offsets := degrees;
    for index := 0 to n
      invariant |offsets| == n + 1
      invariant forall v {:trigger offsets[v]} :: 0 <= v <= index ==> offsets[v] == Offset(edges, highest, v)
      invariant forall v {:trigger offsets[v]} :: index < v <= n ==> offsets[v] == DegreeBefore(edges, highest, v)
    {
      offsets := offsets[index + 1 := offsets[index + 1] + offsets[index]];
    }
  }

  /** Places every usable edge in the out-list of its source and counts in-degrees. */
  method FillOutLists(edges: seq<Edge>, n: nat, highest: HopClass, offsets: seq<nat>, usable: nat)
    returns (outList: seq<nat>, cursor: seq<nat>, indegree: seq<nat>)
    requires EndpointsBelow(edges, n)
    requires AreOffsets(edges, highest, n, offsets)
    requires usable == offsets[n]
    ensures IsCsr(edges, highest, n, offsets, outList)
    ensures ArePending(edges, highest, {}, n, indegree)
  {
    outList := seq(usable, _ => 0);
    cursor := offsets;
    indegree := seq(n, _ => 0);
    assert edges[..0] == [];
    for k := 0 to |edges|
      invariant |outList| == usable && |cursor| == n + 1
      invariant ArePending(edges[..k], highest, {}, n, indegree)
      invariant forall v {:trigger cursor[v]} :: 0 <= v < n ==>
                cursor[v] == Offset(edges, highest, v) + |Targets(edges[..k], highest, v)|
      invariant ArePlaced(edges, edges[..k], highest, n, outList)
    {
      PrefixStep(edges, highest, k);
      var e := edges[k];
      if !e.Usable(highest) {
        UnusableStep(edges, n, k, highest, outList);
        continue;
      }
      var slot := cursor[e.from];
      TargetsGrow(edges, highest, e.from, k);
      OffsetIsMonotone(edges, highest, e.from + 1, n);
      assert slot == Offset(edges, highest, e.from) + |Targets(edges[..k], highest, e.from)| < offsets[n];
      ghost var was := outList;
      outList := outList[slot := e.to];
      cursor := cursor[e.from := cursor[e.from] + 1];
      indegree := indegree[e.to := indegree[e.to] + 1];
      PlacementStep(edges, n, k, highest, was, outList, slot);
    }
    assert edges[..|edges|] == edges;
  }

  /** What holds of the drain whenever its queue is looked at. */
  ghost predicate QueueHolds(n: nat, removed: seq<bool>, indegree: seq<nat>, queue: seq<nat>, head: nat) {
    && head <= |queue| && |removed| == |indegree| == n
    && (forall i {:trigger queue[i]} :: 0 <= i < |queue| ==>
        queue[i] < n && (removed[queue[i]] || indegree[queue[i]] == 0))
    && (forall v {:trigger IsWaiting(queue, head, v)} ::
          0 <= v < n && !removed[v] && indegree[v] == 0 ==> IsWaiting(queue, head, v))
  }

  /** The in-degree of a live node counts the edges from outside `gone`, and those still to be given up. */
  ghost predicate CountsRest(edges: seq<Edge>, highest: HopClass, n: nat, removed: seq<bool>, indegree: seq<nat>,
                             gone: set<nat>, rest: seq<nat>)
  {
    && |removed| == |indegree| == n
    && forall v {:trigger indegree[v]} :: 0 <= v < n && !removed[v] ==>
         indegree[v] == PendingIn(edges, highest, gone, v) + multiset(rest)[v]
  }

  ghost predicate IsWaiting(queue: seq<nat>, head: nat, v: nat) {
    exists i :: head <= i < |queue| && queue[i] == v
  }

  /** Queues the nodes that no usable edge enters. */
  method Seed(n: nat, indegree: seq<nat>) returns (removed: seq<bool>, queue: seq<nat>)
    requires |indegree| == n
    ensures QueueHolds(n, removed, indegree, queue, 0)
    ensures removed == seq(n, _ => false)
  {
    removed := seq(n, _ => false);
    queue := [];
    for index := 0 to n
      invariant forall i {:trigger queue[i]} :: 0 <= i < |queue| ==> queue[i] < n && indegree[queue[i]] == 0
      invariant forall v {:trigger IsWaiting(queue, 0, v)} :: 0 <= v < index && indegree[v] == 0 ==>
                IsWaiting(queue, 0, v)
    {
      if indegree[index] == 0 {
        StillWaiting(queue, 0, index);
        queue := queue + [index];
      }
    }
  }

  /** The queue loop. It removes nodes that nothing pends on; `rank` orders them. */
  method Drain(edges: seq<Edge>, n: nat, highest: HopClass, offsets: seq<nat>, outList: seq<nat>, pending: seq<nat>)
    returns (processed: nat, removed: seq<bool>, queue: seq<nat>, ghost rank: map<nat, nat>)
    requires EndpointsBelow(edges, n)
    requires IsCsr(edges, highest, n, offsets, outList)
    requires ArePending(edges, highest, {}, n, pending)
    ensures rank.Keys <= Below(n) && processed == |rank.Keys|
    ensures RanksArcs(edges, highest, rank)
    ensures RestIsPending(edges, highest, n, rank)
  {
    var indegree := pending;
    removed, queue := Seed(n, indegree);
    processed, rank := 0, map[];
    assert rank.Keys == {};
    var head := 0;
    while head < |queue|
      invariant QueueHolds(n, removed, indegree, queue, head)
      invariant DrainHolds(edges, n, highest, removed, indegree, rank, [])
      invariant processed == |rank.Keys|
      decreases n - processed, |queue| - head
    {
      var node := queue[head];
      HeadPasses(n, removed, indegree, queue, head);
      head := head + 1;
      if removed[node] {
        continue;
      }
      RemoveNode(edges, n, highest, removed, indegree, rank, node);
      removed := removed[node := true];
      rank := rank[node := processed];
      processed := processed + 1;
      OutSlice(edges, n, highest, offsets, outList, node);
      indegree, queue :=
        Release(edges, n, highest, outList, offsets[node], offsets[node + 1], removed, indegree, queue, head,
                rank.Keys);
    }
    DrainEnds(edges, n, highest, removed, indegree, queue, head, rank);
  }

  /** The ranked nodes are the removed ones, ranked in the order of their removal. */
  ghost predicate DrainHolds(edges: seq<Edge>, n: nat, highest: HopClass, removed: seq<bool>, indegree: seq<nat>,
                             rank: map<nat, nat>, rest: seq<nat>)
  {
    && CountsRest(edges, highest, n, removed, indegree, rank.Keys, rest)
    && RankHolds(edges, n, highest, removed, rank)
  }

  ghost predicate RankHolds(edges: seq<Edge>, n: nat, highest: HopClass, removed: seq<bool>, rank: map<nat, nat>) {
    && rank.Keys <= Below(n)
    && |removed| == n
    && (forall v {:trigger removed[v]} :: 0 <= v < n ==> (removed[v] <==> v in rank))
    && (forall v :: v in rank ==> rank[v] < |rank.Keys|)
    && RanksArcs(edges, highest, rank)
  }

  lemma RemoveNode(edges: seq<Edge>, n: nat, highest: HopClass, removed: seq<bool>, indegree: seq<nat>,
                   rank: map<nat, nat>, node: nat)
    requires DrainHolds(edges, n, highest, removed, indegree, rank, [])
    requires node < n && !removed[node] && indegree[node] == 0
    ensures var next := rank[node := |rank.Keys|];
            && |next.Keys| == |rank.Keys| + 1 <= n
            && DrainHolds(edges, n, highest, removed[node := true], indegree, next, Targets(edges, highest, node))
  {
    RankNext(edges, n, highest, rank, node, |rank.Keys|);
    var gone := removed[node := true];
    assert gone[node := false] == removed;
    RemovalShiftsCounts(edges, highest, n, gone, indegree, rank.Keys, node);
  }

  lemma DrainEnds(edges: seq<Edge>, n: nat, highest: HopClass, removed: seq<bool>, indegree: seq<nat>,
                  queue: seq<nat>, head: nat, rank: map<nat, nat>)
    requires QueueHolds(n, removed, indegree, queue, head) && head == |queue|
    requires DrainHolds(edges, n, highest, removed, indegree, rank, [])
    ensures RestIsPending(edges, highest, n, rank)
  {
    forall v | 0 <= v < n && v !in rank
      ensures PendingIn(edges, highest, rank.Keys, v) > 0
    {
      assert !removed[v] && indegree[v] == PendingIn(edges, highest, rank.Keys, v);
      assert !IsWaiting(queue, head, v);
    }
  }

  lemma RemovalShiftsCounts(edges: seq<Edge>, highest: HopClass, n: nat, removed: seq<bool>, indegree: seq<nat>,
                            gone: set<nat>, node: nat)
    requires node < n && node !in gone && |removed| == |indegree| == n && removed[node]
    requires CountsRest(edges, highest, n, removed[node := false], indegree, gone, [])
    ensures CountsRest(edges, highest, n, removed, indegree, gone + {node}, Targets(edges, highest, node))
  {
    forall v {:trigger indegree[v]} | 0 <= v < n && !removed[v]
      ensures indegree[v] == PendingIn(edges, highest, gone + {node}, v) + multiset(Targets(edges, highest, node))[v]
    {
      assert !removed[node := false][v];
      RemovalTakesItsEdges(edges, highest, gone, node, v);
    }
  }

  lemma RankNext(edges: seq<Edge>, n: nat, highest: HopClass, rank: map<nat, nat>, node: nat, processed: nat)
    requires RanksArcs(edges, highest, rank)
    requires rank.Keys <= Below(n) && processed == |rank.Keys|
    requires forall v :: v in rank ==> rank[v] < processed
    requires node < n && node !in rank
    requires PendingIn(edges, highest, rank.Keys, node) == 0
    ensures RanksArcs(edges, highest, rank[node := processed])
    ensures rank[node := processed].Keys == rank.Keys + {node} <= Below(n)
    ensures processed + 1 == |rank[node := processed].Keys| <= n
  {
    var next := rank[node := processed];
    assert next.Keys == rank.Keys + {node};
    SubsetIsNoLarger(next.Keys, Below(n));
    forall a | a in Arcs(edges, highest) && a.to in next
      ensures a.from in next && next[a.from] < next[a.to]
    {
      if a.to == node {
        NothingPending(edges, highest, rank.Keys, node);
        assert Arc(a.from, node) in Arcs(edges, highest);
      }
    }
  }

  ghost predicate IsTargetList(outList: seq<nat>, begin: nat, end: nat, n: nat) {
    begin <= end <= |outList| && forall i {:trigger outList[i]} :: begin <= i < end ==> outList[i] < n
  }

  /** The out-list between two offsets is what the node points at. */
  lemma OutSlice(edges: seq<Edge>, n: nat, highest: HopClass, offsets: seq<nat>, outList: seq<nat>, node: nat)
    requires node < n && IsCsr(edges, highest, n, offsets, outList) && EndpointsBelow(edges, n)
    ensures |offsets| == n + 1 && IsTargetList(outList, offsets[node], offsets[node + 1], n)
    ensures outList[offsets[node]..offsets[node + 1]] == Targets(edges, highest, node)
  {
    TargetsBelow(edges, highest, node, n);
    OffsetIsMonotone(edges, highest, node + 1, n);
    var out := Targets(edges, highest, node);
    forall j | 0 <= j < |out|
      ensures outList[offsets[node] + j] == out[j]
    {
      assert PlacedAt(edges, edges, highest, outList, node, j);
    }
    var list := outList[offsets[node]..offsets[node + 1]];
    assert list == out;
    forall i | offsets[node] <= i < offsets[node + 1]
      ensures outList[i] < n
    {
      assert list[i - offsets[node]] == out[i - offsets[node]];
    }
  }

  /** Gives up the out-edges of a node just removed, queueing what becomes free. */
  method Release(ghost edges: seq<Edge>, n: nat, ghost highest: HopClass, outList: seq<nat>, begin: nat, end: nat,
                 removed: seq<bool>, indegreeIn: seq<nat>, queueIn: seq<nat>, ghost head: nat, ghost gone: set<nat>)
    returns (indegree: seq<nat>, queue: seq<nat>)
    requires IsTargetList(outList, begin, end, n)
    requires QueueHolds(n, removed, indegreeIn, queueIn, head)
    requires CountsRest(edges, highest, n, removed, indegreeIn, gone, outList[begin..end])
    ensures QueueHolds(n, removed, indegree, queue, head)
    ensures CountsRest(edges, highest, n, removed, indegree, gone, [])
  {
    indegree, queue := indegreeIn, queueIn;
    for index := begin to end
      invariant QueueHolds(n, removed, indegree, queue, head)
      invariant CountsRest(edges, highest, n, removed, indegree, gone, outList[index..end])
    {
      assert outList[index..end][1..] == outList[index + 1..end];
      indegree, queue :=
        ReleaseEdge(edges, highest, n, removed, indegree, queue, head, outList[index], gone, outList[index..end]);
    }
    assert outList[end..end] == [];
  }

  method ReleaseEdge(ghost edges: seq<Edge>, ghost highest: HopClass, n: nat, removed: seq<bool>, indegreeIn: seq<nat>,
                     queueIn: seq<nat>, ghost head: nat, target: nat, ghost gone: set<nat>, ghost rest: seq<nat>)
    returns (indegree: seq<nat>, queue: seq<nat>)
    requires QueueHolds(n, removed, indegreeIn, queueIn, head)
    requires rest != [] && rest[0] == target < n
    requires CountsRest(edges, highest, n, removed, indegreeIn, gone, rest)
    ensures QueueHolds(n, removed, indegree, queue, head)
    ensures CountsRest(edges, highest, n, removed, indegree, gone, rest[1..])
  {
    indegree, queue := indegreeIn, queueIn;
    GiveUpOne(edges, highest, n, removed, indegree, gone, rest);
    if removed[target] {
      return;
    }
    CountsDownOne(n, removed, indegree, queue, head, target);
    if indegree[target] > 0 {
      indegree := indegree[target := indegree[target] - 1];
      if indegree[target] == 0 {
        queue := queue + [target];
      }
    }
  }

  lemma GiveUpOne(edges: seq<Edge>, highest: HopClass, n: nat, removed: seq<bool>, indegree: seq<nat>, gone: set<nat>,
                  rest: seq<nat>)
    requires rest != [] && rest[0] < n
    requires CountsRest(edges, highest, n, removed, indegree, gone, rest)
    ensures var t := rest[0];
            if removed[t] then CountsRest(edges, highest, n, removed, indegree, gone, rest[1..])
            else indegree[t] > 0
                 && CountsRest(edges, highest, n, removed, indegree[t := indegree[t] - 1], gone, rest[1..])
  {
    assert rest == [rest[0]] + rest[1..];
    assert forall v :: multiset(rest)[v] == multiset(rest[1..])[v] + if v == rest[0] then 1 else 0;
  }

  lemma CountsDownOne(n: nat, removed: seq<bool>, indegree: seq<nat>, queue: seq<nat>, head: nat, target: nat)
    requires QueueHolds(n, removed, indegree, queue, head)
    requires target < n && !removed[target] && indegree[target] > 0
    ensures var fewer := indegree[target := indegree[target] - 1];
            QueueHolds(n, removed, fewer, if fewer[target] == 0 then queue + [target] else queue, head)
  {
    StillWaiting(queue, head, target);
    var fewer := indegree[target := indegree[target] - 1];
    forall v | 0 <= v < n && v != target && !removed[v] && fewer[v] == 0
      ensures IsWaiting(queue, head, v)
    {
    }
  }

  lemma StillWaiting(queue: seq<nat>, head: nat, added: nat)
    requires head <= |queue|
    ensures IsWaiting(queue + [added], head, added)
    ensures forall v {:trigger IsWaiting(queue + [added], head, v)} ::
              IsWaiting(queue, head, v) ==> IsWaiting(queue + [added], head, v)
  {
    var longer := queue + [added];
    assert longer[|queue|] == added;
    forall v | IsWaiting(queue, head, v)
      ensures IsWaiting(longer, head, v)
    {
      var i :| head <= i < |queue| && queue[i] == v;
      assert longer[i] == v;
    }
  }

  lemma HeadPasses(n: nat, removed: seq<bool>, indegree: seq<nat>, queue: seq<nat>, head: nat)
    requires head < |queue| && QueueHolds(n, removed, indegree, queue, head)
    ensures QueueHolds(n, removed[queue[head] := true], indegree, queue, head + 1)
    ensures removed[queue[head]] ==> QueueHolds(n, removed, indegree, queue, head + 1)
  {
    var gone := removed[queue[head] := true];
    forall v | 0 <= v < n && !gone[v] && indegree[v] == 0
      ensures IsWaiting(queue, head + 1, v)
    {
      assert IsWaiting(queue, head, v);
      var i :| head <= i < |queue| && queue[i] == v;
      assert head + 1 <= i;
    }
    assert removed[queue[head]] ==> gone == removed;
  }

  class CycleProbe {
    const nodeCount: nat
    var edges: seq<Edge>
    var indegree: seq<nat>
    // Scratch storage, refilled by every question.
    var outList: seq<nat>
    var cursor: seq<nat>
    var removed: seq<bool>
    var queue: seq<nat>

    ghost predicate Valid()
      reads this
    {
      EndpointsBelow(edges, nodeCount) && ArePending(edges, Conflicted, {}, nodeCount, indegree)
    }

    constructor (nodeCount: nat)
      ensures Valid() && this.nodeCount == nodeCount && edges == []
    {
      this.nodeCount := nodeCount;
      edges := [];
      indegree := seq(nodeCount, _ => 0);
      outList, cursor, removed, queue := [], [], [], [];
    }

    method Clear()
      modifies this
      ensures Valid() && edges == []
    {
      edges := [];
      indegree := seq(nodeCount, _ => 0);
    }

    method AddEdge(from: nat, to: nat, klass: HopClass)
      requires Valid() && from < nodeCount && to < nodeCount
      modifies this
      ensures Valid() && edges == old(edges) + [Edge(from, to, klass)]
    {
      edges := edges + [Edge(from, to, klass)];
      indegree := indegree[to := indegree[to] + 1];
    }

    /** True exactly when the hops of class at most `highest` contain a directed cycle. */
    method HasCycle(highest: HopClass) returns (found: bool)
      requires Valid()
      modifies this`outList, this`cursor, this`removed, this`queue
      ensures Valid()
      ensures found <==> Graph.HasCycle(Arcs(edges, highest))
    {
      var offsets, usable := CountOut(edges, nodeCount, highest);
      if usable == 0 {
        NothingUsable(edges, highest);
        RankedGraphIsAcyclic(Arcs(edges, highest), map[]);
        return false;
      }
      var pending, processed;
      ghost var rank;
      outList, cursor, pending := FillOutLists(edges, nodeCount, highest, offsets, usable);
      processed, removed, queue, rank := Drain(edges, nodeCount, highest, offsets, outList, pending);
      found := processed != nodeCount;
      DrainDecides(edges, nodeCount, highest, rank);
    }
  }

  /** Every node that is not ranked still has a usable edge coming in from one like it. */
  ghost predicate RestIsPending(edges: seq<Edge>, highest: HopClass, n: nat, rank: map<nat, nat>) {
    forall v {:trigger v in rank} :: 0 <= v < n && v !in rank ==> PendingIn(edges, highest, rank.Keys, v) > 0
  }

  /** All nodes drained means no cycle, and a node left over means there is one. */
  lemma DrainDecides(edges: seq<Edge>, n: nat, highest: HopClass, rank: map<nat, nat>)
    requires EndpointsBelow(edges, n)
    requires rank.Keys <= Below(n)
    requires RanksArcs(edges, highest, rank) && RestIsPending(edges, highest, n, rank)
    ensures |rank.Keys| != n <==> Graph.HasCycle(Arcs(edges, highest))
  {
    var left := Below(n) - rank.Keys;
    assert Below(n) == rank.Keys + left;
    assert n == |rank.Keys| + |left|;
    if left == {} {
      assert RanksArcs(edges, highest, rank);
      RankedGraphIsAcyclic(Arcs(edges, highest), rank);
    } else {
      LeftoverHasCycle(edges, n, highest, rank, left);
    }
  }

  lemma LeftoverHasCycle(edges: seq<Edge>, n: nat, highest: HopClass, rank: map<nat, nat>, left: set<nat>)
    requires EndpointsBelow(edges, n) && RestIsPending(edges, highest, n, rank)
    requires left == Below(n) - rank.Keys && left != {}
    ensures Graph.HasCycle(Arcs(edges, highest))
  {
    forall v | v in left
      ensures IsEntered(Arcs(edges, highest), left, v)
    {
      var u := SomethingPending(edges, highest, rank.Keys, v);
      assert u in left;
    }
    EnteredSetHasCycle(Arcs(edges, highest), left);
  }

  lemma UnusableStep(edges: seq<Edge>, n: nat, k: nat, highest: HopClass, outList: seq<nat>)
    requires k < |edges| && !edges[k].Usable(highest)
    requires ArePlaced(edges, edges[..k], highest, n, outList)
    ensures ArePlaced(edges, edges[..k + 1], highest, n, outList)
  {
    PrefixStep(edges, highest, k);
    var seen := edges[..k + 1];
    forall v, j | 0 <= v < n && 0 <= j < |Targets(seen, highest, v)|
      ensures PlacedAt(edges, seen, highest, outList, v, j)
    {
      assert PlacedAt(edges, edges[..k], highest, outList, v, j);
    }
  }

  lemma PlacementStep(edges: seq<Edge>, n: nat, k: nat, highest: HopClass, was: seq<nat>, outList: seq<nat>, slot: nat)
    requires k < |edges| && edges[k].Usable(highest)
    requires slot == Offset(edges, highest, edges[k].from) + |Targets(edges[..k], highest, edges[k].from)| < |was|
    requires outList == was[slot := edges[k].to]
    requires ArePlaced(edges, edges[..k], highest, n, was)
    ensures ArePlaced(edges, edges[..k + 1], highest, n, outList)
  {
    PrefixStep(edges, highest, k);
    var seen := edges[..k + 1];
    forall v, j | 0 <= v < n && 0 <= j < |Targets(seen, highest, v)|
      ensures PlacedAt(edges, seen, highest, outList, v, j)
    {
      if j < |Targets(edges[..k], highest, v)| {
        assert PlacedAt(edges, edges[..k], highest, was, v, j);
        SlotsAreDisjoint(edges, highest, k, v, j, edges[k].from);
      }
    }
  }

  lemma SlotsAreDisjoint(edges: seq<Edge>, highest: HopClass, k: nat, v: nat, j: nat, f: nat)
    requires k < |edges| && j < |Targets(edges[..k], highest, v)|
    requires edges[k].Usable(highest) && edges[k].from == f
    ensures Offset(edges, highest, v) + j
         != Offset(edges, highest, f) + |Targets(edges[..k], highest, f)|
  {
    TargetsGrow(edges, highest, v, k);
    TargetsGrow(edges, highest, f, k);
    if v < f {
      OffsetIsMonotone(edges, highest, v + 1, f);
    } else if f < v {
      OffsetIsMonotone(edges, highest, f + 1, v);
    }
  }

  lemma {:induction false} NothingUsable(edges: seq<Edge>, highest: HopClass)
    requires UsableCount(edges, highest) == 0
    ensures forall i :: 0 <= i < |edges| ==> !edges[i].Usable(highest)
    decreases |edges|
  {
    if edges != [] {
      NothingUsable(edges[..|edges| - 1], highest);
      assert edges == edges[..|edges| - 1] + [edges[|edges| - 1]];
    }
  }
}
