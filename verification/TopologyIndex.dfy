/** The indices of a built definition: edges by identity, and out-edges grouped by source. */
module TopologyIndex {
  import opened Lists
  import opened Topology
  import opened Order
  import opened Sorting
  import opened Canonical

  datatype Indexed = Indexed(t: TopologyDefinition, edgeById: seq<nat>, adjacency: seq<nat>, outEdgeList: seq<nat>)

  // ----- Lookups by halving search -----

  function ResourceIds(rs: seq<ResourceRecord>): (ids: seq<nat>)
    ensures |ids| == |rs|
  {
    seq(|rs|, i requires 0 <= i < |rs| => rs[i].id)
  }

  function ResourcePosition(rs: seq<ResourceRecord>, id: nat): Option<nat> {
    var i := LowerBound(ResourceIds(rs), id);
    if i < |rs| && rs[i].id == id then Some(i) else None
  }

  /** Among built resources the halving search finds exactly what is there. */
  lemma PositionIsIndex(rs: seq<ResourceRecord>, id: nat)
    requires ResourcesIncrease(rs)
    ensures ResourcePosition(rs, id) == ResourceIndex(rs, id)
  {
    var ids := ResourceIds(rs);
    forall i, j | 0 <= i <= j < |ids|
      ensures ids[i] <= ids[j]
    {
      assert i < j ==> IdBefore(rs, i, j);
    }
    SortedIsFound(ids, id);
    var found := ResourceIndex(rs, id);
    if found.Some? {
      assert ids[found.value] == id && id in ids;
      ResourceIndexIsUnique(rs, LowerBound(ids, id));
    } else {
      forall i | 0 <= i < |rs|
        ensures rs[i].id != id
      {
        ResourceIsFound(rs, i);
      }
    }
  }

  function IdsInOrder(es: seq<ForwardingEdge>, order: seq<nat>): (ids: seq<nat>)
    requires forall k :: 0 <= k < |order| ==> order[k] < |es|
    ensures |ids| == |order|
  {
    seq(|order|, k requires 0 <= k < |order| => es[order[k]].id)
  }

  function Positions(n: nat): (all: seq<nat>)
    ensures |all| == n
  {
    seq(n, i requires 0 <= i => i)
  }

  /** Every position once, by the identity of the edge there. */
  ghost predicate IsById(es: seq<ForwardingEdge>, order: seq<nat>) {
    && multiset(order) == multiset(Positions(|es|))
    && (forall k :: 0 <= k < |order| ==> order[k] < |es|)
    && (forall i {:trigger i in order} :: 0 <= i < |es| ==> i in order)
    && Nondecreasing(IdsInOrder(es, order))
  }

  /** The position of an edge, by its identity. */
  function EdgePosition(es: seq<ForwardingEdge>, order: seq<nat>, id: nat): Option<nat>
    requires forall k :: 0 <= k < |order| ==> order[k] < |es|
  {
    var k := LowerBound(IdsInOrder(es, order), id);
    if k < |order| && es[order[k]].id == id then Some(order[k]) else None
  }

  /** An edge is found exactly when there is one, and it is the one when identities are distinct. */
  lemma EdgePositionFinds(es: seq<ForwardingEdge>, order: seq<nat>, id: nat)
    requires IsById(es, order)
    ensures EdgePosition(es, order, id).Some? <==> exists e :: e in es && e.id == id
    ensures EdgePosition(es, order, id).Some? ==>
              EdgePosition(es, order, id).value < |es| && es[EdgePosition(es, order, id).value].id == id
    ensures EdgeIdsDistinct(es) ==> EdgePosition(es, order, id) == EdgeIndex(es, id)
  {
    var ids := IdsInOrder(es, order);
    SortedIsFound(ids, id);
    if e :| e in es && e.id == id {
      var i :| 0 <= i < |es| && es[i] == e;
      assert i in order;
      var k :| 0 <= k < |order| && order[k] == i;
      assert ids[k] == id;
    }
    if EdgeIdsDistinct(es) && EdgePosition(es, order, id).Some? {
      EdgeIndexIsUnique(es, EdgePosition(es, order, id).value);
    }
    if EdgeIndex(es, id).Some? {
      assert es[EdgeIndex(es, id).value] in es;
    }
  }

  method OrderById(es: seq<ForwardingEdge>) returns (order: seq<nat>)
    ensures IsById(es, order)
  {
    var all := Positions(|es|);
    var key: nat -> Key := (i: nat) => if i < |es| then Key(es[i].id, 0, 0) else Key(0, 0, 0);
    order := SortBy(all, key);
    SortByKeeps(all, key);
    SortBySorts(all, key);
    SortedIsById(es, all, order, key);
  }

  lemma SortedIsById(es: seq<ForwardingEdge>, all: seq<nat>, order: seq<nat>, key: nat -> Key)
    requires all == Positions(|es|)
    requires multiset(order) == multiset(all) && IsSortedBy(order, key)
    requires forall i :: 0 <= i < |es| ==> key(i) == Key(es[i].id, 0, 0)
    ensures IsById(es, order)
  {
    forall k | 0 <= k < |order|
      ensures order[k] < |es|
    {
      assert order[k] in multiset(order);
      assert order[k] in all;
    }
    forall i | 0 <= i < |es|
      ensures i in order
    {
      assert all[i] == i && i in multiset(all);
      assert i in multiset(order);
    }
    forall i, j | 0 <= i <= j < |order|
      ensures es[order[i]].id <= es[order[j]].id
    {
      assert i < j ==> InOrder(order, key, i, j);
    }
  }

  // ----- Counting -----

  function CountEq(f: seq<nat>, k: nat): nat {
    if f == [] then 0 else CountEq(f[..|f| - 1], k) + if f[|f| - 1] == k then 1 else 0
  }

  function CountBelow(f: seq<nat>, k: nat): (n: nat)
    ensures n <= |f|
  {
    if f == [] then 0 else CountBelow(f[..|f| - 1], k) + if f[|f| - 1] < k then 1 else 0
  }

  lemma {:induction false} CountsAdd(f: seq<nat>, k: nat)
    ensures CountBelow(f, k + 1) == CountBelow(f, k) + CountEq(f, k)
    decreases |f|
  {
    if f != [] {
      CountsAdd(f[..|f| - 1], k);
    }
  }

  lemma {:induction false} NothingBelowZero(f: seq<nat>)
    ensures CountBelow(f, 0) == 0
    decreases |f|
  {
    if f != [] {
      NothingBelowZero(f[..|f| - 1]);
    }
  }

  lemma {:induction false} AllBelow(f: seq<nat>, k: nat)
    requires forall i :: 0 <= i < |f| ==> f[i] < k
    ensures CountBelow(f, k) == |f|
    decreases |f|
  {
    if f != [] {
      AllBelow(f[..|f| - 1], k);
    }
  }

  /** In a nondecreasing sequence, what is below `k` is what comes first. */
  lemma {:induction false} BelowComesFirst(f: seq<nat>, k: nat, e: nat)
    requires Nondecreasing(f) && e < |f|
    ensures f[e] < k <==> e < CountBelow(f, k)
    decreases |f|
  {
    var n := |f| - 1;
    SlicesAreSorted(f, n);
    if f[n] < k {
      AllBelow(f[..n], k);
    } else if e < n {
      BelowComesFirst(f[..n], k, e);
    }
  }

  lemma {:induction false} PrefixCounts(f: seq<nat>, n: nat, k: nat)
    requires Nondecreasing(f) && n <= |f| && (n < |f| ==> k <= f[n])
    ensures CountBelow(f, k) == CountBelow(f[..n], k)
    decreases |f|
  {
    if n < |f| {
      SlicesAreSorted(f, |f| - 1);
      PrefixCounts(f[..|f| - 1], n, k);
      assert f[..|f| - 1][..n] == f[..n];
      assert k <= f[|f| - 1];
    } else {
      assert f[..n] == f;
    }
  }

  /** The slot the cursor of a source points at, when its edges are met in canonical order, is the edge's own. */
  lemma SlotIsOwn(f: seq<nat>, i: nat)
    requires Nondecreasing(f) && i < |f|
    ensures CountBelow(f, f[i]) + CountEq(f[..i], f[i]) == i
  {
    PrefixCounts(f, i, f[i]);
    CountsAdd(f[..i], f[i]);
    AllBelow(f[..i], f[i] + 1);
  }

  // ----- Adjacency -----

  /** The position of every edge's source among the resources. */
  ghost function Sources(t: TopologyDefinition): (f: seq<nat>)
    ensures |f| == |t.edges|
  {
    seq(|t.edges|, i requires 0 <= i < |t.edges| => SourceOf(t, i))
  }

  function SourceOf(t: TopologyDefinition, i: nat): nat
    requires i < |t.edges|
  {
    var position := ResourcePosition(t.resources, t.edges[i].from);
    if position.Some? then position.value else |t.resources|
  }

  lemma SourceIsThere(t: TopologyDefinition, i: nat)
    requires IsBuilt(t) && i < |t.edges|
    ensures SourceOf(t, i) < |t.resources| && t.resources[SourceOf(t, i)].id == t.edges[i].from
  {
    BuiltIsCanonical(t);
    assert EdgeFits(t.resources, t.selectors, t.edges[i]);
    PositionIsIndex(t.resources, t.edges[i].from);
  }

  lemma SourcesAreSorted(t: TopologyDefinition)
    requires IsBuilt(t)
    ensures Nondecreasing(Sources(t))
    ensures forall i :: 0 <= i < |t.edges| ==> Sources(t)[i] < |t.resources|
  {
    BuiltIsCanonical(t);
    forall i | 0 <= i < |t.edges|
      ensures SourceOf(t, i) < |t.resources| && t.resources[SourceOf(t, i)].id == t.edges[i].from
    {
      SourceIsThere(t, i);
    }
    forall i, j | 0 <= i <= j < |t.edges|
      ensures SourceOf(t, i) <= SourceOf(t, j)
    {
      assert i < j ==> InOrder(t.edges, EdgeKey, i, j);
      assert SourceOf(t, j) < SourceOf(t, i) ==> IdBefore(t.resources, SourceOf(t, j), SourceOf(t, i));
    }
  }

  /** Prefix sums of the out-degrees. */
  ghost predicate IsAdjacency(f: seq<nat>, n: nat, adjacency: seq<nat>) {
    |adjacency| == n + 1 && forall k {:trigger adjacency[k]} :: 0 <= k <= n ==> adjacency[k] == CountBelow(f, k)
  }

  method CountOutEdges(t: TopologyDefinition) returns (adjacency: seq<nat>)
    requires IsBuilt(t)
    ensures |adjacency| == |t.resources| + 1 && adjacency[0] == 0
    ensures forall k {:trigger adjacency[k + 1]} :: 0 <= k < |t.resources| ==>
            adjacency[k + 1] == CountEq(Sources(t), k)
  {
    ghost var f := Sources(t);
    SourcesAreSorted(t);
    adjacency := seq(|t.resources| + 1, _ => 0);
    for i := 0 to |t.edges|
      invariant |adjacency| == |t.resources| + 1 && adjacency[0] == 0
      invariant forall k {:trigger adjacency[k + 1]} :: 0 <= k < |t.resources| ==>
                adjacency[k + 1] == CountEq(f[..i], k)
    {
      assert f[..i + 1][..i] == f[..i];
      var source := SourceOf(t, i);
      assert f[i] == source;
      adjacency := adjacency[source + 1 := adjacency[source + 1] + 1];
    }
    assert f[..|f|] == f;
  }

  method SumOutEdges(counts: seq<nat>, n: nat, ghost f: seq<nat>) returns (adjacency: seq<nat>)
    requires |counts| == n + 1 && counts[0] == 0
    requires forall k {:trigger counts[k + 1]} :: 0 <= k < n ==> counts[k + 1] == CountEq(f, k)
    ensures IsAdjacency(f, n, adjacency)
  {
    adjacency := counts;
    NothingBelowZero(f);
    for index := 0 to n
      invariant |adjacency| == n + 1
      invariant forall k {:trigger adjacency[k]} :: 0 <= k <= index ==> adjacency[k] == CountBelow(f, k)
      invariant forall k {:trigger adjacency[k]} :: index < k <= n ==> adjacency[k] == counts[k]
    {
      CountsAdd(f, index);
      assert counts[index + 1] == CountEq(f, index);
      adjacency := adjacency[index + 1 := adjacency[index + 1] + adjacency[index]];
    }
  }

  /** The list of out-edges grouped by source is the canonical order itself. */
  method FillOutEdges(t: TopologyDefinition, adjacency: seq<nat>) returns (outList: seq<nat>)
    requires IsBuilt(t) && IsAdjacency(Sources(t), |t.resources|, adjacency)
    ensures |outList| == |t.edges| && forall i {:trigger outList[i]} :: 0 <= i < |outList| ==> outList[i] == i
  {
    ghost var f := Sources(t);
    SourcesAreSorted(t);
    outList := seq(|t.edges|, _ => 0);
    var cursor := adjacency;
    for i := 0 to |t.edges|
      invariant |outList| == |t.edges| && |cursor| == |t.resources| + 1
      invariant forall j {:trigger outList[j]} :: 0 <= j < i ==> outList[j] == j
      invariant forall k {:trigger cursor[k]} :: 0 <= k < |t.resources| ==>
                cursor[k] == CountBelow(f, k) + CountEq(f[..i], k)
    {
      assert f[..i + 1][..i] == f[..i];
      var source := SourceOf(t, i);
      assert f[i] == source;
      SlotIsOwn(f, i);
      outList := outList[cursor[source] := i];
      cursor := cursor[source := cursor[source] + 1];
    }
  }

  ghost predicate IsIndexed(ix: Indexed) {
    && IsBuilt(ix.t) && IsById(ix.t.edges, ix.edgeById)
    && IsAdjacency(Sources(ix.t), |ix.t.resources|, ix.adjacency)
    && |ix.outEdgeList| == |ix.t.edges|
    && forall i {:trigger ix.outEdgeList[i]} :: 0 <= i < |ix.outEdgeList| ==> ix.outEdgeList[i] == i
  }

  method BuildIndices(t: TopologyDefinition) returns (ix: Indexed)
    requires IsBuilt(t)
    ensures IsIndexed(ix) && ix.t == t
  {
    var order := OrderById(t.edges);
    var counts := CountOutEdges(t);
    var adjacency := SumOutEdges(counts, |t.resources|, Sources(t));
    var outList := FillOutEdges(t, adjacency);
    ix := Indexed(t, order, adjacency, outList);
  }

  // ----- The indices are determined -----

  lemma {:induction false} PositionsDiffer(n: nat, x: nat)
    ensures multiset(Positions(n))[x] <= 1 && (x >= n ==> x !in Positions(n))
  {
    if n > 0 {
      PositionsDiffer(n - 1, x);
      assert Positions(n) == Positions(n - 1) + [n - 1];
    }
  }

  lemma OrderDiffers(es: seq<ForwardingEdge>, order: seq<nat>, i: nat, j: nat)
    requires IsById(es, order) && i < j < |order|
    ensures order[i] != order[j]
  {
    PositionsDiffer(|es|, order[i]);
    assert order == order[..j] + [order[j]] + order[j + 1..];
    assert order[i] in order[..j];
  }

  lemma StrictById(es: seq<ForwardingEdge>, order: seq<nat>, key: nat -> Key)
    requires IsById(es, order) && EdgeIdsDistinct(es)
    requires forall i :: 0 <= i < |es| ==> key(i) == Key(es[i].id, 0, 0)
    ensures IsStrictBy(order, key)
  {
    forall i, j | 0 <= i < j < |order|
      ensures IsBefore(order, key, i, j)
    {
      OrderDiffers(es, order, i, j);
      var ids := IdsInOrder(es, order);
      assert ids[i] <= ids[j];
    }
  }

  lemma OrderIsUnique(es: seq<ForwardingEdge>, a: seq<nat>, b: seq<nat>)
    requires IsById(es, a) && IsById(es, b) && EdgeIdsDistinct(es)
    ensures a == b
  {
    var key: nat -> Key := (i: nat) => if i < |es| then Key(es[i].id, 0, 0) else Key(0, 0, 0);
    StrictById(es, a, key);
    StrictById(es, b, key);
    forall i, j | 0 <= i < j < |b|
      ensures InOrder(b, key, i, j)
    {
      assert IsBefore(b, key, i, j);
    }
    StrictIsUnique(a, b, key);
  }

  /** With distinct identities a built definition has its indices, and no others: whatever builds them, and from
      whatever copy of the definition, comes to the same. */
  lemma IndicesAreUnique(a: Indexed, b: Indexed)
    requires IsIndexed(a) && IsIndexed(b) && a.t == b.t && EdgeIdsDistinct(a.t.edges)
    ensures a == b
  {
    OrderIsUnique(a.t.edges, a.edgeById, b.edgeById);
    forall k | 0 <= k < |a.adjacency|
      ensures a.adjacency[k] == b.adjacency[k]
    {
    }
    assert a.adjacency == b.adjacency;
    assert a.outEdgeList == b.outEdgeList;
  }

  /** Two places of a list changed for each other. */
  function Swapped(order: seq<nat>, a: nat, b: nat): seq<nat>
    requires a < |order| && b < |order|
  {
    order[a := order[b]][b := order[a]]
  }

  lemma SwappedKeeps(order: seq<nat>, a: nat, b: nat)
    requires a < |order| && b < |order|
    ensures multiset(Swapped(order, a, b)) == multiset(order)
    ensures forall k :: k in Swapped(order, a, b) <==> k in order
  {
    var swapped := Swapped(order, a, b);
    assert multiset(swapped) == multiset(order);
    assert forall k :: k in swapped <==> k in multiset(swapped);
    assert forall k :: k in order <==> k in multiset(order);
  }

  lemma SwappedIsById(es: seq<ForwardingEdge>, order: seq<nat>, a: nat, b: nat)
    requires IsById(es, order) && a < |order| && b < |order| && es[order[a]].id == es[order[b]].id
    ensures IsById(es, Swapped(order, a, b))
  {
    var swapped := Swapped(order, a, b);
    SwappedKeeps(order, a, b);
    assert IdsInOrder(es, swapped) == IdsInOrder(es, order);
  }

  /** Two edges that share an identity leave a choice: the lookup then depends on how the sort broke the tie. */
  lemma SharedIdLeavesAChoice(ix: Indexed, i: nat, j: nat) returns (other: Indexed)
    requires IsIndexed(ix) && i < j < |ix.t.edges| && ix.t.edges[i].id == ix.t.edges[j].id
    ensures IsIndexed(other) && other.t == ix.t && other != ix
  {
    var order := ix.edgeById;
    assert i in order && j in order;
    var a :| 0 <= a < |order| && order[a] == i;
    var b :| 0 <= b < |order| && order[b] == j;
    SwappedIsById(ix.t.edges, order, a, b);
    other := ix.(edgeById := Swapped(order, a, b));
    assert other.edgeById[b] != order[b];
  }

  /** The out-edges of a resource, as positions. */
  function OutEdges(ix: Indexed, from: nat): seq<nat> {
    var position := ResourcePosition(ix.t.resources, from);
    if position.None? || position.value + 1 >= |ix.adjacency| then [] else
      var begin, end := ix.adjacency[position.value], ix.adjacency[position.value + 1];
      if end < begin || end > |ix.outEdgeList| then [] else ix.outEdgeList[begin..end]
  }

  /** An edge leaves a resource exactly when its source is the resource's position. */
  lemma SourceDecides(t: TopologyDefinition, from: nat, e: nat)
    requires IsBuilt(t) && e < |t.edges|
    ensures t.edges[e].from == from <==> ResourcePosition(t.resources, from) == Some(Sources(t)[e])
  {
    BuiltIsCanonical(t);
    SourceIsThere(t, e);
    PositionIsIndex(t.resources, from);
    if t.edges[e].from == from {
      ResourceIndexIsUnique(t.resources, SourceOf(t, e));
    }
  }

  /** Between two prefix sums lie the edges of one source. */
  lemma SliceIsExact(f: seq<nat>, k: nat, outList: seq<nat>, e: nat)
    requires Nondecreasing(f) && |outList| == |f|
    requires forall i {:trigger outList[i]} :: 0 <= i < |outList| ==> outList[i] == i
    ensures CountBelow(f, k) <= CountBelow(f, k + 1)
    ensures e in outList[CountBelow(f, k)..CountBelow(f, k + 1)] <==> e < |f| && f[e] == k
  {
    CountsAdd(f, k);
    var begin, end := CountBelow(f, k), CountBelow(f, k + 1);
    var out := outList[begin..end];
    assert forall i :: 0 <= i < |out| ==> out[i] == begin + i;
    if e < |f| {
      BelowComesFirst(f, k, e);
      BelowComesFirst(f, k + 1, e);
      if begin <= e < end {
        assert out[e - begin] == e;
      }
    }
  }

  /** The out-edges of a resource are exactly the edges that leave it, in canonical order. */
  lemma OutEdgesAreExact(ix: Indexed, from: nat)
    requires IsIndexed(ix)
    ensures StrictlyIncreasing(OutEdges(ix, from))
    ensures forall e: nat :: e in OutEdges(ix, from) <==> e < |ix.t.edges| && ix.t.edges[e].from == from
  {
    var f := Sources(ix.t);
    SourcesAreSorted(ix.t);
    forall e: nat
      ensures e in OutEdges(ix, from) <==> e < |ix.t.edges| && ix.t.edges[e].from == from
    {
      EdgeIsListed(ix, from, e);
    }
    var out := OutEdges(ix, from);
    var position := ResourcePosition(ix.t.resources, from);
    if position.Some? {
      var begin := ix.adjacency[position.value];
      forall i, j | 0 <= i < j < |out|
        ensures out[i] < out[j]
      {
        assert out[i] == ix.outEdgeList[begin + i] && out[j] == ix.outEdgeList[begin + j];
      }
    }
  }

  lemma EdgeIsListed(ix: Indexed, from: nat, e: nat)
    requires IsIndexed(ix)
    ensures e in OutEdges(ix, from) <==> e < |ix.t.edges| && ix.t.edges[e].from == from
  {
    var f := Sources(ix.t);
    SourcesAreSorted(ix.t);
    if e < |ix.t.edges| {
      SourceDecides(ix.t, from, e);
    }
    var position := ResourcePosition(ix.t.resources, from);
    if position.Some? {
      SliceIsExact(f, position.value, ix.outEdgeList, e);
      assert ix.adjacency[position.value] == CountBelow(f, position.value);
      assert ix.adjacency[position.value + 1] == CountBelow(f, position.value + 1);
    }
  }
}
