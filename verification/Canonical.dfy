/** The canonical path of a topology definition: sorting, validation, and its indices. */
module Canonical {
  import opened Lists
  import opened Topology
  import opened Sorting

  datatype BuildLimits = BuildLimits(maxResources: nat, maxEdges: nat, maxSelectors: nat)

  datatype Fault = NotValid | TooMany | Duplicate | Undeclared

  function ResourceKey(r: ResourceRecord): Key {
    Key(r.id, 0, 0)
  }

  /** Canonical order: source, target, identity. */
  function EdgeKey(e: ForwardingEdge): Key {
    Key(e.from, e.to, e.id)
  }

  // ----- What is wrong with a sorted record -----

  function ResourceFault(rs: seq<ResourceRecord>, i: nat): Option<Fault>
    requires i < |rs|
  {
    if rs[i].id == 0 || rs[i].domain == 0 then Some(NotValid)
    else if rs[i].containable && rs[i].containmentCost == 0 then Some(NotValid)
    else if i > 0 && rs[i - 1].id == rs[i].id then Some(Duplicate)
    else None
  }

  function SelectorFault(ss: seq<nat>, i: nat): Option<Fault>
    requires i < |ss|
  {
    if ss[i] == 0 then Some(NotValid) else if i > 0 && ss[i - 1] == ss[i] then Some(Duplicate) else None
  }

  /** Only the neighbour before is asked for the same identity. */
  function EdgeFault(rs: seq<ResourceRecord>, ss: seq<nat>, es: seq<ForwardingEdge>, i: nat): Option<Fault>
    requires i < |es|
  {
    var e := es[i];
    var from, to := FindResource(rs, e.from), FindResource(rs, e.to);
    if e.id == 0 || e.from == 0 || e.to == 0 || e.domain == 0 then Some(NotValid)
    else if i > 0 && es[i - 1].id == e.id then Some(Duplicate)
    else if !StrictlyIncreasing(e.admittedSelectors) then Some(NotValid)
    else if from.None? || to.None? then Some(NotValid)
    else if from.value.domain != e.domain || to.value.domain != e.domain then Some(NotValid)
    else if exists s :: s in e.admittedSelectors && s !in ss then Some(Undeclared)
    else None
  }

  predicate ResourcesFit(rs: seq<ResourceRecord>) {
    forall i {:trigger ResourceFault(rs, i)} :: 0 <= i < |rs| ==> ResourceFault(rs, i) == None
  }

  predicate SelectorsFit(ss: seq<nat>) {
    forall i {:trigger SelectorFault(ss, i)} :: 0 <= i < |ss| ==> SelectorFault(ss, i) == None
  }

  predicate EdgesFit(rs: seq<ResourceRecord>, ss: seq<nat>, es: seq<ForwardingEdge>) {
    forall i {:trigger EdgeFault(rs, ss, es, i)} :: 0 <= i < |es| ==> EdgeFault(rs, ss, es, i) == None
  }

  predicate InCanonicalOrder(t: TopologyDefinition) {
    IsSortedBy(t.resources, ResourceKey) && IsSortedBy(t.selectors, IdKey) && IsSortedBy(t.edges, EdgeKey)
  }

  /** What the canonical path lets through: sorted, and without a fault. */
  predicate IsBuilt(t: TopologyDefinition) {
    && t.generation != 0 && InCanonicalOrder(t)
    && ResourcesFit(t.resources) && SelectorsFit(t.selectors) && EdgesFit(t.resources, t.selectors, t.edges)
  }

  predicate WithinLimits(t: TopologyDefinition, limits: BuildLimits) {
    |t.resources| <= limits.maxResources && |t.edges| <= limits.maxEdges && |t.selectors| <= limits.maxSelectors
  }

  function Sorted(d: TopologyDefinition): TopologyDefinition {
    TopologyDefinition(d.generation, SortBy(d.resources, ResourceKey), SortBy(d.edges, EdgeKey),
                       SortBy(d.selectors, IdKey))
  }

  // ----- What being built implies -----

  lemma BuiltResourcesAreStrict(rs: seq<ResourceRecord>)
    requires IsSortedBy(rs, ResourceKey) && ResourcesFit(rs)
    ensures IsStrictBy(rs, ResourceKey) && ResourcesIncrease(rs)
  {
    forall i | 0 < i < |rs|
      ensures DiffersFromLast(rs, ResourceKey, i)
    {
      assert ResourceFault(rs, i) == None;
    }
    NeighboursDecide(rs, ResourceKey);
    forall i, j | 0 <= i < j < |rs|
      ensures IdBefore(rs, i, j)
    {
      assert IsBefore(rs, ResourceKey, i, j);
    }
  }

  lemma BuiltSelectorsAreStrict(ss: seq<nat>)
    requires IsSortedBy(ss, IdKey) && SelectorsFit(ss)
    ensures IsStrictBy(ss, IdKey) && StrictlyIncreasing(ss)
  {
    forall i | 0 < i < |ss|
      ensures DiffersFromLast(ss, IdKey, i)
    {
      assert SelectorFault(ss, i) == None;
    }
    NeighboursDecide(ss, IdKey);
    forall i, j | 0 <= i < j < |ss|
      ensures ss[i] < ss[j]
    {
      assert IsBefore(ss, IdKey, i, j);
    }
  }

  lemma BuiltEdgesAreStrict(rs: seq<ResourceRecord>, ss: seq<nat>, es: seq<ForwardingEdge>)
    requires IsSortedBy(es, EdgeKey) && EdgesFit(rs, ss, es)
    ensures IsStrictBy(es, EdgeKey)
  {
    forall i | 0 < i < |es|
      ensures DiffersFromLast(es, EdgeKey, i)
    {
      assert EdgeFault(rs, ss, es, i) == None;
    }
    NeighboursDecide(es, EdgeKey);
  }

  /** Every definition that is let through is canonical in the sense the rest relies on. */
  lemma BuiltIsCanonical(t: TopologyDefinition)
    requires IsBuilt(t)
    ensures IsCanonical(t)
  {
    BuiltResourcesAreStrict(t.resources);
    BuiltSelectorsAreStrict(t.selectors);
    forall i | 0 <= i < |t.edges|
      ensures EdgeFits(t.resources, t.selectors, t.edges[i])
    {
      assert EdgeFault(t.resources, t.selectors, t.edges, i) == None;
    }
  }

  // ----- What is let through, rule by rule -----

  /** A record that names itself and its domain, and costs something where it can be contained. */
  predicate IsResource(r: ResourceRecord) {
    r.id != 0 && r.domain != 0 && (r.containable ==> r.containmentCost > 0)
  }

  /** An edge that names itself and its ends, between resources of its own domain, for declared selectors in order. */
  ghost predicate IsEdgeBetween(rs: seq<ResourceRecord>, ss: seq<nat>, e: ForwardingEdge) {
    && e.id != 0 && e.from != 0 && e.to != 0 && e.domain != 0
    && (exists a :: a in rs && a.id == e.from && a.domain == e.domain)
    && (exists b :: b in rs && b.id == e.to && b.domain == e.domain)
    && StrictlyIncreasing(e.admittedSelectors) && forall s :: s in e.admittedSelectors ==> s in ss
  }

  /** By source, of one source by target, and of one target by identity. */
  predicate EdgesAscend(es: seq<ForwardingEdge>) {
    forall i, j :: 0 <= i < j < |es| ==>
      || es[i].from < es[j].from
      || (es[i].from == es[j].from && es[i].to < es[j].to)
      || (es[i].from == es[j].from && es[i].to == es[j].to && es[i].id <= es[j].id)
  }

  /** What the canonical path lets through, said of the records: a generation, resources and selectors in strict order,
      edges in order of which no two neighbours share an identity, and every one of them as it should be. */
  lemma BuiltDecides(t: TopologyDefinition)
    ensures IsBuilt(t) <==>
            && t.generation != 0
            && ResourcesIncrease(t.resources) && (forall r :: r in t.resources ==> IsResource(r))
            && StrictlyIncreasing(t.selectors) && 0 !in t.selectors
            && EdgesAscend(t.edges) && NeighboursDiffer(t.edges)
            && forall e :: e in t.edges ==> IsEdgeBetween(t.resources, t.selectors, e)
  {
    ResourcesDecide(t.resources);
    SelectorsDecide(t.selectors);
    if ResourcesIncrease(t.resources) {
      EdgesDecide(t.resources, t.selectors, t.edges);
    }
  }

  lemma ResourcesDecide(rs: seq<ResourceRecord>)
    ensures IsSortedBy(rs, ResourceKey) && ResourcesFit(rs) <==>
            ResourcesIncrease(rs) && forall r :: r in rs ==> IsResource(r)
  {
    if IsSortedBy(rs, ResourceKey) && ResourcesFit(rs) {
      BuiltResourcesAreStrict(rs);
      forall r | r in rs
        ensures IsResource(r)
      {
        var i :| 0 <= i < |rs| && rs[i] == r;
        assert ResourceFault(rs, i) == None;
      }
    }
    if ResourcesIncrease(rs) && forall r :: r in rs ==> IsResource(r) {
      forall i, j | 0 <= i < j < |rs|
        ensures InOrder(rs, ResourceKey, i, j)
      {
        assert IdBefore(rs, i, j);
      }
      forall i | 0 <= i < |rs|
        ensures ResourceFault(rs, i) == None
      {
        assert rs[i] in rs;
        assert i > 0 ==> IdBefore(rs, i - 1, i);
      }
    }
  }

  lemma SelectorsDecide(ss: seq<nat>)
    ensures IsSortedBy(ss, IdKey) && SelectorsFit(ss) <==> StrictlyIncreasing(ss) && 0 !in ss
  {
    if IsSortedBy(ss, IdKey) && SelectorsFit(ss) {
      BuiltSelectorsAreStrict(ss);
      forall i | 0 <= i < |ss|
        ensures ss[i] != 0
      {
        assert SelectorFault(ss, i) == None;
      }
    }
    if StrictlyIncreasing(ss) && 0 !in ss {
      forall i, j | 0 <= i < j < |ss|
        ensures InOrder(ss, IdKey, i, j)
      {
      }
      forall i | 0 <= i < |ss|
        ensures SelectorFault(ss, i) == None
      {
        assert ss[i] in ss;
      }
    }
  }

  lemma EdgeDecides(rs: seq<ResourceRecord>, ss: seq<nat>, es: seq<ForwardingEdge>, i: nat)
    requires ResourcesIncrease(rs) && i < |es|
    ensures EdgeFault(rs, ss, es, i) == None <==>
            IsEdgeBetween(rs, ss, es[i]) && (i > 0 ==> es[i - 1].id != es[i].id)
  {
    forall a | a in rs
      ensures FindResource(rs, a.id) == Some(a)
    {
      var k :| 0 <= k < |rs| && rs[k] == a;
      ResourceIndexIsUnique(rs, k);
    }
  }

  lemma EdgesDecide(rs: seq<ResourceRecord>, ss: seq<nat>, es: seq<ForwardingEdge>)
    requires ResourcesIncrease(rs)
    ensures IsSortedBy(es, EdgeKey) && EdgesFit(rs, ss, es) <==>
            EdgesAscend(es) && NeighboursDiffer(es) && forall e :: e in es ==> IsEdgeBetween(rs, ss, e)
  {
    AscendingIsSorted(es);
    if EdgesFit(rs, ss, es) {
      FittingEdgesLie(rs, ss, es);
    }
    if NeighboursDiffer(es) && forall e :: e in es ==> IsEdgeBetween(rs, ss, e) {
      forall i | 0 <= i < |es|
        ensures EdgeFault(rs, ss, es, i) == None
      {
        assert es[i] in es;
        EdgeDecides(rs, ss, es, i);
      }
    }
  }

  lemma FittingEdgesLie(rs: seq<ResourceRecord>, ss: seq<nat>, es: seq<ForwardingEdge>)
    requires ResourcesIncrease(rs) && EdgesFit(rs, ss, es)
    ensures NeighboursDiffer(es) && forall e :: e in es ==> IsEdgeBetween(rs, ss, e)
  {
    forall i | 0 <= i < |es|
      ensures IsEdgeBetween(rs, ss, es[i]) && (i > 0 ==> es[i - 1].id != es[i].id)
    {
      assert EdgeFault(rs, ss, es, i) == None;
      EdgeDecides(rs, ss, es, i);
    }
  }

  lemma AscendingIsSorted(es: seq<ForwardingEdge>)
    ensures IsSortedBy(es, EdgeKey) <==> EdgesAscend(es)
  {
    forall i, j | 0 <= i < j < |es|
      ensures InOrder(es, EdgeKey, i, j) <==>
              || es[i].from < es[j].from
              || (es[i].from == es[j].from && es[i].to < es[j].to)
              || (es[i].from == es[j].from && es[i].to == es[j].to && es[i].id <= es[j].id)
    {
    }
  }

  // ----- Repeated identities -----

  /** No edge has a fault of its own: whatever else is wrong is wrong between edges. */
  predicate EdgesFitAlone(rs: seq<ResourceRecord>, ss: seq<nat>, es: seq<ForwardingEdge>) {
    forall i {:trigger es[i]} :: 0 <= i < |es| ==> EdgeFault(rs, ss, [es[i]], 0) == None
  }

  predicate NeighboursDiffer(es: seq<ForwardingEdge>) {
    forall i :: 0 < i < |es| ==> es[i - 1].id != es[i].id
  }

  /** Sorted, and without a fault but, perhaps, repeated edge identities. */
  predicate FaultlessButForIds(t: TopologyDefinition) {
    && t.generation != 0 && InCanonicalOrder(t) && ResourcesFit(t.resources) && SelectorsFit(t.selectors)
    && EdgesFitAlone(t.resources, t.selectors, t.edges)
  }

  /** An otherwise faultless definition is let through exactly when no two neighbours of the canonical order share an
      identity. */
  lemma OnlyNeighboursAreCompared(t: TopologyDefinition)
    requires FaultlessButForIds(t)
    ensures IsBuilt(t) <==> NeighboursDiffer(t.edges)
  {
    forall i | 0 <= i < |t.edges|
      ensures EdgeFault(t.resources, t.selectors, t.edges, i) == None
              <==> (i > 0 ==> t.edges[i - 1].id != t.edges[i].id)
    {
      assert EdgeFault(t.resources, t.selectors, [t.edges[i]], 0) == None;
    }
    if IsBuilt(t) {
      forall i | 0 < i < |t.edges|
        ensures t.edges[i - 1].id != t.edges[i].id
      {
        assert EdgeFault(t.resources, t.selectors, t.edges, i) == None;
      }
    }
  }

  /** Two edges that share an identity are let through exactly between other edges: with something between them in the
      canonical order, and so with different endpoints. */
  lemma RepeatedIdsAreApart(t: TopologyDefinition, i: nat, j: nat)
    requires IsBuilt(t) && i < j < |t.edges| && t.edges[i].id == t.edges[j].id
    ensures j > i + 1
    ensures KeyLess(Key(t.edges[i].from, t.edges[i].to, 0), Key(t.edges[j].from, t.edges[j].to, 0))
  {
    assert EdgeFault(t.resources, t.selectors, t.edges, i + 1) == None;
    BuiltEdgesAreStrict(t.resources, t.selectors, t.edges);
    assert IsBefore(t.edges, EdgeKey, i, j);
  }

  /** Three edges between two resources, of which the first and the last share an identity, are such a definition. */
  lemma RepeatedEdgeIdSlipsThrough() returns (t: TopologyDefinition)
    ensures IsBuilt(t) && !EdgeIdsDistinct(t.edges)
  {
    var r1, r2 := ResourceRecord(1, 1, 0, Enabled, false, 0), ResourceRecord(2, 1, 0, Enabled, false, 0);
    var e1, e2, e3 :=
      ForwardingEdge(7, 1, 1, 1, Up, []), ForwardingEdge(8, 1, 2, 1, Up, []), ForwardingEdge(7, 2, 1, 1, Up, []);
    t := TopologyDefinition(1, [r1, r2], [e1, e2, e3], []);
    ResourceIndexIsUnique(t.resources, 0);
    ResourceIndexIsUnique(t.resources, 1);
    assert t.edges[0].id == t.edges[2].id;
  }

  // ----- The canonical path -----

  datatype Built = Built(t: TopologyDefinition) | Refused(why: Fault)

  method CheckResources(rs: seq<ResourceRecord>) returns (fault: Option<Fault>)
    ensures fault == None <==> ResourcesFit(rs)
    ensures fault.Some? ==> exists i :: 0 <= i < |rs| && ResourceFault(rs, i) == fault && forall j :: 0 <= j < i ==>
            ResourceFault(rs, j) == None
  {
    for i := 0 to |rs|
      invariant forall j {:trigger ResourceFault(rs, j)} :: 0 <= j < i ==> ResourceFault(rs, j) == None
    {
      fault := ResourceFault(rs, i);
      if fault.Some? {
        return;
      }
    }
    return None;
  }

  method CheckSelectors(ss: seq<nat>) returns (fault: Option<Fault>)
    ensures fault == None <==> SelectorsFit(ss)
    ensures fault.Some? ==> exists i :: 0 <= i < |ss| && SelectorFault(ss, i) == fault && forall j :: 0 <= j < i ==>
            SelectorFault(ss, j) == None
  {
    for i := 0 to |ss|
      invariant forall j {:trigger SelectorFault(ss, j)} :: 0 <= j < i ==> SelectorFault(ss, j) == None
    {
      fault := SelectorFault(ss, i);
      if fault.Some? {
        return;
      }
    }
    return None;
  }

  method CheckEdges(rs: seq<ResourceRecord>, ss: seq<nat>, es: seq<ForwardingEdge>) returns (fault: Option<Fault>)
    ensures fault == None <==> EdgesFit(rs, ss, es)
    ensures fault.Some? ==>
              exists i :: 0 <= i < |es| && EdgeFault(rs, ss, es, i) == fault && forall j :: 0 <= j < i ==>
                EdgeFault(rs, ss, es, j) == None
  {
    for i := 0 to |es|
      invariant forall j {:trigger EdgeFault(rs, ss, es, j)} :: 0 <= j < i ==> EdgeFault(rs, ss, es, j) == None
    {
      fault := EdgeFault(rs, ss, es, i);
      if fault.Some? {
        return;
      }
    }
    return None;
  }

  /** Lets through exactly the definitions that, once sorted, have no fault; sorted is how they come out. */
  method Canonicalize(d: TopologyDefinition, limits: BuildLimits) returns (r: Built)
    ensures r.Built? <==> WithinLimits(d, limits) && IsBuilt(Sorted(d))
    ensures r.Built? ==> r.t == Sorted(d)
    ensures r == Refused(TooMany) <==> d.generation != 0 && !WithinLimits(d, limits)
  {
    if d.generation == 0 {
      return Refused(NotValid);
    }
    if !WithinLimits(d, limits) {
      return Refused(TooMany);
    }
    var t := Sorted(d);
    SortBySorts(d.resources, ResourceKey);
    SortBySorts(d.selectors, IdKey);
    SortBySorts(d.edges, EdgeKey);
    var fault := CheckResources(t.resources);
    if fault == None {
      fault := CheckSelectors(t.selectors);
    }
    if fault == None {
      fault := CheckEdges(t.resources, t.selectors, t.edges);
    }
    r := if fault.Some? then Refused(fault.value) else Built(t);
  }

  ghost predicate SameContents(a: TopologyDefinition, b: TopologyDefinition) {
    && a.generation == b.generation && multiset(a.resources) == multiset(b.resources)
    && multiset(a.selectors) == multiset(b.selectors) && multiset(a.edges) == multiset(b.edges)
  }

  /** Insertion order does not matter: the same contents are let through, as the same definition. */
  lemma ContentsDecide(a: TopologyDefinition, b: TopologyDefinition)
    requires SameContents(a, b) && IsBuilt(Sorted(a))
    ensures Sorted(a) == Sorted(b)
  {
    SortByKeeps(a.resources, ResourceKey);
    SortByKeeps(b.resources, ResourceKey);
    SortByKeeps(a.selectors, IdKey);
    SortByKeeps(b.selectors, IdKey);
    SortByKeeps(a.edges, EdgeKey);
    SortByKeeps(b.edges, EdgeKey);
    SortBySorts(b.resources, ResourceKey);
    SortBySorts(b.selectors, IdKey);
    SortBySorts(b.edges, EdgeKey);
    BuiltResourcesAreStrict(Sorted(a).resources);
    StrictIsUnique(Sorted(a).resources, Sorted(b).resources, ResourceKey);
    BuiltSelectorsAreStrict(Sorted(a).selectors);
    StrictIsUnique(Sorted(a).selectors, Sorted(b).selectors, IdKey);
    BuiltEdgesAreStrict(Sorted(a).resources, Sorted(a).selectors, Sorted(a).edges);
    StrictIsUnique(Sorted(a).edges, Sorted(b).edges, EdgeKey);
  }

  /** A definition that was let through once comes out unchanged when it goes through again. */
  lemma BuiltStays(t: TopologyDefinition)
    requires IsBuilt(t)
    ensures Sorted(t) == t
  {
    SortedStays(t.resources, ResourceKey);
    SortedStays(t.selectors, IdKey);
    SortedStays(t.edges, EdgeKey);
  }
}
