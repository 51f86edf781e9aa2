/** Topology definitions: records, canonical order, and lookups. */
module Topology {
  import opened Lists

  datatype Option<+T> = None | Some(value: T)

  datatype AdministrativeState = Enabled | Disabled | AdminUnknown
  datatype LinkState = Up | Down | LinkUnknown

  datatype ResourceRecord = ResourceRecord(
    id: nat, domain: nat, kind: nat, admin: AdministrativeState, containable: bool, containmentCost: nat)

  datatype ForwardingEdge = ForwardingEdge(
    id: nat, from: nat, to: nat, domain: nat, link: LinkState, admittedSelectors: seq<nat>)

  datatype TopologyDefinition = TopologyDefinition(
    generation: nat, resources: seq<ResourceRecord>, edges: seq<ForwardingEdge>, selectors: seq<nat>)

  predicate IdBefore(resources: seq<ResourceRecord>, i: nat, j: nat)
    requires i < |resources| && j < |resources|
  {
    resources[i].id < resources[j].id
  }

  predicate ResourcesIncrease(resources: seq<ResourceRecord>) {
    forall i, j {:trigger IdBefore(resources, i, j)} :: 0 <= i < j < |resources| ==> IdBefore(resources, i, j)
  }

  /** Both endpoints are resources of the edge's own domain. */
  predicate EndpointsFit(resources: seq<ResourceRecord>, edge: ForwardingEdge) {
    var from, to := FindResource(resources, edge.from), FindResource(resources, edge.to);
    from.Some? && to.Some? && from.value.domain == edge.domain == to.value.domain
  }

  /** An edge of a canonical definition joins two of its resources within one domain. */
  predicate EdgeFits(resources: seq<ResourceRecord>, selectors: seq<nat>, edge: ForwardingEdge) {
    && EndpointsFit(resources, edge)
    && StrictlyIncreasing(edge.admittedSelectors)
    && forall s :: s in edge.admittedSelectors ==> s in selectors
  }

  /** What the canonical path promises of every definition it lets through. */
  predicate IsCanonical(t: TopologyDefinition) {
    && ResourcesIncrease(t.resources)
    && StrictlyIncreasing(t.selectors)
    && forall i {:trigger EdgeFits(t.resources, t.selectors, t.edges[i])} ::
         0 <= i < |t.edges| ==> EdgeFits(t.resources, t.selectors, t.edges[i])
  }

  /** Edge identities are compared only between neighbours of the canonical order, so this is not implied by it. */
  predicate EdgeIdsDistinct(edges: seq<ForwardingEdge>) {
    forall i, j :: 0 <= i < j < |edges| ==> edges[i].id != edges[j].id
  }

  function ResourceIndex(resources: seq<ResourceRecord>, id: nat): (r: Option<nat>)
    ensures r.Some? ==> r.value < |resources| && resources[r.value].id == id
  {
    if resources == [] then None
    else if resources[|resources| - 1].id == id then Some(|resources| - 1)
    else ResourceIndex(resources[..|resources| - 1], id)
  }

  function FindResource(resources: seq<ResourceRecord>, id: nat): (r: Option<ResourceRecord>)
    ensures r.Some? ==> r.value in resources && r.value.id == id
  {
    var index := ResourceIndex(resources, id);
    if index.Some? then Some(resources[index.value]) else None
  }

  function EdgeIndex(edges: seq<ForwardingEdge>, id: nat): (r: Option<nat>)
    ensures r.Some? ==> r.value < |edges| && edges[r.value].id == id
  {
    if edges == [] then None
    else if edges[|edges| - 1].id == id then Some(|edges| - 1)
    else EdgeIndex(edges[..|edges| - 1], id)
  }

  lemma {:induction false} ResourceIsFound(resources: seq<ResourceRecord>, i: nat)
    requires i < |resources|
    ensures ResourceIndex(resources, resources[i].id).Some?
    decreases |resources|
  {
    if i < |resources| - 1 {
      ResourceIsFound(resources[..|resources| - 1], i);
    }
  }

  lemma ResourceIndexIsUnique(resources: seq<ResourceRecord>, i: nat)
    requires ResourcesIncrease(resources) && i < |resources|
    ensures ResourceIndex(resources, resources[i].id) == Some(i)
    ensures FindResource(resources, resources[i].id) == Some(resources[i])
  {
    ResourceIsFound(resources, i);
    var r := ResourceIndex(resources, resources[i].id).value;
    assert r < i ==> IdBefore(resources, r, i);
    assert i < r ==> IdBefore(resources, i, r);
  }

  lemma {:induction false} EdgeIsFound(edges: seq<ForwardingEdge>, i: nat)
    requires i < |edges|
    ensures EdgeIndex(edges, edges[i].id).Some?
    decreases |edges|
  {
    if i < |edges| - 1 {
      EdgeIsFound(edges[..|edges| - 1], i);
    }
  }

  lemma EdgeIndexIsUnique(edges: seq<ForwardingEdge>, i: nat)
    requires EdgeIdsDistinct(edges) && i < |edges|
    ensures EdgeIndex(edges, edges[i].id) == Some(i)
  {
    EdgeIsFound(edges, i);
  }
}
