/** Applying a plan to a shadow of the definition, and what can still loop there. */
module Shadow {
  import opened Lists
  import opened Topology
  import opened Order
  import Sorting
  import opened Canonical
  import opened Planner

  datatype Shadowed = Shadow(t: TopologyDefinition) | NoSelectors | UnknownHop | NotRebuilt(why: Fault)

  /** The target lists the selector and the edge. */
  ghost predicate ListedBy(es: seq<ForwardingEdge>, target: ContainmentTarget, n: nat, e: nat, s: nat) {
    s in target.selectors && exists j ::
      0 <= j < n <= |target.affectedHops| && EdgeIndex(es, target.affectedHops[j]) == Some(e)
  }

  ghost predicate IsListed(es: seq<ForwardingEdge>, targets: seq<ContainmentTarget>, n: nat, e: nat, s: nat) {
    exists k :: 0 <= k < n <= |targets| && ListedBy(es, targets[k], |targets[k].affectedHops|, e, s)
  }

  /** `after` is `before` without the selectors `gone`, and nothing else changed. */
  ghost predicate IsCut(before: ForwardingEdge, after: ForwardingEdge, gone: iset<nat>) {
    && after == before.(admittedSelectors := after.admittedSelectors)
    && StrictlyIncreasing(after.admittedSelectors)
    && forall s {:trigger s in after.admittedSelectors} :: s in after.admittedSelectors <==>
       s in before.admittedSelectors && s !in gone
  }

  ghost function Gone(es: seq<ForwardingEdge>, targets: seq<ContainmentTarget>, n: nat, e: nat): iset<nat> {
    iset s: nat | IsListed(es, targets, n, e, s)
  }

  ghost predicate AreCut(es: seq<ForwardingEdge>, targets: seq<ContainmentTarget>, n: nat, edges: seq<ForwardingEdge>) {
    |edges| == |es| && forall e {:trigger edges[e]} :: 0 <= e < |es| ==> IsCut(es[e], edges[e], Gone(es, targets, n, e))
  }

  method CutSelectors(admitted: seq<nat>, selectors: seq<nat>) returns (r: seq<nat>)
    requires StrictlyIncreasing(admitted)
    ensures StrictlyIncreasing(r)
    ensures forall s :: s in r <==> s in admitted && s !in selectors
  {
    r := admitted;
    for k := 0 to |selectors|
      invariant StrictlyIncreasing(r)
      invariant forall s :: s in r <==> s in admitted && s !in selectors[..k]
    {
      assert selectors[..k + 1] == selectors[..k] + [selectors[k]];
      StrictIsNondecreasing(r);
      SortedIsFound(r, selectors[k]);
      if BinarySearch(r, selectors[k]) {
        r := Erased(r, LowerBound(r, selectors[k]));
      }
    }
    assert selectors[..|selectors|] == selectors;
  }

  function Erased(s: seq<nat>, i: nat): (r: seq<nat>)
    requires i < |s| && StrictlyIncreasing(s)
    ensures StrictlyIncreasing(r) && forall x :: x in r <==> x in s && x != s[i]
  {
    assert s == s[..i] + [s[i]] + s[i + 1..];
    s[..i] + s[i + 1..]
  }

  /** One target: every edge it names loses its selectors. */
  method CutTarget(es: seq<ForwardingEdge>, edges0: seq<ForwardingEdge>, target: ContainmentTarget)
    returns (known: bool, edges: seq<ForwardingEdge>)
    requires |edges0| == |es| && forall e {:trigger edges0[e]} :: 0 <= e < |es| ==>
             StrictlyIncreasing(edges0[e].admittedSelectors)
    ensures known <==> forall h :: h in target.affectedHops ==> EdgeIndex(es, h).Some?
    ensures |edges| == |es|
    ensures known ==> forall e {:trigger edges[e]} :: 0 <= e < |es| ==>
              IsCut(edges0[e], edges[e], iset s: nat | ListedBy(es, target, |target.affectedHops|, e, s))
  {
    edges := edges0;
    for j := 0 to |target.affectedHops|
      invariant |edges| == |es| && forall i :: 0 <= i < j ==> EdgeIndex(es, target.affectedHops[i]).Some?
      invariant forall e {:trigger edges[e]} :: 0 <= e < |es| ==>
                  IsCut(edges0[e], edges[e], iset s: nat | ListedBy(es, target, j, e, s))
    {
      var index := EdgeIndex(es, target.affectedHops[j]);
      if index.None? {
        assert target.affectedHops[j] in target.affectedHops;
        return false, edges;
      }
      var cut := CutSelectors(edges[index.value].admittedSelectors, target.selectors);
      edges := edges[index.value := edges[index.value].(admittedSelectors := cut)];
      forall e, s: nat | 0 <= e < |es|
        ensures ListedBy(es, target, j + 1, e, s)
                <==> ListedBy(es, target, j, e, s) || (e == index.value && s in target.selectors)
      {
      }
    }
    return true, edges;
  }

  ghost predicate TargetApplies(es: seq<ForwardingEdge>, target: ContainmentTarget) {
    target.selectors != [] && forall h :: h in target.affectedHops ==> EdgeIndex(es, h).Some?
  }

  ghost predicate Applies(es: seq<ForwardingEdge>, targets: seq<ContainmentTarget>) {
    forall k {:trigger targets[k]} :: 0 <= k < |targets| ==> TargetApplies(es, targets[k])
  }

  lemma OneMoreTarget(es: seq<ForwardingEdge>, targets: seq<ContainmentTarget>, n: nat, before: seq<ForwardingEdge>,
                      after: seq<ForwardingEdge>)
    requires n < |targets| && AreCut(es, targets, n, before) && |after| == |es|
    requires forall e {:trigger after[e]} :: 0 <= e < |es| ==>
               IsCut(before[e], after[e], iset s: nat | ListedBy(es, targets[n], |targets[n].affectedHops|, e, s))
    ensures AreCut(es, targets, n + 1, after)
  {
    forall e | 0 <= e < |es|
      ensures IsCut(es[e], after[e], Gone(es, targets, n + 1, e))
    {
      assert IsCut(es[e], before[e], Gone(es, targets, n, e));
      assert IsCut(before[e], after[e], iset s: nat | ListedBy(es, targets[n], |targets[n].affectedHops|, e, s));
      forall s: nat
        ensures IsListed(es, targets, n + 1, e, s)
                <==> IsListed(es, targets, n, e, s) || ListedBy(es, targets[n], |targets[n].affectedHops|, e, s)
      {
      }
    }
  }

  predicate IsThinned(before: ForwardingEdge, after: ForwardingEdge) {
    && after == before.(admittedSelectors := after.admittedSelectors)
    && StrictlyIncreasing(after.admittedSelectors)
    && forall s :: s in after.admittedSelectors ==> s in before.admittedSelectors
  }

  /** A built definition with some selectors cut is built. */
  lemma CutIsBuilt(t: TopologyDefinition, edges: seq<ForwardingEdge>)
    requires IsBuilt(t) && |edges| == |t.edges|
    requires forall e {:trigger edges[e]} :: 0 <= e < |edges| ==> IsThinned(t.edges[e], edges[e])
    ensures IsBuilt(t.(edges := edges))
  {
    var shadow := t.(edges := edges);
    forall i, j | 0 <= i < j < |edges|
      ensures Sorting.InOrder(edges, EdgeKey, i, j)
    {
      assert Sorting.InOrder(t.edges, EdgeKey, i, j);
    }
    forall i | 0 <= i < |edges|
      ensures EdgeFault(t.resources, t.selectors, edges, i) == None
    {
      assert EdgeFault(t.resources, t.selectors, t.edges, i) == None;
      assert IsThinned(t.edges[i], edges[i]);
      assert i > 0 ==> IsThinned(t.edges[i - 1], edges[i - 1]);
    }
  }

  /** The plan applied to a shadow: a selector stays on an edge exactly when it was there and no target lists both. */
  method ApplyShadow(t: TopologyDefinition, targets: seq<ContainmentTarget>, limits: BuildLimits) returns (r: Shadowed)
    requires IsBuilt(t)
    ensures r.Shadow? || r.NotRebuilt? <==> Applies(t.edges, targets)
    ensures r.Shadow? <==> Applies(t.edges, targets) && WithinLimits(t, limits)
    ensures r.Shadow? ==>
            r.t == t.(edges := r.t.edges) && AreCut(t.edges, targets, |targets|, r.t.edges) && IsBuilt(r.t)
    ensures r.NoSelectors? ==>
            exists k :: 0 <= k < |targets| && targets[k].selectors == [] && Applies(t.edges, targets[..k])
  {
    var edges := t.edges;
    forall e | 0 <= e < |edges|
      ensures IsCut(t.edges[e], edges[e], Gone(t.edges, targets, 0, e))
    {
      assert EdgeFault(t.resources, t.selectors, t.edges, e) == None;
    }
    for k := 0 to |targets|
      invariant AreCut(t.edges, targets, k, edges) && Applies(t.edges, targets[..k])
    {
      assert targets[..k + 1] == targets[..k] + [targets[k]];
      if targets[k].selectors == [] {
        return NoSelectors;
      }
      ghost var before := edges;
      assert forall e {:trigger edges[e]} :: 0 <= e < |edges| ==>
             IsCut(t.edges[e], edges[e], Gone(t.edges, targets, k, e));
      var known;
      known, edges := CutTarget(t.edges, edges, targets[k]);
      if !known {
        return UnknownHop;
      }
      OneMoreTarget(t.edges, targets, k, before, edges);
    }
    assert targets[..|targets|] == targets;
    var shadow := t.(edges := edges);
    forall e | 0 <= e < |edges|
      ensures IsThinned(t.edges[e], edges[e])
    {
      assert IsCut(t.edges[e], edges[e], Gone(t.edges, targets, |targets|, e));
    }
    CutIsBuilt(t, edges);
    BuiltStays(shadow);
    var built := Canonicalize(shadow, limits);
    r := if built.Built? then Shadow(built.t) else NotRebuilt(built.why);
  }
}
