/** The existence test and the witness search speak of the same cycles: a closed walk for a
    selector exists exactly when some rooted cycle carries that selector. */
module Agreement {
  import opened Graph
  import opened Masks
  import opened Probe
  import opened SimpleCycles

  ghost predicate CarriesWithin(hops: seq<HopView>, s: nat, highest: HopClass, i: nat) {
    && i < |hops| && hops[i].traversable
    && hops[i].klass.Rank() <= highest.Rank()
    && s in Bits(hops[i].mask)
  }

  /** The arcs of the traversable hops of class at most `highest` that carry selector `s`. */
  ghost function SelectorArcs(hops: seq<HopView>, s: nat, highest: HopClass): set<Arc> {
    set i | 0 <= i < |hops| && CarriesWithin(hops, s, highest, i) :: Arc(hops[i].fromNode, hops[i].toNode)
  }

  // ----- Closed walks become simple -----

  ghost predicate IsSimpleClosedWalk(arcs: set<Arc>, p: seq<nat>) {
    IsClosedWalk(arcs, p) && forall i, j :: 0 <= i < j < |p| - 1 ==> p[i] != p[j]
  }

  lemma SegmentWalks(arcs: set<Arc>, p: seq<nat>, i: nat, j: nat)
    requires IsWalk(arcs, p) && i <= j <= |p|
    ensures IsWalk(arcs, p[i..j])
  {
    forall k | 0 <= k < |p[i..j]| - 1
      ensures Steps(arcs, p[i..j], k)
    {
      assert Steps(arcs, p, i + k);
    }
  }

  lemma {:induction false} CutToSimple(arcs: set<Arc>, p: seq<nat>) returns (q: seq<nat>)
    requires IsClosedWalk(arcs, p)
    ensures IsSimpleClosedWalk(arcs, q)
    decreases |p|
  {
    if i, j :| 0 <= i < j < |p| - 1 && p[i] == p[j] {
      SegmentWalks(arcs, p, i, j + 1);
      q := CutToSimple(arcs, p[i..j + 1]);
    } else {
      q := p;
    }
  }

  lemma {:induction false} LeastIndex(p: seq<nat>, n: nat) returns (m: nat)
    requires 0 < n <= |p|
    ensures m < n && forall i :: 0 <= i < n ==> p[m] <= p[i]
  {
    m := 0;
    if n > 1 {
      m := LeastIndex(p, n - 1);
      if p[n - 1] < p[m] {
        m := n - 1;
      }
    }
  }

  /** Turned so that it starts at its smallest node. */
  lemma TurnToLeast(arcs: set<Arc>, p: seq<nat>) returns (q: seq<nat>)
    requires IsSimpleClosedWalk(arcs, p)
    ensures IsSimpleClosedWalk(arcs, q)
    ensures forall i :: 0 < i < |q| - 1 ==> q[0] < q[i]
  {
    var n := |p| - 1;
    var m := LeastIndex(p, n);
    q := p[m..n] + p[..m + 1];
    forall k | 0 <= k < |q| - 1
      ensures Steps(arcs, q, k)
    {
      assert Steps(arcs, p, if k < n - m then m + k else k - (n - m));
    }
    assert forall i :: 0 <= i < n ==> q[i] == p[if i < n - m then m + i else i - (n - m)];
  }

  lemma {:induction false} PickHops(hops: seq<HopView>, s: nat, p: seq<nat>, k: nat) returns (c: Cycle)
    requires IsWalk(SelectorArcs(hops, s, Proven), p) && k < |p|
    ensures |c| == k
    ensures forall i {:trigger c[i]} :: 0 <= i < k ==>
              CarriesWithin(hops, s, Proven, c[i]) && hops[c[i]].fromNode == p[i] && hops[c[i]].toNode == p[i + 1]
  {
    if k == 0 {
      c := [];
    } else {
      var front := PickHops(hops, s, p, k - 1);
      assert Steps(SelectorArcs(hops, s, Proven), p, k - 1);
      var e :| 0 <= e < |hops| && CarriesWithin(hops, s, Proven, e)
               && Arc(hops[e].fromNode, hops[e].toNode) == Arc(p[k - 1], p[k]);
      c := front + [e];
    }
  }

  lemma HopsFormCycle(hops: seq<HopView>, s: nat, p: seq<nat>, c: Cycle)
    requires IsSimpleClosedWalk(SelectorArcs(hops, s, Proven), p)
    requires forall i :: 0 < i < |p| - 1 ==> p[0] < p[i]
    requires |c| == |p| - 1
    requires forall i {:trigger c[i]} :: 0 <= i < |c| ==>
               CarriesWithin(hops, s, Proven, c[i]) && hops[c[i]].fromNode == p[i] && hops[c[i]].toNode == p[i + 1]
    ensures IsRootedCycle(hops, c)
  {
    var start := p[0];
    assert CarriesWithin(hops, s, Proven, c[0]);
    forall i | 0 <= i <= |c|
      ensures NodeAt(hops, start, c, i) == p[i]
    {
      assert i > 0 ==> CarriesWithin(hops, s, Proven, c[i - 1]);
    }
    forall i | 0 <= i < |c|
      ensures TakesOpenHop(hops, start, c, i)
    {
      assert CarriesWithin(hops, s, Proven, c[i]);
    }
    forall i, j | 0 <= i < j < |c|
      ensures NodesDiffer(hops, start, c, i, j)
    {
      assert p[i] != p[j];
    }
  }

  lemma WalkGivesCycle(hops: seq<HopView>, full: set<nat>, s: nat) returns (c: Cycle)
    requires s in full && HasCycle(SelectorArcs(hops, s, Proven))
    ensures IsRootedCycle(hops, c) && s in Common(hops, full, c)
  {
    var arcs := SelectorArcs(hops, s, Proven);
    var p :| IsClosedWalk(arcs, p);
    p := CutToSimple(arcs, p);
    p := TurnToLeast(arcs, p);
    c := PickHops(hops, s, p, |p| - 1);
    HopsFormCycle(hops, s, p, c);
    CommonMeansAll(hops, full, c, s);
    assert forall i :: 0 <= i < |c| ==> CarriesWithin(hops, s, Proven, c[i]);
  }

  lemma CycleGivesWalk(hops: seq<HopView>, full: set<nat>, s: nat, c: Cycle)
    requires IsRootedCycle(hops, c) && s in Common(hops, full, c)
    ensures s in full && HasCycle(SelectorArcs(hops, s, Proven))
  {
    CommonMeansAll(hops, full, c, s);
    var arcs := SelectorArcs(hops, s, Proven);
    var start := hops[c[0]].fromNode;
    var p := seq(|c| + 1, i requires 0 <= i => NodeAt(hops, start, c, i));
    forall i | 0 <= i < |p| - 1
      ensures Steps(arcs, p, i)
    {
      assert TakesOpenHop(hops, start, c, i);
      assert CarriesWithin(hops, s, Proven, c[i]);
      assert Arc(hops[c[i]].fromNode, hops[c[i]].toNode) in arcs;
    }
    assert IsClosedWalk(arcs, p);
  }

  /** Existence per selector and enumeration of cycles agree. */
  lemma EnginesAgree(hops: seq<HopView>, full: set<nat>, s: nat)
    requires s in full
    ensures HasCycle(SelectorArcs(hops, s, Proven))
       <==> exists c :: IsRootedCycle(hops, c) && s in Common(hops, full, c)
  {
    if HasCycle(SelectorArcs(hops, s, Proven)) {
      var c := WalkGivesCycle(hops, full, s);
    }
    if c :| IsRootedCycle(hops, c) && s in Common(hops, full, c) {
      CycleGivesWalk(hops, full, s, c);
    }
  }
}
