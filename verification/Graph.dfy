/** Directed graphs given by their arcs: closed walks, and the two facts that make
    Kahn's algorithm exact. */
module Graph {

  datatype Arc = Arc(from: nat, to: nat)

  /** The step from position `i` of `p` follows an arc. */
  ghost predicate Steps(arcs: set<Arc>, p: seq<nat>, i: nat) {
    i + 1 < |p| && Arc(p[i], p[i + 1]) in arcs
  }

  /** `p` visits its nodes along arcs. */
  ghost predicate IsWalk(arcs: set<Arc>, p: seq<nat>) {
    forall i :: 0 <= i < |p| - 1 ==> Steps(arcs, p, i)
  }

  /** `p` takes at least one arc and returns to the node it started from. */
  ghost predicate IsClosedWalk(arcs: set<Arc>, p: seq<nat>) {
    && |p| >= 2
    && p[0] == p[|p| - 1]
    && IsWalk(arcs, p)
  }

  ghost predicate HasCycle(arcs: set<Arc>) {
    exists p :: IsClosedWalk(arcs, p)
  }

  lemma HasCycleIsMonotone(arcs: set<Arc>, more: set<Arc>)
    requires arcs <= more && HasCycle(arcs)
    ensures HasCycle(more)
  {
    var p :| IsClosedWalk(arcs, p);
    forall i | 0 <= i < |p| - 1
      ensures Steps(more, p, i)
    {
      assert Steps(arcs, p, i);
    }
    assert IsClosedWalk(more, p);
  }

  /** Every arc climbs in `rank`. */
  ghost predicate IsRanking(arcs: set<Arc>, rank: map<nat, nat>) {
    forall a :: a in arcs ==> a.from in rank && a.to in rank && rank[a.from] < rank[a.to]
  }

  lemma {:induction false} WalkClimbs(arcs: set<Arc>, rank: map<nat, nat>, p: seq<nat>, k: nat)
    requires IsRanking(arcs, rank) && IsWalk(arcs, p)
    requires 0 < k < |p|
    ensures p[0] in rank && p[k] in rank && rank[p[0]] < rank[p[k]]
  {
    assert Steps(arcs, p, k - 1);
    if k > 1 {
      WalkClimbs(arcs, rank, p, k - 1);
    }
  }

  /** A graph whose arcs all climb has no cycle. */
  lemma RankedGraphIsAcyclic(arcs: set<Arc>, rank: map<nat, nat>)
    requires IsRanking(arcs, rank)
    ensures !HasCycle(arcs)
  {
    forall p | IsClosedWalk(arcs, p)
      ensures false
    {
      WalkClimbs(arcs, rank, p, |p| - 1);
    }
  }

  /** An arc from a node of `s` enters `v`. */
  ghost predicate IsEntered(arcs: set<Arc>, s: set<nat>, v: nat) {
    exists u :: u in s && Arc(u, v) in arcs
  }

  ghost predicate EnteredFromWithin(arcs: set<Arc>, s: set<nat>) {
    forall v :: v in s ==> IsEntered(arcs, s, v)
  }

  lemma {:induction false} BackwardWalk(arcs: set<Arc>, s: set<nat>, k: nat) returns (p: seq<nat>)
    requires s != {} && EnteredFromWithin(arcs, s)
    ensures |p| == k + 1 && IsWalk(arcs, p)
    ensures forall i :: 0 <= i < |p| ==> p[i] in s
  {
    if k == 0 {
      var v :| v in s;
      p := [v];
    } else {
      var q := BackwardWalk(arcs, s, k - 1);
      assert IsEntered(arcs, s, q[0]);
      var u :| u in s && Arc(u, q[0]) in arcs;
      p := [u] + q;
      forall i | 0 <= i < |p| - 1
        ensures Steps(arcs, p, i)
      {
        if i > 0 {
          assert Steps(arcs, q, i - 1);
        }
      }
    }
  }

  /** A sequence longer than the set its elements come from repeats one of them. */
  lemma {:induction false} Pigeonhole<T>(p: seq<T>, s: set<T>) returns (i: nat, j: nat)
    requires |p| > |s|
    requires forall k :: 0 <= k < |p| ==> p[k] in s
    ensures i < j < |p| && p[i] == p[j]
  {
    var last := |p| - 1;
    if k :| 0 <= k < last && p[k] == p[last] {
      i, j := k, last;
    } else {
      i, j := Pigeonhole(p[..last], s - {p[last]});
    }
  }

  /** A non-empty set of nodes that is entered only from within holds a cycle. */
  lemma EnteredSetHasCycle(arcs: set<Arc>, s: set<nat>)
    requires s != {} && EnteredFromWithin(arcs, s)
    ensures HasCycle(arcs)
  {
    var p := BackwardWalk(arcs, s, |s|);
    var i, j := Pigeonhole(p, s);
    var q := p[i..j + 1];
    forall k | 0 <= k < |q| - 1
      ensures Steps(arcs, q, k)
    {
      assert Steps(arcs, p, i + k);
    }
    assert IsClosedWalk(arcs, q);
  }
}
