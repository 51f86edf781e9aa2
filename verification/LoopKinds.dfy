/** The answer a hop table calls for, said of its resolutions: which kinds of hop a loop has to take. */
module LoopKinds {
  import opened Lists
  import opened Sets
  import opened Graph
  import opened Probe
  import opened Topology
  import opened Evidence
  import opened HopViews
  import opened Existence

  const OPEN_HOPS: set<HopResolution> := {ProvenOpen}
  const POSSIBLE_HOPS: set<HopResolution> := {ProvenOpen, UnprovenOpen, HopResolution.Unproven}
  const ALL_HOPS: set<HopResolution> := {ProvenOpen, UnprovenOpen, HopResolution.Unproven, HopResolution.Conflicted}

  /** Hop `i` is of one of the kinds, and takes the selector: by the record where evidence names its selectors, and
      otherwise by the definition. */
  ghost predicate Takes(t: TopologyDefinition, table: seq<HopRecord>, s: nat, kinds: set<HopResolution>, i: nat) {
    && i < |t.edges| && i < |table| && table[i].resolution in kinds
    && if table[i].resolution in {ProvenOpen, UnprovenOpen} then s in table[i].effectiveSelectors
       else s in t.edges[i].admittedSelectors
  }

  /** Each hop taken ends where the next begins, and the last where the first does. */
  ghost predicate GoesRound(t: TopologyDefinition, table: seq<HopRecord>, s: nat, kinds: set<HopResolution>,
                            hops: seq<nat>)
  {
    && hops != []
    && (forall k {:trigger hops[k]} :: 0 <= k < |hops| ==> Takes(t, table, s, kinds, hops[k]))
    && forall k {:trigger hops[k]} :: 0 <= k < |hops| ==>
         t.edges[hops[k]].to == t.edges[hops[if k + 1 < |hops| then k + 1 else 0]].from
  }

  ghost predicate LoopsThrough(t: TopologyDefinition, table: seq<HopRecord>, s: nat, kinds: set<HopResolution>) {
    exists hops :: GoesRound(t, table, s, kinds, hops)
  }

  // ----- Loops of hops are cycles of arcs -----

  /** The hops of the kinds are those of class at most `highest`. */
  ghost predicate KindsFit(t: TopologyDefinition, table: seq<HopRecord>, s: nat, highest: HopClass,
                           kinds: set<HopResolution>)
  {
    forall i: nat {:trigger Takes(t, table, s, kinds, i)} {:trigger Carries(t, table, s, highest, i)} ::
      Takes(t, table, s, kinds, i) <==> Carries(t, table, s, highest, i)
  }

  lemma ResourceAt(t: TopologyDefinition, i: nat)
    requires IsCanonical(t) && i < |t.edges|
    ensures Position(t, t.edges[i].from) < |t.resources|
            && t.resources[Position(t, t.edges[i].from)].id == t.edges[i].from
    ensures Position(t, t.edges[i].to) < |t.resources| && t.resources[Position(t, t.edges[i].to)].id == t.edges[i].to
  {
    assert EdgeFits(t.resources, t.selectors, t.edges[i]);
  }

  ghost predicate IsHopFor(t: TopologyDefinition, table: seq<HopRecord>, s: nat, highest: HopClass, p: seq<nat>, k: nat,
                           i: nat)
  {
    && k + 1 < |p| && Carries(t, table, s, highest, i)
    && Position(t, t.edges[i].from) == p[k] && Position(t, t.edges[i].to) == p[k + 1]
  }

  ghost function HopFor(t: TopologyDefinition, table: seq<HopRecord>, s: nat, highest: HopClass, p: seq<nat>,
                        k: nat): (i: nat)
    requires Steps(CarryingArcs(t, table, s, highest), p, k)
    ensures IsHopFor(t, table, s, highest, p, k, i)
  {
    var i: nat :| i < |t.edges| && Carries(t, table, s, highest, i)
             && Arc(p[k], p[k + 1]) == Arc(Position(t, t.edges[i].from), Position(t, t.edges[i].to));
    i
  }

  /** Hops for the steps of a closed walk go round. */
  lemma HopsGoRound(t: TopologyDefinition, table: seq<HopRecord>, s: nat, highest: HopClass, kinds: set<HopResolution>,
                    p: seq<nat>, hops: seq<nat>)
    requires IsCanonical(t) && KindsFit(t, table, s, highest, kinds)
    requires |p| >= 2 && p[0] == p[|p| - 1] && |hops| == |p| - 1
    requires forall k {:trigger hops[k]} :: 0 <= k < |hops| ==> IsHopFor(t, table, s, highest, p, k, hops[k])
    ensures GoesRound(t, table, s, kinds, hops)
  {
    forall k | 0 <= k < |hops|
      ensures Takes(t, table, s, kinds, hops[k])
      ensures t.edges[hops[k]].to == t.edges[hops[if k + 1 < |hops| then k + 1 else 0]].from
    {
      var next := if k + 1 < |hops| then k + 1 else 0;
      assert IsHopFor(t, table, s, highest, p, k, hops[k]);
      assert IsHopFor(t, table, s, highest, p, next, hops[next]);
      ResourceAt(t, hops[k]);
      ResourceAt(t, hops[next]);
    }
  }

  lemma WalkIsLoop(t: TopologyDefinition, table: seq<HopRecord>, s: nat, highest: HopClass, kinds: set<HopResolution>,
                   p: seq<nat>)
    requires IsCanonical(t) && KindsFit(t, table, s, highest, kinds)
    requires IsClosedWalk(CarryingArcs(t, table, s, highest), p)
    ensures LoopsThrough(t, table, s, kinds)
  {
    var n := |p| - 1;
    forall k | 0 <= k < n
      ensures Steps(CarryingArcs(t, table, s, highest), p, k)
    {
    }
    var hops := seq(n, k requires 0 <= k < n => HopFor(t, table, s, highest, p, k));
    HopsGoRound(t, table, s, highest, kinds, p, hops);
  }

  /** The positions the hops start from, and back to the first. */
  ghost function NodesOf(t: TopologyDefinition, hops: seq<nat>): (p: seq<nat>)
    requires hops != [] && forall k {:trigger hops[k]} :: 0 <= k < |hops| ==> hops[k] < |t.edges|
    ensures |p| == |hops| + 1 && p[|hops|] == p[0]
  {
    var n := |hops|;
    seq(n, k requires 0 <= k < n => Position(t, t.edges[hops[k]].from)) + [Position(t, t.edges[hops[0]].from)]
  }

  lemma HopIsStep(t: TopologyDefinition, table: seq<HopRecord>, s: nat, highest: HopClass, kinds: set<HopResolution>,
                  hops: seq<nat>, k: nat)
    requires KindsFit(t, table, s, highest, kinds) && GoesRound(t, table, s, kinds, hops) && k < |hops|
    requires forall k {:trigger hops[k]} :: 0 <= k < |hops| ==> hops[k] < |t.edges|
    ensures Steps(CarryingArcs(t, table, s, highest), NodesOf(t, hops), k)
  {
    var i, next := hops[k], hops[if k + 1 < |hops| then k + 1 else 0];
    assert Takes(t, table, s, kinds, i);
    assert Carries(t, table, s, highest, i);
    assert t.edges[i].to == t.edges[next].from;
    assert NodesOf(t, hops)[k] == Position(t, t.edges[i].from);
    assert NodesOf(t, hops)[k + 1] == Position(t, t.edges[i].to);
  }

  lemma LoopIsWalk(t: TopologyDefinition, table: seq<HopRecord>, s: nat, highest: HopClass, kinds: set<HopResolution>,
                   hops: seq<nat>)
    requires KindsFit(t, table, s, highest, kinds) && GoesRound(t, table, s, kinds, hops)
    ensures HasCycle(CarryingArcs(t, table, s, highest))
  {
    var p := NodesOf(t, hops);
    forall k | 0 <= k < |hops|
      ensures Steps(CarryingArcs(t, table, s, highest), p, k)
    {
      HopIsStep(t, table, s, highest, kinds, hops, k);
    }
    assert IsClosedWalk(CarryingArcs(t, table, s, highest), p);
  }

  lemma LoopsAreCycles(t: TopologyDefinition, table: seq<HopRecord>, s: nat, highest: HopClass,
                       kinds: set<HopResolution>)
    requires IsCanonical(t) && KindsFit(t, table, s, highest, kinds)
    ensures LoopsThrough(t, table, s, kinds) <==> HasCycle(CarryingArcs(t, table, s, highest))
  {
    if hops :| GoesRound(t, table, s, kinds, hops) {
      LoopIsWalk(t, table, s, highest, kinds, hops);
    }
    if p :| IsClosedWalk(CarryingArcs(t, table, s, highest), p) {
      WalkIsLoop(t, table, s, highest, kinds, p);
    }
  }

  /** The three classes of evidence are three sets of kinds. */
  lemma ClassesAreKinds(t: TopologyDefinition, table: seq<HopRecord>, s: nat)
    requires IsCanonical(t)
    ensures LoopsThrough(t, table, s, OPEN_HOPS) <==> HasCycle(CarryingArcs(t, table, s, Proven))
    ensures LoopsThrough(t, table, s, POSSIBLE_HOPS) <==> HasCycle(CarryingArcs(t, table, s, HopClass.Unproven))
    ensures LoopsThrough(t, table, s, ALL_HOPS) <==> HasCycle(CarryingArcs(t, table, s, HopClass.Conflicted))
  {
    LoopsAreCycles(t, table, s, Proven, OPEN_HOPS);
    LoopsAreCycles(t, table, s, HopClass.Unproven, POSSIBLE_HOPS);
    LoopsAreCycles(t, table, s, HopClass.Conflicted, ALL_HOPS);
  }

  // ----- The answer -----

  /** Some selector asked about has a loop of hops of these kinds. */
  ghost predicate SomeLoop(t: TopologyDefinition, table: seq<HopRecord>, scope: seq<nat>, kinds: set<HopResolution>) {
    exists s :: (scope == [] || s in scope) && LoopsThrough(t, table, s, kinds)
  }

  /** Some selector asked about has a loop, but none without a conflicted hop. */
  ghost predicate SomeContested(t: TopologyDefinition, table: seq<HopRecord>, scope: seq<nat>) {
    exists s ::
      (scope == [] || s in scope) && LoopsThrough(t, table, s, ALL_HOPS) && !LoopsThrough(t, table, s, POSSIBLE_HOPS)
  }

  /** The truth, kind by kind. */
  lemma TruthByKinds(t: TopologyDefinition, table: seq<HopRecord>, scope: seq<nat>)
    requires IsCanonical(t)
    ensures SomeLoop(t, table, scope, OPEN_HOPS) <==> SomeCycle(t, table, scope, Proven)
    ensures Truth(t, table, scope) == LoopConfirmed <==> SomeLoop(t, table, scope, OPEN_HOPS)
    ensures Truth(t, table, scope) == LoopConflict <==>
            !SomeLoop(t, table, scope, OPEN_HOPS) && SomeContested(t, table, scope)
    ensures Truth(t, table, scope) == LoopUnknown <==>
            && !SomeLoop(t, table, scope, OPEN_HOPS) && !SomeContested(t, table, scope)
            && SomeLoop(t, table, scope, POSSIBLE_HOPS)
    ensures Truth(t, table, scope) == NoLoop <==> !SomeLoop(t, table, scope, ALL_HOPS)
  {
    SomeIsSome(t, table, scope, Proven, OPEN_HOPS);
    SomeIsSome(t, table, scope, HopClass.Unproven, POSSIBLE_HOPS);
    SomeIsSome(t, table, scope, HopClass.Conflicted, ALL_HOPS);
    ContestedIsConflict(t, table, scope);
    NoLoopMeansNoCycle(t, table, scope);
  }

  lemma SomeIsSome(t: TopologyDefinition, table: seq<HopRecord>, scope: seq<nat>, highest: HopClass,
                   kinds: set<HopResolution>)
    requires IsCanonical(t) && forall s {:trigger KindsFit(t, table, s, highest, kinds)} ::
             KindsFit(t, table, s, highest, kinds)
    ensures SomeLoop(t, table, scope, kinds) <==> SomeCycle(t, table, scope, highest)
  {
    if s :| (scope == [] || s in scope) && LoopsThrough(t, table, s, kinds) {
      LoopsAreCycles(t, table, s, highest, kinds);
      assert InScope(scope, s);
    }
    if s :| InScope(scope, s) && HasCycle(CarryingArcs(t, table, s, highest)) {
      LoopsAreCycles(t, table, s, highest, kinds);
    }
  }

  lemma ContestedIsConflict(t: TopologyDefinition, table: seq<HopRecord>, scope: seq<nat>)
    requires IsCanonical(t)
    ensures SomeContested(t, table, scope) <==> SomeOnlyByConflict(t, table, scope)
  {
    if SomeContested(t, table, scope) {
      var s :| (scope == [] || s in scope) && LoopsThrough(t, table, s, ALL_HOPS)
               && !LoopsThrough(t, table, s, POSSIBLE_HOPS);
      ClassesAreKinds(t, table, s);
      assert InScope(scope, s) && OnlyByConflict(t, table, s);
    }
    if s :| InScope(scope, s) && OnlyByConflict(t, table, s) {
      ClassesAreKinds(t, table, s);
    }
  }
}
