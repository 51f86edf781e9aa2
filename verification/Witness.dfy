/** Loop witnesses: their canonical rotation, their order, and the validator that re-derives
    each one from the definition and the raw evidence. */
module Witness {
  import opened Lists
  import opened Topology
  import opened Evidence
  import opened Ledger
  import opened Graph

  /** The digest over contributing observations stands for the set of them. */
  type EvidenceDigest = set<ForwardingObservation>

  datatype LoopWitness = LoopWitness(
    cycle: seq<nat>, hops: seq<nat>, selectors: seq<nat>, fence: FenceVector,
    crossesDomains: bool, evidence: EvidenceDigest)

  // ----- Canonical rotation -----

  predicate IsLeastAt(cycle: seq<nat>, k: nat) {
    k < |cycle| && (forall i :: 0 <= i < |cycle| ==> cycle[k] <= cycle[i])
      && (forall i :: 0 <= i < k ==> cycle[k] < cycle[i])
  }

  predicate IsCanonicalRotation(cycle: seq<nat>) {
    |cycle| < 2 || IsLeastAt(cycle, 0)
  }

  function Rotated<T>(s: seq<T>, k: nat): seq<T>
    requires k <= |s|
  {
    s[k..] + s[..k]
  }

  method LeastPosition(cycle: seq<nat>) returns (best: nat)
    requires cycle != []
    ensures IsLeastAt(cycle, best)
  {
    best := 0;
    for index := 1 to |cycle|
      invariant best < index && IsLeastAt(cycle[..index], best)
    {
      assert forall i :: 0 <= i < index ==> cycle[..index][i] == cycle[..index + 1][i];
      if cycle[index] < cycle[best] {
        assert forall i :: 0 <= i < index ==> cycle[..index][best] <= cycle[..index][i];
        best := index;
      }
    }
    assert cycle[..|cycle|] == cycle;
  }

  method CanonicalizeCycle(cycle: seq<nat>) returns (r: seq<nat>)
    ensures exists k :: 0 <= k <= |cycle| && r == Rotated(cycle, k)
    ensures IsCanonicalRotation(cycle) <==> r == cycle
    ensures IsCanonicalRotation(r) && forall i :: 0 <= i < |r| ==> r[0] <= r[i]
  {
    if |cycle| < 2 {
      assert cycle == Rotated(cycle, 0);
      return cycle;
    }
    var best := LeastPosition(cycle);
    if best == 0 {
      assert cycle == Rotated(cycle, 0);
      return cycle;
    }
    r := Rotated(cycle, best);
    assert r[0] == cycle[best] < cycle[0];
    assert forall i :: 0 <= i < |r| ==> r[i] == cycle[if i < |cycle| - best then best + i else i - (|cycle| - best)];
  }

  /** Turns a cycle and its hops together, so that hop `i` still leaves resource `i`. */
  method CanonicalizeCycleWithHops(cycle: seq<nat>, hops: seq<nat>) returns (c: seq<nat>, h: seq<nat>)
    ensures |hops| == |cycle| ==> exists k :: 0 <= k <= |cycle| && c == Rotated(cycle, k) && h == Rotated(hops, k)
    ensures |hops| == |cycle| ==> IsCanonicalRotation(c) && forall i :: 0 <= i < |c| ==> c[0] <= c[i]
    ensures |hops| == |cycle| && IsCanonicalRotation(cycle) ==> c == cycle && h == hops
  {
    c, h := cycle, hops;
    if |cycle| < 2 || |hops| != |cycle| {
      assert |hops| == |cycle| ==> c == Rotated(cycle, 0) && h == Rotated(hops, 0);
      return;
    }
    var best := LeastPosition(cycle);
    if best == 0 {
      assert c == Rotated(cycle, 0) && h == Rotated(hops, 0);
      return;
    }
    c, h := Rotated(cycle, best), Rotated(hops, best);
    assert cycle[best] < cycle[0];
    assert forall i :: 0 <= i < |c| ==> c[i] == cycle[if i < |cycle| - best then best + i else i - (|cycle| - best)];
  }

  // ----- The validator -----

  lemma {:induction false} CountDecidesDuplicates(s: seq<nat>)
    ensures |Elements(s)| == |s| <==> NoDuplicates(s)
    ensures |Elements(s)| <= |s|
    decreases |s|
  {
    if s != [] {
      var front, last := s[..|s| - 1], s[|s| - 1];
      var few, all := Elements(front), Elements(s);
      CountDecidesDuplicates(front);
      assert s == front + [last];
      assert all == few + {last};
      if last in front {
        assert all == few;
        var i :| 0 <= i < |front| && front[i] == last;
        assert s[i] == s[|s| - 1];
      } else {
        assert last !in few;
        assert forall i :: 0 <= i < |front| ==> front[i] == s[i] && front[i] in front;
        assert NoDuplicates(front) <==> NoDuplicates(s);
      }
    }
  }

  /** The observations the ledger holds about any hop of a witness. */
  function Contributing(store: Store, hops: seq<nat>): EvidenceDigest {
    set k | k in store && store[k].edge in hops :: store[k]
  }

  /** What a witness is judged against: the definition, the evidence, and the resolution of every hop. */
  datatype Question = Question(t: TopologyDefinition, store: Store, table: seq<HopRecord>, current: FenceVector)

  /** The question a ledger answers at `current` and `now`. */
  ghost function Asked(t: TopologyDefinition, store: Store, byEdge: ByEdge, current: FenceVector,
                       now: nat): (q: Question)
    ensures |q.table| == |t.edges|
  {
    Question(t, store, HopTable(t, byEdge, current, now), current)
  }

  /** Edge `e` is up, joins enabled resources `from` and `to`, and is proven open for every selector listed. */
  ghost predicate CarriesOpenly(q: Question, e: nat, from: nat, to: nat, selectors: seq<nat>) {
    && e < |q.t.edges| && e < |q.table|
    && var edge := q.t.edges[e];
    && edge.from == from && edge.to == to && edge.link == Up
    && FindResource(q.t.resources, from).Some? && FindResource(q.t.resources, from).value.admin == Enabled
    && FindResource(q.t.resources, to).Some? && FindResource(q.t.resources, to).value.admin == Enabled
    && q.table[e].resolution == ProvenOpen
    && forall s :: s in selectors ==> s in edge.admittedSelectors && s in q.table[e].effectiveSelectors
  }

  /** The resource after position `i`, the last one being followed by the first. */
  function Successor(cycle: seq<nat>, i: nat): nat
    requires i < |cycle|
  {
    if i + 1 == |cycle| then cycle[0] else cycle[i + 1]
  }

  ghost predicate HopHolds(q: Question, w: LoopWitness, i: nat) {
    && i < |w.cycle| == |w.hops|
    && EdgeIndex(q.t.edges, w.hops[i]).Some?
    && CarriesOpenly(q, EdgeIndex(q.t.edges, w.hops[i]).value, w.cycle[i], Successor(w.cycle, i), w.selectors)
  }

  ghost function DomainsOf(q: Question, cycle: seq<nat>): set<nat> {
    set i | 0 <= i < |cycle| && FindResource(q.t.resources, cycle[i]).Some? ::
      FindResource(q.t.resources, cycle[i]).value.domain
  }

  ghost predicate ShapeHolds(q: Question, w: LoopWitness, maxHops: nat) {
    && w.cycle != [] && |w.cycle| <= maxHops && |w.hops| == |w.cycle|
    && w.selectors != [] && StrictlyIncreasing(w.selectors)
    && NoDuplicates(w.cycle) && IsCanonicalRotation(w.cycle)
    && w.fence == q.current
  }

  /** A simple cycle in canonical rotation whose every hop is usable, carrying honest evidence. */
  ghost predicate IsLoop(q: Question, w: LoopWitness, maxHops: nat) {
    && ShapeHolds(q, w, maxHops)
    && HopsHold(q, w)
    && w.evidence == Contributing(q.store, w.hops)
    && (w.crossesDomains <==> |DomainsOf(q, w.cycle)| > 1)
  }

  datatype Validation = Accepted | RejectedInvalid | RejectedStale | RejectedConflict

  method CheckShape(w: LoopWitness, current: FenceVector, maxHops: nat, ghost q: Question) returns (v: Validation)
    requires q.current == current
    ensures v == Accepted <==> ShapeHolds(q, w, maxHops)
    ensures v == RejectedStale ==> w.fence != current
  {
    if w.cycle == [] || |w.cycle| > maxHops || |w.hops| != |w.cycle| || w.selectors == [] {
      return RejectedInvalid;
    }
    CountDecidesDuplicates(w.selectors);
    if |Elements(w.selectors)| != |w.selectors| || !Nondecreasing(w.selectors) {
      return RejectedInvalid;
    }
    CountDecidesDuplicates(w.cycle);
    if |Elements(w.cycle)| != |w.cycle| {
      return RejectedInvalid;
    }
    var canonical := CanonicalizeCycle(w.cycle);
    if canonical != w.cycle {
      return RejectedInvalid;
    }
    return if w.fence != current then RejectedStale else Accepted;
  }

  method CheckHop(w: LoopWitness, i: nat, t: TopologyDefinition, ledger: EvidenceLedger, current: FenceVector, now: nat)
    returns (v: Validation)
    requires i < |w.cycle| == |w.hops|
    ensures var q := Asked(t, ledger.observations, ledger.byEdge, current, now);
            && (v == Accepted <==> HopHolds(q, w, i))
            && (v == RejectedConflict ==>
                  exists e :: 0 <= e < |t.edges| && t.edges[e].id == w.hops[i] && q.table[e].resolution == Conflicted)
    ensures v != RejectedStale
  {
    var from, to := w.cycle[i], Successor(w.cycle, i);
    var fromRecord, toRecord := FindResource(t.resources, from), FindResource(t.resources, to);
    if fromRecord.None? || toRecord.None? || fromRecord.value.admin != Enabled || toRecord.value.admin != Enabled {
      return RejectedInvalid;
    }
    var position := EdgeIndex(t.edges, w.hops[i]);
    if position.None? {
      return RejectedInvalid;
    }
    var edge := t.edges[position.value];
    if edge.from != from || edge.to != to || edge.link != Up {
      return RejectedInvalid;
    }
    var record := ledger.Resolve(t, position.value, current, now);
    if record.resolution == Conflicted {
      return RejectedConflict;
    }
    if record.resolution != ProvenOpen || record.from != from || record.to != to {
      return RejectedInvalid;
    }
    if exists s :: s in w.selectors && (s !in edge.admittedSelectors || s !in record.effectiveSelectors) {
      return RejectedInvalid;
    }
    return Accepted;
  }

  ghost predicate HopsHold(q: Question, w: LoopWitness) {
    forall i {:trigger HopHolds(q, w, i)} :: 0 <= i < |w.cycle| ==> HopHolds(q, w, i)
  }

  method CheckHops(w: LoopWitness, t: TopologyDefinition, ledger: EvidenceLedger, current: FenceVector, now: nat)
    returns (v: Validation, domains: set<nat>)
    requires |w.cycle| == |w.hops|
    ensures var q := Asked(t, ledger.observations, ledger.byEdge, current, now);
            && (v == Accepted <==> HopsHold(q, w))
            && (v == Accepted ==> domains == DomainsOf(q, w.cycle))
  {
    ghost var q := Asked(t, ledger.observations, ledger.byEdge, current, now);
    domains := {};
    for i := 0 to |w.cycle|
      invariant forall k {:trigger HopHolds(q, w, k)} :: 0 <= k < i ==> HopHolds(q, w, k)
      invariant domains == DomainsOf(q, w.cycle[..i])
    {
      v := CheckHop(w, i, t, ledger, current, now);
      if v != Accepted {
        return;
      }
      assert HopHolds(q, w, i);
      DomainsGrow(q, w.cycle, i);
      domains := domains + {FindResource(t.resources, w.cycle[i]).value.domain};
    }
    assert w.cycle[..|w.cycle|] == w.cycle;
    v := Accepted;
  }

  /** Accepts exactly the witnesses that are loops under the question asked. */
  method Validate(w: LoopWitness, t: TopologyDefinition, ledger: EvidenceLedger, current: FenceVector, now: nat,
                  maxHops: nat)
    returns (v: Validation)
    ensures v == Accepted <==> IsLoop(Asked(t, ledger.observations, ledger.byEdge, current, now), w, maxHops)
  {
    v := CheckShape(w, current, maxHops, Asked(t, ledger.observations, ledger.byEdge, current, now));
    if v != Accepted {
      return;
    }
    var domains;
    v, domains := CheckHops(w, t, ledger, current, now);
    if v != Accepted {
      return;
    }
    if Contributing(ledger.observations, w.hops) != w.evidence || (|domains| > 1) != w.crossesDomains {
      return RejectedInvalid;
    }
    return Accepted;
  }

  lemma DomainsGrow(q: Question, cycle: seq<nat>, i: nat)
    requires i < |cycle| && FindResource(q.t.resources, cycle[i]).Some?
    ensures DomainsOf(q, cycle[..i + 1]) == DomainsOf(q, cycle[..i])
            + {FindResource(q.t.resources, cycle[i]).value.domain}
  {
    var more := cycle[..i + 1];
    assert more[i] == cycle[i];
    assert forall k :: 0 <= k < i ==> more[k] == cycle[..i][k];
    forall d | d in DomainsOf(q, cycle[..i])
      ensures d in DomainsOf(q, more)
    {
      var k :| 0 <= k < i && FindResource(q.t.resources, cycle[..i][k]).Some?
               && FindResource(q.t.resources, cycle[..i][k]).value.domain == d;
      assert more[k] == cycle[..i][k];
    }
  }

  // ----- What acceptance means -----

  /** The arcs between resources that are proven open for `s`. */
  ghost function OpenArcs(q: Question, s: nat): set<Arc> {
    set e | 0 <= e < |q.t.edges| && e < |q.table| && q.table[e].resolution == ProvenOpen
      && s in q.table[e].effectiveSelectors ::
      Arc(q.t.edges[e].from, q.t.edges[e].to)
  }

  lemma HopGivesArc(q: Question, w: LoopWitness, i: nat, s: nat)
    requires HopHolds(q, w, i) && s in w.selectors
    ensures Arc(w.cycle[i], Successor(w.cycle, i)) in OpenArcs(q, s)
  {
    var e := EdgeIndex(q.t.edges, w.hops[i]).value;
    assert Arc(q.t.edges[e].from, q.t.edges[e].to) in OpenArcs(q, s);
  }

  lemma HopsGiveWalk(q: Question, w: LoopWitness, s: nat)
    requires HopsHold(q, w) && s in w.selectors && w.cycle != []
    ensures IsClosedWalk(OpenArcs(q, s), w.cycle + [w.cycle[0]])
  {
    var p, arcs := w.cycle + [w.cycle[0]], OpenArcs(q, s);
    forall i | 0 <= i < |p| - 1
      ensures Steps(arcs, p, i)
    {
      HopGivesArc(q, w, i, s);
      assert p[i] == w.cycle[i] && p[i + 1] == Successor(w.cycle, i);
    }
  }

  /** Every selector an accepted witness names really has a cycle of proven-open hops, through its resources. */
  lemma LoopIsReal(q: Question, w: LoopWitness, maxHops: nat, s: nat)
    requires IsLoop(q, w, maxHops) && s in w.selectors
    ensures IsClosedWalk(OpenArcs(q, s), w.cycle + [w.cycle[0]])
    ensures HasCycle(OpenArcs(q, s))
  {
    HopsGiveWalk(q, w, s);
  }

  /** In a canonical definition a loop never leaves its domain, so no accepted witness is marked as crossing. */
  lemma LoopStaysInDomain(q: Question, w: LoopWitness, maxHops: nat)
    requires IsCanonical(q.t) && IsLoop(q, w, maxHops)
    ensures !w.crossesDomains
  {
    var d := FindResource(q.t.resources, w.cycle[0]);
    assert HopHolds(q, w, 0);
    forall i | 0 <= i < |w.cycle|
      ensures FindResource(q.t.resources, w.cycle[i]).Some?
      ensures FindResource(q.t.resources, w.cycle[i]).value.domain == d.value.domain
    {
      SameDomainUpTo(q, w, maxHops, i);
    }
    assert DomainsOf(q, w.cycle) <= {d.value.domain};
    if DomainsOf(q, w.cycle) == {d.value.domain} {
    } else {
      assert DomainsOf(q, w.cycle) == {};
    }
  }

  lemma {:induction false} SameDomainUpTo(q: Question, w: LoopWitness, maxHops: nat, i: nat)
    requires IsCanonical(q.t) && IsLoop(q, w, maxHops) && i < |w.cycle|
    ensures FindResource(q.t.resources, w.cycle[0]).Some? && FindResource(q.t.resources, w.cycle[i]).Some?
    ensures FindResource(q.t.resources, w.cycle[i]).value.domain == FindResource(q.t.resources, w.cycle[0]).value.domain
  {
    if i == 0 {
      assert HopHolds(q, w, 0);
    } else {
      SameDomainUpTo(q, w, maxHops, i - 1);
      assert HopHolds(q, w, i - 1);
      SuccessorSharesDomain(q, w, i - 1);
    }
  }

  lemma SuccessorSharesDomain(q: Question, w: LoopWitness, i: nat)
    requires IsCanonical(q.t) && HopHolds(q, w, i)
    ensures var from, to := FindResource(q.t.resources, w.cycle[i]), FindResource(q.t.resources, Successor(w.cycle, i));
            from.Some? && to.Some? && from.value.domain == to.value.domain
    ensures i + 1 < |w.cycle| ==> Successor(w.cycle, i) == w.cycle[i + 1]
  {
    var e := EdgeIndex(q.t.edges, w.hops[i]).value;
    assert EdgeFits(q.t.resources, q.t.selectors, q.t.edges[e]);
  }
}
