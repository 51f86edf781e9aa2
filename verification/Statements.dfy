/** Evidence for examples: every edge of a definition stated open, once, for all the selectors it admits, each by a
    producer of its own; and the run of a ledger that takes it. */
module Statements {
  import opened Topology
  import opened Evidence
  import opened Ledger
  import opened Witness

  const STATED_AT: FenceVector := FenceVector(1, 1, 1, 1, 1, 1)

  function StatementOf(e: ForwardingEdge): ForwardingObservation {
    ForwardingObservation(e.id, e.id, e.from, e.to, e.domain, Present, e.admittedSelectors, 1, 1, e.id, 1,
                          EvidenceLease(1, 1, 1, 0, 10))
  }

  /** What a ledger holds about the edges once the first `n` have been stated open. */
  ghost function FirstStatements(t: TopologyDefinition, n: nat): ByEdge
    requires EdgeIdsDistinct(t.edges) && n <= |t.edges|
  {
    map i | 0 <= i < n :: t.edges[i].id := [StatementOf(t.edges[i])]
  }

  /** What a ledger holds about the edges once each has been stated open. */
  ghost function StatementsAbout(t: TopologyDefinition): ByEdge
    requires EdgeIdsDistinct(t.edges)
  {
    FirstStatements(t, |t.edges|)
  }

  // ----- The run that leaves it -----

  /** A ledger within these limits takes a statement about every edge. */
  predicate IsStatable(t: TopologyDefinition, limits: LedgerLimits) {
    && EdgeIdsDistinct(t.edges) && limits.maxObservationsPerEdge > 0 && |t.edges| <= limits.maxObservations
    && forall i {:trigger t.edges[i]} :: 0 <= i < |t.edges| ==> Structure(StatementOf(t.edges[i]), limits) == Status.Ok
  }

  /** The first `n` edges stated, one after the other. */
  function Submissions(t: TopologyDefinition, n: nat): (ops: seq<Operation>)
    requires n <= |t.edges|
    ensures |ops| == n
  {
    if n == 0 then [] else Submissions(t, n - 1) + [Operation.Submit(StatementOf(t.edges[n - 1]))]
  }

  ghost predicate IsNew(s: LedgerState, e: ForwardingEdge) {
    && e.id !in s.byId && e.id !in s.byEdge && KeyOf(StatementOf(e)) !in s.high
  }

  lemma OneMoreStatement(t: TopologyDefinition, n: nat)
    requires EdgeIdsDistinct(t.edges) && n < |t.edges|
    ensures FirstStatements(t, n + 1) == FirstStatements(t, n)[t.edges[n].id := [StatementOf(t.edges[n])]]
  {
  }

  /** The ledger has taken the first `n` statements, and knows of no other. */
  ghost predicate HasStated(t: TopologyDefinition, s: LedgerState, n: nat)
    requires EdgeIdsDistinct(t.edges) && n <= |t.edges|
  {
    && s.byEdge == FirstStatements(t, n) && |s.store| <= n && s.stats == Stats(n, 0, 0, 0, 0)
    && forall i {:trigger t.edges[i]} :: n <= i < |t.edges| ==> IsNew(s, t.edges[i])
  }

  lemma StoredNew(limits: LedgerLimits, s: LedgerState, o: Observation)
    requires Structure(o, limits) == Status.Ok && |s.store| < limits.maxObservations
             && limits.maxObservationsPerEdge > 0
    requires o.id !in s.byId && o.edge !in s.byEdge && KeyOf(o) !in s.high
    ensures Submitted(limits, s, o) == Stored(s, o) && Stored(s, o).byEdge == s.byEdge[o.edge := [o]]
  {
    assert Answer(limits, s, o) == Status.Ok;
    assert Bucket(s.byEdge, o.edge) == [] && Insert([], o) == [o];
  }

  lemma StatedNext(t: TopologyDefinition, limits: LedgerLimits, s: LedgerState, n: nat)
    requires IsStatable(t, limits) && n < |t.edges| && HasStated(t, s, n)
    ensures HasStated(t, Submitted(limits, s, StatementOf(t.edges[n])), n + 1)
  {
    var o := StatementOf(t.edges[n]);
    assert IsNew(s, t.edges[n]);
    StoredNew(limits, s, o);
    OneMoreStatement(t, n);
    forall i | n + 1 <= i < |t.edges|
      ensures IsNew(Stored(s, o), t.edges[i])
    {
      assert IsNew(s, t.edges[i]);
    }
  }

  lemma {:induction false} RunStatesFirst(t: TopologyDefinition, limits: LedgerLimits, n: nat)
    requires IsStatable(t, limits) && n <= |t.edges|
    ensures HasStated(t, Run(limits, Submissions(t, n)), n)
  {
    if n > 0 {
      RunStatesFirst(t, limits, n - 1);
      var front := Submissions(t, n - 1);
      assert Submissions(t, n)[..n - 1] == front;
      StatedNext(t, limits, Run(limits, front), n - 1);
    }
  }

  /** The run that submits every statement. */
  function StatedLedger(t: TopologyDefinition, limits: LedgerLimits): LedgerState
    requires limits.maxObservationsPerEdge > 0
  {
    Run(limits, Submissions(t, |t.edges|))
  }

  /** Some run of the ledger leaves exactly these statements: one that submits them, each of which is accepted. */
  lemma RunStatesAll(t: TopologyDefinition, limits: LedgerLimits)
    requires IsStatable(t, limits)
    ensures var s := StatedLedger(t, limits);
            s.byEdge == StatementsAbout(t) && s.stats == Stats(|t.edges|, 0, 0, 0, 0)
  {
    RunStatesFirst(t, limits, |t.edges|);
  }

  // ----- What is proven by it -----

  /** An edge that is up between enabled resources of its domain and admits something. */
  predicate IsPlain(t: TopologyDefinition, edge: ForwardingEdge) {
    && EndpointsFit(t.resources, edge) && edge.link == Up && |edge.admittedSelectors| > 0
    && FindResource(t.resources, edge.from).value.admin == Enabled
    && FindResource(t.resources, edge.to).value.admin == Enabled
  }

  /** What has been stated is proven. */
  lemma StatedIsOpen(t: TopologyDefinition, e: nat)
    requires EdgeIdsDistinct(t.edges) && e < |t.edges| && IsPlain(t, t.edges[e])
    ensures var record := HopTable(t, StatementsAbout(t), STATED_AT, 5)[e];
            record.resolution == ProvenOpen && record.effectiveSelectors == t.edges[e].admittedSelectors
  {
    var o := StatementOf(t.edges[e]);
    assert StatementsAbout(t)[t.edges[e].id] == [o];
    assert About(StatementsAbout(t), t.edges[e].id) == {o};
    ProvenByOne(t, e, o, STATED_AT, 5);
  }

  /** The question asked of those statements. */
  ghost function Stated(t: TopologyDefinition, store: Store): (q: Question)
    requires EdgeIdsDistinct(t.edges)
    ensures |q.table| == |t.edges|
  {
    Asked(t, store, StatementsAbout(t), STATED_AT, 5)
  }

  /** Room for a statement about every edge. */
  predicate HasRoom(t: TopologyDefinition, limits: LedgerLimits) {
    limits.maxSelectors > 0 && limits.maxObservationsPerEdge > 0 && |t.edges| <= limits.maxObservations
  }

  /** The question is one that can be asked: a run of the ledger ends with its evidence. */
  lemma StatedIsReached(t: TopologyDefinition, limits: LedgerLimits)
    requires IsStatable(t, limits)
    ensures var s := StatedLedger(t, limits);
            s.stats.accepted == |t.edges| && Asked(t, s.store, s.byEdge, STATED_AT, 5) == Stated(t, s.store)
  {
    RunStatesAll(t, limits);
  }

  /** Hop `i` of the witness is a plain edge from its resource to the next one that admits the witness's selectors. */
  predicate Follows(t: TopologyDefinition, w: LoopWitness, i: nat) {
    && i < |w.cycle| == |w.hops| && EdgeIndex(t.edges, w.hops[i]).Some?
    && var edge := t.edges[EdgeIndex(t.edges, w.hops[i]).value];
       && edge.from == w.cycle[i] && edge.to == Successor(w.cycle, i) && IsPlain(t, edge)
       && forall s :: s in w.selectors ==> s in edge.admittedSelectors
  }

  lemma FollowedHopHolds(t: TopologyDefinition, store: Store, w: LoopWitness, i: nat)
    requires EdgeIdsDistinct(t.edges) && Follows(t, w, i)
    ensures HopHolds(Stated(t, store), w, i)
  {
    StatedIsOpen(t, EdgeIndex(t.edges, w.hops[i]).value);
  }

  /** A hop that admits more than was stated about it still holds for what was. */
  lemma WiderHopHolds(wide: TopologyDefinition, stated: TopologyDefinition, store: Store, w: LoopWitness, i: nat,
                      e: nat)
    requires EdgeIdsDistinct(stated.edges) && e < |stated.edges| == |wide.edges|
             && stated.edges[e].id == wide.edges[e].id
    requires i < |w.cycle| == |w.hops| && EdgeIndex(wide.edges, w.hops[i]) == Some(e) && IsPlain(wide, wide.edges[e])
    requires wide.edges[e].from == w.cycle[i] && wide.edges[e].to == Successor(w.cycle, i) && w.selectors != []
    requires forall s :: s in w.selectors ==>
             s in stated.edges[e].admittedSelectors && s in wide.edges[e].admittedSelectors
    ensures HopHolds(Asked(wide, store, StatementsAbout(stated), STATED_AT, 5), w, i)
  {
    var o := StatementOf(stated.edges[e]);
    assert StatementsAbout(stated)[wide.edges[e].id] == [o];
    assert About(StatementsAbout(stated), wide.edges[e].id) == {o};
    forall s | s in w.selectors
      ensures RecordOf(wide, e, {o}, STATED_AT, 5).resolution == ProvenOpen
      ensures s in RecordOf(wide, e, {o}, STATED_AT, 5).effectiveSelectors
    {
      ProvenForNamed(wide, e, o, s, STATED_AT, 5);
    }
    assert w.selectors[0] in w.selectors;
  }

  predicate AllFollow(t: TopologyDefinition, w: LoopWitness) {
    forall i {:trigger Follows(t, w, i)} :: 0 <= i < |w.cycle| ==> Follows(t, w, i)
  }

  predicate IsOneDomain(t: TopologyDefinition) {
    forall i {:trigger t.resources[i]} :: 0 <= i < |t.resources| ==> t.resources[i].domain == 1
  }

  /** In one domain, a witness of the right shape whose hops follow each other is a loop. */
  lemma FollowedIsLoop(t: TopologyDefinition, store: Store, w: LoopWitness, maxHops: nat)
    requires EdgeIdsDistinct(t.edges) && IsOneDomain(t) && AllFollow(t, w) && ShapeHolds(Stated(t, store), w, maxHops)
    requires !w.crossesDomains && w.evidence == Contributing(store, w.hops)
    ensures IsLoop(Stated(t, store), w, maxHops)
  {
    var q := Stated(t, store);
    forall i | 0 <= i < |w.cycle|
      ensures HopHolds(q, w, i)
    {
      assert Follows(t, w, i);
      FollowedHopHolds(t, store, w, i);
    }
    assert DomainsOf(q, w.cycle) <= {1};
    if DomainsOf(q, w.cycle) != {1} {
      assert DomainsOf(q, w.cycle) == {};
    }
  }
}
