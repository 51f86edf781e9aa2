/** What a submission does to a reachable ledger, said of what it retains and of everything it accepted: when it is
    accepted and why it is refused, what makes room for it, and what the counters come to. */
module LedgerChanges {
  import opened Lists
  import opened Topology
  import opened Evidence
  import opened Ledger

  // ----- Answers -----

  /** The rules every statement has to meet. */
  ghost predicate IsWellFormed(o: Observation, limits: LedgerLimits) {
    && 0 !in {o.id, o.edge, o.from, o.to, o.domain, o.producer, o.sequence}
    && 0 !in {o.topologyGeneration, o.forwardingGeneration, o.lease.boot, o.lease.epoch, o.lease.fabricEpoch}
    && o.lease.validFrom <= o.lease.validUntil
    && |o.selectors| <= limits.maxSelectors && StrictlyIncreasing(o.selectors)
    && (o.klass == Present ==> o.selectors != []) && (o.klass == NotKnown ==> o.selectors == [])
  }

  /** Some statement retained has the identity. */
  ghost predicate IsKnown(store: Store, id: nat) {
    exists x :: Retains(store, x) && x.id == id
  }

  /** Its producer has already made a statement as late, under the same boot and epoch. */
  ghost predicate IsLate(history: seq<Observation>, o: Observation) {
    exists p :: p in history && p.producer == o.producer && p.lease.boot == o.lease.boot
                && p.lease.epoch == o.lease.epoch && p.sequence >= o.sequence
  }

  lemma StructureDecides(o: Observation, limits: LedgerLimits)
    ensures Structure(o, limits) in {Ok, Invalid, Exhausted}
            && (Structure(o, limits) == Ok <==> IsWellFormed(o, limits))
  {
  }

  lemma KnownDecides(limits: LedgerLimits, s: LedgerState, history: seq<Observation>, id: nat)
    requires StateHolds(limits, s, history)
    ensures id in s.byId <==> IsKnown(s.store, id)
  {
    if id in s.byId {
      assert Retains(s.store, s.byId[id]);
    }
  }

  lemma LateDecides(limits: LedgerLimits, s: LedgerState, history: seq<Observation>, o: Observation)
    requires StateHolds(limits, s, history)
    ensures (KeyOf(o) in s.high && s.high[KeyOf(o)] >= o.sequence) <==> IsLate(history, o)
  {
    if KeyOf(o) in s.high && s.high[KeyOf(o)] >= o.sequence {
      assert IsAttained(history, KeyOf(o), s.high[KeyOf(o)]);
      var p :| p in history && KeyOf(p) == KeyOf(o) && p.sequence == s.high[KeyOf(o)];
      assert p.producer == o.producer && p.lease.boot == o.lease.boot && p.lease.epoch == o.lease.epoch;
    }
    if p :| p in history && p.producer == o.producer && p.lease.boot == o.lease.boot && p.lease.epoch == o.lease.epoch
            && p.sequence >= o.sequence {
      assert IsUnder(s.high, p) && KeyOf(p) == KeyOf(o);
    }
  }

  /** What a submission is answered: a statement is accepted exactly when it is well formed, its identity is not
      retained, it is later than everything its producer has said, and there is room; and of the reasons to refuse it,
      the first in this order is given. */
  lemma AnswerDecides(limits: LedgerLimits, s: LedgerState, history: seq<Observation>, o: Observation)
    requires StateHolds(limits, s, history)
    ensures var r, fits := Answer(limits, s, o), IsWellFormed(o, limits);
            && (r == AlreadyExists <==> fits && IsKnown(s.store, o.id))
            && (r == Stale <==> fits && !IsKnown(s.store, o.id) && IsLate(history, o))
            && (fits && r == Exhausted <==>
                fits && !IsKnown(s.store, o.id) && !IsLate(history, o) && |s.store| >= limits.maxObservations)
            && (r == Ok <==>
                fits && !IsKnown(s.store, o.id) && !IsLate(history, o) && |s.store| < limits.maxObservations)
            && (!fits ==> r in {Invalid, Exhausted})
  {
    StructureDecides(o, limits);
    KnownDecides(limits, s, history, o.id);
    LateDecides(limits, s, history, o);
  }

  // ----- What makes room -----

  /** Of the statements about the edge, the one of the least producer, of those the earliest, and of those the one of
      the least identity. */
  ghost predicate IsLowest(store: Store, edge: nat, x: Observation) {
    && Retains(store, x) && x.edge == edge
    && forall y :: Retains(store, y) && y.edge == edge && y != x ==>
         || x.producer < y.producer
         || (x.producer == y.producer && x.sequence < y.sequence)
         || (x.producer == y.producer && x.sequence == y.sequence && x.id < y.id)
  }

  /** Taken away where the statements about the edge were as many as there may be. */
  ghost predicate MakesWay(limits: LedgerLimits, s: LedgerState, edge: nat, x: Observation) {
    |Bucket(s.byEdge, edge)| >= limits.maxObservationsPerEdge && IsLowest(s.store, edge, x)
  }

  lemma FirstIsLowest(limits: LedgerLimits, s: LedgerState, history: seq<Observation>, edge: nat, victim: nat)
    requires StateHolds(limits, s, history) && edge in s.byEdge && victim < |s.byEdge[edge]|
    requires forall i :: 0 <= i < |s.byEdge[edge]| ==> !Before(s.byEdge[edge][i], s.byEdge[edge][victim])
    ensures forall x :: IsLowest(s.store, edge, x) <==> x == s.byEdge[edge][victim]
  {
    var bucket := s.byEdge[edge];
    var lowest := bucket[victim];
    assert lowest in bucket && Retains(s.store, lowest);
    forall y | Retains(s.store, y) && y.edge == edge && y != lowest
      ensures Before(lowest, y)
    {
      assert y in Bucket(s.byEdge, edge);
      var i :| 0 <= i < |bucket| && bucket[i] == y;
      assert InOrder(bucket) && !Before(bucket[i], bucket[victim]);
      assert Before(bucket[victim], bucket[i]);
    }
    assert IsLowest(s.store, edge, lowest);
  }

  lemma EvictionTakesLowest(limits: LedgerLimits, s: LedgerState, history: seq<Observation>, edge: nat)
    requires StateHolds(limits, s, history) && edge in s.byEdge && s.byEdge[edge] != []
    ensures forall x :: Retains(Evict(s, edge).store, x) <==> Retains(s.store, x) && !IsLowest(s.store, edge, x)
    ensures |Bucket(Evict(s, edge).byEdge, edge)| == |Bucket(s.byEdge, edge)| - 1
  {
    var bucket := s.byEdge[edge];
    var victim := OldestAmong(bucket, |bucket|);
    FirstIsLowest(limits, s, history, edge, victim);
    assert bucket[victim] in bucket && Retains(s.store, bucket[victim]);
    forall x
      ensures Retains(Evict(s, edge).store, x) <==> Retains(s.store, x) && x != bucket[victim]
    {
      RetainsAfterRemoval(s.store, bucket[victim], x);
    }
  }

  /** Room is made by one eviction at most. */
  lemma RoomIsOneEviction(limits: LedgerLimits, s: LedgerState, history: seq<Observation>, edge: nat)
    requires limits.maxObservationsPerEdge > 0 && StateHolds(limits, s, history)
    ensures WithRoom(limits, s, edge).stats.evicted
            == s.stats.evicted + if |Bucket(s.byEdge, edge)| >= limits.maxObservationsPerEdge then 1 else 0
    ensures forall x :: Retains(WithRoom(limits, s, edge).store, x) <==>
                        Retains(s.store, x) && !MakesWay(limits, s, edge, x)
  {
    if |Bucket(s.byEdge, edge)| >= limits.maxObservationsPerEdge {
      EvictionTakesLowest(limits, s, history, edge);
      assert |s.byEdge[edge]| <= limits.maxObservationsPerEdge;
      assert WithRoom(limits, Evict(s, edge), edge) == Evict(s, edge);
    }
  }

  /** What is retained after a statement is accepted: it, and all that was, but for the lowest statement about its edge
      where there was no room beside it. */
  lemma AcceptedChanges(limits: LedgerLimits, s: LedgerState, history: seq<Observation>, o: Observation)
    requires limits.maxObservationsPerEdge > 0 && StateHolds(limits, s, history) && Answer(limits, s, o) == Ok
    ensures var r := Submitted(limits, s, o);
            && (forall x :: Retains(r.store, x) <==> x == o || (Retains(s.store, x) && !MakesWay(limits, s, o.edge, x)))
            && r.stats.evicted
               == s.stats.evicted + if |Bucket(s.byEdge, o.edge)| >= limits.maxObservationsPerEdge then 1 else 0
  {
    RoomIsOneEviction(limits, s, history, o.edge);
    MakingRoomKeepsState(limits, s, history, o.edge);
    NewIsApart(limits, WithRoom(limits, s, o.edge), history, o);
  }

  lemma NewIsApart(limits: LedgerLimits, s: LedgerState, history: seq<Observation>, o: Observation)
    requires StateHolds(limits, s, history) && o.id !in s.byId
    ensures forall x :: Retains(Stored(s, o).store, x) <==> x == o || Retains(s.store, x)
  {
    forall x | Retains(s.store, x)
      ensures StoreKey(x) != StoreKey(o)
    {
      assert x.id in s.byId;
    }
  }

  // ----- Counters -----

  /** What the submissions of a run were answered. */
  ghost function Answers(limits: LedgerLimits, ops: seq<Operation>): multiset<Status>
    requires limits.maxObservationsPerEdge > 0
  {
    if ops == [] then multiset{} else
      var front := ops[..|ops| - 1];
      match ops[|ops| - 1]
      case Submit(o) => Answers(limits, front) + multiset{Answer(limits, Run(limits, front), o)}
      case Clear => Answers(limits, front)
  }

  /** The counter of the answer goes up by one, and no other but that of evictions. */
  lemma OneMoreAnswer(limits: LedgerLimits, s: LedgerState, o: Observation)
    requires limits.maxObservationsPerEdge > 0
    ensures var c, r, a := s.stats, Submitted(limits, s, o).stats, Answer(limits, s, o);
            && r.accepted == c.accepted + (if a == Ok then 1 else 0)
            && r.duplicate == c.duplicate + (if a == AlreadyExists then 1 else 0)
            && r.regressed == c.regressed + (if a == Stale then 1 else 0)
            && r.rejected == c.rejected + (if a in {Invalid, Exhausted} then 1 else 0)
  {
    RoomCountsEvicted(limits, s, o.edge);
  }

  /** Over every run, cleared or not, the counters are the numbers of answers. */
  lemma {:induction false} CountersAreAnswers(limits: LedgerLimits, ops: seq<Operation>)
    requires limits.maxObservationsPerEdge > 0
    ensures var c, n := Run(limits, ops).stats, Answers(limits, ops);
            && c.accepted == n[Ok] && c.duplicate == n[AlreadyExists] && c.regressed == n[Stale]
            && c.rejected == n[Invalid] + n[Exhausted]
    decreases |ops|
  {
    if ops != [] {
      CountersAreAnswers(limits, ops[..|ops| - 1]);
      if ops[|ops| - 1].Submit? {
        OneMoreAnswer(limits, Run(limits, ops[..|ops| - 1]), ops[|ops| - 1].o);
      }
    }
  }

  lemma {:induction false} RoomCountsEvicted(limits: LedgerLimits, s: LedgerState, edge: nat)
    requires limits.maxObservationsPerEdge > 0
    ensures var r := WithRoom(limits, s, edge).stats; r == s.stats.(evicted := r.evicted)
    decreases |Bucket(s.byEdge, edge)|
  {
    if |Bucket(s.byEdge, edge)| >= limits.maxObservationsPerEdge {
      RoomCountsEvicted(limits, Evict(s, edge), edge);
    }
  }
}
