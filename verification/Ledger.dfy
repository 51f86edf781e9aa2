/** The bounded evidence ledger: three indices over one store, with deterministic eviction.

    The ghost history lists every observation accepted since the dynamic state was last
    cleared; what the ledger promises is stated against it. */
module Ledger {
  import opened Lists
  import opened Topology
  import opened Evidence

  type Observation = ForwardingObservation

  /** Canonical order: producer, then the producer's sequence, then identity. */
  datatype ObservationKey = ObservationKey(producer: nat, sequence: nat, id: nat)

  function StoreKey(o: Observation): ObservationKey {
    ObservationKey(o.producer, o.sequence, o.id)
  }

  predicate Before(a: Observation, b: Observation) {
    if a.producer != b.producer then a.producer < b.producer
    else if a.sequence != b.sequence then a.sequence < b.sequence
    else a.id < b.id
  }

  datatype LedgerLimits = LedgerLimits(maxSelectors: nat, maxObservations: nat, maxObservationsPerEdge: nat)

  datatype Status = Ok | Invalid | Exhausted | AlreadyExists | Stale

  /** The structural rules an observation must meet, and what breaking each one is called. */
  function Structure(o: Observation, limits: LedgerLimits): Status {
    if o.id == 0 || o.edge == 0 || o.from == 0 || o.to == 0 || o.domain == 0 || o.producer == 0 || o.sequence == 0 then
       Invalid
    else if o.topologyGeneration == 0 || o.forwardingGeneration == 0 then Invalid
    else if o.lease.boot == 0 || o.lease.epoch == 0 || o.lease.fabricEpoch == 0 then Invalid
    else if o.lease.validUntil < o.lease.validFrom then Invalid
    else if |o.selectors| > limits.maxSelectors then Exhausted
    else if !StrictlyIncreasing(o.selectors) then Invalid
    else if o.klass == Present && o.selectors == [] then Invalid
    else if o.klass == NotKnown && o.selectors != [] then Invalid
    else Ok
  }

  datatype Stats = Stats(accepted: nat, duplicate: nat, regressed: nat, rejected: nat, evicted: nat)

  type Store = map<ObservationKey, Observation>
  type ById = map<nat, Observation>
  type ByEdge = map<nat, seq<Observation>>

  ghost predicate Retains(store: Store, o: Observation) {
    StoreKey(o) in store && store[StoreKey(o)] == o
  }

  function Bucket(byEdge: ByEdge, edge: nat): seq<Observation> {
    if edge in byEdge then byEdge[edge] else []
  }

  predicate InOrder(bucket: seq<Observation>) {
    forall i, j :: 0 <= i < j < |bucket| ==> Before(bucket[i], bucket[j])
  }

  /** The two indices list exactly the stored observations. */
  ghost predicate StoreIsKeyed(store: Store) {
    forall k {:trigger store[k]} :: k in store ==> StoreKey(store[k]) == k
  }

  ghost predicate IdsAgree(store: Store, byId: ById) {
    && (forall id {:trigger byId[id]} :: id in byId ==> byId[id].id == id && Retains(store, byId[id]))
    && (forall o {:trigger Retains(store, o)} :: Retains(store, o) ==> o.id in byId && byId[o.id] == o)
  }

  ghost predicate EdgesAgree(store: Store, byEdge: ByEdge) {
    && (forall e, o {:trigger o in byEdge[e]} :: e in byEdge && o in byEdge[e] ==> o.edge == e && Retains(store, o))
    && (forall o {:trigger Retains(store, o)} :: Retains(store, o) ==> o in Bucket(byEdge, o.edge))
    && (forall e {:trigger InOrder(byEdge[e])} :: e in byEdge ==> InOrder(byEdge[e]))
  }

  ghost predicate BucketsBounded(byEdge: ByEdge, limits: LedgerLimits) {
    forall e :: e in byEdge ==> |byEdge[e]| <= limits.maxObservationsPerEdge
  }

  ghost predicate Climbs(history: seq<Observation>, i: nat, j: nat)
    requires i < |history| && j < |history|
  {
    KeyOf(history[i]) == KeyOf(history[j]) ==> history[i].sequence < history[j].sequence
  }

  /** Statements of one producer key are accepted in strictly increasing sequence. */
  ghost predicate SequencesClimb(history: seq<Observation>) {
    forall i, j {:trigger Climbs(history, i, j)} :: 0 <= i < j < |history| ==> Climbs(history, i, j)
  }

  ghost predicate IsUnder(high: map<ProducerKey, nat>, o: Observation) {
    KeyOf(o) in high && o.sequence <= high[KeyOf(o)]
  }

  ghost predicate IsAttained(history: seq<Observation>, k: ProducerKey, sequence: nat) {
    exists o :: o in history && KeyOf(o) == k && o.sequence == sequence
  }

  ghost predicate HighWater(high: map<ProducerKey, nat>, history: seq<Observation>) {
    && (forall o {:trigger IsUnder(high, o)} :: o in history ==> IsUnder(high, o))
    && (forall k {:trigger high[k]} :: k in high ==> IsAttained(history, k, high[k]))
  }

  ghost predicate SameGroup(a: Observation, b: Observation) {
    a.edge == b.edge && KeyOf(a) == KeyOf(b)
  }

  /** For every edge and producer key, what is retained is the newest part of what was accepted. */
  ghost predicate KeepsNewest(store: Store, history: seq<Observation>) {
    forall i, j {:trigger SameGroup(history[i], history[j])} ::
      0 <= i < j < |history| && SameGroup(history[i], history[j]) && Retains(store, history[i]) ==>
        Retains(store, history[j])
  }

  ghost predicate OnlyAccepted(store: Store, history: seq<Observation>) {
    forall o {:trigger Retains(store, o)} :: Retains(store, o) ==> o in history
  }

  ghost predicate HistoryHolds(store: Store, high: map<ProducerKey, nat>, history: seq<Observation>) {
    SequencesClimb(history) && HighWater(high, history) && KeepsNewest(store, history) && OnlyAccepted(store, history)
  }

  ghost predicate IndicesHold(store: Store, byId: ById, byEdge: ByEdge) {
    StoreIsKeyed(store) && IdsAgree(store, byId) && EdgesAgree(store, byEdge)
  }

  /** The retained observations about one edge. */
  ghost function About(byEdge: ByEdge, edge: nat): set<Observation> {
    SetOf(Bucket(byEdge, edge))
  }

  // ----- Single steps -----

  /** The first position among the first `n` that no other of them precedes. */
  function OldestAmong(bucket: seq<Observation>, n: nat): (victim: nat)
    requires 0 < n <= |bucket|
    ensures victim < n
    ensures forall i :: 0 <= i < n ==> !Before(bucket[i], bucket[victim])
  {
    if n == 1 then 0 else
      var victim := OldestAmong(bucket, n - 1);
      if Before(bucket[n - 1], bucket[victim]) then n - 1 else victim
  }

  method OldestIn(bucket: seq<Observation>) returns (victim: nat)
    requires bucket != []
    ensures victim == OldestAmong(bucket, |bucket|)
  {
    victim := 0;
    for index := 1 to |bucket|
      invariant victim == OldestAmong(bucket, index)
    {
      if Before(bucket[index], bucket[victim]) {
        victim := index;
      }
    }
  }

  function Without(bucket: seq<Observation>, victim: nat): seq<Observation>
    requires victim < |bucket|
  {
    bucket[..victim] + bucket[victim + 1..]
  }

  lemma WithoutDropsOne(bucket: seq<Observation>, victim: nat)
    requires victim < |bucket| && InOrder(bucket)
    ensures InOrder(Without(bucket, victim))
    ensures forall o :: o in Without(bucket, victim) <==> o in bucket && o != bucket[victim]
  {
    var rest := Without(bucket, victim);
    forall o | o in bucket && o != bucket[victim]
      ensures o in rest
    {
      var i :| 0 <= i < |bucket| && bucket[i] == o;
      assert rest[if i < victim then i else i - 1] == o;
    }
    forall i | 0 <= i < |rest|
      ensures rest[i] in bucket && rest[i] != bucket[victim]
    {
      assert rest[i] == bucket[if i < victim then i else i + 1];
    }
  }

  lemma RetainsAfterRemoval(store: Store, doomed: Observation, o: Observation)
    requires StoreIsKeyed(store) && Retains(store, doomed)
    ensures Retains(store - {StoreKey(doomed)}, o) <==> Retains(store, o) && o != doomed
  {
  }

  lemma EvictionKeepsIndices(store: Store, byId: ById, byEdge: ByEdge, edge: nat, victim: nat)
    requires IndicesHold(store, byId, byEdge) && edge in byEdge && victim < |byEdge[edge]|
    ensures var doomed := byEdge[edge][victim];
            IndicesHold(store - {StoreKey(doomed)}, byId - {doomed.id}, byEdge[edge := Without(byEdge[edge], victim)])
  {
    var doomed := byEdge[edge][victim];
    assert doomed in byEdge[edge];
    var store', byId', byEdge' :=
      store - {StoreKey(doomed)}, byId - {doomed.id}, byEdge[edge := Without(byEdge[edge], victim)];
    forall o
      ensures Retains(store', o) <==> Retains(store, o) && o != doomed
    {
      RetainsAfterRemoval(store, doomed, o);
    }
    WithoutDropsOne(byEdge[edge], victim);
    assert IdsAgree(store', byId');
    forall o | Retains(store', o)
      ensures o in Bucket(byEdge', o.edge)
    {
      assert o in Bucket(byEdge, o.edge);
    }
  }

  /** Taking away the oldest statement about an edge leaves the newest part of every group. */
  lemma EvictionKeepsNewest(store: Store, byId: ById, byEdge: ByEdge, high: map<ProducerKey, nat>,
                            history: seq<Observation>, edge: nat, victim: nat)
    requires IndicesHold(store, byId, byEdge) && HistoryHolds(store, high, history)
    requires edge in byEdge && victim < |byEdge[edge]|
    requires forall i :: 0 <= i < |byEdge[edge]| ==> !Before(byEdge[edge][i], byEdge[edge][victim])
    ensures HistoryHolds(store - {StoreKey(byEdge[edge][victim])}, high, history)
  {
    var doomed := byEdge[edge][victim];
    assert doomed in byEdge[edge];
    var store' := store - {StoreKey(doomed)};
    forall o
      ensures Retains(store', o) <==> Retains(store, o) && o != doomed
    {
      RetainsAfterRemoval(store, doomed, o);
    }
    forall i, j | 0 <= i < j < |history| && SameGroup(history[i], history[j]) && Retains(store', history[i])
      ensures Retains(store', history[j])
    {
      assert history[i] in Bucket(byEdge, history[i].edge);
      assert Climbs(history, i, j);
      assert history[j] == doomed ==> Before(history[i], doomed);
    }
  }

  /** An observation put in its place in an ordered bucket. */
  function Insert(bucket: seq<Observation>, o: Observation): (r: seq<Observation>)
    ensures |r| == |bucket| + 1
    ensures forall x :: x in r <==> x in bucket || x == o
  {
    if bucket == [] || Before(bucket[|bucket| - 1], o) then bucket + [o]
    else
      assert bucket == bucket[..|bucket| - 1] + [bucket[|bucket| - 1]];
      Insert(bucket[..|bucket| - 1], o) + [bucket[|bucket| - 1]]
  }

  lemma {:induction false} InsertKeepsOrder(bucket: seq<Observation>, o: Observation)
    requires InOrder(bucket) && forall x :: x in bucket ==> StoreKey(x) != StoreKey(o)
    ensures InOrder(Insert(bucket, o))
    decreases |bucket|
  {
    if bucket != [] {
      var last := |bucket| - 1;
      if !Before(bucket[last], o) {
        InsertKeepsOrder(bucket[..last], o);
        var front := Insert(bucket[..last], o);
        forall i | 0 <= i < |front|
          ensures Before(front[i], bucket[last])
        {
          assert front[i] in front;
          assert bucket[last] in bucket;
        }
      }
    }
  }

  lemma InsertionKeepsIndices(store: Store, byId: ById, byEdge: ByEdge, o: Observation)
    requires IndicesHold(store, byId, byEdge) && o.id !in byId
    ensures StoreKey(o) !in store
    ensures IndicesHold(store[StoreKey(o) := o], byId[o.id := o],
                        byEdge[o.edge := Insert(Bucket(byEdge, o.edge), o)])
  {
    assert StoreKey(o) in store ==> Retains(store, store[StoreKey(o)]);
    var store', byId', byEdge' :=
      store[StoreKey(o) := o], byId[o.id := o], byEdge[o.edge := Insert(Bucket(byEdge, o.edge), o)];
    assert forall x :: Retains(store', x) <==> Retains(store, x) || x == o;
    forall x | x in Bucket(byEdge, o.edge)
      ensures StoreKey(x) != StoreKey(o)
    {
      assert Retains(store, x);
    }
    InsertKeepsOrder(Bucket(byEdge, o.edge), o);
    assert IdsAgree(store', byId');
    forall x | Retains(store', x)
      ensures x in Bucket(byEdge', x.edge)
    {
      assert x != o ==> x in Bucket(byEdge, x.edge);
    }
  }

  lemma InsertionExtendsHistory(store: Store, high: map<ProducerKey, nat>, history: seq<Observation>, o: Observation)
    requires HistoryHolds(store, high, history) && StoreKey(o) !in store
    requires KeyOf(o) in high ==> high[KeyOf(o)] < o.sequence
    ensures HistoryHolds(store[StoreKey(o) := o], high[KeyOf(o) := o.sequence], history + [o])
  {
    var store', history' := store[StoreKey(o) := o], history + [o];
    assert forall x :: Retains(store', x) <==> Retains(store, x) || x == o;
    HighWaterStep(high, history, o);
    forall i, j | 0 <= i < j < |history'|
      ensures Climbs(history', i, j)
    {
      if j < |history| {
        assert Climbs(history, i, j);
      } else {
        assert IsUnder(high, history[i]);
      }
    }
    forall i, j | 0 <= i < j < |history'| && SameGroup(history'[i], history'[j]) && Retains(store', history'[i])
      ensures Retains(store', history'[j])
    {
      if j < |history| {
        assert IsUnder(high, history[i]);
        assert SameGroup(history[i], history[j]);
      }
    }
  }

  lemma HighWaterStep(high: map<ProducerKey, nat>, history: seq<Observation>, o: Observation)
    requires HighWater(high, history)
    requires KeyOf(o) in high ==> high[KeyOf(o)] < o.sequence
    ensures HighWater(high[KeyOf(o) := o.sequence], history + [o])
  {
    var high', history' := high[KeyOf(o) := o.sequence], history + [o];
    assert o in history';
    forall x | x in history'
      ensures IsUnder(high', x)
    {
      assert x != o ==> IsUnder(high, x);
    }
    forall k | k in high'
      ensures IsAttained(history', k, high'[k])
    {
      if k != KeyOf(o) {
        assert IsAttained(history, k, high[k]);
        var x :| x in history && KeyOf(x) == k && x.sequence == high[k];
        assert x in history';
      }
    }
  }

  /** Retained observations about other edges are left alone. */
  ghost predicate OthersStay(was: Store, store: Store, edge: nat) {
    forall x {:trigger Retains(was, x)} :: Retains(was, x) && x.edge != edge ==> Retains(store, x)
  }

  lemma OneFewer(store: Store, byEdge: ByEdge, edge: nat, victim: nat)
    requires StoreIsKeyed(store) && EdgesAgree(store, byEdge) && edge in byEdge && victim < |byEdge[edge]|
    ensures var doomed := byEdge[edge][victim];
            && |store - {StoreKey(doomed)}| == |store| - 1
            && OthersStay(store, store - {StoreKey(doomed)}, edge)
  {
    var doomed := byEdge[edge][victim];
    assert doomed in byEdge[edge];
    var store' := store - {StoreKey(doomed)};
    assert store'.Keys == store.Keys - {StoreKey(doomed)};
    assert |store.Keys| == |store| && |store'.Keys| == |store'|;
  }

  // ----- The ledger as a function of what is submitted -----

  datatype LedgerState = LedgerState(store: Store, byId: ById, byEdge: ByEdge, high: map<ProducerKey, nat>,
                                     stats: Stats)

  const EMPTY: LedgerState := LedgerState(map[], map[], map[], map[], Stats(0, 0, 0, 0, 0))

  function Evict(s: LedgerState, edge: nat): LedgerState
    requires edge in s.byEdge && s.byEdge[edge] != []
  {
    var victim := OldestAmong(s.byEdge[edge], |s.byEdge[edge]|);
    var doomed := s.byEdge[edge][victim];
    s.(store := s.store - {StoreKey(doomed)}, byId := s.byId - {doomed.id},
       byEdge := s.byEdge[edge := Without(s.byEdge[edge], victim)],
       stats := s.stats.(evicted := s.stats.evicted + 1))
  }

  function WithRoom(limits: LedgerLimits, s: LedgerState, edge: nat): LedgerState
    requires limits.maxObservationsPerEdge > 0
    decreases |Bucket(s.byEdge, edge)|
  {
    if |Bucket(s.byEdge, edge)| < limits.maxObservationsPerEdge then s else WithRoom(limits, Evict(s, edge), edge)
  }

  function Stored(s: LedgerState, o: Observation): LedgerState {
    s.(store := s.store[StoreKey(o) := o], byId := s.byId[o.id := o],
       byEdge := s.byEdge[o.edge := Insert(Bucket(s.byEdge, o.edge), o)],
       high := s.high[KeyOf(o) := o.sequence],
       stats := s.stats.(accepted := s.stats.accepted + 1))
  }

  /** What submitting `o` answers. */
  function Answer(limits: LedgerLimits, s: LedgerState, o: Observation): Status {
    if Structure(o, limits) != Ok then Structure(o, limits)
    else if o.id in s.byId then AlreadyExists
    else if KeyOf(o) in s.high && s.high[KeyOf(o)] >= o.sequence then Stale
    else if |s.store| >= limits.maxObservations then Exhausted
    else Ok
  }

  function Submitted(limits: LedgerLimits, s: LedgerState, o: Observation): LedgerState
    requires limits.maxObservationsPerEdge > 0
  {
    match Answer(limits, s, o)
    case Ok => Stored(WithRoom(limits, s, o.edge), o)
    case AlreadyExists => s.(stats := s.stats.(duplicate := s.stats.duplicate + 1))
    case Stale => s.(stats := s.stats.(regressed := s.stats.regressed + 1))
    case _ => s.(stats := s.stats.(rejected := s.stats.rejected + 1))
  }

  function Cleared(s: LedgerState): LedgerState {
    EMPTY.(stats := s.stats)
  }

  class EvidenceLedger {
    const limits: LedgerLimits
    var observations: Store
    var byId: ById
    var byEdge: ByEdge
    var producerHighSequence: map<ProducerKey, nat>
    var stats: Stats

    ghost predicate Valid() {
      limits.maxObservationsPerEdge > 0
    }

    ghost function State(): LedgerState
      reads this
    {
      LedgerState(observations, byId, byEdge, producerHighSequence, stats)
    }

    constructor (limits: LedgerLimits)
      requires limits.maxObservationsPerEdge > 0
      ensures Valid() && this.limits == limits && State() == EMPTY
    {
      this.limits := limits;
      observations, byId, byEdge, producerHighSequence := map[], map[], map[], map[];
      stats := Stats(0, 0, 0, 0, 0);
    }

    /** Validates and stores an observation, evicting the oldest statements about its edge if need be. */
    method Submit(o: Observation) returns (status: Status)
      requires Valid()
      modifies this
      ensures status == old(Answer(limits, State(), o))
      ensures State() == Submitted(limits, old(State()), o)
    {
      status := Structure(o, limits);
      if status != Ok {
        stats := stats.(rejected := stats.rejected + 1);
        return;
      }
      if o.id in byId {
        stats := stats.(duplicate := stats.duplicate + 1);
        return AlreadyExists;
      }
      if KeyOf(o) in producerHighSequence && producerHighSequence[KeyOf(o)] >= o.sequence {
        stats := stats.(regressed := stats.regressed + 1);
        return Stale;
      }
      if |observations| >= limits.maxObservations {
        stats := stats.(rejected := stats.rejected + 1);
        return Exhausted;
      }
      MakeRoom(o.edge);
      observations := observations[StoreKey(o) := o];
      byId := byId[o.id := o];
      byEdge := byEdge[o.edge := Insert(Bucket(byEdge, o.edge), o)];
      producerHighSequence := producerHighSequence[KeyOf(o) := o.sequence];
      stats := stats.(accepted := stats.accepted + 1);
    }

    /** Evicts the oldest statements about an edge until one more fits. */
    method MakeRoom(edge: nat)
      requires Valid()
      modifies this`observations, this`byId, this`byEdge, this`stats
      ensures State() == WithRoom(limits, old(State()), edge)
    {
      while |Bucket(byEdge, edge)| >= limits.maxObservationsPerEdge
        invariant WithRoom(limits, State(), edge) == WithRoom(limits, old(State()), edge)
        decreases |Bucket(byEdge, edge)|
      {
        EvictOldest(edge);
      }
    }

    method EvictOldest(edge: nat)
      requires edge in byEdge && byEdge[edge] != []
      modifies this`observations, this`byId, this`byEdge, this`stats
      ensures State() == Evict(old(State()), edge)
    {
      var bucket := byEdge[edge];
      var victim := OldestIn(bucket);
      var doomed := bucket[victim];
      byId := byId - {doomed.id};
      observations := observations - {StoreKey(doomed)};
      byEdge := byEdge[edge := Without(bucket, victim)];
      stats := stats.(evicted := stats.evicted + 1);
    }

    /** Drops every observation; nothing accepted before is evidence afterwards. */
    method ClearDynamicState()
      modifies this
      ensures State() == Cleared(old(State()))
    {
      observations, byId, byEdge, producerHighSequence := map[], map[], map[], map[];
    }

    /** Resolves one hop from what is retained about its edge. */
    method Resolve(t: TopologyDefinition, edgeIndex: nat, current: FenceVector, now: nat) returns (record: HopRecord)
      requires edgeIndex < |t.edges|
      ensures record == RecordOf(t, edgeIndex, About(byEdge, t.edges[edgeIndex].id), current, now)
    {
      record := ResolveHop(t, edgeIndex, Bucket(byEdge, t.edges[edgeIndex].id), current, now);
    }

    /** Resolves every hop in canonical edge order. */
    method ResolveAll(t: TopologyDefinition, current: FenceVector, now: nat) returns (records: seq<HopRecord>)
      ensures records == HopTable(t, byEdge, current, now)
    {
      records := [];
      for i := 0 to |t.edges|
        invariant |records| == i
        invariant forall k :: 0 <= k < i ==> records[k] == HopTable(t, byEdge, current, now)[k]
      {
        var record := Resolve(t, i, current, now);
        records := records + [record];
      }
    }
  }

  /** The resolution of every hop, in canonical edge order. */
  ghost function HopTable(t: TopologyDefinition, byEdge: ByEdge, current: FenceVector, now: nat): seq<HopRecord> {
    seq(|t.edges|, i requires 0 <= i < |t.edges| => RecordOf(t, i, About(byEdge, t.edges[i].id), current, now))
  }

  // ----- What every run keeps -----

  /** What holds of a reachable ledger that accepted `history` since it was last cleared. */
  ghost predicate StateHolds(limits: LedgerLimits, s: LedgerState, history: seq<Observation>) {
    && IndicesHold(s.store, s.byId, s.byEdge) && BucketsBounded(s.byEdge, limits)
    && |s.store| <= limits.maxObservations
    && HistoryHolds(s.store, s.high, history)
  }

  lemma EvictionKeepsState(limits: LedgerLimits, s: LedgerState, history: seq<Observation>, edge: nat)
    requires StateHolds(limits, s, history) && edge in s.byEdge && s.byEdge[edge] != []
    ensures StateHolds(limits, Evict(s, edge), history)
    ensures |Evict(s, edge).store| == |s.store| - 1
    ensures OthersStay(s.store, Evict(s, edge).store, edge)
  {
    var victim := OldestAmong(s.byEdge[edge], |s.byEdge[edge]|);
    EvictionKeepsIndices(s.store, s.byId, s.byEdge, edge, victim);
    EvictionKeepsNewest(s.store, s.byId, s.byEdge, s.high, history, edge, victim);
    OneFewer(s.store, s.byEdge, edge, victim);
  }

  /** What making room takes from a ledger, and what it leaves. */
  ghost predicate RoomMade(limits: LedgerLimits, s: LedgerState, r: LedgerState, edge: nat) {
    && |Bucket(r.byEdge, edge)| < limits.maxObservationsPerEdge
    && r.byId.Keys <= s.byId.Keys && r.high == s.high
    && |r.store| + r.stats.evicted == |s.store| + s.stats.evicted
    && r.stats.accepted == s.stats.accepted && r.stats.evicted >= s.stats.evicted
    && OthersStay(s.store, r.store, edge)
  }

  lemma {:induction false} MakingRoomKeepsState(limits: LedgerLimits, s: LedgerState, history: seq<Observation>,
                                                edge: nat)
    requires limits.maxObservationsPerEdge > 0 && StateHolds(limits, s, history)
    ensures StateHolds(limits, WithRoom(limits, s, edge), history)
    ensures RoomMade(limits, s, WithRoom(limits, s, edge), edge)
    decreases |Bucket(s.byEdge, edge)|
  {
    if |Bucket(s.byEdge, edge)| >= limits.maxObservationsPerEdge {
      EvictionKeepsState(limits, s, history, edge);
      MakingRoomKeepsState(limits, Evict(s, edge), history, edge);
    }
  }

  lemma StoringKeepsState(limits: LedgerLimits, s: LedgerState, history: seq<Observation>, o: Observation)
    requires StateHolds(limits, s, history)
    requires o.id !in s.byId && |s.store| < limits.maxObservations
    requires |Bucket(s.byEdge, o.edge)| < limits.maxObservationsPerEdge
    requires KeyOf(o) in s.high ==> s.high[KeyOf(o)] < o.sequence
    ensures StateHolds(limits, Stored(s, o), history + [o])
    ensures |Stored(s, o).store| == |s.store| + 1
    ensures Retains(Stored(s, o).store, o) && OthersStay(s.store, Stored(s, o).store, o.edge)
  {
    InsertionKeepsIndices(s.store, s.byId, s.byEdge, o);
    InsertionExtendsHistory(s.store, s.high, history, o);
  }

  /** Every submission keeps the ledger consistent, bounded and newest-first; an accepted one is retained, adds
      one to the size less what it evicts, and touches no other edge. */
  lemma SubmissionKeepsState(limits: LedgerLimits, s: LedgerState, history: seq<Observation>, o: Observation)
    requires limits.maxObservationsPerEdge > 0 && StateHolds(limits, s, history)
    ensures var r := Submitted(limits, s, o);
            if Answer(limits, s, o) == Ok then
              && StateHolds(limits, r, history + [o])
              && Retains(r.store, o) && OthersStay(s.store, r.store, o.edge)
              && |r.store| + r.stats.evicted == |s.store| + s.stats.evicted + 1
              && r.stats.evicted >= s.stats.evicted
            else
              StateHolds(limits, r, history) && r.(stats := s.stats) == s && r.stats.evicted == s.stats.evicted
  {
    if Answer(limits, s, o) == Ok {
      var room := WithRoom(limits, s, o.edge);
      MakingRoomKeepsState(limits, s, history, o.edge);
      StoringKeepsState(limits, room, history, o);
      forall x | Retains(s.store, x) && x.edge != o.edge
        ensures Retains(Stored(room, o).store, x)
      {
        assert Retains(room.store, x);
      }
    }
  }

  datatype Operation = Submit(o: Observation) | Clear

  function Run(limits: LedgerLimits, ops: seq<Operation>): LedgerState
    requires limits.maxObservationsPerEdge > 0
  {
    if ops == [] then EMPTY else
      var s := Run(limits, ops[..|ops| - 1]);
      match ops[|ops| - 1]
      case Submit(o) => Submitted(limits, s, o)
      case Clear => Cleared(s)
  }

  /** The observations a run accepted since it last cleared the ledger, in order. */
  function Accepted(limits: LedgerLimits, ops: seq<Operation>): seq<Observation>
    requires limits.maxObservationsPerEdge > 0
  {
    if ops == [] then [] else
      var front := ops[..|ops| - 1];
      match ops[|ops| - 1]
      case Submit(o) => if Answer(limits, Run(limits, front), o) == Ok then Accepted(limits, front) + [o]
        else Accepted(limits, front)
      case Clear => []
  }

  /** The eviction count when the run last cleared the ledger. */
  function EvictedAtClear(limits: LedgerLimits, ops: seq<Operation>): nat
    requires limits.maxObservationsPerEdge > 0
  {
    if ops == [] then 0
    else if ops[|ops| - 1].Clear? then Run(limits, ops).stats.evicted
    else EvictedAtClear(limits, ops[..|ops| - 1])
  }

  /** Over every run: the indices agree, both bounds hold, each producer's retained statements about an edge are
      the newest part of what was accepted, and the size is what was accepted less what was evicted. */
  lemma {:induction false} EveryRunHolds(limits: LedgerLimits, ops: seq<Operation>)
    requires limits.maxObservationsPerEdge > 0
    ensures var s := Run(limits, ops);
            && StateHolds(limits, s, Accepted(limits, ops))
            && s.stats.evicted >= EvictedAtClear(limits, ops)
            && |s.store| == |Accepted(limits, ops)| - (s.stats.evicted - EvictedAtClear(limits, ops))
    decreases |ops|
  {
    if ops != [] {
      var front := ops[..|ops| - 1];
      EveryRunHolds(limits, front);
      match ops[|ops| - 1]
      case Submit(o) => SubmissionKeepsState(limits, Run(limits, front), Accepted(limits, front), o);
      case Clear =>
    }
  }

  // ----- What the ledger lets a reader conclude about the whole run -----

  /** For retained observations, being superseded is the same whether judged by what is retained or by
      everything ever accepted: eviction never revives a statement its producer replaced. */
  lemma EvictionNeverRevives(store: Store, byId: ById, byEdge: ByEdge, high: map<ProducerKey, nat>,
                             history: seq<Observation>, edge: nat, o: Observation)
    requires IndicesHold(store, byId, byEdge) && HistoryHolds(store, high, history)
    requires o in About(byEdge, edge)
    ensures IsSuperseded(About(byEdge, edge), o)
       <==> exists p :: p in history && p.edge == edge && KeyOf(p) == KeyOf(o) && p.sequence > o.sequence
  {
    assert o in Bucket(byEdge, edge) && Retains(store, o);
    if p :| p in history && p.edge == edge && KeyOf(p) == KeyOf(o) && p.sequence > o.sequence {
      LaterIsRetained(store, high, history, o, p);
      assert p in Bucket(byEdge, edge);
      assert p in About(byEdge, edge);
    }
    if p :| p in About(byEdge, edge) && KeyOf(p) == KeyOf(o) && p.sequence > o.sequence {
      assert p in Bucket(byEdge, edge) && Retains(store, p);
    }
  }

  lemma LaterIsRetained(store: Store, high: map<ProducerKey, nat>, history: seq<Observation>, o: Observation,
                        p: Observation)
    requires HistoryHolds(store, high, history) && Retains(store, o)
    requires p in history && SameGroup(o, p) && o.sequence < p.sequence
    ensures Retains(store, p)
  {
    var i :| 0 <= i < |history| && history[i] == o;
    var j :| 0 <= j < |history| && history[j] == p;
    SequencesOrder(history, i, j);
    assert SameGroup(history[i], history[j]);
  }

  lemma SequencesOrder(history: seq<Observation>, i: nat, j: nat)
    requires SequencesClimb(history) && i < |history| && j < |history|
    requires KeyOf(history[i]) == KeyOf(history[j])
    ensures i < j <==> history[i].sequence < history[j].sequence
  {
    assert i < j ==> Climbs(history, i, j);
    assert j < i ==> Climbs(history, j, i);
  }

  /** What the ledger retains about an edge never has one producer key speak twice under one sequence. */
  lemma RetainedSequencesUnique(store: Store, byId: ById, byEdge: ByEdge, high: map<ProducerKey, nat>,
                                history: seq<Observation>, edge: nat)
    requires IndicesHold(store, byId, byEdge) && HistoryHolds(store, high, history)
    ensures SequencesUnique(About(byEdge, edge))
  {
    forall o, p | o in About(byEdge, edge) && p in About(byEdge, edge) && KeyOf(o) == KeyOf(p)
      && o.sequence == p.sequence
      ensures o == p
    {
      assert o in Bucket(byEdge, edge) && p in Bucket(byEdge, edge);
      assert Retains(store, o) && Retains(store, p);
      var i :| 0 <= i < |history| && history[i] == o;
      var j :| 0 <= j < |history| && history[j] == p;
      SequencesOrder(history, i, j);
      SequencesOrder(history, j, i);
    }
  }

  /** A hop proven open by the ledger rests on a Present that nothing accepted since has superseded. */
  lemma ProvenOpenIsCurrent(store: Store, byId: ById, byEdge: ByEdge, high: map<ProducerKey, nat>,
                            history: seq<Observation>, t: TopologyDefinition, edgeIndex: nat, current: FenceVector,
                              now: nat)
    returns (o: Observation)
    requires IndicesHold(store, byId, byEdge) && HistoryHolds(store, high, history)
    requires edgeIndex < |t.edges|
    requires RecordOf(t, edgeIndex, About(byEdge, t.edges[edgeIndex].id), current, now).resolution == ProvenOpen
    ensures o in history && o.edge == t.edges[edgeIndex].id && o.klass == Present && o.lease.IsLive(now)
    ensures o.lease.boot == current.boot && o.lease.epoch == current.epoch && o.lease.fabricEpoch == current.fabricEpoch
    ensures o.topologyGeneration == current.topology && o.forwardingGeneration == current.forwarding
    ensures forall p :: p in history && p.edge == o.edge && KeyOf(p) == KeyOf(o) ==> p.sequence <= o.sequence
  {
    var edge := t.edges[edgeIndex].id;
    var obs := About(byEdge, edge);
    ProvenOpenMeans(t, edgeIndex, obs, current, now);
    assert IsProvenOpenBy(t, t.edges[edgeIndex], obs, current, now);
    var x, s :| IsExact(obs, x, current, now) && x.klass == Present && s in x.selectors
                && s in t.edges[edgeIndex].admittedSelectors;
    o := x;
    assert o in Bucket(byEdge, edge) && Retains(store, o);
    EvictionNeverRevives(store, byId, byEdge, high, history, edge, o);
  }

  /** In every reachable ledger a conflicted hop has two different producers in disagreement. */
  lemma LedgerConflictNeedsTwoProducers(store: Store, byId: ById, byEdge: ByEdge, high: map<ProducerKey, nat>,
                                        history: seq<Observation>, t: TopologyDefinition, edgeIndex: nat,
                                        current: FenceVector, now: nat)
    returns (o: Observation, p: Observation)
    requires IndicesHold(store, byId, byEdge) && HistoryHolds(store, high, history)
    requires edgeIndex < |t.edges|
    requires RecordOf(t, edgeIndex, About(byEdge, t.edges[edgeIndex].id), current, now).resolution == Conflicted
    ensures o in history && p in history && o.klass == Present && p.klass == Absent
    ensures o.edge == p.edge == t.edges[edgeIndex].id && o.producer != p.producer
  {
    var obs := About(byEdge, t.edges[edgeIndex].id);
    RetainedSequencesUnique(store, byId, byEdge, high, history, t.edges[edgeIndex].id);
    o, p := ConflictNeedsTwoProducers(t, edgeIndex, obs, current, now);
    assert o in Bucket(byEdge, t.edges[edgeIndex].id) && p in Bucket(byEdge, t.edges[edgeIndex].id);
    assert Retains(store, o) && Retains(store, p);
  }
}
