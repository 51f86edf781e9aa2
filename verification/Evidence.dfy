/** Forwarding observations and the resolution of one hop from the observations about it. */
module Evidence {
  import opened Lists
  import opened Topology

  datatype FenceVector = FenceVector(
    topology: nat, forwarding: nat, policy: nat, fabricEpoch: nat, epoch: nat, boot: nat)

  predicate FenceIsZero(f: FenceVector) {
    f == FenceVector(0, 0, 0, 0, 0, 0)
  }

  datatype EvidenceLease = EvidenceLease(boot: nat, epoch: nat, fabricEpoch: nat, validFrom: nat, validUntil: nat) {
    predicate IsLive(now: nat) {
      validFrom <= now <= validUntil
    }
  }

  datatype EvidenceClass = Present | Absent | NotKnown

  datatype ForwardingObservation = ForwardingObservation(
    id: nat, edge: nat, from: nat, to: nat, domain: nat,
    klass: EvidenceClass, selectors: seq<nat>,
    topologyGeneration: nat, forwardingGeneration: nat,
    producer: nat, sequence: nat, lease: EvidenceLease)

  /** Statements supersede each other within one producer, boot and coordinator epoch. */
  datatype ProducerKey = ProducerKey(producer: nat, boot: nat, epoch: nat)

  function KeyOf(o: ForwardingObservation): ProducerKey {
    ProducerKey(o.producer, o.lease.boot, o.lease.epoch)
  }

  datatype EvidenceBinding = Exact | EpochFenced | GenerationMismatch | LeaseExpired | Superseded | NoEvidence {
    /** Smaller is reported first. */
    function Priority(): nat {
      match this
      case Exact => 0
      case EpochFenced => 1
      case GenerationMismatch => 2
      case LeaseExpired => 3
      case Superseded => 4
      case NoEvidence => 5
    }
  }

  datatype HopResolution = ProvenOpen | ProvenClosed | UnprovenOpen | Unproven | Conflicted | Unsupported

  datatype HopRecord = HopRecord(
    edgeIndex: nat, edge: nat, from: nat, to: nat, domain: nat,
    resolution: HopResolution, binding: EvidenceBinding, effectiveSelectors: seq<nat>)

  // ----- The meaning of a resolution, on the set of observations -----

  ghost predicate IsSuperseded(obs: set<ForwardingObservation>, o: ForwardingObservation) {
    exists p :: p in obs && KeyOf(p) == KeyOf(o) && p.sequence > o.sequence
  }

  /** How an observation bears on the question asked at `current` and `now`. */
  ghost function BindingOf(obs: set<ForwardingObservation>, o: ForwardingObservation, current: FenceVector,
                           now: nat): EvidenceBinding {
    if o.lease.boot != current.boot || o.lease.epoch != current.epoch || o.lease.fabricEpoch != current.fabricEpoch then
       EpochFenced
    else if o.topologyGeneration != current.topology || o.forwardingGeneration != current.forwarding then
      GenerationMismatch
    else if !o.lease.IsLive(now) then LeaseExpired
    else if IsSuperseded(obs, o) then Superseded
    else Exact
  }

  /** Live, bound to the current fence, and not superseded by its own producer. */
  ghost predicate IsExact(obs: set<ForwardingObservation>, o: ForwardingObservation, current: FenceVector, now: nat) {
    && o in obs
    && o.lease.boot == current.boot && o.lease.epoch == current.epoch && o.lease.fabricEpoch == current.fabricEpoch
    && o.topologyGeneration == current.topology && o.forwardingGeneration == current.forwarding
    && o.lease.IsLive(now)
    && !IsSuperseded(obs, o)
  }

  ghost predicate HasExact(obs: set<ForwardingObservation>, klass: EvidenceClass, current: FenceVector, now: nat) {
    exists o :: IsExact(obs, o, current, now) && o.klass == klass
  }

  ghost predicate IsStalePresent(obs: set<ForwardingObservation>, o: ForwardingObservation, current: FenceVector,
                                 now: nat) {
    o in obs && o.klass == Present && BindingOf(obs, o, current, now) !in {Exact, Superseded}
  }

  ghost predicate HasStalePresent(obs: set<ForwardingObservation>, current: FenceVector, now: nat) {
    exists o :: IsStalePresent(obs, o, current, now)
  }

  ghost predicate Bound(obs: set<ForwardingObservation>, binding: EvidenceBinding, current: FenceVector, now: nat) {
    exists o :: o in obs && BindingOf(obs, o, current, now) == binding
  }

  ghost function BestNonExact(obs: set<ForwardingObservation>, current: FenceVector, now: nat): EvidenceBinding {
    if Bound(obs, EpochFenced, current, now) then EpochFenced
    else if Bound(obs, GenerationMismatch, current, now) then GenerationMismatch
    else if Bound(obs, LeaseExpired, current, now) then LeaseExpired
    else if Bound(obs, Superseded, current, now) then Superseded
    else NoEvidence
  }

  /** The selectors that exact Present statements among `seen` name. */
  ghost function ExactSelectors(obs: set<ForwardingObservation>, seen: set<ForwardingObservation>,
                                current: FenceVector, now: nat): set<nat>
  {
    set o, s | o in seen && IsExact(obs, o, current, now) && o.klass == Present && s in o.selectors :: s
  }

  ghost function StaleSelectors(obs: set<ForwardingObservation>, seen: set<ForwardingObservation>,
                                current: FenceVector, now: nat): set<nat>
  {
    set o, s | o in seen && IsStalePresent(obs, o, current, now) && s in o.selectors :: s
  }

  /** The admitted selectors that are among `named`, in their order. */
  ghost function Keep(admitted: seq<nat>, named: set<nat>): (r: seq<nat>)
    ensures forall s :: s in r <==> s in admitted && s in named
  {
    if admitted == [] then [] else
      var last := admitted[|admitted| - 1];
      var rest := Keep(admitted[..|admitted| - 1], named);
      assert admitted == admitted[..|admitted| - 1] + [last];
      if last in named then rest + [last] else rest
  }

  lemma {:induction false} KeepIsIncreasing(admitted: seq<nat>, named: set<nat>)
    requires StrictlyIncreasing(admitted)
    ensures StrictlyIncreasing(Keep(admitted, named))
    decreases |admitted|
  {
    if admitted != [] {
      var front := admitted[..|admitted| - 1];
      KeepIsIncreasing(front, named);
      var rest := Keep(front, named);
      forall i | 0 <= i < |rest|
        ensures rest[i] < admitted[|admitted| - 1]
      {
        assert rest[i] in front;
      }
    }
  }

  datatype Verdict = Verdict(resolution: HopResolution, binding: EvidenceBinding, selectors: seq<nat>)

  ghost predicate DefinitionCloses(t: TopologyDefinition, edge: ForwardingEdge)
    requires EndpointsFit(t.resources, edge)
  {
    || FindResource(t.resources, edge.from).value.admin == Disabled
    || FindResource(t.resources, edge.to).value.admin == Disabled
    || edge.link == Down
  }

  /** What the observations about a hop say, for an edge the definition leaves open. */
  ghost function Judge(admitted: seq<nat>, obs: set<ForwardingObservation>, current: FenceVector, now: nat): Verdict {
    var present, absent := HasExact(obs, Present, current, now), HasExact(obs, Absent, current, now);
    var exact := Keep(admitted, ExactSelectors(obs, obs, current, now));
    var stale := Keep(admitted, StaleSelectors(obs, obs, current, now));
    if present && absent then Verdict(Conflicted, Exact, [])
    else if present then Verdict(if exact == [] then Unproven else ProvenOpen, Exact, exact)
    else if absent then Verdict(ProvenClosed, Exact, [])
    else if HasStalePresent(obs, current, now) && stale != [] then
      Verdict(UnprovenOpen, BestNonExact(obs, current, now), stale)
    else Verdict(Unproven, BestNonExact(obs, current, now), [])
  }

  /** The resolution of a hop, as a function of the set of observations about it. */
  ghost function VerdictOf(t: TopologyDefinition, edge: ForwardingEdge, obs: set<ForwardingObservation>,
                           current: FenceVector, now: nat): Verdict
  {
    if !EndpointsFit(t.resources, edge) then Verdict(Unsupported, NoEvidence, [])
    else if DefinitionCloses(t, edge) then Verdict(ProvenClosed, NoEvidence, [])
    else Judge(edge.admittedSelectors, obs, current, now)
  }

  ghost function SetOf(obs: seq<ForwardingObservation>): set<ForwardingObservation> {
    set o | o in obs
  }

  // ----- The resolution as it is computed -----

  function Elements(s: seq<nat>): set<nat> {
    set x | x in s
  }

  /** The newest sequence each producer key has among the candidates. */
  ghost predicate HoldsNewest(newest: map<ProducerKey, nat>, obs: set<ForwardingObservation>) {
    && (forall o :: o in obs ==> KeyOf(o) in newest && o.sequence <= newest[KeyOf(o)])
    && (forall k :: k in newest ==> exists o :: o in obs && KeyOf(o) == k && o.sequence == newest[k])
  }

  method FindNewest(candidates: seq<ForwardingObservation>) returns (newest: map<ProducerKey, nat>)
    ensures HoldsNewest(newest, SetOf(candidates))
  {
    newest := map[];
    for k := 0 to |candidates|
      invariant HoldsNewest(newest, SetOf(candidates[..k]))
    {
      var o := candidates[k];
      ghost var before := SetOf(candidates[..k]);
      assert candidates[..k + 1] == candidates[..k] + [o];
      assert SetOf(candidates[..k + 1]) == before + {o};
      if KeyOf(o) !in newest || newest[KeyOf(o)] < o.sequence {
        newest := newest[KeyOf(o) := o.sequence];
      }
    }
    assert candidates[..|candidates|] == candidates;
  }

  method Classify(o: ForwardingObservation, newest: map<ProducerKey, nat>, current: FenceVector, now: nat,
                  ghost obs: set<ForwardingObservation>)
    returns (binding: EvidenceBinding)
    requires HoldsNewest(newest, obs) && o in obs
    ensures binding == BindingOf(obs, o, current, now)
  {
    binding := Exact;
    if o.lease.boot != current.boot || o.lease.epoch != current.epoch || o.lease.fabricEpoch != current.fabricEpoch {
      binding := EpochFenced;
    } else if o.topologyGeneration != current.topology || o.forwardingGeneration != current.forwarding {
      binding := GenerationMismatch;
    } else if !o.lease.IsLive(now) {
      binding := LeaseExpired;
    } else if KeyOf(o) in newest && newest[KeyOf(o)] > o.sequence {
      binding := Superseded;
    }
  }

  /** What the classification loop has gathered from the candidates in `seen`. */
  datatype Tally = Tally(
    exactPresent: bool, exactAbsent: bool, stalePresent: bool, bestNonExact: EvidenceBinding,
    exactSelectors: seq<nat>, staleSelectors: seq<nat>)

  ghost predicate FlagsHold(t: Tally, obs: set<ForwardingObservation>, seen: set<ForwardingObservation>,
                            current: FenceVector, now: nat)
  {
    && (t.exactPresent <==> exists o :: o in seen && IsExact(obs, o, current, now) && o.klass == Present)
    && (t.exactAbsent <==> exists o :: o in seen && IsExact(obs, o, current, now) && o.klass == Absent)
    && (t.stalePresent <==> exists o :: o in seen && IsStalePresent(obs, o, current, now))
  }

  ghost predicate SelectorsHold(t: Tally, obs: set<ForwardingObservation>, seen: set<ForwardingObservation>,
                                current: FenceVector, now: nat)
  {
    && Elements(t.exactSelectors) == ExactSelectors(obs, seen, current, now)
    && Elements(t.staleSelectors) == StaleSelectors(obs, seen, current, now)
  }

  ghost predicate BestHolds(t: Tally, obs: set<ForwardingObservation>, seen: set<ForwardingObservation>,
                            current: FenceVector, now: nat)
  {
    && t.bestNonExact != Exact
    && (forall o :: o in seen && BindingOf(obs, o, current, now) != Exact ==>
          t.bestNonExact.Priority() <= BindingOf(obs, o, current, now).Priority())
    && (t.bestNonExact != NoEvidence ==> exists o :: o in seen && BindingOf(obs, o, current, now) == t.bestNonExact)
  }

  ghost predicate TallyHolds(t: Tally, obs: set<ForwardingObservation>, seen: set<ForwardingObservation>,
                             current: FenceVector, now: nat)
  {
    && FlagsHold(t, obs, seen, current, now)
    && SelectorsHold(t, obs, seen, current, now)
    && BestHolds(t, obs, seen, current, now)
  }

  function TallyOne(t: Tally, o: ForwardingObservation, binding: EvidenceBinding): Tally {
    if binding == Exact then
      if o.klass == Present then t.(exactPresent := true, exactSelectors := t.exactSelectors + o.selectors)
      else if o.klass == Absent then t.(exactAbsent := true)
      else t
    else
      var best := if binding.Priority() < t.bestNonExact.Priority() then t.(bestNonExact := binding) else t;
      if binding != Superseded && o.klass == Present
      then best.(stalePresent := true, staleSelectors := t.staleSelectors + o.selectors) else best
  }

  lemma FlagsStep(t: Tally, obs: set<ForwardingObservation>, seen: set<ForwardingObservation>, o: ForwardingObservation,
                  current: FenceVector, now: nat)
    requires o in obs && FlagsHold(t, obs, seen, current, now)
    ensures FlagsHold(TallyOne(t, o, BindingOf(obs, o, current, now)), obs, seen + {o}, current, now)
  {
    assert BindingOf(obs, o, current, now) == Exact <==> IsExact(obs, o, current, now);
    assert o in seen + {o};
  }

  lemma BestStep(t: Tally, obs: set<ForwardingObservation>, seen: set<ForwardingObservation>, o: ForwardingObservation,
                 current: FenceVector, now: nat)
    requires o in obs && BestHolds(t, obs, seen, current, now)
    ensures BestHolds(TallyOne(t, o, BindingOf(obs, o, current, now)), obs, seen + {o}, current, now)
  {
    assert o in seen + {o};
  }

  lemma SelectorsStep(t: Tally, obs: set<ForwardingObservation>, seen: set<ForwardingObservation>,
                      o: ForwardingObservation, current: FenceVector, now: nat)
    requires o in obs && SelectorsHold(t, obs, seen, current, now)
    ensures SelectorsHold(TallyOne(t, o, BindingOf(obs, o, current, now)), obs, seen + {o}, current, now)
  {
    assert BindingOf(obs, o, current, now) == Exact <==> IsExact(obs, o, current, now);
    assert Elements(t.exactSelectors + o.selectors) == Elements(t.exactSelectors) + Elements(o.selectors);
    assert Elements(t.staleSelectors + o.selectors) == Elements(t.staleSelectors) + Elements(o.selectors);
    assert ExactSelectors(obs, seen + {o}, current, now) == ExactSelectors(obs, seen, current, now)
      + if IsExact(obs, o, current, now) && o.klass == Present then Elements(o.selectors) else {};
    assert StaleSelectors(obs, seen + {o}, current, now) == StaleSelectors(obs, seen, current, now)
      + if IsStalePresent(obs, o, current, now) then Elements(o.selectors) else {};
  }

  method ClassifyAll(candidates: seq<ForwardingObservation>, newest: map<ProducerKey, nat>, current: FenceVector,
                     now: nat)
    returns (t: Tally)
    requires HoldsNewest(newest, SetOf(candidates))
    ensures TallyHolds(t, SetOf(candidates), SetOf(candidates), current, now)
  {
    t := Tally(false, false, false, NoEvidence, [], []);
    for k := 0 to |candidates|
      invariant TallyHolds(t, SetOf(candidates), SetOf(candidates[..k]), current, now)
    {
      var o := candidates[k];
      var binding := Classify(o, newest, current, now, SetOf(candidates));
      assert candidates[..k + 1] == candidates[..k] + [o];
      assert SetOf(candidates[..k + 1]) == SetOf(candidates[..k]) + {o};
      FlagsStep(t, SetOf(candidates), SetOf(candidates[..k]), o, current, now);
      SelectorsStep(t, SetOf(candidates), SetOf(candidates[..k]), o, current, now);
      BestStep(t, SetOf(candidates), SetOf(candidates[..k]), o, current, now);
      t := TallyOne(t, o, binding);
    }
    assert candidates[..|candidates|] == candidates;
  }

  /** Sorted, duplicate-free intersection with the admitted selectors. */
  method CanonicalIntersection(selectors: seq<nat>, admitted: seq<nat>) returns (r: seq<nat>)
    ensures r == Keep(admitted, Elements(selectors))
  {
    r := [];
    for k := 0 to |admitted|
      invariant r == Keep(admitted[..k], Elements(selectors))
    {
      assert admitted[..k + 1][..k] == admitted[..k];
      if admitted[k] in selectors {
        r := r + [admitted[k]];
      }
    }
    assert admitted[..|admitted|] == admitted;
  }

  lemma TallyDecides(t: Tally, obs: set<ForwardingObservation>, current: FenceVector, now: nat)
    requires TallyHolds(t, obs, obs, current, now)
    ensures t.exactPresent <==> HasExact(obs, Present, current, now)
    ensures t.exactAbsent <==> HasExact(obs, Absent, current, now)
    ensures t.stalePresent <==> HasStalePresent(obs, current, now)
    ensures t.bestNonExact == BestNonExact(obs, current, now)
    ensures Elements(t.exactSelectors) == ExactSelectors(obs, obs, current, now)
    ensures Elements(t.staleSelectors) == StaleSelectors(obs, obs, current, now)
  {
  }

  /** Resolves one hop against the current fence from the candidates given. */
  method ResolveHop(t: TopologyDefinition, edgeIndex: nat, candidates: seq<ForwardingObservation>, current: FenceVector,
                    now: nat)
    returns (record: HopRecord)
    requires edgeIndex < |t.edges|
    ensures record == RecordOf(t, edgeIndex, SetOf(candidates), current, now)
  {
    var edge := t.edges[edgeIndex];
    record := HopRecord(edgeIndex, edge.id, edge.from, edge.to, edge.domain, Unproven, NoEvidence, []);
    var from, to := FindResource(t.resources, edge.from), FindResource(t.resources, edge.to);
    if from.None? || to.None? {
      return record.(resolution := Unsupported);
    }
    if from.value.domain != edge.domain || to.value.domain != edge.domain {
      return record.(resolution := Unsupported);
    }
    if from.value.admin == Disabled || to.value.admin == Disabled || edge.link == Down {
      return record.(resolution := ProvenClosed);
    }
    var newest := FindNewest(candidates);
    var tally := ClassifyAll(candidates, newest, current, now);
    TallyDecides(tally, SetOf(candidates), current, now);
    var v := Decide(tally, edge.admittedSelectors, candidates, current, now);
    record := record.(resolution := v.resolution, binding := v.binding, effectiveSelectors := v.selectors);
  }

  /** The decision list at the end of a resolution. */
  method Decide(tally: Tally, admitted: seq<nat>, candidates: seq<ForwardingObservation>, current: FenceVector,
                now: nat)
    returns (v: Verdict)
    requires var obs := SetOf(candidates);
             TallyHolds(tally, obs, obs, current, now)
    ensures v == Judge(admitted, SetOf(candidates), current, now)
  {
    TallyDecides(tally, SetOf(candidates), current, now);
    if tally.exactPresent && tally.exactAbsent {
      return Verdict(Conflicted, Exact, []);
    }
    if tally.exactPresent {
      var effective := CanonicalIntersection(tally.exactSelectors, admitted);
      if effective == [] {
        return Verdict(Unproven, Exact, []);
      }
      return Verdict(ProvenOpen, Exact, effective);
    }
    if tally.exactAbsent {
      return Verdict(ProvenClosed, Exact, []);
    }
    if tally.stalePresent {
      var effective := CanonicalIntersection(tally.staleSelectors, admitted);
      if effective != [] {
        return Verdict(UnprovenOpen, tally.bestNonExact, effective);
      }
    }
    return Verdict(Unproven, if candidates == [] then NoEvidence else tally.bestNonExact, []);
  }

  ghost function RecordOf(t: TopologyDefinition, edgeIndex: nat, obs: set<ForwardingObservation>,
                          current: FenceVector, now: nat): HopRecord
    requires edgeIndex < |t.edges|
  {
    var edge := t.edges[edgeIndex];
    var v := VerdictOf(t, edge, obs, current, now);
    HopRecord(edgeIndex, edge.id, edge.from, edge.to, edge.domain, v.resolution, v.binding, v.selectors)
  }

  // ----- What a resolution lets one conclude -----

  /** A hop proven open has a live, exactly bound, unsuperseded Present naming an admitted selector, and no such
      Absent; and that is enough. */
  lemma ProvenOpenMeans(t: TopologyDefinition, edgeIndex: nat, obs: set<ForwardingObservation>, current: FenceVector,
                        now: nat)
    requires edgeIndex < |t.edges|
    ensures RecordOf(t, edgeIndex, obs, current, now).resolution == ProvenOpen
       <==> IsProvenOpenBy(t, t.edges[edgeIndex], obs, current, now)
  {
    var edge := t.edges[edgeIndex];
    var exact := Keep(edge.admittedSelectors, ExactSelectors(obs, obs, current, now));
    if exact != [] {
      assert exact[0] in exact;
    }
    if o, s :| IsExact(obs, o, current, now) && o.klass == Present && s in o.selectors && s in edge.admittedSelectors {
      assert s in exact;
    }
  }

  ghost predicate IsProvenOpenBy(t: TopologyDefinition, edge: ForwardingEdge, obs: set<ForwardingObservation>,
                                 current: FenceVector, now: nat)
  {
    && EndpointsFit(t.resources, edge) && !DefinitionCloses(t, edge)
    && !HasExact(obs, Absent, current, now)
    && exists o, s :: IsExact(obs, o, current, now) && o.klass == Present
                      && s in o.selectors && s in edge.admittedSelectors
  }

  /** No producer makes two different statements under one sequence number. */
  ghost predicate SequencesUnique(obs: set<ForwardingObservation>) {
    forall o, p :: o in obs && p in obs && KeyOf(o) == KeyOf(p) && o.sequence == p.sequence ==> o == p
  }

  /** A conflict is a disagreement between two producers: one producer cannot contradict itself. */
  lemma ConflictNeedsTwoProducers(t: TopologyDefinition, edgeIndex: nat, obs: set<ForwardingObservation>,
                                  current: FenceVector, now: nat)
    returns (o: ForwardingObservation, p: ForwardingObservation)
    requires edgeIndex < |t.edges| && SequencesUnique(obs)
    requires RecordOf(t, edgeIndex, obs, current, now).resolution == Conflicted
    ensures IsExact(obs, o, current, now) && o.klass == Present
    ensures IsExact(obs, p, current, now) && p.klass == Absent
    ensures o.producer != p.producer
  {
    o :| IsExact(obs, o, current, now) && o.klass == Present;
    p :| IsExact(obs, p, current, now) && p.klass == Absent;
  }

  ghost predicate IsUsable(t: TopologyDefinition, edge: ForwardingEdge)
    requires EndpointsFit(t.resources, edge)
  {
    && edge.link == Up
    && FindResource(t.resources, edge.from).value.admin == Enabled
    && FindResource(t.resources, edge.to).value.admin == Enabled
  }

  /** A proven-open hop is one the witness validator calls usable exactly when no state about it is unknown. */
  lemma ProvenOpenIsUsable(t: TopologyDefinition, edgeIndex: nat, obs: set<ForwardingObservation>, current: FenceVector,
                           now: nat)
    requires edgeIndex < |t.edges|
    requires RecordOf(t, edgeIndex, obs, current, now).resolution == ProvenOpen
    ensures EndpointsFit(t.resources, t.edges[edgeIndex])
    ensures var edge := t.edges[edgeIndex];
            IsUsable(t, edge) <==>
            (&& edge.link != LinkUnknown
             && FindResource(t.resources, edge.from).value.admin != AdminUnknown
             && FindResource(t.resources, edge.to).value.admin != AdminUnknown)
  {
    ProvenOpenMeans(t, edgeIndex, obs, current, now);
  }

  lemma {:induction false} KeepsAll(admitted: seq<nat>, named: set<nat>)
    requires forall s :: s in admitted ==> s in named
    ensures Keep(admitted, named) == admitted
    decreases |admitted|
  {
    if admitted != [] {
      KeepsAll(admitted[..|admitted| - 1], named);
      assert admitted == admitted[..|admitted| - 1] + [admitted[|admitted| - 1]];
    }
  }

  /** One exact statement that names all the selectors a hop admits proves it open for all of them. */
  lemma ProvenByOne(t: TopologyDefinition, edgeIndex: nat, o: ForwardingObservation, current: FenceVector, now: nat)
    requires edgeIndex < |t.edges| && EndpointsFit(t.resources, t.edges[edgeIndex])
             && !DefinitionCloses(t, t.edges[edgeIndex])
    requires IsExact({o}, o, current, now) && o.klass == Present
    requires |t.edges[edgeIndex].admittedSelectors| > 0
    requires forall s :: s in t.edges[edgeIndex].admittedSelectors ==> s in o.selectors
    ensures RecordOf(t, edgeIndex, {o}, current, now).resolution == ProvenOpen
    ensures RecordOf(t, edgeIndex, {o}, current, now).effectiveSelectors == t.edges[edgeIndex].admittedSelectors
  {
    var admitted := t.edges[edgeIndex].admittedSelectors;
    var named := ExactSelectors({o}, {o}, current, now);
    forall s | s in admitted
      ensures s in named
    {
      assert o in {o} && s in o.selectors;
    }
    KeepsAll(admitted, named);
  }

  /** One exact statement proves a hop open for whatever it names of what the hop admits. */
  lemma ProvenForNamed(t: TopologyDefinition, edgeIndex: nat, o: ForwardingObservation, s: nat, current: FenceVector,
                       now: nat)
    requires edgeIndex < |t.edges| && EndpointsFit(t.resources, t.edges[edgeIndex])
             && !DefinitionCloses(t, t.edges[edgeIndex])
    requires IsExact({o}, o, current, now) && o.klass == Present
    requires s in o.selectors && s in t.edges[edgeIndex].admittedSelectors
    ensures RecordOf(t, edgeIndex, {o}, current, now).resolution == ProvenOpen
    ensures s in RecordOf(t, edgeIndex, {o}, current, now).effectiveSelectors
  {
    ProvenOpenMeans(t, edgeIndex, {o}, current, now);
    assert s in ExactSelectors({o}, {o}, current, now);
  }

  /** A link in an unknown state is proven open by one exact statement, although it is not usable. */
  lemma UnknownLinkIsProvenOpen()
    ensures exists t: TopologyDefinition, obs, current, now ::
              |t.edges| == 1 && RecordOf(t, 0, obs, current, now).resolution == ProvenOpen
                && t.edges[0].link == LinkUnknown
  {
    var f := FenceVector(1, 1, 1, 1, 1, 1);
    var edge := ForwardingEdge(5, 1, 1, 1, LinkUnknown, [9]);
    var t := TopologyDefinition(1, [ResourceRecord(1, 1, 0, Enabled, false, 0)], [edge], [9]);
    var o := ForwardingObservation(3, 5, 1, 1, 1, Present, [9], 1, 1, 2, 1, EvidenceLease(1, 1, 1, 0, 10));
    var obs := {o};
    assert FindResource(t.resources, 1) == Some(t.resources[0]);
    assert IsExact(obs, o, f, 5);
    assert 9 in o.selectors && 9 in edge.admittedSelectors;
    ProvenOpenMeans(t, 0, obs, f, 5);
    assert RecordOf(t, 0, obs, f, 5).resolution == ProvenOpen;
  }

  // ----- What retracting a statement does -----

  /** Made at the current fence, and live. */
  predicate IsBoundTo(o: ForwardingObservation, current: FenceVector, now: nat) {
    && o.lease.boot == current.boot && o.lease.epoch == current.epoch && o.lease.fabricEpoch == current.fabricEpoch
    && o.topologyGeneration == current.topology && o.forwardingGeneration == current.forwarding
    && o.lease.IsLive(now)
  }

  /** The statements their producers still stand by. */
  ghost function Unretracted(obs: set<ForwardingObservation>): set<ForwardingObservation> {
    set o | o in obs && !IsSuperseded(obs, o)
  }

  /** Some Present with an old binding names an admitted selector. */
  ghost predicate NamedBefore(admitted: seq<nat>, obs: set<ForwardingObservation>, current: FenceVector, now: nat) {
    exists o, s :: o in obs && o.klass == Present && !IsBoundTo(o, current, now) && s in o.selectors && s in admitted
  }

  lemma ExactIsUnretracted(obs: set<ForwardingObservation>, o: ForwardingObservation, current: FenceVector, now: nat)
    ensures IsExact(obs, o, current, now) <==> IsExact(Unretracted(obs), o, current, now)
  {
  }

  lemma UnretractedStands(obs: set<ForwardingObservation>, o: ForwardingObservation)
    requires o in Unretracted(obs)
    ensures o in obs && !IsSuperseded(Unretracted(obs), o)
  {
  }

  /** A hop is possibly open exactly when nothing exact is said of it and some Present with an old binding, retracted or
      not, names an admitted selector. */
  lemma UnprovenOpenMeans(admitted: seq<nat>, obs: set<ForwardingObservation>, current: FenceVector, now: nat)
    ensures Judge(admitted, obs, current, now).resolution == UnprovenOpen <==>
            && !HasExact(obs, Present, current, now) && !HasExact(obs, Absent, current, now)
            && NamedBefore(admitted, obs, current, now)
  {
    var stale := Keep(admitted, StaleSelectors(obs, obs, current, now));
    if stale != [] {
      assert stale[0] in stale;
      var o :| o in obs && IsStalePresent(obs, o, current, now) && stale[0] in o.selectors;
      assert !IsBoundTo(o, current, now);
    }
    if o, s :| o in obs && o.klass == Present && !IsBoundTo(o, current, now) && s in o.selectors && s in admitted {
      assert IsStalePresent(obs, o, current, now);
      assert s in stale;
    }
  }

  // ----- Every resolution, on the observations -----

  /** Some exact Present names an admitted selector. */
  ghost predicate NamedExactly(admitted: seq<nat>, obs: set<ForwardingObservation>, current: FenceVector, now: nat) {
    exists o, s :: IsExact(obs, o, current, now) && o.klass == Present && s in o.selectors && s in admitted
  }

  /** The definition leaves the hop open. */
  ghost predicate LeftOpen(t: TopologyDefinition, edge: ForwardingEdge) {
    EndpointsFit(t.resources, edge) && !DefinitionCloses(t, edge)
  }

  lemma NamingDecides(admitted: seq<nat>, obs: set<ForwardingObservation>, current: FenceVector, now: nat)
    ensures Keep(admitted, ExactSelectors(obs, obs, current, now)) != [] <==> NamedExactly(admitted, obs, current, now)
  {
    var exact := Keep(admitted, ExactSelectors(obs, obs, current, now));
    if exact != [] {
      assert exact[0] in exact;
    }
    if o, s :| IsExact(obs, o, current, now) && o.klass == Present && s in o.selectors && s in admitted {
      assert s in exact;
    }
  }

  /** When a hop has which resolution, said of the definition and of the observations: unsupported where its endpoints
      do not fit; closed where the definition closes it, or an exact Absent stands unopposed; conflicted where an exact
      Present and an exact Absent stand against each other; open or possibly open where an admitted selector is named;
      and unproven where exact Presents stand unopposed and name none, or nothing exact and nothing old names one. */
  lemma ResolutionDecides(t: TopologyDefinition, edgeIndex: nat, obs: set<ForwardingObservation>, current: FenceVector,
                          now: nat)
    requires edgeIndex < |t.edges|
    ensures var edge, r := t.edges[edgeIndex], RecordOf(t, edgeIndex, obs, current, now).resolution;
            var present, absent := HasExact(obs, Present, current, now), HasExact(obs, Absent, current, now);
            && (r == Unsupported <==> !EndpointsFit(t.resources, edge))
            && (r == ProvenClosed <==>
                EndpointsFit(t.resources, edge) && (DefinitionCloses(t, edge) || (absent && !present)))
            && (r == Conflicted <==> LeftOpen(t, edge) && present && absent)
            && (r == ProvenOpen <==>
                LeftOpen(t, edge) && !absent && NamedExactly(edge.admittedSelectors, obs, current, now))
            && (r == UnprovenOpen <==>
                LeftOpen(t, edge) && !present && !absent && NamedBefore(edge.admittedSelectors, obs, current, now))
            && (r == Unproven <==>
                && LeftOpen(t, edge) && !absent
                && (if present then !NamedExactly(edge.admittedSelectors, obs, current, now)
                    else !NamedBefore(edge.admittedSelectors, obs, current, now)))
  {
    var edge := t.edges[edgeIndex];
    NamingDecides(edge.admittedSelectors, obs, current, now);
    UnprovenOpenMeans(edge.admittedSelectors, obs, current, now);
  }

  /** Which selectors a hop is open for, said of the observations: those an exact Present names where it is proven open,
      those an old Present names where it is possibly open, and otherwise none; always admitted ones, in order. */
  lemma SelectorsDecide(t: TopologyDefinition, edgeIndex: nat, obs: set<ForwardingObservation>, current: FenceVector,
                        now: nat, s: nat)
    requires edgeIndex < |t.edges|
    ensures var edge, r := t.edges[edgeIndex], RecordOf(t, edgeIndex, obs, current, now);
            && (s in r.effectiveSelectors <==>
                && s in edge.admittedSelectors
                && (|| (r.resolution == ProvenOpen
                        && exists o :: IsExact(obs, o, current, now) && o.klass == Present && s in o.selectors)
                    || (r.resolution == UnprovenOpen
                        && exists o :: o in obs && o.klass == Present && !IsBoundTo(o, current, now)
                                       && s in o.selectors)))
            && (StrictlyIncreasing(edge.admittedSelectors) ==> StrictlyIncreasing(r.effectiveSelectors))
  {
    var admitted := t.edges[edgeIndex].admittedSelectors;
    var exact, stale := ExactSelectors(obs, obs, current, now), StaleSelectors(obs, obs, current, now);
    NamedMeans(obs, current, now, s);
    if StrictlyIncreasing(admitted) {
      KeepIsIncreasing(admitted, exact);
      KeepIsIncreasing(admitted, stale);
    }
  }

  lemma NamedMeans(obs: set<ForwardingObservation>, current: FenceVector, now: nat, s: nat)
    ensures s in ExactSelectors(obs, obs, current, now) <==>
            exists o :: IsExact(obs, o, current, now) && o.klass == Present && s in o.selectors
    ensures s in StaleSelectors(obs, obs, current, now) <==>
            exists o :: o in obs && o.klass == Present && !IsBoundTo(o, current, now) && s in o.selectors
  {
    if o :| o in obs && o.klass == Present && !IsBoundTo(o, current, now) && s in o.selectors {
      assert IsStalePresent(obs, o, current, now);
    }
    if o :| o in obs && IsStalePresent(obs, o, current, now) && s in o.selectors {
      assert !IsBoundTo(o, current, now);
    }
  }

  /** An observation's binding, said of its fields. */
  ghost predicate OfOtherEpoch(o: ForwardingObservation, current: FenceVector) {
    o.lease.boot != current.boot || o.lease.epoch != current.epoch || o.lease.fabricEpoch != current.fabricEpoch
  }

  ghost predicate OfOtherGeneration(o: ForwardingObservation, current: FenceVector) {
    o.topologyGeneration != current.topology || o.forwardingGeneration != current.forwarding
  }

  ghost predicate OutOfLease(o: ForwardingObservation, now: nat) {
    now < o.lease.validFrom || o.lease.validUntil < now
  }

  /** What a record says of the binding of its evidence: exact when a Present or an Absent is; otherwise the first that
      applies to some observation of being from another epoch, of another generation, out of its lease and
      superseded. */
  lemma BindingDecides(t: TopologyDefinition, edgeIndex: nat, obs: set<ForwardingObservation>, current: FenceVector,
                       now: nat)
    requires edgeIndex < |t.edges|
    ensures var edge, b := t.edges[edgeIndex], RecordOf(t, edgeIndex, obs, current, now).binding;
            var exact := HasExact(obs, Present, current, now) || HasExact(obs, Absent, current, now);
            var open := LeftOpen(t, edge) && !exact;
            && (b == Exact <==> LeftOpen(t, edge) && exact)
            && (b == EpochFenced <==> open && exists o :: o in obs && OfOtherEpoch(o, current))
            && (b == GenerationMismatch <==>
                && open && (forall o :: o in obs ==> !OfOtherEpoch(o, current))
                && exists o :: o in obs && OfOtherGeneration(o, current))
            && (b == LeaseExpired <==>
                && open && (forall o :: o in obs ==> !OfOtherEpoch(o, current) && !OfOtherGeneration(o, current))
                && exists o :: o in obs && OutOfLease(o, now))
            && (b == Superseded <==>
                && open && (forall o :: o in obs ==> IsBoundTo(o, current, now))
                && exists o :: o in obs && IsSuperseded(obs, o))
  {
    forall o | o in obs
      ensures BindingOf(obs, o, current, now) == EpochFenced <==> OfOtherEpoch(o, current)
      ensures BindingOf(obs, o, current, now) == GenerationMismatch <==>
              !OfOtherEpoch(o, current) && OfOtherGeneration(o, current)
      ensures BindingOf(obs, o, current, now) == LeaseExpired <==>
              !OfOtherEpoch(o, current) && !OfOtherGeneration(o, current) && OutOfLease(o, now)
      ensures BindingOf(obs, o, current, now) == Superseded <==> IsBoundTo(o, current, now) && IsSuperseded(obs, o)
      ensures IsBoundTo(o, current, now) <==>
              !OfOtherEpoch(o, current) && !OfOtherGeneration(o, current) && !OutOfLease(o, now)
    {
    }
    BestDecides(obs, current, now);
  }

  lemma BestDecides(obs: set<ForwardingObservation>, current: FenceVector, now: nat)
    ensures var b := BestNonExact(obs, current, now);
            && b != Exact
            && (forall o :: o in obs && BindingOf(obs, o, current, now) != Exact ==>
                  b.Priority() <= BindingOf(obs, o, current, now).Priority())
            && (b != NoEvidence ==> exists o :: o in obs && BindingOf(obs, o, current, now) == b)
  {
  }

  /** The endpoints of an edge fit exactly when both are resources of its own domain, and the definition closes it
      exactly when its link is down or one of them is disabled. */
  lemma ClosingDecides(t: TopologyDefinition, edge: ForwardingEdge)
    requires ResourcesIncrease(t.resources)
    ensures EndpointsFit(t.resources, edge) <==>
            && (exists a :: a in t.resources && a.id == edge.from && a.domain == edge.domain)
            && (exists b :: b in t.resources && b.id == edge.to && b.domain == edge.domain)
    ensures EndpointsFit(t.resources, edge) ==>
              (DefinitionCloses(t, edge) <==>
               || edge.link == Down
               || exists a :: a in t.resources && a.id in {edge.from, edge.to} && a.admin == Disabled)
  {
    forall a | a in t.resources
      ensures FindResource(t.resources, a.id) == Some(a)
    {
      var i :| 0 <= i < |t.resources| && t.resources[i] == a;
      ResourceIndexIsUnique(t.resources, i);
    }
  }

  /** Exactly when retracted statements make a difference to a hop: nothing exact is said of it, and the Presents with
      an old binding that name an admitted selector are all retracted. Then it is possibly open again. */
  lemma RetractedOpensExactly(admitted: seq<nat>, obs: set<ForwardingObservation>, current: FenceVector, now: nat)
    ensures Judge(admitted, obs, current, now).resolution
            != Judge(admitted, Unretracted(obs), current, now).resolution <==>
            && !HasExact(obs, Present, current, now) && !HasExact(obs, Absent, current, now)
            && NamedBefore(admitted, obs, current, now) && !NamedBefore(admitted, Unretracted(obs), current, now)
    ensures Judge(admitted, obs, current, now).resolution
            != Judge(admitted, Unretracted(obs), current, now).resolution ==>
            Judge(admitted, obs, current, now).resolution == UnprovenOpen
  {
    var kept := Unretracted(obs);
    forall o
      ensures IsExact(obs, o, current, now) <==> IsExact(kept, o, current, now)
    {
      ExactIsUnretracted(obs, o, current, now);
    }
    SameExact(admitted, obs, kept, current, now);
    UnprovenOpenMeans(admitted, obs, current, now);
    UnprovenOpenMeans(admitted, kept, current, now);
    if NamedBefore(admitted, kept, current, now) {
      var o, s :| o in kept && o.klass == Present && !IsBoundTo(o, current, now) && s in o.selectors && s in admitted;
      UnretractedStands(obs, o);
    }
  }

  lemma ExactSelectorsWithin(a: set<ForwardingObservation>, b: set<ForwardingObservation>, current: FenceVector,
                             now: nat)
    requires forall o :: IsExact(a, o, current, now) ==> IsExact(b, o, current, now)
    ensures ExactSelectors(a, a, current, now) <= ExactSelectors(b, b, current, now)
  {
    forall s | s in ExactSelectors(a, a, current, now)
      ensures s in ExactSelectors(b, b, current, now)
    {
      var o :| o in a && IsExact(a, o, current, now) && o.klass == Present && s in o.selectors;
      assert IsExact(b, o, current, now) && o in b;
    }
  }

  /** The same exact statements leave no difference but a hop's being possibly open. */
  lemma SameExact(admitted: seq<nat>, a: set<ForwardingObservation>, b: set<ForwardingObservation>,
                  current: FenceVector, now: nat)
    requires forall o {:trigger IsExact(a, o, current, now)} :: IsExact(a, o, current, now) <==>
             IsExact(b, o, current, now)
    ensures HasExact(a, Present, current, now) <==> HasExact(b, Present, current, now)
    ensures HasExact(a, Absent, current, now) <==> HasExact(b, Absent, current, now)
    ensures ExactSelectors(a, a, current, now) == ExactSelectors(b, b, current, now)
    ensures Judge(admitted, a, current, now).resolution == Judge(admitted, b, current, now).resolution
         || Judge(admitted, a, current, now).resolution == UnprovenOpen
            || Judge(admitted, b, current, now).resolution == UnprovenOpen
  {
    forall k | k in {Present, Absent} && (HasExact(a, k, current, now) || HasExact(b, k, current, now))
      ensures HasExact(a, k, current, now) && HasExact(b, k, current, now)
    {
      var o :| (IsExact(a, o, current, now) || IsExact(b, o, current, now)) && o.klass == k;
      assert IsExact(a, o, current, now) && IsExact(b, o, current, now);
    }
    ExactSelectorsWithin(a, b, current, now);
    ExactSelectorsWithin(b, a, current, now);
  }

  /** A producer that said a hop is open, and then that it is not: once the lease of the first statement has ended, the
      hop is possibly open. */
  lemma RetractedPresentOpens()
    ensures exists obs: set<ForwardingObservation>, o, p, current, now ::
              && obs == {o, p} && o.klass == Present && p.klass == Absent && KeyOf(o) == KeyOf(p)
              && IsSuperseded(obs, o)
              && Judge([9], obs, current, now).resolution == UnprovenOpen
              && Judge([9], Unretracted(obs), current, now).resolution == Unproven
  {
    var f := FenceVector(1, 1, 1, 1, 1, 1);
    var o := ForwardingObservation(3, 5, 1, 1, 1, Present, [9], 1, 1, 2, 1, EvidenceLease(1, 1, 1, 0, 10));
    var p := ForwardingObservation(4, 5, 1, 1, 1, Absent, [9], 1, 1, 2, 2, EvidenceLease(1, 1, 1, 0, 10));
    var obs := {o, p};
    assert p in obs && p.sequence > o.sequence;
    assert IsSuperseded(obs, o);
    PresentWasNamed(o, p, f, 20);
    OnlyAbsentIsLeft(o, p, f, 20);
  }

  lemma PresentWasNamed(o: ForwardingObservation, p: ForwardingObservation, f: FenceVector, now: nat)
    requires o.klass == Present && o.selectors == [9] && !o.lease.IsLive(now) && !p.lease.IsLive(now)
    ensures Judge([9], {o, p}, f, now).resolution == UnprovenOpen
  {
    assert 9 in o.selectors && 9 in [9];
    assert NamedBefore([9], {o, p}, f, now);
    UnprovenOpenMeans([9], {o, p}, f, now);
  }

  lemma OnlyAbsentIsLeft(o: ForwardingObservation, p: ForwardingObservation, f: FenceVector, now: nat)
    requires p.klass == Absent && KeyOf(o) == KeyOf(p) && o.sequence < p.sequence
    requires !o.lease.IsLive(now) && !p.lease.IsLive(now)
    ensures Judge([9], Unretracted({o, p}), f, now).resolution == Unproven
  {
    assert p in {o, p};
    assert Unretracted({o, p}) == {p};
    UnprovenOpenMeans([9], {p}, f, now);
  }
}
