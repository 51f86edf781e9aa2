/** The canonical payloads of policies and observations. */
module Codecs {
  import opened Lists
  import opened Bytes
  import opened Grammar
  import opened Fields
  import opened Topology
  import opened Evidence
  import opened Planner

  const SCHEMA: nat := 1
  const RESOURCE_KINDS: nat := 8
  const SELECTOR_KINDS: nat := 4
  const PRODUCER_KINDS: nat := 5
  const ORIGINS: nat := 3
  const STATES: nat := 3
  const LABEL_BYTES: nat := 128
  const DIGEST_BYTES: nat := 32

  const SCHEMA_SHAPE: Shape := Shape(2, 0x1_0000)
  const ID: Shape := Shape(8, 0x1_0000_0000_0000_0000)
  const NUMBER: Shape := Shape(4, 0x1_0000_0000)
  const TRUTH: Shape := Shape(1, 2)
  const OCTET: Shape := Shape(1, BYTE)

  function Code(bound: nat): Shape { Shape(1, bound) }

  function Octets(count: nat): (r: seq<Shape>)
    ensures |r| == count
  {
    seq(count, _ => OCTET)
  }

  /** The most a count can say. */
  const ANY: nat := 0xFFFF_FFFF

  function Bit(b: bool): nat { if b then 1 else 0 }

  // ----- Lists of numbers -----

  function Numbers(xs: seq<nat>): Tree {
    Node(seq(|xs|, i requires 0 <= i < |xs| => Row([xs[i]])))
  }

  predicate IsNumber(t: Tree) {
    t.Row? && |t.values| == 1
  }

  predicate AreNumbers(t: Tree) {
    t.Node? && forall k {:trigger t.parts[k]} :: 0 <= k < |t.parts| ==> IsNumber(t.parts[k])
  }

  function NumbersIn(t: Tree): seq<nat>
    requires AreNumbers(t)
  {
    seq(|t.parts|, i requires 0 <= i < |t.parts| => t.parts[i].values[0])
  }

  lemma NumbersComeBack(xs: seq<nat>)
    ensures AreNumbers(Numbers(xs)) && NumbersIn(Numbers(xs)) == xs
  {
  }

  lemma NumbersAre(t: Tree)
    requires AreNumbers(t)
    ensures Numbers(NumbersIn(t)) == t
  {
    var back := Numbers(NumbersIn(t));
    forall k | 0 <= k < |t.parts|
      ensures back.parts[k] == t.parts[k]
    {
      assert IsNumber(t.parts[k]);
      assert t.parts[k].values == [t.parts[k].values[0]];
    }
    assert back.parts == t.parts;
  }

  lemma FittingNumbers(width: nat, most: nat, sh: Shape, t: Tree)
    requires Fits(Many(width, most, Values([sh])), t)
    ensures AreNumbers(t)
  {
    forall k | 0 <= k < |t.parts|
      ensures IsNumber(t.parts[k])
    {
      assert Fits(Values([sh]), t.parts[k]);
    }
  }

  // ----- Policies -----

  const POLICY_SHAPES: seq<Shape> := [SCHEMA_SHAPE, ID, NUMBER, ID, TRUTH, ID]

  function PolicySchema(most: nat): Schema {
    All([Values(POLICY_SHAPES), Many(4, most, Values([Code(RESOURCE_KINDS)])), Many(4, most, Values([ID]))])
  }

  function PolicyRow(p: ContainmentPolicy): seq<nat> {
    [SCHEMA, p.generation, p.maxTargets, p.maxTotalCost, Bit(p.allowCrossDomain), p.maxSearchNodes]
  }

  function PolicyTree(p: ContainmentPolicy): Tree {
    Node([Row(PolicyRow(p)), Numbers(p.eligibleKinds), Numbers(p.eligibleDomains)])
  }

  function PolicyBytes(p: ContainmentPolicy): seq<byte> {
    BytesOf(PolicySchema(ANY), PolicyTree(p))
  }

  predicate IsPolicyTree(t: Tree) {
    && t.Node? && |t.parts| == 3 && t.parts[0].Row? && |t.parts[0].values| == 6 && t.parts[0].values[4] < 2
    && AreNumbers(t.parts[1]) && AreNumbers(t.parts[2])
  }

  function PolicyIn(t: Tree): ContainmentPolicy
    requires IsPolicyTree(t)
  {
    var h := t.parts[0].values;
    ContainmentPolicy(h[1], h[2], h[3], NumbersIn(t.parts[1]), NumbersIn(t.parts[2]), h[4] == 1, h[5])
  }

  /** What a payload can carry at all. */
  predicate PolicyIsTyped(p: ContainmentPolicy) {
    Fits(PolicySchema(ANY), PolicyTree(p))
  }

  predicate IsPolicySorted(p: ContainmentPolicy) {
    Nondecreasing(p.eligibleKinds) && Nondecreasing(p.eligibleDomains)
  }

  /** What the fields can carry and a reader accepts. */
  predicate PolicyFits(p: ContainmentPolicy, most: nat) {
    Fits(PolicySchema(most), PolicyTree(p)) && IsPolicySorted(p)
  }

  lemma PolicySchemas(most: nat)
    requires most <= ANY
    ensures IsSchema(PolicySchema(most)) && IsTight(PolicySchema(most)) && Looser(PolicySchema(most), PolicySchema(ANY))
  {
  }

  lemma PolicyParts(t: Tree, most: nat)
    requires Fits(PolicySchema(most), t)
    ensures IsPolicyTree(t)
  {
    var parts := PolicySchema(most).parts;
    assert Fits(parts[0], t.parts[0]) && Fits(parts[1], t.parts[1]) && Fits(parts[2], t.parts[2]);
    FittingNumbers(4, most, Code(RESOURCE_KINDS), t.parts[1]);
    FittingNumbers(4, most, ID, t.parts[2]);
    assert t.parts[0].values[4] < POLICY_SHAPES[4].bound;
  }

  /** What a reader makes of the bytes of a policy. */
  function PolicyOf(bytes: seq<byte>, most: nat): Option<ContainmentPolicy>
    requires most <= ANY
  {
    var t := Whole(PolicySchema(most), bytes);
    PolicySchemas(most);
    WholeIsWritten(PolicySchema(most), bytes);
    if t.None? || t.value.parts[0].values[0] != SCHEMA then None
    else
      PolicyParts(t.value, most);
      var p := PolicyIn(t.value);
      if IsPolicySorted(p) then Some(p) else None
  }

  /** Trees and policies determine each other. */
  lemma PolicyComesBack(p: ContainmentPolicy)
    ensures IsPolicyTree(PolicyTree(p)) && PolicyIn(PolicyTree(p)) == p
  {
    NumbersComeBack(p.eligibleKinds);
    NumbersComeBack(p.eligibleDomains);
  }

  lemma PolicyIs(t: Tree)
    requires IsPolicyTree(t) && t.parts[0].values[0] == SCHEMA
    ensures PolicyTree(PolicyIn(t)) == t
  {
    NumbersAre(t.parts[1]);
    NumbersAre(t.parts[2]);
    assert t.parts[0].values == PolicyRow(PolicyIn(t));
    assert t.parts == PolicyTree(PolicyIn(t)).parts;
  }

  /** What a reader accepts is a policy that fits, and the bytes are the ones it is written as. */
  lemma PolicyIsWritten(bytes: seq<byte>, most: nat)
    requires most <= ANY
    ensures var p := PolicyOf(bytes, most); p.Some? ==> PolicyFits(p.value, most) && bytes == PolicyBytes(p.value)
  {
    PolicySchemas(most);
    WholeIsWritten(PolicySchema(most), bytes);
    var t := Whole(PolicySchema(most), bytes);
    if PolicyOf(bytes, most).Some? {
      PolicyParts(t.value, most);
      PolicyIs(t.value);
      LooserWrites(PolicySchema(most), PolicySchema(ANY), t.value);
    }
  }

  /** A policy that was written comes back as itself exactly when it fits the reader's limits and its lists are sorted;
      otherwise its bytes are refused. */
  lemma PolicyDecides(p: ContainmentPolicy, most: nat)
    requires most <= ANY && PolicyIsTyped(p)
    ensures PolicyOf(PolicyBytes(p), most) == if PolicyFits(p, most) then Some(p) else None
  {
    PolicySchemas(most);
    PolicySchemas(ANY);
    LooserWrites(PolicySchema(most), PolicySchema(ANY), PolicyTree(p));
    WholeDecides(PolicySchema(most), PolicySchema(ANY), PolicyTree(p));
    PolicyComesBack(p);
  }

  method EncodePolicy(p: ContainmentPolicy) returns (bytes: seq<byte>)
    ensures bytes == PolicyBytes(p)
  {
    bytes := Encode(PolicySchema(ANY), PolicyTree(p));
  }

  /** Accepts exactly the bytes of some policy that fits, and gives back that policy. */
  method DecodePolicy(bytes: seq<byte>, most: nat) returns (r: Option<ContainmentPolicy>)
    requires most <= ANY
    ensures r == PolicyOf(bytes, most)
    ensures r.Some? ==> PolicyFits(r.value, most) && bytes == PolicyBytes(r.value)
    ensures forall p :: PolicyFits(p, most) && bytes == PolicyBytes(p) ==> r == Some(p)
  {
    PolicySchemas(most);
    PolicyIsWritten(bytes, most);
    forall p | PolicyFits(p, most) && bytes == PolicyBytes(p)
      ensures PolicyOf(bytes, most) == Some(p)
    {
      LooserWrites(PolicySchema(most), PolicySchema(ANY), PolicyTree(p));
      PolicyDecides(p, most);
    }
    var t := Decode(PolicySchema(most), bytes);
    WholeIsWritten(PolicySchema(most), bytes);
    if t.None? || t.value.parts[0].values[0] != SCHEMA {
      return None;
    }
    PolicyParts(t.value, most);
    var p := PolicyIn(t.value);
    return if IsPolicySorted(p) then Some(p) else None;
  }

  // ----- Observations -----

  /** An observation with what only its payload carries. */
  datatype Recorded = Recorded(o: ForwardingObservation, producerKind: nat, origin: nat, digest: seq<nat>)

  function ClassCode(c: EvidenceClass): nat {
    match c
    case Present => 0
    case Absent => 1
    case NotKnown => 2
  }

  function ClassOf(code: nat): EvidenceClass {
    if code == 0 then Present else if code == 1 then Absent else NotKnown
  }

  const OBSERVATION_SHAPES: seq<Shape> := [SCHEMA_SHAPE, ID, ID, ID, ID, ID, Code(STATES)]
  const TAIL_SHAPES: seq<Shape> :=
    [ID, ID, ID, Code(PRODUCER_KINDS), ID, Code(ORIGINS), ID, ID, ID, ID, ID] + Octets(DIGEST_BYTES)

  function ObservationSchema(most: nat): Schema {
    All([Values(OBSERVATION_SHAPES), Many(4, most, Values([ID])), Values(TAIL_SHAPES)])
  }

  function ObservationRow(o: ForwardingObservation): seq<nat> {
    [SCHEMA, o.id, o.edge, o.from, o.to, o.domain, ClassCode(o.klass)]
  }

  /** What follows the selectors, the digest of the producer's telemetry last. */
  function ObservationTail(r: Recorded): seq<nat> {
    [r.o.topologyGeneration, r.o.forwardingGeneration, r.o.producer, r.producerKind, r.o.sequence, r.origin,
     r.o.lease.boot, r.o.lease.epoch, r.o.lease.fabricEpoch, r.o.lease.validFrom, r.o.lease.validUntil] + r.digest
  }

  function ObservationTree(r: Recorded): Tree {
    Node([Row(ObservationRow(r.o)), Numbers(r.o.selectors), Row(ObservationTail(r))])
  }

  function ObservationBytes(r: Recorded): seq<byte> {
    BytesOf(ObservationSchema(ANY), ObservationTree(r))
  }

  predicate IsObservationTree(t: Tree) {
    && t.Node? && |t.parts| == 3 && t.parts[0].Row? && |t.parts[0].values| == 7 && t.parts[0].values[6] < STATES
    && AreNumbers(t.parts[1]) && t.parts[2].Row? && |t.parts[2].values| == 11 + DIGEST_BYTES
  }

  function ObservationIn(t: Tree): Recorded
    requires IsObservationTree(t)
  {
    var h, rest := t.parts[0].values, t.parts[2].values;
    Recorded(ForwardingObservation(h[1], h[2], h[3], h[4], h[5], ClassOf(h[6]), NumbersIn(t.parts[1]),
                                   rest[0], rest[1], rest[2], rest[4],
                                     EvidenceLease(rest[6], rest[7], rest[8], rest[9], rest[10])),
             rest[3], rest[5], rest[11..])
  }

  predicate ObservationFits(r: Recorded, most: nat) {
    Fits(ObservationSchema(most), ObservationTree(r))
  }

  lemma ObservationSchemas(most: nat)
    requires most <= ANY
    ensures IsSchema(ObservationSchema(most)) && IsTight(ObservationSchema(most))
    ensures Looser(ObservationSchema(most), ObservationSchema(ANY))
  {
  }

  lemma ObservationParts(t: Tree, most: nat)
    requires Fits(ObservationSchema(most), t)
    ensures IsObservationTree(t)
  {
    var parts := ObservationSchema(most).parts;
    assert Fits(parts[0], t.parts[0]) && Fits(parts[1], t.parts[1]) && Fits(parts[2], t.parts[2]);
    FittingNumbers(4, most, ID, t.parts[1]);
    assert t.parts[0].values[6] < OBSERVATION_SHAPES[6].bound;
  }

  /** What a reader makes of the bytes of an observation. */
  function ObservationOf(bytes: seq<byte>, most: nat): Option<Recorded>
    requires most <= ANY
  {
    var t := Whole(ObservationSchema(most), bytes);
    ObservationSchemas(most);
    WholeIsWritten(ObservationSchema(most), bytes);
    if t.None? || t.value.parts[0].values[0] != SCHEMA then None
    else
      ObservationParts(t.value, most);
      Some(ObservationIn(t.value))
  }

  lemma ObservationComesBack(r: Recorded)
    requires |r.digest| == DIGEST_BYTES
    ensures IsObservationTree(ObservationTree(r)) && ObservationIn(ObservationTree(r)) == r
  {
    NumbersComeBack(r.o.selectors);
  }

  lemma ObservationIs(t: Tree)
    requires IsObservationTree(t) && t.parts[0].values[0] == SCHEMA
    ensures ObservationTree(ObservationIn(t)) == t
  {
    NumbersAre(t.parts[1]);
    var back := ObservationTree(ObservationIn(t));
    assert t.parts[0].values == ObservationRow(ObservationIn(t).o);
    assert t.parts[2].values == ObservationTail(ObservationIn(t));
    assert t.parts == back.parts;
  }

  /** Accepted bytes are the ones the observation read is written as, and an observation that fits comes back as
      itself. */
  lemma ObservationDecides(bytes: seq<byte>, r: Recorded, most: nat)
    requires most <= ANY
    ensures var back := ObservationOf(bytes, most);
            back.Some? ==> ObservationFits(back.value, most) && bytes == ObservationBytes(back.value)
    ensures ObservationFits(r, most) ==> ObservationOf(ObservationBytes(r), most) == Some(r)
  {
    ObservationSchemas(most);
    WholeIsWritten(ObservationSchema(most), bytes);
    var t := Whole(ObservationSchema(most), bytes);
    if ObservationOf(bytes, most).Some? {
      ObservationParts(t.value, most);
      ObservationIs(t.value);
      LooserWrites(ObservationSchema(most), ObservationSchema(ANY), t.value);
    }
    if ObservationFits(r, most) {
      LooserWrites(ObservationSchema(most), ObservationSchema(ANY), ObservationTree(r));
      WholeReads(ObservationSchema(most), ObservationTree(r));
      ObservationParts(ObservationTree(r), most);
      ObservationComesBack(r);
    }
  }

  method EncodeObservation(r: Recorded) returns (bytes: seq<byte>)
    ensures bytes == ObservationBytes(r)
  {
    bytes := Encode(ObservationSchema(ANY), ObservationTree(r));
  }

  /** Accepts exactly the bytes of some observation that fits, and gives back that observation. */
  method DecodeObservation(bytes: seq<byte>, most: nat) returns (r: Option<Recorded>)
    requires most <= ANY
    ensures r == ObservationOf(bytes, most)
    ensures r.Some? ==> ObservationFits(r.value, most) && bytes == ObservationBytes(r.value)
    ensures forall x :: ObservationFits(x, most) && bytes == ObservationBytes(x) ==> r == Some(x)
  {
    forall x
      ensures ObservationFits(x, most) && bytes == ObservationBytes(x) ==> ObservationOf(bytes, most) == Some(x)
    {
      ObservationDecides(bytes, x, most);
    }
    ObservationDecides(bytes,
                       Recorded(ForwardingObservation(0, 0, 0, 0, 0, NotKnown, [], 0, 0, 0, 0,
                                                      EvidenceLease(0, 0, 0, 0, 0)), 0, 0, []), most);
    ObservationSchemas(most);
    WholeIsWritten(ObservationSchema(most), bytes);
    var t := Decode(ObservationSchema(most), bytes);
    if t.None? || t.value.parts[0].values[0] != SCHEMA {
      return None;
    }
    ObservationParts(t.value, most);
    return Some(ObservationIn(t.value));
  }
}
