/** The payloads byte by byte: which fields they are, how wide, and in which order. */
module Layouts {
  import opened Bytes
  import opened Grammar
  import opened Topology
  import opened Evidence
  import opened Planner
  import opened StoreState
  import opened Codecs
  import opened StoreCodec

  /** Numbers one behind the other, each of this width. */
  function Each(vs: seq<nat>, width: nat): seq<byte> {
    if vs == [] then [] else LittleEndian(vs[0], width) + Each(vs[1..], width)
  }

  function Words(vs: seq<nat>): seq<byte> {
    Each(vs, 8)
  }

  /** A counted list of numbers. */
  function Counted(vs: seq<nat>, width: nat): seq<byte> {
    LittleEndian(|vs|, 4) + Each(vs, width)
  }

  // ----- Rows and lists -----

  lemma {:induction false} RowOfEach(vs: seq<nat>, shapes: seq<Shape>, width: nat)
    requires |vs| == |shapes| && forall i :: 0 <= i < |shapes| ==> shapes[i].width == width
    ensures RowBytes(vs, shapes) == Each(vs, width)
    decreases |vs|
  {
    if vs != [] {
      RowOfEach(vs[1..], shapes[1..], width);
    }
  }

  lemma {:induction false} RowsJoin(a: seq<nat>, b: seq<nat>, s: seq<Shape>, t: seq<Shape>)
    requires |a| == |s| && |b| == |t|
    ensures RowBytes(a + b, s + t) == RowBytes(a, s) + RowBytes(b, t)
    decreases |a|
  {
    if a == [] {
      assert a + b == b && s + t == t;
    } else {
      RowsJoin(a[1..], b, s[1..], t);
      assert (a + b)[1..] == a[1..] + b && (s + t)[1..] == s[1..] + t;
    }
  }

  lemma ThreeFields(a: nat, b: nat, c: nat, sa: Shape, sb: Shape, sc: Shape)
    ensures RowBytes([a, b, c], [sa, sb, sc])
            == LittleEndian(a, sa.width) + LittleEndian(b, sb.width) + LittleEndian(c, sc.width)
  {
    RowsJoin([a], [b] + [c], [sa], [sb] + [sc]);
    RowsJoin([b], [c], [sb], [sc]);
    OneField(a, sa);
    OneField(b, sb);
    OneField(c, sc);
    assert [a] + ([b] + [c]) == [a, b, c] && [sa] + ([sb] + [sc]) == [sa, sb, sc];
  }

  lemma OneField(x: nat, sh: Shape)
    ensures RowBytes([x], [sh]) == LittleEndian(x, sh.width)
  {
  }

  lemma {:induction false} ItemsAre(s: Schema, k: nat, vs: seq<nat>, ts: seq<Tree>, sh: Shape)
    requires s.Many? && s.item == Values([sh]) && |ts| == |vs|
    requires forall i {:trigger ts[i]} :: 0 <= i < |ts| ==> ts[i] == Row([vs[i]])
    ensures PartsBytes(s, k, ts) == Each(vs, sh.width)
    decreases |vs|
  {
    if vs != [] {
      ItemsAre(s, k + 1, vs[1..], ts[1..], sh);
      RowOfEach([vs[0]], [sh], sh.width);
      assert BytesOf(s.item, ts[0]) == RowBytes([vs[0]], [sh]);
    }
  }

  lemma NumbersAreCounted(most: nat, sh: Shape, vs: seq<nat>)
    ensures BytesOf(Many(4, most, Values([sh])), Numbers(vs)) == Counted(vs, sh.width)
  {
    ItemsAre(Many(4, most, Values([sh])), 0, vs, Numbers(vs).parts, sh);
  }

  lemma ThreeParts(s: Schema, a: Tree, b: Tree, c: Tree)
    requires s.All? && |s.parts| == 3
    ensures BytesOf(s, Node([a, b, c])) == BytesOf(s.parts[0], a) + BytesOf(s.parts[1], b) + BytesOf(s.parts[2], c)
  {
    var ts := [a, b, c];
    assert ts[1..] == [b, c] && ts[1..][1..] == [c] && ts[1..][1..][1..] == [];
    assert PartsBytes(s, 3, []) == [];
    assert PartsBytes(s, 2, [c]) == BytesOf(s.parts[2], c);
    assert PartsBytes(s, 1, [b, c]) == BytesOf(s.parts[1], b) + BytesOf(s.parts[2], c);
  }

  // ----- Payloads -----

  lemma FenceLayout(f: FenceVector)
    ensures BytesOf(FENCE, FenceTree(f))
            == Words([f.topology, f.forwarding, f.policy, f.fabricEpoch, f.epoch, f.boot])
  {
    RowOfEach(FenceTree(f).values, FENCE_SHAPES, 8);
  }

  lemma BootLayout(b: BootRecord)
    ensures BytesOf(BOOT, BootTree(b))
            == Words([b.id, b.boot, b.incarnation, b.epoch, b.producer, b.startedAt, b.closedAt])
               + LittleEndian(if b.cleanShutdown then 1 else 0, 1)
  {
    var row := [b.id, b.boot, b.incarnation, b.epoch, b.producer, b.startedAt, b.closedAt];
    assert BootTree(b).values == row + [Bit(b.cleanShutdown)];
    assert BOOT_SHAPES == [ID, ID, ID, ID, ID, ID, ID] + [TRUTH];
    RowsJoin(row, [Bit(b.cleanShutdown)], [ID, ID, ID, ID, ID, ID, ID], [TRUTH]);
    RowOfEach(row, [ID, ID, ID, ID, ID, ID, ID], 8);
    OneField(Bit(b.cleanShutdown), TRUTH);
  }

  lemma ShutdownLayout(boot: nat, clean: bool, at: nat)
    ensures BytesOf(SHUTDOWN, Row([boot, Bit(clean), at]))
            == LittleEndian(boot, 8) + LittleEndian(if clean then 1 else 0, 1) + LittleEndian(at, 8)
  {
    ThreeFields(boot, Bit(clean), at, ID, TRUTH, ID);
  }

  /** A policy: its schema and numbers, and then the kinds and the domains it lists. */
  lemma PolicyLayout(p: ContainmentPolicy)
    ensures PolicyBytes(p)
            == (LittleEndian(1, 2) + LittleEndian(p.generation, 8) + LittleEndian(p.maxTargets, 4)
                + LittleEndian(p.maxTotalCost, 8) + LittleEndian(if p.allowCrossDomain then 1 else 0, 1)
                + LittleEndian(p.maxSearchNodes, 8))
               + Counted(p.eligibleKinds, 1) + Counted(p.eligibleDomains, 8)
  {
    var s := PolicySchema(ANY);
    ThreeParts(s, Row(PolicyRow(p)), Numbers(p.eligibleKinds), Numbers(p.eligibleDomains));
    NumbersAreCounted(ANY, Code(RESOURCE_KINDS), p.eligibleKinds);
    NumbersAreCounted(ANY, ID, p.eligibleDomains);
    PolicyFront(p);
  }

  lemma PolicyFront(p: ContainmentPolicy)
    ensures RowBytes(PolicyRow(p), POLICY_SHAPES)
            == LittleEndian(1, 2) + LittleEndian(p.generation, 8) + LittleEndian(p.maxTargets, 4)
               + LittleEndian(p.maxTotalCost, 8) + LittleEndian(if p.allowCrossDomain then 1 else 0, 1)
               + LittleEndian(p.maxSearchNodes, 8)
  {
    var a, b := [SCHEMA, p.generation, p.maxTargets], [p.maxTotalCost, Bit(p.allowCrossDomain), p.maxSearchNodes];
    assert PolicyRow(p) == a + b && POLICY_SHAPES == [SCHEMA_SHAPE, ID, NUMBER] + [ID, TRUTH, ID];
    RowsJoin(a, b, [SCHEMA_SHAPE, ID, NUMBER], [ID, TRUTH, ID]);
    ThreeFields(SCHEMA, p.generation, p.maxTargets, SCHEMA_SHAPE, ID, NUMBER);
    ThreeFields(p.maxTotalCost, Bit(p.allowCrossDomain), p.maxSearchNodes, ID, TRUTH, ID);
  }

  /** An observation: what it is about and what it says, the selectors it names, and then what it was made under. */
  lemma ObservationLayout(r: Recorded)
    requires |r.digest| == DIGEST_BYTES
    ensures ObservationBytes(r)
            == (LittleEndian(1, 2) + Words([r.o.id, r.o.edge, r.o.from, r.o.to, r.o.domain])
                + LittleEndian(if r.o.klass == Present then 0 else if r.o.klass == Absent then 1 else 2, 1))
               + Counted(r.o.selectors, 8)
               + (Words([r.o.topologyGeneration, r.o.forwardingGeneration, r.o.producer])
                  + LittleEndian(r.producerKind, 1) + LittleEndian(r.o.sequence, 8) + LittleEndian(r.origin, 1)
                  + Words([r.o.lease.boot, r.o.lease.epoch, r.o.lease.fabricEpoch, r.o.lease.validFrom,
                           r.o.lease.validUntil])
                  + Each(r.digest, 1))
  {
    var s := ObservationSchema(ANY);
    ThreeParts(s, Row(ObservationRow(r.o)), Numbers(r.o.selectors), Row(ObservationTail(r)));
    NumbersAreCounted(ANY, ID, r.o.selectors);
    ObservationFront(r.o);
    ObservationEnd(r);
  }

  lemma ObservationFront(o: ForwardingObservation)
    ensures RowBytes(ObservationRow(o), OBSERVATION_SHAPES)
            == LittleEndian(1, 2) + Words([o.id, o.edge, o.from, o.to, o.domain]) + LittleEndian(ClassCode(o.klass), 1)
  {
    var mid := [o.id, o.edge, o.from, o.to, o.domain];
    assert ObservationRow(o) == [SCHEMA] + (mid + [ClassCode(o.klass)]);
    assert OBSERVATION_SHAPES == [SCHEMA_SHAPE] + ([ID, ID, ID, ID, ID] + [Code(STATES)]);
    RowsJoin([SCHEMA], mid + [ClassCode(o.klass)], [SCHEMA_SHAPE], [ID, ID, ID, ID, ID] + [Code(STATES)]);
    RowsJoin(mid, [ClassCode(o.klass)], [ID, ID, ID, ID, ID], [Code(STATES)]);
    RowOfEach(mid, [ID, ID, ID, ID, ID], 8);
    OneField(SCHEMA, SCHEMA_SHAPE);
    OneField(ClassCode(o.klass), Code(STATES));
  }

  lemma ObservationEnd(r: Recorded)
    requires |r.digest| == DIGEST_BYTES
    ensures RowBytes(ObservationTail(r), TAIL_SHAPES)
            == Words([r.o.topologyGeneration, r.o.forwardingGeneration, r.o.producer])
               + LittleEndian(r.producerKind, 1) + LittleEndian(r.o.sequence, 8) + LittleEndian(r.origin, 1)
               + Words([r.o.lease.boot, r.o.lease.epoch, r.o.lease.fabricEpoch, r.o.lease.validFrom,
                        r.o.lease.validUntil])
               + Each(r.digest, 1)
  {
    var a := [r.o.topologyGeneration, r.o.forwardingGeneration, r.o.producer];
    var b := [r.producerKind, r.o.sequence, r.origin];
    var c := [r.o.lease.boot, r.o.lease.epoch, r.o.lease.fabricEpoch, r.o.lease.validFrom, r.o.lease.validUntil];
    var sa, sb, sc := [ID, ID, ID], [Code(PRODUCER_KINDS), ID, Code(ORIGINS)], [ID, ID, ID, ID, ID];
    assert ObservationTail(r) == a + (b + (c + r.digest));
    assert TAIL_SHAPES == sa + (sb + (sc + Octets(DIGEST_BYTES)));
    RowsJoin(a, b + (c + r.digest), sa, sb + (sc + Octets(DIGEST_BYTES)));
    RowsJoin(b, c + r.digest, sb, sc + Octets(DIGEST_BYTES));
    RowsJoin(c, r.digest, sc, Octets(DIGEST_BYTES));
    RowOfEach(a, sa, 8);
    RowOfEach(c, sc, 8);
    RowOfEach(r.digest, Octets(DIGEST_BYTES), 1);
    ThreeFields(r.producerKind, r.o.sequence, r.origin, Code(PRODUCER_KINDS), ID, Code(ORIGINS));
  }

  /** A lineage record: what it is about, its fence, its subject, and how much it matters. */
  lemma LineageLayout(r: LineageRecord)
    requires |r.subject| == DIGEST_BYTES
    ensures BytesOf(LineageSchema(), LineageTree(r))
            == (Words([r.id, r.sequence, r.recordedAt]) + LittleEndian(r.kind, 1)
                + Words([r.finding, r.plan, r.intent]))
               + Words([r.fence.topology, r.fence.forwarding, r.fence.policy, r.fence.fabricEpoch, r.fence.epoch,
                        r.fence.boot])
               + Each(r.subject, 1) + (LittleEndian(r.reason, 1) + LittleEndian(r.severity, 1))
  {
    FourParts(LineageSchema(), Row([r.id, r.sequence, r.recordedAt, r.kind, r.finding, r.plan, r.intent]),
              FenceTree(r.fence), Row(r.subject), Row([r.reason, r.severity]));
    LineageFront(r);
    FenceLayout(r.fence);
    RowOfEach(r.subject, Octets(DIGEST_BYTES), 1);
    TwoFields(r.reason, r.severity, Code(REASONS), Code(SEVERITIES));
  }

  lemma LineageFront(r: LineageRecord)
    ensures RowBytes([r.id, r.sequence, r.recordedAt, r.kind, r.finding, r.plan, r.intent], LINEAGE_SHAPES)
            == Words([r.id, r.sequence, r.recordedAt]) + LittleEndian(r.kind, 1) + Words([r.finding, r.plan, r.intent])
  {
    var a, b := [r.id, r.sequence, r.recordedAt], [r.finding, r.plan, r.intent];
    assert [r.id, r.sequence, r.recordedAt, r.kind, r.finding, r.plan, r.intent] == a + ([r.kind] + b);
    assert LINEAGE_SHAPES == [ID, ID, ID] + ([Code(AUTHORITY_KINDS)] + [ID, ID, ID]);
    RowsJoin(a, [r.kind] + b, [ID, ID, ID], [Code(AUTHORITY_KINDS)] + [ID, ID, ID]);
    RowsJoin([r.kind], b, [Code(AUTHORITY_KINDS)], [ID, ID, ID]);
    RowOfEach(a, [ID, ID, ID], 8);
    RowOfEach(b, [ID, ID, ID], 8);
    OneField(r.kind, Code(AUTHORITY_KINDS));
  }

  lemma TwoFields(a: nat, b: nat, sa: Shape, sb: Shape)
    ensures RowBytes([a, b], [sa, sb]) == LittleEndian(a, sa.width) + LittleEndian(b, sb.width)
  {
    RowsJoin([a], [b], [sa], [sb]);
    OneField(a, sa);
    OneField(b, sb);
    assert [a] + [b] == [a, b] && [sa] + [sb] == [sa, sb];
  }

  lemma FourParts(s: Schema, a: Tree, b: Tree, c: Tree, d: Tree)
    requires s.All? && |s.parts| == 4
    ensures BytesOf(s, Node([a, b, c, d]))
            == BytesOf(s.parts[0], a) + BytesOf(s.parts[1], b) + BytesOf(s.parts[2], c) + BytesOf(s.parts[3], d)
  {
    var ts := [a, b, c, d];
    assert ts[1..] == [b, c, d] && ts[1..][1..] == [c, d] && ts[1..][1..][1..] == [d];
    assert [d][1..] == [] && PartsBytes(s, 4, []) == [];
    assert PartsBytes(s, 3, [d]) == BytesOf(s.parts[3], d);
    assert PartsBytes(s, 2, [c, d]) == BytesOf(s.parts[2], c) + BytesOf(s.parts[3], d);
    assert PartsBytes(s, 1, [b, c, d]) == BytesOf(s.parts[1], b) + (BytesOf(s.parts[2], c) + BytesOf(s.parts[3], d));
  }
}
