/** States that a snapshot can be read back of, and how every mutation keeps them so. */
module Readability {
  import opened Grammar
  import opened Codecs
  import opened Evidence
  import opened Findings
  import opened StoreState
  import opened Explanations
  import opened Sorting
  import opened TopologyCodec
  import opened StoreCodec
  import Journal

  /** There may be more boots and findings in memory than a snapshot of them may hold. */
  function Roomy(limits: StoreLimits): StoreLimits {
    limits.(maxBootRecords := ANY, maxRetainedFindings := ANY)
  }

  /** A reader would accept a snapshot of the state, were it not for the number of its boots and findings. */
  predicate IsReadable(limits: StoreLimits, s: StoreState) {
    PartsAreReadable(Roomy(limits), s) && StateIsSound(limits, s) && AreSettled(s.findings)
  }

  /** The reasons of every finding would be read back as they are. */
  predicate AreSettled(findings: seq<StoredFinding>) {
    forall i {:trigger findings[i]} :: 0 <= i < |findings| ==> IsSettled(findings[i].reasons)
  }

  lemma SettledIsRead(s: StoreState)
    requires AreSettled(s.findings)
    ensures StateAsRead(s) == s
  {
    forall i | 0 <= i < |s.findings|
      ensures FindingAsRead(s.findings[i]) == s.findings[i]
    {
      SettledComesBack(s.findings[i].reasons);
    }
    assert Mapped(s.findings, FindingAsRead) == s.findings;
  }

  /** A readable state can be written, and its snapshot is accepted exactly when its boots and findings are within their
      bounds. */
  lemma LedgerDecides(limits: StoreLimits, s: StoreState)
    requires AreStoreLimits(limits) && IsReadable(limits, s)
    ensures StateIsTyped(s)
    ensures StateFits(limits, s)
            <==> |s.bootLedger| <= limits.maxBootRecords && |s.findings| <= limits.maxRetainedFindings
  {
    StateSchemas(Roomy(limits));
    FitsByParts(Roomy(limits), s);
    LooserWrites(ReadSchema(Roomy(limits)), WRITE_SCHEMA, StateTree(s));
    FitsByParts(limits, s);
  }

  /** The parts of a snapshot, one by one. */
  predicate PartsAreReadable(limits: StoreLimits, s: StoreState) {
    && HeadIsReadable(s) && DefinitionsAreReadable(limits, s)
    && BootsAreReadable(limits, s) && LineageIsReadable(limits, s) && FindingsAreReadable(limits, s)
    && FenceFits(s.committedFence)
  }

  predicate IsId(x: nat) { x < ID.bound }

  predicate HeadIsReadable(s: StoreState) {
    && s.generation < NUMBER.bound && IsId(s.topologyGeneration)
    && IsId(s.lineageSequence) && IsId(s.findingSequence) && IsId(s.assessmentSequence)
  }

  predicate FenceFits(f: FenceVector) {
    IsId(f.topology) && IsId(f.forwarding) && IsId(f.policy) && IsId(f.fabricEpoch) && IsId(f.epoch) && IsId(f.boot)
  }

  predicate DefinitionsAreReadable(limits: StoreLimits, s: StoreState) {
    && (s.topology.Some? ==> Fits(Blob(SNAPSHOT_PAYLOAD, TopologySchema(limits.build)), DocumentTree(s.topology.value)))
    && (s.policy.Some? ==>
        Fits(Blob(SNAPSHOT_PAYLOAD, PolicySchema(limits.build.maxSelectors)), PolicyTree(s.policy.value)))
  }

  predicate BootFits(b: BootRecord) {
    IsId(b.id) && IsId(b.boot) && IsId(b.incarnation) && IsId(b.epoch) && IsId(b.producer) && IsId(b.startedAt)
      && IsId(b.closedAt)
  }

  predicate LineageFits(r: LineageRecord) {
    Fits(Blob(Journal.RECORD_PAYLOAD, LineageSchema()), LineageTree(r))
  }

  predicate FindingFits(limits: StoreLimits, f: StoredFinding) {
    Fits(Blob(Journal.RECORD_PAYLOAD, FindingSchema(limits)), FindingTree(f))
  }

  predicate BootsAreReadable(limits: StoreLimits, s: StoreState) {
    && |s.bootLedger| <= limits.maxBootRecords
    && forall i {:trigger s.bootLedger[i]} :: 0 <= i < |s.bootLedger| ==> BootFits(s.bootLedger[i])
  }

  predicate LineageIsReadable(limits: StoreLimits, s: StoreState) {
    && |s.lineage| <= limits.maxRetainedLineage
    && forall i {:trigger s.lineage[i]} :: 0 <= i < |s.lineage| ==> LineageFits(s.lineage[i])
  }

  predicate FindingsAreReadable(limits: StoreLimits, s: StoreState) {
    && |s.findings| <= limits.maxRetainedFindings
    && forall i {:trigger s.findings[i]} :: 0 <= i < |s.findings| ==> FindingFits(limits, s.findings[i])
  }

  function Width(shapes: seq<Shape>): nat {
    if shapes == [] then 0 else shapes[0].width + Width(shapes[1..])
  }

  lemma {:induction false} RowIsWide(vs: seq<nat>, shapes: seq<Shape>)
    requires |vs| == |shapes|
    ensures |RowBytes(vs, shapes)| == Width(shapes)
    decreases |vs|
  {
    if vs != [] {
      RowIsWide(vs[1..], shapes[1..]);
    }
  }

  lemma {:induction false} RowIsNarrow(shapes: seq<Shape>)
    requires forall i :: 0 <= i < |shapes| ==> shapes[i].width <= 8
    ensures Width(shapes) <= 8 * |shapes|
    decreases |shapes|
  {
    if shapes != [] {
      RowIsNarrow(shapes[1..]);
    }
  }

  lemma FitsByParts(limits: StoreLimits, s: StoreState)
    ensures Fits(ReadSchema(limits), StateTree(s)) <==> PartsAreReadable(limits, s)
  {
    EightFit(ReadSchema(limits).parts, StateTree(s).parts);
    FitsEnds(limits, s);
    FitsDefinitions(limits, s);
    FitsBoots(limits, s);
    FitsLineage(limits, s);
    FitsFindings(limits, s);
  }

  lemma FitsEnds(limits: StoreLimits, s: StoreState)
    ensures var parts, ts := ReadSchema(limits).parts, StateTree(s).parts;
            && (Fits(parts[0], ts[0]) && Fits(parts[7], ts[7]) <==> HeadIsReadable(s))
            && (Fits(parts[6], ts[6]) <==> FenceFits(s.committedFence))
  {
    RowIsWide(FenceTree(s.committedFence).values, FENCE_SHAPES);
    RowIsNarrow(FENCE_SHAPES);
    FenceByNumbers(s.committedFence);
    HeadByNumbers(s);
  }

  lemma FenceByNumbers(f: FenceVector)
    ensures Fits(FENCE, FenceTree(f)) <==> FenceFits(f)
  {
    var vs := FenceTree(f).values;
    assert vs[0] == f.topology && vs[1] == f.forwarding && vs[2] == f.policy && vs[3] == f.fabricEpoch
           && vs[4] == f.epoch && vs[5] == f.boot;
  }

  lemma HeadByNumbers(s: StoreState)
    ensures (IsRow([SCHEMA, Journal.RECORD_VERSION, s.generation, s.topologyGeneration], HEAD_SHAPES)
             && IsRow([s.lineageSequence, s.findingSequence, s.assessmentSequence], SEQUENCES)) <==> HeadIsReadable(s)
  {
    var head, last :=
      [SCHEMA, Journal.RECORD_VERSION, s.generation, s.topologyGeneration],
      [s.lineageSequence, s.findingSequence, s.assessmentSequence];
    assert head[2] == s.generation && head[3] == s.topologyGeneration;
    assert last[0] == s.lineageSequence && last[1] == s.findingSequence && last[2] == s.assessmentSequence;
  }

  /** A boot record is never too long for its place in a snapshot. */
  lemma BootByNumbers(b: BootRecord)
    ensures Fits(BOOT, BootTree(b)) <==> BootFits(b)
    ensures Fits(Blob(Journal.RECORD_PAYLOAD, BOOT), BootTree(b)) <==> BootFits(b)
  {
    var vs := BootTree(b).values;
    assert vs[0] == b.id && vs[1] == b.boot && vs[2] == b.incarnation && vs[3] == b.epoch && vs[4] == b.producer
           && vs[5] == b.startedAt && vs[6] == b.closedAt;
    RowIsWide(vs, BOOT_SHAPES);
    RowIsNarrow(BOOT_SHAPES);
  }

  lemma FitsDefinitions(limits: StoreLimits, s: StoreState)
    ensures var parts, ts := ReadSchema(limits).parts, StateTree(s).parts;
            Fits(parts[1], ts[1]) && Fits(parts[2], ts[2]) <==> DefinitionsAreReadable(limits, s)
  {
    var parts, ts := ReadSchema(limits).parts, StateTree(s).parts;
    OneFits(parts[1].item, ts[1]);
    OneFits(parts[2].item, ts[2]);
  }

  lemma OneFits(item: Schema, t: Tree)
    requires t.Node? && |t.parts| <= 1
    ensures Fits(Many(1, 1, item), t) <==> (t.parts != [] ==> Fits(item, t.parts[0]))
  {
    assert t.parts != [] ==> t.parts[0] == t.parts[0];
  }

  lemma FitsBoots(limits: StoreLimits, s: StoreState)
    ensures Fits(ReadSchema(limits).parts[3], StateTree(s).parts[3]) <==> BootsAreReadable(limits, s)
  {
    forall i | 0 <= i < |s.bootLedger|
      ensures Fits(Blob(Journal.RECORD_PAYLOAD, BOOT), BootTree(s.bootLedger[i])) <==> BootFits(s.bootLedger[i])
    {
      BootByNumbers(s.bootLedger[i]);
    }
    assert forall i {:trigger s.bootLedger[i]} :: 0 <= i < |s.bootLedger| ==>
           StateTree(s).parts[3].parts[i] == BootTree(s.bootLedger[i]);
  }

  lemma FitsLineage(limits: StoreLimits, s: StoreState)
    ensures Fits(ReadSchema(limits).parts[4], StateTree(s).parts[4]) <==> LineageIsReadable(limits, s)
  {
    assert forall i {:trigger s.lineage[i]} :: 0 <= i < |s.lineage| ==>
           StateTree(s).parts[4].parts[i] == LineageTree(s.lineage[i]);
  }

  lemma FitsFindings(limits: StoreLimits, s: StoreState)
    ensures Fits(ReadSchema(limits).parts[5], StateTree(s).parts[5]) <==> FindingsAreReadable(limits, s)
  {
    assert forall i {:trigger s.findings[i]} :: 0 <= i < |s.findings| ==>
           StateTree(s).parts[5].parts[i] == FindingTree(s.findings[i]);
  }

  // ----- Mutations -----

  /** A payload of a mutation that fits is as long in the reader's format as it was written. */
  lemma PayloadSize(limits: StoreLimits, d: Delta)
    requires AreStoreLimits(limits) && DeltaFits(limits, d)
    ensures BytesOf(DeltaSchema(limits, KindOf(d)), DeltaTree(d)) == DeltaBytes(d)
  {
    DeltaSchemas(limits, KindOf(d));
    LooserWrites(DeltaSchema(limits, KindOf(d)), DeltaSchema(ANY_STORE, KindOf(d)), DeltaTree(d));
    if d.SetTopology? {
      FittingLabels(d.topology, limits.build);
    }
  }

  lemma TopologyStays(limits: StoreLimits, s: StoreState, t: Document)
    requires AreStoreLimits(limits) && IsReadable(limits, s) && DeltaFits(limits, SetTopology(t))
    requires |DeltaBytes(SetTopology(t))| <= Journal.RECORD_PAYLOAD
    ensures IsReadable(limits, Mutated(limits, s, SetTopology(t)))
  {
    PayloadSize(limits, SetTopology(t));
    assert Fits(TopologySchema(limits.build).parts[0], DocumentTree(t).parts[0]);
    assert DocumentTree(t).parts[0].values[1] == t.generation;
  }

  lemma PolicyStays(limits: StoreLimits, s: StoreState, d: Delta)
    requires AreStoreLimits(limits) && IsReadable(limits, s) && d.SetPolicy? && DeltaFits(limits, d)
    requires |DeltaBytes(d)| <= Journal.RECORD_PAYLOAD
    ensures IsReadable(limits, Mutated(limits, s, d))
  {
    PayloadSize(limits, d);
  }

  lemma LineageRecordFits(limits: StoreLimits, r: LineageRecord)
    requires AreStoreLimits(limits) && DeltaFits(limits, AppendLineage(r))
             && |DeltaBytes(AppendLineage(r))| <= Journal.RECORD_PAYLOAD
    ensures LineageFits(r) && IsId(r.sequence)
  {
    PayloadSize(limits, AppendLineage(r));
    assert Fits(LineageSchema().parts[0], LineageTree(r).parts[0]);
    assert LineageTree(r).parts[0].values[1] == r.sequence;
  }

  lemma LineageStays(limits: StoreLimits, s: StoreState, r: LineageRecord)
    requires AreStoreLimits(limits) && IsReadable(limits, s) && DeltaFits(limits, AppendLineage(r))
    requires |DeltaBytes(AppendLineage(r))| <= Journal.RECORD_PAYLOAD
    ensures IsReadable(limits, Mutated(limits, s, AppendLineage(r)))
  {
    LineageRecordFits(limits, r);
    var all := s.lineage + [r];
    assert forall i {:trigger all[i]} :: 0 <= i < |all| ==> LineageFits(all[i]) && !FenceIsZero(all[i].fence);
  }

  lemma {:induction false} UpsertedAre(findings: seq<StoredFinding>, f: StoredFinding, i: nat)
    requires i < |Upserted(findings, f)|
    ensures Upserted(findings, f)[i] == f || Upserted(findings, f)[i] in findings
    decreases |findings|
  {
    if findings != [] && findings[0].id != f.id && i > 0 {
      UpsertedAre(findings[1..], f, i - 1);
    }
  }

  lemma FindingRecordFits(limits: StoreLimits, f: StoredFinding)
    requires AreStoreLimits(limits) && DeltaFits(limits, UpsertFinding(f))
             && |DeltaBytes(UpsertFinding(f))| <= Journal.RECORD_PAYLOAD
    ensures FindingFits(limits, f) && IsId(f.generation)
  {
    PayloadSize(limits, UpsertFinding(f));
    assert Fits(FindingSchema(limits).parts[0], FindingTree(f).parts[0]);
    assert FindingTree(f).parts[0].values[1] == f.generation;
  }

  /** What is asked of every finding retained. */
  predicate FindingIsKept(limits: StoreLimits, f: StoredFinding) {
    FindingFits(limits, f) && !FenceIsZero(f.fence) && IsSettled(f.reasons)
  }

  lemma FindingStays(limits: StoreLimits, s: StoreState, f: StoredFinding)
    requires AreStoreLimits(limits) && IsReadable(limits, s) && DeltaFits(limits, UpsertFinding(f))
    requires |DeltaBytes(UpsertFinding(f))| <= Journal.RECORD_PAYLOAD && KeepsStep(limits, s, UpsertFinding(f))
    ensures IsReadable(limits, Mutated(limits, s, UpsertFinding(f)))
  {
    FindingRecordFits(limits, f);
    FindingLimits(limits, f);
    var after := Mutated(limits, s, UpsertFinding(f));
    forall i | 0 <= i < |after.findings|
      ensures FindingIsKept(Roomy(limits), after.findings[i])
    {
      UpsertedAre(s.findings, f, i);
    }
  }

  /** The numbers of boots and findings play no part in one finding. */
  lemma FindingLimits(limits: StoreLimits, f: StoredFinding)
    ensures FindingFits(Roomy(limits), f) <==> FindingFits(limits, f)
  {
  }

  lemma CodesByNumbers(f: StoredFinding)
    ensures Fits(Values(FINDING_CODES), FindingTree(f).parts[3])
            <==> f.outcome < LOOP_OUTCOMES && f.flags < NUMBER.bound
  {
    var vs := FindingTree(f).parts[3].values;
    assert vs[2] == f.outcome && vs[3] == f.flags;
  }

  lemma TailByNumbers(f: StoredFinding)
    ensures Fits(Values(FINDING_TAIL), TailTree(f).parts[0]) <==>
            IsId(f.plan) && IsId(f.intent) && IsId(f.createdAt) && IsId(f.updatedAt) && f.origin < ORIGINS
  {
    var vs := TailTree(f).parts[0].values;
    assert vs[0] == f.plan && vs[1] == f.intent && vs[2] == f.createdAt && vs[3] == f.updatedAt && vs[4] == f.origin;
  }

  predicate ReasonFits(r: Reason) {
    Fits(REASON, ReasonTree(r))
  }

  predicate ReasonsFit(most: nat, reasons: seq<Reason>) {
    |reasons| <= most && forall i {:trigger reasons[i]} :: 0 <= i < |reasons| ==> ReasonFits(reasons[i])
  }

  lemma ReasonsByParts(most: nat, reasons: seq<Reason>)
    ensures Fits(Many(4, most, REASON), Node(Mapped(reasons, ReasonTree))) <==> ReasonsFit(most, reasons)
  {
    var ts := Mapped(reasons, ReasonTree);
    assert forall i {:trigger ts[i]} :: 0 <= i < |reasons| ==> ts[i] == ReasonTree(reasons[i]);
    assert forall i {:trigger reasons[i]} :: 0 <= i < |reasons| ==> ts[i] == ReasonTree(reasons[i]);
  }

  lemma TailByParts(limits: StoreLimits, f: StoredFinding)
    ensures Fits(TailSchema(limits), TailTree(f)) <==>
            Fits(Values(FINDING_TAIL), TailTree(f).parts[0]) && ReasonsFit(limits.maxReasons, f.reasons)
  {
    var s, t := TailSchema(limits), TailTree(f);
    ReasonsByParts(limits.maxReasons, f.reasons);
    assert s.parts[0] == Values(FINDING_TAIL) && s.parts[1] == Many(4, limits.maxReasons, REASON);
    assert t.parts[1] == Node(Mapped(f.reasons, ReasonTree));
    assert Fits(s, t) <==> Fits(s.parts[0], t.parts[0]) && Fits(s.parts[1], t.parts[1]) by {
      assert forall k {:trigger t.parts[k]} :: 0 <= k < 2 ==> k == 0 || k == 1;
    }
  }

  /** A withdrawal as its record can carry it. */
  predicate WithdrawalFits(w: Withdrawal) {
    IsId(w.id) && IsId(w.at) && w.reason < REASONS
  }

  lemma NumbersAreFew(id: nat)
    requires IsId(id)
    ensures |Digits(id)| <= 20
  {
    assert Pow10(4) == 10_000;
    assert Pow10(8) == 10_000 * Pow10(4);
    assert Pow10(12) == 10_000 * Pow10(8);
    assert Pow10(16) == 10_000 * Pow10(12);
    assert Pow10(20) == 10_000 * Pow10(16);
    DigitsAreFew(id, 20);
  }

  lemma TextFits(text: seq<nat>)
    requires |text| <= STRING_BYTES && forall i :: 0 <= i < |text| ==> text[i] < 256
    ensures Fits(TEXT, Numbers(text))
  {
    forall i | 0 <= i < |text|
      ensures Fits(Values([OCTET]), Numbers(text).parts[i])
    {
    }
  }

  /** The reason for a withdrawal is short, and is written as it is. */
  lemma ReasonIsShort(w: Withdrawal)
    requires WithdrawalFits(w)
    ensures WithBounds(ReasonOf(w)) == ReasonOf(w) && ReasonFits(ReasonOf(w))
  {
    NumbersAreFew(w.id);
    TextFits(Digits(w.id));
    TextFits(TextOf(WITHDRAWN_BY));
    var s, t := REASON, ReasonTree(ReasonOf(w));
    assert t.parts[0].values[0] == w.reason;
    assert forall k {:trigger t.parts[k]} :: 0 <= k < 3 ==> k == 0 || k == 1 || k == 2;
  }

  lemma AddedFit(most: nat, reasons: seq<Reason>, w: Withdrawal)
    requires ReasonsFit(most, reasons) && WithdrawalFits(w)
    ensures ReasonsFit(most, Added(most, reasons, ReasonOf(w)))
  {
    ReasonIsShort(w);
    var more := Added(most, reasons, ReasonOf(w));
    if |reasons| < most {
      forall i | 0 <= i < |more|
        ensures ReasonFits(more[i])
      {
        InsertedAre(reasons, ReasonOf(w), i);
      }
    }
  }

  /** Fits a record, whatever its size. */
  predicate FindingIsTyped(limits: StoreLimits, f: StoredFinding) {
    Fits(FindingSchema(limits), FindingTree(f))
  }

  lemma RetractedIsTyped(limits: StoreLimits, f: StoredFinding, w: Withdrawal)
    requires FindingIsTyped(limits, f) && WithdrawalFits(w)
    ensures FindingIsTyped(limits, Retracted(limits.maxReasons, f, w))
  {
    var g := Retracted(limits.maxReasons, f, w);
    EightFit(FindingSchema(limits).parts, FindingTree(f).parts);
    EightFit(FindingSchema(limits).parts, FindingTree(g).parts);
    CodesByNumbers(f);
    CodesByNumbers(g);
    TailByNumbers(f);
    TailByNumbers(g);
    TailByParts(limits, f);
    TailByParts(limits, g);
    AddedFit(limits.maxReasons, f.reasons, w);
  }

  /** The finding withdrawn, with the reason added, is no larger than a record. */
  predicate WithdrawnIsSmall(limits: StoreLimits, findings: seq<StoredFinding>, w: Withdrawal) {
    forall i {:trigger findings[i]} :: 0 <= i < |findings| && findings[i].id == w.id ==>
      |BytesOf(FindingSchema(limits), FindingTree(Retracted(limits.maxReasons, findings[i], w)))|
      <= Journal.RECORD_PAYLOAD
  }

  lemma {:induction false} WithdrawnAre(most: nat, findings: seq<StoredFinding>, w: Withdrawal, i: nat)
    requires i < |findings|
    ensures var r := WithWithdrawn(most, findings, w)[i];
            r == findings[i] || (findings[i].id == w.id && r == Retracted(most, findings[i], w))
    decreases |findings|
  {
    if i > 0 && findings[0].id != w.id {
      WithdrawnAre(most, findings[1..], w, i - 1);
    }
  }

  lemma WithdrawalIsTyped(limits: StoreLimits, d: Delta)
    requires d.WithdrawFinding? && DeltaFits(limits, d)
    ensures WithdrawalFits(d.withdrawal)
  {
    assert Fits(WITHDRAWAL.parts[0], DeltaTree(d).parts[0]);
    var vs := DeltaTree(d).parts[0].values;
    assert vs[0] == d.withdrawal.id && vs[2] == d.withdrawal.at && vs[3] == d.withdrawal.reason;
  }

  lemma RetractedIsKept(limits: StoreLimits, f: StoredFinding, w: Withdrawal)
    requires FindingIsKept(limits, f) && WithdrawalFits(w)
    requires |BytesOf(FindingSchema(limits), FindingTree(Retracted(limits.maxReasons, f, w)))| <= Journal.RECORD_PAYLOAD
    ensures FindingIsKept(limits, Retracted(limits.maxReasons, f, w))
  {
    RetractedIsTyped(limits, f, w);
    ReasonIsShort(w);
    AddedIsSettled(limits.maxReasons, f.reasons, ReasonOf(w));
  }

  lemma WithdrawalStays(limits: StoreLimits, s: StoreState, d: Delta)
    requires AreStoreLimits(limits) && IsReadable(limits, s) && d.WithdrawFinding? && DeltaFits(limits, d)
    requires WithdrawnIsSmall(limits, s.findings, d.withdrawal)
    ensures IsReadable(limits, Mutated(limits, s, d))
  {
    WithdrawalIsTyped(limits, d);
    var after := Mutated(limits, s, d);
    assert FindingSchema(Roomy(limits)) == FindingSchema(limits);
    forall i | 0 <= i < |after.findings|
      ensures FindingIsKept(Roomy(limits), after.findings[i])
    {
      WithdrawnAre(limits.maxReasons, s.findings, d.withdrawal, i);
      if s.findings[i].id == d.withdrawal.id {
        RetractedIsKept(Roomy(limits), s.findings[i], d.withdrawal);
      }
    }
  }

  lemma BootStays(limits: StoreLimits, s: StoreState, b: BootRecord)
    requires AreStoreLimits(limits) && IsReadable(limits, s) && DeltaFits(limits, AdvanceBoot(b))
    requires |s.bootLedger| < ANY && b.boot != 0
    ensures IsReadable(limits, Mutated(limits, s, AdvanceBoot(b)))
  {
    BootByNumbers(b);
  }

  lemma {:induction false} ClosedAre(ledger: seq<BootRecord>, boot: nat, clean: bool, at: nat, i: nat)
    requires i < |ledger|
    ensures var r := WithClosed(ledger, boot, clean, at)[i];
            r == ledger[i] || r == ledger[i].(cleanShutdown := clean, closedAt := at)
    decreases |ledger|
  {
    if i > 0 && ledger[0].boot != boot {
      ClosedAre(ledger[1..], boot, clean, at, i - 1);
    }
  }

  lemma ShutdownStays(limits: StoreLimits, s: StoreState, d: Delta)
    requires AreStoreLimits(limits) && IsReadable(limits, s) && d.NoteShutdown? && DeltaFits(limits, d)
    ensures IsReadable(limits, Mutated(limits, s, d))
  {
    var after := Mutated(limits, s, d);
    assert DeltaTree(d).values[2] == d.closedAt;
    forall i | 0 <= i < |after.bootLedger|
      ensures BootFits(after.bootLedger[i])
    {
      ClosedAre(s.bootLedger, d.closed, d.clean, d.closedAt, i);
    }
  }

  lemma FenceIsTyped(limits: StoreLimits, f: FenceVector)
    requires DeltaFits(limits, AdvanceFence(f))
    ensures FenceFits(f) && !FenceIsZero(f)
  {
    FenceByNumbers(f);
  }

  lemma FenceStays(limits: StoreLimits, s: StoreState, f: FenceVector)
    requires AreStoreLimits(limits) && IsReadable(limits, s) && DeltaFits(limits, AdvanceFence(f))
    ensures IsReadable(limits, Mutated(limits, s, AdvanceFence(f)))
  {
    FenceIsTyped(limits, f);
  }

  /** Boots can still be counted, and a finding withdrawn is still no larger than a record. */
  predicate HasRoomFor(limits: StoreLimits, s: StoreState, d: Delta) {
    match d
    case AdvanceBoot(b) => |s.bootLedger| < ANY && b.boot != 0
    case WithdrawFinding(w) => WithdrawnIsSmall(limits, s.findings, w)
    case _ => true
  }

  /** A mutation that a reader accepts, and that a record can carry, keeps the state readable. */
  lemma MutatedStays(limits: StoreLimits, s: StoreState, d: Delta)
    requires AreStoreLimits(limits) && IsReadable(limits, s) && DeltaFits(limits, d) && KeepsStep(limits, s, d)
    requires |DeltaBytes(d)| <= Journal.RECORD_PAYLOAD && HasRoomFor(limits, s, d)
    ensures IsReadable(limits, Mutated(limits, s, d))
  {
    match d
    case SetTopology(t) => TopologyStays(limits, s, t);
    case SetPolicy(_) => PolicyStays(limits, s, d);
    case AppendLineage(r) => LineageStays(limits, s, r);
    case UpsertFinding(f) => FindingStays(limits, s, f);
    case WithdrawFinding(_) => WithdrawalStays(limits, s, d);
    case AdvanceBoot(b) => BootStays(limits, s, b);
    case AdvanceFence(f) => FenceStays(limits, s, f);
    case NoteShutdown(_, _, _) => ShutdownStays(limits, s, d);
  }

  // ----- A new document -----

  lemma RowAtMost(vs: seq<nat>, shapes: seq<Shape>)
    requires |vs| == |shapes| && forall i :: 0 <= i < |shapes| ==> shapes[i].width <= 8
    ensures |BytesOf(Values(shapes), Row(vs))| <= 8 * |shapes|
  {
    RowIsWide(vs, shapes);
    RowIsNarrow(shapes);
  }

  lemma FenceAtMost(f: FenceVector)
    ensures |BytesOf(Sized(ANY, FENCE, false), FenceTree(f))| <= 52
  {
    RowAtMost(FenceTree(f).values, FENCE_SHAPES);
  }

  lemma BootAtMost(b: BootRecord)
    ensures |BytesOf(Blob(ANY, BOOT), BootTree(b))| <= 68
  {
    RowAtMost(BootTree(b).values, BOOT_SHAPES);
  }

  lemma EmptyLists(s: StoreState)
    requires s.topology.None? && s.policy.None? && s.lineage == [] && s.findings == []
    ensures var parts, ts := WRITE_SCHEMA.parts, StateTree(s).parts;
            && |BytesOf(parts[1], ts[1])| <= 100 && |BytesOf(parts[2], ts[2])| <= 100
            && |BytesOf(parts[4], ts[4])| <= 100 && |BytesOf(parts[5], ts[5])| <= 100
  {
    var parts, ts := WRITE_SCHEMA.parts, StateTree(s).parts;
    ListAtMost(1, 1, parts[1].item, [], 0);
    ListAtMost(1, 1, parts[2].item, [], 0);
    ListAtMost(4, ANY, parts[4].item, [], 0);
    ListAtMost(4, ANY, parts[5].item, [], 0);
    assert ts[4].parts == [] && ts[5].parts == [];
  }

  /** The snapshot of a state without definitions, lineage and findings, with one boot, is small. */
  lemma FreshIsSmall(s: StoreState, b: BootRecord)
    requires s.topology.None? && s.policy.None? && s.lineage == [] && s.findings == [] && s.bootLedger == [b]
    ensures |StateBytes(s)| <= 1000
  {
    var parts, ts := WRITE_SCHEMA.parts, StateTree(s).parts;
    RowAtMost(ts[0].values, HEAD_SHAPES);
    RowAtMost(ts[7].values, SEQUENCES);
    FenceAtMost(s.committedFence);
    BootAtMost(b);
    ListAtMost(4, ANY, Blob(ANY, BOOT), [BootTree(b)], 68);
    EmptyLists(s);
    assert ts[3].parts == [BootTree(b)];
    EightAtMost(parts, ts, 100);
  }
}
