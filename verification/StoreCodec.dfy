/** The payloads of the journal: every mutation, and the snapshot of the whole state, as bytes and back. */
module StoreCodec {
  import opened Bytes
  import opened Grammar
  import opened Codecs
  import opened Topology
  import opened Evidence
  import opened Planner
  import opened Findings
  import opened Sorting
  import opened TopologyCodec
  import opened StoreState
  import opened Explanations
  import Journal

  const FINDING_STATES: nat := 10
  const FENCE_CAUSES: nat := 10
  const LOOP_OUTCOMES: nat := 8
  const AUTHORITY_KINDS: nat := 8
  const REASONS: nat := 74
  const SEVERITIES: nat := 4
  const STRING_BYTES: nat := 4096
  const SNAPSHOT_PAYLOAD: nat := 0x200_0000

  /** Every limit is a number of 32 bits. */
  predicate AreStoreLimits(limits: StoreLimits) {
    && AreCounts(limits.build) && 0 < limits.maxJournalRecords <= ANY
    && limits.maxRetainedLineage <= ANY && limits.maxRetainedFindings <= ANY && limits.maxBootRecords <= ANY
    && limits.maxWitnesses <= ANY && 0 < limits.maxReasons <= ANY
  }

  const ANY_STORE: StoreLimits := StoreLimits(ANY, 0, ANY, ANY, ANY, ANY, ANY, ANY_LIMITS)

  // ----- Fences, boots and shutdowns -----

  const FENCE_SHAPES: seq<Shape> := [ID, ID, ID, ID, ID, ID]
  const BOOT_SHAPES: seq<Shape> := [ID, ID, ID, ID, ID, ID, ID, TRUTH]
  const SHUTDOWN_SHAPES: seq<Shape> := [ID, TRUTH, ID]
  const FENCE: Schema := Values(FENCE_SHAPES)
  const BOOT: Schema := Values(BOOT_SHAPES)
  const SHUTDOWN: Schema := Values(SHUTDOWN_SHAPES)

  predicate IsRowOf(t: Tree, width: nat) {
    t.Row? && |t.values| == width
  }

  function FenceTree(f: FenceVector): Tree {
    Row([f.topology, f.forwarding, f.policy, f.fabricEpoch, f.epoch, f.boot])
  }

  function FenceIn(t: Tree): FenceVector {
    if IsRowOf(t, 6) then FenceVector(t.values[0], t.values[1], t.values[2], t.values[3], t.values[4], t.values[5])
    else FenceVector(0, 0, 0, 0, 0, 0)
  }

  function BootTree(b: BootRecord): Tree {
    Row([b.id, b.boot, b.incarnation, b.epoch, b.producer, b.startedAt, b.closedAt, Bit(b.cleanShutdown)])
  }

  function BootIn(t: Tree): BootRecord {
    if IsRowOf(t, 8) then
      var h := t.values;
      BootRecord(h[0], h[1], h[2], h[3], h[4], h[5], h[6], h[7] == 1)
    else BootRecord(0, 0, 0, 0, 0, 0, 0, false)
  }

  // ----- Lineage -----

  const LINEAGE_SHAPES: seq<Shape> := [ID, ID, ID, Code(AUTHORITY_KINDS), ID, ID, ID]
  const LINEAGE_TAIL: seq<Shape> := [Code(REASONS), Code(SEVERITIES)]

  function LineageSchema(): Schema {
    All([Values(LINEAGE_SHAPES), FENCE, Values(Octets(DIGEST_BYTES)), Values(LINEAGE_TAIL)])
  }

  function LineageTree(r: LineageRecord): Tree {
    Node([Row([r.id, r.sequence, r.recordedAt, r.kind, r.finding, r.plan, r.intent]), FenceTree(r.fence),
          Row(r.subject),
          Row([r.reason, r.severity])])
  }

  const NO_LINEAGE: LineageRecord := LineageRecord(0, 0, 0, 0, 0, 0, 0, FenceVector(0, 0, 0, 0, 0, 0), [], 0, 0)

  function LineageIn(t: Tree): LineageRecord {
    if t.Node? && |t.parts| == 4 && IsRowOf(t.parts[0], 7) && t.parts[2].Row? && IsRowOf(t.parts[3], 2) then
      var h := t.parts[0].values;
      LineageRecord(h[0], h[1], h[2], h[3], h[4], h[5], h[6], FenceIn(t.parts[1]), t.parts[2].values,
                    t.parts[3].values[0], t.parts[3].values[1])
    else NO_LINEAGE
  }

  // ----- Findings -----

  function StateCode(s: FindingState): nat {
    match s
    case Proposed => 0
    case Confirmed => 1
    case ContainmentAuthorized => 2
    case ContainmentRequested => 3
    case ContainmentAppliedUnverified => 4
    case ContainmentVerified => 5
    case Withdrawn => 6
    case Stale => 7
    case Fenced => 8
    case Rejected => 9
  }

  function StateNamed(code: nat): FindingState {
    match code
    case 0 => Proposed
    case 1 => FindingState.Confirmed
    case 2 => ContainmentAuthorized
    case 3 => ContainmentRequested
    case 4 => ContainmentAppliedUnverified
    case 5 => ContainmentVerified
    case 6 => Withdrawn
    case 7 => FindingState.Stale
    case 8 => FindingState.Fenced
    case _ => Rejected
  }

  function CauseCode(c: FenceCause): nat {
    match c
    case NoCause => 0
    case TopologyGenerationAdvanced => 1
    case ForwardingGenerationAdvanced => 2
    case PolicyGenerationAdvanced => 3
    case FabricEpochAdvanced => 4
    case CoordinatorEpochAdvanced => 5
    case BootAdvanced => 6
    case ExplicitWithdrawal => 7
    case GrantExpired => 8
    case GrantRevoked => 9
  }

  function CauseNamed(code: nat): FenceCause {
    match code
    case 0 => NoCause
    case 1 => TopologyGenerationAdvanced
    case 2 => ForwardingGenerationAdvanced
    case 3 => PolicyGenerationAdvanced
    case 4 => FabricEpochAdvanced
    case 5 => CoordinatorEpochAdvanced
    case 6 => BootAdvanced
    case 7 => ExplicitWithdrawal
    case 8 => GrantExpired
    case _ => GrantRevoked
  }

  const FINDING_SHAPES: seq<Shape> := [ID, ID, ID]
  const FINDING_CODES: seq<Shape> :=
    [Code(FINDING_STATES), Code(FENCE_CAUSES), Code(LOOP_OUTCOMES), Shape(8, 0x1_0000_0000)]
  const FINDING_TAIL: seq<Shape> := [ID, ID, ID, ID, Code(ORIGINS)]
  const TEXT: Schema := Many(4, STRING_BYTES, Values([OCTET]))
  const REASON: Schema := All([Values([Code(REASONS)]), TEXT, TEXT])

  function TailSchema(limits: StoreLimits): Schema {
    All([Values(FINDING_TAIL), Many(4, limits.maxReasons, REASON)])
  }

  function FindingSchema(limits: StoreLimits): Schema {
    All([Values(FINDING_SHAPES), Values(Octets(DIGEST_BYTES)), FENCE, Values(FINDING_CODES),
         Many(4, limits.maxWitnesses, Values([ID])), Many(4, limits.build.maxResources, Values([ID])),
         Many(4, limits.build.maxSelectors, Values([ID])), TailSchema(limits)])
  }

  function ReasonTree(r: Reason): Tree {
    Node([Row([r.code]), Numbers(r.subject), Numbers(r.detail)])
  }

  function ReasonIn(t: Tree): Reason {
    if t.Node? && |t.parts| == 3 && IsRowOf(t.parts[0], 1) && AreNumbers(t.parts[1]) && AreNumbers(t.parts[2]) then
      Reason(t.parts[0].values[0], NumbersIn(t.parts[1]), NumbersIn(t.parts[2]))
    else Reason(0, [], [])
  }

  function TailTree(f: StoredFinding): Tree {
    Node([Row([f.plan, f.intent, f.createdAt, f.updatedAt, f.origin]), Node(Mapped(f.reasons, ReasonTree))])
  }

  predicate IsTailTree(t: Tree) {
    t.Node? && |t.parts| == 2 && IsRowOf(t.parts[0], 5) && t.parts[1].Node?
  }

  function FindingTree(f: StoredFinding): Tree {
    Node([Row([f.id, f.generation, f.assessment]), Row(f.digest), FenceTree(f.fence),
          Row([StateCode(f.state), CauseCode(f.cause), f.outcome, f.flags]), Numbers(f.witnesses), Numbers(f.resources),
          Numbers(f.selectors), TailTree(f)])
  }

  const NO_FINDING: StoredFinding :=
    StoredFinding(0, 0, 0, [], FenceVector(0, 0, 0, 0, 0, 0), Proposed, NoCause, 0, 0, [], [], [], 0, 0, 0, 0, 0, [])

  predicate IsFindingTree(t: Tree) {
    && t.Node? && |t.parts| == 8 && IsRowOf(t.parts[0], 3) && t.parts[1].Row? && IsRowOf(t.parts[3], 4)
    && AreNumbers(t.parts[4]) && AreNumbers(t.parts[5]) && AreNumbers(t.parts[6]) && IsTailTree(t.parts[7])
  }

  function FindingIn(t: Tree): StoredFinding {
    if IsFindingTree(t) then
      var h, codes, last := t.parts[0].values, t.parts[3].values, t.parts[7].parts[0].values;
      StoredFinding(h[0], h[1], h[2], t.parts[1].values, FenceIn(t.parts[2]), StateNamed(codes[0]),
                    CauseNamed(codes[1]), codes[2], codes[3], NumbersIn(t.parts[4]), NumbersIn(t.parts[5]),
                    NumbersIn(t.parts[6]), last[0], last[1], last[2], last[3], last[4],
                    Reread(Mapped(t.parts[7].parts[1].parts, ReasonIn)))
    else NO_FINDING
  }

  // ----- Withdrawals -----

  const WITHDRAWAL_SHAPES: seq<Shape> := [ID, Code(FENCE_CAUSES), ID, Code(REASONS)]
  const WITHDRAWAL: Schema := All([Values(WITHDRAWAL_SHAPES), TEXT])

  function WithdrawalTree(w: Withdrawal): Tree {
    Node([Row([w.id, CauseCode(w.cause), w.at, w.reason]), Numbers(TextOf(WITHDRAWN_BY))])
  }

  // ----- Mutations -----

  /** The format of a mutation's record. */
  function DeltaSchema(limits: StoreLimits, kind: nat): Schema {
    match kind
    case 1 => TopologySchema(limits.build)
    case 2 => PolicySchema(limits.build.maxSelectors)
    case 3 => LineageSchema()
    case 4 => FindingSchema(limits)
    case 5 => WITHDRAWAL
    case 6 => BOOT
    case 7 => FENCE
    case _ => SHUTDOWN
  }

  function DeltaTree(d: Delta): Tree {
    match d
    case SetTopology(t) => DocumentTree(t)
    case SetPolicy(p) => PolicyTree(p)
    case AppendLineage(r) => LineageTree(r)
    case UpsertFinding(f) => FindingTree(f)
    case WithdrawFinding(w) => WithdrawalTree(w)
    case AdvanceBoot(b) => BootTree(b)
    case AdvanceFence(f) => FenceTree(f)
    case NoteShutdown(boot, clean, at) => Row([boot, Bit(clean), at])
  }

  /** The payload of a mutation; nothing when the writer gives up. */
  function DeltaBytes(d: Delta): seq<byte> {
    if d.SetTopology? then TopologyBytes(d.topology) else BytesOf(DeltaSchema(ANY_STORE, KindOf(d)), DeltaTree(d))
  }

  /** What the fields of the record can carry at all. */
  predicate DeltaIsTyped(d: Delta) {
    Fits(DeltaSchema(ANY_STORE, KindOf(d)), DeltaTree(d))
  }

  /** What a reader asks beside the format: a policy in order, a definition that is built, and no fence that is all
      zero. */
  predicate DeltaIsSound(limits: StoreLimits, d: Delta) {
    match d
    case SetTopology(t) => IsBuiltDocument(t, limits.build)
    case SetPolicy(p) => IsPolicySorted(p)
    case AppendLineage(r) => !FenceIsZero(r.fence)
    case UpsertFinding(f) => !FenceIsZero(f.fence)
    case AdvanceFence(f) => !FenceIsZero(f)
    case _ => true
  }

  /** What a reader accepts of a mutation. */
  predicate DeltaFits(limits: StoreLimits, d: Delta) {
    Fits(DeltaSchema(limits, KindOf(d)), DeltaTree(d)) && DeltaIsSound(limits, d)
  }

  /** What a reader makes of a record other than a snapshot. */
  function DeltaOf(limits: StoreLimits, kind: nat, bytes: seq<byte>): Option<Delta>
    requires AreStoreLimits(limits)
  {
    if kind == 1 then
      var t := TopologyOf(bytes, limits.build);
      if t.None? then None else Some(SetTopology(t.value))
    else if kind == 2 then
      var p := PolicyOf(bytes, limits.build.maxSelectors);
      if p.None? then None else Some(SetPolicy(p.value))
    else
      var t := Whole(DeltaSchema(limits, kind), bytes);
      if t.None? then None else
        var d := DeltaIn(kind, t.value);
        if DeltaIsSound(limits, d) then Some(d) else None
  }

  /** The mutation a record of some other kind speaks of. */
  function DeltaIn(kind: nat, t: Tree): Delta {
    match kind
    case 3 => AppendLineage(LineageIn(t))
    case 4 => UpsertFinding(FindingIn(t))
    case 5 =>
      if t.Node? && |t.parts| == 2 && IsRowOf(t.parts[0], 4) then
        var h := t.parts[0].values;
        WithdrawFinding(Withdrawal(h[0], CauseNamed(h[1]), h[2], h[3]))
      else WithdrawFinding(Withdrawal(0, NoCause, 0, 0))
    case 6 => AdvanceBoot(BootIn(t))
    case 7 => AdvanceFence(FenceIn(t))
    case _ => if IsRowOf(t, 3) then NoteShutdown(t.values[0], t.values[1] == 1, t.values[2])
      else NoteShutdown(0, false, 0)
  }

  lemma LineageComesBack(r: LineageRecord)
    ensures LineageIn(LineageTree(r)) == r
  {
  }

  lemma ReasonsComeBack(reasons: seq<Reason>)
    ensures Mapped(Mapped(reasons, ReasonTree), ReasonIn) == reasons
  {
    forall i | 0 <= i < |reasons|
      ensures ReasonIn(ReasonTree(reasons[i])) == reasons[i]
    {
      NumbersComeBack(reasons[i].subject);
      NumbersComeBack(reasons[i].detail);
    }
  }

  lemma FindingComesBack(f: StoredFinding)
    ensures FindingIn(FindingTree(f)) == FindingAsRead(f)
  {
    ReasonsComeBack(f.reasons);
    NumbersComeBack(f.witnesses);
    NumbersComeBack(f.resources);
    NumbersComeBack(f.selectors);
    assert StateNamed(StateCode(f.state)) == f.state && CauseNamed(CauseCode(f.cause)) == f.cause;
  }

  lemma DeltaComesBack(d: Delta)
    requires !d.SetTopology? && !d.SetPolicy?
    ensures DeltaIn(KindOf(d), DeltaTree(d)) == AsRead(d)
  {
    match d
    case AppendLineage(r) => LineageComesBack(r);
    case UpsertFinding(f) => FindingComesBack(f);
    case WithdrawFinding(w) => assert CauseNamed(CauseCode(w.cause)) == w.cause;
    case _ =>
  }

  lemma RecordSchemas()
    ensures IsSchema(LineageSchema()) && Looser(LineageSchema(), LineageSchema())
    ensures IsSchema(BOOT) && IsSchema(FENCE) && IsSchema(SHUTDOWN) && IsSchema(WITHDRAWAL)
  {
  }

  lemma TextSchemas()
    ensures IsSchema(TEXT) && Looser(TEXT, TEXT) && IsSchema(REASON) && Looser(REASON, REASON)
  {
    assert STRING_BYTES < Pow256(4);
  }

  lemma TailSchemas(limits: StoreLimits)
    requires AreStoreLimits(limits)
    ensures IsSchema(TailSchema(limits)) && Looser(TailSchema(limits), TailSchema(ANY_STORE))
  {
    TextSchemas();
  }

  lemma FindingSchemas(limits: StoreLimits)
    requires AreStoreLimits(limits)
    ensures IsSchema(FindingSchema(limits)) && Looser(FindingSchema(limits), FindingSchema(ANY_STORE))
  {
    TailSchemas(limits);
  }

  lemma DeltaSchemas(limits: StoreLimits, kind: nat)
    requires AreStoreLimits(limits)
    ensures IsSchema(DeltaSchema(limits, kind)) && Looser(DeltaSchema(limits, kind), DeltaSchema(ANY_STORE, kind))
  {
    RecordSchemas();
    FindingSchemas(limits);
    PolicySchemas(limits.build.maxSelectors);
    TopologySchemas(limits.build);
  }

  /** A mutation that was written comes back exactly when it fits, as itself but for the order and length of a finding's
      reasons; otherwise its record is refused. */
  lemma DeltaDecides(limits: StoreLimits, d: Delta)
    requires AreStoreLimits(limits) && DeltaIsTyped(d) && (d.SetTopology? ==> IsBuiltDocument(d.topology, limits.build))
    ensures DeltaOf(limits, KindOf(d), DeltaBytes(d)) == if DeltaFits(limits, d) then Some(AsRead(d)) else None
  {
    match d
    case SetTopology(t) => TopologyDecides(t, limits.build);
    case SetPolicy(p) => PolicyDecides(p, limits.build.maxSelectors);
    case _ => RecordDecides(limits, d);
  }

  lemma RecordDecides(limits: StoreLimits, d: Delta)
    requires AreStoreLimits(limits) && DeltaIsTyped(d) && !d.SetTopology? && !d.SetPolicy?
    ensures DeltaOf(limits, KindOf(d), DeltaBytes(d)) == if DeltaFits(limits, d) then Some(AsRead(d)) else None
  {
    var kind := KindOf(d);
    DeltaSchemas(limits, kind);
    DeltaSchemas(ANY_STORE, kind);
    WholeDecides(DeltaSchema(limits, kind), DeltaSchema(ANY_STORE, kind), DeltaTree(d));
    DeltaComesBack(d);
  }

  lemma FitsLooser(limits: StoreLimits, d: Delta)
    requires AreStoreLimits(limits) && DeltaFits(limits, d)
    ensures DeltaIsTyped(d)
  {
    DeltaSchemas(limits, KindOf(d));
    LooserWrites(DeltaSchema(limits, KindOf(d)), DeltaSchema(ANY_STORE, KindOf(d)), DeltaTree(d));
  }

  // ----- Snapshots -----

  const HEAD_SHAPES: seq<Shape> := [Shape(2, 0x1_0000), Shape(2, 0x1_0000), NUMBER, ID]
  const SEQUENCES: seq<Shape> := [ID, ID, ID]

  /** A payload inside a snapshot, behind its size; `sized` is the most its reader takes. */
  function Blob(sized: nat, s: Schema): Schema {
    Sized(sized, s, true)
  }

  /** The fence is read out of its own bytes, and whatever is behind it in them is passed over. */
  function StateSchema(limits: StoreLimits, snapshot: nat, record: nat, text: nat): Schema {
    All([Values(HEAD_SHAPES), Many(1, 1, Blob(snapshot, TopologySchema(limits.build))),
         Many(1, 1, Blob(snapshot, PolicySchema(limits.build.maxSelectors))),
         Many(4, limits.maxBootRecords, Blob(record, BOOT)),
           Many(4, limits.maxRetainedLineage, Blob(record, LineageSchema())),
         Many(4, limits.maxRetainedFindings, Blob(record, FindingSchema(limits))), Sized(text, FENCE, false),
           Values(SEQUENCES)])
  }

  function ReadSchema(limits: StoreLimits): Schema {
    StateSchema(limits, SNAPSHOT_PAYLOAD, Journal.RECORD_PAYLOAD, STRING_BYTES)
  }

  const WRITE_SCHEMA: Schema := StateSchema(ANY_STORE, ANY, ANY, ANY)

  function TopologyPart(s: StoreState): Tree {
    Node(if s.topology.Some? then [DocumentTree(s.topology.value)] else [])
  }

  function PolicyPart(s: StoreState): Tree {
    Node(if s.policy.Some? then [PolicyTree(s.policy.value)] else [])
  }

  function StateTree(s: StoreState): Tree {
    Node([Row([SCHEMA, Journal.RECORD_VERSION, s.generation, s.topologyGeneration]), TopologyPart(s), PolicyPart(s),
          Node(Mapped(s.bootLedger, BootTree)), Node(Mapped(s.lineage, LineageTree)),
            Node(Mapped(s.findings, FindingTree)),
          FenceTree(s.committedFence), Row([s.lineageSequence, s.findingSequence, s.assessmentSequence])])
  }

  function StateBytes(s: StoreState): seq<byte> {
    BytesOf(WRITE_SCHEMA, StateTree(s))
  }

  predicate StateIsTyped(s: StoreState) {
    Fits(WRITE_SCHEMA, StateTree(s))
  }

  /** What a reader of a snapshot asks beside the format. */
  predicate StateIsSound(limits: StoreLimits, s: StoreState) {
    && s.generation != 0
    && (s.topology.Some? ==>
        IsBuiltDocument(s.topology.value, limits.build) && s.topology.value.generation == s.topologyGeneration)
    && (s.policy.Some? ==> IsPolicySorted(s.policy.value))
    && (forall i {:trigger s.lineage[i]} :: 0 <= i < |s.lineage| ==> !FenceIsZero(s.lineage[i].fence))
    && (forall i {:trigger s.findings[i]} :: 0 <= i < |s.findings| ==> !FenceIsZero(s.findings[i].fence))
    && !FenceIsZero(s.committedFence)
  }

  /** What a reader accepts of a snapshot. */
  predicate StateFits(limits: StoreLimits, s: StoreState) {
    Fits(ReadSchema(limits), StateTree(s)) && StateIsSound(limits, s)
  }

  predicate IsStateTree(t: Tree) {
    && t.Node? && |t.parts| == 8 && IsRowOf(t.parts[0], 4)
    && t.parts[1].Node? && |t.parts[1].parts| <= 1 && t.parts[2].Node? && |t.parts[2].parts| <= 1
    && t.parts[3].Node? && t.parts[4].Node? && t.parts[5].Node? && IsRowOf(t.parts[7], 3)
  }

  function TopologyIn(t: Tree): Option<Document> {
    if t.Node? && |t.parts| == 1 && IsDocumentTree(t.parts[0]) then Some(SortedDocument(DocumentIn(t.parts[0])))
       else None
  }

  function PolicyPartIn(t: Tree): Option<ContainmentPolicy> {
    if t.Node? && |t.parts| == 1 && IsPolicyTree(t.parts[0]) then Some(PolicyIn(t.parts[0])) else None
  }

  function StateIn(t: Tree): StoreState
    requires IsStateTree(t)
  {
    var head, last := t.parts[0].values, t.parts[7].values;
    StoreState(head[2], TopologyIn(t.parts[1]), head[3], PolicyPartIn(t.parts[2]), Mapped(t.parts[3].parts, BootIn),
               Mapped(t.parts[4].parts, LineageIn), Mapped(t.parts[5].parts, FindingIn), FenceIn(t.parts[6]),
               last[0], last[1], last[2])
  }

  /** Every part of a snapshot states the schema it was written in. */
  predicate HasSchema(t: Tree) {
    t.Node? && |t.parts| > 0 && t.parts[0].Row? && |t.parts[0].values| > 0 && t.parts[0].values[0] == SCHEMA
  }

  predicate HasSchemas(t: Tree)
    requires t.Node?
  {
    forall i {:trigger t.parts[i]} :: 0 <= i < |t.parts| ==> HasSchema(t.parts[i])
  }

  /** What a reader makes of the payload of a snapshot. */
  function StateOf(limits: StoreLimits, bytes: seq<byte>): Option<StoreState>
    requires AreStoreLimits(limits)
  {
    var t := Whole(ReadSchema(limits), bytes);
    StateSchemas(limits);
    WholeIsWritten(ReadSchema(limits), bytes);
    if t.None? then None
    else
      StateParts(limits, t.value);
      var head, s := t.value.parts[0].values, StateIn(t.value);
      if head[0] == SCHEMA && head[1] == Journal.RECORD_VERSION && StateIsSound(limits, s)
         && HasSchemas(t.value.parts[1]) && HasSchemas(t.value.parts[2])
      then Some(s) else None
  }

  lemma BlobSchema(sized: nat, more: nat, s: Schema, w: Schema)
    requires IsSchema(s) && Looser(s, w) && sized <= more <= ANY
    ensures IsSchema(Blob(sized, s)) && Looser(Blob(sized, s), Blob(more, w))
  {
  }

  lemma StateSchemasAre(limits: StoreLimits, snapshot: nat, record: nat, text: nat)
    requires AreStoreLimits(limits) && snapshot <= ANY && record <= ANY && text <= ANY
    ensures IsSchema(StateSchema(limits, snapshot, record, text))
    ensures Looser(StateSchema(limits, snapshot, record, text), WRITE_SCHEMA)
  {
    RecordSchemas();
    FindingSchemas(limits);
    PolicySchemas(limits.build.maxSelectors);
    TopologySchemas(limits.build);
    BlobSchema(snapshot, ANY, TopologySchema(limits.build), TopologySchema(ANY_LIMITS));
    BlobSchema(snapshot, ANY, PolicySchema(limits.build.maxSelectors), PolicySchema(ANY));
    BlobSchema(record, ANY, BOOT, BOOT);
    BlobSchema(record, ANY, LineageSchema(), LineageSchema());
    BlobSchema(record, ANY, FindingSchema(limits), FindingSchema(ANY_STORE));
  }

  lemma StateSchemas(limits: StoreLimits)
    requires AreStoreLimits(limits)
    ensures IsSchema(ReadSchema(limits)) && IsSchema(WRITE_SCHEMA) && Looser(ReadSchema(limits), WRITE_SCHEMA)
  {
    StateSchemasAre(limits, SNAPSHOT_PAYLOAD, Journal.RECORD_PAYLOAD, STRING_BYTES);
    StateSchemasAre(ANY_STORE, ANY, ANY, ANY);
  }

  lemma StateParts(limits: StoreLimits, t: Tree)
    requires Fits(ReadSchema(limits), t)
    ensures IsStateTree(t)
  {
    var parts := ReadSchema(limits).parts;
    forall k | 0 <= k < 8
      ensures Fits(parts[k], t.parts[k])
    {
      assert t.parts[k] == t.parts[k];
    }
    assert Fits(parts[0], t.parts[0]) && Fits(parts[1], t.parts[1]) && Fits(parts[2], t.parts[2])
           && Fits(parts[7], t.parts[7]);
  }

  function StateAsRead(s: StoreState): StoreState {
    s.(findings := Mapped(s.findings, FindingAsRead))
  }

  /** A state is what its tree says, but for the order and length of reasons. */
  lemma StateComesBack(s: StoreState)
    requires s.topology.Some? ==> SortedDocument(s.topology.value) == s.topology.value
    ensures IsStateTree(StateTree(s)) && StateIn(StateTree(s)) == StateAsRead(s)
  {
    var t := StateTree(s);
    if s.topology.Some? {
      DocumentComesBack(s.topology.value);
    }
    if s.policy.Some? {
      PolicyComesBack(s.policy.value);
    }
    var back := StateIn(t);
    forall i | 0 <= i < |s.bootLedger|
      ensures back.bootLedger[i] == s.bootLedger[i]
    {
    }
    forall i | 0 <= i < |s.lineage|
      ensures back.lineage[i] == s.lineage[i]
    {
      LineageComesBack(s.lineage[i]);
    }
    forall i | 0 <= i < |s.findings|
      ensures back.findings[i] == FindingAsRead(s.findings[i])
    {
      FindingComesBack(s.findings[i]);
    }
    assert back.bootLedger == s.bootLedger && back.lineage == s.lineage
           && back.findings == Mapped(s.findings, FindingAsRead);
  }

  lemma SchemasAreStated(s: StoreState)
    ensures HasSchemas(TopologyPart(s)) && HasSchemas(PolicyPart(s))
  {
  }

  /** A snapshot comes back exactly when it fits, as the state it was made of but for the order and length of reasons;
      otherwise it is refused. */
  lemma StateDecides(limits: StoreLimits, s: StoreState)
    requires AreStoreLimits(limits) && StateIsTyped(s) && StateIsSound(limits, s)
    ensures StateOf(limits, StateBytes(s)) == if StateFits(limits, s) then Some(StateAsRead(s)) else None
  {
    StateSchemas(limits);
    WholeDecides(ReadSchema(limits), WRITE_SCHEMA, StateTree(s));
    StateComesBack(s);
    SchemasAreStated(s);
    assert StateTree(s).parts[0].values[0] == SCHEMA && StateTree(s).parts[0].values[1] == Journal.RECORD_VERSION;
  }

  // ----- Something is always written -----

  lemma PartIsWithin(s: Schema, k: nat, ts: seq<Tree>)
    requires s.IsList() && (s.All? ==> k + |ts| == |s.parts|) && ts != []
    ensures |PartsBytes(s, k, ts)| >= |BytesOf(Part(s, k), ts[0])|
  {
  }

  lemma StateIsWritten(s: StoreState)
    ensures StateBytes(s) != []
  {
    PartIsWithin(WRITE_SCHEMA, 0, StateTree(s).parts);
  }

  lemma DeltaIsWritten(limits: StoreLimits, d: Delta)
    requires DeltaFits(limits, d)
    ensures DeltaBytes(d) != []
  {
    var s, t := DeltaSchema(ANY_STORE, KindOf(d)), DeltaTree(d);
    if t.Node? {
      PartIsWithin(s, 0, t.parts);
    }
    if d.SetTopology? {
      FittingLabels(d.topology, limits.build);
    }
  }

  lemma UnsortedParts(p: ContainmentPolicy)
    requires p == ContainmentPolicy(1, 1, 1, [1, 0], [], false, 1)
    ensures var parts, ts := PolicySchema(ANY).parts, PolicyTree(p).parts;
            && |parts| == |ts| == 3
            && Fits(parts[0], ts[0]) && |BytesOf(parts[0], ts[0])| <= 64
            && Fits(parts[1], ts[1]) && |BytesOf(parts[1], ts[1])| <= 64
            && Fits(parts[2], ts[2]) && |BytesOf(parts[2], ts[2])| <= 64
  {
    var parts, ts := PolicySchema(ANY).parts, PolicyTree(p).parts;
    assert RowBytes([], []) == [];
    assert ts[0] == Row([SCHEMA, 1, 1, 1, 0, 1]);
    assert forall i {:trigger ts[0].values[i]} :: 0 <= i < 6 ==> ts[0].values[i] < POLICY_SHAPES[i].bound;
    RowIsShort(ts[0].values, POLICY_SHAPES);
    assert ts[1].parts == [Row([1]), Row([0])];
    RowIsShort([1], [Code(RESOURCE_KINDS)]);
    RowIsShort([0], [Code(RESOURCE_KINDS)]);
    ListAtMost(4, ANY, Values([Code(RESOURCE_KINDS)]), ts[1].parts, 8);
    assert ts[2].parts == [];
    ListAtMost(4, ANY, Values([ID]), ts[2].parts, 8);
  }

  lemma {:induction false} RowIsShort(vs: seq<nat>, shapes: seq<Shape>)
    requires |vs| == |shapes| && forall i {:trigger shapes[i]} :: 0 <= i < |shapes| ==> shapes[i].width <= 8
    ensures |RowBytes(vs, shapes)| <= 8 * |shapes|
    decreases |vs|
  {
    if vs != [] {
      RowIsShort(vs[1..], shapes[1..]);
    }
  }

  lemma UnsortedIsTyped(p: ContainmentPolicy)
    requires p == ContainmentPolicy(1, 1, 1, [1, 0], [], false, 1)
    ensures DeltaIsTyped(SetPolicy(p)) && DeltaBytes(SetPolicy(p)) != []
            && |DeltaBytes(SetPolicy(p))| <= Journal.RECORD_PAYLOAD
  {
    UnsortedParts(p);
    var s, t := PolicySchema(ANY), PolicyTree(p);
    assert forall k {:trigger t.parts[k]} :: 0 <= k < 3 ==> k == 0 || k == 1 || k == 2;
    assert Fits(s, t);
    PartsAtMost(s, 0, t.parts, 64);
    PartIsWithin(s, 0, t.parts);
  }
}
