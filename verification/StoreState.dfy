/** What survives a restart, how a mutation changes it in memory, and how its record is replayed. */
module StoreState {
  import opened Topology
  import opened Evidence
  import opened Planner
  import opened Findings
  import opened Canonical
  import opened Explanations
  import opened TopologyCodec

  datatype BootRecord = BootRecord(
    id: nat, boot: nat, incarnation: nat, epoch: nat, producer: nat, startedAt: nat, closedAt: nat, cleanShutdown: bool)

  datatype LineageRecord = LineageRecord(
    id: nat, sequence: nat, recordedAt: nat, kind: nat, finding: nat, plan: nat, intent: nat, fence: FenceVector,
    subject: seq<nat>, reason: nat, severity: nat)

  /** A finding as it is written down. Its intent is named by a number, and it carries what only reports read, the
      reasons for it among that. */
  datatype StoredFinding = StoredFinding(
    id: nat, generation: nat, assessment: nat, digest: seq<nat>, fence: FenceVector, state: FindingState,
    cause: FenceCause, outcome: nat, flags: nat, witnesses: seq<nat>, resources: seq<nat>, selectors: seq<nat>,
    plan: nat, intent: nat, createdAt: nat, updatedAt: nat, origin: nat, reasons: seq<Reason>)

  datatype StoreState = StoreState(
    generation: nat, topology: Option<Document>, topologyGeneration: nat, policy: Option<ContainmentPolicy>,
    bootLedger: seq<BootRecord>, lineage: seq<LineageRecord>, findings: seq<StoredFinding>, committedFence: FenceVector,
    lineageSequence: nat, findingSequence: nat, assessmentSequence: nat)

  datatype StoreLimits = StoreLimits(
    maxJournalRecords: nat, maxJournalBytes: nat, maxRetainedLineage: nat, maxRetainedFindings: nat,
    maxBootRecords: nat, maxWitnesses: nat, maxReasons: nat, build: BuildLimits)

  /** Which finding is withdrawn, when, and why. */
  datatype Withdrawal = Withdrawal(id: nat, cause: FenceCause, at: nat, reason: nat)

  /** What one journal record says. */
  datatype Delta =
    | SetTopology(topology: Document)
    | SetPolicy(policy: ContainmentPolicy)
    | AppendLineage(record: LineageRecord)
    | UpsertFinding(finding: StoredFinding)
    | WithdrawFinding(withdrawal: Withdrawal)
    | AdvanceBoot(boot: BootRecord)
    | AdvanceFence(fence: FenceVector)
    | NoteShutdown(closed: nat, clean: bool, closedAt: nat)

  /** The record types of the journal; a snapshot is type zero. */
  function KindOf(d: Delta): (r: nat)
    ensures 0 < r < 9
  {
    match d
    case SetTopology(_) => 1
    case SetPolicy(_) => 2
    case AppendLineage(_) => 3
    case UpsertFinding(_) => 4
    case WithdrawFinding(_) => 5
    case AdvanceBoot(_) => 6
    case AdvanceFence(_) => 7
    case NoteShutdown(_, _, _) => 8
  }

  // ----- Edits -----

  /** Drops from the front until no more than `most` are left. */
  function Newest<T>(s: seq<T>, most: nat): (r: seq<T>)
    ensures |s| <= most ==> r == s
    ensures |r| <= most || r == s
  {
    if |s| <= most then s else s[|s| - most..]
  }

  /** Replaces the first finding of the same identity, or appends. */
  function Upserted(findings: seq<StoredFinding>, f: StoredFinding): (r: seq<StoredFinding>)
    ensures |findings| <= |r| <= |findings| + 1
  {
    if findings == [] then [f]
    else if findings[0].id == f.id then [f] + findings[1..]
    else [findings[0]] + Upserted(findings[1..], f)
  }

  predicate HasFinding(findings: seq<StoredFinding>, id: nat) {
    exists i :: 0 <= i < |findings| && findings[i].id == id
  }

  /** What a withdrawal says of itself. */
  const WITHDRAWN_BY: string := "withdrawn by the owning runtime"

  function TextOf(s: string): (text: seq<nat>)
    ensures |text| == |s| && forall i :: 0 <= i < |text| ==> text[i] < 256
  {
    seq(|s|, i requires 0 <= i < |s| => s[i] as nat % 256)
  }

  function ReasonOf(w: Withdrawal): Reason {
    Reason(w.reason, Digits(w.id), TextOf(WITHDRAWN_BY))
  }

  /** The finding withdrawn; the reason for it is added where there is room. */
  function Retracted(most: nat, f: StoredFinding, w: Withdrawal): StoredFinding {
    f.(state := Withdrawn, cause := w.cause, updatedAt := w.at, reasons := Added(most, f.reasons, ReasonOf(w)))
  }

  function WithWithdrawn(most: nat, findings: seq<StoredFinding>, w: Withdrawal): (r: seq<StoredFinding>)
    ensures |r| == |findings|
  {
    if findings == [] then []
    else if findings[0].id == w.id then [Retracted(most, findings[0], w)] + findings[1..]
    else [findings[0]] + WithWithdrawn(most, findings[1..], w)
  }

  predicate HasBoot(ledger: seq<BootRecord>, boot: nat) {
    exists i :: 0 <= i < |ledger| && ledger[i].boot == boot
  }

  function WithClosed(ledger: seq<BootRecord>, boot: nat, clean: bool, at: nat): (r: seq<BootRecord>)
    ensures |r| == |ledger|
  {
    if ledger == [] then []
    else if ledger[0].boot == boot then [ledger[0].(cleanShutdown := clean, closedAt := at)] + ledger[1..]
    else [ledger[0]] + WithClosed(ledger[1..], boot, clean, at)
  }

  // ----- In memory -----

  /** What a mutation publishes in memory once its record is durable. */
  function Mutated(limits: StoreLimits, s: StoreState, d: Delta): StoreState {
    match d
    case SetTopology(t) => s.(topology := Some(t), topologyGeneration := t.generation)
    case SetPolicy(p) => s.(policy := Some(p))
    case AppendLineage(r) =>
      s.(lineage := Newest(s.lineage + [r], limits.maxRetainedLineage), lineageSequence := r.sequence)
    case UpsertFinding(f) =>
      s.(findings := Newest(Upserted(s.findings, f), limits.maxRetainedFindings), findingSequence := f.generation)
    case WithdrawFinding(w) => s.(findings := WithWithdrawn(limits.maxReasons, s.findings, w))
    case AdvanceBoot(b) =>
      s.(bootLedger := s.bootLedger + [b], committedFence := s.committedFence.(boot := b.boot, epoch := b.epoch))
    case AdvanceFence(f) => s.(committedFence := f)
    case NoteShutdown(boot, clean, at) => s.(bootLedger := WithClosed(s.bootLedger, boot, clean, at))
  }

  // ----- On replay -----

  /** What replaying a record makes of a state; nothing when the record is refused. */
  function Replayed(limits: StoreLimits, s: StoreState, d: Delta): Option<StoreState> {
    match d
    case SetTopology(t) => Some(s.(topology := Some(t), topologyGeneration := t.generation))
    case SetPolicy(p) => Some(s.(policy := Some(p)))
    case AppendLineage(r) =>
      if s.lineageSequence != 0 && r.sequence <= s.lineageSequence then None
      else Some(s.(lineage := Newest(s.lineage + [r], limits.maxRetainedLineage), lineageSequence := r.sequence))
    case UpsertFinding(f) =>
      Some(s.(findings := Upserted(s.findings, f), findingSequence := if f.generation != 0 then f.generation
              else s.findingSequence))
    case WithdrawFinding(w) =>
      if HasFinding(s.findings, w.id) then Some(s.(findings := WithWithdrawn(limits.maxReasons, s.findings, w)))
      else None
    case AdvanceBoot(b) =>
      if HasBoot(s.bootLedger, b.boot) then
         Some(s.(bootLedger := WithClosed(s.bootLedger, b.boot, b.cleanShutdown, b.closedAt)))
      else Some(s.(bootLedger := s.bootLedger + [b]))
    case AdvanceFence(f) => Some(s.(committedFence := f))
    case NoteShutdown(boot, clean, at) =>
      if HasBoot(s.bootLedger, boot) then Some(s.(bootLedger := WithClosed(s.bootLedger, boot, clean, at))) else None
  }

  /** What is read of a mutation that was written: the reasons of a finding are added one by one again. */
  function AsRead(d: Delta): Delta {
    if d.UpsertFinding? then UpsertFinding(FindingAsRead(d.finding)) else d
  }

  function FindingAsRead(f: StoredFinding): StoredFinding {
    f.(reasons := Reread(f.reasons))
  }

  /** Equal, but for the boot and epoch of the committed fence, which only a live open moves. */
  predicate SameButBoot(a: StoreState, b: StoreState) {
    b == a.(committedFence := a.committedFence.(boot := b.committedFence.boot, epoch := b.committedFence.epoch))
  }

  /** What the caller's side of a mutation checks before its record is written. */
  predicate Allowed(limits: StoreLimits, s: StoreState, d: Delta) {
    match d
    case SetTopology(t) => IsBuiltDocument(t, limits.build)
      && (s.topologyGeneration == 0 || t.generation > s.topologyGeneration)
    case SetPolicy(p) => p.generation != 0 && (s.policy.None? || p.generation >= s.policy.value.generation)
    case AppendLineage(r) => r.sequence != 0 && (s.lineageSequence == 0 || r.sequence > s.lineageSequence)
    case UpsertFinding(f) => f.id != 0 && f.generation != 0
    case WithdrawFinding(_) => true
    case AdvanceBoot(b) => !HasBoot(s.bootLedger, b.boot)
    case AdvanceFence(_) => true
    case NoteShutdown(boot, _, _) => HasBoot(s.bootLedger, boot)
  }

  /** Where memory and replay part: a finding pushed out of memory, one whose reasons are not settled, and a withdrawal
      of one that is not there. */
  predicate KeepsStep(limits: StoreLimits, s: StoreState, d: Delta) {
    match d
    case UpsertFinding(f) => |Upserted(s.findings, f)| <= limits.maxRetainedFindings && IsSettled(f.reasons)
    case WithdrawFinding(w) => HasFinding(s.findings, w.id)
    case _ => true
  }

  /** Replaying an allowed mutation gives what memory has exactly when memory and replay keep step. */
  lemma ReplayMatches(limits: StoreLimits, disk: StoreState, memory: StoreState, d: Delta)
    requires SameButBoot(disk, memory) && Allowed(limits, memory, d)
    ensures (Replayed(limits, disk, AsRead(d)).Some?
             && SameButBoot(Replayed(limits, disk, AsRead(d)).value, Mutated(limits, memory, d)))
            <==> KeepsStep(limits, memory, d)
  {
    if d.UpsertFinding? {
      var all := Upserted(memory.findings, d.finding);
      RereadDecides(d.finding.reasons);
      UpsertsDiffer(memory.findings, d.finding, AsRead(d).finding);
      if |all| > limits.maxRetainedFindings {
        assert |Newest(all, limits.maxRetainedFindings)| == limits.maxRetainedFindings;
      }
    }
  }

  /** Different findings of one identity make a difference. */
  lemma {:induction false} UpsertsDiffer(findings: seq<StoredFinding>, f: StoredFinding, g: StoredFinding)
    requires f.id == g.id
    ensures |Upserted(findings, f)| == |Upserted(findings, g)|
    ensures Upserted(findings, f) == Upserted(findings, g) ==> f == g
    decreases |findings|
  {
    if findings != [] && findings[0].id != f.id {
      UpsertsDiffer(findings[1..], f, g);
      assert Upserted(findings, f)[1..] == Upserted(findings[1..], f);
      assert Upserted(findings, g)[1..] == Upserted(findings[1..], g);
    } else {
      assert Upserted(findings, f)[0] == f && Upserted(findings, g)[0] == g;
    }
  }

  // ----- Boots -----

  function MaxBoot(ledger: seq<BootRecord>): (r: nat)
    ensures forall i :: 0 <= i < |ledger| ==> ledger[i].boot <= r
  {
    if ledger == [] then 0 else
      var rest := MaxBoot(ledger[..|ledger| - 1]);
      if ledger[|ledger| - 1].boot > rest then ledger[|ledger| - 1].boot else rest
  }

  function MaxIncarnation(ledger: seq<BootRecord>): (r: nat)
    ensures forall i :: 0 <= i < |ledger| ==> ledger[i].incarnation <= r
  {
    if ledger == [] then 0 else
      var rest := MaxIncarnation(ledger[..|ledger| - 1]);
      if ledger[|ledger| - 1].incarnation > rest then ledger[|ledger| - 1].incarnation else rest
  }

  function MaxEpoch(ledger: seq<BootRecord>, committed: nat): (r: nat)
    ensures committed <= r && forall i :: 0 <= i < |ledger| ==> ledger[i].epoch <= r
  {
    if ledger == [] then committed else
      var rest := MaxEpoch(ledger[..|ledger| - 1], committed);
      if ledger[|ledger| - 1].epoch > rest then ledger[|ledger| - 1].epoch else rest
  }

  /** The epoch in memory is one that a mint from what is on disk rises above. */
  predicate EpochIsKept(disk: StoreState, memory: StoreState) {
    memory.committedFence.epoch <= MaxEpoch(disk.bootLedger, disk.committedFence.epoch)
  }

  lemma MaxEpochOfClosed(ledger: seq<BootRecord>, boot: nat, clean: bool, at: nat, committed: nat, e: nat)
    requires e <= MaxEpoch(ledger, committed)
    ensures e <= MaxEpoch(WithClosed(ledger, boot, clean, at), committed)
  {
    var closed := WithClosed(ledger, boot, clean, at);
    if e > committed {
      var i := HasEpoch(ledger, committed, e);
      ClosingKeepsNumbers(ledger, boot, clean, at, i);
      assert closed[i].epoch <= MaxEpoch(closed, committed);
    }
  }

  lemma {:induction false} ClosingKeepsNumbers(ledger: seq<BootRecord>, boot: nat, clean: bool, at: nat, i: nat)
    requires i < |ledger|
    ensures var r := WithClosed(ledger, boot, clean, at)[i];
            r.boot == ledger[i].boot && r.incarnation == ledger[i].incarnation && r.epoch == ledger[i].epoch
    decreases |ledger|
  {
    if i > 0 && ledger[0].boot != boot {
      ClosingKeepsNumbers(ledger[1..], boot, clean, at, i - 1);
    }
  }

  lemma {:induction false} HasEpoch(ledger: seq<BootRecord>, committed: nat, e: nat) returns (i: nat)
    requires committed < e <= MaxEpoch(ledger, committed)
    ensures i < |ledger| && e <= ledger[i].epoch
    decreases |ledger|
  {
    var last := |ledger| - 1;
    if e <= ledger[last].epoch {
      i := last;
    } else {
      i := HasEpoch(ledger[..last], committed, e);
    }
  }

  /** Whatever is replayed, a mint from what is on disk stays above the epoch in memory. */
  lemma EpochStays(limits: StoreLimits, disk: StoreState, memory: StoreState, d: Delta)
    requires SameButBoot(disk, memory) && EpochIsKept(disk, memory) && Allowed(limits, memory, d)
             && Replayed(limits, disk, AsRead(d)).Some?
    ensures EpochIsKept(Replayed(limits, disk, AsRead(d)).value, Mutated(limits, memory, d))
  {
    if d.AdvanceBoot? {
      var more := disk.bootLedger + [d.boot];
      assert more[|disk.bootLedger|].epoch <= MaxEpoch(more, disk.committedFence.epoch);
    } else if d.NoteShutdown? {
      MaxEpochOfClosed(disk.bootLedger, d.closed, d.clean, d.closedAt, disk.committedFence.epoch,
                       memory.committedFence.epoch);
    }
  }

  const ID_MAX: nat := 0xFFFF_FFFF_FFFF_FFFF

  /** The boot record a new open mints; nothing when a number space is exhausted. */
  function Minted(s: StoreState, producer: nat, now: nat): (r: Option<BootRecord>)
    ensures r.Some? ==> !HasBoot(s.bootLedger, r.value.boot) && r.value.epoch > s.committedFence.epoch
    ensures r.Some? ==> forall i :: 0 <= i < |s.bootLedger| ==>
              && s.bootLedger[i].boot < r.value.boot && s.bootLedger[i].incarnation < r.value.incarnation
              && s.bootLedger[i].epoch < r.value.epoch
  {
    var boot, incarnation := MaxBoot(s.bootLedger), MaxIncarnation(s.bootLedger);
    var epoch := MaxEpoch(s.bootLedger, s.committedFence.epoch);
    if boot == ID_MAX || incarnation == ID_MAX || epoch == ID_MAX then None
    else Some(BootRecord(boot + 1, boot + 1, incarnation + 1, epoch + 1, producer, now, 0, false))
  }
}
