/** The durable store over a document of bytes: appending, compacting, reading back, and minting boots. */
module StoreModel {
  import opened Bytes
  import opened FrameStream
  import opened Frames
  import opened Journal
  import opened Topology
  import opened Evidence
  import opened StoreState
  import Canonical
  import opened StoreCodec
  import opened Readability
  import Planner
  import Codecs

  const MAX_GENERATION: nat := 0xFFFF_FFFF

  /** Limits as the program keeps them. */
  type SaneLimits = l: StoreLimits | AreStoreLimits(l)
    witness StoreLimits(1, 0, 0, 0, 0, 0, 1, Canonical.BuildLimits(0, 0, 0))

  datatype Env = Env(digest: DigestFunction, limits: SaneLimits)

  // ----- Writing -----

  /** What the store holds: the state in memory, the document on disk, and its counts. */
  datatype Store = Store(state: StoreState, file: seq<byte>, next: nat, bytes: nat, records: nat)

  datatype Step = Step(ok: bool, store: Store)

  /** The document becomes one snapshot. The generation moves in memory even when nothing can be written. */
  function Rewritten(env: Env, v: Store, generation: nat): Step {
    var state := v.state.(generation := generation);
    var snapshot := StateBytes(state);
    if snapshot == [] || |snapshot| > SNAPSHOT_PAYLOAD then Step(false, v.(state := state))
    else
      var file := FrameRecord(env.digest, Record(0, generation, 1, snapshot));
      Step(true, v.(state := state, file := file, bytes := |file|, records := 1))
  }

  function Compacted(env: Env, v: Store): Step {
    if v.state.generation == MAX_GENERATION then Step(false, v) else
      var r := Rewritten(env, v, v.state.generation + 1);
      if r.ok then Step(true, r.store.(next := 2)) else r
  }

  predicate NeedsCompaction(env: Env, v: Store) {
    v.bytes > env.limits.maxJournalBytes || v.records > env.limits.maxJournalRecords
  }

  /** Compacts before appending, never after. */
  function Appended(env: Env, v: Store, kind: nat, payload: seq<byte>): Step {
    if |payload| > RECORD_PAYLOAD then Step(false, v) else
      var room := if NeedsCompaction(env, v) then Compacted(env, v) else Step(true, v);
      if !room.ok then room else
        var w := room.store;
        var frame := FrameRecord(env.digest, Record(kind, w.state.generation, w.next, payload));
        Step(true, w.(file := w.file + frame, next := w.next + 1, bytes := w.bytes + |frame|, records := w.records + 1))
  }

  /** A durable mutation: its record first, then the state in memory. */
  function Mutation(env: Env, v: Store, d: Delta): Step {
    if !Allowed(env.limits, v.state, d) then Step(false, v) else
      var payload := DeltaBytes(d);
      if payload == [] then Step(false, v) else
        var r := Appended(env, v, KindOf(d), payload);
        if r.ok then Step(true, r.store.(state := Mutated(env.limits, r.store.state, d))) else r
  }

  /** The record of a mutation, as it is appended next. */
  function RecordFor(v: Store, d: Delta): Record {
    Record(KindOf(d), v.state.generation, v.next, DeltaBytes(d))
  }

  /** What a mutation makes of a store whose journal has room for its record. */
  function Recorded(env: Env, v: Store, d: Delta): Store {
    var frame := FrameRecord(env.digest, RecordFor(v, d));
    v.(file := v.file + frame, next := v.next + 1, bytes := v.bytes + |frame|, records := v.records + 1,
       state := Mutated(env.limits, v.state, d))
  }

  lemma MutationRecords(env: Env, v: Store, d: Delta)
    requires Allowed(env.limits, v.state, d) && DeltaBytes(d) != [] && |DeltaBytes(d)| <= RECORD_PAYLOAD
    ensures !NeedsCompaction(env, v) ==> Mutation(env, v, d) == Step(true, Recorded(env, v, d))
    ensures NeedsCompaction(env, v) && Compacted(env, v).ok ==>
            Mutation(env, v, d) == Step(true, Recorded(env, Compacted(env, v).store, d))
  {
  }

  // ----- Reading -----

  const NO_FENCE: FenceVector := FenceVector(0, 0, 0, 0, 0, 0)
  const EMPTY_STATE: StoreState := StoreState(1, None, 0, None, [], [], [], NO_FENCE, 0, 0, 0)

  function ReplayOne(env: Env, s: StoreState, r: Record): Option<StoreState> {
    if r.kind == 0 then StateOf(env.limits, r.payload) else
      var d := DeltaOf(env.limits, r.kind, r.payload);
      if d.None? then None else Replayed(env.limits, s, d.value)
  }

  function ReplayAll(env: Env, rs: seq<Record>): Option<StoreState> {
    if rs == [] then Some(EMPTY_STATE) else
      var before := ReplayAll(env, rs[..|rs| - 1]);
      if before.None? then None else ReplayOne(env, before.value, rs[|rs| - 1])
  }

  datatype Reading = Read(state: StoreState, records: seq<Record>, good: nat) | Refused

  function LengthBefore(bytes: seq<byte>, rest: seq<byte>): nat {
    if |rest| <= |bytes| then |bytes| - |rest| else 0
  }

  /** Reads a document: every record that is whole must be sound, in order, and replayable. */
  ghost function ReadDocument(env: Env, bytes: seq<byte>): Reading {
    var s := Scanned(env.digest, bytes);
    if s.end != Open || !IsOrderly(s.frames) || |s.frames| > env.limits.maxJournalRecords then Refused else
      var state := ReplayAll(env, s.frames);
      if state.None? then Refused else Read(state.value, s.frames, LengthBefore(bytes, s.rest))
  }

  // ----- Opening -----

  datatype Opening = Opened(store: Store, boot: BootRecord) | NotOpened

  const FRESH_FENCE: FenceVector := FenceVector(1, 1, 1, 1, 0, 0)

  /** Opens a document: a torn tail is cut off, and a new boot is recorded above every earlier one. */
  ghost function OpenDocument(env: Env, bytes: seq<byte>, producer: nat, now: nat): Opening {
    var r := ReadDocument(env, bytes);
    if r.Refused? then NotOpened
    else if r.records == [] then
      var boot := Minted(EMPTY_STATE, producer, now);
      if boot.None? then NotOpened else
        var fence := FRESH_FENCE.(boot := boot.value.boot, epoch := boot.value.epoch);
        var first := Store(EMPTY_STATE.(committedFence := fence, bootLedger := [boot.value]), [], 2, 0, 0);
        var written := Rewritten(env, first, 1);
        if written.ok then Opened(written.store, boot.value) else NotOpened
    else
      var boot := Minted(r.state, producer, now);
      if boot.None? then NotOpened else
        var v := Store(r.state, bytes[..r.good], |r.records| + 1, r.good, |r.records|);
        var written := Mutation(env, v, AdvanceBoot(boot.value));
        if written.ok then Opened(written.store, boot.value) else NotOpened
  }

  // ----- The document refines memory -----

  /** The document holds the records `rs`, and replaying them gives what memory holds, but for the boot and epoch of the
      committed fence, above which the next mint still is; and either state could be read back from a snapshot, if it
      does not hold too many boots or findings. */
  ghost predicate Holds(env: Env, v: Store, rs: seq<Record>) {
    && rs != [] && v.file == FrameAll(env.digest, rs) && AreRecords(rs) && IsOrderly(rs)
    && rs[0].generation == v.state.generation
    && v.records == |rs| <= env.limits.maxJournalRecords + 1 && v.next == |rs| + 1 && v.bytes == |v.file|
    && ReplayAll(env, rs).Some? && SameButBoot(ReplayAll(env, rs).value, v.state)
    && EpochIsKept(ReplayAll(env, rs).value, v.state)
    && IsReadable(env.limits, v.state) && IsReadable(env.limits, ReplayAll(env, rs).value)
  }

  function NextSnapshot(v: Store): StoreState {
    v.state.(generation := v.state.generation + 1)
  }

  /** A snapshot of the state can be written, is small enough to be read back, and holds no more boots and findings than
      a reader takes. */
  predicate CanCompact(env: Env, v: Store) {
    && v.state.generation < MAX_GENERATION
    && |v.state.bootLedger| <= env.limits.maxBootRecords && |v.state.findings| <= env.limits.maxRetainedFindings
    && |StateBytes(NextSnapshot(v))| <= RECORD_PAYLOAD
  }

  lemma OneSnapshot(env: Env, state: StoreState)
    requires IsReadable(env.limits, state) && |StateBytes(state)| <= RECORD_PAYLOAD
    requires |state.bootLedger| <= env.limits.maxBootRecords && |state.findings| <= env.limits.maxRetainedFindings
    ensures var rs := [Record(0, state.generation, 1, StateBytes(state))];
            && AreRecords(rs) && IsOrderly(rs) && ReplayAll(env, rs) == Some(state)
            && FrameAll(env.digest, rs) == FrameRecord(env.digest, rs[0])
  {
    var r := Record(0, state.generation, 1, StateBytes(state));
    LedgerDecides(env.limits, state);
    StateDecides(env.limits, state);
    SettledIsRead(state);
    OneRecord(env, r);
  }

  lemma NextIsReadable(limits: StoreLimits, s: StoreState)
    requires IsReadable(limits, s) && s.generation < MAX_GENERATION
    ensures IsReadable(limits, s.(generation := s.generation + 1))
  {
  }

  /** Compacting a state that fits leaves a document of one snapshot that is exactly the state, whatever the document
      was. */
  lemma CompactionHolds(env: Env, v: Store) returns (rs: seq<Record>)
    requires IsReadable(env.limits, v.state) && CanCompact(env, v)
    ensures Compacted(env, v).ok && Holds(env, Compacted(env, v).store, rs) && |rs| == 1
    ensures Compacted(env, v).store.state == NextSnapshot(v) && ReplayAll(env, rs) == Some(NextSnapshot(v))
  {
    var next := NextSnapshot(v);
    rs := [Record(0, next.generation, 1, StateBytes(next))];
    NextIsReadable(env.limits, v.state);
    OneSnapshot(env, next);
    StateIsWritten(next);
  }

  lemma CompactionKeeps(env: Env, v: Store, rs: seq<Record>) returns (rs': seq<Record>)
    requires Holds(env, v, rs) && CanCompact(env, v)
    ensures Compacted(env, v).ok && Holds(env, Compacted(env, v).store, rs') && |rs'| == 1
    ensures Compacted(env, v).store.state == NextSnapshot(v)
    ensures ReplayAll(env, rs') == Some(Compacted(env, v).store.state)
  {
    rs' := CompactionHolds(env, v);
  }

  lemma OneMore(env: Env, rs: seq<Record>, r: Record)
    requires rs != [] && AreRecords(rs) && IsOrderly(rs) && IsRecord(r)
    requires r.kind != 0 && r.generation == rs[0].generation && r.sequence == |rs| + 1
    ensures AreRecords(rs + [r]) && IsOrderly(rs + [r])
    ensures FrameAll(env.digest, rs + [r]) == FrameAll(env.digest, rs) + FrameRecord(env.digest, r)
    ensures ReplayAll(env, rs).Some? ==> ReplayAll(env, rs + [r]) == ReplayOne(env, ReplayAll(env, rs).value, r)
  {
    FramedAppends(env.digest, rs, r);
    assert (rs + [r])[..|rs|] == rs;
  }

  /** What a mutation appended without compaction leaves on disk, and how it is read. */
  lemma RecordAppended(env: Env, v: Store, rs: seq<Record>, d: Delta)
    requires Holds(env, v, rs) && v.records <= env.limits.maxJournalRecords && |DeltaBytes(d)| <= RECORD_PAYLOAD
    requires Allowed(env.limits, v.state, d) && DeltaIsTyped(d)
    ensures var all := rs + [RecordFor(v, d)];
            && AreRecords(all) && IsOrderly(all)
            && FrameAll(env.digest, all) == v.file + FrameRecord(env.digest, RecordFor(v, d))
            && ReplayAll(env, all) == if DeltaFits(env.limits, d)
                                      then Replayed(env.limits, ReplayAll(env, rs).value, AsRead(d)) else None
  {
    assert Fits(v.state.generation, 4) && Fits(v.next, 8) by {
      assert IsRecord(rs[0]);
    }
    OneMore(env, rs, RecordFor(v, d));
    DeltaDecides(env.limits, d);
  }

  /** What is on disk is readable where memory is. */
  lemma DiskIsReadable(limits: StoreLimits, disk: StoreState, memory: StoreState)
    requires SameButBoot(disk, memory) && IsReadable(limits, memory)
    requires FenceFits(disk.committedFence) && !FenceIsZero(disk.committedFence)
    ensures IsReadable(limits, disk)
  {
  }

  lemma ReplayedIsReadable(limits: StoreLimits, disk: StoreState, memory: StoreState, d: Delta)
    requires AreStoreLimits(limits) && IsReadable(limits, disk) && Replayed(limits, disk, AsRead(d)).Some?
             && DeltaFits(limits, d)
    requires SameButBoot(Replayed(limits, disk, AsRead(d)).value, memory) && IsReadable(limits, memory)
    ensures IsReadable(limits, Replayed(limits, disk, AsRead(d)).value)
  {
    if d.AdvanceFence? {
      FenceIsTyped(limits, d.fence);
    }
    DiskIsReadable(limits, Replayed(limits, disk, AsRead(d)).value, memory);
  }

  /** Appending the record of a mutation to a document that has room. */
  lemma AppendKeeps(env: Env, v: Store, rs: seq<Record>, d: Delta) returns (rs': seq<Record>)
    requires Holds(env, v, rs) && v.records <= env.limits.maxJournalRecords && CanRecord(env, v, d)
    ensures rs' == rs + [RecordFor(v, d)] && Holds(env, Recorded(env, v, d), rs')
  {
    rs' := rs + [RecordFor(v, d)];
    FitsLooser(env.limits, d);
    RecordAppended(env, v, rs, d);
    ReplayMatches(env.limits, ReplayAll(env, rs).value, v.state, d);
    EpochStays(env.limits, ReplayAll(env, rs).value, v.state, d);
    MutatedStays(env.limits, v.state, d);
    ReplayedIsReadable(env.limits, ReplayAll(env, rs).value, Mutated(env.limits, v.state, d), d);
  }

  /** What a record of a mutation needs beside what its caller checks: that a reader accepts it, that memory and replay
      keep step, that it is small enough, and that boots can still be counted. */
  predicate CanRecord(env: Env, v: Store, d: Delta) {
    && Allowed(env.limits, v.state, d) && KeepsStep(env.limits, v.state, d) && DeltaFits(env.limits, d)
    && |DeltaBytes(d)| <= RECORD_PAYLOAD
    && HasRoomFor(env.limits, v.state, d)
  }

  /** What a mutation needs: a record of it, and, when the journal is over its bounds, a snapshot. */
  predicate InBounds(env: Env, v: Store, d: Delta) {
    CanRecord(env, v, d) && (NeedsCompaction(env, v) ==> CanCompact(env, v))
  }

  /** A mutation in bounds succeeds, and the document goes on refining memory. */
  lemma MutationKeeps(env: Env, v: Store, rs: seq<Record>, d: Delta) returns (rs': seq<Record>)
    requires Holds(env, v, rs) && InBounds(env, v, d)
    ensures Mutation(env, v, d).ok && Holds(env, Mutation(env, v, d).store, rs')
    ensures SameButGeneration(Mutation(env, v, d).store.state, Mutated(env.limits, v.state, d))
  {
    DeltaIsWritten(env.limits, d);
    MutationRecords(env, v, d);
    if NeedsCompaction(env, v) {
      var one := CompactionKeeps(env, v, rs);
      rs' := CompactedThenRecorded(env, v, Compacted(env, v).store, one, d);
    } else {
      rs' := AppendKeeps(env, v, rs, d);
    }
  }

  lemma CompactedThenRecorded(env: Env, v: Store, w: Store, one: seq<Record>, d: Delta) returns (rs': seq<Record>)
    requires Holds(env, w, one) && |one| == 1 && w.state == NextSnapshot(v) && CanRecord(env, v, d)
    ensures Holds(env, Recorded(env, w, d), rs')
    ensures SameButGeneration(Recorded(env, w, d).state, Mutated(env.limits, v.state, d))
  {
    SameAfterCompaction(env.limits, v.state, w.state, d);
    rs' := AppendKeeps(env, w, one, d);
  }

  predicate SameButGeneration(a: StoreState, b: StoreState) {
    a == b.(generation := a.generation)
  }

  lemma SameAfterCompaction(limits: StoreLimits, a: StoreState, b: StoreState, d: Delta)
    requires SameButGeneration(a, b)
    ensures Allowed(limits, a, d) == Allowed(limits, b, d) && KeepsStep(limits, a, d) == KeepsStep(limits, b, d)
    ensures SameButGeneration(Mutated(limits, a, d), Mutated(limits, b, d))
  {
  }

  // ----- Reading back, whole or torn -----

  /** The record being appended when the process died, and how many of its bytes reached the disk. */
  datatype Tear = NoTear | Torn(record: Record, cut: nat)

  predicate IsTear(env: Env, tear: Tear) {
    tear.Torn? ==> IsRecord(tear.record) && tear.cut < |FrameRecord(env.digest, tear.record)|
  }

  function TornBytes(env: Env, tear: Tear): seq<byte>
    requires IsTear(env, tear)
  {
    if tear.NoTear? then [] else FrameRecord(env.digest, tear.record)[..tear.cut]
  }

  /** A document with a record torn behind it is scanned as the document. */
  lemma TornDocument(env: Env, rs: seq<Record>, tear: Tear)
    requires AreRecords(rs) && IsTear(env, tear)
    ensures Scanned(env.digest, FrameAll(env.digest, rs) + TornBytes(env, tear))
            == Stream(rs, TornBytes(env, tear), Open)
  {
    var r := if tear.Torn? then tear.record else Record(1, 1, 1, []);
    var cut := if tear.Torn? then tear.cut else 0;
    CutRecord(env.digest, r, cut);
    assert TornBytes(env, tear) == FrameRecord(env.digest, r)[..cut];
    ScanOfTorn(env.digest, rs, TornBytes(env, tear));
  }

  /** Reading a document back, even with a torn append behind it, gives its records and what memory held, but for the
      boot and epoch of the committed fence; it is refused exactly when the journal is over its bound. */
  lemma ReadsBack(env: Env, v: Store, rs: seq<Record>, tear: Tear)
    requires Holds(env, v, rs) && IsTear(env, tear)
    ensures var r := ReadDocument(env, v.file + TornBytes(env, tear));
            if v.records <= env.limits.maxJournalRecords then
              r == Read(ReplayAll(env, rs).value, rs, |v.file|) && SameButBoot(r.state, v.state)
            else r == Refused
  {
    TornDocument(env, rs, tear);
  }

  /** The store a document is read into, before a boot is minted. */
  function ReadStore(bytes: seq<byte>, state: StoreState, records: seq<Record>, good: nat): Store
    requires good <= |bytes|
  {
    Store(state, bytes[..good], |records| + 1, good, |records|)
  }

  /** What opening needs beside a document that reads: numbers left to mint, and room for the boot record. */
  ghost predicate CanReopen(env: Env, bytes: seq<byte>, producer: nat, now: nat) {
    var r := ReadDocument(env, bytes);
    && r.Read? && r.good <= |bytes| && Minted(r.state, producer, now).Some?
    && InBounds(env, ReadStore(bytes, r.state, r.records, r.good), AdvanceBoot(Minted(r.state, producer, now).value))
  }

  predicate IsAbove(boot: BootRecord, s: StoreState) {
    && s.committedFence.epoch < boot.epoch
    && forall i {:trigger s.bootLedger[i]} :: 0 <= i < |s.bootLedger| ==>
      && s.bootLedger[i].boot < boot.boot && s.bootLedger[i].incarnation < boot.incarnation
      && s.bootLedger[i].epoch < boot.epoch
  }

  /** Opening the document again, even with a torn append behind it, restores what memory held and mints a boot, an
      incarnation and an epoch above every earlier one; and the document refines the new memory. */
  lemma ReopenKeeps(env: Env, v: Store, rs: seq<Record>, tear: Tear, producer: nat, now: nat) returns (rs': seq<Record>)
    requires Holds(env, v, rs) && IsTear(env, tear)
    requires v.records <= env.limits.maxJournalRecords && CanReopen(env, v.file + TornBytes(env, tear), producer, now)
    ensures var o := OpenDocument(env, v.file + TornBytes(env, tear), producer, now);
            && o.Opened? && Holds(env, o.store, rs')
            && SameButGeneration(o.store.state, Mutated(env.limits, v.state, AdvanceBoot(o.boot)))
            && IsAbove(o.boot, v.state)
  {
    OpeningIs(env, v, rs, tear, producer, now);
    var disk := ReplayAll(env, rs).value;
    var boot := Minted(disk, producer, now).value;
    GenerationIsRead(env, v, rs);
    rs' := MutationKeeps(env, v.(state := disk), rs, AdvanceBoot(boot));
    MintedIsAbove(env.limits, disk, v.state, boot);
  }

  /** Opening reads the records back and records a boot. */
  lemma OpeningIs(env: Env, v: Store, rs: seq<Record>, tear: Tear, producer: nat, now: nat)
    requires Holds(env, v, rs) && IsTear(env, tear)
    requires v.records <= env.limits.maxJournalRecords && CanReopen(env, v.file + TornBytes(env, tear), producer, now)
    ensures var disk := ReplayAll(env, rs).value;
            && Minted(disk, producer, now).Some?
            && var boot := Minted(disk, producer, now).value;
               var w := v.(state := disk);
               && InBounds(env, w, AdvanceBoot(boot))
               && OpenDocument(env, v.file + TornBytes(env, tear), producer, now)
                  == var written := Mutation(env, w, AdvanceBoot(boot));
                     if written.ok then Opened(written.store, boot) else NotOpened
  {
    var bytes := v.file + TornBytes(env, tear);
    ReadsBack(env, v, rs, tear);
    assert bytes[..|v.file|] == v.file;
    assert ReadStore(bytes, ReplayAll(env, rs).value, rs, |v.file|) == v.(state := ReplayAll(env, rs).value);
  }

  lemma MintedIsAbove(limits: StoreLimits, disk: StoreState, memory: StoreState, boot: BootRecord)
    requires SameButBoot(disk, memory) && EpochIsKept(disk, memory)
    requires exists producer, now :: Minted(disk, producer, now) == Some(boot)
    ensures IsAbove(boot, memory)
    ensures Mutated(limits, disk, AdvanceBoot(boot)) == Mutated(limits, memory, AdvanceBoot(boot))
  {
  }

  lemma GenerationIsRead(env: Env, v: Store, rs: seq<Record>)
    requires Holds(env, v, rs)
    ensures Holds(env, v.(state := ReplayAll(env, rs).value), rs)
  {
  }

  // ----- Every run -----

  datatype Event = Mutate(d: Delta) | Compact | Reopen(tear: Tear, producer: nat, now: nat)

  /** What an event needs to stay inside the bounds within which the document refines memory. */
  ghost predicate IsInBounds(env: Env, v: Store, e: Event) {
    match e
    case Mutate(d) => InBounds(env, v, d)
    case Compact => CanCompact(env, v)
    case Reopen(tear, producer, now) =>
      && IsTear(env, tear) && v.records <= env.limits.maxJournalRecords
      && CanReopen(env, v.file + TornBytes(env, tear), producer, now)
  }

  ghost function After(env: Env, v: Store, e: Event): Store {
    match e
    case Mutate(d) => Mutation(env, v, d).store
    case Compact => Compacted(env, v).store
    case Reopen(tear, producer, now) =>
      if !IsTear(env, tear) then v else
        var o := OpenDocument(env, v.file + TornBytes(env, tear), producer, now);
        if o.Opened? then o.store else v
  }

  ghost function AfterAll(env: Env, v: Store, es: seq<Event>): Store {
    if es == [] then v else After(env, AfterAll(env, v, es[..|es| - 1]), es[|es| - 1])
  }

  ghost predicate AllInBounds(env: Env, v: Store, es: seq<Event>) {
    es == [] || (AllInBounds(env, v, es[..|es| - 1]) && IsInBounds(env, AfterAll(env, v, es[..|es| - 1]), es[|es| - 1]))
  }

  /** Boots, incarnations and epochs rise along the ledger. */
  predicate LedgerRises(s: StoreState) {
    forall i, j {:trigger s.bootLedger[i], s.bootLedger[j]} :: 0 <= i < j < |s.bootLedger| ==>
      && s.bootLedger[i].boot < s.bootLedger[j].boot && s.bootLedger[i].incarnation < s.bootLedger[j].incarnation
      && s.bootLedger[i].epoch < s.bootLedger[j].epoch
  }

  /** Boots are recorded by opening only. */
  predicate OpensOnly(es: seq<Event>) {
    forall i {:trigger es[i]} :: 0 <= i < |es| ==> es[i].Mutate? ==> !es[i].d.AdvanceBoot?
  }

  lemma RisingStays(limits: StoreLimits, s: StoreState, d: Delta)
    requires LedgerRises(s) && (d.AdvanceBoot? ==> IsAbove(d.boot, s))
    ensures LedgerRises(Mutated(limits, s, d))
  {
    if d.NoteShutdown? {
      var r := WithClosed(s.bootLedger, d.closed, d.clean, d.closedAt);
      forall i, j | 0 <= i < j < |r|
        ensures r[i].boot < r[j].boot && r[i].incarnation < r[j].incarnation && r[i].epoch < r[j].epoch
      {
        ClosingKeepsNumbers(s.bootLedger, d.closed, d.clean, d.closedAt, i);
        ClosingKeepsNumbers(s.bootLedger, d.closed, d.clean, d.closedAt, j);
      }
    }
  }

  /** After every run of mutations, compactions, crashes and opens inside the bounds, the document refines memory, and
      every open has minted numbers above all earlier ones. */
  lemma {:induction false} EveryRunRefines(env: Env, v: Store, rs: seq<Record>, es: seq<Event>)
    returns (rs': seq<Record>)
    requires Holds(env, v, rs) && AllInBounds(env, v, es)
    requires LedgerRises(v.state) && OpensOnly(es)
    ensures Holds(env, AfterAll(env, v, es), rs') && LedgerRises(AfterAll(env, v, es).state)
    decreases |es|
  {
    rs' := rs;
    if es != [] {
      var front, e := es[..|es| - 1], es[|es| - 1];
      var before := EveryRunRefines(env, v, rs, front);
      rs' := EventKeeps(env, AfterAll(env, v, front), before, e);
    }
  }

  lemma EventKeeps(env: Env, v: Store, rs: seq<Record>, e: Event) returns (rs': seq<Record>)
    requires Holds(env, v, rs) && IsInBounds(env, v, e)
    requires LedgerRises(v.state) && (e.Mutate? ==> !e.d.AdvanceBoot?)
    ensures Holds(env, After(env, v, e), rs') && LedgerRises(After(env, v, e).state)
  {
    match e
    case Mutate(d) =>
      rs' := MutationKeeps(env, v, rs, d);
      RisingStays(env.limits, v.state, d);
    case Compact =>
      rs' := CompactionKeeps(env, v, rs);
    case Reopen(tear, producer, now) =>
      rs' := ReopenKeeps(env, v, rs, tear, producer, now);
      RisingStays(env.limits, v.state,
                  AdvanceBoot(OpenDocument(env, v.file + TornBytes(env, tear), producer, now).boot));
  }

  /** A new document begins with one snapshot that holds its first boot. */
  lemma FreshDocumentHolds(env: Env, producer: nat, now: nat) returns (rs: seq<Record>)
    requires env.limits.maxBootRecords > 0 && IsId(producer) && IsId(now)
    ensures var o := OpenDocument(env, [], producer, now);
            && o.Opened? && Holds(env, o.store, rs) && LedgerRises(o.store.state)
            && o.boot.boot == o.boot.incarnation == o.boot.epoch == 1 && o.store.state.bootLedger == [o.boot]
  {
    NothingScanned(env.digest);
    var boot := Minted(EMPTY_STATE, producer, now).value;
    var s := EMPTY_STATE.(committedFence := FRESH_FENCE.(boot := boot.boot, epoch := boot.epoch), bootLedger := [boot]);
    FreshIsSmall(s, boot);
    StateIsWritten(s);
    OneSnapshot(env, s);
    rs := [Record(0, 1, 1, StateBytes(s))];
  }

  // ----- Where the document stops refining memory -----

  /** A document of which replay refuses a record, or which is too long, no open accepts. */
  lemma RefusedForEver(env: Env, rs: seq<Record>, producer: nat, now: nat)
    requires AreRecords(rs) && (ReplayAll(env, rs).None? || |rs| > env.limits.maxJournalRecords || !IsOrderly(rs))
    ensures ReadDocument(env, FrameAll(env.digest, rs)) == Refused
    ensures OpenDocument(env, FrameAll(env.digest, rs), producer, now) == NotOpened
  {
    WholeDocument(env, rs);
  }

  /** What the caller's side asks for a mutation to be appended without compaction. */
  predicate IsAppended(env: Env, v: Store, d: Delta) {
    && v.records <= env.limits.maxJournalRecords && !NeedsCompaction(env, v)
    && Allowed(env.limits, v.state, d) && DeltaIsTyped(d) && DeltaBytes(d) != [] && |DeltaBytes(d)| <= RECORD_PAYLOAD
  }

  /** A reader accepts the record, and the journal had room for it. */
  predicate IsReadBack(env: Env, v: Store, d: Delta) {
    && v.records < env.limits.maxJournalRecords && DeltaFits(env.limits, d)
    && (d.WithdrawFinding? ==> HasFinding(v.state.findings, d.withdrawal.id))
  }

  /** A mutation that was appended leaves a document that can be read exactly when the journal had room for it, a reader
      accepts its payload, and a finding it withdraws is there. */
  lemma AppendDecides(env: Env, v: Store, rs: seq<Record>, d: Delta, producer: nat, now: nat)
    requires Holds(env, v, rs) && IsAppended(env, v, d)
    ensures Mutation(env, v, d) == Step(true, Recorded(env, v, d))
    ensures ReadDocument(env, Mutation(env, v, d).store.file).Read? <==> IsReadBack(env, v, d)
    ensures !IsReadBack(env, v, d) ==> OpenDocument(env, Mutation(env, v, d).store.file, producer, now) == NotOpened
  {
    MutationRecords(env, v, d);
    RecordAppended(env, v, rs, d);
    ReplayedWhenThere(env.limits, ReplayAll(env, rs).value, v.state, d);
    WholeDocument(env, rs + [RecordFor(v, d)]);
  }

  lemma ReplayedWhenThere(limits: StoreLimits, disk: StoreState, memory: StoreState, d: Delta)
    requires SameButBoot(disk, memory) && Allowed(limits, memory, d)
    ensures Replayed(limits, disk, AsRead(d)).Some?
            <==> (d.WithdrawFinding? ==> HasFinding(memory.findings, d.withdrawal.id))
  {
  }

  /** A whole document is read exactly when it is orderly, short enough, and replayed. */
  lemma WholeDocument(env: Env, rs: seq<Record>)
    requires AreRecords(rs)
    ensures ReadDocument(env, FrameAll(env.digest, rs)).Read? <==>
            IsOrderly(rs) && |rs| <= env.limits.maxJournalRecords && ReplayAll(env, rs).Some?
  {
    TornDocument(env, rs, NoTear);
    assert FrameAll(env.digest, rs) + [] == FrameAll(env.digest, rs);
  }

  /** After a policy is installed the document can be read exactly when its lists are sorted and within their limits:
      a policy that is not, the store takes, and no open ever accepts the document again. */
  lemma PolicyDecidesDocument(env: Env, v: Store, rs: seq<Record>, p: Planner.ContainmentPolicy, producer: nat,
                              now: nat)
    requires Holds(env, v, rs) && IsAppended(env, v, SetPolicy(p)) && v.records < env.limits.maxJournalRecords
    ensures var w := Mutation(env, v, SetPolicy(p));
            && w.ok && w.store.state.policy == Some(p)
            && (ReadDocument(env, w.store.file).Read? <==> Codecs.PolicyFits(p, env.limits.build.maxSelectors))
            && (!Codecs.PolicyFits(p, env.limits.build.maxSelectors) ==>
                OpenDocument(env, w.store.file, producer, now) == NotOpened)
  {
    AppendDecides(env, v, rs, SetPolicy(p), producer, now);
  }

  const UNSORTED: Planner.ContainmentPolicy := Planner.ContainmentPolicy(1, 1, 1, [1, 0], [], false, 1)

  /** The kinds one and zero, in this order, are such a policy: every store without a policy takes it. */
  lemma UnsortedPolicyStrands(env: Env, v: Store, rs: seq<Record>, producer: nat, now: nat)
    requires Holds(env, v, rs) && v.state.policy.None? && v.records < env.limits.maxJournalRecords
             && !NeedsCompaction(env, v)
    ensures Mutation(env, v, SetPolicy(UNSORTED)).ok
    ensures OpenDocument(env, Mutation(env, v, SetPolicy(UNSORTED)).store.file, producer, now) == NotOpened
  {
    UnsortedIsTyped(UNSORTED);
    assert UNSORTED.eligibleKinds[0] > UNSORTED.eligibleKinds[1];
    PolicyDecidesDocument(env, v, rs, UNSORTED, producer, now);
  }

  /** Withdrawing a finding that is not durable is written before it is refused, and strands the document. */
  lemma AbsentWithdrawalStrands(env: Env, v: Store, rs: seq<Record>, d: Delta, producer: nat, now: nat)
    requires Holds(env, v, rs) && d.WithdrawFinding? && IsAppended(env, v, d)
             && !HasFinding(v.state.findings, d.withdrawal.id)
    ensures OpenDocument(env, Mutation(env, v, d).store.file, producer, now) == NotOpened
  {
    AppendDecides(env, v, rs, d, producer, now);
  }

  /** A journal may be filled one record past its bound, and is then refused: at the bound, a mutation is appended
      without compaction, and the document it leaves no open accepts. */
  lemma FullJournalStrands(env: Env, v: Store, rs: seq<Record>, d: Delta, producer: nat, now: nat)
    requires Holds(env, v, rs) && v.records == env.limits.maxJournalRecords && IsAppended(env, v, d)
    ensures Mutation(env, v, d).ok && Mutation(env, v, d).store.records == env.limits.maxJournalRecords + 1
    ensures OpenDocument(env, Mutation(env, v, d).store.file, producer, now) == NotOpened
  {
    AppendDecides(env, v, rs, d, producer, now);
  }

  /** A document of nothing but a snapshot is read exactly when its payload is. */
  lemma SnapshotAlone(env: Env, r: Record)
    requires IsRecord(r) && r.kind == 0 && r.sequence == 1 && r.generation != 0
    ensures ReadDocument(env, FrameRecord(env.digest, r)).Read? <==> StateOf(env.limits, r.payload).Some?
  {
    OneRecord(env, r);
    WholeDocument(env, [r]);
  }

  lemma OneRecord(env: Env, r: Record)
    ensures ReplayAll(env, [r]) == ReplayOne(env, EMPTY_STATE, r)
    ensures FrameAll(env.digest, [r]) == FrameRecord(env.digest, r)
  {
    assert [r][..0] == [] && ReplayAll(env, []) == Some(EMPTY_STATE);
    assert FrameAll(env.digest, [r]) == FrameRecord(env.digest, r) + FrameAll(env.digest, []);
  }

  lemma CompactionWrites(env: Env, v: Store)
    requires v.state.generation < MAX_GENERATION && |StateBytes(NextSnapshot(v))| <= SNAPSHOT_PAYLOAD
    ensures Compacted(env, v).ok
    ensures Compacted(env, v).store.file
            == FrameRecord(env.digest, Record(0, v.state.generation + 1, 1, StateBytes(NextSnapshot(v))))
  {
    StateIsWritten(NextSnapshot(v));
  }

  /** A compaction that can be written leaves a document that can be read exactly when its snapshot is no larger than a
      record, and holds no more boots and findings than a reader takes. */
  lemma CompactionDecides(env: Env, v: Store, rs: seq<Record>, producer: nat, now: nat)
    requires Holds(env, v, rs) && v.state.generation < MAX_GENERATION
             && |StateBytes(NextSnapshot(v))| <= SNAPSHOT_PAYLOAD
    ensures var w := Compacted(env, v);
            && w.ok && (ReadDocument(env, w.store.file).Read? <==> CanCompact(env, v))
            && (!CanCompact(env, v) ==> OpenDocument(env, w.store.file, producer, now) == NotOpened)
  {
    var next := NextSnapshot(v);
    var r := Record(0, next.generation, 1, StateBytes(next));
    NextIsReadable(env.limits, v.state);
    CompactionWrites(env, v);
    if |r.payload| > RECORD_PAYLOAD {
      OversizedScanned(env.digest, r);
    } else {
      LedgerDecides(env.limits, next);
      StateDecides(env.limits, next);
      SnapshotAlone(env, r);
    }
  }

  /** A snapshot between the ceiling of a record and its own is written, and no open accepts the document. */
  lemma OversizedSnapshotStrands(env: Env, v: Store, rs: seq<Record>, producer: nat, now: nat)
    requires Holds(env, v, rs) && v.state.generation < MAX_GENERATION
    requires RECORD_PAYLOAD < |StateBytes(NextSnapshot(v))| <= SNAPSHOT_PAYLOAD
    ensures Compacted(env, v).ok && OpenDocument(env, Compacted(env, v).store.file, producer, now) == NotOpened
  {
    CompactionDecides(env, v, rs, producer, now);
  }

  /** So is the snapshot of a ledger that holds more boots than a reader takes. */
  lemma FullLedgerStrands(env: Env, v: Store, rs: seq<Record>, producer: nat, now: nat)
    requires Holds(env, v, rs) && v.state.generation < MAX_GENERATION
             && |StateBytes(NextSnapshot(v))| <= SNAPSHOT_PAYLOAD
    requires |v.state.bootLedger| > env.limits.maxBootRecords
    ensures Compacted(env, v).ok && OpenDocument(env, Compacted(env, v).store.file, producer, now) == NotOpened
  {
    CompactionDecides(env, v, rs, producer, now);
  }

  /** So is the snapshot of a state that holds more findings than a reader takes. */
  lemma OverfullStrands(env: Env, v: Store, rs: seq<Record>, producer: nat, now: nat)
    requires Holds(env, v, rs) && v.state.generation < MAX_GENERATION
             && |StateBytes(NextSnapshot(v))| <= SNAPSHOT_PAYLOAD
    requires |v.state.findings| > env.limits.maxRetainedFindings
    ensures Compacted(env, v).ok && OpenDocument(env, Compacted(env, v).store.file, producer, now) == NotOpened
  {
    CompactionDecides(env, v, rs, producer, now);
  }

  /** A compaction that cannot write its snapshot has already moved the generation in memory: the next record that is
      appended without compaction carries it, and strands the document. */
  lemma FailedCompactionStrands(env: Env, v: Store, rs: seq<Record>, kind: nat, payload: seq<byte>, producer: nat,
                                now: nat)
    requires Holds(env, v, rs) && v.state.generation < MAX_GENERATION && !Compacted(env, v).ok
    requires 0 < kind < RECORD_TYPES && |payload| <= RECORD_PAYLOAD
    ensures var w := Compacted(env, v).store;
            && w.file == v.file && w.state.generation == v.state.generation + 1
            && var r := Record(kind, w.state.generation, w.next, payload);
               OpenDocument(env, w.file + FrameRecord(env.digest, r), producer, now) == NotOpened
  {
    var w := Compacted(env, v).store;
    var r := Record(kind, w.state.generation, w.next, payload);
    assert Fits(r.generation, 4) && Fits(r.sequence, 8);
    FramedAppends(env.digest, rs, r);
    var all := rs + [r];
    assert all[|rs|] == r && all[0] == rs[0];
    RefusedForEver(env, all, producer, now);
  }
}
