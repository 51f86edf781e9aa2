/** The durable store as it runs: the scan of a document, the replay, and the mutations, step by step. */
module DurableStore {
  import opened Bytes
  import opened Journal
  import opened Topology
  import opened Evidence
  import opened Findings
  import opened StoreState
  import opened Explanations
  import opened StoreCodec
  import opened StoreModel
  import opened DocumentScan
  import opened Recovered
  import opened TopologyCodec
  import Canonical
  import Planner

  // ----- Edits in place -----

  method TrimFront<T>(s: seq<T>, most: nat) returns (r: seq<T>)
    ensures r == Newest(s, most)
  {
    r := s;
    while |r| > most
      invariant |r| <= |s| && r == s[|s| - |r|..] && (|s| > most ==> |r| >= most) && (|s| <= most ==> r == s)
    {
      r := r[1..];
    }
  }

  lemma {:induction false} UpsertedAt(findings: seq<StoredFinding>, f: StoredFinding, k: nat)
    requires k <= |findings| && forall i :: 0 <= i < k ==> findings[i].id != f.id
    ensures k < |findings| && findings[k].id == f.id ==> Upserted(findings, f) == findings[k := f]
    ensures k == |findings| ==> Upserted(findings, f) == findings + [f]
    decreases |findings|
  {
    if k > 0 {
      UpsertedAt(findings[1..], f, k - 1);
      assert findings == [findings[0]] + findings[1..];
    }
  }

  /** Replaces the finding in place, or appends it. */
  method UpsertInPlace(findings: seq<StoredFinding>, f: StoredFinding) returns (r: seq<StoredFinding>)
    ensures r == Upserted(findings, f)
  {
    for k := 0 to |findings|
      invariant forall i :: 0 <= i < k ==> findings[i].id != f.id
    {
      if findings[k].id == f.id {
        UpsertedAt(findings, f, k);
        return findings[k := f];
      }
    }
    UpsertedAt(findings, f, |findings|);
    return findings + [f];
  }

  lemma {:induction false} WithdrawnAt(most: nat, findings: seq<StoredFinding>, w: Withdrawal, k: nat)
    requires k <= |findings| && forall i :: 0 <= i < k ==> findings[i].id != w.id
    ensures k < |findings| && findings[k].id == w.id ==>
              WithWithdrawn(most, findings, w) == findings[k := Retracted(most, findings[k], w)]
    ensures k == |findings| ==> WithWithdrawn(most, findings, w) == findings
    decreases |findings|
  {
    if k > 0 {
      WithdrawnAt(most, findings[1..], w, k - 1);
      assert findings == [findings[0]] + findings[1..];
    }
  }

  /** Puts a reason in its place, if there is room for one. */
  method AddReason(most: nat, reasons: seq<Reason>, r: Reason) returns (more: seq<Reason>)
    ensures more == Added(most, reasons, r)
  {
    if |reasons| >= most {
      return reasons;
    }
    var bounded := WithBounds(r);
    var n := |reasons|;
    assert reasons[..n] == reasons;
    while n > 0 && !ReasonLess(reasons[n - 1], bounded)
      invariant n <= |reasons|
      invariant Explanations.Inserted(reasons, bounded)
             == Explanations.Inserted(reasons[..n], bounded) + reasons[n..]
    {
      assert reasons[..n][..n - 1] == reasons[..n - 1];
      assert [reasons[n - 1]] + reasons[n..] == reasons[n - 1..];
      n := n - 1;
    }
    return reasons[..n] + [bounded] + reasons[n..];
  }

  method WithdrawInPlace(most: nat, findings: seq<StoredFinding>, w: Withdrawal)
    returns (found: bool, r: seq<StoredFinding>)
    ensures found <==> HasFinding(findings, w.id)
    ensures r == WithWithdrawn(most, findings, w)
  {
    for k := 0 to |findings|
      invariant forall i :: 0 <= i < k ==> findings[i].id != w.id
    {
      if findings[k].id == w.id {
        WithdrawnAt(most, findings, w, k);
        var reasons := AddReason(most, findings[k].reasons, ReasonOf(w));
        return true,
          findings[k := findings[k].(state := Withdrawn, cause := w.cause, updatedAt := w.at, reasons := reasons)];
      }
    }
    WithdrawnAt(most, findings, w, |findings|);
    return false, findings;
  }

  lemma {:induction false} ClosedAt(ledger: seq<BootRecord>, boot: nat, clean: bool, at: nat, k: nat)
    requires k <= |ledger| && forall i :: 0 <= i < k ==> ledger[i].boot != boot
    ensures k < |ledger| && ledger[k].boot == boot ==>
              WithClosed(ledger, boot, clean, at) == ledger[k := ledger[k].(cleanShutdown := clean, closedAt := at)]
    ensures k == |ledger| ==> WithClosed(ledger, boot, clean, at) == ledger
    decreases |ledger|
  {
    if k > 0 {
      ClosedAt(ledger[1..], boot, clean, at, k - 1);
      assert ledger == [ledger[0]] + ledger[1..];
    }
  }

  method CloseInPlace(ledger: seq<BootRecord>, boot: nat, clean: bool, at: nat)
    returns (found: bool, r: seq<BootRecord>)
    ensures found <==> HasBoot(ledger, boot)
    ensures r == WithClosed(ledger, boot, clean, at)
  {
    for k := 0 to |ledger|
      invariant forall i :: 0 <= i < k ==> ledger[i].boot != boot
    {
      if ledger[k].boot == boot {
        ClosedAt(ledger, boot, clean, at, k);
        return true, ledger[k := ledger[k].(cleanShutdown := clean, closedAt := at)];
      }
    }
    ClosedAt(ledger, boot, clean, at, |ledger|);
    return false, ledger;
  }

  // ----- Reading a document -----

  method ReplayRecords(env: Env, records: seq<Record>) returns (state: Option<StoreState>)
    ensures state == ReplayAll(env, records)
  {
    var s := EMPTY_STATE;
    for k := 0 to |records|
      invariant ReplayAll(env, records[..k]) == Some(s)
    {
      assert records[..k + 1][..k] == records[..k];
      var next := ReplayOne(env, s, records[k]);
      if next.None? {
        NothingMore(env, records, k + 1);
        return None;
      }
      s := next.value;
    }
    assert records[..|records|] == records;
    return Some(s);
  }

  lemma {:induction false} NothingMore(env: Env, records: seq<Record>, n: nat)
    requires n <= |records| && ReplayAll(env, records[..n]) == None
    ensures ReplayAll(env, records) == None
    decreases |records|
  {
    if n < |records| {
      assert records[..|records| - 1][..n] == records[..n];
      NothingMore(env, records[..|records| - 1], n);
    } else {
      assert records[..n] == records;
    }
  }

  method Read(env: Env, bytes: seq<byte>) returns (r: Reading)
    ensures r == ReadDocument(env, bytes)
    ensures r.Read? ==> r.good <= |bytes|
  {
    ghost var look := RecordLook(env.digest);
    RecordLookAdvances(look, env.digest);
    var ok, records, good := ScanDocument(env.digest, env.limits.maxJournalRecords, bytes, look);
    if !ok {
      return Refused;
    }
    var state := ReplayRecords(env, records);
    if state.None? {
      return Refused;
    }
    r := StoreModel.Read(state.value, records, good);
  }

  // ----- The store -----

  datatype Outcome = Done | NotAllowed | NotWritten | NotFound | NotOpen

  class DurableStore {
    const env: Env
    var state: StoreState
    var document: seq<byte>
    var nextSequence: nat
    var journalBytes: nat
    var journalRecords: nat
    var isOpen: bool
    var boot: nat

    ghost function Value(): Store
      reads this`state, this`document, this`nextSequence, this`journalBytes, this`journalRecords
    {
      Store(state, document, nextSequence, journalBytes, journalRecords)
    }

    constructor (env: Env, v: Store)
      ensures this.env == env && Value() == v && isOpen && boot == 0
    {
      this.env := env;
      state, document, nextSequence, journalBytes, journalRecords := v.state, v.file, v.next, v.bytes, v.records;
      isOpen, boot := true, 0;
    }

    method RewriteSnapshot(generation: nat) returns (ok: bool)
      modifies this`state, this`document, this`journalBytes, this`journalRecords
      ensures Step(ok, Value()) == Rewritten(env, old(Value()), generation)
      ensures SameButGeneration(state, old(state))
    {
      state := state.(generation := generation);
      var snapshot := StateBytes(state);
      if snapshot == [] || |snapshot| > SNAPSHOT_PAYLOAD {
        return false;
      }
      var frame := FrameRecord(env.digest, Record(0, generation, 1, snapshot));
      document, journalBytes, journalRecords := frame, |frame|, 1;
      return true;
    }

    method Compact() returns (ok: bool)
      modifies this`state, this`document, this`nextSequence, this`journalBytes, this`journalRecords
      ensures Step(ok, Value()) == Compacted(env, old(Value()))
      ensures SameButGeneration(state, old(state))
    {
      if state.generation == MAX_GENERATION {
        return false;
      }
      ok := RewriteSnapshot(state.generation + 1);
      if ok {
        nextSequence := 2;
      }
    }

    /** One record behind the document, which is compacted first when it is over its bounds. */
    method AppendPayload(kind: nat, payload: seq<byte>) returns (ok: bool)
      modifies this`state, this`document, this`nextSequence, this`journalBytes, this`journalRecords
      ensures Step(ok, Value()) == Appended(env, old(Value()), kind, payload)
      ensures SameButGeneration(state, old(state))
    {
      if |payload| > RECORD_PAYLOAD {
        return false;
      }
      if journalBytes > env.limits.maxJournalBytes || journalRecords > env.limits.maxJournalRecords {
        ok := Compact();
        if !ok {
          return;
        }
      }
      var frame := FrameRecord(env.digest, Record(kind, state.generation, nextSequence, payload));
      document := document + frame;
      nextSequence, journalBytes, journalRecords := nextSequence + 1, journalBytes + |frame|, journalRecords + 1;
      return true;
    }

    /** Writes the record of an allowed mutation. */
    method Write(d: Delta) returns (ok: bool)
      requires Allowed(env.limits, state, d)
      modifies this`state, this`document, this`nextSequence, this`journalBytes, this`journalRecords
      ensures ok ==> Mutation(env, old(Value()), d) == Step(true, Value().(state := Mutated(env.limits, state, d)))
      ensures !ok ==> Mutation(env, old(Value()), d) == Step(false, Value())
      ensures SameButGeneration(state, old(state))
    {
      var payload := DeltaBytes(d);
      if payload == [] {
        return false;
      }
      ok := AppendPayload(KindOf(d), payload);
    }

    /** The definition goes through the canonical path first. */
    method SetTopology(d: Document) returns (r: Outcome)
      requires isOpen
      modifies this
      ensures (r == Done) == Mutation(env, old(Value()), Delta.SetTopology(SortedDocument(d))).ok
      ensures r == NotAllowed <==>
                || !IsBuiltDocument(SortedDocument(d), env.limits.build)
                || (old(state.topologyGeneration) != 0 && d.generation <= old(state.topologyGeneration))
      ensures Value() == Mutation(env, old(Value()), Delta.SetTopology(SortedDocument(d))).store && isOpen
              && boot == old(boot)
    {
      SortedDefinition(d);
      var built := Canonical.Canonicalize(DefinitionOf(d), env.limits.build);
      if built.Refused? {
        return NotAllowed;
      }
      var t := SortedDocument(d);
      if state.topologyGeneration != 0 && t.generation <= state.topologyGeneration {
        return NotAllowed;
      }
      var ok := Write(Delta.SetTopology(t));
      if !ok {
        return NotWritten;
      }
      state := state.(topology := Some(t), topologyGeneration := t.generation);
      return Done;
    }

    method SetPolicy(p: Planner.ContainmentPolicy) returns (r: Outcome)
      requires isOpen
      modifies this
      ensures (r == Done) == Mutation(env, old(Value()), Delta.SetPolicy(p)).ok
      ensures r == NotAllowed <==>
                p.generation == 0 || (old(state.policy).Some? && p.generation < old(state.policy).value.generation)
      ensures Value() == Mutation(env, old(Value()), Delta.SetPolicy(p)).store && isOpen && boot == old(boot)
    {
      if p.generation == 0 || (state.policy.Some? && p.generation < state.policy.value.generation) {
        return NotAllowed;
      }
      var ok := Write(Delta.SetPolicy(p));
      if !ok {
        return NotWritten;
      }
      state := state.(policy := Some(p));
      return Done;
    }

    method AdvanceFence(fence: FenceVector) returns (r: Outcome)
      requires isOpen
      modifies this
      ensures (r == Done) == Mutation(env, old(Value()), Delta.AdvanceFence(fence)).ok
      ensures Value() == Mutation(env, old(Value()), Delta.AdvanceFence(fence)).store && isOpen && boot == old(boot)
    {
      var ok := Write(Delta.AdvanceFence(fence));
      if !ok {
        return NotWritten;
      }
      state := state.(committedFence := fence);
      return Done;
    }

    method AppendLineage(record: LineageRecord) returns (r: Outcome)
      requires isOpen
      modifies this
      ensures (r == Done) == Mutation(env, old(Value()), Delta.AppendLineage(record)).ok
      ensures r == NotAllowed <==>
                || record.sequence == 0
                || (old(state.lineageSequence) != 0 && record.sequence <= old(state.lineageSequence))
      ensures Value() == Mutation(env, old(Value()), Delta.AppendLineage(record)).store && isOpen && boot == old(boot)
    {
      if record.sequence == 0 || (state.lineageSequence != 0 && record.sequence <= state.lineageSequence) {
        return NotAllowed;
      }
      var ok := Write(Delta.AppendLineage(record));
      if !ok {
        return NotWritten;
      }
      var lineage := TrimFront(state.lineage + [record], env.limits.maxRetainedLineage);
      state := state.(lineage := lineage, lineageSequence := record.sequence);
      return Done;
    }

    method UpsertFinding(f: StoredFinding) returns (r: Outcome)
      requires isOpen
      modifies this
      ensures (r == Done) == Mutation(env, old(Value()), Delta.UpsertFinding(f)).ok
      ensures r == NotAllowed <==> f.id == 0 || f.generation == 0
      ensures Value() == Mutation(env, old(Value()), Delta.UpsertFinding(f)).store && isOpen && boot == old(boot)
    {
      if f.id == 0 || f.generation == 0 {
        return NotAllowed;
      }
      var ok := Write(Delta.UpsertFinding(f));
      if !ok {
        return NotWritten;
      }
      var findings := UpsertInPlace(state.findings, f);
      findings := TrimFront(findings, env.limits.maxRetainedFindings);
      state := state.(findings := findings, findingSequence := f.generation);
      return Done;
    }

    /** The withdrawal is on disk before it is known whether there is anything to withdraw. */
    method WithdrawFinding(w: Withdrawal) returns (r: Outcome)
      requires isOpen
      modifies this
      ensures Value() == Mutation(env, old(Value()), Delta.WithdrawFinding(w)).store && isOpen && boot == old(boot)
      ensures r in {Done, NotFound} <==> Mutation(env, old(Value()), Delta.WithdrawFinding(w)).ok
      ensures r in {Done, NotFound} ==> (r == Done <==> HasFinding(old(state).findings, w.id))
    {
      var ok := Write(Delta.WithdrawFinding(w));
      if !ok {
        return NotWritten;
      }
      var found, findings := WithdrawInPlace(env.limits.maxReasons, state.findings, w);
      state := state.(findings := findings);
      return if found then Done else NotFound;
    }

    /** Marks the boot as cleanly ended, and lets go of the document. */
    method Close(clean: bool, now: nat) returns (r: Outcome)
      requires boot != 0 ==> HasBoot(state.bootLedger, boot)
      modifies this
      ensures !isOpen
      ensures old(isOpen) && clean && old(boot) != 0 ==>
                Value() == Mutation(env, old(Value()), NoteShutdown(old(boot), true, now)).store
      ensures !old(isOpen) || !clean || old(boot) == 0 ==> Value() == old(Value()) && r == Done
    {
      if !isOpen {
        return Done;
      }
      r := Done;
      if clean && boot != 0 {
        var ok := Write(NoteShutdown(boot, true, now));
        if ok {
          var found, ledger := CloseInPlace(state.bootLedger, boot, true, now);
          state := state.(bootLedger := ledger);
        } else {
          r := NotWritten;
        }
      }
      isOpen := false;
    }
  }

  /** A document that holds no record is begun anew, with its first boot inside its snapshot. */
  method CreateDocument(env: Env, producer: nat, now: nat) returns (store: DurableStore?)
    ensures forall bytes {:trigger OpenDocument(env, bytes, producer, now)} ::
              ReadDocument(env, bytes).Read? && ReadDocument(env, bytes).records == [] ==>
                IsOpening(store, OpenDocument(env, bytes, producer, now))
    ensures store != null ==> fresh(store) && store.env == env && store.isOpen
  {
    var minted := Minted(EMPTY_STATE, producer, now);
    if minted.None? {
      return null;
    }
    var fence := FRESH_FENCE.(boot := minted.value.boot, epoch := minted.value.epoch);
    var first := Store(EMPTY_STATE.(committedFence := fence, bootLedger := [minted.value]), [], 2, 0, 0);
    store := new DurableStore(env, first);
    var ok := store.RewriteSnapshot(1);
    if !ok {
      return null;
    }
    store.boot := minted.value.boot;
  }

  /** Records a boot in a store that was read back, and begins it. */
  method BootStore(env: Env, v: Store, minted: BootRecord) returns (store: DurableStore?)
    requires !HasBoot(v.state.bootLedger, minted.boot)
    ensures store == null <==> !Mutation(env, v, AdvanceBoot(minted)).ok
    ensures store != null ==>
              && fresh(store) && store.env == env && store.isOpen && store.boot == minted.boot
              && store.Value() == Mutation(env, v, AdvanceBoot(minted)).store
  {
    store := new DurableStore(env, v);
    var ok := store.Write(AdvanceBoot(minted));
    if !ok {
      return null;
    }
    store.state := store.state.(
      bootLedger := store.state.bootLedger + [minted],
      committedFence := store.state.committedFence.(boot := minted.boot, epoch := minted.epoch));
    store.boot := minted.boot;
  }

  ghost predicate IsOpening(store: DurableStore?, o: Opening)
    reads store
  {
    if store == null then o == NotOpened else o.Opened? && o.store == store.Value() && o.boot.boot == store.boot
  }

  /** Opens a document, or begins one, under a boot above every earlier one. */
  method OpenOrCreate(env: Env, bytes: seq<byte>, producer: nat, now: nat) returns (store: DurableStore?)
    ensures IsOpening(store, OpenDocument(env, bytes, producer, now))
    ensures store != null ==> fresh(store) && store.env == env && store.isOpen
    ensures store != null ==> IsReadable(env, bytes)
  {
    OpenedIsRead(env, bytes, producer, now);
    var r := Read(env, bytes);
    if r.Refused? {
      return null;
    }
    if r.records == [] {
      store := CreateDocument(env, producer, now);
      return;
    }
    var minted := Minted(r.state, producer, now);
    if minted.None? {
      return null;
    }
    var v := Store(r.state, bytes[..r.good], |r.records| + 1, r.good, |r.records|);
    store := BootStore(env, v, minted.value);
  }
}
