/** Findings pushed out of memory by newer ones: until when a finding is durable, and what becomes of a document that
    still has the ones pushed out. */
module PushedOut {
  import opened Journal
  import Codecs
  import opened Topology
  import opened StoreState
  import opened Explanations
  import opened StoreCodec
  import opened Readability
  import opened StoreModel
  import opened Lives

  // ----- Until when a finding is durable -----

  predicate AreApart(findings: seq<StoredFinding>) {
    forall i, j :: 0 <= i < j < |findings| ==> findings[i].id != findings[j].id
  }

  predicate StandsAt(findings: seq<StoredFinding>, p: nat, id: nat) {
    p < |findings| && findings[p].id == id
  }

  lemma {:induction false} NewIsLast(findings: seq<StoredFinding>, f: StoredFinding)
    requires !HasFinding(findings, f.id)
    ensures Upserted(findings, f) == findings + [f]
    decreases |findings|
  {
    if findings != [] {
      forall i | 0 <= i < |findings[1..]|
        ensures findings[1..][i].id != f.id
      {
        assert findings[i + 1].id != f.id;
      }
      NewIsLast(findings[1..], f);
      assert findings == [findings[0]] + findings[1..];
    }
  }

  lemma {:induction false} KnownStays(findings: seq<StoredFinding>, f: StoredFinding)
    requires HasFinding(findings, f.id)
    ensures |Upserted(findings, f)| == |findings|
    ensures forall i :: 0 <= i < |findings| ==> Upserted(findings, f)[i].id == findings[i].id
    decreases |findings|
  {
    if findings[0].id != f.id {
      var i :| 0 <= i < |findings| && findings[i].id == f.id;
      assert findings[1..][i - 1].id == f.id;
      KnownStays(findings[1..], f);
    }
  }

  lemma {:induction false} WithdrawnStays(most: nat, findings: seq<StoredFinding>, w: Withdrawal)
    ensures forall i :: 0 <= i < |findings| ==> WithWithdrawn(most, findings, w)[i].id == findings[i].id
    decreases |findings|
  {
    if findings != [] && findings[0].id != w.id {
      WithdrawnStays(most, findings[1..], w);
    }
  }

  /** The record brings a finding that is not there. */
  predicate Arrives(s: StoreState, d: Delta) {
    d.UpsertFinding? && !HasFinding(s.findings, d.finding.id)
  }

  /** How many of the records bring a finding that is not there when they are written. */
  function Arrivals(limits: StoreLimits, s: StoreState, ds: seq<Delta>): nat
    decreases |ds|
  {
    if ds == [] then 0 else (if Arrives(s, ds[0]) then 1 else 0) + Arrivals(limits, Mutated(limits, s, ds[0]), ds[1..])
  }

  predicate NoneNames(ds: seq<Delta>, id: nat) {
    forall i {:trigger ds[i]} :: 0 <= i < |ds| && ds[i].UpsertFinding? ==> ds[i].finding.id != id
  }

  /** A record that brings nothing new leaves every finding in its place. */
  lemma NothingArrives(limits: StoreLimits, s: StoreState, d: Delta)
    requires |s.findings| <= limits.maxRetainedFindings && !Arrives(s, d)
    ensures |Mutated(limits, s, d).findings| == |s.findings|
    ensures forall i :: 0 <= i < |s.findings| ==> Mutated(limits, s, d).findings[i].id == s.findings[i].id
  {
    if d.UpsertFinding? {
      KnownStays(s.findings, d.finding);
    } else if d.WithdrawFinding? {
      WithdrawnStays(limits.maxReasons, s.findings, d.withdrawal);
    }
  }

  /** A new finding goes last, and the first one makes room for it where there is none. */
  lemma OneArrives(limits: StoreLimits, s: StoreState, d: Delta)
    requires |s.findings| <= limits.maxRetainedFindings && Arrives(s, d)
    ensures Mutated(limits, s, d).findings
         == if |s.findings| < limits.maxRetainedFindings then s.findings + [d.finding]
           else (s.findings + [d.finding])[1..]
  {
    NewIsLast(s.findings, d.finding);
  }

  lemma StepStaysApart(limits: StoreLimits, s: StoreState, d: Delta)
    requires AreApart(s.findings) && |s.findings| <= limits.maxRetainedFindings
    ensures AreApart(Mutated(limits, s, d).findings) && |Mutated(limits, s, d).findings| <= limits.maxRetainedFindings
  {
    if Arrives(s, d) {
      OneArrives(limits, s, d);
      var all := s.findings + [d.finding];
      assert forall i :: 0 <= i < |s.findings| ==> all[i].id != d.finding.id;
      assert AreApart(all);
    } else {
      NothingArrives(limits, s, d);
    }
  }

  lemma StandsAlone(findings: seq<StoredFinding>, p: nat, id: nat, q: nat)
    requires AreApart(findings) && StandsAt(findings, p, id) && StandsAt(findings, q, id)
    ensures p == q
  {
  }

  /** Where a finding stands after a record that does not name it. */
  lemma StepMoves(limits: StoreLimits, s: StoreState, d: Delta, p: nat, id: nat)
    requires AreApart(s.findings) && |s.findings| <= limits.maxRetainedFindings && StandsAt(s.findings, p, id)
    requires d.UpsertFinding? ==> d.finding.id != id
    ensures var after := Mutated(limits, s, d).findings;
            if !Arrives(s, d) || |s.findings| < limits.maxRetainedFindings then StandsAt(after, p, id)
            else if p > 0 then StandsAt(after, p - 1, id)
            else !HasFinding(after, id)
  {
    if Arrives(s, d) {
      OneArrives(limits, s, d);
      var all := s.findings + [d.finding];
      if |s.findings| == limits.maxRetainedFindings && p == 0 {
        assert forall i :: 1 <= i < |all| ==> all[i].id != id;
      }
    } else {
      NothingArrives(limits, s, d);
    }
  }

  /** What is not there and not named stays away. */
  lemma {:induction false} GoneStaysGone(limits: StoreLimits, s: StoreState, ds: seq<Delta>, id: nat)
    requires !HasFinding(s.findings, id) && |s.findings| <= limits.maxRetainedFindings && NoneNames(ds, id)
    ensures !HasFinding(Folded(limits, s, ds).findings, id)
    decreases |ds|
  {
    if ds != [] {
      var after := Mutated(limits, s, ds[0]);
      if Arrives(s, ds[0]) {
        OneArrives(limits, s, ds[0]);
      } else {
        NothingArrives(limits, s, ds[0]);
      }
      GoneStaysGone(limits, after, ds[1..], id);
    }
  }

  /** Exactly until when a finding is durable: until more new ones have come than there was room for and older ones to
      make room. */
  lemma {:induction false} DurableExactly(limits: StoreLimits, s: StoreState, ds: seq<Delta>, p: nat, id: nat)
    requires AreApart(s.findings) && |s.findings| <= limits.maxRetainedFindings && StandsAt(s.findings, p, id)
             && NoneNames(ds, id)
    ensures HasFinding(Folded(limits, s, ds).findings, id)
            <==> Arrivals(limits, s, ds) <= p + (limits.maxRetainedFindings - |s.findings|)
    decreases |ds|
  {
    if ds != [] {
      var after := Mutated(limits, s, ds[0]);
      assert ds[0].UpsertFinding? ==> ds[0].finding.id != id;
      StepMoves(limits, s, ds[0], p, id);
      StepStaysApart(limits, s, ds[0]);
      if Arrives(s, ds[0]) {
        OneArrives(limits, s, ds[0]);
        if |s.findings| < limits.maxRetainedFindings {
          DurableExactly(limits, after, ds[1..], p, id);
        } else if p > 0 {
          DurableExactly(limits, after, ds[1..], p - 1, id);
        } else {
          GoneStaysGone(limits, after, ds[1..], id);
        }
      } else {
        NothingArrives(limits, s, ds[0]);
        DurableExactly(limits, after, ds[1..], p, id);
      }
    }
  }

  /** A finding just written is durable until as many newer ones have come as are retained. */
  lemma NewestIsDurable(limits: StoreLimits, s: StoreState, f: StoredFinding, ds: seq<Delta>)
    requires AreApart(s.findings) && |s.findings| <= limits.maxRetainedFindings && limits.maxRetainedFindings > 0
    requires !HasFinding(s.findings, f.id) && NoneNames(ds, f.id)
    ensures var after := Mutated(limits, s, UpsertFinding(f));
            HasFinding(Folded(limits, after, ds).findings, f.id) <==>
              Arrivals(limits, after, ds) < limits.maxRetainedFindings
  {
    var after := Mutated(limits, s, UpsertFinding(f));
    OneArrives(limits, s, UpsertFinding(f));
    StepStaysApart(limits, s, UpsertFinding(f));
    DurableExactly(limits, after, ds, |after.findings| - 1, f.id);
  }

  // ----- The document still has what was pushed out -----

  function Endless(limits: StoreLimits): StoreLimits {
    limits.(maxRetainedFindings := Codecs.ANY)
  }

  /** Replay keeps every finding, and the state stays one that could be read back if it held fewer. */
  lemma UpsertedIsReadable(limits: StoreLimits, s: StoreState, f: StoredFinding)
    requires AreStoreLimits(limits) && IsReadable(limits, s) && DeltaFits(limits, UpsertFinding(f)) && f.generation != 0
             && IsSettled(f.reasons)
    requires |DeltaBytes(UpsertFinding(f))| <= RECORD_PAYLOAD && |Upserted(s.findings, f)| <= Codecs.ANY
    ensures IsReadable(limits, Replayed(limits, s, UpsertFinding(f)).value)
  {
    assert Roomy(Endless(limits)) == Roomy(limits);
    assert DeltaFits(Endless(limits), UpsertFinding(f));
    FindingStays(Endless(limits), s, f);
    assert Replayed(limits, s, UpsertFinding(f)).value == Mutated(Endless(limits), s, UpsertFinding(f));
  }

  /** The upsert is appended, a reader accepts it as it is, and there is room in the journal. */
  predicate IsUpsertRead(env: Env, v: Store, f: StoredFinding) {
    && IsAppended(env, v, UpsertFinding(f)) && DeltaFits(env.limits, UpsertFinding(f))
    && v.records < env.limits.maxJournalRecords && |Upserted(v.state.findings, f)| <= Codecs.ANY && IsSettled(f.reasons)
  }

  /** What a reader makes of the document after an upsert. */
  function ReadAfter(env: Env, v: Store, f: StoredFinding): Store {
    var w := Recorded(env, v, UpsertFinding(f));
    w.(state := w.state.(findings := Upserted(v.state.findings, f)))
  }

  lemma SettledIsAsRead(f: StoredFinding)
    requires IsSettled(f.reasons)
    ensures AsRead(UpsertFinding(f)) == UpsertFinding(f)
  {
    SettledComesBack(f.reasons);
  }

  lemma DiskStaysReadable(env: Env, v: Store, rs: seq<Record>, f: StoredFinding)
    requires Holds(env, v, rs) && IsUpsertRead(env, v, f)
    ensures IsReadable(env.limits, Replayed(env.limits, ReplayAll(env, rs).value, UpsertFinding(f)).value)
    ensures IsReadable(env.limits, ReadAfter(env, v, f).state)
  {
    UpsertedIsReadable(env.limits, v.state, f);
    UpsertedIsReadable(env.limits, ReplayAll(env, rs).value, f);
  }

  /** Read back, the document gives all the findings there were and the new one, pushed out or not. */
  lemma UpsertIsReplayed(env: Env, v: Store, rs: seq<Record>, f: StoredFinding) returns (all: seq<Record>)
    requires Holds(env, v, rs) && IsUpsertRead(env, v, f)
    ensures Mutation(env, v, UpsertFinding(f)) == Step(true, Recorded(env, v, UpsertFinding(f)))
    ensures Holds(env, ReadAfter(env, v, f), all)
  {
    var d := UpsertFinding(f);
    all := rs + [RecordFor(v, d)];
    MutationRecords(env, v, d);
    RecordAppended(env, v, rs, d);
    DiskStaysReadable(env, v, rs, f);
    SettledIsAsRead(f);
  }

  /** Opened again, the store holds what was pushed out of memory before. */
  lemma PushedOutComesBack(env: Env, v: Store, rs: seq<Record>, f: StoredFinding, producer: nat, now: nat)
    returns (rs': seq<Record>)
    requires Holds(env, v, rs) && IsUpsertRead(env, v, f)
    requires CanReopen(env, Mutation(env, v, UpsertFinding(f)).store.file, producer, now)
    ensures var o := OpenDocument(env, Mutation(env, v, UpsertFinding(f)).store.file, producer, now);
            o.Opened? && Holds(env, o.store, rs') && o.store.state.findings == Upserted(v.state.findings, f)
  {
    var all := UpsertIsReplayed(env, v, rs, f);
    var w := ReadAfter(env, v, f);
    assert w.file + TornBytes(env, NoTear) == Mutation(env, v, UpsertFinding(f)).store.file;
    rs' := ReopenKeeps(env, w, all, NoTear, producer, now);
  }

  /** A finding pushed out, a restart, and a compaction: no open accepts the document. */
  lemma PushedOutStrands(env: Env, v: Store, rs: seq<Record>, f: StoredFinding, producer: nat, now: nat, other: nat,
                         later: nat)
    requires Holds(env, v, rs) && IsUpsertRead(env, v, f)
             && |Upserted(v.state.findings, f)| > env.limits.maxRetainedFindings
    requires CanReopen(env, Mutation(env, v, UpsertFinding(f)).store.file, producer, now)
    requires var o := OpenDocument(env, Mutation(env, v, UpsertFinding(f)).store.file, producer, now);
             o.Opened? && o.store.state.generation < MAX_GENERATION
               && |StateBytes(NextSnapshot(o.store))| <= SNAPSHOT_PAYLOAD
    ensures var o := OpenDocument(env, Mutation(env, v, UpsertFinding(f)).store.file, producer, now);
            Compacted(env, o.store).ok
              && OpenDocument(env, Compacted(env, o.store).store.file, other, later) == NotOpened
  {
    var rs' := PushedOutComesBack(env, v, rs, f, producer, now);
    OverfullStrands(env, OpenDocument(env, Mutation(env, v, UpsertFinding(f)).store.file, producer, now).store, rs',
                    other, later);
  }

  predicate NoUpsert(ds: seq<Delta>) {
    forall i {:trigger ds[i]} :: 0 <= i < |ds| ==> !ds[i].UpsertFinding?
  }

  /** There are too many findings for a snapshot exactly until the next upsert, which trims them. */
  lemma {:induction false} OverfullLasts(limits: StoreLimits, s: StoreState, ds: seq<Delta>)
    ensures |Folded(limits, s, ds).findings| > limits.maxRetainedFindings
       <==> |s.findings| > limits.maxRetainedFindings && NoUpsert(ds)
    decreases |ds|
  {
    if ds != [] {
      var after := Mutated(limits, s, ds[0]);
      OverfullLasts(limits, after, ds[1..]);
      assert NoUpsert(ds) <==> !ds[0].UpsertFinding? && NoUpsert(ds[1..]) by {
        assert forall i {:trigger ds[i + 1]} :: 0 <= i < |ds| - 1 ==> ds[i + 1] == ds[1..][i];
      }
    }
  }

  /** After a compaction what was pushed out is gone from the document too, and withdrawing it strands the document. */
  lemma PushedOutWithdrawalStrands(env: Env, v: Store, d: Delta, producer: nat, now: nat)
    requires IsReadable(env.limits, v.state) && CanCompact(env, v)
    requires d.WithdrawFinding? && !HasFinding(v.state.findings, d.withdrawal.id)
    requires IsAppended(env, Compacted(env, v).store, d)
    ensures OpenDocument(env, Mutation(env, Compacted(env, v).store, d).store.file, producer, now) == NotOpened
  {
    var rs := CompactionHolds(env, v);
    AbsentWithdrawalStrands(env, Compacted(env, v).store, rs, d, producer, now);
  }
}
