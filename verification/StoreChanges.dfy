/** What every durable mutation changes, in memory and when its record is replayed, said of the state before it and the
    state after it. */
module StoreChanges {
  import opened Topology
  import opened Evidence
  import opened Findings
  import opened Explanations
  import opened StoreState

  // ----- Findings -----

  /** The first finding of this identity. */
  ghost predicate IsFirstOf(fs: seq<StoredFinding>, id: nat, i: nat) {
    i < |fs| && fs[i].id == id && forall k :: 0 <= k < i ==> fs[k].id != id
  }

  ghost predicate HasNone(fs: seq<StoredFinding>, id: nat) {
    forall i :: 0 <= i < |fs| ==> fs[i].id != id
  }

  /** Withdrawn for this cause at this time, and with this reason where there is room for one; otherwise the same. */
  ghost predicate IsWithdrawn(most: nat, f: StoredFinding, g: StoredFinding, w: Withdrawal) {
    && g == f.(state := FindingState.Withdrawn, cause := w.cause, updatedAt := w.at, reasons := g.reasons)
    && (|f.reasons| >= most ==> g.reasons == f.reasons)
    && (|f.reasons| < most ==>
          exists r: Reason :: r.code == w.reason && multiset(g.reasons) == multiset(f.reasons) + multiset{r})
  }

  /** The first finding of the identity is withdrawn, and every other is what it was. */
  ghost predicate Withdraws(most: nat, a: seq<StoredFinding>, b: seq<StoredFinding>, w: Withdrawal) {
    && (HasNone(a, w.id) ==> b == a)
    && forall i: nat {:trigger IsFirstOf(a, w.id, i)} :: IsFirstOf(a, w.id, i) ==>
         |b| == |a| && b == a[i := b[i]] && IsWithdrawn(most, a[i], b[i], w)
  }

  /** The first finding of the identity is replaced; where there is none, the finding is the last. */
  ghost predicate Upserts(a: seq<StoredFinding>, b: seq<StoredFinding>, f: StoredFinding) {
    && (HasNone(a, f.id) ==> b == a + [f])
    && forall i: nat {:trigger IsFirstOf(a, f.id, i)} :: IsFirstOf(a, f.id, i) ==> b == a[i := f]
  }

  /** The last ones, as many as there may be. */
  ghost predicate AreNewest<T>(all: seq<T>, b: seq<T>, most: nat) {
    |b| == (if |all| <= most then |all| else most) && b == all[|all| - |b|..]
  }

  lemma {:induction false} SomeIsFirst(fs: seq<StoredFinding>, id: nat) returns (i: nat)
    requires !HasNone(fs, id)
    ensures IsFirstOf(fs, id, i)
    decreases |fs|
  {
    if fs[0].id == id {
      i := 0;
    } else {
      forall k | 0 < k < |fs|
        ensures fs[1..][k - 1] == fs[k]
      {
      }
      var rest := SomeIsFirst(fs[1..], id);
      i := rest + 1;
    }
  }

  lemma {:induction false} FirstIsWithdrawn(most: nat, fs: seq<StoredFinding>, w: Withdrawal, i: nat)
    requires IsFirstOf(fs, w.id, i)
    ensures WithWithdrawn(most, fs, w) == fs[i := Retracted(most, fs[i], w)]
    decreases |fs|
  {
    if i > 0 {
      assert fs[0].id != w.id;
      assert IsFirstOf(fs[1..], w.id, i - 1);
      FirstIsWithdrawn(most, fs[1..], w, i - 1);
    }
  }

  lemma {:induction false} NoneIsWithdrawn(most: nat, fs: seq<StoredFinding>, w: Withdrawal)
    requires HasNone(fs, w.id)
    ensures WithWithdrawn(most, fs, w) == fs
    decreases |fs|
  {
    if fs != [] {
      assert fs[0].id != w.id;
      NoneIsWithdrawn(most, fs[1..], w);
    }
  }

  lemma RetractedIsWithdrawn(most: nat, f: StoredFinding, w: Withdrawal)
    ensures IsWithdrawn(most, f, Retracted(most, f, w), w)
  {
    if |f.reasons| < most {
      var r := WithBounds(ReasonOf(w));
      InsertedIsMore(f.reasons, r);
      assert r.code == w.reason;
    }
  }

  lemma {:induction false} InsertedIsMore(reasons: seq<Reason>, r: Reason)
    ensures multiset(Explanations.Inserted(reasons, r)) == multiset(reasons) + multiset{r}
    decreases |reasons|
  {
    if reasons != [] {
      var front, last := reasons[..|reasons| - 1], reasons[|reasons| - 1];
      assert reasons == front + [last];
      InsertedIsMore(front, r);
    }
  }

  lemma WithdrawalChanges(most: nat, fs: seq<StoredFinding>, w: Withdrawal)
    ensures Withdraws(most, fs, WithWithdrawn(most, fs, w), w)
  {
    if HasNone(fs, w.id) {
      NoneIsWithdrawn(most, fs, w);
    }
    forall i: nat | IsFirstOf(fs, w.id, i)
      ensures WithWithdrawn(most, fs, w) == fs[i := Retracted(most, fs[i], w)]
      ensures IsWithdrawn(most, fs[i], Retracted(most, fs[i], w), w)
    {
      FirstIsWithdrawn(most, fs, w, i);
      RetractedIsWithdrawn(most, fs[i], w);
    }
  }

  lemma {:induction false} FirstIsReplaced(fs: seq<StoredFinding>, f: StoredFinding, i: nat)
    requires IsFirstOf(fs, f.id, i)
    ensures Upserted(fs, f) == fs[i := f]
    decreases |fs|
  {
    if i > 0 {
      assert fs[0].id != f.id;
      assert IsFirstOf(fs[1..], f.id, i - 1);
      FirstIsReplaced(fs[1..], f, i - 1);
    }
  }

  lemma {:induction false} NewIsLast(fs: seq<StoredFinding>, f: StoredFinding)
    requires HasNone(fs, f.id)
    ensures Upserted(fs, f) == fs + [f]
    decreases |fs|
  {
    if fs != [] {
      assert fs[0].id != f.id;
      NewIsLast(fs[1..], f);
    }
  }

  lemma UpsertChanges(fs: seq<StoredFinding>, f: StoredFinding)
    ensures Upserts(fs, Upserted(fs, f), f)
  {
    if HasNone(fs, f.id) {
      NewIsLast(fs, f);
    }
    forall i: nat | IsFirstOf(fs, f.id, i)
      ensures Upserted(fs, f) == fs[i := f]
    {
      FirstIsReplaced(fs, f, i);
    }
  }

  // ----- Boots -----

  ghost predicate IsFirstBoot(ledger: seq<BootRecord>, boot: nat, i: nat) {
    i < |ledger| && ledger[i].boot == boot && forall k :: 0 <= k < i ==> ledger[k].boot != boot
  }

  /** The end of the boot is noted in its record. */
  ghost predicate Closes(a: seq<BootRecord>, b: seq<BootRecord>, boot: nat, clean: bool, at: nat) {
    forall i: nat {:trigger IsFirstBoot(a, boot, i)} :: IsFirstBoot(a, boot, i) ==>
      b == a[i := a[i].(cleanShutdown := clean, closedAt := at)]
  }

  lemma {:induction false} FirstIsClosed(ledger: seq<BootRecord>, boot: nat, clean: bool, at: nat, i: nat)
    requires IsFirstBoot(ledger, boot, i)
    ensures WithClosed(ledger, boot, clean, at) == ledger[i := ledger[i].(cleanShutdown := clean, closedAt := at)]
    decreases |ledger|
  {
    if i > 0 {
      assert ledger[0].boot != boot;
      assert IsFirstBoot(ledger[1..], boot, i - 1);
      FirstIsClosed(ledger[1..], boot, clean, at, i - 1);
    }
  }

  lemma ClosingChanges(ledger: seq<BootRecord>, boot: nat, clean: bool, at: nat)
    ensures Closes(ledger, WithClosed(ledger, boot, clean, at), boot, clean, at)
  {
    forall i: nat | IsFirstBoot(ledger, boot, i)
      ensures WithClosed(ledger, boot, clean, at) == ledger[i := ledger[i].(cleanShutdown := clean, closedAt := at)]
    {
      FirstIsClosed(ledger, boot, clean, at, i);
    }
  }

  // ----- In memory -----

  /** What each mutation leaves in memory. */
  ghost predicate Remembers(limits: StoreLimits, a: StoreState, b: StoreState, d: Delta) {
    match d
    case SetTopology(t) => b == a.(topology := Some(t), topologyGeneration := t.generation)
    case SetPolicy(p) => b == a.(policy := Some(p))
    case AppendLineage(r) =>
      && b == a.(lineage := b.lineage, lineageSequence := r.sequence)
      && AreNewest(a.lineage + [r], b.lineage, limits.maxRetainedLineage)
    case UpsertFinding(f) =>
      && b == a.(findings := b.findings, findingSequence := f.generation)
      && exists all :: Upserts(a.findings, all, f) && AreNewest(all, b.findings, limits.maxRetainedFindings)
    case WithdrawFinding(w) =>
      b == a.(findings := b.findings) && Withdraws(limits.maxReasons, a.findings, b.findings, w)
    case AdvanceBoot(boot) =>
      && b == a.(bootLedger := a.bootLedger + [boot], committedFence := b.committedFence)
      && b.committedFence == a.committedFence.(boot := boot.boot, epoch := boot.epoch)
    case AdvanceFence(f) => b == a.(committedFence := f)
    case NoteShutdown(boot, clean, at) =>
      b == a.(bootLedger := b.bootLedger) && Closes(a.bootLedger, b.bootLedger, boot, clean, at)
  }

  lemma MutationChanges(limits: StoreLimits, s: StoreState, d: Delta)
    ensures Remembers(limits, s, Mutated(limits, s, d), d)
  {
    match d
    case UpsertFinding(f) =>
      UpsertChanges(s.findings, f);
      assert AreNewest(Upserted(s.findings, f), Mutated(limits, s, d).findings, limits.maxRetainedFindings);
    case WithdrawFinding(w) => WithdrawalChanges(limits.maxReasons, s.findings, w);
    case NoteShutdown(boot, clean, at) => ClosingChanges(s.bootLedger, boot, clean, at);
    case _ =>
  }

  // ----- On replay -----

  /** A record is refused on replay when a lineage does not go on, and when what it withdraws or closes is not there. */
  ghost predicate IsReplayed(s: StoreState, d: Delta) {
    match d
    case AppendLineage(r) => s.lineageSequence == 0 || r.sequence > s.lineageSequence
    case WithdrawFinding(w) => !HasNone(s.findings, w.id)
    case NoteShutdown(boot, _, _) => exists i :: IsFirstBoot(s.bootLedger, boot, i)
    case _ => true
  }

  /** What replaying a record leaves: findings are not dropped, and a boot that is there is closed instead. */
  ghost predicate Replays(limits: StoreLimits, a: StoreState, b: StoreState, d: Delta) {
    match d
    case UpsertFinding(f) =>
      && Upserts(a.findings, b.findings, f)
      && b == a.(findings := b.findings, findingSequence := b.findingSequence)
      && b.findingSequence == if f.generation != 0 then f.generation else a.findingSequence
    case AdvanceBoot(boot) =>
      && b == a.(bootLedger := b.bootLedger)
      && Closes(a.bootLedger, b.bootLedger, boot.boot, boot.cleanShutdown, boot.closedAt)
      && ((forall i :: 0 <= i < |a.bootLedger| ==> a.bootLedger[i].boot != boot.boot) ==>
            b.bootLedger == a.bootLedger + [boot])
    case _ => Remembers(limits, a, b, d)
  }

  lemma {:induction false} SomeIsFirstBoot(ledger: seq<BootRecord>, boot: nat) returns (i: nat)
    requires HasBoot(ledger, boot)
    ensures IsFirstBoot(ledger, boot, i)
    decreases |ledger|
  {
    if ledger[0].boot == boot {
      i := 0;
    } else {
      var k :| 0 <= k < |ledger| && ledger[k].boot == boot;
      assert ledger[1..][k - 1].boot == boot;
      var rest := SomeIsFirstBoot(ledger[1..], boot);
      i := rest + 1;
      forall k | 0 <= k < i
        ensures ledger[k].boot != boot
      {
        assert k > 0 ==> ledger[1..][k - 1] == ledger[k];
      }
    }
  }

  lemma ReplayDecides(limits: StoreLimits, s: StoreState, d: Delta)
    ensures Replayed(limits, s, d).Some? <==> IsReplayed(s, d)
    ensures Replayed(limits, s, d).Some? ==> Replays(limits, s, Replayed(limits, s, d).value, d)
  {
    match d
    case UpsertFinding(f) => UpsertChanges(s.findings, f);
    case WithdrawFinding(w) => WithdrawalChanges(limits.maxReasons, s.findings, w);
    case AdvanceBoot(boot) => ClosingChanges(s.bootLedger, boot.boot, boot.cleanShutdown, boot.closedAt);
    case NoteShutdown(boot, clean, at) =>
      ClosingChanges(s.bootLedger, boot, clean, at);
      if HasBoot(s.bootLedger, boot) {
        var i := SomeIsFirstBoot(s.bootLedger, boot);
      }
    case _ =>
  }

  // ----- Minting -----

  lemma {:induction false} SomeHasMaxBoot(ledger: seq<BootRecord>)
    ensures MaxBoot(ledger) == 0 || exists i :: 0 <= i < |ledger| && ledger[i].boot == MaxBoot(ledger)
    decreases |ledger|
  {
    if ledger != [] {
      SomeHasMaxBoot(ledger[..|ledger| - 1]);
    }
  }

  lemma {:induction false} SomeHasMaxIncarnation(ledger: seq<BootRecord>)
    ensures MaxIncarnation(ledger) == 0
            || exists i :: 0 <= i < |ledger| && ledger[i].incarnation == MaxIncarnation(ledger)
    decreases |ledger|
  {
    if ledger != [] {
      SomeHasMaxIncarnation(ledger[..|ledger| - 1]);
    }
  }

  lemma {:induction false} SomeHasMaxEpoch(ledger: seq<BootRecord>, committed: nat)
    ensures MaxEpoch(ledger, committed) == committed
            || exists i :: 0 <= i < |ledger| && ledger[i].epoch == MaxEpoch(ledger, committed)
    decreases |ledger|
  {
    if ledger != [] {
      SomeHasMaxEpoch(ledger[..|ledger| - 1], committed);
    }
  }

  /** What is minted comes next behind what there was: each number is one more than some there was, or than nothing; and
      the boot has begun, and has not ended. */
  lemma MintedIsNext(s: StoreState, producer: nat, now: nat)
    requires Minted(s, producer, now).Some?
    ensures var b := Minted(s, producer, now).value;
            && b == BootRecord(b.boot, b.boot, b.incarnation, b.epoch, producer, now, 0, false)
            && (b.boot == 1 || exists i :: 0 <= i < |s.bootLedger| && b.boot == s.bootLedger[i].boot + 1)
            && (b.incarnation == 1
                || exists i :: 0 <= i < |s.bootLedger| && b.incarnation == s.bootLedger[i].incarnation + 1)
            && (b.epoch == s.committedFence.epoch + 1
                || exists i :: 0 <= i < |s.bootLedger| && b.epoch == s.bootLedger[i].epoch + 1)
  {
    SomeHasMaxBoot(s.bootLedger);
    SomeHasMaxIncarnation(s.bootLedger);
    SomeHasMaxEpoch(s.bootLedger, s.committedFence.epoch);
  }
}
