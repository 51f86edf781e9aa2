/** What has succeeded is durable: with the records of an operation written, the durable state has what it installed,
    the fence it moved to, the finding it published, and the withdrawal it made. */
module Durability {
  import opened Topology
  import opened Evidence
  import opened Findings
  import opened StoreState
  import opened StoreChanges
  import opened Lifecycle
  import opened RuntimeRuns
  import opened Lives
  import Transitions

  /** Some durable finding is the finding as it is written down. */
  ghost predicate IsDurable(disk: StoreState, f: Finding) {
    exists g :: g in disk.findings && IsWrittenAs(f, g)
  }

  /** The first durable finding of the identity is withdrawn by its owner, at this time. */
  ghost predicate IsWithdrawnOnDisk(disk: StoreState, id: nat, now: nat) {
    forall i: nat :: IsFirstOf(disk.findings, id, i) ==>
      && disk.findings[i].state == FindingState.Withdrawn && disk.findings[i].cause == ExplicitWithdrawal
      && disk.findings[i].updatedAt == now
  }

  /** What the durable state has once an operation has succeeded and its records are written. */
  ghost predicate HasDone(after: RuntimeState, disk: StoreState, action: Action, now: nat, notes: Notes) {
    match action
    case SetTopology(_) => disk.topology == Some(notes.document) && disk.committedFence == after.fence
    case SetPolicy(_) => disk.policy == Some(notes.policy) && disk.committedFence == after.fence
    case Publish(_, id) =>
      exists i :: 0 <= i < |after.findings| && after.findings[i].id == id && IsDurable(disk, after.findings[i])
    case Withdraw(finding) => IsWithdrawnOnDisk(disk, finding, now)
    case AdvanceForwarding(_) => disk.committedFence == after.fence
    case AdvanceFabricEpoch(_) => disk.committedFence == after.fence
    case AdvanceEpoch => disk.committedFence == after.fence
    case _ => true
  }

  lemma OneFolded(limits: StoreLimits, disk: StoreState, a: Delta)
    ensures Folded(limits, disk, [a]) == Mutated(limits, disk, a)
  {
    assert Folded(limits, Mutated(limits, disk, a), [a][1..]) == Mutated(limits, disk, a);
  }

  lemma TwoFolded(limits: StoreLimits, disk: StoreState, a: Delta, b: Delta)
    ensures Folded(limits, disk, [a, b]) == Mutated(limits, Mutated(limits, disk, a), b)
  {
    assert [a, b][1..] == [b];
    OneFolded(limits, Mutated(limits, disk, a), b);
  }

  lemma ThreeFolded(limits: StoreLimits, disk: StoreState, a: Delta, b: Delta, c: Delta)
    ensures Folded(limits, disk, [a, b, c]) == Mutated(limits, Mutated(limits, Mutated(limits, disk, a), b), c)
  {
    assert [a, b, c][1..] == [b, c];
    TwoFolded(limits, Mutated(limits, disk, a), b, c);
  }

  lemma DefinitionIsDurable(limits: RuntimeLimits, store: StoreLimits, s: RuntimeState, disk: StoreState,
                            action: Action, now: nat, notes: Notes)
    requires action.SetTopology? || action.SetPolicy?
    requires Act(limits, s, action, now).reply == Lifecycle.Done
    ensures HasDone(Act(limits, s, action, now).state, Folded(store, disk, Written(limits, s, action, now, notes)),
                    action, now, notes)
  {
    var fence := Act(limits, s, action, now).state.fence;
    if action.SetTopology? {
      assert Written(limits, s, action, now, notes)
          == [Delta.SetTopology(notes.document), Delta.AdvanceFence(fence), AppendLineage(notes.lineage)];
      ThreeFolded(store, disk, Delta.SetTopology(notes.document), Delta.AdvanceFence(fence),
                  AppendLineage(notes.lineage));
    } else {
      assert Written(limits, s, action, now, notes) == [Delta.SetPolicy(notes.policy), Delta.AdvanceFence(fence)];
      TwoFolded(store, disk, Delta.SetPolicy(notes.policy), Delta.AdvanceFence(fence));
    }
  }

  lemma FenceIsDurable(limits: RuntimeLimits, store: StoreLimits, s: RuntimeState, disk: StoreState,
                       action: Action, now: nat, notes: Notes)
    requires action.AdvanceForwarding? || action.AdvanceFabricEpoch? || action.AdvanceEpoch?
    requires Act(limits, s, action, now).reply == Lifecycle.Done
    ensures HasDone(Act(limits, s, action, now).state, Folded(store, disk, Written(limits, s, action, now, notes)),
                    action, now, notes)
  {
    var fence := Act(limits, s, action, now).state.fence;
    assert Written(limits, s, action, now, notes) == [Delta.AdvanceFence(fence), AppendLineage(notes.lineage)];
    TwoFolded(store, disk, Delta.AdvanceFence(fence), AppendLineage(notes.lineage));
  }

  lemma UpsertedIsLast(store: StoreLimits, disk: StoreState, g: StoredFinding)
    requires store.maxRetainedFindings > 0 && HasNone(disk.findings, g.id)
    ensures g in Mutated(store, disk, UpsertFinding(g)).findings
  {
    NewIsLast(disk.findings, g);
    var all := disk.findings + [g];
    assert all[|all| - 1] == g;
    var kept := Newest(all, store.maxRetainedFindings);
    assert kept[|kept| - 1] == g;
  }

  /** A finding published is durable, as long as any is and its identity is new to the disk. */
  lemma FindingIsDurable(limits: RuntimeLimits, store: StoreLimits, s: RuntimeState, disk: StoreState,
                         action: Action, now: nat, notes: Notes)
    requires Reachable(s) && action.Publish? && NotesFit(s, action, now, notes)
    requires Act(limits, s, action, now).reply == Lifecycle.Done
    requires store.maxRetainedFindings > 0 && HasNone(disk.findings, action.id)
    ensures HasDone(Act(limits, s, action, now).state, Folded(store, disk, Written(limits, s, action, now, notes)),
                    action, now, notes)
  {
    var a, after := action.assessment, Act(limits, s, action, now).state;
    var f :=
      Finding(action.id, NextGeneration(s.findings), a.id, a.fence, FindingState.Confirmed, NoCause, 0, None, now,
                     now);
    assert Written(limits, s, action, now, notes) == [UpsertFinding(notes.finding), AppendLineage(notes.lineage)];
    TwoFolded(store, disk, UpsertFinding(notes.finding), AppendLineage(notes.lineage));
    UpsertedIsLast(store, disk, notes.finding);
    Transitions.RegisteredAre(s.findings, limits.maxFindings, f);
    assert f in after.findings;
    var i :| 0 <= i < |after.findings| && after.findings[i] == f;
    assert IsDurable(Folded(store, disk, Written(limits, s, action, now, notes)), after.findings[i]);
  }

  /** A withdrawal that succeeded is durable. */
  lemma WithdrawalIsDurable(limits: RuntimeLimits, store: StoreLimits, s: RuntimeState, disk: StoreState,
                            action: Action, now: nat, notes: Notes)
    requires action.Withdraw? && Act(limits, s, action, now).reply == Lifecycle.Done
    ensures HasDone(Act(limits, s, action, now).state, Folded(store, disk, Written(limits, s, action, now, notes)),
                    action, now, notes)
  {
    var w := Withdrawal(action.finding, ExplicitWithdrawal, now, notes.reason);
    assert Written(limits, s, action, now, notes) == [Delta.WithdrawFinding(w), AppendLineage(notes.lineage)];
    TwoFolded(store, disk, Delta.WithdrawFinding(w), AppendLineage(notes.lineage));
    WithdrawnStaysFirst(store.maxReasons, disk.findings, w);
  }

  lemma FirstIsOne(fs: seq<StoredFinding>, id: nat, i: nat, j: nat)
    requires IsFirstOf(fs, id, i) && IsFirstOf(fs, id, j)
    ensures i == j
  {
  }

  lemma WithdrawnStaysFirst(most: nat, fs: seq<StoredFinding>, w: Withdrawal)
    ensures forall i: nat :: IsFirstOf(WithWithdrawn(most, fs, w), w.id, i) ==>
              && WithWithdrawn(most, fs, w)[i].state == FindingState.Withdrawn
              && WithWithdrawn(most, fs, w)[i].cause == w.cause && WithWithdrawn(most, fs, w)[i].updatedAt == w.at
  {
    if HasNone(fs, w.id) {
      NoneIsWithdrawn(most, fs, w);
    } else {
      var k := SomeIsFirst(fs, w.id);
      FirstIsWithdrawn(most, fs, w, k);
      forall i: nat | IsFirstOf(WithWithdrawn(most, fs, w), w.id, i)
        ensures i == k
      {
        var r := WithWithdrawn(most, fs, w);
        assert r == fs[k := Retracted(most, fs[k], w)] && r[k].id == w.id;
        assert IsFirstOf(r, w.id, k);
        FirstIsOne(r, w.id, i, k);
      }
    }
  }

  /** What has succeeded is durable once its records are written. */
  lemma DoneIsDurable(limits: RuntimeLimits, store: StoreLimits, s: RuntimeState, disk: StoreState, action: Action,
                      now: nat, notes: Notes)
    requires Reachable(s) && NotesFit(s, action, now, notes) && Act(limits, s, action, now).reply == Lifecycle.Done
    requires action.Publish? ==> store.maxRetainedFindings > 0 && HasNone(disk.findings, action.id)
    ensures HasDone(Act(limits, s, action, now).state, Folded(store, disk, Written(limits, s, action, now, notes)),
                    action, now, notes)
  {
    match action
    case SetTopology(_) => DefinitionIsDurable(limits, store, s, disk, action, now, notes);
    case SetPolicy(_) => DefinitionIsDurable(limits, store, s, disk, action, now, notes);
    case Publish(_, _) => FindingIsDurable(limits, store, s, disk, action, now, notes);
    case Withdraw(_) => WithdrawalIsDurable(limits, store, s, disk, action, now, notes);
    case AdvanceForwarding(_) => FenceIsDurable(limits, store, s, disk, action, now, notes);
    case AdvanceFabricEpoch(_) => FenceIsDurable(limits, store, s, disk, action, now, notes);
    case AdvanceEpoch => FenceIsDurable(limits, store, s, disk, action, now, notes);
    case _ =>
  }
}
