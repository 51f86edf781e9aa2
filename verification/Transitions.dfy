/** What each operation of the runtime does, said of the state before it and the state after it: when it succeeds, what
    it changes, and that it changes nothing else. */
module Transitions {
  import opened Lists
  import opened Topology
  import opened Order
  import opened Evidence
  import opened Findings
  import opened Authority
  import opened Planner
  import opened Lifecycle
  import RuntimeRuns
  import StoreState

  // ----- Findings -----

  predicate IsLive(f: Finding) {
    f.state !in {FindingState.Withdrawn, FindingState.Stale, FindingState.Fenced, FindingState.Rejected}
  }

  ghost predicate HoldsLive(fs: seq<Finding>, id: nat) {
    exists i :: 0 <= i < |fs| && fs[i].id == id && IsLive(fs[i])
  }

  /** The findings are the same, but for the one at `i`. */
  ghost predicate ChangesOnly(a: seq<Finding>, b: seq<Finding>, i: nat) {
    i < |a| == |b| && forall k {:trigger b[k]} :: 0 <= k < |a| && k != i ==> b[k] == a[k]
  }

  /** The live finding of this identity is now in this state. */
  ghost predicate FindingBecomes(a: seq<Finding>, b: seq<Finding>, id: nat, state: FindingState, now: nat) {
    exists i: nat ::
      && ChangesOnly(a, b, i) && a[i].id == id && IsLive(a[i])
      && b[i] == a[i].(state := state, updatedAt := now)
  }

  lemma LiveIsFound(fs: seq<Finding>, id: nat)
    requires IdsRise(fs)
    ensures HoldsLive(fs, id) <==> PositionOf(fs, id).Some? && !fs[PositionOf(fs, id).value].state.IsTerminal()
  {
    if i :| 0 <= i < |fs| && fs[i].id == id && IsLive(fs[i]) {
      PositionIsUnique(fs, i);
    }
  }

  /** The application, changed, is the intent's, and the finding follows it if it is live. */
  lemma FollowingDecides(s: RuntimeState, finding: nat, state: FindingState, now: nat)
    requires IdsRise(s.findings) && !state.IsTerminal()
    ensures var o := Followed(s, finding, state, now);
            && (o.reply == Done <==> HoldsLive(s.findings, finding))
            && (o.reply == IsNotFound <==> !IsThere(s.findings, finding))
            && (o.reply in {Done, IsNotFound, IsRefused})
            && (o.reply == Done ==> FindingBecomes(s.findings, o.state.findings, finding, state, now))
            && (o.reply != Done ==> o.state.findings == s.findings)
            && o.state == s.(findings := o.state.findings)
  {
    var o := Followed(s, finding, state, now);
    LiveIsFound(s.findings, finding);
    if o.reply == Done {
      var i := PositionOf(s.findings, finding).value;
      assert ChangesOnly(s.findings, o.state.findings, i);
    }
  }

  // ----- Verified effects -----

  /** The intent is registered at the current fence, and the effect is one at that fence for a target of it that has
      none yet. */
  ghost predicate IsNewEffect(s: RuntimeState, intent: Intent, e: VerifiedEffect) {
    && intent in s.applications && s.applications[intent].fence == s.fence
    && e.fence == s.fence && e.target in s.applications[intent].targets
    && forall x :: x in s.applications[intent].effects ==> x.target != e.target
  }

  /** Only the application of this intent differs. */
  ghost predicate ChangesApplication(a: RuntimeState, b: RuntimeState, intent: Intent) {
    && intent in a.applications && b.applications.Keys == a.applications.Keys
    && (forall k :: k in a.applications && k != intent ==> b.applications[k] == a.applications[k])
    && b == a.(findings := b.findings, applications := b.applications)
  }

  ghost predicate EffectsAscend(effects: seq<VerifiedEffect>) {
    forall i, j :: 0 <= i < j < |effects| ==> effects[i].target <= effects[j].target
  }

  /** The application has one effect more, and keeps its effects in the order of their targets. */
  ghost predicate GainsEffect(a: RuntimeState, b: RuntimeState, intent: Intent, e: VerifiedEffect) {
    && ChangesApplication(a, b, intent)
    && b.applications[intent] == a.applications[intent].(effects := b.applications[intent].effects)
    && multiset(b.applications[intent].effects) == multiset(a.applications[intent].effects) + multiset{e}
    && (EffectsAscend(a.applications[intent].effects) ==> EffectsAscend(b.applications[intent].effects))
  }

  /** Every target of the application has an effect. */
  ghost predicate EachHasEffect(app: Application) {
    forall t :: t in app.targets ==> exists e :: e in app.effects && e.target == t
  }

  ghost predicate IsThere(fs: seq<Finding>, id: nat) {
    exists i :: 0 <= i < |fs| && fs[i].id == id
  }

  /** Why an effect is not recorded: the intent, or its finding, is not there; it is of another fence; the target is
      none of its, or the finding is over; the effect is of another fence; or the target has one. */
  ghost predicate RefusesEffect(s: RuntimeState, r: Reply, intent: Intent, e: VerifiedEffect) {
    var known := intent in s.applications;
    var current := known && s.applications[intent].fence == s.fence;
    var asked := current && e.target in s.applications[intent].targets;
    && (r == IsNotFound <==> !known || (IsNewEffect(s, intent, e) && !IsThere(s.findings, intent.finding)))
    && (r == IsFenced <==> known && !current)
    && (r == IsRefused <==>
        || (current && !asked)
        || (IsNewEffect(s, intent, e) && IsThere(s.findings, intent.finding)
            && !HoldsLive(s.findings, intent.finding)))
    && (r == IsStale <==> asked && e.fence != s.fence)
    && (r == IsKnown <==> asked && e.fence == s.fence && !IsNewEffect(s, intent, e))
  }

  /** What recording an effect does: it succeeds exactly for a new effect of a live finding; a new effect is kept either
      way; and the finding is then verified when every target has an effect, and otherwise applied but not verified. */
  ghost predicate RecordsEffect(a: RuntimeState, r: Reply, b: RuntimeState, intent: Intent, e: VerifiedEffect,
                                now: nat)
  {
    && (r == Done <==> IsNewEffect(a, intent, e) && HoldsLive(a.findings, intent.finding))
    && RefusesEffect(a, r, intent, e)
    && (if IsNewEffect(a, intent, e) then GainsEffect(a, b, intent, e) else b == a)
    && (r == Done ==>
          FindingBecomes(a.findings, b.findings, intent.finding,
                         if EachHasEffect(b.applications[intent]) then ContainmentVerified
                         else ContainmentAppliedUnverified, now))
    && (r != Done ==> b.findings == a.findings)
  }

  lemma {:induction false} InsertedIsAdded(effects: seq<VerifiedEffect>, e: VerifiedEffect)
    ensures multiset(EffectInserted(effects, e)) == multiset(effects) + multiset{e}
    ensures EffectsAscend(effects) ==> EffectsAscend(EffectInserted(effects, e))
    decreases |effects|
  {
    if effects != [] {
      var front, last := effects[..|effects| - 1], effects[|effects| - 1];
      assert effects == front + [last];
      assert EffectsAscend(effects) ==> EffectsAscend(front);
      if e.target < last.target {
        InsertedIsAdded(front, e);
        if EffectsAscend(effects) {
          EndsAbove(front, e, last);
        }
      }
    }
  }

  lemma EndsAbove(front: seq<VerifiedEffect>, e: VerifiedEffect, last: VerifiedEffect)
    requires EffectsAscend(front + [last]) && EffectsAscend(EffectInserted(front, e)) && e.target < last.target
    ensures EffectsAscend(EffectInserted(front, e) + [last])
  {
    var r := EffectInserted(front, e);
    forall i | 0 <= i < |r|
      ensures r[i].target <= last.target
    {
      assert r[i] in r;
      if r[i] in front {
        var k :| 0 <= k < |front| && front[k] == r[i];
        assert (front + [last])[k].target <= (front + [last])[|front|].target;
      }
    }
  }

  lemma VerifiedIsEach(app: Application)
    requires app.targets != []
    ensures IsVerified(app) <==> EachHasEffect(app)
  {
    if IsVerified(app) {
      forall t | t in app.targets
        ensures exists e :: e in app.effects && e.target == t
      {
        var k :| 0 <= k < |app.targets| && app.targets[k] == t;
        assert HasEffect(app, app.targets[k]);
        var i :| 0 <= i < |app.effects| && app.effects[i].target == t;
        assert app.effects[i] in app.effects;
      }
    }
    if EachHasEffect(app) {
      forall k | 0 <= k < |app.targets|
        ensures HasEffect(app, app.targets[k])
      {
        assert app.targets[k] in app.targets;
        var e :| e in app.effects && e.target == app.targets[k];
      }
    }
  }

  lemma NewEffectDecides(s: RuntimeState, intent: Intent, e: VerifiedEffect)
    requires Reachable(s) && intent in s.applications
    ensures var app := s.applications[intent];
            IsNewEffect(s, intent, e) <==>
            && app.fence == s.fence && BinarySearch(app.targets, e.target) && e.fence == s.fence
            && !HasEffect(app, e.target)
    ensures BinarySearch(s.applications[intent].targets, e.target) <==> e.target in s.applications[intent].targets
  {
    var app := s.applications[intent];
    assert KeepsToIntent(intent, app);
    StrictIsNondecreasing(app.targets);
    SortedIsFound(app.targets, e.target);
    if HasEffect(app, e.target) {
      var i :| 0 <= i < |app.effects| && app.effects[i].target == e.target;
      assert app.effects[i] in app.effects;
    }
  }

  lemma EffectDecides(s: RuntimeState, intent: Intent, e: VerifiedEffect, now: nat)
    requires Reachable(s)
    ensures var o := EffectRecorded(s, intent, e, now); RecordsEffect(s, o.reply, o.state, intent, e, now)
  {
    if intent in s.applications {
      NewEffectDecides(s, intent, e);
      if IsNewEffect(s, intent, e) {
        NewEffectRecorded(s, intent, e, now);
      }
    }
  }

  lemma NewEffectRecorded(s: RuntimeState, intent: Intent, e: VerifiedEffect, now: nat)
    requires Reachable(s) && IsNewEffect(s, intent, e)
    ensures var o := EffectRecorded(s, intent, e, now); RecordsEffect(s, o.reply, o.state, intent, e, now)
  {
    var app := s.applications[intent];
    var more := app.(effects := EffectInserted(app.effects, e));
    var state := if IsVerified(more) then ContainmentVerified else ContainmentAppliedUnverified;
    assert KeepsToIntent(intent, app);
    NewEffectDecides(s, intent, e);
    var o := EffectRecorded(s, intent, e, now);
    assert o == Followed(s.(applications := s.applications[intent := more]), intent.finding, state, now);
    FollowingDecides(s.(applications := s.applications[intent := more]), intent.finding, state, now);
    NewEffectIsGained(s, o.state, intent, e);
    VerifiedIsEach(more);
  }

  lemma NewEffectIsGained(a: RuntimeState, b: RuntimeState, intent: Intent, e: VerifiedEffect)
    requires intent in a.applications
    requires var app := a.applications[intent];
             b == a.(findings := b.findings,
                     applications := a.applications[intent := app.(effects := EffectInserted(app.effects, e))])
    ensures GainsEffect(a, b, intent, e)
  {
    InsertedIsAdded(a.applications[intent].effects, e);
  }

  // ----- Acknowledgements -----

  /** The intent is registered at the current fence, and may be acknowledged once more. */
  ghost predicate MayAcknowledge(s: RuntimeState, intent: Intent, now: nat) {
    && intent in s.applications && s.applications[intent].fence == s.fence
    && (now == 0 || s.applications[intent].acknowledgements < 4)
  }

  /** What an acknowledgement does: it is counted, and the finding, if it is live, is applied but not verified, whatever
      it was before. */
  ghost predicate RecordsAcknowledgement(a: RuntimeState, r: Reply, b: RuntimeState, intent: Intent, now: nat) {
    && (r == Done <==> MayAcknowledge(a, intent, now) && HoldsLive(a.findings, intent.finding))
    && (r == IsNotFound <==>
        intent !in a.applications || (MayAcknowledge(a, intent, now) && !IsThere(a.findings, intent.finding)))
    && (r == IsFenced <==> intent in a.applications && a.applications[intent].fence != a.fence)
    && (r == IsExhausted <==>
        intent in a.applications && a.applications[intent].fence == a.fence && !MayAcknowledge(a, intent, now))
    && (if MayAcknowledge(a, intent, now) then
          && ChangesApplication(a, b, intent)
          && b.applications[intent]
             == a.applications[intent].(acknowledgements := a.applications[intent].acknowledgements + 1)
        else b == a)
    && (r == Done ==> FindingBecomes(a.findings, b.findings, intent.finding, ContainmentAppliedUnverified, now))
    && (r != Done ==> b.findings == a.findings)
  }

  lemma AcknowledgementDecides(s: RuntimeState, intent: Intent, now: nat)
    requires Reachable(s)
    ensures var o := Acknowledged(s, intent, now); RecordsAcknowledgement(s, o.reply, o.state, intent, now)
  {
    if MayAcknowledge(s, intent, now) {
      var app := s.applications[intent];
      assert KeepsToIntent(intent, app);
      FollowingDecides(s.(applications := s.applications[intent := app.(acknowledgements := app.acknowledgements + 1)]),
                       app.finding, ContainmentAppliedUnverified, now);
    }
  }

  /** An acknowledgement that comes after the last effect takes the verification back: the finding is applied but not
      verified again, and no effect is new to the intent any more, so none brings it back. */
  lemma LateAcknowledgementUnverifies(s: RuntimeState, intent: Intent, now: nat, e: VerifiedEffect, later: nat)
    requires Reachable(s) && MayAcknowledge(s, intent, now) && EachHasEffect(s.applications[intent])
    requires HoldsLive(s.findings, intent.finding)
    ensures var o := Acknowledged(s, intent, now);
            && o.reply == Done
            && FindingBecomes(s.findings, o.state.findings, intent.finding, ContainmentAppliedUnverified, now)
            && EffectRecorded(o.state, intent, e, later).reply != Done
            && EffectRecorded(o.state, intent, e, later).state == o.state
  {
    var o := Acknowledged(s, intent, now);
    AcknowledgementDecides(s, intent, now);
    RuntimeRuns.AcknowledgementKeeps(s, intent, now);
    EffectDecides(o.state, intent, e, later);
    assert EachHasEffect(o.state.applications[intent]);
    assert !IsNewEffect(o.state, intent, e);
  }

  // ----- Withdrawal -----

  /** A finding is withdrawn from any state, for the reason that somebody asked. */
  ghost predicate Withdraws(a: RuntimeState, r: Reply, b: RuntimeState, finding: nat, now: nat) {
    && r in {Done, IsNotFound} && (r == Done <==> IsThere(a.findings, finding))
    && (r == Done ==> exists i: nat ::
          && ChangesOnly(a.findings, b.findings, i) && a.findings[i].id == finding
          && b.findings[i]
             == a.findings[i].(state := FindingState.Withdrawn, cause := ExplicitWithdrawal, updatedAt := now))
    && b == a.(findings := b.findings) && (r != Done ==> b == a)
  }

  lemma WithdrawalDecides(s: RuntimeState, finding: nat, now: nat)
    requires Reachable(s)
    ensures var o := WithdrawnBy(s, finding, now); Withdraws(s, o.reply, o.state, finding, now)
  {
    var o := WithdrawnBy(s, finding, now);
    if o.reply == Done {
      assert ChangesOnly(s.findings, o.state.findings, PositionOf(s.findings, finding).value);
    }
  }

  // ----- Moving the fence -----

  /** The cause is the first component, in the order of boot, epoch, fabric epoch, definition, forwarding and policy, in
      which the two fences differ. */
  predicate IsFirstDifference(cause: FenceCause, f: FenceVector, g: FenceVector) {
    && (cause == BootAdvanced <==> f.boot != g.boot)
    && (cause == CoordinatorEpochAdvanced <==> f.boot == g.boot && f.epoch != g.epoch)
    && (cause == FabricEpochAdvanced <==> f.boot == g.boot && f.epoch == g.epoch && f.fabricEpoch != g.fabricEpoch)
    && (cause == TopologyGenerationAdvanced <==>
        f == g.(topology := f.topology, forwarding := f.forwarding, policy := f.policy) && f.topology != g.topology)
    && (cause == ForwardingGenerationAdvanced <==>
        f == g.(forwarding := f.forwarding, policy := f.policy) && f.forwarding != g.forwarding)
    && (cause == PolicyGenerationAdvanced <==> f == g.(policy := f.policy) && f.policy != g.policy)
  }

  ghost predicate StaleUnlessBound(a: Finding, b: Finding, fence: FenceVector, now: nat) {
    if !IsLive(a) || a.fence == fence then b == a
    else IsFirstDifference(b.cause, a.fence, fence) && b == a.(state := Stale, cause := b.cause, updatedAt := now)
  }

  /** The fence moves, and exactly the live findings that another fence binds become stale. */
  ghost predicate MovesFence(a: RuntimeState, b: RuntimeState, fence: FenceVector, now: nat) {
    && b.fence == fence && b.plans == a.plans && b.applications == a.applications && |b.findings| == |a.findings|
    && forall i {:trigger b.findings[i]} :: 0 <= i < |a.findings| ==>
         StaleUnlessBound(a.findings[i], b.findings[i], fence, now)
  }

  lemma MoveDecides(s: RuntimeState, fence: FenceVector, now: nat)
    ensures MovesFence(s, Moved(s, fence, now), fence, now)
  {
    var b := Moved(s, fence, now);
    forall i | 0 <= i < |s.findings|
      ensures StaleUnlessBound(s.findings[i], b.findings[i], fence, now)
    {
      assert b.findings[i] == WithFenceChecked(s.findings[i], fence, now);
    }
  }

  // ----- Starting from durable state -----

  /** A durable finding as a restart brings it back: fenced, without its intent, and dated now where it is of another
      boot or epoch. */
  ghost predicate IsHistoryOf(d: StoreState.StoredFinding, f: Finding, boot: nat, epoch: nat, now: nat) {
    f == Finding(d.id, d.generation, d.assessment, d.fence, FindingState.Fenced, BootAdvanced, d.plan, None,
                 d.createdAt,
                 if d.fence.boot == boot && d.fence.epoch == epoch then d.updatedAt else now)
  }

  /** The registry has room for every durable finding, and takes each of them. */
  ghost predicate FitRegistry(most: nat, fs: seq<StoreState.StoredFinding>) {
    && |fs| <= most
    && (forall i :: 0 <= i < |fs| ==> fs[i].id != 0 && fs[i].fence.boot != 0)
    && forall i, j :: 0 <= i < j < |fs| ==> fs[i].id != fs[j].id
  }

  lemma {:induction false} RestoredAreHistory(most: nat, fs: seq<StoreState.StoredFinding>)
    ensures forall f :: f in RestoredFindings(most, fs) ==> exists d :: d in fs && f == AsHistory(d)
    decreases |fs|
  {
    if fs != [] {
      var front, last := fs[..|fs| - 1], fs[|fs| - 1];
      assert fs == front + [last];
      RestoredAreHistory(most, front);
      RuntimeRuns.RestoredAreOver(most, front);
      var before := RestoredFindings(most, front);
      var r := RegistrationOf(most, before, AsHistory(last));
      if r.Registered? {
        RegisteredAre(before, most, AsHistory(last));
      }
    }
  }

  /** Whoever is registered was there before, or is the newcomer. */
  lemma RegisteredAre(fs: seq<Finding>, most: nat, f: Finding)
    requires IdsRise(fs) && RegistrationOf(most, fs, f).Registered?
    ensures forall x :: x in RegistrationOf(most, fs, f).findings ==> x in fs || x == f
    ensures f in RegistrationOf(most, fs, f).findings
    ensures |fs| < most ==> forall x :: x in fs ==> x in RegistrationOf(most, fs, f).findings
    ensures |fs| < most ==> |RegistrationOf(most, fs, f).findings| == |fs| + 1
  {
    var victim := VictimAmong(fs, |fs|);
    if |fs| < most {
      InsertedRises(fs, f);
    } else {
      var kept := Without(fs, victim.value);
      WithoutRises(fs, victim.value);
      RuntimeRuns.NewIdentity(fs, kept, f);
      InsertedRises(kept, f);
    }
  }

  lemma {:induction false} AllAreRestored(most: nat, fs: seq<StoreState.StoredFinding>)
    requires FitRegistry(most, fs)
    ensures |RestoredFindings(most, fs)| == |fs|
    ensures forall d :: d in fs ==> AsHistory(d) in RestoredFindings(most, fs)
    decreases |fs|
  {
    if fs != [] {
      var front, last := fs[..|fs| - 1], fs[|fs| - 1];
      assert fs == front + [last];
      AllAreRestored(most, front);
      RuntimeRuns.RestoredAreOver(most, front);
      RestoredAreHistory(most, front);
      var before := RestoredFindings(most, front);
      forall i | 0 <= i < |before|
        ensures before[i].id != last.id
      {
        assert before[i] in before;
        var d :| d in front && before[i] == AsHistory(d);
        var k :| 0 <= k < |front| && front[k] == d;
        assert fs[k].id != fs[|fs| - 1].id;
      }
      assert PositionOf(before, last.id).None?;
      RegisteredAre(before, most, AsHistory(last));
    }
  }

  /** What a restart begins with: the durable definitions and policy, the fence that was committed under the new boot,
      no plan and no application, and of the findings only durable ones, each of them where they fit the registry. */
  lemma RestartDecides(limits: RuntimeLimits, disk: StoreState.StoreState, boot: nat, epoch: nat, now: nat)
    ensures var s, f := Restored(limits, disk, boot, epoch, now), disk.committedFence;
            && s.plans == [] && s.applications == map[] && s.fence.boot == boot && s.fence.epoch == epoch
            && s.topology == (if disk.topology.Some? then disk.topology.value.generation else 0)
            && s.policy == (if disk.policy.Some? then disk.policy.value.generation else 0)
            && s.fence.topology == (if disk.topology.Some? then disk.topology.value.generation else 1)
            && s.fence.forwarding == (if f.forwarding != 0 then f.forwarding else 1)
            && s.fence.fabricEpoch == (if f.fabricEpoch != 0 then f.fabricEpoch else 1)
            && s.fence.policy
               == (if f.policy != 0 then f.policy else if disk.policy.Some? then disk.policy.value.generation else 1)
            && (forall x :: x in s.findings ==> exists d :: d in disk.findings && IsHistoryOf(d, x, boot, epoch, now))
            && (FitRegistry(limits.maxFindings, disk.findings) ==>
                  && |s.findings| == |disk.findings|
                  && forall d :: d in disk.findings ==>
                     exists x :: x in s.findings && IsHistoryOf(d, x, boot, epoch, now))
  {
    var s := Restored(limits, disk, boot, epoch, now);
    var before := RestoredFindings(limits.maxFindings, disk.findings);
    RestoredAreHistory(limits.maxFindings, disk.findings);
    forall x | x in s.findings
      ensures exists d :: d in disk.findings && IsHistoryOf(d, x, boot, epoch, now)
    {
      var i :| 0 <= i < |s.findings| && s.findings[i] == x;
      assert before[i] in before && x == WithBootChecked(before[i], s.fence, now);
      var d :| d in disk.findings && before[i] == AsHistory(d);
      assert IsHistoryOf(d, x, boot, epoch, now);
    }
    if FitRegistry(limits.maxFindings, disk.findings) {
      AllAreRestored(limits.maxFindings, disk.findings);
      forall d | d in disk.findings
        ensures exists x :: x in s.findings && IsHistoryOf(d, x, boot, epoch, now)
      {
        var i :| 0 <= i < |before| && before[i] == AsHistory(d);
        assert s.findings[i] == WithBootChecked(before[i], s.fence, now) && s.findings[i] in s.findings;
        assert IsHistoryOf(d, s.findings[i], boot, epoch, now);
      }
    }
  }
}
