/** What every run of the runtime keeps: findings, fences and verified containment. */
module RuntimeRuns {
  import opened Lists
  import opened Topology
  import opened Order
  import opened Evidence
  import opened Findings
  import opened Authority
  import opened Planner
  import opened Lifecycle
  import StoreState

  // ----- Steps -----

  lemma FateOfSame(fs: seq<Finding>, i: nat)
    requires IdsRise(fs) && i < |fs|
    ensures FateKept(fs[i], fs)
  {
    forall j | 0 <= j < |fs| && fs[j].id == fs[i].id
      ensures j == i
    {
      PositionIsUnique(fs, i);
      PositionIsUnique(fs, j);
    }
  }

  lemma FateWhenReplaced(fs: seq<Finding>, at: nat, f: Finding, i: nat)
    requires IdsRise(fs) && at < |fs| && i < |fs| && f.id == fs[at].id
    requires fs[at].state.IsTerminal() ==> f.state.IsTerminal()
    ensures FateKept(fs[i], fs[at := f])
  {
    var after := fs[at := f];
    assert after[i].id == fs[i].id;
    forall j | 0 <= j < |after| && after[j].id == fs[i].id
      ensures j == i
    {
      PositionIsUnique(fs, i);
      PositionIsUnique(fs, j);
    }
  }

  lemma ReplacedRises(fs: seq<Finding>, at: nat, f: Finding)
    requires IdsRise(fs) && at < |fs| && f.id == fs[at].id
    ensures IdsRise(fs[at := f])
  {
  }

  lemma FenceMoves(s: RuntimeState, fence: FenceVector, now: nat)
    requires IdsRise(s.findings) && ApplicationsKept(s) && VerifiedIsContained(s) && FenceAtLeast(s.fence, fence)
    requires FenceFits(s.(fence := fence))
    ensures Reachable(Moved(s, fence, now)) && Follows(s, Moved(s, fence, now))
  {
    var after := Moved(s, fence, now);
    forall i | 0 <= i < |s.findings|
      ensures FateKept(s.findings[i], after.findings)
      ensures after.findings[i].state == ContainmentVerified ==> IsContained(after, after.findings[i])
    {
      assert after.findings[i] == WithFenceChecked(s.findings[i], fence, now);
      if after.findings[i].state == ContainmentVerified {
        assert after.findings[i] == s.findings[i] && IsContained(s, s.findings[i]);
      }
      MovedFate(s.findings, fence, now, i);
    }
  }

  lemma MovedFate(fs: seq<Finding>, fence: FenceVector, now: nat, i: nat)
    requires IdsRise(fs) && i < |fs|
    ensures FateKept(fs[i], StaleFenced(fs, fence, now))
  {
    var after := StaleFenced(fs, fence, now);
    assert after[i].id == fs[i].id;
    forall j | 0 <= j < |after| && after[j].id == fs[i].id
      ensures j == i
    {
      PositionIsUnique(fs, i);
      PositionIsUnique(fs, j);
    }
  }

  /** Containment shown for a finding is still shown when applications only grow or belong to another finding. */
  ghost predicate ApplicationsGrow(a: RuntimeState, b: RuntimeState, finding: nat) {
    forall intent {:trigger intent in a.applications} :: intent in a.applications ==>
      intent in b.applications
      && (intent.finding != finding && IsVerified(a.applications[intent]) ==> IsVerified(b.applications[intent]))
  }

  /** One finding is replaced, live by live or by what is over, and applications of others are kept. */
  lemma OneFindingChanges(a: RuntimeState, b: RuntimeState, at: nat)
    requires Reachable(a) && at < |a.findings| && b.fence == a.fence && b.topology == a.topology && b.policy == a.policy
    requires |b.findings| == |a.findings| && b.findings == a.findings[at := b.findings[at]]
    requires b.findings[at].id == a.findings[at].id && b.findings[at].fence == a.findings[at].fence
    requires a.findings[at].state.IsTerminal() ==> b.findings[at].state.IsTerminal()
    requires ApplicationsKept(b) && ApplicationsGrow(a, b, a.findings[at].id)
    requires b.findings[at].state == ContainmentVerified ==> IsContained(b, b.findings[at])
    ensures Reachable(b) && Follows(a, b)
  {
    ReplacedRises(a.findings, at, b.findings[at]);
    forall i | 0 <= i < |a.findings|
      ensures FateKept(a.findings[i], b.findings)
      ensures b.findings[i].state == ContainmentVerified ==> IsContained(b, b.findings[i])
    {
      FateWhenReplaced(a.findings, at, b.findings[at], i);
      if i != at && a.findings[i].state == ContainmentVerified {
        StaysContained(a, b, at, i);
      }
    }
  }

  lemma StaysContained(a: RuntimeState, b: RuntimeState, at: nat, i: nat)
    requires IdsRise(a.findings) && at < |a.findings| && i < |a.findings| && i != at && IsContained(a, a.findings[i])
    requires ApplicationsGrow(a, b, a.findings[at].id)
    ensures IsContained(b, a.findings[i])
  {
    PositionIsUnique(a.findings, i);
    PositionIsUnique(a.findings, at);
    var intent :| intent in a.applications && intent.finding == a.findings[i].id && intent.fence == a.findings[i].fence
                  && IsVerified(a.applications[intent]);
    assert intent in b.applications;
  }

  lemma PublishKeeps(s: RuntimeState, limits: RuntimeLimits, a: Assessment, id: nat, now: nat)
    requires Reachable(s)
    ensures var o := Published(s, limits, a, id, now); Reachable(o.state) && Follows(s, o.state)
  {
    var o := Published(s, limits, a, id, now);
    if o.state == s {
      NothingChanges(s);
    } else {
      var f :=
        Finding(id, NextGeneration(s.findings), a.id, a.fence, FindingState.Confirmed, NoCause, 0, None, now, now);
      RegistrationKeeps(s, limits.maxFindings, f);
    }
  }

  lemma NothingChanges(s: RuntimeState)
    requires Reachable(s)
    ensures Follows(s, s)
  {
    forall i | 0 <= i < |s.findings|
      ensures FateKept(s.findings[i], s.findings)
    {
      FateOfSame(s.findings, i);
    }
  }

  /** The findings kept, and the newcomer among them. */
  ghost function KeptFindings(s: RuntimeState, most: nat): seq<Finding> {
    var victim := VictimAmong(s.findings, |s.findings|);
    if |s.findings| < most || victim.None? then s.findings else Without(s.findings, victim.value)
  }

  lemma RegistrationKeeps(s: RuntimeState, most: nat, f: Finding)
    requires Reachable(s) && f.fence == s.fence && f.state == FindingState.Confirmed
             && RegistrationOf(most, s.findings, f).Registered?
    ensures var after := s.(findings := RegistrationOf(most, s.findings, f).findings);
            Reachable(after) && Follows(s, after)
  {
    var victim := VictimAmong(s.findings, |s.findings|);
    var kept := KeptFindings(s, most);
    if |s.findings| >= most {
      WithoutRises(s.findings, victim.value);
    }
    NewIdentity(s.findings, kept, f);
    InsertedRises(kept, f);
    NewcomerKeeps(s, kept, f);
    forall i | 0 <= i < |s.findings|
      ensures FateKept(s.findings[i], Inserted(kept, f))
    {
      RegisteredFate(s.findings, kept, f, i);
    }
  }

  lemma NewcomerKeeps(s: RuntimeState, kept: seq<Finding>, f: Finding)
    requires Reachable(s) && f.fence == s.fence && f.state == FindingState.Confirmed
    requires IdsRise(kept) && PositionOf(kept, f.id).None? && forall g :: g in kept ==> g in s.findings
    ensures Reachable(s.(findings := Inserted(kept, f)))
  {
    InsertedRises(kept, f);
    var after := s.(findings := Inserted(kept, f));
    forall i | 0 <= i < |after.findings|
      ensures after.findings[i].state.IsTerminal() || after.findings[i].fence == s.fence
      ensures after.findings[i].state == ContainmentVerified ==> IsContained(after, after.findings[i])
    {
      assert after.findings[i] in after.findings;
      if after.findings[i] != f {
        assert after.findings[i] in s.findings;
        var k :| 0 <= k < |s.findings| && s.findings[k] == after.findings[i];
        assert s.findings[k].state == ContainmentVerified ==> IsContained(s, s.findings[k]);
      }
    }
  }

  lemma NewIdentity(fs: seq<Finding>, kept: seq<Finding>, f: Finding)
    requires PositionOf(fs, f.id).None? && forall g :: g in kept ==> g in fs
    ensures PositionOf(kept, f.id).None?
  {
    forall i | 0 <= i < |kept|
      ensures kept[i].id != f.id
    {
      assert kept[i] in fs;
    }
  }

  /** Only what is over is evicted, and what is over is not revived by a newcomer. */
  lemma RegisteredFate(fs: seq<Finding>, kept: seq<Finding>, f: Finding, i: nat)
    requires IdsRise(fs) && i < |fs| && IdsRise(kept) && PositionOf(kept, f.id).None? && PositionOf(fs, f.id).None?
    requires forall g :: g in kept ==> g in fs
    requires !fs[i].state.IsTerminal() ==> fs[i] in kept
    ensures FateKept(fs[i], Inserted(kept, f))
  {
    InsertedRises(kept, f);
    var after := Inserted(kept, f);
    if !fs[i].state.IsTerminal() {
      assert fs[i] in after;
    }
    forall j | 0 <= j < |after| && after[j].id == fs[i].id
      ensures after[j] == fs[i]
    {
      assert after[j] in after;
      assert after[j] != f;
      var k :| 0 <= k < |fs| && fs[k] == after[j];
      PositionIsUnique(fs, i);
      PositionIsUnique(fs, k);
    }
  }

  lemma PlanKeeps(s: RuntimeState, limits: RuntimeLimits, assessment: nat, planned: Option<RetainedPlan>, now: nat)
    requires Reachable(s)
    ensures var o := PlanKept(s, limits, assessment, planned, now); Reachable(o.state) && Follows(s, o.state)
  {
    NothingChanges(s);
    var o := PlanKept(s, limits, assessment, planned, now);
    var at := FindingFor(s.findings, assessment);
    if o.reply == Done && at.Some? {
      var f := s.findings[at.value];
      assert f.state == ContainmentVerified ==> IsContained(s, f);
      OneFindingChanges(s, o.state, at.value);
    }
  }

  lemma AuthorizationKeeps(s: RuntimeState, finding: nat, g: ContainmentGrant, now: nat, lease: nat, ids: seq<nat>)
    requires Reachable(s)
    ensures var o := Authorized(s, finding, g, now, lease, ids); Reachable(o.state) && Follows(s, o.state)
  {
    var o := Authorized(s, finding, g, now, lease, ids);
    if o.reply != Done {
      NothingChanges(s);
    } else {
      var at := PositionOf(s.findings, finding).value;
      var plan := s.plans[PlanAt(s.plans, s.findings[at].plan).value];
      var intent := IntentFor(s, finding, plan, Requested(plan.plan, ids), now, lease);
      IntentKeeps(s, at, intent, now);
    }
  }

  lemma IntentKeeps(s: RuntimeState, at: nat, intent: Intent, now: nat)
    requires Reachable(s) && at < |s.findings| && !s.findings[at].state.IsTerminal()
    requires intent.finding == s.findings[at].id && StrictlyIncreasing(intent.targets)
    ensures Reachable(WithIntent(s, at, intent, now)) && Follows(s, WithIntent(s, at, intent, now))
  {
    OneFindingChanges(s, WithIntent(s, at, intent, now), at);
  }

  lemma WithdrawalKeeps(s: RuntimeState, finding: nat, now: nat)
    requires Reachable(s)
    ensures var o := WithdrawnBy(s, finding, now); Reachable(o.state) && Follows(s, o.state)
  {
    var o := WithdrawnBy(s, finding, now);
    if o.reply != Done {
      NothingChanges(s);
    } else {
      OneFindingChanges(s, o.state, PositionOf(s.findings, finding).value);
    }
  }

  /** An application changed for the better, and its finding following it. */
  lemma FollowingKeeps(s: RuntimeState, intent: Intent, app: Application, state: FindingState, now: nat)
    requires Reachable(s) && intent in s.applications && KeepsToIntent(intent, app)
    requires s.applications[intent].fence == s.fence && !state.IsTerminal()
    requires IsVerified(s.applications[intent]) ==> IsVerified(app)
    requires state == ContainmentVerified ==> IsVerified(app)
    ensures var o := Followed(s.(applications := s.applications[intent := app]), app.finding, state, now);
            Reachable(o.state) && Follows(s, o.state)
  {
    var more := s.(applications := s.applications[intent := app]);
    var o := Followed(more, app.finding, state, now);
    assert KeepsToIntent(intent, s.applications[intent]);
    var at := PositionOf(s.findings, app.finding);
    if o.reply == Done {
      assert s.findings[at.value].state.IsTerminal() || s.findings[at.value].fence == s.fence;
      assert intent in o.state.applications && o.state.applications[intent] == app;
      OneFindingChanges(s, o.state, at.value);
    } else {
      NothingChanges(s);
      ApplicationsOnly(s, intent, app);
    }
  }

  lemma ApplicationsOnly(s: RuntimeState, intent: Intent, app: Application)
    requires Reachable(s) && intent in s.applications && KeepsToIntent(intent, app)
    requires IsVerified(s.applications[intent]) ==> IsVerified(app)
    ensures Reachable(s.(applications := s.applications[intent := app]))
  {
    var more := s.(applications := s.applications[intent := app]);
    forall i | 0 <= i < |s.findings| && s.findings[i].state == ContainmentVerified
      ensures IsContained(more, s.findings[i])
    {
      var k :| k in s.applications && k.finding == s.findings[i].id && k.fence == s.findings[i].fence
        && IsVerified(s.applications[k]);
      assert k in more.applications;
    }
  }

  lemma AcknowledgementKeeps(s: RuntimeState, intent: Intent, now: nat)
    requires Reachable(s)
    ensures var o := Acknowledged(s, intent, now); Reachable(o.state) && Follows(s, o.state)
  {
    if intent !in s.applications || s.applications[intent].fence != s.fence
       || (now > 0 && s.applications[intent].acknowledgements >= MAX_ACKNOWLEDGEMENTS) {
      NothingChanges(s);
    } else {
      assert KeepsToIntent(intent, s.applications[intent]);
      NewAcknowledgementKeeps(s, intent, now);
    }
  }

  lemma NewAcknowledgementKeeps(s: RuntimeState, intent: Intent, now: nat)
    requires Reachable(s) && intent in s.applications && s.applications[intent].fence == s.fence
    requires now == 0 || s.applications[intent].acknowledgements < MAX_ACKNOWLEDGEMENTS
    requires KeepsToIntent(intent, s.applications[intent])
    ensures var o := Acknowledged(s, intent, now); Reachable(o.state) && Follows(s, o.state)
  {
    var app := s.applications[intent];
    var more := app.(acknowledgements := app.acknowledgements + 1);
    AcknowledgementIsNoEffect(app, app.acknowledgements + 1);
    AcknowledgedIs(s, intent, now);
    FollowingKeeps(s, intent, more, ContainmentAppliedUnverified, now);
  }

  /** Acknowledgements neither make nor unmake verified containment. */
  lemma AcknowledgementIsNoEffect(app: Application, n: nat)
    ensures IsVerified(app.(acknowledgements := n)) <==> IsVerified(app)
  {
    var more := app.(acknowledgements := n);
    forall t
      ensures HasEffect(more, t) <==> HasEffect(app, t)
    {
    }
  }

  lemma AcknowledgedIs(s: RuntimeState, intent: Intent, now: nat)
    requires intent in s.applications && s.applications[intent].fence == s.fence
    requires now == 0 || s.applications[intent].acknowledgements < MAX_ACKNOWLEDGEMENTS
    ensures var app := s.applications[intent].(acknowledgements := s.applications[intent].acknowledgements + 1);
            Acknowledged(s, intent, now)
            == Followed(s.(applications := s.applications[intent := app]), app.finding, ContainmentAppliedUnverified,
                        now)
  {
  }

  lemma EffectKeeps(s: RuntimeState, intent: Intent, e: VerifiedEffect, now: nat)
    requires Reachable(s)
    ensures var o := EffectRecorded(s, intent, e, now); Reachable(o.state) && Follows(s, o.state)
  {
    var o := EffectRecorded(s, intent, e, now);
    if intent !in s.applications || s.applications[intent].fence != s.fence
       || !BinarySearch(s.applications[intent].targets, e.target)
       || e.fence != s.fence || HasEffect(s.applications[intent], e.target) {
      NothingChanges(s);
    } else {
      var app := s.applications[intent];
      assert KeepsToIntent(intent, app);
      var more := app.(effects := EffectInserted(app.effects, e));
      FoundIsThere(app.targets, e.target);
      MoreEffects(app, e);
      FollowingKeeps(s, intent, more, if IsVerified(more) then ContainmentVerified
                     else ContainmentAppliedUnverified, now);
    }
  }

  lemma MoreEffects(app: Application, e: VerifiedEffect)
    ensures var more := app.(effects := EffectInserted(app.effects, e)); IsVerified(app) ==> IsVerified(more)
  {
    var more := app.(effects := EffectInserted(app.effects, e));
    forall k | 0 <= k < |app.targets| && HasEffect(app, app.targets[k])
      ensures HasEffect(more, more.targets[k])
    {
      var i :| 0 <= i < |app.effects| && app.effects[i].target == app.targets[k];
      assert app.effects[i] in more.effects;
    }
  }

  // ----- Starting from durable state -----

  ghost predicate AllAreOver(fs: seq<Finding>) {
    forall i {:trigger fs[i]} :: 0 <= i < |fs| ==> fs[i].state == FindingState.Fenced
  }

  lemma {:induction false} RestoredAreOver(most: nat, fs: seq<StoreState.StoredFinding>)
    ensures IdsRise(RestoredFindings(most, fs)) && AllAreOver(RestoredFindings(most, fs))
    decreases |fs|
  {
    if fs != [] {
      RestoredAreOver(most, fs[..|fs| - 1]);
      var before, f := RestoredFindings(most, fs[..|fs| - 1]), AsHistory(fs[|fs| - 1]);
      if RegistrationOf(most, before, f).Registered? {
        var victim := VictimAmong(before, |before|);
        var kept := if |before| < most then before else Without(before, victim.value);
        if |before| >= most {
          WithoutRises(before, victim.value);
        }
        NewIdentity(before, kept, f);
        InsertedRises(kept, f);
        var after := Inserted(kept, f);
        forall i | 0 <= i < |after|
          ensures after[i].state == FindingState.Fenced
        {
          assert after[i] in after;
        }
      }
    }
  }

  /** What the durable fence says of the policy is not ahead of the policy that is durable. */
  predicate PolicyIsBacked(disk: StoreState.StoreState) {
    disk.committedFence.policy <= (if disk.policy.Some? && disk.policy.value.generation != 0 then
                                   disk.policy.value.generation else 1)
  }

  /** A restart revives nothing: every finding restored is fenced. The restored state is one that runs keep to exactly
      when the durable fence is not ahead of the durable policy. */
  lemma RestartFencesAll(limits: RuntimeLimits, disk: StoreState.StoreState, boot: nat, epoch: nat, now: nat)
    ensures AllAreOver(Restored(limits, disk, boot, epoch, now).findings)
    ensures Reachable(Restored(limits, disk, boot, epoch, now)) <==> PolicyIsBacked(disk)
  {
    RestoredAreOver(limits.maxFindings, disk.findings);
    var s := Restored(limits, disk, boot, epoch, now);
    forall i | 0 <= i < |s.findings|
      ensures s.findings[i].state == FindingState.Fenced
    {
      assert s.findings[i] == WithBootChecked(RestoredFindings(limits.maxFindings, disk.findings)[i], s.fence, now);
    }
  }

  // ----- Runs -----

  datatype Action =
    | AdvanceForwarding(generation: nat)
    | AdvanceFabricEpoch(epoch: nat)
    | AdvanceEpoch
    | SetTopology(generation: nat)
    | SetPolicy(generation: nat)
    | Publish(assessment: Assessment, id: nat)
    | Plan(of: nat, planned: Option<RetainedPlan>)
    | Authorize(finding: nat, grant: ContainmentGrant, lease: nat, ids: seq<nat>)
    | Acknowledge(intent: Intent)
    | RecordEffect(intent: Intent, effect: VerifiedEffect)
    | Withdraw(finding: nat)

  function Act(limits: RuntimeLimits, s: RuntimeState, action: Action, now: nat): Outcome {
    match action
    case AdvanceForwarding(generation) => ForwardingAdvanced(s, generation, now)
    case AdvanceFabricEpoch(epoch) => FabricEpochAdvancedTo(s, epoch, now)
    case AdvanceEpoch => EpochAdvanced(s, now)
    case SetTopology(generation) => TopologySet(s, generation, now)
    case SetPolicy(generation) => PolicySet(s, generation, now)
    case Publish(assessment, id) => Published(s, limits, assessment, id, now)
    case Plan(of, planned) => PlanKept(s, limits, of, planned, now)
    case Authorize(finding, grant, lease, ids) => Authorized(s, finding, grant, now, lease, ids)
    case Acknowledge(intent) => Acknowledged(s, intent, now)
    case RecordEffect(intent, effect) => EffectRecorded(s, intent, effect, now)
    case Withdraw(finding) => WithdrawnBy(s, finding, now)
  }

  /** Every operation keeps the state reachable and follows from the state before it. */
  lemma ActionKeeps(limits: RuntimeLimits, s: RuntimeState, action: Action, now: nat)
    requires Reachable(s)
    ensures Reachable(Act(limits, s, action, now).state) && Follows(s, Act(limits, s, action, now).state)
  {
    match action
    case AdvanceForwarding(generation) =>
      MoveKeeps(s, s, s.fence.(forwarding := generation), now, ForwardingAdvanced(s, generation, now));
    case AdvanceFabricEpoch(epoch) =>
      MoveKeeps(s, s, s.fence.(fabricEpoch := epoch), now, FabricEpochAdvancedTo(s, epoch, now));
    case AdvanceEpoch => MoveKeeps(s, s, s.fence.(epoch := s.fence.epoch + 1), now, EpochAdvanced(s, now));
    case SetTopology(generation) =>
      MoveKeeps(s, s.(topology := generation), s.fence.(topology := generation), now, TopologySet(s, generation, now));
    case SetPolicy(generation) =>
      MoveKeeps(s, s.(policy := generation), s.fence.(policy := generation), now, PolicySet(s, generation, now));
    case Publish(assessment, id) => PublishKeeps(s, limits, assessment, id, now);
    case Plan(of, planned) => PlanKeeps(s, limits, of, planned, now);
    case Authorize(finding, grant, lease, ids) => AuthorizationKeeps(s, finding, grant, now, lease, ids);
    case Acknowledge(intent) => AcknowledgementKeeps(s, intent, now);
    case RecordEffect(intent, effect) => EffectKeeps(s, intent, effect, now);
    case Withdraw(finding) => WithdrawalKeeps(s, finding, now);
  }

  /** An operation that moved the fence, or refused to. */
  lemma MoveKeeps(s: RuntimeState, installed: RuntimeState, fence: FenceVector, now: nat, o: Outcome)
    requires Reachable(s) && installed == s.(topology := installed.topology, policy := installed.policy)
    requires o.state == s
             || (o.state == Moved(installed, fence, now) && FenceAtLeast(s.fence, fence)
                 && FenceFits(installed.(fence := fence)))
    ensures Reachable(o.state) && Follows(s, o.state)
  {
    if o.state == s {
      NothingChanges(s);
    } else {
      FenceMoves(installed, fence, now);
    }
  }

  ghost function ActAll(limits: RuntimeLimits, s: RuntimeState, actions: seq<(Action, nat)>): RuntimeState {
    if actions == [] then s else
      var last := actions[|actions| - 1];
      Act(limits, ActAll(limits, s, actions[..|actions| - 1]), last.0, last.1).state
  }

  /** Every state a run reaches is reachable, and no component of the fence ever decreases along it. */
  lemma {:induction false} EveryRunKeeps(limits: RuntimeLimits, s: RuntimeState, actions: seq<(Action, nat)>)
    requires Reachable(s)
    ensures Reachable(ActAll(limits, s, actions)) && FenceAtLeast(s.fence, ActAll(limits, s, actions).fence)
    decreases |actions|
  {
    if actions != [] {
      var front, last := actions[..|actions| - 1], actions[|actions| - 1];
      EveryRunKeeps(limits, s, front);
      ActionKeeps(limits, ActAll(limits, s, front), last.0, last.1);
    }
  }

  // ----- What reachable states tell -----

  ghost predicate HasEffectAt(app: Application, target: nat, fence: FenceVector) {
    exists e :: e in app.effects && e.target == target && e.fence == fence
  }

  /** Verified containment: some application of the finding, issued at the current fence, has an effect at that fence
      for every one of its targets, and it has a target. */
  lemma VerifiedMeansEffects(s: RuntimeState, i: nat) returns (intent: Intent)
    requires Reachable(s) && i < |s.findings| && s.findings[i].state == ContainmentVerified
    ensures s.findings[i].fence == s.fence && intent in s.applications
    ensures intent.finding == s.findings[i].id && intent.fence == s.fence && intent.targets != []
    ensures forall t :: t in intent.targets ==> HasEffectAt(s.applications[intent], t, s.fence)
  {
    assert IsContained(s, s.findings[i]);
    intent :| intent in s.applications && intent.finding == s.findings[i].id && intent.fence == s.findings[i].fence
              && IsVerified(s.applications[intent]);
    var app := s.applications[intent];
    assert KeepsToIntent(intent, app);
    forall t | t in intent.targets
      ensures HasEffectAt(app, t, s.fence)
    {
      var k :| 0 <= k < |app.targets| && app.targets[k] == t;
      assert HasEffect(app, app.targets[k]);
      var j :| 0 <= j < |app.effects| && app.effects[j].target == t;
      assert app.effects[j] in app.effects;
    }
  }

  ghost predicate IsPlanned(plan: ContainmentPlan, r: nat) {
    exists k :: 0 <= k < |plan.targets| && plan.targets[k].resource == r
  }

  lemma {:induction false} PricedIsPlanned(targets: seq<ContainmentTarget>, r: nat)
    ensures PlanCost(targets, r).Some? ==> exists k :: 0 <= k < |targets| && targets[k].resource == r
    decreases |targets|
  {
    if targets != [] && targets[0].resource != r && PlanCost(targets, r).Some? {
      PricedIsPlanned(targets[1..], r);
      var k :| 0 <= k < |targets[1..]| && targets[1..][k].resource == r;
      assert targets[k + 1].resource == r;
    }
  }

  lemma {:induction false} RequestIsPlanned(targets: seq<ContainmentTarget>, ids: seq<nat>, i: nat)
    requires RequestCost(targets, ids).Some? && i < |ids|
    ensures exists k :: 0 <= k < |targets| && targets[k].resource == ids[i]
    decreases |ids|
  {
    if i == |ids| - 1 {
      PricedIsPlanned(targets, ids[i]);
    } else {
      RequestIsPlanned(targets, ids[..|ids| - 1], i);
    }
  }

  /** An intent is issued only for a live finding at the current fence, under an optimal plan within its budget at that
      fence, for targets of that plan that the grant permits at their cost. */
  lemma AuthorizedWithinBounds(s: RuntimeState, finding: nat, g: ContainmentGrant, now: nat, lease: nat, ids: seq<nat>)
    returns (i: nat, j: nat, cost: nat)
    requires Authorized(s, finding, g, now, lease, ids).reply == Done
    ensures i < |s.findings| && s.findings[i].id == finding && s.findings[i].fence == s.fence
            && !s.findings[i].state.IsTerminal()
    ensures j < |s.plans| && s.plans[j].id == s.findings[i].plan && s.plans[j].plan.fence == s.fence
    ensures s.plans[j].plan.AuthorizesAction()
    ensures var targets := Requested(s.plans[j].plan, ids);
            && Permits(g, targets, cost, s.fence, now) && RequestCost(s.plans[j].plan.targets, targets) == Some(cost)
            && forall t :: t in targets ==> IsPlanned(s.plans[j].plan, t)
  {
    i := PositionOf(s.findings, finding).value;
    j := PlanAt(s.plans, s.findings[i].plan).value;
    var plan := s.plans[j].plan;
    var targets := Requested(plan, ids);
    cost := RequestCost(plan.targets, targets).value;
    AuthorizesWhatIsPermitted(g, targets, cost, s.fence, now);
    forall t | t in targets
      ensures IsPlanned(plan, t)
    {
      var k :| 0 <= k < |targets| && targets[k] == t;
      RequestIsPlanned(plan.targets, targets, k);
    }
  }
}
