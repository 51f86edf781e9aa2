/** The runtime as it works on its fields. One lock guards them all, so every method is one step. */
module Runtime {
  import opened Lists
  import opened Topology
  import opened Order
  import opened Evidence
  import opened Findings
  import opened Authority
  import opened Planner
  import opened StoreState
  import opened Lifecycle
  import opened RuntimeRuns
  import opened Transitions
  import opened Issuance
  import opened Ledger
  import opened Witness
  import Canonical
  import Containment
  import Detector
  import Existence
  import HittingSetSolver
  import TopologyCodec
  import WitnessSearch

  // ----- Loops over findings and plans -----

  lemma {:induction false} FindingForIsFirst(fs: seq<Finding>, assessment: nat, k: nat)
    requires k <= |fs|
    requires forall i :: 0 <= i < k ==> fs[i].assessment != assessment || fs[i].state.IsTerminal()
    ensures k < |fs| && fs[k].assessment == assessment && !fs[k].state.IsTerminal() ==>
            FindingFor(fs, assessment) == Some(k)
    ensures k == |fs| ==> FindingFor(fs, assessment) == None
    decreases |fs|
  {
    if k > 0 {
      FindingForIsFirst(fs[1..], assessment, k - 1);
    }
  }

  /** Attaches the plan to the first live finding of the assessment. */
  method AttachPlan(fs: seq<Finding>, assessment: nat, plan: nat, now: nat) returns (r: seq<Finding>)
    ensures r == WithPlan(fs, assessment, plan, now)
  {
    for k := 0 to |fs|
      invariant forall i :: 0 <= i < k ==> fs[i].assessment != assessment || fs[i].state.IsTerminal()
    {
      if fs[k].assessment == assessment && !fs[k].state.IsTerminal() {
        FindingForIsFirst(fs, assessment, k);
        return fs[k := fs[k].(plan := plan, updatedAt := now)];
      }
    }
    FindingForIsFirst(fs, assessment, |fs|);
    return fs;
  }

  lemma {:induction false} PlanCostIsFirst(targets: seq<ContainmentTarget>, r: nat, k: nat)
    requires k <= |targets| && forall i :: 0 <= i < k ==> targets[i].resource != r
    ensures k < |targets| && targets[k].resource == r ==> PlanCost(targets, r) == Some(targets[k].cost)
    ensures k == |targets| ==> PlanCost(targets, r) == None
    decreases |targets|
  {
    if k > 0 {
      PlanCostIsFirst(targets[1..], r, k - 1);
    }
  }

  method CostOfTarget(targets: seq<ContainmentTarget>, r: nat) returns (cost: Option<nat>)
    ensures cost == PlanCost(targets, r)
  {
    for k := 0 to |targets|
      invariant forall i :: 0 <= i < k ==> targets[i].resource != r
    {
      if targets[k].resource == r {
        PlanCostIsFirst(targets, r, k);
        return Some(targets[k].cost);
      }
    }
    PlanCostIsFirst(targets, r, |targets|);
    return None;
  }

  lemma {:induction false} NoCostStays(targets: seq<ContainmentTarget>, ids: seq<nat>, n: nat)
    requires n <= |ids| && RequestCost(targets, ids[..n]) == None
    ensures RequestCost(targets, ids) == None
    decreases |ids|
  {
    if n < |ids| {
      assert ids[..|ids| - 1][..n] == ids[..n];
      NoCostStays(targets, ids[..|ids| - 1], n);
    } else {
      assert ids[..n] == ids;
    }
  }

  /** What the requested targets cost together; nothing when one is not the plan's. */
  method CostOfRequest(targets: seq<ContainmentTarget>, ids: seq<nat>) returns (cost: Option<nat>)
    ensures cost == RequestCost(targets, ids)
  {
    var total := 0;
    for k := 0 to |ids|
      invariant RequestCost(targets, ids[..k]) == Some(total)
    {
      assert ids[..k + 1][..k] == ids[..k];
      var one := CostOfTarget(targets, ids[k]);
      if one.None? {
        NoCostStays(targets, ids, k + 1);
        return None;
      }
      total := total + one.value;
    }
    assert ids[..|ids|] == ids;
    return Some(total);
  }

  method CollectSelectors(targets: seq<ContainmentTarget>, ids: seq<nat>) returns (selectors: seq<nat>)
    ensures selectors == SelectorsFor(targets, ids)
  {
    selectors := [];
    for k := 0 to |targets|
      invariant selectors == SelectorsFor(targets[..k], ids)
    {
      assert targets[..k + 1][..k] == targets[..k];
      if BinarySearch(ids, targets[k].resource) {
        selectors := InsertAll(selectors, targets[k].selectors);
      }
    }
    assert targets[..|targets|] == targets;
  }

  /** Everything that stands before an intent: the finding, its plan, the request, its cost, and the grant. */
  method DecideIntent(fence: FenceVector, findings: seq<Finding>, plans: seq<RetainedPlan>, finding: nat,
                      g: ContainmentGrant, now: nat, lease: nat, ids: seq<nat>, ghost s: RuntimeState)
    returns (r: Reply, at: nat, intent: Intent)
    requires s.fence == fence && s.findings == findings && s.plans == plans && IdsRise(findings)
    ensures r != Done ==> Authorized(s, finding, g, now, lease, ids) == Outcome(r, s)
    ensures r == Done ==>
              at < |findings|
                && Authorized(s, finding, g, now, lease, ids) == Outcome(Done, WithIntent(s, at, intent, now))
  {
    at, intent := 0, Intent(0, finding, fence, [], [], now, now + lease);
    var position := FindPosition(findings, finding);
    if position.None? {
      return IsNotFound, at, intent;
    }
    at := position.value;
    if findings[at].state.IsTerminal() || findings[at].fence != fence {
      return IsFenced, at, intent;
    }
    var planAt := PlanAt(plans, findings[at].plan);
    if planAt.None? {
      return IsNotFound, at, intent;
    }
    var plan := plans[planAt.value];
    if !plan.plan.AuthorizesAction() {
      return IsRefused, at, intent;
    }
    if plan.plan.fence != fence {
      return IsFenced, at, intent;
    }
    var targets := Requested(plan.plan, ids);
    if !StrictlyIncreasing(targets) {
      return IsInvalid, at, intent;
    }
    var cost := CostOfRequest(plan.plan.targets, targets);
    if cost.None? {
      return IsRefused, at, intent;
    }
    var answer := AuthorizeTargets(g, targets, cost.value, fence, now);
    if answer != Granted {
      return IsRefused, at, intent;
    }
    var selectors := CollectSelectors(plan.plan.targets, targets);
    return Done, at, Intent(plan.id, finding, fence, targets, selectors, now, now + lease);
  }

  method UpdateFinding(fs: seq<Finding>, id: nat, state: FindingState, cause: FenceCause, now: nat) returns (r: Update)
    requires IdsRise(fs)
    ensures r == StateUpdate(fs, id, state, cause, now)
  {
    var at := FindPosition(fs, id);
    if at.None? {
      return NoSuchFinding;
    }
    var f := fs[at.value];
    if f.state.IsTerminal() && state != Withdrawn {
      return IsOver;
    }
    f := f.(state := state, updatedAt := now);
    if cause != NoCause {
      f := f.(cause := cause);
    }
    return Updated(fs[at.value := f]);
  }

  method RestoreFindings(most: nat, fs: seq<StoredFinding>) returns (r: seq<Finding>)
    ensures r == RestoredFindings(most, fs)
  {
    r := [];
    for k := 0 to |fs|
      invariant r == RestoredFindings(most, fs[..k])
    {
      assert fs[..k + 1][..k] == fs[..k];
      RestoredAreOver(most, fs[..k]);
      var registered := Register(most, r, AsHistory(fs[k]));
      if registered.Registered? {
        r := registered.findings;
      }
    }
    assert fs[..|fs|] == fs;
  }

  method FenceBoot(fs: seq<Finding>, fence: FenceVector, now: nat) returns (r: seq<Finding>)
    ensures r == BootFenced(fs, fence, now)
  {
    r := fs;
    for i := 0 to |fs|
      invariant |r| == |fs|
      invariant forall k {:trigger r[k]} :: 0 <= k < i ==> r[k] == WithBootChecked(fs[k], fence, now)
      invariant forall k {:trigger r[k]} :: i <= k < |fs| ==> r[k] == fs[k]
    {
      if r[i].fence.boot != fence.boot || r[i].fence.epoch != fence.epoch {
        r := r[i := r[i].(state := FindingState.Fenced, cause := BootAdvanced, updatedAt := now)];
      }
    }
  }

  function ReplyTo(u: Update): Reply {
    match u
    case Updated(_) => Done
    case NoSuchFinding => IsNotFound
    case IsOver => IsRefused
  }

  datatype Config = Config(
    runtime: RuntimeLimits, detection: WitnessSearch.Limits, planning: PlanLimits, building: Canonical.BuildLimits,
    evidence: LedgerLimits)

  function TopologyGeneration(t: Option<TopologyDefinition>): nat {
    if t.Some? then t.value.generation else 0
  }

  function PolicyGeneration(p: Option<ContainmentPolicy>): nat {
    if p.Some? then p.value.generation else 0
  }

  /** What publishing reads of an assessment. */
  function Read(id: nat, a: Detector.LoopAssessment, bound: FenceVector, stillValid: bool): Assessment {
    Assessment(id, a.outcome == Existence.LoopConfirmed, bound, |a.witnesses|, stillValid)
  }

  /** The validator's verdict on every witness, one by one until one fails. */
  method Revalidate(ws: seq<LoopWitness>, t: TopologyDefinition, ledger: EvidenceLedger, fence: FenceVector, now: nat,
                    maxHops: nat)
    returns (all: bool)
    ensures all <==> Detector.AllLoops(Asked(t, ledger.observations, ledger.byEdge, fence, now), ws, maxHops)
  {
    ghost var q := Asked(t, ledger.observations, ledger.byEdge, fence, now);
    for k := 0 to |ws|
      invariant forall i :: 0 <= i < k ==> IsLoop(q, ws[i], maxHops)
    {
      var v := Validate(ws[k], t, ledger, fence, now, maxHops);
      if v != Accepted {
        assert ws[k] in ws;
        return false;
      }
    }
    return true;
  }

  class Runtime {
    const config: Config
    const ledger: EvidenceLedger
    var fence: FenceVector
    var topology: Option<TopologyDefinition>
    var policy: Option<ContainmentPolicy>
    var findings: seq<Finding>
    var plans: seq<RetainedPlan>
    var applications: map<Intent, Application>

    ghost function State(): RuntimeState
      reads this
    {
      RuntimeState(fence, TopologyGeneration(topology), PolicyGeneration(policy), findings, plans, applications)
    }

    /** The state is one that runs keep to, what is installed was let through, and the ledger has room for a
        statement. */
    ghost predicate Valid()
      reads this
    {
      && Reachable(State()) && PlansRise(plans) && ledger.Valid()
      && (topology.Some? ==> Canonical.IsBuilt(topology.value)) && (policy.Some? ==> policy.value.generation != 0)
    }

    /** A runtime without durable state begins at boot and epoch one, with nothing installed. */
    constructor (config: Config)
      requires config.evidence.maxObservationsPerEdge > 0
      ensures Valid() && this.config == config && fresh(ledger) && ledger.State() == EMPTY
      ensures State() == RuntimeState(FenceVector(1, 1, 1, 1, 1, 1), 0, 0, [], [], map[])
    {
      this.config := config;
      ledger := new EvidenceLedger(config.evidence);
      fence := FenceVector(1, 1, 1, 1, 1, 1);
      topology, policy, findings, plans, applications := None, None, [], [], map[];
    }

    /** A runtime over durable state, under the boot that its open minted. */
    constructor Reopen(config: Config, disk: StoreState, boot: nat, epoch: nat, now: nat)
      requires config.evidence.maxObservationsPerEdge > 0
      ensures State() == Restored(config.runtime, disk, boot, epoch, now) && AllAreOver(findings)
      ensures this.config == config && fresh(ledger) && ledger.State() == EMPTY
      ensures Valid() <==>
              && PolicyIsBacked(disk) && (disk.policy.Some? ==> disk.policy.value.generation != 0)
              && (disk.topology.Some? ==> Canonical.IsBuilt(TopologyCodec.DefinitionOf(disk.topology.value)))
    {
      RestartFencesAll(config.runtime, disk, boot, epoch, now);
      var restored := RestoreFindings(config.runtime.maxFindings, disk.findings);
      var f := disk.committedFence;
      var installed := if disk.topology.Some? then Some(TopologyCodec.DefinitionOf(disk.topology.value)) else None;
      var allowed := if disk.policy.Some? then disk.policy.value.generation else 0;
      var to := FenceVector(if installed.Some? then installed.value.generation else 1, AtLeastOne(f.forwarding, 1),
                            AtLeastOne(f.policy, if disk.policy.Some? then allowed else 1),
                              AtLeastOne(f.fabricEpoch, 1), epoch, boot);
      var fenced := FenceBoot(restored, to, now);
      this.config := config;
      ledger := new EvidenceLedger(config.evidence);
      fence, topology, policy, findings, plans, applications := to, installed, disk.policy, fenced, [], map[];
    }

    /** What every fence advance ends with. */
    method MoveFence(to: FenceVector, now: nat)
      modifies this`fence, this`findings
      ensures State() == Moved(old(State()), to, now) && MovesFence(old(State()), State(), to, now)
    {
      MoveDecides(State(), to, now);
      fence := to;
      var fenced;
      findings, fenced := FenceStale(findings, to, now);
    }

    method AdvanceForwarding(generation: nat, now: nat) returns (r: Reply)
      requires Valid()
      modifies this
      ensures Outcome(r, State()) == ForwardingAdvanced(old(State()), generation, now)
      ensures r == Done <==> generation > old(fence.forwarding)
      ensures r == Done ==> MovesFence(old(State()), State(), old(fence).(forwarding := generation), now)
      ensures Valid() && Follows(old(State()), State()) && topology == old(topology) && policy == old(policy)
    {
      ActionKeeps(config.runtime, State(), Action.AdvanceForwarding(generation), now);
      if generation == 0 || generation <= fence.forwarding {
        return IsStale;
      }
      MoveFence(fence.(forwarding := generation), now);
      return Done;
    }

    method AdvanceFabricEpoch(epoch: nat, now: nat) returns (r: Reply)
      requires Valid()
      modifies this
      ensures Outcome(r, State()) == FabricEpochAdvancedTo(old(State()), epoch, now)
      ensures r == Done <==> epoch > old(fence.fabricEpoch)
      ensures r == Done ==> MovesFence(old(State()), State(), old(fence).(fabricEpoch := epoch), now)
      ensures Valid() && Follows(old(State()), State()) && topology == old(topology) && policy == old(policy)
    {
      ActionKeeps(config.runtime, State(), Action.AdvanceFabricEpoch(epoch), now);
      if epoch == 0 || epoch <= fence.fabricEpoch {
        return IsStale;
      }
      MoveFence(fence.(fabricEpoch := epoch), now);
      return Done;
    }

    method AdvanceEpoch(now: nat) returns (r: Reply)
      requires Valid()
      modifies this
      ensures Outcome(r, State()) == EpochAdvanced(old(State()), now)
      ensures r == Done <==> old(fence.epoch) != 0xFFFF_FFFF_FFFF_FFFF
      ensures r == Done ==> MovesFence(old(State()), State(), old(fence).(epoch := old(fence.epoch) + 1), now)
      ensures Valid() && Follows(old(State()), State()) && topology == old(topology) && policy == old(policy)
    {
      ActionKeeps(config.runtime, State(), Action.AdvanceEpoch, now);
      if fence.epoch == Lifecycle.ID_MAX {
        return IsExhausted;
      }
      MoveFence(fence.(epoch := fence.epoch + 1), now);
      return Done;
    }

    /** Installs what the canonical path makes of a definition, if it lets it through and it is newer. */
    method SetTopology(d: TopologyDefinition, now: nat) returns (r: Reply)
      requires Valid()
      modifies this
      ensures var built := Canonical.WithinLimits(d, config.building) && Canonical.IsBuilt(Canonical.Sorted(d));
              && (!built ==> r == IsInvalid && State() == old(State()) && topology == old(topology))
              && (built ==> Outcome(r, State()) == TopologySet(old(State()), d.generation, now))
              && (r == Done <==> built && (old(topology).None? || d.generation > old(topology).value.generation))
      ensures r == Done ==> MovesFence(old(State()), State(), old(fence).(topology := d.generation), now)
      ensures topology == if r == Done then Some(Canonical.Sorted(d)) else old(topology)
      ensures Valid() && Follows(old(State()), State()) && policy == old(policy)
    {
      NothingChanges(State());
      ActionKeeps(config.runtime, State(), Action.SetTopology(d.generation), now);
      var built := Canonical.Canonicalize(d, config.building);
      if !built.Built? {
        return IsInvalid;
      }
      if topology.Some? && built.t.generation <= topology.value.generation {
        return IsStale;
      }
      topology := Some(built.t);
      MoveFence(fence.(topology := built.t.generation), now);
      return Done;
    }

    method SetPolicy(p: ContainmentPolicy, now: nat) returns (r: Reply)
      requires Valid()
      modifies this
      ensures Outcome(r, State()) == PolicySet(old(State()), p.generation, now)
      ensures r == Done <==> p.generation != 0 && (old(policy).None? || p.generation > old(policy).value.generation)
      ensures r == Done ==> MovesFence(old(State()), State(), old(fence).(policy := p.generation), now)
      ensures policy == if r == Done then Some(p) else old(policy)
      ensures Valid() && Follows(old(State()), State()) && topology == old(topology)
    {
      ActionKeeps(config.runtime, State(), Action.SetPolicy(p.generation), now);
      if p.generation == 0 {
        return IsInvalid;
      }
      if policy.Some? && p.generation <= policy.value.generation {
        return IsStale;
      }
      policy := Some(p);
      MoveFence(fence.(policy := p.generation), now);
      return Done;
    }

    method SubmitObservation(o: ForwardingObservation) returns (status: Status)
      requires Valid()
      modifies ledger
      ensures Valid() && status == old(Answer(ledger.limits, ledger.State(), o))
      ensures ledger.State() == Submitted(ledger.limits, old(ledger.State()), o)
    {
      status := ledger.Submit(o);
    }

    method ClearEvidence()
      requires Valid()
      modifies ledger
      ensures Valid() && ledger.State() == Cleared(old(ledger.State()))
    {
      ledger.ClearDynamicState();
    }

    /** Asks the detector about what is installed, at the current fence; there is nothing to ask before that. */
    method Detect(now: nat, scope: seq<nat>) returns (a: Option<Detector.LoopAssessment>)
      requires Valid()
      ensures a.Some? <==> topology.Some?
      ensures a.Some? && Detector.IsProper(topology.value, fence, scope, config.detection) ==>
                Detector.IsAnswer(Asked(topology.value, ledger.observations, ledger.byEdge, fence, now), scope,
                                  config.detection, a.value)
    {
      if topology.None? {
        return None;
      }
      Canonical.BuiltIsCanonical(topology.value);
      var answer := Detector.Assess(topology.value, ledger, fence, now, scope, config.detection);
      return Some(answer);
    }

    /** Every witness is a loop, by what is installed and retained at the time. */
    ghost predicate StillLoops(a: Detector.LoopAssessment, now: nat)
      reads this, ledger
    {
      topology.Some? &&
        Detector.AllLoops(Asked(topology.value, ledger.observations, ledger.byEdge, fence, now), a.witnesses,
                          config.detection.maxWitnessHops)
    }

    /** Registers the finding that an assessment becomes. */
    method EnterFinding(of: nat, bound: FenceVector, id: nat, now: nat) returns (r: Reply)
      requires IdsRise(findings)
      modifies this`findings
      ensures Outcome(r, State()) == Entered(old(State()), config.runtime, of, bound, id, now)
    {
      var next := if findings == [] then 1 else findings[|findings| - 1].generation + 1;
      var f := Finding(id, next, of, bound, FindingState.Confirmed, NoCause, 0, None, now, now);
      var registered := Register(config.runtime.maxFindings, findings, f);
      match registered
      case Registered(fs) =>
        findings := fs;
        r := Done;
      case NotValid => r := IsInvalid;
      case AlreadyThere => r := IsKnown;
      case FullOfLive => r := IsExhausted;
    }

    /** Publishes a confirmed assessment of which every witness validates again. `id` is what the finding's digest makes
        of it. */
    method PublishFinding(of: nat, a: Detector.LoopAssessment, bound: FenceVector, id: nat, now: nat) returns (r: Reply)
      requires Valid()
      modifies this
      ensures Outcome(r, State())
              == Published(old(State()), config.runtime, Read(of, a, bound, old(StillLoops(a, now))), id, now)
      ensures Publishes(old(State()), r, State(), config.runtime.maxFindings,
                        Read(of, a, bound, old(StillLoops(a, now))), id, now)
      ensures Valid() && Follows(old(State()), State()) && topology == old(topology) && policy == old(policy)
    {
      PublishKeeps(State(), config.runtime, Read(of, a, bound, StillLoops(a, now)), id, now);
      PublishDecides(State(), config.runtime, Read(of, a, bound, StillLoops(a, now)), id, now);
      if a.outcome != Existence.LoopConfirmed {
        return IsRefused;
      }
      if bound != fence {
        return IsStale;
      }
      if a.witnesses == [] {
        return IsRefused;
      }
      if topology.None? || topology.value.generation != bound.topology {
        return IsStale;
      }
      var valid := Revalidate(a.witnesses, topology.value, ledger, fence, now, config.detection.maxWitnessHops);
      if !valid {
        return IsRefused;
      }
      r := EnterFinding(of, bound, id, now);
    }

    /** Retains a plan and attaches it to the finding it contains. */
    method RetainPlan(of: nat, p: RetainedPlan, now: nat)
      requires Valid() && topology.Some? && policy.Some? && topology.value.generation != 0
      modifies this`plans, this`findings
      ensures Outcome(Done, State()) == PlanKept(old(State()), config.runtime, of, Some(p), now)
    {
      if plans != [] && |plans| >= config.runtime.maxPlans {
        plans := plans[1..];
      }
      plans := PlanInserted(plans, p);
      findings := AttachPlan(findings, of, p.id, now);
    }

    /** Plans containment of an assessment and retains the plan under `id`, which is what its digest makes of it. */
    method PlanContainment(of: nat, a: Containment.Assessed, id: nat, now: nat)
      returns (r: Reply, planned: Option<RetainedPlan>)
      requires Valid() && HopsMatch(a.witnesses)
      modifies this
      ensures Outcome(r, State()) == PlanKept(old(State()), config.runtime, of, planned, now)
      ensures RetainsPlan(old(State()), r, State(), config.runtime.maxPlans, of, planned, now)
      ensures planned.Some? ==> topology.Some? && policy.Some? && planned.value.id == id
      ensures planned.Some? ==> IsPlanFor(planned.value.plan, a, topology.value, policy.value)
      ensures Valid() && Follows(old(State()), State()) && topology == old(topology) && policy == old(policy)
    {
      planned := None;
      NothingChanges(State());
      if topology.None? || policy.None? {
        return IsNotFound, None;
      }
      var p, inst, keys, sol := Containment.PlanContainment(a, topology.value, policy.value, config.planning);
      if !p.Plan? {
        return IsRefused, None;
      }
      ghost var s := State();
      planned := Some(RetainedPlan(id, p.plan));
      RetainPlan(of, planned.value, now);
      PlanKeeps(s, config.runtime, of, planned, now);
      PlanDecides(s, config.runtime, of, planned, now);
      return Done, planned;
    }

    /** Decides about an intent, and issues it. */
    method Issue(finding: nat, g: ContainmentGrant, now: nat, lease: nat, ids: seq<nat>) returns (r: Reply)
      requires Valid()
      modifies this
      ensures Outcome(r, State()) == Authorized(old(State()), finding, g, now, lease, ids)
      ensures topology == old(topology) && policy == old(policy)
    {
      var at, intent;
      r, at, intent := DecideIntent(fence, findings, plans, finding, g, now, lease, ids, State());
      if r == Done {
        findings :=
          findings[at := findings[at].(intent := Some(intent), state := ContainmentRequested, updatedAt := now)];
        applications := applications[intent := Application(intent.finding, intent.fence, intent.targets, 0, [])];
      }
    }

    method AuthorizeContainment(finding: nat, g: ContainmentGrant, now: nat, lease: nat, ids: seq<nat>)
      returns (r: Reply)
      requires Valid()
      modifies this
      ensures StrictlyIncreasing(g.scope) ==> Authorizing(old(State()), r, State(), finding, g, now, lease, ids)
      ensures Outcome(r, State()) == Authorized(old(State()), finding, g, now, lease, ids)
      ensures Valid() && Follows(old(State()), State()) && topology == old(topology) && policy == old(policy)
    {
      ghost var s := State();
      r := Issue(finding, g, now, lease, ids);
      AuthorizationKeeps(s, finding, g, now, lease, ids);
      if StrictlyIncreasing(g.scope) {
        IntentDecides(s, finding, g, now, lease, ids);
      }
    }

    /** Moves a finding to another state, if it is there and not over. */
    method Follow(finding: nat, state: FindingState, now: nat) returns (r: Reply)
      requires IdsRise(findings)
      modifies this`findings
      ensures Outcome(r, State()) == Followed(old(State()), finding, state, now)
    {
      var updated := UpdateFinding(findings, finding, state, NoCause, now);
      if updated.Updated? {
        findings := updated.findings;
      }
      return ReplyTo(updated);
    }

    /** Counts an acknowledgement of an intent that may still be acknowledged, and moves its finding. */
    method Acknowledge(intent: Intent, now: nat) returns (r: Reply)
      requires Valid()
      modifies this
      ensures Outcome(r, State()) == Acknowledged(old(State()), intent, now)
      ensures topology == old(topology) && policy == old(policy)
    {
      if intent !in applications {
        return IsNotFound;
      }
      var app := applications[intent];
      if app.fence != fence {
        return IsFenced;
      }
      if now > 0 && app.acknowledgements >= MAX_ACKNOWLEDGEMENTS {
        return IsExhausted;
      }
      applications := applications[intent := app.(acknowledgements := app.acknowledgements + 1)];
      r := Follow(app.finding, ContainmentAppliedUnverified, now);
    }

    method RecordAcknowledgement(intent: Intent, now: nat) returns (r: Reply)
      requires Valid()
      modifies this
      ensures RecordsAcknowledgement(old(State()), r, State(), intent, now)
      ensures Outcome(r, State()) == Acknowledged(old(State()), intent, now)
      ensures Valid() && Follows(old(State()), State()) && topology == old(topology) && policy == old(policy)
    {
      ghost var s := State();
      r := Acknowledge(intent, now);
      AcknowledgementKeeps(s, intent, now);
      AcknowledgementDecides(s, intent, now);
    }

    /** Takes an effect for a target of the intent that has none yet, and moves its finding: to verified with the last
        target. */
    method TakeEffect(intent: Intent, e: VerifiedEffect, now: nat) returns (r: Reply)
      requires Valid()
      modifies this
      ensures Outcome(r, State()) == EffectRecorded(old(State()), intent, e, now)
      ensures topology == old(topology) && policy == old(policy)
    {
      if intent !in applications {
        return IsNotFound;
      }
      var app := applications[intent];
      assert KeepsToIntent(intent, State().applications[intent]);
      if app.fence != fence {
        return IsFenced;
      }
      if !BinarySearch(app.targets, e.target) {
        return IsRefused;
      }
      if e.fence != fence {
        return IsStale;
      }
      for k := 0 to |app.effects|
        invariant forall i :: 0 <= i < k ==> app.effects[i].target != e.target
      {
        if app.effects[k].target == e.target {
          return IsKnown;
        }
      }
      app := app.(effects := EffectInserted(app.effects, e));
      applications := applications[intent := app];
      var complete := FullyVerified(app);
      r := Follow(app.finding, if complete then ContainmentVerified else ContainmentAppliedUnverified, now);
    }

    method RecordVerifiedEffect(intent: Intent, e: VerifiedEffect, now: nat) returns (r: Reply)
      requires Valid()
      modifies this
      ensures RecordsEffect(old(State()), r, State(), intent, e, now)
      ensures Outcome(r, State()) == EffectRecorded(old(State()), intent, e, now)
      ensures Valid() && Follows(old(State()), State()) && topology == old(topology) && policy == old(policy)
    {
      ghost var s := State();
      r := TakeEffect(intent, e, now);
      EffectKeeps(s, intent, e, now);
      EffectDecides(s, intent, e, now);
    }

    method WithdrawFinding(finding: nat, now: nat) returns (r: Reply)
      requires Valid()
      modifies this
      ensures Outcome(r, State()) == WithdrawnBy(old(State()), finding, now)
      ensures Withdraws(old(State()), r, State(), finding, now)
      ensures Valid() && Follows(old(State()), State()) && topology == old(topology) && policy == old(policy)
    {
      WithdrawalKeeps(State(), finding, now);
      WithdrawalDecides(State(), finding, now);
      var updated := UpdateFinding(findings, finding, Withdrawn, ExplicitWithdrawal, now);
      if updated.Updated? {
        findings := updated.findings;
      }
      return ReplyTo(updated);
    }
  }

  /** What the planner may answer for an assessment: nothing to do, nothing to go by, or the publication of a
      solution. */
  ghost predicate IsPlanFor(plan: ContainmentPlan, a: Containment.Assessed, t: TopologyDefinition,
                            p: ContainmentPolicy) {
    if !a.confirmed then plan.outcome == HittingSetSolver.NotRequired && plan.targets == []
    else if a.witnesses == [] then plan.outcome == HittingSetSolver.PlanInvalid && plan.targets == []
    else exists inst, keys, sol :: Containment.IsPublication(plan, a, t, p, inst, keys, sol)
  }
}
