/** The finding lifecycle under a moving fence: what each operation of the runtime makes of its state. */
module Lifecycle {
  import opened Lists
  import opened Topology
  import opened Order
  import opened Evidence
  import opened Findings
  import opened Authority
  import opened Planner
  import HittingSet
  import StoreState

  datatype RetainedPlan = RetainedPlan(id: nat, plan: ContainmentPlan)

  /** Generations of the installed definition and policy are zero while there is none. */
  datatype RuntimeState = RuntimeState(
    fence: FenceVector, topology: nat, policy: nat, findings: seq<Finding>, plans: seq<RetainedPlan>,
    applications: map<Intent, Application>)

  datatype RuntimeLimits = RuntimeLimits(maxFindings: nat, maxPlans: nat)

  datatype Reply = Done | IsInvalid | IsStale | IsRefused | IsFenced | IsNotFound | IsKnown | IsExhausted

  datatype Outcome = Outcome(reply: Reply, state: RuntimeState)

  const ID_MAX: nat := 0xFFFF_FFFF_FFFF_FFFF
  const MAX_ACKNOWLEDGEMENTS: nat := 4

  // ----- Starting from durable state -----

  /** A durable finding comes back as fenced history: the process that produced it no longer exists, and neither does
      its intent. */
  function AsHistory(f: StoreState.StoredFinding): Finding {
    Finding(f.id, f.generation, f.assessment, f.fence, FindingState.Fenced, BootAdvanced, f.plan, None, f.createdAt,
            f.updatedAt)
  }

  /** Findings that do not fit the registry are left behind. */
  function RestoredFindings(most: nat, fs: seq<StoreState.StoredFinding>): seq<Finding> {
    if fs == [] then [] else
      var before := RestoredFindings(most, fs[..|fs| - 1]);
      match RegistrationOf(most, before, AsHistory(fs[|fs| - 1]))
      case Registered(after) => after
      case _ => before
  }

  function WithBootChecked(f: Finding, fence: FenceVector, now: nat): Finding {
    if f.fence.boot == fence.boot && f.fence.epoch == fence.epoch then f
    else f.(state := FindingState.Fenced, cause := BootAdvanced, updatedAt := now)
  }

  function BootFenced(fs: seq<Finding>, fence: FenceVector, now: nat): (r: seq<Finding>)
    ensures |r| == |fs|
  {
    seq(|fs|, i requires 0 <= i < |fs| => WithBootChecked(fs[i], fence, now))
  }

  function AtLeastOne(x: nat, otherwise: nat): nat {
    if x != 0 then x else otherwise
  }

  /** The fence that was committed, under the new boot. The topology is the one that is durable; what was never set
      starts at one, and a policy that is durable but was never committed to at its generation. */
  function RestoredFence(disk: StoreState.StoreState, boot: nat, epoch: nat): FenceVector {
    var f := disk.committedFence;
    FenceVector(if disk.topology.Some? then disk.topology.value.generation else 1, AtLeastOne(f.forwarding, 1),
                AtLeastOne(f.policy, if disk.policy.Some? then disk.policy.value.generation else 1),
                  AtLeastOne(f.fabricEpoch, 1),
                epoch, boot)
  }

  /** Definitions and history are restored under the new boot; plans, intents and their applications are not. */
  function Restored(limits: RuntimeLimits, disk: StoreState.StoreState, boot: nat, epoch: nat, now: nat): RuntimeState {
    var topology := if disk.topology.Some? then disk.topology.value.generation else 0;
    var policy := if disk.policy.Some? then disk.policy.value.generation else 0;
    var fence := RestoredFence(disk, boot, epoch);
    RuntimeState(fence, topology, policy, BootFenced(RestoredFindings(limits.maxFindings, disk.findings), fence, now),
                 [], map[])
  }

  // ----- Moving the fence -----

  /** The fence moves, and every live finding bound to another fence becomes stale. */
  function Moved(s: RuntimeState, fence: FenceVector, now: nat): RuntimeState {
    s.(fence := fence, findings := StaleFenced(s.findings, fence, now))
  }

  function ForwardingAdvanced(s: RuntimeState, generation: nat, now: nat): Outcome {
    if generation == 0 || generation <= s.fence.forwarding then Outcome(IsStale, s)
    else Outcome(Done, Moved(s, s.fence.(forwarding := generation), now))
  }

  function FabricEpochAdvancedTo(s: RuntimeState, epoch: nat, now: nat): Outcome {
    if epoch == 0 || epoch <= s.fence.fabricEpoch then Outcome(IsStale, s)
    else Outcome(Done, Moved(s, s.fence.(fabricEpoch := epoch), now))
  }

  function EpochAdvanced(s: RuntimeState, now: nat): Outcome {
    if s.fence.epoch == ID_MAX then Outcome(IsExhausted, s)
    else Outcome(Done, Moved(s, s.fence.(epoch := s.fence.epoch + 1), now))
  }

  function TopologySet(s: RuntimeState, generation: nat, now: nat): Outcome {
    if generation == 0 then Outcome(IsInvalid, s)
    else if s.topology != 0 && generation <= s.topology then Outcome(IsStale, s)
    else Outcome(Done, Moved(s.(topology := generation), s.fence.(topology := generation), now))
  }

  function PolicySet(s: RuntimeState, generation: nat, now: nat): Outcome {
    if generation == 0 then Outcome(IsInvalid, s)
    else if s.policy != 0 && generation <= s.policy then Outcome(IsStale, s)
    else Outcome(Done, Moved(s.(policy := generation), s.fence.(policy := generation), now))
  }

  // ----- Publishing -----

  /** What publishing reads of an assessment, and whether every witness still validates. */
  datatype Assessment = Assessment(id: nat, confirmed: bool, fence: FenceVector, witnesses: nat, stillValid: bool)

  function NextGeneration(fs: seq<Finding>): nat {
    if fs == [] then 1 else fs[|fs| - 1].generation + 1
  }

  /** The finding of an assessment is registered. */
  function Entered(s: RuntimeState, limits: RuntimeLimits, of: nat, fence: FenceVector, id: nat, now: nat): Outcome {
    var f := Finding(id, NextGeneration(s.findings), of, fence, FindingState.Confirmed, NoCause, 0, None, now, now);
    match RegistrationOf(limits.maxFindings, s.findings, f)
    case Registered(fs) => Outcome(Done, s.(findings := fs))
    case NotValid => Outcome(IsInvalid, s)
    case AlreadyThere => Outcome(IsKnown, s)
    case FullOfLive => Outcome(IsExhausted, s)
  }

  function Published(s: RuntimeState, limits: RuntimeLimits, a: Assessment, id: nat, now: nat): Outcome {
    if !a.confirmed then Outcome(IsRefused, s)
    else if a.fence != s.fence then Outcome(IsStale, s)
    else if a.witnesses == 0 then Outcome(IsRefused, s)
    else if s.topology == 0 || s.topology != a.fence.topology then Outcome(IsStale, s)
    else if !a.stillValid then Outcome(IsRefused, s)
    else Entered(s, limits, a.id, a.fence, id, now)
  }

  // ----- Planning -----

  function PlanAt(plans: seq<RetainedPlan>, id: nat): (r: Option<nat>)
    ensures r.Some? ==> r.value < |plans| && plans[r.value].id == id
  {
    if plans == [] then None
    else if plans[|plans| - 1].id == id then Some(|plans| - 1)
    else PlanAt(plans[..|plans| - 1], id)
  }

  /** Plans are kept in the order of their identities; a plan of the same identity is replaced. */
  function PlanInserted(plans: seq<RetainedPlan>, p: RetainedPlan): seq<RetainedPlan> {
    if plans == [] then [p]
    else if plans[|plans| - 1].id < p.id then plans + [p]
    else if plans[|plans| - 1].id == p.id then plans[|plans| - 1 := p]
    else PlanInserted(plans[..|plans| - 1], p) + [plans[|plans| - 1]]
  }

  function PlanRetained(plans: seq<RetainedPlan>, most: nat, p: RetainedPlan): seq<RetainedPlan> {
    PlanInserted(if plans != [] && |plans| >= most then plans[1..] else plans, p)
  }

  /** The first live finding published for the assessment. */
  function FindingFor(fs: seq<Finding>, assessment: nat): (r: Option<nat>)
    ensures r.Some? ==> r.value < |fs| && !fs[r.value].state.IsTerminal() && fs[r.value].assessment == assessment
  {
    if fs == [] then None
    else if fs[0].assessment == assessment && !fs[0].state.IsTerminal() then Some(0)
    else
      var later := FindingFor(fs[1..], assessment);
      if later.None? then None else Some(later.value + 1)
  }

  function WithPlan(fs: seq<Finding>, assessment: nat, plan: nat, now: nat): seq<Finding> {
    var at := FindingFor(fs, assessment);
    if at.None? then fs else fs[at.value := fs[at.value].(plan := plan, updatedAt := now)]
  }

  /** `planned` is what the planner answered for the assessment. */
  function PlanKept(s: RuntimeState, limits: RuntimeLimits, assessment: nat, planned: Option<RetainedPlan>,
                    now: nat): Outcome {
    if s.topology == 0 || s.policy == 0 then Outcome(IsNotFound, s)
    else if planned.None? then Outcome(IsRefused, s)
    else
      Outcome(Done, s.(plans := PlanRetained(s.plans, limits.maxPlans, planned.value),
                       findings := WithPlan(s.findings, assessment, planned.value.id, now)))
  }

  // ----- Authorizing -----

  /** What the plan charges for a resource: its first target for it. */
  function PlanCost(targets: seq<ContainmentTarget>, r: nat): Option<nat> {
    if targets == [] then None
    else if targets[0].resource == r then Some(targets[0].cost)
    else PlanCost(targets[1..], r)
  }

  /** The total of the requested targets; nothing when one is not the plan's. */
  function RequestCost(targets: seq<ContainmentTarget>, ids: seq<nat>): Option<nat> {
    if ids == [] then Some(0) else
      var before, last := RequestCost(targets, ids[..|ids| - 1]), PlanCost(targets, ids[|ids| - 1]);
      if before.None? || last.None? then None else Some(before.value + last.value)
  }

  /** The selectors of the plan's targets among the requested ones. */
  function SelectorsFor(targets: seq<ContainmentTarget>, ids: seq<nat>): seq<nat> {
    if targets == [] then [] else
      var last := targets[|targets| - 1];
      var before := SelectorsFor(targets[..|targets| - 1], ids);
      if BinarySearch(ids, last.resource) then InsertAll(before, last.selectors) else before
  }

  function ResourcesOf(targets: seq<ContainmentTarget>): seq<nat> {
    if targets == [] then [] else ResourcesOf(targets[..|targets| - 1]) + [targets[|targets| - 1].resource]
  }

  /** Requested targets in order; without a request, all of the plan's. */
  function Requested(plan: ContainmentPlan, ids: seq<nat>): seq<nat> {
    HittingSet.SortIds(if ids == [] then ResourcesOf(plan.targets) else ids)
  }

  function IntentFor(s: RuntimeState, finding: nat, plan: RetainedPlan, ids: seq<nat>, now: nat, lease: nat): Intent {
    Intent(plan.id, finding, s.fence, ids, SelectorsFor(plan.plan.targets, ids), now, now + lease)
  }

  function Authorized(s: RuntimeState, finding: nat, g: ContainmentGrant, now: nat, lease: nat,
                      ids: seq<nat>): Outcome {
    var at := PositionOf(s.findings, finding);
    if at.None? then Outcome(IsNotFound, s)
    else if s.findings[at.value].state.IsTerminal() || s.findings[at.value].fence != s.fence then Outcome(IsFenced, s)
    else
      var planAt := PlanAt(s.plans, s.findings[at.value].plan);
      if planAt.None? then Outcome(IsNotFound, s)
      else
        var plan := s.plans[planAt.value];
        if !plan.plan.AuthorizesAction() then Outcome(IsRefused, s)
        else if plan.plan.fence != s.fence then Outcome(IsFenced, s)
        else
          var targets := Requested(plan.plan, ids);
          if !StrictlyIncreasing(targets) then Outcome(IsInvalid, s)
          else
            var cost := RequestCost(plan.plan.targets, targets);
            if cost.None? then Outcome(IsRefused, s)
            else if !Authorizes(g, targets, cost.value, s.fence, now) then Outcome(IsRefused, s)
            else Outcome(Done, WithIntent(s, at.value, IntentFor(s, finding, plan, targets, now, lease), now))
  }

  /** The intent is issued: its application begins with neither acknowledgement nor effect. */
  function WithIntent(s: RuntimeState, at: nat, intent: Intent, now: nat): RuntimeState
    requires at < |s.findings|
  {
    s.(findings :=
       s.findings[at := s.findings[at].(intent := Some(intent), state := ContainmentRequested, updatedAt := now)],
       applications := s.applications[intent := Application(intent.finding, intent.fence, intent.targets, 0, [])])
  }

  // ----- Acknowledgements and effects -----

  /** The finding follows the application, if it still can. */
  function Followed(s: RuntimeState, finding: nat, state: FindingState, now: nat): Outcome {
    match StateUpdate(s.findings, finding, state, NoCause, now)
    case Updated(fs) => Outcome(Done, s.(findings := fs))
    case NoSuchFinding => Outcome(IsNotFound, s)
    case IsOver => Outcome(IsRefused, s)
  }

  function Acknowledged(s: RuntimeState, intent: Intent, now: nat): Outcome {
    if intent !in s.applications then Outcome(IsNotFound, s)
    else
      var app := s.applications[intent];
      if app.fence != s.fence then Outcome(IsFenced, s)
      else if now > 0 && app.acknowledgements >= MAX_ACKNOWLEDGEMENTS then Outcome(IsExhausted, s)
      else
        Followed(s.(applications := s.applications[intent := app.(acknowledgements := app.acknowledgements + 1)]),
                 app.finding, ContainmentAppliedUnverified, now)
  }

  /** Effects are kept in the order of their targets. */
  function EffectInserted(effects: seq<VerifiedEffect>, e: VerifiedEffect): (r: seq<VerifiedEffect>)
    ensures forall x :: x in r <==> x in effects || x == e
  {
    if effects == [] then [e] else
      var last := effects[|effects| - 1];
      assert effects == effects[..|effects| - 1] + [last];
      if e.target < last.target then EffectInserted(effects[..|effects| - 1], e) + [last] else effects + [e]
  }

  function EffectRecorded(s: RuntimeState, intent: Intent, e: VerifiedEffect, now: nat): Outcome {
    if intent !in s.applications then Outcome(IsNotFound, s)
    else
      var app := s.applications[intent];
      if app.fence != s.fence then Outcome(IsFenced, s)
      else if !BinarySearch(app.targets, e.target) then Outcome(IsRefused, s)
      else if e.fence != s.fence then Outcome(IsStale, s)
      else if HasEffect(app, e.target) then Outcome(IsKnown, s)
      else
        var more := app.(effects := EffectInserted(app.effects, e));
        Followed(s.(applications := s.applications[intent := more]), app.finding,
                 if IsVerified(more) then ContainmentVerified else ContainmentAppliedUnverified, now)
  }

  function WithdrawnBy(s: RuntimeState, finding: nat, now: nat): Outcome {
    match StateUpdate(s.findings, finding, Withdrawn, ExplicitWithdrawal, now)
    case Updated(fs) => Outcome(Done, s.(findings := fs))
    case NoSuchFinding => Outcome(IsNotFound, s)
    case IsOver => Outcome(IsRefused, s)
  }

  // ----- What every reachable state satisfies -----

  /** A live finding binds exactly the current fence. */
  ghost predicate LiveIsCurrent(s: RuntimeState) {
    forall i {:trigger s.findings[i]} :: 0 <= i < |s.findings| ==>
      s.findings[i].state.IsTerminal() || s.findings[i].fence == s.fence
  }

  /** The application keeps to the intent it belongs to, and so do its effects. */
  ghost predicate KeepsToIntent(intent: Intent, app: Application) {
    && app.finding == intent.finding && app.fence == intent.fence && app.targets == intent.targets
    && StrictlyIncreasing(app.targets)
    && forall e :: e in app.effects ==> e.fence == app.fence && e.target in app.targets
  }

  ghost predicate ApplicationsKept(s: RuntimeState) {
    forall intent {:trigger s.applications[intent]} :: intent in s.applications ==>
      KeepsToIntent(intent, s.applications[intent])
  }

  /** Some application of the finding, at its fence, has an effect at that fence for every one of its targets. */
  ghost predicate IsContained(s: RuntimeState, f: Finding) {
    exists intent ::
      intent in s.applications && intent.finding == f.id && intent.fence == f.fence
      && IsVerified(s.applications[intent])
  }

  ghost predicate VerifiedIsContained(s: RuntimeState) {
    forall i {:trigger s.findings[i]} :: 0 <= i < |s.findings| ==>
      s.findings[i].state == ContainmentVerified ==> IsContained(s, s.findings[i])
  }

  /** The fence never runs ahead of what is installed. */
  predicate FenceFits(s: RuntimeState) {
    && s.fence.topology <= (if s.topology != 0 then s.topology else 1)
    && s.fence.policy <= (if s.policy != 0 then s.policy else 1)
  }

  ghost predicate Reachable(s: RuntimeState) {
    IdsRise(s.findings) && LiveIsCurrent(s) && ApplicationsKept(s) && VerifiedIsContained(s) && FenceFits(s)
  }

  // ----- What every step keeps to -----

  predicate FenceAtLeast(a: FenceVector, b: FenceVector) {
    && a.topology <= b.topology && a.forwarding <= b.forwarding && a.policy <= b.policy
    && a.fabricEpoch <= b.fabricEpoch && a.epoch <= b.epoch && a.boot <= b.boot
  }

  /** A finding that is over stays over, or is evicted; a live one stays. */
  ghost predicate FateKept(f: Finding, after: seq<Finding>) {
    && (f.state.IsTerminal() ==> forall i :: 0 <= i < |after| && after[i].id == f.id ==> after[i].state.IsTerminal())
    && (!f.state.IsTerminal() ==> exists i :: 0 <= i < |after| && after[i].id == f.id)
  }

  ghost predicate Follows(a: RuntimeState, b: RuntimeState) {
    && FenceAtLeast(a.fence, b.fence)
    && forall i {:trigger a.findings[i]} :: 0 <= i < |a.findings| ==> FateKept(a.findings[i], b.findings)
  }
}
