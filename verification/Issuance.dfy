/** When a finding is published, a plan retained and an intent issued, said of the state before and the state after, and
    what the intent carries. */
module Issuance {
  import opened Lists
  import opened Sorting
  import opened Topology
  import opened Order
  import opened Evidence
  import opened Findings
  import opened Authority
  import opened Planner
  import opened Lifecycle
  import opened Transitions
  import RuntimeRuns
  import HittingSet
  import HittingSetSolver

  // ----- Publishing -----

  /** A confirmed assessment at the current fence and definition, every witness of which validates again, under an
      identity that is not taken, where there is room or something over to make room. */
  ghost predicate MayPublish(s: RuntimeState, most: nat, a: Assessment, id: nat) {
    && a.confirmed && a.stillValid && a.witnesses > 0
    && a.fence == s.fence && s.fence.boot != 0 && s.topology == s.fence.topology != 0
    && id != 0 && (forall i :: 0 <= i < |s.findings| ==> s.findings[i].id != id)
    && (|s.findings| < most || exists i :: 0 <= i < |s.findings| && !IsLive(s.findings[i]))
  }

  /** Why an assessment is not published, the first reason in this order: it is not confirmed; it is of another fence;
      it has no witness; it is of another definition; a witness does not validate any more; no finding can have such an
      identity and fence; the identity is taken; or only live findings are there to make room. */
  ghost predicate RefusesPublication(s: RuntimeState, r: Reply, most: nat, a: Assessment, id: nat) {
    var current := a.confirmed && a.fence == s.fence;
    var defined := current && a.witnesses > 0 && s.topology == s.fence.topology != 0;
    var fit := defined && a.stillValid && id != 0 && s.fence.boot != 0;
    && (r == IsRefused <==> !a.confirmed || (current && a.witnesses == 0) || (defined && !a.stillValid))
    && (r == IsStale <==> a.confirmed && (!current || (a.witnesses > 0 && !defined)))
    && (r == IsInvalid <==> defined && a.stillValid && !fit)
    && (r == IsKnown <==> fit && IsThere(s.findings, id))
    && (r == IsExhausted <==> fit && !IsThere(s.findings, id) && !MayPublish(s, most, a, id))
  }

  /** The finding an assessment becomes. */
  ghost predicate IsFindingOf(s: RuntimeState, a: Assessment, id: nat, now: nat, f: Finding) {
    && f == Finding(id, f.generation, a.id, s.fence, FindingState.Confirmed, NoCause, 0, None, now, now)
    && f.generation == (if s.findings == [] then 1 else s.findings[|s.findings| - 1].generation + 1)
  }

  /** Of the findings that are over, the one written longest ago, and of those the one of the least identity. */
  ghost predicate IsOldestOver(fs: seq<Finding>, g: Finding) {
    && g in fs && !IsLive(g)
    && forall x :: x in fs && !IsLive(x) ==>
         g.updatedAt < x.updatedAt || (g.updatedAt == x.updatedAt && g.id <= x.id)
  }

  /** The newcomer is there; what was there still is, but for the one that made room where there was none. */
  ghost predicate MakesRoom(a: seq<Finding>, b: seq<Finding>, most: nat, f: Finding) {
    && IdsRise(b) && f in b && (forall x :: x in b ==> x in a || x == f)
    && (|a| < most ==> forall x :: x in a ==> x in b)
    && (|a| >= most ==> exists g :: IsOldestOver(a, g) && forall x :: x in a ==> (x in b <==> x != g))
  }

  ghost predicate Publishes(a: RuntimeState, r: Reply, b: RuntimeState, most: nat, of: Assessment, id: nat, now: nat) {
    && (r == Done <==> MayPublish(a, most, of, id)) && RefusesPublication(a, r, most, of, id)
    && (r == Done ==> exists f :: IsFindingOf(a, of, id, now, f) && MakesRoom(a.findings, b.findings, most, f))
    && b == a.(findings := b.findings) && (r != Done ==> b == a)
  }

  lemma RoomIsMade(fs: seq<Finding>, most: nat, f: Finding)
    requires IdsRise(fs) && RegistrationOf(most, fs, f).Registered?
    ensures MakesRoom(fs, RegistrationOf(most, fs, f).findings, most, f)
  {
    var victim := VictimAmong(fs, |fs|);
    if |fs| < most {
      InsertedRises(fs, f);
    } else {
      var kept := Without(fs, victim.value);
      OldestIsVictim(fs, victim.value);
      RuntimeRuns.NewIdentity(fs, kept, f);
      InsertedRises(kept, f);
    }
  }

  /** What makes room is the oldest that is over, and everything else is kept. */
  lemma OldestIsVictim(fs: seq<Finding>, v: nat)
    requires IdsRise(fs) && VictimAmong(fs, |fs|) == Some(v)
    ensures v < |fs| && IsOldestOver(fs, fs[v])
    ensures IdsRise(Without(fs, v)) && forall x :: x in Without(fs, v) <==> x in fs && x != fs[v]
  {
    forall x | x in fs && !IsLive(x)
      ensures fs[v].updatedAt < x.updatedAt || (fs[v].updatedAt == x.updatedAt && fs[v].id <= x.id)
    {
      var i :| 0 <= i < |fs| && fs[i] == x;
      assert !IsOlder(fs[i], fs[v]);
    }
    WithoutRises(fs, v);
    forall x
      ensures x in Without(fs, v) <==> x in fs && x != fs[v]
    {
      WithoutHolds(fs, v, x);
    }
  }

  lemma WithoutHolds(fs: seq<Finding>, v: nat, x: Finding)
    requires IdsRise(fs) && v < |fs|
    ensures x in Without(fs, v) <==> x in fs && x != fs[v]
  {
    if x in fs && x != fs[v] {
      var i :| 0 <= i < |fs| && fs[i] == x;
      assert Without(fs, v)[if i < v then i else i - 1] == x;
    }
    if x in Without(fs, v) {
      var i :| 0 <= i < |Without(fs, v)| && Without(fs, v)[i] == x;
      assert fs[if i < v then i else i + 1] == x;
    }
  }

  lemma PublishDecides(s: RuntimeState, limits: RuntimeLimits, a: Assessment, id: nat, now: nat)
    requires Reachable(s)
    ensures var o := Published(s, limits, a, id, now); Publishes(s, o.reply, o.state, limits.maxFindings, a, id, now)
  {
    if a.confirmed && a.fence == s.fence && a.witnesses > 0 && s.topology == s.fence.topology != 0 && a.stillValid {
      EntryDecides(s, limits, a, id, now);
    }
  }

  /** Past the checks on the assessment, the registry decides. */
  lemma EntryDecides(s: RuntimeState, limits: RuntimeLimits, a: Assessment, id: nat, now: nat)
    requires Reachable(s) && a.confirmed && a.fence == s.fence && a.witnesses > 0
    requires s.topology == s.fence.topology != 0 && a.stillValid
    ensures var o := Entered(s, limits, a.id, a.fence, id, now);
            Publishes(s, o.reply, o.state, limits.maxFindings, a, id, now)
  {
    var f := Finding(id, NextGeneration(s.findings), a.id, a.fence, FindingState.Confirmed, NoCause, 0, None, now, now);
    RegistryDecides(s.findings, limits.maxFindings, f);
    if RegistrationOf(limits.maxFindings, s.findings, f).Registered? {
      RoomIsMade(s.findings, limits.maxFindings, f);
      assert IsFindingOf(s, a, id, now, f);
    }
  }

  lemma RegistryDecides(fs: seq<Finding>, most: nat, f: Finding)
    ensures var r := RegistrationOf(most, fs, f);
            && (r.NotValid? <==> f.id == 0 || f.fence.boot == 0)
            && (r.AlreadyThere? <==> f.id != 0 && f.fence.boot != 0 && IsThere(fs, f.id))
            && (r.Registered? <==>
                && f.id != 0 && f.fence.boot != 0 && !IsThere(fs, f.id)
                && (|fs| < most || exists i :: 0 <= i < |fs| && !IsLive(fs[i])))
  {
  }

  // ----- Retaining a plan -----

  predicate PlansRise(plans: seq<RetainedPlan>) {
    forall i, j :: 0 <= i < j < |plans| ==> plans[i].id < plans[j].id
  }

  /** The plan of the least identity. */
  ghost predicate IsLeast(plans: seq<RetainedPlan>, x: RetainedPlan) {
    x in plans && forall y :: y in plans ==> x.id <= y.id
  }

  /** The first live finding of the assessment has the plan now. */
  ghost predicate AttachesPlan(a: seq<Finding>, b: seq<Finding>, of: nat, plan: nat, now: nat) {
    if exists i :: 0 <= i < |a| && IsLive(a[i]) && a[i].assessment == of then
      exists i: nat ::
        && ChangesOnly(a, b, i) && IsLive(a[i]) && a[i].assessment == of
        && b[i] == a[i].(plan := plan, updatedAt := now)
        && forall k :: 0 <= k < i ==> !IsLive(a[k]) || a[k].assessment != of
    else b == a
  }

  /** The plan is kept in place of one of its identity, and where there is no room in place of the one of the least. */
  ghost predicate KeepsPlan(a: seq<RetainedPlan>, b: seq<RetainedPlan>, most: nat, p: RetainedPlan) {
    && PlansRise(b)
    && forall x :: x in b <==> x == p || (x in a && x.id != p.id && !(|a| >= most && IsLeast(a, x)))
  }

  ghost predicate RetainsPlan(a: RuntimeState, r: Reply, b: RuntimeState, most: nat, of: nat,
                              planned: Option<RetainedPlan>, now: nat)
  {
    && (r == Done <==> a.topology != 0 && a.policy != 0 && planned.Some?)
    && (r == Done ==>
          && KeepsPlan(a.plans, b.plans, most, planned.value)
          && AttachesPlan(a.findings, b.findings, of, planned.value.id, now))
    && b == a.(plans := b.plans, findings := b.findings) && (r != Done ==> b == a)
  }

  lemma {:induction false} InsertedPlans(plans: seq<RetainedPlan>, p: RetainedPlan)
    requires PlansRise(plans)
    ensures PlansRise(PlanInserted(plans, p))
    ensures forall x :: x in PlanInserted(plans, p) <==> x == p || (x in plans && x.id != p.id)
    decreases |plans|
  {
    if plans != [] {
      var front, last := plans[..|plans| - 1], plans[|plans| - 1];
      assert plans == front + [last];
      if p.id < last.id {
        InsertedPlans(front, p);
        forall i | 0 <= i < |PlanInserted(front, p)|
          ensures PlanInserted(front, p)[i].id < last.id
        {
          assert PlanInserted(front, p)[i] in PlanInserted(front, p);
        }
      } else if p.id == last.id {
        assert plans[|plans| - 1 := p] == front + [p];
      }
    }
  }

  lemma FirstIsLeast(plans: seq<RetainedPlan>)
    requires PlansRise(plans) && plans != []
    ensures PlansRise(plans[1..]) && forall x :: x in plans[1..] <==> x in plans && !IsLeast(plans, x)
  {
    assert plans == [plans[0]] + plans[1..];
    forall x | x in plans
      ensures IsLeast(plans, x) <==> x == plans[0]
    {
      var i :| 0 <= i < |plans| && plans[i] == x;
      assert plans[0] in plans;
    }
    forall x | x in plans[1..]
      ensures x != plans[0]
    {
      var i :| 0 <= i < |plans[1..]| && plans[1..][i] == x;
      assert plans[i + 1] == x;
    }
  }

  lemma {:induction false} AttachedIsFirst(fs: seq<Finding>, of: nat)
    ensures FindingFor(fs, of).None? ==> forall i :: 0 <= i < |fs| ==> !IsLive(fs[i]) || fs[i].assessment != of
    ensures FindingFor(fs, of).Some? ==>
              forall k :: 0 <= k < FindingFor(fs, of).value ==> !IsLive(fs[k]) || fs[k].assessment != of
    decreases |fs|
  {
    if fs != [] && !(fs[0].assessment == of && !fs[0].state.IsTerminal()) {
      AttachedIsFirst(fs[1..], of);
      forall i | 0 < i < |fs|
        ensures fs[i] == fs[1..][i - 1]
      {
      }
    }
  }

  lemma PlanIsAttached(fs: seq<Finding>, of: nat, plan: nat, now: nat)
    ensures AttachesPlan(fs, WithPlan(fs, of, plan, now), of, plan, now)
  {
    AttachedIsFirst(fs, of);
    var at := FindingFor(fs, of);
    if at.Some? {
      assert IsLive(fs[at.value]);
      assert ChangesOnly(fs, WithPlan(fs, of, plan, now), at.value);
    }
  }

  lemma PlanDecides(s: RuntimeState, limits: RuntimeLimits, of: nat, planned: Option<RetainedPlan>, now: nat)
    requires PlansRise(s.plans)
    ensures var o := PlanKept(s, limits, of, planned, now);
            RetainsPlan(s, o.reply, o.state, limits.maxPlans, of, planned, now)
  {
    if planned.Some? {
      PlanIsAttached(s.findings, of, planned.value.id, now);
      if s.plans != [] && |s.plans| >= limits.maxPlans {
        FirstIsLeast(s.plans);
        InsertedPlans(s.plans[1..], planned.value);
      } else {
        InsertedPlans(s.plans, planned.value);
      }
    }
  }

  // ----- Issuing an intent -----

  function AllTargets(plan: ContainmentPlan): (ids: seq<nat>)
    ensures |ids| == |plan.targets| && forall i :: 0 <= i < |ids| ==> ids[i] == plan.targets[i].resource
  {
    seq(|plan.targets|, i requires 0 <= i < |plan.targets| => plan.targets[i].resource)
  }

  /** The targets asked for, in order and none twice; without a request all of the plan's. */
  ghost predicate IsRequest(plan: ContainmentPlan, ids: seq<nat>, targets: seq<nat>) {
    StrictlyIncreasing(targets) && multiset(targets) == multiset(if ids == [] then AllTargets(plan) else ids)
  }

  /** The price is what the plan's first target for the resource costs. */
  ghost predicate IsPriceOf(plan: ContainmentPlan, r: nat, price: nat) {
    exists i ::
      && 0 <= i < |plan.targets| && plan.targets[i].resource == r && plan.targets[i].cost == price
      && forall k :: 0 <= k < i ==> plan.targets[k].resource != r
  }

  function Total(prices: seq<nat>): nat {
    if prices == [] then 0 else Total(prices[..|prices| - 1]) + prices[|prices| - 1]
  }

  ghost predicate ArePrices(plan: ContainmentPlan, targets: seq<nat>, prices: seq<nat>) {
    |prices| == |targets| && forall k {:trigger prices[k]} :: 0 <= k < |targets| ==>
      IsPriceOf(plan, targets[k], prices[k])
  }

  /** The grant is active, at this fence and in time, and these targets at this cost are within it. */
  ghost predicate IsGranted(g: ContainmentGrant, targets: seq<nat>, total: nat, fence: FenceVector, now: nat) {
    && g.state == Active && g.fence == fence && now <= g.expiresAt
    && 0 < |targets| <= g.maxTargets && total <= g.maxTotalCost && forall t :: t in targets ==> t in g.scope
  }

  /** The finding is live at the current fence; its plan is retained, is one to act on, and binds the current fence; and
      the targets asked for are the plan's and within the grant. */
  ghost predicate MayIssue(s: RuntimeState, finding: nat, g: ContainmentGrant, now: nat, ids: seq<nat>, i: nat, j: nat,
                           targets: seq<nat>, prices: seq<nat>)
  {
    && i < |s.findings| && s.findings[i].id == finding && IsLive(s.findings[i]) && s.findings[i].fence == s.fence
    && j < |s.plans| && s.plans[j].id == s.findings[i].plan
    && var plan := s.plans[j].plan;
    && plan.outcome == HittingSetSolver.PlanOptimal && plan.withinPolicyBudget && plan.targets != []
    && plan.fence == s.fence
    && IsRequest(plan, ids, targets) && ArePrices(plan, targets, prices)
    && IsGranted(g, targets, Total(prices), s.fence, now)
  }

  /** The intent carries the selectors of the plan's targets that were asked for, and lasts as long as its lease. */
  ghost predicate Carries(s: RuntimeState, finding: nat, plan: RetainedPlan, targets: seq<nat>, now: nat, lease: nat,
                          intent: Intent)
  {
    && intent.plan == plan.id && intent.finding == finding && intent.fence == s.fence && intent.targets == targets
    && intent.issuedAt == now && intent.expiresAt == now + lease
    && StrictlyIncreasing(intent.selectors)
    && forall x :: x in intent.selectors <==>
         exists k :: 0 <= k < |plan.plan.targets| && plan.plan.targets[k].resource in targets
                     && x in plan.plan.targets[k].selectors
  }

  /** The intent is the finding's, which is now requested, and its application begins with nothing done. */
  ghost predicate Issues(a: RuntimeState, b: RuntimeState, i: nat, intent: Intent, now: nat) {
    && ChangesOnly(a.findings, b.findings, i)
    && b.findings[i] == a.findings[i].(intent := Some(intent), state := ContainmentRequested, updatedAt := now)
    && b.applications
       == a.applications[intent := Application(intent.finding, intent.fence, intent.targets, 0, [])]
    && b == a.(findings := b.findings, applications := b.applications)
  }

  ghost predicate IsCurrent(s: RuntimeState, finding: nat, i: nat) {
    i < |s.findings| && s.findings[i].id == finding && IsLive(s.findings[i]) && s.findings[i].fence == s.fence
  }

  ghost predicate IsPlanOf(s: RuntimeState, i: nat, j: nat)
    requires i < |s.findings|
  {
    j < |s.plans| && s.plans[j].id == s.findings[i].plan
  }

  /** A plan to act on. */
  predicate IsForAction(plan: ContainmentPlan) {
    plan.outcome == HittingSetSolver.PlanOptimal && plan.withinPolicyBudget && plan.targets != []
  }

  /** Something is wanting in the current finding's plan: it is one to act on but of another fence. */
  ghost predicate IsOutdated(s: RuntimeState, finding: nat, i: nat, j: nat) {
    && IsCurrent(s, finding, i) && IsPlanOf(s, i, j)
    && IsForAction(s.plans[j].plan) && s.plans[j].plan.fence != s.fence
  }

  /** It is one to act on at this fence, but what is asked for names a target twice. */
  ghost predicate IsAskedTwice(s: RuntimeState, finding: nat, ids: seq<nat>, i: nat, j: nat) {
    && IsCurrent(s, finding, i) && IsPlanOf(s, i, j)
    && IsForAction(s.plans[j].plan) && s.plans[j].plan.fence == s.fence
    && forall targets :: !IsRequest(s.plans[j].plan, ids, targets)
  }

  /** Why no intent is issued: the finding or its plan is not there; the finding is over, or it or its plan is of
      another fence; a target is asked for twice; or else the plan is none to act on, a target is none of its, or the
      grant does not go so far. */
  ghost predicate RefusesIntent(s: RuntimeState, r: Reply, finding: nat, ids: seq<nat>) {
    && r in {Done, IsNotFound, IsFenced, IsInvalid, IsRefused}
    && (r == IsNotFound <==>
        || !IsThere(s.findings, finding)
        || exists i: nat :: IsCurrent(s, finding, i) && forall j: nat :: !IsPlanOf(s, i, j))
    && (r == IsFenced <==>
        || (IsThere(s.findings, finding) && forall i: nat :: !IsCurrent(s, finding, i))
        || exists i: nat, j: nat :: IsOutdated(s, finding, i, j))
    && (r == IsInvalid <==> exists i: nat, j: nat :: IsAskedTwice(s, finding, ids, i, j))
  }

  ghost predicate Authorizing(a: RuntimeState, r: Reply, b: RuntimeState, finding: nat, g: ContainmentGrant, now: nat,
                              lease: nat, ids: seq<nat>)
  {
    && (r == Done <==> exists i, j, targets, prices :: MayIssue(a, finding, g, now, ids, i, j, targets, prices))
    && RefusesIntent(a, r, finding, ids)
    && (r == Done ==> exists i: nat, j: nat, targets, prices, intent ::
          && MayIssue(a, finding, g, now, ids, i, j, targets, prices)
          && Carries(a, finding, a.plans[j], targets, now, lease, intent) && Issues(a, b, i, intent, now))
    && (r != Done ==> b == a)
  }

  lemma {:induction false} PriceIsFirst(targets: seq<ContainmentTarget>, r: nat, i: nat)
    requires i < |targets| && targets[i].resource == r && forall k :: 0 <= k < i ==> targets[k].resource != r
    ensures PlanCost(targets, r) == Some(targets[i].cost)
    decreases |targets|
  {
    if i > 0 {
      PriceIsFirst(targets[1..], r, i - 1);
    }
  }

  lemma {:induction false} FirstHasPrice(targets: seq<ContainmentTarget>, r: nat) returns (i: nat)
    requires PlanCost(targets, r).Some?
    ensures i < |targets| && targets[i].resource == r && targets[i].cost == PlanCost(targets, r).value
    ensures forall k :: 0 <= k < i ==> targets[k].resource != r
    decreases |targets|
  {
    if targets[0].resource == r {
      i := 0;
    } else {
      var rest := FirstHasPrice(targets[1..], r);
      i := rest + 1;
      forall k | 0 <= k < i
        ensures targets[k].resource != r
      {
        assert k > 0 ==> targets[1..][k - 1] == targets[k];
      }
    }
  }

  lemma PriceMeans(plan: ContainmentPlan, r: nat, price: nat)
    ensures IsPriceOf(plan, r, price) <==> PlanCost(plan.targets, r) == Some(price)
  {
    if i :| 0 <= i < |plan.targets| && plan.targets[i].resource == r && plan.targets[i].cost == price
            && forall k :: 0 <= k < i ==> plan.targets[k].resource != r {
      PriceIsFirst(plan.targets, r, i);
    }
    if PlanCost(plan.targets, r) == Some(price) {
      var i := FirstHasPrice(plan.targets, r);
    }
  }

  /** A request has a cost exactly when each of its targets has a price, and it is their total. */
  lemma {:induction false} CostIsTotal(plan: ContainmentPlan, targets: seq<nat>, prices: seq<nat>)
    requires ArePrices(plan, targets, prices)
    ensures RequestCost(plan.targets, targets) == Some(Total(prices))
    decreases |targets|
  {
    if targets != [] {
      var n := |targets| - 1;
      forall k | 0 <= k < n
        ensures IsPriceOf(plan, targets[..n][k], prices[..n][k])
      {
        assert IsPriceOf(plan, targets[k], prices[k]);
      }
      CostIsTotal(plan, targets[..n], prices[..n]);
      assert IsPriceOf(plan, targets[n], prices[n]);
      PriceMeans(plan, targets[n], prices[n]);
    }
  }

  lemma {:induction false} TotalIsCost(plan: ContainmentPlan, targets: seq<nat>) returns (prices: seq<nat>)
    requires RequestCost(plan.targets, targets).Some?
    ensures ArePrices(plan, targets, prices) && RequestCost(plan.targets, targets) == Some(Total(prices))
    decreases |targets|
  {
    if targets == [] {
      prices := [];
    } else {
      var n := |targets| - 1;
      var before := TotalIsCost(plan, targets[..n]);
      var last := PlanCost(plan.targets, targets[n]).value;
      prices := before + [last];
      PriceMeans(plan, targets[n], last);
      forall k | 0 <= k < |targets|
        ensures IsPriceOf(plan, targets[k], prices[k])
      {
        assert k < n ==> IsPriceOf(plan, targets[..n][k], before[k]);
      }
      CostIsTotal(plan, targets, prices);
    }
  }

  lemma {:induction false} ResourcesInOrder(targets: seq<ContainmentTarget>)
    ensures |ResourcesOf(targets)| == |targets|
    ensures forall i :: 0 <= i < |targets| ==> ResourcesOf(targets)[i] == targets[i].resource
    decreases |targets|
  {
    if targets != [] {
      ResourcesInOrder(targets[..|targets| - 1]);
    }
  }

  /** What is asked for is what the request says, put in order; and it is in order only when nothing is asked twice. */
  lemma RequestDecides(plan: ContainmentPlan, ids: seq<nat>, targets: seq<nat>)
    ensures IsRequest(plan, ids, targets) <==> targets == Requested(plan, ids) && StrictlyIncreasing(targets)
  {
    ResourcesInOrder(plan.targets);
    assert AllTargets(plan) == ResourcesOf(plan.targets);
    var asked := if ids == [] then ResourcesOf(plan.targets) else ids;
    assert multiset(HittingSet.SortIds(asked)) == multiset(asked);
    if IsRequest(plan, ids, targets) {
      StrictIsNondecreasing(targets);
      HittingSet.SortIdsAscends(asked);
      HittingSet.AscendingIsUnique(targets, HittingSet.SortIds(asked));
    }
  }

  lemma GrantDecides(g: ContainmentGrant, targets: seq<nat>, total: nat, fence: FenceVector, now: nat)
    requires StrictlyIncreasing(g.scope)
    ensures IsGranted(g, targets, total, fence, now) <==> Authorizes(g, targets, total, fence, now)
  {
    AuthorizesWhatIsPermitted(g, targets, total, fence, now);
  }

  lemma PlanIsFound(plans: seq<RetainedPlan>, j: nat)
    requires PlansRise(plans) && j < |plans|
    ensures PlanAt(plans, plans[j].id) == Some(j)
  {
    PlanIsThere(plans, j);
    var k := PlanAt(plans, plans[j].id).value;
    assert !(j < k) && !(k < j);
  }

  lemma {:induction false} PlanIsThere(plans: seq<RetainedPlan>, j: nat)
    requires j < |plans|
    ensures PlanAt(plans, plans[j].id).Some?
    decreases |plans|
  {
    if plans[|plans| - 1].id != plans[j].id {
      PlanIsThere(plans[..|plans| - 1], j);
    }
  }

  lemma {:induction false} SelectorsMean(targets: seq<ContainmentTarget>, ids: seq<nat>)
    requires StrictlyIncreasing(ids)
    ensures StrictlyIncreasing(SelectorsFor(targets, ids))
    ensures forall x :: x in SelectorsFor(targets, ids) <==> IsSelectorOf(targets, ids, x)
    decreases |targets|
  {
    if targets != [] {
      var n := |targets| - 1;
      SelectorsMean(targets[..n], ids);
      InsertAllAscends(SelectorsFor(targets[..n], ids), targets[n].selectors);
      StrictIsNondecreasing(ids);
      SortedIsFound(ids, targets[n].resource);
      forall x
        ensures IsSelectorOf(targets, ids, x) <==>
                IsSelectorOf(targets[..n], ids, x) || (targets[n].resource in ids && x in targets[n].selectors)
      {
        OneMoreTarget(targets, ids, x);
      }
    }
  }

  ghost predicate IsSelectorOf(targets: seq<ContainmentTarget>, ids: seq<nat>, x: nat) {
    exists k :: 0 <= k < |targets| && targets[k].resource in ids && x in targets[k].selectors
  }

  lemma OneMoreTarget(targets: seq<ContainmentTarget>, ids: seq<nat>, x: nat)
    requires targets != []
    ensures var n := |targets| - 1;
            IsSelectorOf(targets, ids, x) <==>
            IsSelectorOf(targets[..n], ids, x) || (targets[n].resource in ids && x in targets[n].selectors)
  {
    var n := |targets| - 1;
    if IsSelectorOf(targets[..n], ids, x) {
      var k :| 0 <= k < n && targets[..n][k].resource in ids && x in targets[..n][k].selectors;
      assert targets[k] == targets[..n][k];
    }
    if IsSelectorOf(targets, ids, x) {
      var k :| 0 <= k < |targets| && targets[k].resource in ids && x in targets[k].selectors;
      assert k < n ==> targets[..n][k] == targets[k];
    }
  }

  /** Past every check, the intent is issued. */
  lemma PastEveryCheck(s: RuntimeState, finding: nat, g: ContainmentGrant, now: nat, lease: nat, ids: seq<nat>, i: nat,
                       j: nat, targets: seq<nat>, cost: nat)
    requires PositionOf(s.findings, finding) == Some(i) && i < |s.findings|
    requires !s.findings[i].state.IsTerminal() && s.findings[i].fence == s.fence
    requires PlanAt(s.plans, s.findings[i].plan) == Some(j) && j < |s.plans|
    requires s.plans[j].plan.AuthorizesAction() && s.plans[j].plan.fence == s.fence
    requires targets == Requested(s.plans[j].plan, ids) && StrictlyIncreasing(targets)
    requires RequestCost(s.plans[j].plan.targets, targets) == Some(cost) && Authorizes(g, targets, cost, s.fence, now)
    ensures Authorized(s, finding, g, now, lease, ids)
            == Outcome(Done, WithIntent(s, i, IntentFor(s, finding, s.plans[j], targets, now, lease), now))
  {
  }

  /** The conditions of an intent are those the runtime checks. */
  lemma IssueMeans(s: RuntimeState, finding: nat, g: ContainmentGrant, now: nat, lease: nat, ids: seq<nat>, i: nat,
                   j: nat, targets: seq<nat>, prices: seq<nat>)
    requires Reachable(s) && PlansRise(s.plans) && StrictlyIncreasing(g.scope)
    requires MayIssue(s, finding, g, now, ids, i, j, targets, prices)
    ensures Authorized(s, finding, g, now, lease, ids)
            == Outcome(Done, WithIntent(s, i, IntentFor(s, finding, s.plans[j], targets, now, lease), now))
  {
    PositionIsUnique(s.findings, i);
    PlanIsFound(s.plans, j);
    RequestDecides(s.plans[j].plan, ids, targets);
    CostIsTotal(s.plans[j].plan, targets, prices);
    GrantDecides(g, targets, Total(prices), s.fence, now);
    PastEveryCheck(s, finding, g, now, lease, ids, i, j, targets, Total(prices));
  }

  lemma IssuedMay(s: RuntimeState, finding: nat, g: ContainmentGrant, now: nat, lease: nat, ids: seq<nat>)
    returns (i: nat, j: nat, targets: seq<nat>, prices: seq<nat>)
    requires StrictlyIncreasing(g.scope) && Authorized(s, finding, g, now, lease, ids).reply == Done
    ensures MayIssue(s, finding, g, now, ids, i, j, targets, prices)
  {
    i := PositionOf(s.findings, finding).value;
    j := PlanAt(s.plans, s.findings[i].plan).value;
    var plan := s.plans[j].plan;
    targets := Requested(plan, ids);
    RequestDecides(plan, ids, targets);
    prices := TotalIsCost(plan, targets);
    GrantDecides(g, targets, Total(prices), s.fence, now);
  }

  lemma IntentCarries(s: RuntimeState, finding: nat, plan: RetainedPlan, targets: seq<nat>, now: nat, lease: nat)
    requires StrictlyIncreasing(targets)
    ensures Carries(s, finding, plan, targets, now, lease, IntentFor(s, finding, plan, targets, now, lease))
  {
    SelectorsMean(plan.plan.targets, targets);
    forall x
      ensures IsSelectorOf(plan.plan.targets, targets, x) <==>
              exists k :: 0 <= k < |plan.plan.targets| && plan.plan.targets[k].resource in targets
                     && x in plan.plan.targets[k].selectors
    {
    }
  }

  /** The finding and its plan are found where they are. */
  lemma OneOfEach(s: RuntimeState, finding: nat)
    requires Reachable(s) && PlansRise(s.plans)
    ensures IsThere(s.findings, finding) <==> PositionOf(s.findings, finding).Some?
    ensures forall i: nat :: IsCurrent(s, finding, i) ==> PositionOf(s.findings, finding) == Some(i)
    ensures forall i: nat, j: nat :: i < |s.findings| && IsPlanOf(s, i, j) ==>
              PlanAt(s.plans, s.findings[i].plan) == Some(j)
  {
    forall i: nat | i < |s.findings| && s.findings[i].id == finding
      ensures PositionOf(s.findings, finding) == Some(i)
    {
      PositionIsUnique(s.findings, i);
    }
    forall j: nat | j < |s.plans|
      ensures PlanAt(s.plans, s.plans[j].id) == Some(j)
    {
      PlanIsFound(s.plans, j);
    }
  }

  lemma AskedTwiceDecides(plan: ContainmentPlan, ids: seq<nat>)
    ensures (forall targets :: !IsRequest(plan, ids, targets)) <==> !StrictlyIncreasing(Requested(plan, ids))
  {
    RequestDecides(plan, ids, Requested(plan, ids));
    forall targets
      ensures IsRequest(plan, ids, targets) ==> targets == Requested(plan, ids) && StrictlyIncreasing(targets)
    {
      RequestDecides(plan, ids, targets);
    }
  }

  /** Where the finding and its plan are there, nothing else is outdated or asked for twice. */
  lemma TheseOnly(s: RuntimeState, finding: nat, ids: seq<nat>, i: nat, j: nat)
    requires IsCurrent(s, finding, i) && IsPlanOf(s, i, j)
    requires forall k: nat :: IsCurrent(s, finding, k) ==> k == i
    requires forall k: nat :: IsPlanOf(s, i, k) ==> k == j
    ensures (exists k: nat, n: nat :: IsOutdated(s, finding, k, n)) <==> IsOutdated(s, finding, i, j)
    ensures (exists k: nat, n: nat :: IsAskedTwice(s, finding, ids, k, n)) <==> IsAskedTwice(s, finding, ids, i, j)
    ensures !exists k: nat :: IsCurrent(s, finding, k) && forall n: nat :: !IsPlanOf(s, k, n)
  {
    if k: nat, n: nat :| IsOutdated(s, finding, k, n) {
      assert IsCurrent(s, finding, k) && IsPlanOf(s, i, n);
    }
    if k: nat, n: nat :| IsAskedTwice(s, finding, ids, k, n) {
      assert IsCurrent(s, finding, k) && IsPlanOf(s, i, n);
    }
  }

  lemma RefusalWithPlan(s: RuntimeState, finding: nat, g: ContainmentGrant, now: nat, lease: nat, ids: seq<nat>, i: nat,
                        j: nat)
    requires Reachable(s) && PlansRise(s.plans)
    requires IsCurrent(s, finding, i) && IsPlanOf(s, i, j)
    ensures RefusesIntent(s, Authorized(s, finding, g, now, lease, ids).reply, finding, ids)
  {
    OneOfEach(s, finding);
    TheseOnly(s, finding, ids, i, j);
    AskedTwiceDecides(s.plans[j].plan, ids);
    PlanRefuses(s, finding, g, now, lease, ids, i, j);
  }

  lemma RefusalWithoutPlan(s: RuntimeState, finding: nat, g: ContainmentGrant, now: nat, lease: nat, ids: seq<nat>)
    requires Reachable(s) && PlansRise(s.plans)
    requires forall i: nat, j: nat :: IsCurrent(s, finding, i) ==> !IsPlanOf(s, i, j)
    ensures RefusesIntent(s, Authorized(s, finding, g, now, lease, ids).reply, finding, ids)
  {
    OneOfEach(s, finding);
    var at := PositionOf(s.findings, finding);
    if at.Some? && IsCurrent(s, finding, at.value) {
      var planAt := PlanAt(s.plans, s.findings[at.value].plan);
      assert planAt.Some? ==> IsPlanOf(s, at.value, planAt.value);
    }
  }

  lemma RefusalDecides(s: RuntimeState, finding: nat, g: ContainmentGrant, now: nat, lease: nat, ids: seq<nat>)
    requires Reachable(s) && PlansRise(s.plans)
    ensures RefusesIntent(s, Authorized(s, finding, g, now, lease, ids).reply, finding, ids)
  {
    if i: nat, j: nat :| IsCurrent(s, finding, i) && IsPlanOf(s, i, j) {
      RefusalWithPlan(s, finding, g, now, lease, ids, i, j);
    } else {
      RefusalWithoutPlan(s, finding, g, now, lease, ids);
    }
  }

  /** Past the finding, the reply is the plan's. */
  lemma PlanRefuses(s: RuntimeState, finding: nat, g: ContainmentGrant, now: nat, lease: nat, ids: seq<nat>, i: nat,
                    j: nat)
    requires IsCurrent(s, finding, i) && PositionOf(s.findings, finding) == Some(i)
    requires IsPlanOf(s, i, j) && PlanAt(s.plans, s.findings[i].plan) == Some(j)
    ensures var plan, r := s.plans[j].plan, Authorized(s, finding, g, now, lease, ids).reply;
            && r in {Done, IsFenced, IsInvalid, IsRefused}
            && (r == IsFenced <==> IsForAction(plan) && plan.fence != s.fence)
            && (r == IsInvalid <==>
                IsForAction(plan) && plan.fence == s.fence && !StrictlyIncreasing(Requested(plan, ids)))
  {
  }

  /** When an intent is issued, and what it carries, for a grant whose scope is in order. */
  lemma IntentDecides(s: RuntimeState, finding: nat, g: ContainmentGrant, now: nat, lease: nat, ids: seq<nat>)
    requires Reachable(s) && PlansRise(s.plans) && StrictlyIncreasing(g.scope)
    ensures var o := Authorized(s, finding, g, now, lease, ids);
            Authorizing(s, o.reply, o.state, finding, g, now, lease, ids)
  {
    var o := Authorized(s, finding, g, now, lease, ids);
    RefusalDecides(s, finding, g, now, lease, ids);
    if o.reply == Done {
      var i, j, targets, prices := IssuedMay(s, finding, g, now, lease, ids);
      var intent := IntentFor(s, finding, s.plans[j], targets, now, lease);
      IssueMeans(s, finding, g, now, lease, ids, i, j, targets, prices);
      IntentCarries(s, finding, s.plans[j], targets, now, lease);
      assert Issues(s, o.state, i, intent, now);
    }
    if i, j, targets, prices :| MayIssue(s, finding, g, now, ids, i, j, targets, prices) {
      IssueMeans(s, finding, g, now, lease, ids, i, j, targets, prices);
    }
  }

  /** The plans stay in the order of their identities, whatever is done. */
  lemma PlansStayInOrder(limits: RuntimeLimits, s: RuntimeState, action: RuntimeRuns.Action, now: nat)
    requires PlansRise(s.plans)
    ensures PlansRise(RuntimeRuns.Act(limits, s, action, now).state.plans)
  {
    if action.Plan? {
      PlanDecides(s, limits, action.of, action.planned, now);
    }
  }
}
