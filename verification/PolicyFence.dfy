/** Whether the fence names the policy that is installed: what keeps that, and the crash between two records that ends
    it. */
module PolicyFence {
  import opened Journal
  import opened Topology
  import opened Evidence
  import opened StoreState
  import opened StoreModel
  import opened Lifecycle
  import opened RuntimeRuns
  import opened Lives
  import opened FenceLives
  import Containment
  import Planner
  import Readability

  predicate PolicyAgrees(s: RuntimeState) {
    s.policy != 0 ==> s.fence.policy == s.policy
  }

  predicate TopologyAgrees(s: RuntimeState) {
    s.topology != 0 ==> s.fence.topology == s.topology
  }

  /** The committed fence names the durable policy, or none. */
  predicate DiskAgrees(disk: StoreState) {
    PolicyGeneration(disk) != 0 ==> disk.committedFence.policy in {0, PolicyGeneration(disk)}
  }

  predicate InstallsPolicy(limits: RuntimeLimits, s: RuntimeState, action: Action, now: nat) {
    action.SetPolicy? && Act(limits, s, action, now).reply == Done
  }

  // ----- Operations -----

  /** An operation leaves fence and policy in agreement exactly when they were before, or it installs a policy. */
  lemma ActionDecides(limits: RuntimeLimits, s: RuntimeState, action: Action, now: nat)
    ensures PolicyAgrees(Act(limits, s, action, now).state)
            <==> PolicyAgrees(s) || InstallsPolicy(limits, s, action, now)
    ensures TopologyAgrees(s) ==> TopologyAgrees(Act(limits, s, action, now).state)
  {
  }

  /** Where they disagree, the planner answers no assessment at the fence with the policy installed, and that policy
      cannot be installed again: it takes a newer one. */
  lemma DisagreeingStalls(limits: RuntimeLimits, s: RuntimeState, a: Containment.Assessed,
                          policy: Planner.ContainmentPolicy, planning: Planner.PlanLimits, generation: nat, now: nat)
    requires !PolicyAgrees(s) && a.fence == s.fence && policy.generation == s.policy
    ensures !Containment.CanPlan(a, policy, planning)
    ensures generation <= s.policy ==> Act(limits, s, Action.SetPolicy(generation), now).reply in {IsInvalid, IsStale}
    ensures generation > s.policy ==> PolicyAgrees(Act(limits, s, Action.SetPolicy(generation), now).state)
  {
  }

  // ----- Restarts -----

  /** A restart restores them in agreement exactly when the committed fence names the durable policy, or none; with the
      topology the fence always agrees. */
  lemma RestartDecides(limits: RuntimeLimits, disk: StoreState, boot: nat, epoch: nat, now: nat)
    ensures PolicyAgrees(Restored(limits, disk, boot, epoch, now)) <==> DiskAgrees(disk)
    ensures TopologyAgrees(Restored(limits, disk, boot, epoch, now))
  {
  }

  lemma MirroredAgrees(s: RuntimeState, disk: StoreState)
    requires s.policy == PolicyGeneration(disk) && IsMirrored(s, disk)
    ensures PolicyAgrees(s) <==> DiskAgrees(disk)
  {
  }

  /** What is left when only the first `cut` records of an operation are written agrees: of a policy both records, or
      the fence already names it or none. */
  predicate LeftAgrees(limits: RuntimeLimits, s: RuntimeState, disk: StoreState, action: Action, now: nat, cut: nat) {
    if InstallsPolicy(limits, s, action, now) && cut > 0 then
       cut > 1 || disk.committedFence.policy in {0, action.generation}
    else PolicyAgrees(s)
  }

  lemma PolicyWritten(limits: StoreLimits, runtime: RuntimeLimits, s: RuntimeState, action: Action, now: nat,
                      notes: Notes, disk: StoreState, cut: nat)
    requires NotesFit(s, action, now, notes) && InstallsPolicy(runtime, s, action, now)
    requires 0 < cut <= |Written(runtime, s, action, now, notes)|
    ensures DiskAgrees(Folded(limits, disk, Written(runtime, s, action, now, notes)[..cut]))
       <==> cut > 1 || disk.committedFence.policy in {0, action.generation}
  {
    var ds := Written(runtime, s, action, now, notes);
    var installed := Mutated(limits, disk, ds[0]);
    assert ds[..cut][0] == ds[0];
    if cut == 1 {
      assert ds[..cut][1..] == [];
    } else {
      assert ds[..cut][1..] == [ds[1]] && [ds[1]][1..] == [];
      assert Folded(limits, installed, [ds[1]]) == Folded(limits, Mutated(limits, installed, ds[1]), []);
    }
  }

  /** Other operations leave agreement as it was, wherever they are cut. */
  lemma OthersWritten(limits: StoreLimits, runtime: RuntimeLimits, s: RuntimeState, action: Action, now: nat,
                      notes: Notes, disk: StoreState, cut: nat)
    requires Reachable(s) && IsBacked(s, disk) && IsMirrored(s, disk) && NotesFit(s, action, now, notes)
    requires !InstallsPolicy(runtime, s, action, now) && cut <= |Written(runtime, s, action, now, notes)|
    ensures DiskAgrees(Folded(limits, disk, Written(runtime, s, action, now, notes)[..cut])) <==> PolicyAgrees(s)
  {
    var ds, o := Written(runtime, s, action, now, notes), Act(runtime, s, action, now);
    MirroredAgrees(s, disk);
    ActionKeeps(runtime, s, action, now);
    ActionDecides(runtime, s, action, now);
    var moves := (action.AdvanceForwarding? || action.AdvanceFabricEpoch? || action.AdvanceEpoch?) && o.reply == Done;
    if cut == 0 {
      assert ds[..0] == [];
    } else if action.SetTopology? && o.reply == Done {
      TopologyWritten(limits, runtime, s, action, now, notes, disk, cut);
    } else if moves {
      MovingMirrors(limits, runtime, s, action, now, notes, disk, cut);
      MirroredAgrees(o.state, Folded(limits, disk, ds[..cut]));
    } else {
      NoBootIsWritten(runtime, s, action, now, notes);
      OthersStayPut(runtime, s, action, now);
      AsideMirrors(limits, disk, ds, cut);
    }
  }

  lemma TopologyWritten(limits: StoreLimits, runtime: RuntimeLimits, s: RuntimeState, action: Action, now: nat,
                        notes: Notes, disk: StoreState, cut: nat)
    requires IsBacked(s, disk) && IsMirrored(s, disk) && NotesFit(s, action, now, notes) && action.SetTopology?
    requires Act(runtime, s, action, now).reply == Done && 0 < cut <= |Written(runtime, s, action, now, notes)|
    requires FenceAtLeast(s.fence, Act(runtime, s, action, now).state.fence)
    ensures DiskAgrees(Folded(limits, disk, Written(runtime, s, action, now, notes)[..cut])) <==> PolicyAgrees(s)
  {
    var ds, o := Written(runtime, s, action, now, notes), Act(runtime, s, action, now);
    MirroredAgrees(s, disk);
    if cut == 1 {
      assert ds[..1][0] == ds[0] && ds[..1][1..] == [];
    } else {
      ActionDecides(runtime, s, action, now);
      InstallMirrors(limits, runtime, s, action, now, notes, disk, cut);
      MirroredAgrees(o.state, Folded(limits, disk, ds[..cut]));
    }
  }

  // ----- Lives -----

  /** Whatever a crash cuts off, what is left agrees exactly then. */
  lemma WritingDecides(limits: StoreLimits, runtime: RuntimeLimits, s: RuntimeState, action: Action, now: nat,
                       notes: Notes, disk: StoreState, cut: nat)
    requires Reachable(s) && IsBacked(s, disk) && IsMirrored(s, disk) && NotesFit(s, action, now, notes)
    requires cut <= |Written(runtime, s, action, now, notes)|
    ensures DiskAgrees(Folded(limits, disk, Written(runtime, s, action, now, notes)[..cut]))
       <==> LeftAgrees(runtime, s, disk, action, now, cut)
  {
    if !InstallsPolicy(runtime, s, action, now) {
      OthersWritten(limits, runtime, s, action, now, notes, disk, cut);
    } else if cut > 0 {
      PolicyWritten(limits, runtime, s, action, now, notes, disk, cut);
    } else {
      MirroredAgrees(s, disk);
      assert Written(runtime, s, action, now, notes)[..0] == [];
    }
  }

  lemma SameAgrees(a: StoreState, b: StoreState)
    requires SameButGeneration(a, b)
    ensures DiskAgrees(a) <==> DiskAgrees(b)
  {
  }

  lemma LeftDecides(env: Env, limits: RuntimeLimits, x: Life, rs: seq<Record>, action: Action, at: nat, notes: Notes,
                    cut: nat)
    requires IsLiving(env, x, rs) && IsMirrored(x.runtime, x.store.state)
             && CanStop(env, limits, x, action, at, notes, cut)
    ensures DiskAgrees(LeftBehind(env, limits, x, action, at, notes, cut).state)
       <==> LeftAgrees(limits, x.runtime, x.store.state, action, at, cut)
  {
    var ds := Written(limits, x.runtime, action, at, notes);
    WritingDecides(env.limits, limits, x.runtime, action, at, notes, x.store.state, cut);
    NoBootIsWritten(limits, x.runtime, action, at, notes);
    var _ := StoredIsFolded(env, x.store, rs, ds[..cut]);
    SameAgrees(LeftBehind(env, limits, x, action, at, notes, cut).state, Folded(env.limits, x.store.state, ds[..cut]));
  }

  /** Exactly when the runtime restored after a crash in the middle of an operation has a fence that names its policy:
      not when a policy was written, its move of the fence was not, and the committed fence names another. */
  lemma CrashDecides(env: Env, limits: RuntimeLimits, x: Life, rs: seq<Record>, action: Action, at: nat, notes: Notes,
                     cut: nat, tear: Tear, producer: nat, now: nat)
    requires IsLiving(env, x, rs) && IsMirrored(x.runtime, x.store.state)
             && CanStop(env, limits, x, action, at, notes, cut)
    requires IsInBounds(env, LeftBehind(env, limits, x, action, at, notes, cut), Reopen(tear, producer, now))
    ensures var y := Reopened(env, limits, x, LeftBehind(env, limits, x, action, at, notes, cut), tear, producer, now);
            PolicyAgrees(y.runtime) <==> LeftAgrees(limits, x.runtime, x.store.state, action, at, cut)
  {
    var left := LeftBehind(env, limits, x, action, at, notes, cut);
    var before := LeftBehindHolds(env, limits, x, rs, action, at, notes, cut);
    LeftDecides(env, limits, x, rs, action, at, notes, cut);
    OpeningDecides(env, limits, x, left, before, tear, producer, now);
  }

  lemma RestoredDecides(limits: StoreLimits, runtime: RuntimeLimits, left: StoreState, disk: StoreState,
                        boot: BootRecord, now: nat)
    requires SameButGeneration(disk, Mutated(limits, left, Delta.AdvanceBoot(boot)))
    ensures PolicyAgrees(Restored(runtime, disk, boot.boot, boot.epoch, now)) <==> DiskAgrees(left)
  {
    RestartDecides(runtime, disk, boot.boot, boot.epoch, now);
  }

  lemma OpeningDecides(env: Env, limits: RuntimeLimits, x: Life, left: Store, before: seq<Record>, tear: Tear,
                       producer: nat, now: nat)
    requires Holds(env, left, before) && LedgerRises(left.state) && IsInBounds(env, left, Reopen(tear, producer, now))
    ensures PolicyAgrees(Reopened(env, limits, x, left, tear, producer, now).runtime) <==> DiskAgrees(left.state)
  {
    var _ := CrashIsReopened(env, left, before, tear, producer, now);
    var o := OpenDocument(env, left.file + TornBytes(env, tear), producer, now);
    RestoredDecides(env.limits, limits, left.state, o.store.state, o.boot, now);
  }

  /** A crash between the two records of a policy, under a committed fence that names another. */
  predicate Splits(limits: RuntimeLimits, x: Life, e: LifeEvent) {
    e.Crash? && InstallsPolicy(limits, x.runtime, e.during, e.at) && e.cut == 1
    && x.store.state.committedFence.policy !in {0, e.during.generation}
  }

  ghost predicate NoneSplits(env: Env, limits: RuntimeLimits, x: Life, es: seq<LifeEvent>) {
    es == [] || (NoneSplits(env, limits, x, es[..|es| - 1])
                 && !Splits(limits, LivedAll(env, limits, x, es[..|es| - 1]), es[|es| - 1]))
  }

  lemma EventAgrees(env: Env, limits: RuntimeLimits, x: Life, rs: seq<Record>, e: LifeEvent)
    requires IsLiving(env, x, rs) && IsMirrored(x.runtime, x.store.state) && CanLive(env, limits, x, e)
             && PolicyAgrees(x.runtime)
    ensures PolicyAgrees(Lived(env, limits, x, e).runtime) <==> !Splits(limits, x, e)
  {
    match e
    case Operate(action, now, _) => ActionDecides(limits, x.runtime, action, now);
    case Crash(action, at, notes, cut, tear, producer, now) =>
      CrashDecides(env, limits, x, rs, action, at, notes, cut, tear, producer, now);
    case Shut(_, _, _) =>
  }

  /** Through every life in which no crash splits a policy from its fence the two agree. */
  lemma {:induction false} LifeAgrees(env: Env, limits: RuntimeLimits, x: Life, rs: seq<Record>, es: seq<LifeEvent>)
    requires IsLiving(env, x, rs) && IsMirrored(x.runtime, x.store.state) && CanLiveAll(env, limits, x, es)
    requires PolicyAgrees(x.runtime) && NoneSplits(env, limits, x, es)
    ensures PolicyAgrees(LivedAll(env, limits, x, es).runtime)
    decreases |es|
  {
    if es != [] {
      var front, e := es[..|es| - 1], es[|es| - 1];
      var y := LivedAll(env, limits, x, front);
      LifeAgrees(env, limits, x, rs, front);
      FenceNeverFalls(env, limits, x, rs, front);
      var before := EveryLifeKeeps(env, limits, x, rs, front);
      EventAgrees(env, limits, y, before, e);
    }
  }

  /** The first policy of a new document splits when its generation is not one and the process dies between its
      records. */
  lemma FirstPolicySplits(env: Env, limits: RuntimeLimits, producer: nat, now: nat, e: LifeEvent)
    requires env.limits.maxBootRecords > 0 && Readability.IsId(producer) && Readability.IsId(now)
    requires OpenDocument(env, [], producer, now).Opened?
    requires e.Crash? && e.during.SetPolicy? && e.during.generation > 1 && e.cut == 1
    requires var o := OpenDocument(env, [], producer, now);
             CanLive(env, limits, Life(Restored(limits, o.store.state, o.boot.boot, o.boot.epoch, now), o.store), e)
    ensures var o := OpenDocument(env, [], producer, now);
            var x := Life(Restored(limits, o.store.state, o.boot.boot, o.boot.epoch, now), o.store);
            Splits(limits, x, e) && !PolicyAgrees(Lived(env, limits, x, e).runtime)
  {
    var o := OpenDocument(env, [], producer, now);
    var x := Life(Restored(limits, o.store.state, o.boot.boot, o.boot.epoch, now), o.store);
    var rs := LifeBegins(env, limits, producer, now);
    NewLifeIsMirrored(env, limits, producer, now);
    NewPolicyFence(env, limits, producer, now);
    EventAgrees(env, limits, x, rs, e);
  }

  /** A new document has no policy, and a fence at one. */
  lemma NewPolicyFence(env: Env, limits: RuntimeLimits, producer: nat, now: nat)
    requires env.limits.maxBootRecords > 0 && Readability.IsId(producer) && Readability.IsId(now)
    requires OpenDocument(env, [], producer, now).Opened?
    ensures var s := OpenDocument(env, [], producer, now).store.state; s.policy.None? && s.committedFence.policy == 1
  {
    var _ := FreshDocumentHolds(env, producer, now);
  }
}
