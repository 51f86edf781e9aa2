/** The fence through crashes and restarts: that no part of it ever falls, and exactly when it still agrees with the
    policy that is installed. */
module FenceLives {
  import opened Journal
  import opened Topology
  import opened Evidence
  import opened StoreState
  import opened StoreModel
  import opened Lifecycle
  import opened RuntimeRuns
  import opened Lives
  import Containment
  import Planner
  import Readability

  // ----- Memory mirrors what is durable -----

  /** What a restart would restore, but for its boot. */
  function DurableFence(disk: StoreState): FenceVector {
    RestoredFence(disk, disk.committedFence.boot, disk.committedFence.epoch)
  }

  /** The boot of the committed fence is recorded, and what is durable has a generation. */
  predicate IsSettled(disk: StoreState) {
    && HasBoot(disk.bootLedger, disk.committedFence.boot)
    && (disk.topology.Some? ==> disk.topology.value.generation != 0)
    && (disk.policy.Some? ==> disk.policy.value.generation != 0)
  }

  /** The fence in memory is the one a restart would restore, but for its boot. */
  predicate IsMirrored(s: RuntimeState, disk: StoreState) {
    s.fence == DurableFence(disk) && IsSettled(disk)
  }

  /** No part of the fence is zero, and its topology is the one installed. */
  predicate FenceStands(s: RuntimeState) {
    && s.fence.topology == AtLeastOne(s.topology, 1)
    && s.fence.forwarding != 0 && s.fence.policy != 0 && s.fence.fabricEpoch != 0
  }

  lemma MirroredStands(s: RuntimeState, disk: StoreState)
    requires IsBacked(s, disk) && IsMirrored(s, disk)
    ensures FenceStands(s)
  {
  }

  lemma ActionStands(limits: RuntimeLimits, s: RuntimeState, action: Action, now: nat)
    requires FenceStands(s)
    ensures FenceStands(Act(limits, s, action, now).state)
    ensures Act(limits, s, action, now).state.fence.boot == s.fence.boot
  {
  }

  /** Neither definitions nor the committed fence, nor the boots recorded, are touched. */
  predicate FencePartSame(a: StoreState, b: StoreState) {
    b.topology == a.topology && b.policy == a.policy && b.committedFence == a.committedFence
      && b.bootLedger == a.bootLedger
  }

  lemma AsideMirrors(limits: StoreLimits, disk: StoreState, ds: seq<Delta>, cut: nat)
    requires cut <= |ds| && forall i {:trigger ds[i]} :: 0 <= i < |ds| ==> IsAside(ds[i]) && !ds[i].NoteShutdown?
    ensures FencePartSame(disk, Folded(limits, disk, ds[..cut]))
  {
    AsideFolded(limits, disk, ds[..cut]);
    LedgerStays(limits, disk, ds[..cut]);
  }

  /** Once its record is written the fence is the one a restart restores. */
  lemma MoveMirrors(limits: StoreLimits, disk: StoreState, after: RuntimeState, ds: seq<Delta>, cut: nat)
    requires IsMove(ds, after) && 0 < cut <= |ds| && forall i {:trigger ds[i]} :: 0 <= i < |ds| ==> !ds[i].NoteShutdown?
    requires FenceStands(after) && HasBoot(disk.bootLedger, after.fence.boot)
    requires after.topology == TopologyGeneration(disk) && after.policy == PolicyGeneration(disk)
    requires disk.topology.Some? ==> disk.topology.value.generation != 0
    requires disk.policy.Some? ==> disk.policy.value.generation != 0
    ensures IsMirrored(after, Folded(limits, disk, ds[..cut]))
    ensures PolicyGeneration(Folded(limits, disk, ds[..cut])) == after.policy
  {
    var moved := Mutated(limits, disk, ds[0]);
    assert ds[..cut][0] == ds[0] && ds[..cut][1..] == ds[1..][..cut - 1];
    AsideMirrors(limits, moved, ds[1..], cut - 1);
    assert IsMirrored(after, moved);
  }

  /** What a definition that is durable, and no more, makes of the fence a restart restores. */
  lemma InstallRaises(limits: StoreLimits, runtime: RuntimeLimits, s: RuntimeState, action: Action, now: nat,
                      notes: Notes, disk: StoreState)
    requires IsBacked(s, disk) && IsMirrored(s, disk) && NotesFit(s, action, now, notes)
             && (action.SetTopology? || action.SetPolicy?)
    requires Act(runtime, s, action, now).reply == Done
    ensures FenceAtLeast(s.fence, DurableFence(Mutated(limits, disk, Written(runtime, s, action, now, notes)[0])))
  {
  }

  /** A restart restores no less than this fence. */
  predicate RestoresNoLess(fence: FenceVector, left: StoreState) {
    FenceAtLeast(fence, DurableFence(left)) && IsSettled(left)
  }

  lemma InstallMirrors(limits: StoreLimits, runtime: RuntimeLimits, s: RuntimeState, action: Action, now: nat,
                       notes: Notes, disk: StoreState, cut: nat)
    requires IsBacked(s, disk) && IsMirrored(s, disk) && NotesFit(s, action, now, notes)
             && (action.SetTopology? || action.SetPolicy?)
    requires Act(runtime, s, action, now).reply == Done && 0 < cut <= |Written(runtime, s, action, now, notes)|
    requires FenceAtLeast(s.fence, Act(runtime, s, action, now).state.fence)
    ensures var ds, o := Written(runtime, s, action, now, notes), Act(runtime, s, action, now);
            && RestoresNoLess(s.fence, Folded(limits, disk, ds[..cut]))
            && (cut > 1 ==> IsMirrored(o.state, Folded(limits, disk, ds[..cut])))
            && (cut > 1 ==> PolicyGeneration(Folded(limits, disk, ds[..cut])) == o.state.policy)
  {
    var ds, o := Written(runtime, s, action, now, notes), Act(runtime, s, action, now);
    var installed := Mutated(limits, disk, ds[0]);
    InstallMoves(limits, s, action, now, notes, disk, runtime);
    InstallRaises(limits, runtime, s, action, now, notes, disk);
    NoBootIsWritten(runtime, s, action, now, notes);
    assert ds[..cut][0] == ds[0] && ds[..cut][1..] == ds[1..][..cut - 1];
    if cut == 1 {
      assert ds[1..][..0] == [];
      assert Folded(limits, disk, ds[..cut]) == installed;
      assert installed.bootLedger == disk.bootLedger && installed.committedFence == disk.committedFence;
    } else {
      MirroredStands(s, disk);
      ActionStands(runtime, s, action, now);
      MoveMirrors(limits, installed, o.state, ds[1..], cut - 1);
    }
  }

  lemma MovingMirrors(limits: StoreLimits, runtime: RuntimeLimits, s: RuntimeState, action: Action, now: nat,
                      notes: Notes, disk: StoreState, cut: nat)
    requires IsBacked(s, disk) && IsMirrored(s, disk)
    requires action.AdvanceForwarding? || action.AdvanceFabricEpoch? || action.AdvanceEpoch?
    requires Act(runtime, s, action, now).reply == Done && 0 < cut <= |Written(runtime, s, action, now, notes)|
    requires FenceAtLeast(s.fence, Act(runtime, s, action, now).state.fence)
    ensures var left := Folded(limits, disk, Written(runtime, s, action, now, notes)[..cut]);
            && RestoresNoLess(s.fence, left) && IsMirrored(Act(runtime, s, action, now).state, left)
            && PolicyGeneration(left) == Act(runtime, s, action, now).state.policy
  {
    MirroredStands(s, disk);
    ActionStands(runtime, s, action, now);
    NoBootIsWritten(runtime, s, action, now, notes);
    MoveMirrors(limits, disk, Act(runtime, s, action, now).state, Written(runtime, s, action, now, notes), cut);
  }

  /** However many records of an operation were written, a restart restores no less than the fence before it; and when
      all of them were, exactly the fence behind it. */
  lemma WritingMirrors(limits: StoreLimits, s: RuntimeState, action: Action, now: nat, notes: Notes, disk: StoreState,
                       cut: nat, runtime: RuntimeLimits)
    requires Reachable(s) && IsBacked(s, disk) && IsMirrored(s, disk) && NotesFit(s, action, now, notes)
    requires cut <= |Written(runtime, s, action, now, notes)|
    ensures var ds := Written(runtime, s, action, now, notes);
            && RestoresNoLess(s.fence, Folded(limits, disk, ds[..cut]))
            && (cut == |ds| ==> IsMirrored(Act(runtime, s, action, now).state, Folded(limits, disk, ds)))
  {
    var o := Act(runtime, s, action, now);
    var ds := Written(runtime, s, action, now, notes);
    assert cut == |ds| ==> ds[..cut] == ds;
    ActionKeeps(runtime, s, action, now);
    var installs := (action.SetTopology? || action.SetPolicy?) && o.reply == Done;
    var moves := (action.AdvanceForwarding? || action.AdvanceFabricEpoch? || action.AdvanceEpoch?) && o.reply == Done;
    if installs && cut > 0 {
      InstallMirrors(limits, runtime, s, action, now, notes, disk, cut);
    } else if moves && cut > 0 {
      MovingMirrors(limits, runtime, s, action, now, notes, disk, cut);
    } else if installs || moves {
      assert ds[..0] == [];
    } else {
      NoBootIsWritten(runtime, s, action, now, notes);
      OthersStayPut(runtime, s, action, now);
      AsideMirrors(limits, disk, ds, cut);
    }
  }

  // ----- Lives -----

  /** What an open makes of what was left behind. */
  lemma ReopeningRaises(env: Env, limits: RuntimeLimits, fence: FenceVector, left: StoreState, disk: StoreState,
                        boot: BootRecord, now: nat)
    requires RestoresNoLess(fence, left) && IsAbove(boot, left)
    requires SameButGeneration(disk, Mutated(env.limits, left, Delta.AdvanceBoot(boot)))
    ensures var y := Restored(limits, disk, boot.boot, boot.epoch, now);
            && FenceAtLeast(fence, y.fence) && fence.boot < y.fence.boot && fence.epoch < y.fence.epoch
            && IsMirrored(y, disk)
  {
    var i :| 0 <= i < |left.bootLedger| && left.bootLedger[i].boot == left.committedFence.boot;
    assert left.bootLedger[i].boot < boot.boot;
    assert disk.bootLedger[|left.bootLedger|] == boot;
  }

  lemma SameRestores(fence: FenceVector, a: StoreState, b: StoreState)
    requires SameButGeneration(a, b) && RestoresNoLess(fence, b)
    ensures RestoresNoLess(fence, a)
  {
  }

  lemma LeftRestores(env: Env, limits: RuntimeLimits, x: Life, rs: seq<Record>, action: Action, at: nat, notes: Notes,
                     cut: nat)
    requires IsLiving(env, x, rs) && IsMirrored(x.runtime, x.store.state)
             && CanStop(env, limits, x, action, at, notes, cut)
    ensures RestoresNoLess(x.runtime.fence, LeftBehind(env, limits, x, action, at, notes, cut).state)
  {
    var ds := Written(limits, x.runtime, action, at, notes);
    WritingMirrors(env.limits, x.runtime, action, at, notes, x.store.state, cut, limits);
    NoBootIsWritten(limits, x.runtime, action, at, notes);
    var _ := StoredIsFolded(env, x.store, rs, ds[..cut]);
    SameRestores(x.runtime.fence, LeftBehind(env, limits, x, action, at, notes, cut).state,
                 Folded(env.limits, x.store.state, ds[..cut]));
  }

  /** After a crash in the middle of an operation and a restart no part of the fence is below what it was before the
      operation, boot and epoch are above, and the fence in memory is again the one a restart would restore. */
  lemma CrashRaisesFence(env: Env, limits: RuntimeLimits, x: Life, rs: seq<Record>, action: Action, at: nat,
                         notes: Notes, cut: nat, tear: Tear, producer: nat, now: nat)
    requires IsLiving(env, x, rs) && IsMirrored(x.runtime, x.store.state)
             && CanStop(env, limits, x, action, at, notes, cut)
    requires IsInBounds(env, LeftBehind(env, limits, x, action, at, notes, cut), Reopen(tear, producer, now))
    ensures var y := Reopened(env, limits, x, LeftBehind(env, limits, x, action, at, notes, cut), tear, producer, now);
            && FenceAtLeast(x.runtime.fence, y.runtime.fence) && IsMirrored(y.runtime, y.store.state)
            && x.runtime.fence.boot < y.runtime.fence.boot && x.runtime.fence.epoch < y.runtime.fence.epoch
  {
    var left := LeftBehind(env, limits, x, action, at, notes, cut);
    var before := LeftBehindHolds(env, limits, x, rs, action, at, notes, cut);
    LeftRestores(env, limits, x, rs, action, at, notes, cut);
    OpeningRaises(env, limits, x, left, before, tear, producer, now);
  }

  lemma OpeningRaises(env: Env, limits: RuntimeLimits, x: Life, left: Store, before: seq<Record>, tear: Tear,
                      producer: nat, now: nat)
    requires Holds(env, left, before) && LedgerRises(left.state) && IsInBounds(env, left, Reopen(tear, producer, now))
    requires RestoresNoLess(x.runtime.fence, left.state)
    ensures var y := Reopened(env, limits, x, left, tear, producer, now);
            && FenceAtLeast(x.runtime.fence, y.runtime.fence) && IsMirrored(y.runtime, y.store.state)
            && x.runtime.fence.boot < y.runtime.fence.boot && x.runtime.fence.epoch < y.runtime.fence.epoch
  {
    var _ := CrashIsReopened(env, left, before, tear, producer, now);
    var o := OpenDocument(env, left.file + TornBytes(env, tear), producer, now);
    ReopeningRaises(env, limits, x.runtime.fence, left.state, o.store.state, o.boot, now);
  }

  /** The fence has not fallen, and is the one a restart would restore. */
  predicate HasClimbed(fence: FenceVector, y: Life) {
    FenceAtLeast(fence, y.runtime.fence) && IsMirrored(y.runtime, y.store.state)
  }

  lemma OperationRaises(env: Env, limits: RuntimeLimits, x: Life, rs: seq<Record>, e: LifeEvent)
    requires IsLiving(env, x, rs) && IsMirrored(x.runtime, x.store.state) && CanLive(env, limits, x, e) && e.Operate?
    ensures HasClimbed(x.runtime.fence, Lived(env, limits, x, e))
  {
    var ds := Written(limits, x.runtime, e.action, e.now, e.notes);
    NoBootIsWritten(limits, x.runtime, e.action, e.now, e.notes);
    var _ := StoredIsFolded(env, x.store, rs, ds);
    WritingMirrors(env.limits, x.runtime, e.action, e.now, e.notes, x.store.state, |ds|, limits);
    ActionKeeps(limits, x.runtime, e.action, e.now);
  }

  lemma ShutMirrors(limits: StoreLimits, s: RuntimeState, disk: StoreState, after: StoreState, d: Delta)
    requires IsMirrored(s, disk) && d.NoteShutdown? && SameButGeneration(after, Mutated(limits, disk, d))
    ensures IsMirrored(s, after)
  {
    var i :| 0 <= i < |disk.bootLedger| && disk.bootLedger[i].boot == disk.committedFence.boot;
    ClosingKeepsNumbers(disk.bootLedger, d.closed, d.clean, d.closedAt, i);
    assert after.bootLedger[i].boot == disk.committedFence.boot;
  }

  lemma ShuttingMirrors(env: Env, limits: RuntimeLimits, x: Life, rs: seq<Record>, e: LifeEvent)
    requires IsLiving(env, x, rs) && IsMirrored(x.runtime, x.store.state) && CanLive(env, limits, x, e) && e.Shut?
    ensures Lived(env, limits, x, e).runtime == x.runtime
    ensures IsMirrored(x.runtime, Lived(env, limits, x, e).store.state)
  {
    var d := NoteShutdown(e.boot, e.clean, e.when);
    var _ := MutationKeeps(env, x.store, rs, d);
    ShutMirrors(env.limits, x.runtime, x.store.state, Lived(env, limits, x, e).store.state, d);
  }

  lemma EventRaises(env: Env, limits: RuntimeLimits, x: Life, rs: seq<Record>, e: LifeEvent)
    requires IsLiving(env, x, rs) && IsMirrored(x.runtime, x.store.state) && CanLive(env, limits, x, e)
    ensures HasClimbed(x.runtime.fence, Lived(env, limits, x, e))
  {
    match e
    case Operate(_, _, _) => OperationRaises(env, limits, x, rs, e);
    case Crash(action, at, notes, cut, tear, producer, now) =>
      CrashRaisesFence(env, limits, x, rs, action, at, notes, cut, tear, producer, now);
    case Shut(_, _, _) => ShuttingMirrors(env, limits, x, rs, e);
  }

  lemma FenceClimbs(a: FenceVector, b: FenceVector, c: FenceVector)
    requires FenceAtLeast(a, b) && FenceAtLeast(b, c)
    ensures FenceAtLeast(a, c)
  {
  }

  /** Through every sequence of operations, crashes in the middle of one, restarts and shutdowns no part of the fence
      ever falls. */
  lemma {:induction false} FenceNeverFalls(env: Env, limits: RuntimeLimits, x: Life, rs: seq<Record>,
                                           es: seq<LifeEvent>)
    requires IsLiving(env, x, rs) && IsMirrored(x.runtime, x.store.state) && CanLiveAll(env, limits, x, es)
    ensures HasClimbed(x.runtime.fence, LivedAll(env, limits, x, es))
    decreases |es|
  {
    if es != [] {
      var front, e := es[..|es| - 1], es[|es| - 1];
      var y := LivedAll(env, limits, x, front);
      FenceNeverFalls(env, limits, x, rs, front);
      var before := EveryLifeKeeps(env, limits, x, rs, front);
      EventRaises(env, limits, y, before, e);
      FenceClimbs(x.runtime.fence, y.runtime.fence, LivedAll(env, limits, x, es).runtime.fence);
    }
  }

  /** A life over a new document begins that way. */
  lemma NewLifeIsMirrored(env: Env, limits: RuntimeLimits, producer: nat, now: nat)
    requires env.limits.maxBootRecords > 0 && Readability.IsId(producer) && Readability.IsId(now)
    ensures var o := OpenDocument(env, [], producer, now);
            o.Opened? && IsMirrored(Restored(limits, o.store.state, o.boot.boot, o.boot.epoch, now), o.store.state)
  {
    var _ := FreshDocumentHolds(env, producer, now);
    var o := OpenDocument(env, [], producer, now);
    assert o.store.state.bootLedger[0].boot == o.store.state.committedFence.boot;
  }
}
