/** The runtime and its durable store together: what operations write, what a crash in the middle of one leaves, and
    what a restart makes of it. */
module Lives {
  import opened Journal
  import opened Topology
  import opened Evidence
  import opened Findings
  import opened StoreState
  import opened StoreModel
  import opened Lifecycle
  import opened RuntimeRuns
  import Planner
  import Readability
  import TopologyCodec

  // ----- What an operation writes -----

  /** What the records of an operation say beside what the lifecycle keeps. */
  datatype Notes = Notes(
    document: TopologyCodec.Document, policy: Planner.ContainmentPolicy, finding: StoredFinding, lineage: LineageRecord,
    reason: nat)

  /** A finding as it is published and as it is written down. */
  predicate IsWrittenAs(f: Finding, g: StoredFinding) {
    && g.id == f.id && g.generation == f.generation && g.assessment == f.assessment && g.fence == f.fence
    && g.state == f.state && g.cause == f.cause && g.plan == f.plan && g.intent == 0
    && g.createdAt == f.createdAt && g.updatedAt == f.updatedAt
  }

  predicate NotesFit(s: RuntimeState, action: Action, now: nat, notes: Notes) {
    match action
    case SetTopology(generation) => notes.document.generation == generation
    case SetPolicy(generation) => notes.policy.generation == generation
    case Publish(a, id) =>
      IsWrittenAs(Finding(id, NextGeneration(s.findings), a.id, a.fence, FindingState.Confirmed, NoCause, 0, None, now,
                          now), notes.finding)
    case _ => true
  }

  /** The finding is written before it is registered, and stays written when it is not. */
  predicate IsUpserted(s: RuntimeState, a: Assessment) {
    a.confirmed && a.fence == s.fence && a.witnesses != 0 && s.topology != 0 && s.topology == a.fence.topology
      && a.stillValid
  }

  /** The records an operation writes, in their order. */
  function Written(limits: RuntimeLimits, s: RuntimeState, action: Action, now: nat, notes: Notes): seq<Delta> {
    var o := Act(limits, s, action, now);
    var said := [AppendLineage(notes.lineage)];
    match action
    case SetTopology(_) =>
      if o.reply == Done then [Delta.SetTopology(notes.document), Delta.AdvanceFence(o.state.fence)] + said else []
    case SetPolicy(_) => if o.reply == Done then [Delta.SetPolicy(notes.policy), Delta.AdvanceFence(o.state.fence)]
      else []
    case Publish(a, _) => if !IsUpserted(s, a) then []
      else [UpsertFinding(notes.finding)] + (if o.reply == Done then said else [])
    case Plan(of, _) => if o.reply == Done && FindingFor(s.findings, of).Some? then said else []
    case Authorize(_, _, _, _) => if o.reply == Done then said else []
    case Acknowledge(intent) => if intent in s.applications && o.reply !in {IsFenced, IsExhausted} then said else []
    case RecordEffect(intent, _) => if o.state != s || o.reply == Done then said else []
    case Withdraw(finding) =>
      if o.reply == IsNotFound then []
         else [Delta.WithdrawFinding(Withdrawal(finding, ExplicitWithdrawal, now, notes.reason))] + said
    case _ => if o.reply == Done then [Delta.AdvanceFence(o.state.fence)] + said else []
  }

  /** What records make of the durable state, one behind the other. */
  function Folded(limits: StoreLimits, disk: StoreState, ds: seq<Delta>): StoreState
    decreases |ds|
  {
    if ds == [] then disk else Folded(limits, Mutated(limits, disk, ds[0]), ds[1..])
  }

  // ----- Memory is backed -----

  function PolicyGeneration(disk: StoreState): nat {
    if disk.policy.Some? then disk.policy.value.generation else 0
  }

  function TopologyGeneration(disk: StoreState): nat {
    if disk.topology.Some? then disk.topology.value.generation else 0
  }

  /** The durable fence is not ahead of the definitions that are durable. */
  predicate FenceIsBacked(disk: StoreState) {
    && disk.committedFence.topology <= AtLeastOne(TopologyGeneration(disk), 1)
    && disk.committedFence.policy <= AtLeastOne(PolicyGeneration(disk), 1)
  }

  /** What is installed in memory is durable, and the durable fence is not ahead of the one in memory. */
  predicate IsBacked(s: RuntimeState, disk: StoreState) {
    && s.topology == TopologyGeneration(disk) && s.policy == PolicyGeneration(disk)
    && FenceIsBacked(disk) && FenceAtLeast(disk.committedFence, s.fence)
  }

  /** A record that touches neither definitions nor the fence. */
  predicate IsAside(d: Delta) {
    d.AppendLineage? || d.UpsertFinding? || d.WithdrawFinding? || d.NoteShutdown?
  }

  lemma {:induction false} AsideFolded(limits: StoreLimits, disk: StoreState, ds: seq<Delta>)
    requires forall i {:trigger ds[i]} :: 0 <= i < |ds| ==> IsAside(ds[i])
    ensures var after := Folded(limits, disk, ds);
            after.topology == disk.topology && after.policy == disk.policy
              && after.committedFence == disk.committedFence
    decreases |ds|
  {
    if ds != [] {
      AsideFolded(limits, Mutated(limits, disk, ds[0]), ds[1..]);
    }
  }

  /** What may be written on the way from one fence to another: the definition first, then the fence, then the rest. */
  predicate IsMove(ds: seq<Delta>, after: RuntimeState) {
    && |ds| >= 1 && ds[0] == Delta.AdvanceFence(after.fence)
    && forall i {:trigger ds[i]} :: 1 <= i < |ds| ==> IsAside(ds[i])
  }

  /** The definitions that are durable are the ones in memory after the move, and the durable fence was not ahead of
      them. */
  lemma MoveIsBacked(limits: StoreLimits, disk: StoreState, after: RuntimeState, ds: seq<Delta>, cut: nat)
    requires Reachable(after) && IsMove(ds, after) && cut <= |ds| && FenceIsBacked(disk)
    requires after.topology == TopologyGeneration(disk) && after.policy == PolicyGeneration(disk)
    ensures FenceIsBacked(Folded(limits, disk, ds[..cut]))
    ensures cut == |ds| ==> IsBacked(after, Folded(limits, disk, ds))
  {
    if cut > 0 {
      var moved := Mutated(limits, disk, ds[0]);
      assert ds[..cut][0] == ds[0] && ds[..cut][1..] == ds[1..cut];
      AsideFolded(limits, moved, ds[1..cut]);
      assert cut == |ds| ==> ds[..cut] == ds;
    }
  }

  lemma AsideIsBacked(limits: StoreLimits, disk: StoreState, s: RuntimeState, after: RuntimeState, ds: seq<Delta>,
                      cut: nat)
    requires IsBacked(s, disk) && cut <= |ds| && forall i {:trigger ds[i]} :: 0 <= i < |ds| ==> IsAside(ds[i])
    requires after.topology == s.topology && after.policy == s.policy && after.fence == s.fence
    ensures FenceIsBacked(Folded(limits, disk, ds[..cut]))
    ensures cut == |ds| ==> IsBacked(after, Folded(limits, disk, ds))
  {
    AsideFolded(limits, disk, ds[..cut]);
    assert cut == |ds| ==> ds[..cut] == ds;
  }

  lemma InstallMoves(limits: StoreLimits, s: RuntimeState, action: Action, now: nat, notes: Notes, disk: StoreState,
                     runtime: RuntimeLimits)
    requires IsBacked(s, disk) && NotesFit(s, action, now, notes) && (action.SetTopology? || action.SetPolicy?)
    requires Act(runtime, s, action, now).reply == Done
    ensures var ds, after := Written(runtime, s, action, now, notes), Act(runtime, s, action, now).state;
            && |ds| >= 2 && IsMove(ds[1..], after) && FenceIsBacked(Mutated(limits, disk, ds[0]))
            && after.topology == TopologyGeneration(Mutated(limits, disk, ds[0]))
            && after.policy == PolicyGeneration(Mutated(limits, disk, ds[0]))
  {
    var ds, after := Written(runtime, s, action, now, notes), Act(runtime, s, action, now).state;
    assert ds[1] == Delta.AdvanceFence(after.fence);
    if action.SetTopology? {
      assert ds[1..] == [Delta.AdvanceFence(after.fence), AppendLineage(notes.lineage)];
    } else {
      assert ds[1..] == [Delta.AdvanceFence(after.fence)];
    }
  }

  /** A definition is written in front of the move to it. */
  lemma InstallIsBacked(limits: StoreLimits, s: RuntimeState, action: Action, now: nat, notes: Notes, disk: StoreState,
                        cut: nat, runtime: RuntimeLimits)
    requires Reachable(s) && IsBacked(s, disk) && NotesFit(s, action, now, notes)
             && (action.SetTopology? || action.SetPolicy?)
    requires Reachable(Act(runtime, s, action, now).state)
    requires Act(runtime, s, action, now).reply == Done
    requires cut <= |Written(runtime, s, action, now, notes)|
    ensures var ds := Written(runtime, s, action, now, notes);
            && FenceIsBacked(Folded(limits, disk, ds[..cut]))
            && (cut == |ds| ==> IsBacked(Act(runtime, s, action, now).state, Folded(limits, disk, ds)))
  {
    var after := Act(runtime, s, action, now).state;
    var ds := Written(runtime, s, action, now, notes);
    if cut > 0 {
      var installed := Mutated(limits, disk, ds[0]);
      InstallMoves(limits, s, action, now, notes, disk, runtime);
      MoveIsBacked(limits, installed, after, ds[1..], cut - 1);
      assert ds[..cut][0] == ds[0] && ds[..cut][1..] == ds[1..][..cut - 1];
    }
  }

  /** However many records of an operation were written, the durable fence is not ahead of the durable definitions; and
      when all of them were, memory is backed again. */
  lemma WritingIsBacked(limits: StoreLimits, s: RuntimeState, action: Action, now: nat, notes: Notes, disk: StoreState,
                        cut: nat, runtime: RuntimeLimits)
    requires Reachable(s) && IsBacked(s, disk) && NotesFit(s, action, now, notes)
             && cut <= |Written(runtime, s, action, now, notes)|
    ensures var ds := Written(runtime, s, action, now, notes);
            && FenceIsBacked(Folded(limits, disk, ds[..cut]))
            && (cut == |ds| ==> IsBacked(Act(runtime, s, action, now).state, Folded(limits, disk, ds)))
  {
    var o := Act(runtime, s, action, now);
    var ds := Written(runtime, s, action, now, notes);
    ActionKeeps(runtime, s, action, now);
    if (action.SetTopology? || action.SetPolicy?) && o.reply == Done {
      InstallIsBacked(limits, s, action, now, notes, disk, cut, runtime);
    } else if (action.AdvanceForwarding? || action.AdvanceFabricEpoch? || action.AdvanceEpoch?) && o.reply == Done {
      MoveIsBacked(limits, disk, o.state, ds, cut);
    } else {
      OthersStayPut(runtime, s, action, now);
      AsideIsBacked(limits, disk, s, o.state, ds, cut);
    }
  }

  lemma OthersStayPut(runtime: RuntimeLimits, s: RuntimeState, action: Action, now: nat)
    requires var moves := action.SetTopology? || action.SetPolicy? || action.AdvanceForwarding?
             || action.AdvanceFabricEpoch? || action.AdvanceEpoch?;
             moves ==> Act(runtime, s, action, now).reply != Done
    ensures var after := Act(runtime, s, action, now).state;
            after.topology == s.topology && after.policy == s.policy && after.fence == s.fence
  {
  }

  // ----- Lives -----

  datatype Life = Life(runtime: RuntimeState, store: Store)

  /** An operation runs to its end; or the process dies when `cut` of its records are written, perhaps tearing the next,
      and the document is opened again; or the boot is noted as cleanly ended. */
  datatype LifeEvent =
    | Operate(action: Action, now: nat, notes: Notes)
    | Crash(during: Action, at: nat, noted: Notes, cut: nat, tear: Tear, producer: nat, reopened: nat)
    | Shut(boot: nat, clean: bool, when: nat)

  function Mutations(ds: seq<Delta>): (es: seq<Event>)
    ensures |es| == |ds|
  {
    seq(|ds|, i requires 0 <= i < |ds| => Mutate(ds[i]))
  }

  /** What only the first `cut` records of an operation leave behind. */
  ghost function LeftBehind(env: Env, limits: RuntimeLimits, x: Life, action: Action, now: nat, notes: Notes,
                            cut: nat): Store
    requires cut <= |Written(limits, x.runtime, action, now, notes)|
  {
    AfterAll(env, x.store, Mutations(Written(limits, x.runtime, action, now, notes)[..cut]))
  }

  /** The life of a runtime restored from what was opened. */
  function LifeFrom(limits: RuntimeLimits, o: Opening, now: nat): Life
    requires o.Opened?
  {
    Life(Restored(limits, o.store.state, o.boot.boot, o.boot.epoch, now), o.store)
  }

  /** The life that goes on when what was left behind is opened again. */
  ghost function Reopened(env: Env, limits: RuntimeLimits, x: Life, left: Store, tear: Tear, producer: nat,
                          now: nat): Life {
    if !IsTear(env, tear) then x else
      var o := OpenDocument(env, left.file + TornBytes(env, tear), producer, now);
      if o.NotOpened? then x else LifeFrom(limits, o, now)
  }

  /** The records up to the cut are in bounds. */
  ghost predicate CanStop(env: Env, limits: RuntimeLimits, x: Life, action: Action, now: nat, notes: Notes, cut: nat) {
    && NotesFit(x.runtime, action, now, notes) && cut <= |Written(limits, x.runtime, action, now, notes)|
    && AllInBounds(env, x.store, Mutations(Written(limits, x.runtime, action, now, notes)[..cut]))
  }

  ghost function Lived(env: Env, limits: RuntimeLimits, x: Life, e: LifeEvent): Life {
    match e
    case Operate(action, now, notes) =>
      Life(Act(limits, x.runtime, action, now).state,
           AfterAll(env, x.store, Mutations(Written(limits, x.runtime, action, now, notes))))
    case Crash(action, now, notes, cut, tear, producer, reopened) =>
      if cut > |Written(limits, x.runtime, action, now, notes)| then x
      else Reopened(env, limits, x, LeftBehind(env, limits, x, action, now, notes, cut), tear, producer, reopened)
    case Shut(boot, clean, when) => x.(store := Mutation(env, x.store, NoteShutdown(boot, clean, when)).store)
  }

  /** Every record written is in bounds, and a document left behind can be opened again. */
  ghost predicate CanLive(env: Env, limits: RuntimeLimits, x: Life, e: LifeEvent) {
    match e
    case Operate(action, now, notes) =>
      && NotesFit(x.runtime, action, now, notes)
      && AllInBounds(env, x.store, Mutations(Written(limits, x.runtime, action, now, notes)))
    case Crash(action, now, notes, cut, tear, producer, reopened) =>
      && CanStop(env, limits, x, action, now, notes, cut)
      && IsInBounds(env, LeftBehind(env, limits, x, action, now, notes, cut), Reopen(tear, producer, reopened))
    case Shut(boot, clean, when) => InBounds(env, x.store, NoteShutdown(boot, clean, when))
  }

  /** What every moment of a life keeps: the document refines the store, the runtime is in a state that runs keep to,
      what it has installed is durable, and boots have risen. */
  ghost predicate IsLiving(env: Env, x: Life, rs: seq<Record>) {
    Holds(env, x.store, rs) && Reachable(x.runtime) && IsBacked(x.runtime, x.store.state) && LedgerRises(x.store.state)
  }

  /** Records applied by the store, compactions or not, come to the records folded. */
  lemma {:induction false} StoredIsFolded(env: Env, v: Store, rs: seq<Record>, ds: seq<Delta>)
    returns (rs': seq<Record>)
    requires Holds(env, v, rs) && LedgerRises(v.state) && AllInBounds(env, v, Mutations(ds))
    requires forall i {:trigger ds[i]} :: 0 <= i < |ds| ==> !ds[i].AdvanceBoot?
    ensures var w := AfterAll(env, v, Mutations(ds));
            Holds(env, w, rs') && LedgerRises(w.state) && SameButGeneration(w.state, Folded(env.limits, v.state, ds))
    decreases |ds|
  {
    rs' := rs;
    if ds != [] {
      var n := |ds| - 1;
      assert Mutations(ds)[..n] == Mutations(ds[..n]);
      var before := StoredIsFolded(env, v, rs, ds[..n]);
      var w := AfterAll(env, v, Mutations(ds[..n]));
      assert Mutations(ds)[n] == Mutate(ds[n]) && !ds[n].AdvanceBoot?;
      rs' := MutationKeeps(env, w, before, ds[n]);
      RisingStays(env.limits, w.state, ds[n]);
      FoldedLast(env.limits, v.state, ds);
      SameAfterCompaction(env.limits, w.state, Folded(env.limits, v.state, ds[..n]), ds[n]);
    }
  }

  lemma {:induction false} FoldedLast(limits: StoreLimits, disk: StoreState, ds: seq<Delta>)
    requires ds != []
    ensures Folded(limits, disk, ds) == Mutated(limits, Folded(limits, disk, ds[..|ds| - 1]), ds[|ds| - 1])
    decreases |ds|
  {
    if |ds| > 1 {
      FoldedLast(limits, Mutated(limits, disk, ds[0]), ds[1..]);
      assert ds[1..][..|ds| - 2] == ds[..|ds| - 1][1..];
    }
  }

  lemma NoBootIsWritten(limits: RuntimeLimits, s: RuntimeState, action: Action, now: nat, notes: Notes)
    ensures var ds := Written(limits, s, action, now, notes); forall i {:trigger ds[i]} :: 0 <= i < |ds| ==>
            !ds[i].AdvanceBoot? && !ds[i].NoteShutdown?
  {
  }

  lemma OperationLives(env: Env, limits: RuntimeLimits, x: Life, rs: seq<Record>, e: LifeEvent)
    returns (rs': seq<Record>)
    requires IsLiving(env, x, rs) && CanLive(env, limits, x, e) && e.Operate?
    ensures IsLiving(env, Lived(env, limits, x, e), rs')
  {
    var ds := Written(limits, x.runtime, e.action, e.now, e.notes);
    NoBootIsWritten(limits, x.runtime, e.action, e.now, e.notes);
    rs' := StoredIsFolded(env, x.store, rs, ds);
    WritingIsBacked(env.limits, x.runtime, e.action, e.now, e.notes, x.store.state, |ds|, limits);
    ActionKeeps(limits, x.runtime, e.action, e.now);
  }

  /** What is restored from a durable state of which the fence is backed. */
  lemma RestoredIsBacked(env: Env, limits: RuntimeLimits, left: StoreState, disk: StoreState, boot: BootRecord,
                         now: nat)
    requires FenceIsBacked(left) && SameButGeneration(disk, Mutated(env.limits, left, Delta.AdvanceBoot(boot)))
    requires disk.topology.Some? ==> disk.topology.value.generation != 0
    ensures var s := Restored(limits, disk, boot.boot, boot.epoch, now);
            IsBacked(s, disk) && Reachable(s) && AllAreOver(s.findings)
  {
    RestartFencesAll(limits, disk, boot.boot, boot.epoch, now);
  }

  /** The boots a crash leaves in the ledger are those before the operation. */
  lemma {:induction false} LedgerStays(limits: StoreLimits, disk: StoreState, ds: seq<Delta>)
    requires forall i {:trigger ds[i]} :: 0 <= i < |ds| ==> !ds[i].AdvanceBoot? && !ds[i].NoteShutdown?
    ensures Folded(limits, disk, ds).bootLedger == disk.bootLedger
    decreases |ds|
  {
    if ds != [] {
      LedgerStays(limits, Mutated(limits, disk, ds[0]), ds[1..]);
    }
  }

  /** The document a crash leaves, and what its reopening makes of it. */
  lemma CrashIsReopened(env: Env, left: Store, before: seq<Record>, tear: Tear, producer: nat, now: nat)
    returns (rs': seq<Record>)
    requires Holds(env, left, before) && LedgerRises(left.state) && IsInBounds(env, left, Reopen(tear, producer, now))
    ensures IsTear(env, tear)
    ensures var o := OpenDocument(env, left.file + TornBytes(env, tear), producer, now);
            && o.Opened? && Holds(env, o.store, rs') && LedgerRises(o.store.state) && IsAbove(o.boot, left.state)
            && (o.store.state.topology.Some? ==> o.store.state.topology.value.generation != 0)
            && SameButGeneration(o.store.state, Mutated(env.limits, left.state, Delta.AdvanceBoot(o.boot)))
  {
    rs' := ReopenKeeps(env, left, before, tear, producer, now);
    RisingStays(env.limits, left.state,
                Delta.AdvanceBoot(OpenDocument(env, left.file + TornBytes(env, tear), producer, now).boot));
  }

  lemma LeftBehindHolds(env: Env, limits: RuntimeLimits, x: Life, rs: seq<Record>, action: Action, at: nat,
                        notes: Notes, cut: nat)
    returns (before: seq<Record>)
    requires IsLiving(env, x, rs) && CanStop(env, limits, x, action, at, notes, cut)
    ensures var left := LeftBehind(env, limits, x, action, at, notes, cut);
            && Holds(env, left, before) && LedgerRises(left.state) && FenceIsBacked(left.state)
            && left.state.bootLedger == x.store.state.bootLedger
  {
    NoBootIsWritten(limits, x.runtime, action, at, notes);
    WritingIsBacked(env.limits, x.runtime, action, at, notes, x.store.state, cut, limits);
    before := PrefixHolds(env, x.store, rs, Written(limits, x.runtime, action, at, notes)[..cut]);
  }

  lemma PrefixHolds(env: Env, v: Store, rs: seq<Record>, ds: seq<Delta>) returns (before: seq<Record>)
    requires Holds(env, v, rs) && LedgerRises(v.state) && AllInBounds(env, v, Mutations(ds))
    requires FenceIsBacked(Folded(env.limits, v.state, ds))
    requires forall i {:trigger ds[i]} :: 0 <= i < |ds| ==> !ds[i].AdvanceBoot? && !ds[i].NoteShutdown?
    ensures var left := AfterAll(env, v, Mutations(ds));
            && Holds(env, left, before) && LedgerRises(left.state) && FenceIsBacked(left.state)
            && left.state.bootLedger == v.state.bootLedger
  {
    before := StoredIsFolded(env, v, rs, ds);
    LedgerStays(env.limits, v.state, ds);
  }

  predicate IsAboveAll(fence: FenceVector, s: StoreState) {
    forall i {:trigger s.bootLedger[i]} :: 0 <= i < |s.bootLedger| ==>
      s.bootLedger[i].boot < fence.boot && s.bootLedger[i].epoch < fence.epoch
  }

  /** After a crash in the middle of an operation, whatever was torn, the runtime is restored in a state that runs keep
      to, with every finding over, under a boot and an epoch above those of every earlier boot. */
  lemma CrashLives(env: Env, limits: RuntimeLimits, x: Life, rs: seq<Record>, action: Action, at: nat, notes: Notes,
                   cut: nat, tear: Tear, producer: nat, now: nat)
    returns (rs': seq<Record>)
    requires IsLiving(env, x, rs) && CanStop(env, limits, x, action, at, notes, cut)
    requires IsInBounds(env, LeftBehind(env, limits, x, action, at, notes, cut), Reopen(tear, producer, now))
    ensures var y := Reopened(env, limits, x, LeftBehind(env, limits, x, action, at, notes, cut), tear, producer, now);
            IsLiving(env, y, rs') && AllAreOver(y.runtime.findings) && IsAboveAll(y.runtime.fence, x.store.state)
  {
    var before := LeftBehindHolds(env, limits, x, rs, action, at, notes, cut);
    rs' := LeftIsRestored(env, limits, x, LeftBehind(env, limits, x, action, at, notes, cut), before, tear, producer,
                          now);
  }

  /** A life that goes on, with every finding over, above what was left. */
  ghost predicate IsRestored(env: Env, left: StoreState, y: Life, rs: seq<Record>) {
    IsLiving(env, y, rs) && AllAreOver(y.runtime.findings) && IsAboveAll(y.runtime.fence, left)
  }

  lemma LeftIsRestored(env: Env, limits: RuntimeLimits, x: Life, left: Store, before: seq<Record>, tear: Tear,
                       producer: nat, now: nat)
    returns (rs': seq<Record>)
    requires Holds(env, left, before) && LedgerRises(left.state) && FenceIsBacked(left.state)
    requires IsInBounds(env, left, Reopen(tear, producer, now))
    ensures IsRestored(env, left.state, Reopened(env, limits, x, left, tear, producer, now), rs')
  {
    rs' := CrashIsReopened(env, left, before, tear, producer, now);
    OpenedLives(env, limits, left.state, OpenDocument(env, left.file + TornBytes(env, tear), producer, now), rs', now);
  }

  /** What is opened is the store of a life. */
  lemma OpenedLives(env: Env, limits: RuntimeLimits, left: StoreState, o: Opening, rs: seq<Record>, now: nat)
    requires o.Opened? && Holds(env, o.store, rs) && LedgerRises(o.store.state) && IsAbove(o.boot, left)
    requires FenceIsBacked(left)
    requires SameButGeneration(o.store.state, Mutated(env.limits, left, Delta.AdvanceBoot(o.boot)))
    requires o.store.state.topology.Some? ==> o.store.state.topology.value.generation != 0
    ensures IsRestored(env, left, LifeFrom(limits, o, now), rs)
  {
    RestoredIsBacked(env, limits, left, o.store.state, o.boot, now);
  }

  lemma ShutdownIsStored(env: Env, v: Store, rs: seq<Record>, d: Delta) returns (rs': seq<Record>)
    requires Holds(env, v, rs) && LedgerRises(v.state) && InBounds(env, v, d) && d.NoteShutdown?
    ensures var w := Mutation(env, v, d).store;
            && Holds(env, w, rs') && LedgerRises(w.state) && w.state.topology == v.state.topology
            && w.state.policy == v.state.policy && w.state.committedFence == v.state.committedFence
  {
    rs' := MutationKeeps(env, v, rs, d);
    RisingStays(env.limits, v.state, d);
  }

  lemma ShutLives(env: Env, limits: RuntimeLimits, x: Life, rs: seq<Record>, e: LifeEvent) returns (rs': seq<Record>)
    requires IsLiving(env, x, rs) && CanLive(env, limits, x, e) && e.Shut?
    ensures IsLiving(env, Lived(env, limits, x, e), rs')
  {
    rs' := ShutdownIsStored(env, x.store, rs, NoteShutdown(e.boot, e.clean, e.when));
  }

  // ----- Every life -----

  ghost function LivedAll(env: Env, limits: RuntimeLimits, x: Life, es: seq<LifeEvent>): Life {
    if es == [] then x else Lived(env, limits, LivedAll(env, limits, x, es[..|es| - 1]), es[|es| - 1])
  }

  ghost predicate CanLiveAll(env: Env, limits: RuntimeLimits, x: Life, es: seq<LifeEvent>) {
    es == [] || (CanLiveAll(env, limits, x, es[..|es| - 1])
                 && CanLive(env, limits, LivedAll(env, limits, x, es[..|es| - 1]), es[|es| - 1]))
  }

  /** Through every sequence of operations, crashes in the middle of one, restarts and shutdowns, the document refines
      the store, the runtime stays in states that runs keep to, and no durable fence is ahead of what is installed. */
  lemma {:induction false} EveryLifeKeeps(env: Env, limits: RuntimeLimits, x: Life, rs: seq<Record>, es: seq<LifeEvent>)
    returns (rs': seq<Record>)
    requires IsLiving(env, x, rs) && CanLiveAll(env, limits, x, es)
    ensures IsLiving(env, LivedAll(env, limits, x, es), rs')
    decreases |es|
  {
    rs' := rs;
    if es != [] {
      var y, e := LivedAll(env, limits, x, es[..|es| - 1]), es[|es| - 1];
      var before := EveryLifeKeeps(env, limits, x, rs, es[..|es| - 1]);
      match e
      case Operate(_, _, _) => rs' := OperationLives(env, limits, y, before, e);
      case Crash(action, at, notes, cut, tear, producer, now) =>
        rs' := CrashLives(env, limits, y, before, action, at, notes, cut, tear, producer, now);
      case Shut(_, _, _) => rs' := ShutLives(env, limits, y, before, e);
    }
  }

  /** A life begins with a new document, or with any document a life left behind. */
  lemma LifeBegins(env: Env, limits: RuntimeLimits, producer: nat, now: nat) returns (rs: seq<Record>)
    requires env.limits.maxBootRecords > 0 && Readability.IsId(producer) && Readability.IsId(now)
    ensures var o := OpenDocument(env, [], producer, now);
            o.Opened?
              && IsLiving(env, Life(Restored(limits, o.store.state, o.boot.boot, o.boot.epoch, now), o.store), rs)
  {
    rs := FreshDocumentHolds(env, producer, now);
    var o := OpenDocument(env, [], producer, now);
    RestartFencesAll(limits, o.store.state, o.boot.boot, o.boot.epoch, now);
  }
}
