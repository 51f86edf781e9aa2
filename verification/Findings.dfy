/** Findings: their states, what fences them, and the bounded registry that retains them. */
module Findings {
  import opened Topology
  import opened Evidence

  datatype FindingState =
    | Proposed | Confirmed | ContainmentAuthorized | ContainmentRequested | ContainmentAppliedUnverified
    | ContainmentVerified | Withdrawn | Stale | Fenced | Rejected
  {
    predicate IsTerminal() {
      Withdrawn? || Stale? || Fenced? || Rejected?
    }
  }

  datatype FenceCause =
    | NoCause | TopologyGenerationAdvanced | ForwardingGenerationAdvanced | PolicyGenerationAdvanced
    | FabricEpochAdvanced | CoordinatorEpochAdvanced | BootAdvanced | ExplicitWithdrawal | GrantExpired | GrantRevoked

  /** An intent's identity is its content. */
  datatype Intent = Intent(
    plan: nat, finding: nat, fence: FenceVector, targets: seq<nat>, selectors: seq<nat>, issuedAt: nat, expiresAt: nat)

  datatype Finding = Finding(
    id: nat, generation: nat, assessment: nat, fence: FenceVector, state: FindingState, cause: FenceCause,
    plan: nat, intent: Option<Intent>, createdAt: nat, updatedAt: nat)

  /** The first component, in order of precedence, in which the fences differ. */
  function FenceCauseOf(candidate: FenceVector, current: FenceVector): (r: FenceCause)
    ensures r == NoCause <==> candidate == current
  {
    if candidate.boot != current.boot then BootAdvanced
    else if candidate.epoch != current.epoch then CoordinatorEpochAdvanced
    else if candidate.fabricEpoch != current.fabricEpoch then FabricEpochAdvanced
    else if candidate.topology != current.topology then TopologyGenerationAdvanced
    else if candidate.forwarding != current.forwarding then ForwardingGenerationAdvanced
    else if candidate.policy != current.policy then PolicyGenerationAdvanced
    else NoCause
  }

  // ----- The registry, as a value -----

  predicate IdsRise(fs: seq<Finding>) {
    forall i, j :: 0 <= i < j < |fs| ==> fs[i].id < fs[j].id
  }

  function PositionOf(fs: seq<Finding>, id: nat): (r: Option<nat>)
    ensures r.Some? ==> r.value < |fs| && fs[r.value].id == id
    ensures r.None? ==> forall i :: 0 <= i < |fs| ==> fs[i].id != id
  {
    if fs == [] then None
    else if fs[|fs| - 1].id == id then Some(|fs| - 1)
    else PositionOf(fs[..|fs| - 1], id)
  }

  lemma PositionIsUnique(fs: seq<Finding>, i: nat)
    requires IdsRise(fs) && i < |fs|
    ensures PositionOf(fs, fs[i].id) == Some(i)
  {
    var r := PositionOf(fs, fs[i].id).value;
  }

  /** `a` goes before `b` when one of them has to be evicted. */
  predicate IsOlder(a: Finding, b: Finding) {
    a.updatedAt < b.updatedAt || (a.updatedAt == b.updatedAt && a.id < b.id)
  }

  /** The oldest terminal finding. */
  function VictimAmong(fs: seq<Finding>, n: nat): (r: Option<nat>)
    requires n <= |fs|
    ensures r.Some? ==> r.value < n && fs[r.value].state.IsTerminal()
    ensures r.Some? ==> forall i :: 0 <= i < n && fs[i].state.IsTerminal() ==> !IsOlder(fs[i], fs[r.value])
    ensures r.None? ==> forall i :: 0 <= i < n ==> !fs[i].state.IsTerminal()
  {
    if n == 0 then None else
      var before := VictimAmong(fs, n - 1);
      if !fs[n - 1].state.IsTerminal() then before
      else if before.None? || IsOlder(fs[n - 1], fs[before.value]) then Some(n - 1)
      else before
  }

  function Without(fs: seq<Finding>, i: nat): seq<Finding>
    requires i < |fs|
  {
    fs[..i] + fs[i + 1..]
  }

  /** Puts a finding where its identity belongs. */
  function Inserted(fs: seq<Finding>, f: Finding): (r: seq<Finding>)
    ensures |r| == |fs| + 1
  {
    if fs == [] then [f]
    else if fs[|fs| - 1].id < f.id then fs + [f]
    else Inserted(fs[..|fs| - 1], f) + [fs[|fs| - 1]]
  }

  datatype Registration = Registered(findings: seq<Finding>) | NotValid | AlreadyThere | FullOfLive

  /** At capacity exactly the oldest terminal finding makes room; live ones never do. */
  function RegistrationOf(most: nat, fs: seq<Finding>, f: Finding): Registration {
    if f.id == 0 || FenceIsZero(f.fence) || f.fence.boot == 0 then NotValid
    else if PositionOf(fs, f.id).Some? then AlreadyThere
    else if |fs| < most then Registered(Inserted(fs, f))
    else
      var victim := VictimAmong(fs, |fs|);
      if victim.None? then FullOfLive else Registered(Inserted(Without(fs, victim.value), f))
  }

  datatype Update = Updated(findings: seq<Finding>) | NoSuchFinding | IsOver

  /** A terminal finding can only be withdrawn. */
  function StateUpdate(fs: seq<Finding>, id: nat, state: FindingState, cause: FenceCause, now: nat): Update {
    var at := PositionOf(fs, id);
    if at.None? then NoSuchFinding
    else
      var f := fs[at.value];
      if f.state.IsTerminal() && state != Withdrawn then IsOver
      else Updated(fs[at.value :=
                      f.(state := state, cause := if cause == NoCause then f.cause else cause, updatedAt := now)])
  }

  function WithFenceChecked(f: Finding, current: FenceVector, now: nat): Finding {
    if f.state.IsTerminal() || FenceCauseOf(f.fence, current) == NoCause then f
    else f.(state := Stale, cause := FenceCauseOf(f.fence, current), updatedAt := now)
  }

  /** Every live finding whose fence is not the current one becomes stale. */
  function StaleFenced(fs: seq<Finding>, current: FenceVector, now: nat): (r: seq<Finding>)
    ensures |r| == |fs|
  {
    seq(|fs|, i requires 0 <= i < |fs| => WithFenceChecked(fs[i], current, now))
  }

  // ----- The registry, as it works on its list -----

  method FindPosition(fs: seq<Finding>, id: nat) returns (r: Option<nat>)
    requires IdsRise(fs)
    ensures r == PositionOf(fs, id)
  {
    for i := 0 to |fs|
      invariant forall k :: 0 <= k < i ==> fs[k].id != id
    {
      if fs[i].id == id {
        PositionIsUnique(fs, i);
        return Some(i);
      }
    }
    return None;
  }

  lemma {:induction false} InsertedAt(fs: seq<Finding>, f: Finding, k: nat)
    requires IdsRise(fs) && k <= |fs|
    requires (forall i :: 0 <= i < k ==> fs[i].id < f.id) && (k < |fs| ==> f.id <= fs[k].id)
    ensures Inserted(fs, f) == fs[..k] + [f] + fs[k..]
    decreases |fs|
  {
    if k < |fs| {
      var n := |fs| - 1;
      assert k < n ==> fs[k].id < fs[n].id;
      InsertedAt(fs[..n], f, k);
      assert fs[..n][..k] == fs[..k] && fs[k..] == fs[..n][k..] + [fs[n]];
    } else if fs != [] {
      assert fs[..k] == fs;
    }
  }

  method FindVictim(fs: seq<Finding>) returns (victim: Option<nat>)
    ensures victim == VictimAmong(fs, |fs|)
  {
    victim := None;
    for i := 0 to |fs|
      invariant victim == VictimAmong(fs, i)
    {
      if fs[i].state.IsTerminal() && (victim.None? || IsOlder(fs[i], fs[victim.value])) {
        victim := Some(i);
      }
    }
  }

  method InsertInPlace(fs: seq<Finding>, f: Finding) returns (r: seq<Finding>)
    requires IdsRise(fs)
    ensures r == Inserted(fs, f)
  {
    var position := 0;
    while position < |fs| && fs[position].id < f.id
      invariant position <= |fs| && forall i :: 0 <= i < position ==> fs[i].id < f.id
    {
      position := position + 1;
    }
    InsertedAt(fs, f, position);
    return fs[..position] + [f] + fs[position..];
  }

  method Register(most: nat, fs: seq<Finding>, f: Finding) returns (r: Registration)
    requires IdsRise(fs)
    ensures r == RegistrationOf(most, fs, f)
  {
    if f.id == 0 || FenceIsZero(f.fence) || f.fence.boot == 0 {
      return NotValid;
    }
    var existing := FindPosition(fs, f.id);
    if existing.Some? {
      return AlreadyThere;
    }
    var kept := fs;
    if |fs| >= most {
      var victim := FindVictim(fs);
      if victim.None? {
        return FullOfLive;
      }
      WithoutRises(fs, victim.value);
      kept := Without(fs, victim.value);
    }
    kept := InsertInPlace(kept, f);
    return Registered(kept);
  }

  method FenceStale(fs: seq<Finding>, current: FenceVector, now: nat) returns (r: seq<Finding>, fenced: seq<nat>)
    ensures r == StaleFenced(fs, current, now)
    ensures forall id :: id in fenced <==>
            exists i :: 0 <= i < |fs| && fs[i].id == id && !fs[i].state.IsTerminal() && fs[i].fence != current
  {
    r, fenced := fs, [];
    for i := 0 to |fs|
      invariant |r| == |fs|
      invariant forall k {:trigger r[k]} :: 0 <= k < i ==> r[k] == WithFenceChecked(fs[k], current, now)
      invariant forall k {:trigger r[k]} :: i <= k < |fs| ==> r[k] == fs[k]
      invariant forall id :: id in fenced <==>
                exists k :: 0 <= k < i && fs[k].id == id && !fs[k].state.IsTerminal() && fs[k].fence != current
    {
      if !r[i].state.IsTerminal() {
        var cause := FenceCauseOf(r[i].fence, current);
        if cause != NoCause {
          r := r[i := r[i].(state := Stale, cause := cause, updatedAt := now)];
          fenced := fenced + [fs[i].id];
        }
      }
    }
  }

  // ----- What registration, update and fencing keep -----

  lemma LastRises(fs: seq<Finding>, f: Finding)
    requires IdsRise(fs) && forall i :: 0 <= i < |fs| ==> fs[i].id < f.id
    ensures IdsRise(fs + [f])
  {
  }

  lemma BelowLast(fs: seq<Finding>)
    requires IdsRise(fs) && fs != []
    ensures IdsRise(fs[..|fs| - 1]) && forall i :: 0 <= i < |fs| - 1 ==> fs[i].id < fs[|fs| - 1].id
    ensures forall g :: g in fs <==> g in fs[..|fs| - 1] || g == fs[|fs| - 1]
  {
    assert fs == fs[..|fs| - 1] + [fs[|fs| - 1]];
  }

  lemma {:induction false} InsertedRises(fs: seq<Finding>, f: Finding)
    requires IdsRise(fs) && PositionOf(fs, f.id).None?
    ensures IdsRise(Inserted(fs, f))
    ensures forall g :: g in Inserted(fs, f) <==> g in fs || g == f
    decreases |fs|
  {
    if fs != [] {
      var front, last := fs[..|fs| - 1], fs[|fs| - 1];
      BelowLast(fs);
      if last.id < f.id {
        LastRises(fs, f);
      } else {
        InsertedRises(front, f);
        forall i | 0 <= i < |Inserted(front, f)|
          ensures Inserted(front, f)[i].id < last.id
        {
          assert Inserted(front, f)[i] in Inserted(front, f);
        }
        LastRises(Inserted(front, f), last);
      }
    }
  }

  lemma WithoutKeeps(fs: seq<Finding>, i: nat, g: Finding)
    requires IdsRise(fs) && i < |fs|
    ensures g in Without(fs, i) <==> g in fs && g != fs[i]
  {
    var r := Without(fs, i);
    if g in fs && g != fs[i] {
      var k :| 0 <= k < |fs| && fs[k] == g;
      assert r[if k < i then k else k - 1] == g;
    }
    if g in r {
      var k :| 0 <= k < |r| && r[k] == g;
      assert g == fs[if k < i then k else k + 1];
    }
  }

  lemma WithoutRises(fs: seq<Finding>, i: nat)
    requires IdsRise(fs) && i < |fs|
    ensures IdsRise(Without(fs, i))
    ensures forall g :: g in Without(fs, i) <==> g in fs && g != fs[i]
  {
    forall g
      ensures g in Without(fs, i) <==> g in fs && g != fs[i]
    {
      WithoutKeeps(fs, i, g);
    }
  }
}
