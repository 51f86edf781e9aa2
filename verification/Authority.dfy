/** Grants, and what an application of an intent has been verified to achieve. */
module Authority {
  import opened Lists
  import opened Order
  import opened Evidence
  import opened Findings

  datatype GrantState = Active | Consumed | Expired | Revoked

  datatype ContainmentGrant = ContainmentGrant(
    fence: FenceVector, scope: seq<nat>, maxTargets: nat, maxTotalCost: nat, expiresAt: nat, state: GrantState)

  datatype GrantAnswer =
    | Granted | GrantNotActive | GrantFenced(cause: FenceCause) | GrantExpired
    | NothingAsked | TooManyTargets | TooCostly | OutOfScope

  /** Everything a grant demands of what it authorizes. */
  ghost predicate Permits(g: ContainmentGrant, targets: seq<nat>, totalCost: nat, current: FenceVector, now: nat) {
    && g.state == Active && g.fence == current && now <= g.expiresAt
    && targets != [] && |targets| <= g.maxTargets && totalCost <= g.maxTotalCost
    && forall t :: t in targets ==> t in g.scope
  }

  /** What the grant answers: its scope is searched by halving. */
  predicate Authorizes(g: ContainmentGrant, targets: seq<nat>, totalCost: nat, current: FenceVector, now: nat) {
    && g.state == Active && g.fence == current && now <= g.expiresAt
    && targets != [] && |targets| <= g.maxTargets && totalCost <= g.maxTotalCost
    && forall k {:trigger targets[k]} :: 0 <= k < |targets| ==> BinarySearch(g.scope, targets[k])
  }

  /** A grant authorizes nothing it does not permit, and all it permits when its scope is sorted. */
  lemma AuthorizesWhatIsPermitted(g: ContainmentGrant, targets: seq<nat>, totalCost: nat, current: FenceVector,
                                  now: nat)
    ensures Authorizes(g, targets, totalCost, current, now) ==> Permits(g, targets, totalCost, current, now)
    ensures StrictlyIncreasing(g.scope) ==>
              (Authorizes(g, targets, totalCost, current, now) <==> Permits(g, targets, totalCost, current, now))
  {
    forall k | 0 <= k < |targets|
      ensures BinarySearch(g.scope, targets[k]) ==> targets[k] in g.scope
      ensures StrictlyIncreasing(g.scope) ==> (BinarySearch(g.scope, targets[k]) <==> targets[k] in g.scope)
    {
      if BinarySearch(g.scope, targets[k]) {
        FoundIsThere(g.scope, targets[k]);
      }
      if StrictlyIncreasing(g.scope) {
        StrictIsNondecreasing(g.scope);
        SortedIsFound(g.scope, targets[k]);
      }
    }
  }

  method AuthorizeTargets(g: ContainmentGrant, targets: seq<nat>, totalCost: nat, current: FenceVector, now: nat)
    returns (r: GrantAnswer)
    ensures r == Granted <==> Authorizes(g, targets, totalCost, current, now)
    ensures r.GrantFenced? ==> r.cause == FenceCauseOf(g.fence, current) != NoCause
  {
    if g.state != Active {
      return GrantNotActive;
    }
    var cause := FenceCauseOf(g.fence, current);
    if cause != NoCause {
      return GrantFenced(cause);
    }
    if now > g.expiresAt {
      return GrantAnswer.GrantExpired;
    }
    if targets == [] {
      return NothingAsked;
    }
    if |targets| > g.maxTargets {
      return TooManyTargets;
    }
    if totalCost > g.maxTotalCost {
      return TooCostly;
    }
    for k := 0 to |targets|
      invariant forall i {:trigger targets[i]} :: 0 <= i < k ==> BinarySearch(g.scope, targets[i])
    {
      if !BinarySearch(g.scope, targets[k]) {
        return OutOfScope;
      }
    }
    return Granted;
  }

  // ----- Applications -----

  datatype VerifiedEffect = VerifiedEffect(target: nat, fence: FenceVector)

  datatype Application = Application(
    finding: nat, fence: FenceVector, targets: seq<nat>, acknowledgements: nat, effects: seq<VerifiedEffect>)

  predicate HasEffect(app: Application, target: nat) {
    exists i :: 0 <= i < |app.effects| && app.effects[i].target == target
  }

  /** Every target of the intent, and there is one, carries an effect. */
  predicate IsVerified(app: Application) {
    app.targets != [] && forall k {:trigger app.targets[k]} :: 0 <= k < |app.targets| ==> HasEffect(app, app.targets[k])
  }

  method VerifiedTargets(app: Application) returns (verified: seq<nat>)
    requires StrictlyIncreasing(app.targets)
    ensures StrictlyIncreasing(verified)
    ensures forall t :: t in verified <==> HasEffect(app, t) && (app.targets == [] || t in app.targets)
  {
    verified := [];
    StrictIsNondecreasing(app.targets);
    for k := 0 to |app.effects|
      invariant StrictlyIncreasing(verified)
      invariant forall t :: t in verified <==>
                  (exists i :: 0 <= i < k && app.effects[i].target == t) && (app.targets == [] || t in app.targets)
    {
      var target := app.effects[k].target;
      SortedIsFound(app.targets, target);
      if app.targets == [] || BinarySearch(app.targets, target) {
        InsertUniqueAscends(verified, target);
        verified := InsertUnique(verified, target);
      }
    }
  }

  method UnverifiedTargets(app: Application) returns (missing: seq<nat>)
    requires StrictlyIncreasing(app.targets)
    ensures forall t :: t in missing <==> t in app.targets && !HasEffect(app, t)
  {
    var verified := VerifiedTargets(app);
    StrictIsNondecreasing(verified);
    missing := [];
    for k := 0 to |app.targets|
      invariant forall t :: t in missing <==> t in app.targets[..k] && !HasEffect(app, t)
    {
      assert app.targets[..k + 1] == app.targets[..k] + [app.targets[k]];
      SortedIsFound(verified, app.targets[k]);
      if !BinarySearch(verified, app.targets[k]) {
        missing := missing + [app.targets[k]];
      }
    }
    assert app.targets[..|app.targets|] == app.targets;
  }

  /** An acknowledgement alone never makes this true. */
  method FullyVerified(app: Application) returns (r: bool)
    requires StrictlyIncreasing(app.targets)
    ensures r <==> IsVerified(app)
  {
    if app.targets == [] {
      return false;
    }
    var missing := UnverifiedTargets(app);
    if missing != [] {
      assert missing[0] in missing;
      var k :| 0 <= k < |app.targets| && app.targets[k] == missing[0];
      assert !HasEffect(app, app.targets[k]);
    } else {
      forall k | 0 <= k < |app.targets|
        ensures HasEffect(app, app.targets[k])
      {
        assert app.targets[k] !in missing;
      }
    }
    return missing == [];
  }
}
