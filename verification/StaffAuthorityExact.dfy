/** Exactly when a replacement of staff authority succeeds, in the fields of the tables. */
module StaffAuthorityExact {
  import opened Common
  import opened StaffAuthority
  import opened StaffAuthorityRuns

  predicate HasGrant(t: Tables, p: Id, capability: string) {
    exists i :: 0 <= i < |t.grants| && t.grants[i].principal == p && t.grants[i].capability == capability
             && t.grants[i].active
  }

  /** An active grant of it that may be handed on, and not on the platform's plane. */
  predicate HandsOut(t: Tables, p: Id, capability: string) {
    exists i :: 0 <= i < |t.grants| && t.grants[i].principal == p && t.grants[i].capability == capability
             && t.grants[i].active && t.grants[i].delegable
             && (t.grants[i].plane == TenantControl || t.grants[i].plane == Operational)
  }

  predicate Controls(t: Tables, p: Id) {
    && HasGrant(t, p, "staff.manage_membership") && HasGrant(t, p, "staff.manage_authority")
    && HasGrant(t, p, "identity.bind")
  }

  predicate ActiveMember(t: Tables, org: Id, m: Id, p: Id) {
    m in t.memberships && t.memberships[m].org == org && t.memberships[m].principal == p && t.memberships[m].active
  }

  /** An active human member of the organization who manages its staff's authority. */
  predicate ActorStands(t: Tables, c: Call) {
    && c.actor in t.principals && t.principals[c.actor].org == c.org
    && t.principals[c.actor].human && t.principals[c.actor].active
    && (exists m :: m in t.memberships && ActiveMember(t, c.org, m, c.actor))
    && HasGrant(t, c.actor, "staff.manage_authority")
  }

  /** The membership named is an active one of the organization, of somebody else. */
  predicate TargetStands(t: Tables, c: Call) {
    && c.membership in t.memberships && t.memberships[c.membership].org == c.org
    && t.memberships[c.membership].active && t.memberships[c.membership].principal in t.principals
    && t.memberships[c.membership].principal != c.actor
  }

  predicate HasText(s: string) {
    exists i :: 0 <= i < |s| && s[i] != ' '
  }

  predicate RequestFits(t: Tables, c: Call) {
    && (c.provenance.Some? ==> HasText(c.provenance.value))
    && (c.desired.Some? ==>
          && (forall i, j :: 0 <= i < j < |c.desired.value| ==> c.desired.value[i] != c.desired.value[j])
          && (forall i :: 0 <= i < |c.desired.value| ==>
                HasText(c.desired.value[i]) && HandsOut(t, c.actor, c.desired.value[i])))
  }

  predicate Wanted(c: Call, capability: string) {
    c.desired.Some? && capability in c.desired.value
  }

  /** The target would lose this capability, by the guard of the version: when it is not wanted,
      and for the exact guard only when the actor can take it away. */
  predicate Loses(version: Version, t: Tables, c: Call, capability: string) {
    !Wanted(c, capability) && (version.Exact? ==> HandsOut(t, c.actor, capability))
  }

  predicate OtherControls(t: Tables, c: Call, target: Id) {
    exists m :: m in t.memberships && t.memberships[m].org == c.org && t.memberships[m].active
             && t.memberships[m].principal != target
             && t.memberships[m].principal in t.principals && t.principals[t.memberships[m].principal].active
             && t.memberships[m].principal in t.usable && Controls(t, t.memberships[m].principal)
  }

  /** The target does not control the tenant, or loses nothing of what that takes, or somebody
      else can take over. */
  predicate ControlStays(version: Version, t: Tables, c: Call, target: Id) {
    || !Controls(t, target)
    || (!Loses(version, t, c, "staff.manage_membership") && !Loses(version, t, c, "staff.manage_authority")
        && !Loses(version, t, c, "identity.bind"))
    || OtherControls(t, c, target)
  }

  /** Whatever the target lacks can be inserted. */
  predicate InsertsFit(t: Tables, c: Call, target: Id) {
    (exists i :: 0 <= i < |Desired(c)| && !HasGrant(t, target, Desired(c)[i])) ==>
      target in t.principals && t.principals[target].active && c.provenance.Some?
  }

  predicate RevisionFits(t: Tables, c: Call, target: Id) {
    target in t.principals && (c.expected.Some? ==> c.expected.value == t.principals[target].revision)
  }

  lemma ActorIs(t: Tables, c: Call)
    ensures ActorStands(t, c) <==> IsManager(t, c.org, c.actor)
  {
    if ActorStands(t, c) {
      var m :| m in t.memberships && ActiveMember(t, c.org, m, c.actor);
      assert t.memberships[m] == Membership(c.org, c.actor, true);
    }
    if m :| m in t.memberships && t.memberships[m] == Membership(c.org, c.actor, true) {
      assert ActiveMember(t, c.org, m, c.actor);
    }
  }

  lemma GrantsAre(t: Tables, p: Id, capability: string)
    ensures HasGrant(t, p, capability) <==> Holds(t.grants, p, capability)
    ensures HasGrant(t, p, capability) <==> capability in Active(t.grants, p)
    ensures HandsOut(t, p, capability) <==> MayDelegate(t.grants, p, capability)
    ensures HandsOut(t, p, capability) <==> capability in Ceiling(t.grants, p)
  {
  }

  lemma ControlsIs(t: Tables, p: Id)
    ensures Controls(t, p) <==> IsController(t.grants, p)
  {
    GrantsAre(t, p, "staff.manage_membership");
    GrantsAre(t, p, "staff.manage_authority");
    GrantsAre(t, p, "identity.bind");
  }

  lemma RequestIs(t: Tables, c: Call)
    ensures RequestFits(t, c) <==>
              !BadDesired(c) && forall i :: 0 <= i < |Desired(c)| ==> MayDelegate(t.grants, c.actor, Desired(c)[i])
  {
    forall i | 0 <= i < |Desired(c)|
      ensures HandsOut(t, c.actor, Desired(c)[i]) <==> MayDelegate(t.grants, c.actor, Desired(c)[i])
    {
      GrantsAre(t, c.actor, Desired(c)[i]);
    }
  }

  lemma OtherIs(t: Tables, c: Call, target: Id)
    ensures OtherControls(t, c, target) <==> OtherController(t, c.org, target)
  {
    forall m | m in t.memberships
      ensures Controls(t, t.memberships[m].principal) <==> IsController(t.grants, t.memberships[m].principal)
    {
      ControlsIs(t, t.memberships[m].principal);
    }
    forall m | m in t.memberships && t.memberships[m].org == c.org && t.memberships[m].active
      ensures IsMember(t, c.org, t.memberships[m].principal)
    {
      assert t.memberships[m] == Membership(c.org, t.memberships[m].principal, true);
    }
  }

  lemma ControlIs(version: Version, t: Tables, c: Call, target: Id)
    ensures ControlStays(version, t, c, target)
       <==> !(IsController(t.grants, target) && !Predicted(version, t, c, target) && !OtherController(t, c.org, target))
  {
    ControlsIs(t, target);
    OtherIs(t, c, target);
    forall cap | cap in ControllerCaps()
      ensures HandsOut(t, c.actor, cap) <==> cap in Ceiling(t.grants, c.actor)
      ensures HasGrant(t, target, cap) <==> cap in Active(t.grants, target)
      ensures Wanted(c, cap) <==> cap in Desired(c)
    {
      GrantsAre(t, c.actor, cap);
      GrantsAre(t, target, cap);
    }
    assert ControllerCaps() == {"staff.manage_membership", "staff.manage_authority", "identity.bind"};
  }

  lemma InsertsAre(t: Tables, c: Call)
    requires Targets(t, c)
    ensures InsertsFit(t, c, Target(t, c)) <==>
              !(Lacking(Desired(c), AfterRevoke(t.grants, c, Target(t, c)), Target(t, c)) != []
                && (!t.principals[Target(t, c)].active || c.provenance.None?))
  {
    NothingLacking(t, c);
    forall i | 0 <= i < |Desired(c)|
      ensures HasGrant(t, Target(t, c), Desired(c)[i]) <==> Desired(c)[i] in Active(t.grants, Target(t, c))
    {
      GrantsAre(t, Target(t, c), Desired(c)[i]);
    }
    assert Elements(Desired(c)) <= Active(t.grants, Target(t, c)) <==>
             forall i :: 0 <= i < |Desired(c)| ==> Desired(c)[i] in Active(t.grants, Target(t, c));
  }

  /** Under either guard a replacement succeeds if and only if actor and target stand, the revision
      is the one expected, the request stays within what the actor hands out, the tenant keeps a
      controller, and what is lacking can be inserted. */
  lemma ReplaceSucceedsExactlyWhen(version: Version, t: Tables, c: Call)
    ensures Replace(version, t, c).1.Ok? <==>
              ActorStands(t, c) && TargetStands(t, c)
              && var target := t.memberships[c.membership].principal;
                 && RevisionFits(t, c, target) && RequestFits(t, c)
                 && ControlStays(version, t, c, target) && InsertsFit(t, c, target)
    ensures Replace(version, t, c).1.Err? ==> Replace(version, t, c).0 == t
  {
    ActorIs(t, c);
    RequestIs(t, c);
    if Targets(t, c) {
      ControlIs(version, t, c, Target(t, c));
      InsertsAre(t, c);
    }
  }

  /** It is called stale exactly when actor and target stand and the revision expected is not the
      target's; then nothing changes. */
  lemma StaleExactlyWhen(version: Version, t: Tables, c: Call)
    ensures Replace(version, t, c).1 == Err(StaleRevision) <==>
              ActorStands(t, c) && TargetStands(t, c) && c.expected.Some?
              && c.expected.value != t.principals[t.memberships[c.membership].principal].revision
    ensures Replace(version, t, c).1 == Err(StaleRevision) ==> Replace(version, t, c).0 == t
  {
    ActorIs(t, c);
  }

  // ---------------------------------------------------------------- what it leaves

  /** Old rows: exactly the target's active ones that are not wanted and that the actor hands out are
      revoked, at the next revision and by the actor. */
  lemma OldRowsAfter(version: Version, t: Tables, c: Call, k: nat)
    requires Replace(version, t, c).1.Ok? && k < |t.grants|
    ensures TargetStands(t, c) && k < |Replace(version, t, c).0.grants|
    ensures var (g, now) := (t.grants[k], Replace(version, t, c).0.grants[k]);
            now == if g.principal == t.memberships[c.membership].principal && g.active
                      && !Wanted(c, g.capability) && HandsOut(t, c.actor, g.capability)
                   then g.(active := false, revision := g.revision + 1, revokedBy := Some(c.actor)) else g
  {
    GrantsAre(t, c.actor, t.grants[k].capability);
  }

  /** New rows: each gives the target a wanted capability it lacked, on the plane of a grant of it
      that the actor hands out, not to be handed on, under the trimmed provenance. */
  lemma NewRowsAfter(version: Version, t: Tables, c: Call, k: nat)
    requires Inv(t) && Replace(version, t, c).1.Ok? && |t.grants| <= k < |Replace(version, t, c).0.grants|
    ensures TargetStands(t, c) && c.provenance.Some?
    ensures var g := Replace(version, t, c).0.grants[k];
            && g == Grant(c.org, t.memberships[c.membership].principal, g.plane, g.capability, false, true, 1,
                          c.actor, None, Btrim(c.provenance.value))
            && Wanted(c, g.capability) && !HasGrant(t, g.principal, g.capability)
            && exists i :: 0 <= i < |t.grants| && t.grants[i].principal == c.actor && t.grants[i].active
                           && t.grants[i].delegable && t.grants[i].capability == g.capability
                           && t.grants[i].plane == g.plane && g.plane != Platform
  {
    var g := Replace(version, t, c).0.grants[k];
    InsertedRowsCopyActor(version, t, c, k);
    GrantsAre(t, g.principal, g.capability);
  }

  /** Every wanted capability is held afterwards; memberships stay, and of the principals only the
      target changes, in its revision, which the call answers. */
  lemma RestAfter(version: Version, t: Tables, c: Call, capability: string, p: Id)
    requires Replace(version, t, c).1.Ok?
    ensures TargetStands(t, c)
    ensures var (u, answer) := Replace(version, t, c);
            var target := t.memberships[c.membership].principal;
            && (Wanted(c, capability) ==> HasGrant(u, target, capability))
            && u.memberships == t.memberships && u.usable == t.usable
            && u.principals.Keys == t.principals.Keys
            && (p in t.principals && p != target ==> u.principals[p] == t.principals[p])
            && u.principals[target] == t.principals[target].(revision := answer.value)
  {
    ReplacementIsSetAlgebra(version, t, c);
    GrantsAre(Replace(version, t, c).0, Target(t, c), capability);
    assert Wanted(c, capability) ==> capability in Elements(Desired(c));
  }

  // ---------------------------------------------------------------- refusals

  /** What each refusal tells its caller. */
  lemma RefusalsAreTrue(version: Version, t: Tables, c: Call)
    requires Replace(version, t, c).1.Err?
    ensures match Replace(version, t, c).1.error
            case NotManager => !ActorStands(t, c)
            case NotFound =>
              || c.membership !in t.memberships || t.memberships[c.membership].org != c.org
              || !t.memberships[c.membership].active || t.memberships[c.membership].principal !in t.principals
            case SelfReplacement =>
              c.membership in t.memberships && t.memberships[c.membership].principal == c.actor
            case StaleRevision => TargetStands(t, c) && !RevisionFits(t, c, t.memberships[c.membership].principal)
            case InvalidDesired =>
              || (c.provenance.Some? && !HasText(c.provenance.value))
              || exists i, j :: 0 <= i <= j < |Desired(c)|
                                && (if i == j then !HasText(Desired(c)[i]) else Desired(c)[i] == Desired(c)[j])
            case ExceedsCeiling => exists i :: 0 <= i < |Desired(c)| && !HandsOut(t, c.actor, Desired(c)[i])
            case LastController =>
              TargetStands(t, c) && !ControlStays(version, t, c, t.memberships[c.membership].principal)
            case InsertRejected =>
              TargetStands(t, c) && !InsertsFit(t, c, t.memberships[c.membership].principal)
  {
    ActorIs(t, c);
    if Targets(t, c) {
      ControlIs(version, t, c, Target(t, c));
      InsertsAre(t, c);
    }
    CeilingIs(t, c);
    if BadDesired(c) { BadIs(c); }
  }

  lemma CeilingIs(t: Tables, c: Call)
    ensures (exists i :: 0 <= i < |Desired(c)| && !MayDelegate(t.grants, c.actor, Desired(c)[i]))
       <==> exists i :: 0 <= i < |Desired(c)| && !HandsOut(t, c.actor, Desired(c)[i])
  {
    forall i | 0 <= i < |Desired(c)|
      ensures HandsOut(t, c.actor, Desired(c)[i]) <==> MayDelegate(t.grants, c.actor, Desired(c)[i])
    {
      GrantsAre(t, c.actor, Desired(c)[i]);
    }
  }

  lemma BadIs(c: Call)
    requires BadDesired(c)
    ensures || (c.provenance.Some? && !HasText(c.provenance.value))
            || exists i, j :: 0 <= i <= j < |Desired(c)|
                              && (if i == j then !HasText(Desired(c)[i]) else Desired(c)[i] == Desired(c)[j])
  {
    if i :| 0 <= i < |Desired(c)| && Blank(Desired(c)[i]) {
      assert !HasText(Desired(c)[i]);
    }
  }
}
