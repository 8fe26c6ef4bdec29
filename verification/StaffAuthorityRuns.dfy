/** Staff authority replacement as set algebra, over single calls and whole runs. */
module StaffAuthorityRuns {
  import opened Common
  import opened StaffAuthority

  function Elements(s: seq<string>): set<string> {
    set i | 0 <= i < |s| :: s[i]
  }

  function Target(t: Tables, c: Call): Id
    requires Targets(t, c)
  {
    t.memberships[c.membership].principal
  }

  // ---------------------------------------------------------------- sets and rows

  lemma ActiveIsHeld(grants: seq<Grant>, p: Id, cap: string)
    ensures cap in Active(grants, p) <==> Holds(grants, p, cap)
    ensures cap in Ceiling(grants, p) <==> MayDelegate(grants, p, cap)
  {
  }

  lemma {:induction false} LackingIs(desired: seq<string>, grants: seq<Grant>, target: Id)
    ensures Elements(Lacking(desired, grants, target)) == Elements(desired) - Active(grants, target)
    ensures Distinct(desired) ==> Distinct(Lacking(desired, grants, target))
    ensures |Lacking(desired, grants, target)| <= |desired|
  {
    if desired != [] {
      var rest := Lacking(desired[1..], grants, target);
      LackingIs(desired[1..], grants, target);
      ActiveIsHeld(grants, target, desired[0]);
      assert desired == [desired[0]] + desired[1..];
      assert Elements([desired[0]]) == {desired[0]};
      ElementsConcat([desired[0]], desired[1..]);
      ElementsConcat([desired[0]], rest);
      if Holds(grants, target, desired[0]) {
        assert Lacking(desired, grants, target) == rest;
      } else {
        assert Lacking(desired, grants, target) == [desired[0]] + rest;
        assert Distinct(desired) ==> desired[0] !in Elements(rest);
      }
    }
  }

  lemma ElementsConcat(a: seq<string>, b: seq<string>)
    ensures Elements(a + b) == Elements(a) + Elements(b)
  {
    forall x | x in Elements(a) + Elements(b) ensures x in Elements(a + b) {
      if x in Elements(a) {
        var i :| 0 <= i < |a| && a[i] == x;
        assert (a + b)[i] == x;
      } else {
        var i :| 0 <= i < |b| && b[i] == x;
        assert (a + b)[|a| + i] == x;
      }
    }
  }

  lemma RevokedSet(grants: seq<Grant>, c: Call, target: Id)
    ensures Active(AfterRevoke(grants, c, target), target)
         == Active(grants, target) - (Ceiling(grants, c.actor) - Elements(Desired(c)))
  {
    var kept := AfterRevoke(grants, c, target);
    forall cap
      ensures cap in Active(kept, target)
         <==> cap in Active(grants, target) && !(cap in Ceiling(grants, c.actor) && cap !in Desired(c))
    {
      ActiveIsHeld(grants, c.actor, cap);
      if i :| 0 <= i < |grants| && grants[i].principal == target && grants[i].active && grants[i].capability == cap {
        assert kept[i].principal == target;
        if !Revokes(grants[i], grants, c, target) { assert kept[i] == grants[i]; }
      }
    }
  }

  lemma InsertedSet(kept: seq<Grant>, t: Tables, c: Call, target: Id, lacking: seq<string>)
    ensures Active(kept + NewGrants(t, c, target, lacking), target) == Active(kept, target) + Elements(lacking)
  {
    var more := NewGrants(t, c, target, lacking);
    forall cap | cap in Active(kept, target) + Elements(lacking) ensures cap in Active(kept + more, target) {
      if i :| 0 <= i < |kept| && kept[i].principal == target && kept[i].active && kept[i].capability == cap {
        assert (kept + more)[i] == kept[i];
      } else {
        var i :| 0 <= i < |lacking| && lacking[i] == cap;
        assert (kept + more)[|kept| + i] == more[i];
      }
    }
  }

  lemma OthersUntouched(t: Tables, c: Call, p: Id)
    requires Targets(t, c) && p != Target(t, c)
    ensures Active(Replaced(t, c).grants, p) == Active(t.grants, p)
    ensures Ceiling(Replaced(t, c).grants, p) == Ceiling(t.grants, p)
  {
    var u := Replaced(t, c);
    forall cap
      ensures Holds(u.grants, p, cap) <==> Holds(t.grants, p, cap)
      ensures MayDelegate(u.grants, p, cap) <==> MayDelegate(t.grants, p, cap)
    {
      assert forall i :: 0 <= i < |t.grants| && t.grants[i].principal == p ==> u.grants[i] == t.grants[i];
      assert forall i :: 0 <= i < |t.grants| ==> u.grants[i].principal == t.grants[i].principal;
      assert forall i :: |t.grants| <= i < |u.grants| ==> u.grants[i].principal != p;
    }
    assert forall cap :: cap in Active(u.grants, p) <==> Holds(u.grants, p, cap);
    assert forall cap :: cap in Active(t.grants, p) <==> Holds(t.grants, p, cap);
    assert forall cap :: cap in Ceiling(u.grants, p) <==> MayDelegate(u.grants, p, cap);
    assert forall cap :: cap in Ceiling(t.grants, p) <==> MayDelegate(t.grants, p, cap);
  }

  // ---------------------------------------------------------------- one call

  /** The outcome in set algebra: what the actor could not have granted stays, whatever
      the request says; everyone else keeps exactly their authority. */
  lemma ReplacementIsSetAlgebra(version: Version, t: Tables, c: Call)
    requires Replace(version, t, c).1.Ok?
    ensures var u := Replace(version, t, c).0;
            && Targets(t, c) && Target(t, c) != c.actor
            && Elements(Desired(c)) <= Ceiling(t.grants, c.actor)
            && Active(u.grants, Target(t, c))
               == (Active(t.grants, Target(t, c)) - (Ceiling(t.grants, c.actor) - Elements(Desired(c))))
                  + Elements(Desired(c))
            && forall p | p != Target(t, c) ::
                 Active(u.grants, p) == Active(t.grants, p) && Ceiling(u.grants, p) == Ceiling(t.grants, p)
  {
    Cleared(version, t, c);
    forall i | 0 <= i < |Desired(c)| ensures Desired(c)[i] in Ceiling(t.grants, c.actor) {
      ActiveIsHeld(t.grants, c.actor, Desired(c)[i]);
    }
    forall p | p != Target(t, c)
      ensures Active(Replaced(t, c).grants, p) == Active(t.grants, p)
      ensures Ceiling(Replaced(t, c).grants, p) == Ceiling(t.grants, p)
    {
      OthersUntouched(t, c, p);
    }
    TargetAfter(t, c);
  }

  lemma TargetAfter(t: Tables, c: Call)
    requires Targets(t, c)
    ensures Active(Replaced(t, c).grants, Target(t, c))
         == (Active(t.grants, Target(t, c)) - (Ceiling(t.grants, c.actor) - Elements(Desired(c))))
            + Elements(Desired(c))
  {
    var target := Target(t, c);
    var kept := AfterRevoke(t.grants, c, target);
    var lacking := Lacking(Desired(c), kept, target);
    RevokedSet(t.grants, c, target);
    LackingIs(Desired(c), kept, target);
    InsertedSet(kept, t, c, target, lacking);
  }

  /** Every capability the target gains is one the actor may delegate. */
  lemma GainsWereDelegable(version: Version, t: Tables, c: Call)
    requires Replace(version, t, c).1.Ok?
    ensures Active(Replace(version, t, c).0.grants, Target(t, c)) - Active(t.grants, Target(t, c))
         <= Ceiling(t.grants, c.actor)
  {
    ReplacementIsSetAlgebra(version, t, c);
  }

  lemma {:induction false} PlaneIsActors(grants: seq<Grant>, actor: Id, capability: string)
    requires UniqueActive(grants) && MayDelegate(grants, actor, capability)
    ensures exists i :: 0 <= i < |grants| && grants[i].principal == actor && grants[i].active && grants[i].delegable
                     && grants[i].capability == capability
                     && grants[i].plane == PlaneOf(grants, actor, capability) != Platform
  {
    var i :| 0 <= i < |grants| && grants[i].principal == actor && grants[i].active
             && grants[i].capability == capability && grants[i].delegable && grants[i].plane != Platform;
    PlaneAt(grants, actor, capability, i);
  }

  lemma {:induction false} PlaneAt(grants: seq<Grant>, actor: Id, capability: string, i: nat)
    requires i < |grants| && grants[i].principal == actor && grants[i].active && grants[i].delegable
    requires grants[i].capability == capability && UniqueActive(grants)
    ensures PlaneOf(grants, actor, capability) == grants[i].plane
  {
    if i > 0 { PlaneAt(grants[1..], actor, capability, i - 1); }
  }

  /** Each inserted grant copies the plane of a delegable grant of the actor, never the
      platform's, cannot be handed on, and names the actor. */
  lemma InsertedRowsCopyActor(version: Version, t: Tables, c: Call, k: nat)
    requires Inv(t) && Replace(version, t, c).1.Ok?
    requires |t.grants| <= k < |Replace(version, t, c).0.grants|
    ensures var g := Replace(version, t, c).0.grants[k];
            && g.org == c.org && g.principal == Target(t, c) && g.active && !g.delegable && g.grantedBy == c.actor
            && g.capability in Desired(c) && g.capability !in Active(t.grants, Target(t, c))
            && exists i :: 0 <= i < |t.grants| && t.grants[i].principal == c.actor && t.grants[i].active
                        && t.grants[i].delegable && t.grants[i].capability == g.capability
                        && t.grants[i].plane == g.plane != Platform
  {
    Cleared(version, t, c);
    var target := Target(t, c);
    var kept := AfterRevoke(t.grants, c, target);
    var lacking := Lacking(Desired(c), kept, target);
    var cap := lacking[k - |t.grants|];
    LackingIs(Desired(c), kept, target);
    RevokedSet(t.grants, c, target);
    assert cap in Elements(lacking);
    assert Replace(version, t, c).0.grants[k] == NewGrant(t, c, target, cap);
    PlaneIsActors(t.grants, c.actor, cap);
  }

  /** The exact guard's forecast about a controller is what the writes then make true. */
  lemma ForecastIsOutcome(t: Tables, c: Call)
    requires Targets(t, c) && IsController(t.grants, Target(t, c))
    ensures Predicted(Exact, t, c, Target(t, c)) <==> IsController(Replaced(t, c).grants, Target(t, c))
  {
    var target := Target(t, c);
    var desired := Elements(Desired(c));
    var after := Active(Replaced(t, c).grants, target);
    TargetAfter(t, c);
    assert forall cap :: cap in desired <==> cap in Desired(c);
    forall cap | cap in ControllerCaps()
      ensures cap in after <==> cap in Desired(c) || cap !in Ceiling(t.grants, c.actor)
    {
      assert cap in Active(t.grants, target);
    }
  }

  lemma ConservativeImpliesExact(t: Tables, c: Call, target: Id)
    requires Predicted(Conservative, t, c, target)
    ensures Predicted(Exact, t, c, target)
  {
  }

  /** The exact command accepts all that the conservative one accepts, with the same result. */
  lemma ExactRefinesConservative(t: Tables, c: Call)
    requires Replace(Conservative, t, c).1.Ok?
    ensures Replace(Exact, t, c) == Replace(Conservative, t, c)
  {
  }

  /** What the exact command accepts beyond that: a last controller that stays one
      although the request omits a controller capability. */
  lemma ExtraCallsAreExactly(t: Tables, c: Call)
    ensures (Replace(Exact, t, c).1.Ok? && Replace(Conservative, t, c).1.Err?)
       <==> (&& Replace(Exact, t, c).1.Ok?
             && IsController(t.grants, Target(t, c))
             && !OtherController(t, c.org, Target(t, c))
             && IsController(Replace(Exact, t, c).0.grants, Target(t, c))
             && !(ControllerCaps() <= Elements(Desired(c))))
    ensures Replace(Exact, t, c).1.Ok? && Replace(Conservative, t, c).1.Err?
        ==> Replace(Conservative, t, c) == (t, Err(LastController))
  {
    if Replace(Exact, t, c).1.Ok? {
      Cleared(Exact, t, c);
      assert forall cap :: cap in Elements(Desired(c)) <==> cap in Desired(c);
      if IsController(t.grants, Target(t, c)) {
        ForecastIsOutcome(t, c);
      }
    }
  }

  // ---------------------------------------------------------------- what each call keeps

  lemma UniqueAfterRevoke(grants: seq<Grant>, c: Call, target: Id)
    requires UniqueActive(grants)
    ensures UniqueActive(AfterRevoke(grants, c, target))
  {
    var kept := AfterRevoke(grants, c, target);
    forall i, j | 0 <= i < j < |kept| && kept[i].active && kept[j].active && kept[i].principal == kept[j].principal
      ensures kept[i].capability != kept[j].capability
    {
      assert kept[i] == grants[i] && kept[j] == grants[j];
    }
  }

  lemma UniqueAfterInsert(kept: seq<Grant>, t: Tables, c: Call, target: Id, lacking: seq<string>)
    requires UniqueActive(kept) && Distinct(lacking)
    requires forall i :: 0 <= i < |lacking| ==> !Holds(kept, target, lacking[i])
    ensures UniqueActive(kept + NewGrants(t, c, target, lacking))
  {
    var more := NewGrants(t, c, target, lacking);
    var all := kept + more;
    forall i, j | 0 <= i < j < |all| && all[i].active && all[j].active && all[i].principal == all[j].principal
      ensures all[i].capability != all[j].capability
    {
      if j >= |kept| {
        assert all[j] == more[j - |kept|];
        if i < |kept| {
          assert all[i] == kept[i] && !Holds(kept, target, lacking[j - |kept|]);
        } else {
          assert all[i] == more[i - |kept|];
        }
      }
    }
  }

  lemma ReplaceKeepsInv(version: Version, t: Tables, c: Call)
    requires Inv(t)
    ensures Inv(Replace(version, t, c).0)
  {
    if Refusal(version, t, c).None? {
      Cleared(version, t, c);
      var target := Target(t, c);
      var kept := AfterRevoke(t.grants, c, target);
      var lacking := Lacking(Desired(c), kept, target);
      LackingIs(Desired(c), kept, target);
      UniqueAfterRevoke(t.grants, c, target);
      forall i | 0 <= i < |lacking| ensures !Holds(kept, target, lacking[i]) {
        assert lacking[i] in Elements(lacking);
        ActiveIsHeld(kept, target, lacking[i]);
      }
      UniqueAfterInsert(kept, t, c, target, lacking);
      RowsStayInOrg(t, c);
    }
  }

  lemma RowsStayInOrg(t: Tables, c: Call)
    requires Inv(t) && Targets(t, c)
    ensures var u := Replaced(t, c);
            forall i :: 0 <= i < |u.grants| ==>
              u.grants[i].principal in u.principals && u.grants[i].org == u.principals[u.grants[i].principal].org
  {
    var u := Replaced(t, c);
    forall i | 0 <= i < |u.grants|
      ensures u.grants[i].principal in u.principals && u.grants[i].org == u.principals[u.grants[i].principal].org
    {
      if i < |t.grants| {
        assert u.grants[i].principal == t.grants[i].principal && u.grants[i].org == t.grants[i].org;
      } else {
        assert u.grants[i].principal == Target(t, c) && u.grants[i].org == c.org;
      }
    }
  }

  predicate HasController(t: Tables, org: Id) {
    exists p :: p in t.principals && EffectiveController(t, org, p)
  }

  lemma ControllerStays(t: Tables, c: Call, org: Id, p: Id)
    requires Targets(t, c) && EffectiveController(t, org, p)
    requires p == Target(t, c) ==> IsController(Replaced(t, c).grants, p)
    ensures EffectiveController(Replaced(t, c), org, p)
  {
    if p != Target(t, c) { OthersUntouched(t, c, p); }
    var m :| m in t.memberships && t.memberships[m] == Membership(org, p, true);
    assert m in Replaced(t, c).memberships;
  }

  /** No replacement takes a tenant's last controller away, by either guard. */
  lemma ReplaceKeepsController(version: Version, t: Tables, c: Call, org: Id)
    requires Inv(t) && HasController(t, org)
    ensures HasController(Replace(version, t, c).0, org)
  {
    if Refusal(version, t, c).None? {
      Cleared(version, t, c);
      var p :| p in t.principals && EffectiveController(t, org, p);
      var target := Target(t, c);
      if p != target {
        ControllerStays(t, c, org, p);
      } else if Predicted(version, t, c, target) {
        if version == Conservative { ConservativeImpliesExact(t, c, target); }
        ForecastIsOutcome(t, c);
        ControllerStays(t, c, org, p);
      } else {
        assert OtherController(t, c.org, target);
        var m :| m in t.memberships && t.memberships[m].org == c.org && t.memberships[m].active
                 && t.memberships[m].principal != target && EffectiveController(t, c.org, t.memberships[m].principal);
        ControllerStays(t, c, c.org, t.memberships[m].principal);
        assert org == c.org;
      }
    }
  }

  // ---------------------------------------------------------------- repetition and revision

  /** After a call, nothing is left to revoke or to insert for the same request. */
  lemma NothingLeftToDo(version: Version, t: Tables, c: Call)
    requires Replace(version, t, c).1.Ok?
    ensures var u := Replace(version, t, c).0;
            && Targets(u, c) && Target(u, c) == Target(t, c)
            && AfterRevoke(u.grants, c, Target(t, c)) == u.grants
            && Revocations(u.grants, c, Target(t, c), |u.grants|) == 0
            && Lacking(Desired(c), u.grants, Target(t, c)) == []
            && Predicted(Exact, u, c, Target(t, c))
  {
    ReplacementIsSetAlgebra(version, t, c);
    var u := Replace(version, t, c).0;
    var target := Target(t, c);
    assert forall cap :: cap in Elements(Desired(c)) <==> cap in Desired(c);
    forall i | 0 <= i < |u.grants| ensures !Revokes(u.grants[i], u.grants, c, target) {
      var g := u.grants[i];
      if g.principal == target && g.active {
        assert g.capability in Active(u.grants, target);
        ActiveIsHeld(u.grants, c.actor, g.capability);
      }
    }
    NoRevocations(u.grants, c, target, |u.grants|);
    LackingIs(Desired(c), u.grants, target);
    NoElements(Lacking(Desired(c), u.grants, target));
  }

  lemma NoElements(s: seq<string>)
    ensures Elements(s) == {} ==> s == []
  {
    if s != [] { assert s[0] in Elements(s); }
  }

  lemma {:induction false} NoRevocations(grants: seq<Grant>, c: Call, target: Id, n: nat)
    requires n <= |grants|
    requires forall i :: 0 <= i < |grants| ==> !Revokes(grants[i], grants, c, target)
    ensures Revocations(grants, c, target, n) == 0
    ensures AfterRevoke(grants, c, target) == grants
  {
    if n > 0 { NoRevocations(grants, c, target, n - 1); }
  }

  lemma BarrierAgain(version: Version, t: Tables, c: Call, seen: int)
    requires Replace(version, t, c).1.Ok? && Replace(version, t, c).1.value == seen
    ensures Barrier(Replace(version, t, c).0, c.(expected := Some(seen))).None?
  {
    Cleared(version, t, c);
    var u := Replace(version, t, c).0;
    var again := c.(expected := Some(seen));
    ReplacementIsSetAlgebra(version, t, c);
    ActiveIsHeld(u.grants, c.actor, MANAGE_AUTHORITY);
    ActiveIsHeld(t.grants, c.actor, MANAGE_AUTHORITY);
    assert IsMember(u, c.org, c.actor) by {
      var m :| m in t.memberships && t.memberships[m] == Membership(c.org, c.actor, true);
      assert m in u.memberships;
    }
    assert IsManager(u, c.org, c.actor);
    forall i | 0 <= i < |Desired(again)| ensures MayDelegate(u.grants, c.actor, Desired(again)[i]) {
      ActiveIsHeld(u.grants, c.actor, Desired(again)[i]);
    }
  }

  /** Repeating a call with the revision it answered changes no row and answers the same. */
  lemma RepetitionChangesNothing(t: Tables, c: Call)
    requires Replace(Exact, t, c).1.Ok?
    ensures var (u, reply) := Replace(Exact, t, c);
            Replace(Exact, u, c.(expected := Some(reply.value))) == (u, reply)
  {
    var (u, reply) := Replace(Exact, t, c);
    var again := c.(expected := Some(reply.value));
    BarrierAgain(Exact, t, c, reply.value);
    NothingLeftToDo(Exact, t, c);
    SameRequest(u, c, again, Target(t, c));
    assert Refusal(Exact, u, again).None?;
    assert NewGrants(u, again, Target(t, c), []) == [];
    assert u.grants + [] == u.grants;
    assert Replaced(u, again) == u;
  }

  /** The expected revision plays no part in what a call writes. */
  lemma SameRequest(t: Tables, c: Call, d: Call, target: Id)
    requires d == c.(expected := d.expected)
    ensures AfterRevoke(t.grants, d, target) == AfterRevoke(t.grants, c, target)
    ensures forall n: nat :: n <= |t.grants| ==>
              Revocations(t.grants, d, target, n) == Revocations(t.grants, c, target, n)
    ensures Predicted(Exact, t, d, target) <==> Predicted(Exact, t, c, target)
  {
    forall n: nat | n <= |t.grants| ensures Revocations(t.grants, d, target, n) == Revocations(t.grants, c, target, n) {
      SameCount(t.grants, c, d, target, n);
    }
  }

  lemma {:induction false} SameCount(grants: seq<Grant>, c: Call, d: Call, target: Id, n: nat)
    requires n <= |grants| && d == c.(expected := d.expected)
    ensures Revocations(grants, d, target, n) == Revocations(grants, c, target, n)
  {
    if n > 0 { SameCount(grants, c, d, target, n - 1); }
  }

  /** The conservative guard turns the same repetition away exactly when the call has left
      the target the last controller by way of a capability it does not ask for. */
  lemma ConservativeRepetition(t: Tables, c: Call)
    requires Replace(Conservative, t, c).1.Ok?
    ensures var (u, reply) := Replace(Conservative, t, c);
            Replace(Conservative, u, c.(expected := Some(reply.value)))
            == if IsController(u.grants, Target(t, c)) && !(ControllerCaps() <= Elements(Desired(c)))
                  && !OtherController(u, c.org, Target(t, c))
               then (u, Err(LastController)) else (u, reply)
  {
    var (u, reply) := Replace(Conservative, t, c);
    var again := c.(expected := Some(reply.value));
    BarrierAgain(Conservative, t, c, reply.value);
    NothingLeftToDo(Conservative, t, c);
    SameRequest(u, c, again, Target(t, c));
    assert forall cap :: cap in Elements(Desired(c)) <==> cap in Desired(c);
    NothingReplaced(u, again);
  }

  lemma NothingReplaced(t: Tables, c: Call)
    requires Targets(t, c) && AfterRevoke(t.grants, c, Target(t, c)) == t.grants
    requires Lacking(Desired(c), t.grants, Target(t, c)) == []
    requires Revocations(t.grants, c, Target(t, c), |t.grants|) == 0
    ensures Replaced(t, c) == t
  {
    assert NewGrants(t, c, Target(t, c), []) == [];
    assert t.grants + [] == t.grants;
  }

  // ---------------------------------------------------------------- parameters left out

  /** Without an expected revision a call does what it does with the current one. */
  lemma MissingRevisionIsCurrent(version: Version, t: Tables, c: Call)
    requires Targets(t, c) && c.expected.None?
    ensures Replace(version, t, c) == Replace(version, t, c.(expected := Some(t.principals[Target(t, c)].revision)))
  {
    var d := c.(expected := Some(t.principals[Target(t, c)].revision));
    SameRequest(t, c, d, Target(t, c));
    SameReplaced(t, c, d);
    SameRefusal(version, t, c, d);
  }

  lemma SameReplaced(t: Tables, c: Call, d: Call)
    requires Targets(t, c) && d == c.(expected := d.expected)
    ensures Replaced(t, d) == Replaced(t, c)
  {
    var target := Target(t, c);
    SameRequest(t, c, d, target);
    var lacking := Lacking(Desired(c), AfterRevoke(t.grants, c, target), target);
    assert NewGrants(t, d, target, lacking) == NewGrants(t, c, target, lacking);
  }

  lemma SameRefusal(version: Version, t: Tables, c: Call, d: Call)
    requires Targets(t, c) && c.expected.None? && d == c.(expected := Some(t.principals[Target(t, c)].revision))
    ensures Refusal(version, t, d) == Refusal(version, t, c)
  {
    SameRequest(t, c, d, Target(t, c));
    assert Barrier(t, d) == Barrier(t, c);
    assert Predicted(version, t, d, Target(t, c)) == Predicted(version, t, c, Target(t, c));
  }

  /** A call that is accepted with a provenance does the same without one when the target holds
      all that is desired, and is otherwise refused when it comes to insert. */
  lemma MissingProvenanceFailsExactlyWhen(version: Version, t: Tables, c: Call, provenance: string)
    requires c.provenance.None? && Replace(version, t, c.(provenance := Some(provenance))).1.Ok?
    ensures Targets(t, c)
    ensures Replace(version, t, c)
         == if Elements(Desired(c)) <= Active(t.grants, Target(t, c))
            then Replace(version, t, c.(provenance := Some(provenance))) else (t, Err(InsertRejected))
  {
    var d := c.(provenance := Some(provenance));
    Cleared(version, t, d);
    SameRows(t.grants, c, d, Target(t, c));
    NothingLacking(t, c);
    assert NewGrants(t, c, Target(t, c), []) == NewGrants(t, d, Target(t, c), []);
  }

  lemma SameRows(grants: seq<Grant>, c: Call, d: Call, target: Id)
    requires d == c.(provenance := d.provenance)
    ensures AfterRevoke(grants, d, target) == AfterRevoke(grants, c, target)
    ensures Revocations(grants, d, target, |grants|) == Revocations(grants, c, target, |grants|)
  {
    SameRevocations(grants, c, d, target, |grants|);
  }

  lemma {:induction false} SameRevocations(grants: seq<Grant>, c: Call, d: Call, target: Id, n: nat)
    requires n <= |grants| && d == c.(provenance := d.provenance)
    ensures Revocations(grants, d, target, n) == Revocations(grants, c, target, n)
  {
    if n > 0 { SameRevocations(grants, c, d, target, n - 1); }
  }

  lemma NothingLacking(t: Tables, c: Call)
    requires Targets(t, c)
    ensures Lacking(Desired(c), AfterRevoke(t.grants, c, Target(t, c)), Target(t, c)) == []
       <==> Elements(Desired(c)) <= Active(t.grants, Target(t, c))
  {
    var lacking := Lacking(Desired(c), AfterRevoke(t.grants, c, Target(t, c)), Target(t, c));
    LackingIs(Desired(c), AfterRevoke(t.grants, c, Target(t, c)), Target(t, c));
    RevokedSet(t.grants, c, Target(t, c));
    assert Elements(lacking) == Elements(Desired(c)) - Active(t.grants, Target(t, c));
    NoElements(lacking);
    assert lacking == [] ==> Elements(lacking) == {};
    if Elements(lacking) == {} {
      forall cap | cap in Elements(Desired(c)) ensures cap in Active(t.grants, Target(t, c)) {
        assert cap !in Elements(lacking);
      }
    }
  }

  // ---------------------------------------------------------------- the count of changes

  /** Capabilities of the rows among the first `n` that the call revokes. */
  function Revoked(grants: seq<Grant>, c: Call, target: Id, n: nat): set<string>
    requires n <= |grants|
  {
    if n == 0 then {}
    else Revoked(grants, c, target, n - 1)
         + (if Revokes(grants[n - 1], grants, c, target) then {grants[n - 1].capability} else {})
  }

  lemma {:induction false} RevokedMember(grants: seq<Grant>, c: Call, target: Id, n: nat, cap: string)
    requires n <= |grants|
    ensures cap in Revoked(grants, c, target, n)
       <==> exists i :: 0 <= i < n && grants[i].capability == cap && Revokes(grants[i], grants, c, target)
  {
    if n > 0 { RevokedMember(grants, c, target, n - 1, cap); }
  }

  lemma NotRevokedTwice(grants: seq<Grant>, c: Call, target: Id, n: nat)
    requires n < |grants| && UniqueActive(grants) && grants[n].principal == target && grants[n].active
    ensures grants[n].capability !in Revoked(grants, c, target, n)
  {
    RevokedMember(grants, c, target, n, grants[n].capability);
    forall i | 0 <= i < n && grants[i].active && grants[i].principal == target
      ensures grants[i].capability != grants[n].capability
    {
    }
  }

  lemma {:induction false} RevocationsCount(grants: seq<Grant>, c: Call, target: Id, n: nat)
    requires n <= |grants| && UniqueActive(grants)
    ensures Revocations(grants, c, target, n) == |Revoked(grants, c, target, n)|
  {
    if n > 0 {
      RevocationsCount(grants, c, target, n - 1);
      if Revokes(grants[n - 1], grants, c, target) {
        NotRevokedTwice(grants, c, target, n - 1);
      }
    }
  }

  lemma {:induction false} DistinctCount(s: seq<string>)
    requires Distinct(s)
    ensures |Elements(s)| == |s|
  {
    if s == [] {
      assert Elements(s) == {};
    } else {
      var front := s[..|s| - 1];
      DistinctCount(front);
      assert s == front + [s[|s| - 1]];
      ElementsConcat(front, [s[|s| - 1]]);
      assert Elements([s[|s| - 1]]) == {s[|s| - 1]};
      assert s[|s| - 1] !in Elements(front);
    }
  }

  /** The revision moves by exactly the number of capabilities lost and gained, so a caller
      that finds it unchanged knows the target's authority is unchanged. */
  lemma RevisionCountsChanges(version: Version, t: Tables, c: Call)
    requires Inv(t) && Replace(version, t, c).1.Ok?
    ensures var u := Replace(version, t, c).0;
            var (was, now) := (Active(t.grants, Target(t, c)), Active(u.grants, Target(t, c)));
            Replace(version, t, c).1.value == t.principals[Target(t, c)].revision + |was - now| + |now - was|
  {
    Cleared(version, t, c);
    var target := Target(t, c);
    var kept := AfterRevoke(t.grants, c, target);
    RevocationsCount(t.grants, c, target, |t.grants|);
    LackingIs(Desired(c), kept, target);
    DistinctCount(Lacking(Desired(c), kept, target));
    LostAndGained(version, t, c);
  }

  /** The revoked and the inserted rows are the capabilities lost and gained. */
  lemma LostAndGained(version: Version, t: Tables, c: Call)
    requires Replace(version, t, c).1.Ok?
    ensures var target := Target(t, c);
            var (was, now) := (Active(t.grants, target), Active(Replaced(t, c).grants, target));
            && was - now == Revoked(t.grants, c, target, |t.grants|)
            && now - was == Elements(Lacking(Desired(c), AfterRevoke(t.grants, c, target), target))
  {
    var target := Target(t, c);
    ReplacementIsSetAlgebra(version, t, c);
    LackingIs(Desired(c), AfterRevoke(t.grants, c, target), target);
    RevokedSet(t.grants, c, target);
    RevokedIs(t.grants, c, target);
  }

  lemma RevokedIs(grants: seq<Grant>, c: Call, target: Id)
    ensures Revoked(grants, c, target, |grants|)
         == Active(grants, target) * (Ceiling(grants, c.actor) - Elements(Desired(c)))
  {
    forall cap
      ensures cap in Revoked(grants, c, target, |grants|)
         <==> cap in Active(grants, target) && cap in Ceiling(grants, c.actor) && cap !in Elements(Desired(c))
    {
      assert cap in Elements(Desired(c)) <==> cap in Desired(c);
      ActiveIsHeld(grants, c.actor, cap);
      RevokedMember(grants, c, target, |grants|, cap);
    }
  }

  // ---------------------------------------------------------------- runs

  /** A run of replacements under either guard, refused calls included. */
  function Run(t: Tables, calls: seq<(Version, Call)>): Tables
    decreases |calls|
  {
    if calls == [] then t
    else
      var before := Run(t, calls[..|calls| - 1]);
      Replace(calls[|calls| - 1].0, before, calls[|calls| - 1].1).0
  }

  lemma {:induction false} RunKeepsInv(t: Tables, calls: seq<(Version, Call)>)
    requires Inv(t)
    ensures Inv(Run(t, calls))
    decreases |calls|
  {
    if calls != [] {
      var last := calls[|calls| - 1];
      RunKeepsInv(t, calls[..|calls| - 1]);
      ReplaceKeepsInv(last.0, Run(t, calls[..|calls| - 1]), last.1);
    }
  }

  /** A tenant with a working controller has one after any run. */
  lemma {:induction false} TenantKeepsController(t: Tables, calls: seq<(Version, Call)>, org: Id)
    requires Inv(t) && HasController(t, org)
    ensures HasController(Run(t, calls), org)
    decreases |calls|
  {
    if calls != [] {
      var last := calls[|calls| - 1];
      TenantKeepsController(t, calls[..|calls| - 1], org);
      RunKeepsInv(t, calls[..|calls| - 1]);
      ReplaceKeepsController(last.0, Run(t, calls[..|calls| - 1]), last.1, org);
    }
  }

  /** The pairs of a principal and a capability it may hand on. */
  function Delegable(grants: seq<Grant>): set<(Id, string)> {
    set i | 0 <= i < |grants| && grants[i].active && grants[i].delegable :: (grants[i].principal, grants[i].capability)
  }

  /** How one grant row may develop: unchanged, or revoked for good. */
  predicate Develops(was: Grant, now: Grant) {
    || now == was
    || (was.active && now == was.(active := false, revision := was.revision + 1, revokedBy := now.revokedBy)
        && now.revokedBy.Some?)
  }

  predicate Extends(was: seq<Grant>, now: seq<Grant>) {
    && |was| <= |now|
    && (forall i :: 0 <= i < |was| ==> Develops(was[i], now[i]))
    && (forall i :: |was| <= i < |now| ==> !now[i].delegable)
  }

  lemma ReplaceExtends(version: Version, t: Tables, c: Call)
    ensures Extends(t.grants, Replace(version, t, c).0.grants)
  {
    if Refusal(version, t, c).None? {
      Cleared(version, t, c);
      var now := Replaced(t, c).grants;
      forall i | 0 <= i < |t.grants| ensures Develops(t.grants[i], now[i]) {
        assert now[i] == AfterRevoke(t.grants, c, Target(t, c))[i];
      }
    }
  }

  lemma {:induction false} RunExtends(t: Tables, calls: seq<(Version, Call)>)
    ensures Extends(t.grants, Run(t, calls).grants)
    decreases |calls|
  {
    if calls != [] {
      var last := calls[|calls| - 1];
      var before := Run(t, calls[..|calls| - 1]);
      RunExtends(t, calls[..|calls| - 1]);
      ReplaceExtends(last.0, before, last.1);
    }
  }

  /** No run enlarges what anyone may hand on, and no revoked row comes back. */
  lemma DelegationNeverGrows(t: Tables, calls: seq<(Version, Call)>)
    ensures Delegable(Run(t, calls).grants) <= Delegable(t.grants)
    ensures forall i :: 0 <= i < |t.grants| && !t.grants[i].active ==>
              i < |Run(t, calls).grants| && Run(t, calls).grants[i] == t.grants[i]
  {
    RunExtends(t, calls);
    var now := Run(t, calls).grants;
    forall x | x in Delegable(now) ensures x in Delegable(t.grants) {
      var i :| 0 <= i < |now| && now[i].active && now[i].delegable && x == (now[i].principal, now[i].capability);
      assert Develops(t.grants[i], now[i]);
    }
  }

  /** Over a run, a principal only ever gains capabilities someone could delegate at the start. */
  lemma {:induction false} GainsTraceToTheStart(t: Tables, calls: seq<(Version, Call)>, p: Id, cap: string)
    requires cap in Active(Run(t, calls).grants, p) && cap !in Active(t.grants, p)
    ensures exists q :: (q, cap) in Delegable(t.grants)
    decreases |calls|
  {
    var last := calls[|calls| - 1];
    var prefix := calls[..|calls| - 1];
    var before := Run(t, prefix);
    if cap in Active(before.grants, p) {
      GainsTraceToTheStart(t, prefix, p, cap);
    } else {
      ReplacementIsSetAlgebra(last.0, before, last.1);
      assert cap in Ceiling(before.grants, last.1.actor);
      DelegationNeverGrows(t, prefix);
      assert (last.1.actor, cap) in Delegable(before.grants);
    }
  }
}
