/** Ceiling-bounded replacement of a staff member's authority, in the conservative
    version and in the one that guards controller continuity exactly. */
module StaffAuthority {
  import opened Common

  type Id = nat

  /** How the last-controller guard predicts the outcome. */
  datatype Version = Conservative | Exact

  datatype Plane = Platform | TenantControl | Operational

  datatype Grant = Grant(
    org: Id, principal: Id, plane: Plane, capability: string, delegable: bool, active: bool,
    revision: int, grantedBy: Id, revokedBy: Option<Id>, provenance: string)

  datatype Principal = Principal(org: Id, human: bool, active: bool, revision: int)

  datatype Membership = Membership(org: Id, principal: Id, active: bool)

  /** `usable` holds the principals with a working identity binding. */
  datatype Tables = Tables(
    memberships: map<Id, Membership>, principals: map<Id, Principal>, grants: seq<Grant>, usable: set<Id>)

  datatype Call = Call(
    org: Id, actor: Id, membership: Id, expected: Option<int>,
    desired: Option<seq<string>>, provenance: Option<string>)

  datatype Error =
    | NotManager | NotFound | SelfReplacement | StaleRevision | InvalidDesired
    | ExceedsCeiling | LastController | InsertRejected

  const MANAGE_AUTHORITY: string := "staff.manage_authority"
  const MANAGE_MEMBERSHIP: string := "staff.manage_membership"
  const BIND: string := "identity.bind"

  function ControllerCaps(): set<string> {
    {MANAGE_MEMBERSHIP, MANAGE_AUTHORITY, BIND}
  }

  // ---------------------------------------------------------------- grants as sets

  predicate Holds(grants: seq<Grant>, p: Id, capability: string) {
    exists i :: 0 <= i < |grants| && grants[i].principal == p && grants[i].active && grants[i].capability == capability
  }

  /** The capabilities `p` holds. */
  function Active(grants: seq<Grant>, p: Id): set<string> {
    set i | 0 <= i < |grants| && grants[i].principal == p && grants[i].active :: grants[i].capability
  }

  predicate MayDelegate(grants: seq<Grant>, p: Id, capability: string) {
    exists i :: 0 <= i < |grants| && grants[i].principal == p && grants[i].active
             && grants[i].capability == capability && grants[i].delegable && grants[i].plane != Platform
  }

  /** The capabilities `p` may hand out: its ceiling. */
  function Ceiling(grants: seq<Grant>, p: Id): set<string> {
    set i | 0 <= i < |grants| && grants[i].principal == p && grants[i].active
            && grants[i].delegable && grants[i].plane != Platform :: grants[i].capability
  }

  predicate IsController(grants: seq<Grant>, p: Id) {
    ControllerCaps() <= Active(grants, p)
  }

  /** principal_is_effective_tenant_controller of the baseline schema. */
  predicate EffectiveController(t: Tables, org: Id, p: Id) {
    && p in t.principals && t.principals[p].active
    && IsMember(t, org, p)
    && IsController(t.grants, p)
    && p in t.usable
  }

  predicate IsMember(t: Tables, org: Id, p: Id) {
    exists m :: m in t.memberships && t.memberships[m] == Membership(org, p, true)
  }

  predicate OtherController(t: Tables, org: Id, p: Id) {
    exists m :: m in t.memberships && t.memberships[m].org == org && t.memberships[m].active
             && t.memberships[m].principal != p && EffectiveController(t, org, t.memberships[m].principal)
  }

  /** What constraints and triggers of the grant and membership tables guarantee. */
  predicate Inv(t: Tables) {
    && (forall i :: 0 <= i < |t.grants| ==>
          t.grants[i].principal in t.principals && t.grants[i].org == t.principals[t.grants[i].principal].org)
    && UniqueActive(t.grants)
    && (forall m :: m in t.memberships ==>
          t.memberships[m].principal in t.principals &&
          t.principals[t.memberships[m].principal].org == t.memberships[m].org)
  }

  /** At most one active grant a principal and capability. */
  predicate UniqueActive(grants: seq<Grant>) {
    forall i, j | 0 <= i < j < |grants| && grants[i].active && grants[j].active
                  && grants[i].principal == grants[j].principal :: grants[i].capability != grants[j].capability
  }

  // ---------------------------------------------------------------- the command

  function Desired(c: Call): seq<string> {
    if c.desired.None? then [] else c.desired.value
  }

  predicate Distinct(s: seq<string>) {
    forall i, j :: 0 <= i < j < |s| ==> s[i] != s[j]
  }

  predicate BadDesired(c: Call) {
    || (c.provenance.Some? && Blank(c.provenance.value))
    || (exists i :: 0 <= i < |Desired(c)| && Blank(Desired(c)[i]))
    || !Distinct(Desired(c))
  }

  predicate IsManager(t: Tables, org: Id, actor: Id) {
    && actor in t.principals && t.principals[actor].org == org && t.principals[actor].human
    && t.principals[actor].active
    && IsMember(t, org, actor)
    && Holds(t.grants, actor, MANAGE_AUTHORITY)
  }

  predicate Targets(t: Tables, c: Call) {
    c.membership in t.memberships && t.memberships[c.membership].org == c.org && t.memberships[c.membership].active
    && t.memberships[c.membership].principal in t.principals
  }

  /** The guard's forecast of whether the target will still be a controller. */
  predicate Predicted(version: Version, t: Tables, c: Call, target: Id) {
    match version
    case Conservative => forall cap :: cap in ControllerCaps() ==> cap in Desired(c)
    case Exact => forall cap :: cap in ControllerCaps() && cap in Active(t.grants, target) && cap !in Desired(c)
                                ==> cap !in Ceiling(t.grants, c.actor)
  }

  predicate Revokes(g: Grant, grants: seq<Grant>, c: Call, target: Id) {
    g.principal == target && g.active && g.capability !in Desired(c) && MayDelegate(grants, c.actor, g.capability)
  }

  function AfterRevoke(grants: seq<Grant>, c: Call, target: Id): seq<Grant> {
    seq(|grants|, i requires 0 <= i < |grants| =>
      if Revokes(grants[i], grants, c, target)
      then grants[i].(active := false, revision := grants[i].revision + 1, revokedBy := Some(c.actor))
      else grants[i])
  }

  /** Rows among the first `n` that the command revokes. */
  function Revocations(grants: seq<Grant>, c: Call, target: Id, n: nat): nat
    requires n <= |grants|
  {
    if n == 0 then 0
    else Revocations(grants, c, target, n - 1) + (if Revokes(grants[n - 1], grants, c, target) then 1 else 0)
  }

  /** Desired capabilities the target lacks, in the caller's order. */
  function Lacking(desired: seq<string>, grants: seq<Grant>, target: Id): seq<string> {
    if desired == [] then []
    else (if Holds(grants, target, desired[0]) then [] else [desired[0]]) + Lacking(desired[1..], grants, target)
  }

  /** The plane of the actor's delegable grant, which the new grant copies. */
  function PlaneOf(grants: seq<Grant>, actor: Id, capability: string): Plane {
    if grants == [] then Platform
    else if grants[0].principal == actor && grants[0].active && grants[0].delegable
            && grants[0].capability == capability
    then grants[0].plane
    else PlaneOf(grants[1..], actor, capability)
  }

  function NewGrant(t: Tables, c: Call, target: Id, capability: string): Grant {
    Grant(c.org, target, PlaneOf(t.grants, c.actor, capability), capability, false, true, 1, c.actor, None,
          if c.provenance.Some? then Btrim(c.provenance.value) else "")
  }

  function NewGrants(t: Tables, c: Call, target: Id, lacking: seq<string>): seq<Grant> {
    seq(|lacking|, i requires 0 <= i < |lacking| => NewGrant(t, c, target, lacking[i]))
  }

  /** The guards before the continuity check, in their order. */
  function Barrier(t: Tables, c: Call): Option<Error> {
    if !IsManager(t, c.org, c.actor) then Some(NotManager)
    else if !Targets(t, c) then Some(NotFound)
    else
      var target := t.memberships[c.membership].principal;
      if target == c.actor then Some(SelfReplacement)
      else if c.expected.Some? && t.principals[target].revision != c.expected.value then Some(StaleRevision)
      else if BadDesired(c) then Some(InvalidDesired)
      else if exists i :: 0 <= i < |Desired(c)| && !MayDelegate(t.grants, c.actor, Desired(c)[i])
      then Some(ExceedsCeiling)
      else None
  }

  function Refusal(version: Version, t: Tables, c: Call): Option<Error> {
    var barrier := Barrier(t, c);
    if barrier.Some? then barrier
    else
      var target := t.memberships[c.membership].principal;
      if IsController(t.grants, target) && !Predicted(version, t, c, target) && !OtherController(t, c.org, target)
      then Some(LastController)
      else if Lacking(Desired(c), AfterRevoke(t.grants, c, target), target) != []
              && (!t.principals[target].active || c.provenance.None?) then Some(InsertRejected)
      else None
  }

  function RaisedBy(principals: map<Id, Principal>, p: Id, steps: nat): map<Id, Principal>
    requires p in principals
  {
    principals[p := principals[p].(revision := principals[p].revision + steps)]
  }

  /** Every row revoked or inserted raises the target's revision by one. */
  function Replaced(t: Tables, c: Call): Tables
    requires Targets(t, c)
  {
    var target := t.memberships[c.membership].principal;
    var kept := AfterRevoke(t.grants, c, target);
    var lacking := Lacking(Desired(c), kept, target);
    t.(grants := kept + NewGrants(t, c, target, lacking),
       principals := RaisedBy(t.principals, target, Revocations(t.grants, c, target, |t.grants|) + |lacking|))
  }

  function Replace(version: Version, t: Tables, c: Call): (Tables, Result<int, Error>) {
    var refusal := Refusal(version, t, c);
    if refusal.Some? then (t, Err(refusal.value))
    else
      var u := Replaced(t, c);
      (u, Ok(u.principals[t.memberships[c.membership].principal].revision))
  }

  // ---------------------------------------------------------------- the tables

  /** The tables, changed in place by the command. */
  class StaffTables {
    var memberships: map<Id, Membership>
    var principals: map<Id, Principal>
    var grants: seq<Grant>
    var usable: set<Id>

    function Stored(): Tables reads this {
      Tables(memberships, principals, grants, usable)
    }

    constructor (t: Tables)
      ensures Stored() == t
    {
      memberships, principals, grants, usable := t.memberships, t.principals, t.grants, t.usable;
    }

    /** Checks every desired capability against the actor's ceiling. */
    method WithinCeiling(actor: Id, desired: seq<string>) returns (within: bool)
      ensures within <==> forall i :: 0 <= i < |desired| ==> MayDelegate(grants, actor, desired[i])
    {
      for i := 0 to |desired|
        invariant forall k :: 0 <= k < i ==> MayDelegate(grants, actor, desired[k])
      {
        if !MayDelegate(grants, actor, desired[i]) {
          return false;
        }
      }
      return true;
    }

    /** One row at a time; the grant trigger raises the target's revision. */
    method RevokeOmitted(c: Call, target: Id)
      requires target in principals && target != c.actor
      modifies this`grants, this`principals
      ensures grants == AfterRevoke(old(grants), c, target)
      ensures principals == RaisedBy(old(principals), target, Revocations(old(grants), c, target, |old(grants)|))
    {
      ghost var before := grants;
      for i := 0 to |grants|
        invariant RevokedUpTo(grants, before, c, target, i)
        invariant principals == RaisedBy(old(principals), target, Revocations(before, c, target, i))
      {
        var g := grants[i];
        NextRow(grants, before, c, target, i);
        RaisedOnce(old(principals), target, Revocations(before, c, target, i));
        if Revokes(g, grants, c, target) {
          grants := grants[i := g.(active := false, revision := g.revision + 1, revokedBy := Some(c.actor))];
          principals := RaisedBy(principals, target, 1);
        }
      }
      LastRow(grants, before, c, target);
    }

    method InsertLacking(c: Call, target: Id, ghost t: Tables)
      requires target in principals && Distinct(Desired(c)) && target != c.actor
      requires forall a :: a in Desired(c) ==> PlaneOf(grants, c.actor, a) == PlaneOf(t.grants, c.actor, a)
      modifies this`grants, this`principals
      ensures var lacking := Lacking(Desired(c), old(grants), target);
              && grants == old(grants) + NewGrants(t, c, target, lacking)
              && principals == RaisedBy(old(principals), target, |lacking|)
    {
      var desired := Desired(c);
      ghost var lacking: seq<string> := [];
      for i := 0 to |desired|
        invariant InsertedUpTo(grants, old(grants), t, c, target, lacking, i)
        invariant principals == RaisedBy(old(principals), target, |lacking|)
      {
        NextInsert(grants, old(grants), t, c, target, lacking, i);
        RaisedOnce(old(principals), target, |lacking|);
        if !Holds(grants, target, desired[i]) {
          grants := grants + [Grant(c.org, target, PlaneOf(grants, c.actor, desired[i]), desired[i], false, true, 1,
                                    c.actor, None, if c.provenance.Some? then Btrim(c.provenance.value) else "")];
          principals := RaisedBy(principals, target, 1);
          lacking := lacking + [desired[i]];
        }
      }
      assert desired[..|desired|] == desired;
    }

    /** Every check the command makes before its first write. */
    method Check(version: Version, c: Call) returns (refusal: Option<Error>)
      ensures refusal == Refusal(version, Stored(), c)
    {
      if !IsManager(Stored(), c.org, c.actor) {
        return Some(NotManager);
      }
      if !Targets(Stored(), c) {
        return Some(NotFound);
      }
      var target := memberships[c.membership].principal;
      if target == c.actor {
        return Some(SelfReplacement);
      }
      if c.expected.Some? && principals[target].revision != c.expected.value {
        return Some(StaleRevision);
      }
      if BadDesired(c) {
        return Some(InvalidDesired);
      }
      var within := WithinCeiling(c.actor, Desired(c));
      if !within {
        return Some(ExceedsCeiling);
      }
      if IsController(grants, target) && !Predicted(version, Stored(), c, target)
         && !OtherController(Stored(), c.org, target) {
        return Some(LastController);
      }
      if Lacking(Desired(c), AfterRevoke(grants, c, target), target) != []
         && (!principals[target].active || c.provenance.None?) {
        return Some(InsertRejected);
      }
      return None;
    }

    /** The two loops of writes, once every check has passed. */
    method Write(c: Call, target: Id)
      requires Targets(Stored(), c) && target == memberships[c.membership].principal && target != c.actor
      requires Distinct(Desired(c))
      modifies this`grants, this`principals
      ensures Stored() == Replaced(old(Stored()), c)
    {
      ghost var t := Stored();
      RevokeOmitted(c, target);
      PlaneAfterRevokeAll(t.grants, c, target);
      InsertLacking(c, target, t);
    }

    method ReplaceStaffAuthority(version: Version, c: Call) returns (reply: Result<int, Error>)
      modifies this`grants, this`principals
      ensures (Stored(), reply) == Replace(version, old(Stored()), c)
    {
      var refusal := Check(version, c);
      if refusal.Some? {
        return Err(refusal.value);
      }
      Cleared(version, Stored(), c);
      var target := memberships[c.membership].principal;
      Write(c, target);
      return Ok(principals[target].revision);
    }
  }

  // ---------------------------------------------------------------- row lemmas

  /** What a call that is not refused has passed. */
  lemma Cleared(version: Version, t: Tables, c: Call)
    requires Refusal(version, t, c).None?
    ensures Targets(t, c) && t.memberships[c.membership].principal != c.actor
    ensures Distinct(Desired(c)) && (c.provenance.Some? ==> !Blank(c.provenance.value))
    ensures forall i :: 0 <= i < |Desired(c)| ==> MayDelegate(t.grants, c.actor, Desired(c)[i])
  {
  }

  /** The rows before the `i`-th are as the whole loop leaves them, the others as they were. */
  predicate RevokedUpTo(now: seq<Grant>, before: seq<Grant>, c: Call, target: Id, i: nat) {
    && |now| == |before|
    && forall k :: 0 <= k < |before| ==> now[k] == if k < i then AfterRevoke(before, c, target)[k] else before[k]
  }

  lemma NextRow(now: seq<Grant>, before: seq<Grant>, c: Call, target: Id, i: nat)
    requires i < |now| && target != c.actor && RevokedUpTo(now, before, c, target, i)
    ensures var g := now[i];
            var revoked := g.(active := false, revision := g.revision + 1, revokedBy := Some(c.actor));
            if Revokes(g, now, c, target)
            then RevokedUpTo(now[i := revoked], before, c, target, i + 1)
                 && Revocations(before, c, target, i + 1) == Revocations(before, c, target, i) + 1
            else RevokedUpTo(now, before, c, target, i + 1)
                 && Revocations(before, c, target, i + 1) == Revocations(before, c, target, i)
  {
    ActorUntouched(before, now, c, target, now[i].capability);
  }

  /** The rows of the first `i` desired capabilities are in: those of `lacking`. */
  predicate InsertedUpTo(
      now: seq<Grant>, before: seq<Grant>, t: Tables, c: Call, target: Id, lacking: seq<string>, i: nat)
  {
    && i <= |Desired(c)| && lacking == Lacking(Desired(c)[..i], before, target)
    && (forall a :: a in lacking ==> a in Desired(c)[..i])
    && now == before + NewGrants(t, c, target, lacking)
  }

  lemma NextInsert(
      now: seq<Grant>, before: seq<Grant>, t: Tables, c: Call, target: Id, lacking: seq<string>, i: nat)
    requires InsertedUpTo(now, before, t, c, target, lacking, i) && i < |Desired(c)| && Distinct(Desired(c))
    requires target != c.actor
    requires PlaneOf(before, c.actor, Desired(c)[i]) == PlaneOf(t.grants, c.actor, Desired(c)[i])
    ensures var cap := Desired(c)[i];
            if Holds(now, target, cap) then InsertedUpTo(now, before, t, c, target, lacking, i + 1)
            else PlaneOf(now, c.actor, cap) == PlaneOf(t.grants, c.actor, cap)
                 && InsertedUpTo(now + [NewGrant(t, c, target, cap)], before, t, c, target, lacking + [cap], i + 1)
  {
    var (desired, cap) := (Desired(c), Desired(c)[i]);
    LackingConcat(desired[..i], [cap], before, target);
    assert desired[..i + 1] == desired[..i] + [cap];
    HoldsAfterInserts(before, t, c, target, lacking, cap);
    PlaneAfterInserts(before, NewGrants(t, c, target, lacking), c.actor, cap);
    assert NewGrants(t, c, target, lacking + [cap])
        == NewGrants(t, c, target, lacking) + [NewGrant(t, c, target, cap)];
  }

  lemma LastRow(now: seq<Grant>, before: seq<Grant>, c: Call, target: Id)
    requires RevokedUpTo(now, before, c, target, |before|)
    ensures now == AfterRevoke(before, c, target)
  {
  }

  lemma RaisedOnce(principals: map<Id, Principal>, p: Id, steps: nat)
    requires p in principals
    ensures RaisedBy(RaisedBy(principals, p, steps), p, 1) == RaisedBy(principals, p, steps + 1)
  {
  }

  /** Revoking rows of the target leaves what the actor may delegate. */
  lemma ActorUntouched(before: seq<Grant>, now: seq<Grant>, c: Call, target: Id, cap: string)
    requires |now| == |before| && target != c.actor
    requires forall k :: 0 <= k < |now| ==> now[k] == before[k] || now[k] == AfterRevoke(before, c, target)[k]
    ensures MayDelegate(now, c.actor, cap) <==> MayDelegate(before, c.actor, cap)
  {
    forall k | 0 <= k < |now| && before[k].principal == c.actor ensures now[k] == before[k] {
    }
  }

  lemma {:induction false} LackingConcat(a: seq<string>, b: seq<string>, grants: seq<Grant>, target: Id)
    ensures Lacking(a + b, grants, target) == Lacking(a, grants, target) + Lacking(b, grants, target)
  {
    if a == [] {
      assert a + b == b;
    } else {
      assert (a + b)[1..] == a[1..] + b;
      LackingConcat(a[1..], b, grants, target);
    }
  }

  lemma HoldsAfterInserts(grants: seq<Grant>, t: Tables, c: Call, target: Id, lacking: seq<string>, cap: string)
    requires cap !in lacking
    ensures Holds(grants + NewGrants(t, c, target, lacking), target, cap) <==> Holds(grants, target, cap)
  {
    var more := NewGrants(t, c, target, lacking);
    if i :| 0 <= i < |grants| && grants[i].principal == target && grants[i].active && grants[i].capability == cap {
      assert (grants + more)[i] == grants[i];
    }
  }

  lemma {:induction false} PlaneAfterInserts(grants: seq<Grant>, more: seq<Grant>, actor: Id, cap: string)
    requires forall i :: 0 <= i < |more| ==> more[i].principal != actor
    ensures PlaneOf(grants + more, actor, cap) == PlaneOf(grants, actor, cap)
  {
    if grants == [] {
      assert grants + more == more;
      PlaneOfNone(more, actor, cap);
    } else {
      assert (grants + more)[1..] == grants[1..] + more;
      PlaneAfterInserts(grants[1..], more, actor, cap);
    }
  }

  lemma {:induction false} PlaneOfNone(grants: seq<Grant>, actor: Id, cap: string)
    requires forall i :: 0 <= i < |grants| ==> grants[i].principal != actor
    ensures PlaneOf(grants, actor, cap) == Platform
  {
    if grants != [] { PlaneOfNone(grants[1..], actor, cap); }
  }

  lemma {:induction false} PlaneAfterRevoke(before: seq<Grant>, now: seq<Grant>, actor: Id, cap: string)
    requires |before| == |now|
    requires forall i :: 0 <= i < |now| ==>
               now[i] == before[i] || (before[i].principal != actor && now[i].principal != actor)
    ensures PlaneOf(now, actor, cap) == PlaneOf(before, actor, cap)
  {
    if before != [] { PlaneAfterRevoke(before[1..], now[1..], actor, cap); }
  }

  lemma PlaneAfterRevokeAll(grants: seq<Grant>, c: Call, target: Id)
    requires target != c.actor
    ensures forall cap :: PlaneOf(AfterRevoke(grants, c, target), c.actor, cap) == PlaneOf(grants, c.actor, cap)
  {
    forall cap ensures PlaneOf(AfterRevoke(grants, c, target), c.actor, cap) == PlaneOf(grants, c.actor, cap) {
      PlaneAfterRevoke(grants, AfterRevoke(grants, c, target), c.actor, cap);
    }
  }
}
