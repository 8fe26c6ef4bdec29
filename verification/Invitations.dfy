/** Staff invitations: the row guard that every write passes, and the acceptance that turns
    a proof into a principal, an identity binding and a membership.
    Times are integer microseconds. */
module Invitations {
  import opened Common

  type Id = nat

  datatype Status = Pending | Accepted | Revoked | Expired

  /** Whom an accepted invitation made a member of staff, and the rows made for it. */
  datatype Links = Links(identity: Option<Id>, membership: Option<Id>, principal: Option<Id>, binding: Option<Id>)

  datatype Invitation = Invitation(
    org: Id, email: string, inviter: Id, provenance: string, status: Status, revision: int, generation: int,
    digest: string, expires: int, created: int, links: Links)

  datatype Subject = Native(identity: Id) | OtherSubject(name: string)

  datatype Principal = Principal(org: Id, human: bool, subject: Subject)
  datatype Binding = Binding(org: Id, principal: Id, authority: Id, subject: Id, live: bool)
  datatype Membership = Membership(org: Id, principal: Id, binding: Id, establishedBy: Id,
    provenance: string, active: bool)

  datatype Tables = Tables(
    invitations: map<Id, Invitation>, principals: map<Id, Principal>, bindings: map<Id, Binding>,
    memberships: map<Id, Membership>)

  datatype Error =
    | BadCreation | BadLifecycle | NeedsSubjectProof | NotManager | MustRotate | MayNotReplaceProof
    | CheckViolation | UniqueViolation | NoRow
    | Unavailable | OrganizationUnavailable | AuthorityUnavailable | IdentityUnavailable
    | SessionUnavailable | AuthenticatorUnavailable | OtherIdentity | NoLongerPending | InviterWithdrawn
    | RootUnavailable

  // ---------------------------------------------------------------- the guard of the table

  /** The trigger on INSERT; `manager` is the caller when it may manage invitations. */
  function InsertGuard(row: Invitation, manager: Option<Id>): Option<Error> {
    if row.revision != 1 || row.generation != 1 || row.status != Pending then Some(BadCreation)
    else if manager.None? then Some(NotManager)
    else if row.inviter != manager.value then Some(BadCreation)
    else None
  }

  /** The trigger on UPDATE; `owner` says that the definer of the acceptance command writes. */
  function UpdateGuard(was: Invitation, row: Invitation, owner: bool, manager: Option<Id>): Option<Error> {
    if was.status != Pending || row.revision != was.revision + 1
       || (row.org, row.email, row.inviter, row.created, row.provenance)
          != (was.org, was.email, was.inviter, was.created, was.provenance) then Some(BadLifecycle)
    else if row.status == Accepted && !owner then Some(NeedsSubjectProof)
    else if row.status != Accepted && manager.None? then Some(NotManager)
    else if row.status == Pending && (row.generation != was.generation + 1 || row.digest == was.digest)
      then Some(MustRotate)
    else if row.status != Pending
         && (row.generation != was.generation || row.digest != was.digest || row.expires != was.expires)
      then Some(MayNotReplaceProof)
    else None
  }

  predicate IsMailbox(c: char) {
    'a' <= c <= 'z' || '0' <= c <= '9' || c in {'.', '_', '%', '+', '-'}
  }

  predicate IsHost(c: char) {
    'a' <= c <= 'z' || '0' <= c <= '9' || c in {'.', '-'}
  }

  /** A mailbox, an at sign and a host; that it is trimmed and in lower case follows. */
  predicate IsEmail(s: string) {
    && 3 <= |s| <= 320
    && exists n :: 0 < n < |s| - 1 && s[n] == '@' && (forall i :: 0 <= i < n ==> IsMailbox(s[i]))
                   && forall i :: n < i < |s| ==> IsHost(s[i])
  }

  predicate IsProvenance(s: string) {
    1 <= |Btrim(s)| <= 500
  }

  /** The CHECK constraints of the table on email and provenance, which an update cannot change. */
  predicate TextHolds(row: Invitation) {
    IsEmail(row.email) && IsProvenance(row.provenance)
  }

  /** The other CHECK constraints of the table. */
  predicate RowHolds(row: Invitation) {
    && row.revision > 0 && row.generation > 0 && IsDigest(row.digest) && row.expires > row.created
    && (row.status == Accepted <==>
          row.links.identity.Some? && row.links.membership.Some? &&
          row.links.principal.Some? && row.links.binding.Some?)
    && (row.status == Accepted || row.links == Links(None, None, None, None))
  }

  /** The unique pending email of an organization. */
  predicate EmailTaken(invitations: map<Id, Invitation>, id: Id, row: Invitation) {
    row.status == Pending
    && exists k :: k in invitations && k != id && invitations[k].status == Pending
                && invitations[k].org == row.org && invitations[k].email == row.email
  }

  function RowError(invitations: map<Id, Invitation>, id: Id, row: Invitation): Option<Error> {
    if !RowHolds(row) then Some(CheckViolation)
    else if EmailTaken(invitations, id, row) then Some(UniqueViolation)
    else None
  }

  function InsertRow(t: Tables, id: Id, row: Invitation, manager: Option<Id>): (Tables, Option<Error>) {
    if InsertGuard(row, manager).Some? then (t, InsertGuard(row, manager))
    else if !TextHolds(row) || !RowHolds(row) then (t, Some(CheckViolation))
    else if id in t.invitations || EmailTaken(t.invitations, id, row) then (t, Some(UniqueViolation))
    else (t.(invitations := t.invitations[id := row]), None)
  }

  function UpdateRow(t: Tables, id: Id, row: Invitation, owner: bool, manager: Option<Id>): (Tables, Option<Error>) {
    if id !in t.invitations then (t, Some(NoRow))
    else if UpdateGuard(t.invitations[id], row, owner, manager).Some?
    then (t, UpdateGuard(t.invitations[id], row, owner, manager))
    else if RowError(t.invitations, id, row).Some? then (t, RowError(t.invitations, id, row))
    else (t.(invitations := t.invitations[id := row]), None)
  }

  // ---------------------------------------------------------------- invitation

  /** Who invites whom; `manages` says whether the actor may manage invitations, `now` and
      `created` are the clock at the update and at the insert. */
  datatype InviteCall = InviteCall(
    id: Id, org: Id, actor: Id, manages: bool, email: string, provenance: string, digest: string, expires: int,
    now: int, created: int)

  function Manager(c: InviteCall): Option<Id> {
    if c.manages then Some(c.actor) else None
  }

  function NewRow(c: InviteCall): Invitation {
    Invitation(c.org, c.email, c.actor, c.provenance, Pending, 1, 1, c.digest, c.expires, c.created,
               Links(None, None, None, None))
  }

  function ExpiredRow(row: Invitation): Invitation {
    row.(status := Expired, revision := row.revision + 1)
  }

  /** The pending invitations of the organization for the email that are past their expiry. */
  function Lapsed(invitations: map<Id, Invitation>, c: InviteCall): set<Id> {
    set id | id in invitations && invitations[id].org == c.org && invitations[id].email == c.email
             && invitations[id].status == Pending && invitations[id].expires <= c.now
  }

  function WithExpired(invitations: map<Id, Invitation>, ids: set<Id>): map<Id, Invitation> {
    map id | id in invitations :: if id in ids then ExpiredRow(invitations[id]) else invitations[id]
  }

  /** Lapsed invitations of the email are closed and a new one is made, or nothing changes. */
  function Invite(t: Tables, c: InviteCall): (Tables, Option<Error>) {
    if !c.manages then (t, Some(NotManager))
    else
      var u := t.(invitations := WithExpired(t.invitations, Lapsed(t.invitations, c)));
      var (v, error) := InsertRow(u, c.id, NewRow(c), Manager(c));
      if error.Some? then (t, error) else (v, None)
  }

  // ---------------------------------------------------------------- acceptance

  /** The caller's proof and session; the flags are what the reads of other tables find. */
  datatype AcceptCall = AcceptCall(
    id: Option<Id>, digest: Option<string>, authority: Option<Id>, identity: Option<Id>, session: Option<Id>,
    membership: Id, principal: Id, binding: Id, now: int,
    organizationActive: bool, authorityActive: bool, identityActive: bool, sessionActive: bool,
    authenticatorActive: bool, inviterStands: bool, rootStands: bool)

  predicate ProofGiven(c: AcceptCall) {
    c.id.Some? && c.digest.Some? && IsDigest(c.digest.value) && c.authority.Some? && c.identity.Some? && c.session.Some?
  }

  /** lock_staff_invitation_acceptance: its checks in their order. */
  function LockAcceptance(t: Tables, c: AcceptCall): Result<Invitation, Error> {
    if !ProofGiven(c) then Err(Unavailable)
    else if c.id.value !in t.invitations || t.invitations[c.id.value].digest != c.digest.value then Err(Unavailable)
    else
      var row := t.invitations[c.id.value];
      if !c.organizationActive then Err(OrganizationUnavailable)
      else if !c.authorityActive then Err(AuthorityUnavailable)
      else if !c.identityActive then Err(IdentityUnavailable)
      else if !c.sessionActive then Err(SessionUnavailable)
      else if !c.authenticatorActive then Err(AuthenticatorUnavailable)
      else if row.status == Accepted then
        (if row.links.identity != c.identity then Err(OtherIdentity) else Ok(row))
      else if row.status != Pending || row.expires <= c.now then Err(NoLongerPending)
      else if !c.inviterStands then Err(InviterWithdrawn)
      else Ok(row)
  }

  predicate SubjectTaken(principals: map<Id, Principal>, org: Id, subject: Subject) {
    exists k :: k in principals && principals[k] == Principal(org, true, subject)
  }

  predicate LiveBindingTaken(bindings: map<Id, Binding>, org: Id, authority: Id, subject: Id) {
    exists k :: k in bindings && bindings[k].live && bindings[k].org == org
             && bindings[k].authority == authority && bindings[k].subject == subject
  }

  function MadePrincipal(c: AcceptCall, row: Invitation): Principal
    requires ProofGiven(c)
  {
    Principal(row.org, true, Native(c.identity.value))
  }

  function MadeBinding(c: AcceptCall, row: Invitation): Binding
    requires ProofGiven(c)
  {
    Binding(row.org, c.principal, c.authority.value, c.identity.value, true)
  }

  function MadeMembership(c: AcceptCall, row: Invitation): Membership {
    Membership(row.org, c.principal, c.binding, row.inviter, row.provenance, true)
  }

  function AcceptedRow(c: AcceptCall, row: Invitation): Invitation {
    row.(status := Accepted, revision := row.revision + 1,
         links := Links(c.identity, Some(c.membership), Some(c.principal), Some(c.binding)))
  }

  /** The unique constraints on the three inserted rows. */
  predicate Collides(t: Tables, c: AcceptCall, row: Invitation)
    requires ProofGiven(c)
  {
    || c.principal in t.principals || SubjectTaken(t.principals, row.org, Native(c.identity.value))
    || c.binding in t.bindings || LiveBindingTaken(t.bindings, row.org, c.authority.value, c.identity.value)
    || c.membership in t.memberships
  }

  function Materialize(t: Tables, c: AcceptCall): (Tables, Option<Error>) {
    match LockAcceptance(t, c)
    case Err(error) => (t, Some(error))
    case Ok(row) =>
      if row.status == Accepted then (t, None)
      else if !c.rootStands then (t, Some(RootUnavailable))
      else if Collides(t, c, row) then (t, Some(UniqueViolation))
      else
        var u := Tables(t.invitations, t.principals[c.principal := MadePrincipal(c, row)],
                        t.bindings[c.binding := MadeBinding(c, row)],
                        t.memberships[c.membership := MadeMembership(c, row)]);
        var (v, error) := UpdateRow(u, c.id.value, AcceptedRow(c, row), true, None);
        if error.Some? then (t, error) else (v, None)
  }

  // ---------------------------------------------------------------- the tables

  class InvitationStore {
    var invitations: map<Id, Invitation>
    var principals: map<Id, Principal>
    var bindings: map<Id, Binding>
    var memberships: map<Id, Membership>

    function Stored(): Tables reads this {
      Tables(invitations, principals, bindings, memberships)
    }

    constructor (t: Tables)
      ensures Stored() == t
    {
      invitations, principals, bindings, memberships := t.invitations, t.principals, t.bindings, t.memberships;
    }

    /** The UPDATE with its guard and constraints. */
    method UpdateInvitation(id: Id, row: Invitation, owner: bool, manager: Option<Id>) returns (error: Option<Error>)
      modifies this`invitations
      ensures (Stored(), error) == UpdateRow(old(Stored()), id, row, owner, manager)
    {
      if id !in invitations {
        return Some(NoRow);
      }
      error := UpdateGuard(invitations[id], row, owner, manager);
      if error.Some? {
        return;
      }
      error := RowError(invitations, id, row);
      if error.Some? {
        return;
      }
      invitations := invitations[id := row];
    }

    method InsertInvitation(id: Id, row: Invitation, manager: Option<Id>) returns (error: Option<Error>)
      modifies this`invitations
      ensures (Stored(), error) == InsertRow(old(Stored()), id, row, manager)
    {
      error := InsertGuard(row, manager);
      if error.Some? {
        return;
      }
      if !TextHolds(row) || !RowHolds(row) {
        return Some(CheckViolation);
      }
      if id in invitations || EmailTaken(invitations, id, row) {
        return Some(UniqueViolation);
      }
      invitations := invitations[id := row];
    }

    /** The closing UPDATE, row by row. That the CHECK constraints hold of the stored rows is
        what lets every one of them pass. */
    method CloseLapsed(c: InviteCall)
      requires c.manages && forall id :: id in invitations ==> RowHolds(invitations[id])
      modifies this`invitations
      ensures invitations == WithExpired(old(invitations), Lapsed(old(invitations), c))
    {
      var before := invitations;
      var left := Lapsed(before, c);
      while left != {}
        invariant left <= Lapsed(before, c)
        invariant invitations == WithExpired(before, Lapsed(before, c) - left)
        decreases |left|
      {
        var id :| id in left;
        var closed := UpdateInvitation(id, ExpiredRow(invitations[id]), false, Manager(c));
        left := left - {id};
      }
      assert Lapsed(before, c) - {} == Lapsed(before, c);
    }

    /** The lapsed invitations, then the new one; an error undoes them all. */
    method CreateInvitation(c: InviteCall) returns (error: Option<Error>)
      requires forall id :: id in invitations ==> RowHolds(invitations[id])
      modifies this`invitations
      ensures (Stored(), error) == Invite(old(Stored()), c)
    {
      if !c.manages {
        return Some(NotManager);
      }
      var before := invitations;
      CloseLapsed(c);
      error := InsertInvitation(c.id, NewRow(c), Manager(c));
      if error.Some? {
        invitations := before;
      }
    }

    /** Three inserts, then the invitation itself; any error undoes them all. */
    method MaterializeInvitedStaff(c: AcceptCall) returns (error: Option<Error>)
      modifies this
      ensures (Stored(), error) == Materialize(old(Stored()), c)
    {
      var locked := LockAcceptance(Stored(), c);
      if locked.Err? {
        return Some(locked.error);
      }
      var row := locked.value;
      if row.status == Accepted {
        return None;
      }
      if !c.rootStands {
        return Some(RootUnavailable);
      }
      if Collides(Stored(), c, row) {
        return Some(UniqueViolation);
      }
      var before := Stored();
      principals := principals[c.principal := MadePrincipal(c, row)];
      bindings := bindings[c.binding := MadeBinding(c, row)];
      memberships := memberships[c.membership := MadeMembership(c, row)];
      error := UpdateInvitation(c.id.value, AcceptedRow(c, row), true, None);
      if error.Some? {
        principals, bindings, memberships := before.principals, before.bindings, before.memberships;
      }
    }
  }
}
