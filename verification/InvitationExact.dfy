/** Exactly when writes to invitations pass and acceptances succeed, and what these make, in the
    fields of the tables. */
module InvitationExact {
  import opened Common
  import opened Invitations
  import opened InvitationRuns

  // ---------------------------------------------------------------- the guarded writes

  predicate NoLinks(row: Invitation) {
    row.links.identity.None? && row.links.membership.None? && row.links.principal.None? && row.links.binding.None?
  }

  predicate AllLinks(row: Invitation) {
    row.links.identity.Some? && row.links.membership.Some? && row.links.principal.Some? && row.links.binding.Some?
  }

  /** No other pending invitation of the organization for the email. */
  predicate EmailFree(t: Tables, id: Id, row: Invitation) {
    forall k :: k in t.invitations && k != id && t.invitations[k].status == Pending ==>
      t.invitations[k].org != row.org || t.invitations[k].email != row.email
  }

  /** An update passes exactly when it closes a pending row or rotates its proof, at the next
      revision, on the authority that the change needs, and leaves the rest of the row alone. */
  lemma UpdatePassesExactlyWhen(t: Tables, id: Id, row: Invitation, owner: bool, manager: Option<Id>)
    ensures UpdateRow(t, id, row, owner, manager).1.None? <==>
              id in t.invitations
              && var was := t.invitations[id];
                 && was.status == Pending && row.revision == was.revision + 1 && 0 < row.revision
                 && row.org == was.org && row.email == was.email && row.inviter == was.inviter
                 && row.created == was.created && row.provenance == was.provenance
                 && row.created < row.expires && IsDigest(row.digest) && 0 < row.generation
                 && match row.status
                    case Pending =>
                      && manager.Some? && NoLinks(row) && EmailFree(t, id, row)
                      && row.generation == was.generation + 1 && row.digest != was.digest
                    case Accepted =>
                      && owner && AllLinks(row)
                      && row.generation == was.generation && row.digest == was.digest && row.expires == was.expires
                    case Revoked =>
                      && manager.Some? && NoLinks(row)
                      && row.generation == was.generation && row.digest == was.digest && row.expires == was.expires
                    case Expired =>
                      && manager.Some? && NoLinks(row)
                      && row.generation == was.generation && row.digest == was.digest && row.expires == was.expires
    ensures UpdateRow(t, id, row, owner, manager).0
         == if UpdateRow(t, id, row, owner, manager).1.None? then t.(invitations := t.invitations[id := row]) else t
  {
  }

  predicate IsAddress(s: string, mailbox: string, host: string) {
    && 3 <= |s| <= 320 && s == mailbox + "@" + host && mailbox != "" && host != ""
    && (forall i :: 0 <= i < |mailbox| ==>
          'a' <= mailbox[i] <= 'z' || '0' <= mailbox[i] <= '9' || mailbox[i] in "._%+-")
    && (forall i :: 0 <= i < |host| ==> 'a' <= host[i] <= 'z' || '0' <= host[i] <= '9' || host[i] in ".-")
  }

  lemma CharsAre(c: char)
    ensures IsMailbox(c) <==> 'a' <= c <= 'z' || '0' <= c <= '9' || c in "._%+-"
    ensures IsHost(c) <==> 'a' <= c <= 'z' || '0' <= c <= '9' || c in ".-"
  {
    var (mailbox, host) := ("._%+-", ".-");
    assert mailbox[0] == '.' && mailbox[1] == '_' && mailbox[2] == '%' && mailbox[3] == '+' && mailbox[4] == '-';
    assert host[0] == '.' && host[1] == '-';
  }

  lemma PartsAre(mailbox: string, host: string)
    ensures (forall i :: 0 <= i < |mailbox| ==> IsMailbox(mailbox[i])) <==>
              forall i :: 0 <= i < |mailbox| ==>
                'a' <= mailbox[i] <= 'z' || '0' <= mailbox[i] <= '9' || mailbox[i] in "._%+-"
    ensures (forall i :: 0 <= i < |host| ==> IsHost(host[i])) <==>
              forall i :: 0 <= i < |host| ==> 'a' <= host[i] <= 'z' || '0' <= host[i] <= '9' || host[i] in ".-"
  {
    forall c: char
      ensures IsMailbox(c) <==> 'a' <= c <= 'z' || '0' <= c <= '9' || c in "._%+-"
      ensures IsHost(c) <==> 'a' <= c <= 'z' || '0' <= c <= '9' || c in ".-"
    {
      CharsAre(c);
    }
  }

  /** An at sign at `n` splits an email into its mailbox and host. */
  lemma EmailSplits(s: string, n: nat)
    requires 0 < n < |s| - 1 && s[n] == '@' && 3 <= |s| <= 320
    requires forall i :: 0 <= i < n ==> IsMailbox(s[i])
    requires forall i :: n < i < |s| ==> IsHost(s[i])
    ensures IsAddress(s, s[..n], s[n + 1..])
  {
    assert s == s[..n] + "@" + s[n + 1..];
    var host := s[n + 1..];
    forall i | 0 <= i < |host| ensures IsHost(host[i]) { assert host[i] == s[n + 1 + i]; }
    PartsAre(s[..n], host);
  }

  lemma AddressJoins(s: string, mailbox: string, host: string)
    requires IsAddress(s, mailbox, host)
    ensures IsEmail(s)
  {
    PartsAre(mailbox, host);
    var n := |mailbox|;
    assert s[n] == '@';
    assert forall i :: 0 <= i < n ==> s[i] == mailbox[i];
    assert forall i :: n < i < |s| ==> s[i] == host[i - n - 1];
  }

  lemma EmailIs(s: string)
    ensures IsEmail(s) <==> exists mailbox, host :: IsAddress(s, mailbox, host)
  {
    if IsEmail(s) {
      var n :| 0 < n < |s| - 1 && s[n] == '@' && (forall i :: 0 <= i < n ==> IsMailbox(s[i]))
               && forall i :: n < i < |s| ==> IsHost(s[i]);
      EmailSplits(s, n);
    }
    if mailbox, host :| IsAddress(s, mailbox, host) { AddressJoins(s, mailbox, host); }
  }

  /** An insert passes exactly for a first revision of a new pending row in order, by the manager
      who invites, while the email has no other pending one. */
  lemma InsertPassesExactlyWhen(t: Tables, id: Id, row: Invitation, manager: Option<Id>)
    ensures InsertRow(t, id, row, manager).1.None? <==>
              && row.status == Pending && row.revision == 1 && row.generation == 1 && manager == Some(row.inviter)
              && (exists mailbox, host :: IsAddress(row.email, mailbox, host))
              && 1 <= |Btrim(row.provenance)| <= 500
              && IsDigest(row.digest) && row.created < row.expires && NoLinks(row)
              && id !in t.invitations && EmailFree(t, id, row)
    ensures InsertRow(t, id, row, manager).0
         == if InsertRow(t, id, row, manager).1.None? then t.(invitations := t.invitations[id := row]) else t
  {
    EmailIs(row.email);
  }

  // ---------------------------------------------------------------- accepting

  /** The proof in place is presented, in a session of an identity in force. */
  predicate IsPresented(t: Tables, c: AcceptCall) {
    && c.id.Some? && c.id.value in t.invitations && c.digest == Some(t.invitations[c.id.value].digest)
    && c.authority.Some? && c.identity.Some? && c.session.Some?
    && c.organizationActive && c.authorityActive && c.identityActive && c.sessionActive && c.authenticatorActive
  }

  /** Nothing stands in the way of the three new rows. */
  predicate RowsAreFree(t: Tables, c: AcceptCall, org: Id) {
    && c.principal !in t.principals && c.binding !in t.bindings && c.membership !in t.memberships
    && c.identity.Some? && c.authority.Some?
    && (forall k :: k in t.principals ==> t.principals[k] != Principal(org, true, Native(c.identity.value)))
    && (forall k :: k in t.bindings && t.bindings[k].live && t.bindings[k].org == org ==>
          t.bindings[k].authority != c.authority.value || t.bindings[k].subject != c.identity.value)
  }

  /** In a reachable state an acceptance succeeds if and only if its proof is presented and the
      invitation is pending, unexpired, of an inviter who still stands, under a tenant root, with
      its rows free; or it has been accepted by the same identity. */
  lemma AcceptanceSucceedsExactlyWhen(w: World, c: AcceptCall)
    requires Inv(w)
    ensures Materialize(w.t, c).1.None? <==>
              IsPresented(w.t, c)
              && var row := w.t.invitations[c.id.value];
                 match row.status
                 case Pending => c.now < row.expires && c.inviterStands && c.rootStands && RowsAreFree(w.t, c, row.org)
                 case Accepted => row.links.identity == c.identity
                 case Revoked => false
                 case Expired => false
    ensures Materialize(w.t, c).1.Some? ==> Materialize(w.t, c).0 == w.t
  {
    if c.id.Some? && c.id.value in w.t.invitations {
      var row := w.t.invitations[c.id.value];
      assert RowHolds(row);
      if LockAcceptance(w.t, c).Ok? && row.status == Pending { GuardLetsAcceptancePass(w.t, c); }
    }
    NothingMade(w.t, c);
  }

  /** What it makes: a human principal of the organization for the identity, a live binding of it
      to its authority, an active membership established by the inviter, and the invitation closed
      with links to the three. Accepting again makes nothing. */
  lemma AcceptanceMakes(w: World, c: AcceptCall)
    requires Inv(w) && Materialize(w.t, c).1.None?
    ensures IsPresented(w.t, c)
    ensures var (u, row) := (Materialize(w.t, c).0, w.t.invitations[c.id.value]);
            u == if row.status == Pending then
                   Tables(
                     w.t.invitations[c.id.value :=
                       row.(status := Accepted, revision := row.revision + 1,
                            links := Links(c.identity, Some(c.membership), Some(c.principal), Some(c.binding)))],
                     w.t.principals[c.principal := Principal(row.org, true, Native(c.identity.value))],
                     w.t.bindings[c.binding :=
                       Binding(row.org, c.principal, c.authority.value, c.identity.value, true)],
                     w.t.memberships[c.membership :=
                       Membership(row.org, c.principal, c.binding, row.inviter, row.provenance, true)])
                 else w.t
  {
    AcceptanceSucceedsExactlyWhen(w, c);
  }

  // ---------------------------------------------------------------- inviting

  /** What an invitation leaves: the lapsed ones of its organization and email closed at their next
      revision, every other row as it was, and the new row. */
  lemma InviteLeaves(t: Tables, c: InviteCall)
    requires Invite(t, c).1.None?
    ensures var u := Invite(t, c).0;
            && u == t.(invitations := u.invitations) && c.id !in t.invitations
            && u.invitations.Keys == t.invitations.Keys + {c.id}
            && u.invitations[c.id]
               == Invitation(c.org, c.email, c.actor, c.provenance, Pending, 1, 1, c.digest, c.expires, c.created,
                             Links(None, None, None, None))
            && forall id :: id in t.invitations ==>
                 var row := t.invitations[id];
                 u.invitations[id]
                 == if row.org == c.org && row.email == c.email && row.status == Pending && row.expires <= c.now
                    then row.(status := Expired, revision := row.revision + 1) else row
  {
  }

  // ---------------------------------------------------------------- refusals

  /** What each refusal of an acceptance tells its caller. */
  lemma AcceptanceRefusalsAreTrue(w: World, c: AcceptCall)
    requires Inv(w) && Materialize(w.t, c).1.Some?
    ensures match Materialize(w.t, c).1.value
            case Unavailable =>
              || c.id.None? || c.id.value !in w.t.invitations || c.digest != Some(w.t.invitations[c.id.value].digest)
              || c.authority.None? || c.identity.None? || c.session.None?
            case OrganizationUnavailable => !c.organizationActive
            case AuthorityUnavailable => !c.authorityActive
            case IdentityUnavailable => !c.identityActive
            case SessionUnavailable => !c.sessionActive
            case AuthenticatorUnavailable => !c.authenticatorActive
            case OtherIdentity =>
              IsPresented(w.t, c) && w.t.invitations[c.id.value].status == Accepted
              && w.t.invitations[c.id.value].links.identity != c.identity
            case NoLongerPending =>
              IsPresented(w.t, c)
              && (w.t.invitations[c.id.value].status in {Revoked, Expired}
                  || w.t.invitations[c.id.value].expires <= c.now)
            case InviterWithdrawn => !c.inviterStands
            case RootUnavailable => !c.rootStands
            case UniqueViolation => IsPresented(w.t, c) && !RowsAreFree(w.t, c, w.t.invitations[c.id.value].org)
            case _ => false
  {
    if c.id.Some? && c.id.value in w.t.invitations {
      assert RowHolds(w.t.invitations[c.id.value]);
      if LockAcceptance(w.t, c).Ok? && w.t.invitations[c.id.value].status == Pending {
        GuardLetsAcceptancePass(w.t, c);
      }
    }
  }
}
