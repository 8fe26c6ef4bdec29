/** Runs of guarded writes and acceptances: revision and generation, rotated proofs, and
    the one member of staff an invitation makes. */
module InvitationRuns {
  import opened Common
  import opened Invitations

  /** `Inserts` and `Updates` are any writes the application may try; `Others` is the rest of
      the system at work on principals, bindings and memberships. */
  datatype Event =
    | Inserts(id: Id, row: Invitation, manager: Option<Id>)
    | Updates(id: Id, row: Invitation, manager: Option<Id>)
    | Accepts(c: AcceptCall)
    | Others(principals: map<Id, Principal>, bindings: map<Id, Binding>, memberships: map<Id, Membership>)

  datatype Made = Made(invitation: Id, identity: Id, principal: Id, binding: Id, membership: Id)

  /** The tables with their history: the proofs each invitation has had, oldest first, and
      the staff that acceptances made. */
  datatype World = World(t: Tables, proofs: map<Id, seq<string>>, made: seq<Made>)

  predicate IsInitial(w: World) {
    w.t.invitations == map[] && w.proofs == map[] && w.made == [] && SubjectsUnique(w.t.principals)
  }

  predicate Creates(w: World, c: AcceptCall) {
    Materialize(w.t, c).1.None? && Materialize(w.t, c).0 != w.t
  }

  function Step(w: World, e: Event): World {
    match e
    case Inserts(id, row, manager) =>
      if InsertRow(w.t, id, row, manager).1.None?
      then w.(t := InsertRow(w.t, id, row, manager).0, proofs := w.proofs[id := [row.digest]]) else w
    case Updates(id, row, manager) =>
      if UpdateRow(w.t, id, row, false, manager).1.None?
      then w.(t := UpdateRow(w.t, id, row, false, manager).0,
              proofs := if row.status == Pending && id in w.proofs
                        then w.proofs[id := w.proofs[id] + [row.digest]] else w.proofs)
      else w
    case Accepts(c) =>
      if Creates(w, c)
      then w.(t := Materialize(w.t, c).0,
              made := w.made + [Made(c.id.value, c.identity.value, c.principal, c.binding, c.membership)])
      else w.(t := Materialize(w.t, c).0)
    case Others(principals, bindings, memberships) =>
      w.(t := Tables(w.t.invitations, principals, bindings, memberships))
  }

  /** The unique subject of a human principal in an organization. */
  predicate SubjectsUnique(principals: map<Id, Principal>) {
    forall j, k | j in principals && k in principals && j != k && principals[j].human && principals[k].human ::
      principals[j] != principals[k]
  }

  /** Rows are kept; bindings may be revoked and memberships may end. */
  predicate OthersKeep(t: Tables, e: Event)
    requires e.Others?
  {
    && (forall k :: k in t.principals ==> k in e.principals && e.principals[k] == t.principals[k])
    && (forall k :: k in t.bindings ==> k in e.bindings && e.bindings[k] == t.bindings[k].(live := e.bindings[k].live))
    && (forall k :: k in t.memberships ==>
          k in e.memberships && e.memberships[k] == t.memberships[k].(active := e.memberships[k].active))
    && SubjectsUnique(e.principals)
  }

  predicate Legal(w: World, e: Event) {
    e.Others? ==> OthersKeep(w.t, e)
  }

  predicate LegalRun(w: World, events: seq<Event>)
    decreases |events|
  {
    events == [] ||
    (LegalRun(w, events[..|events| - 1]) && Legal(Run(w, events[..|events| - 1]), events[|events| - 1]))
  }

  function Run(w: World, events: seq<Event>): World
    decreases |events|
  {
    if events == [] then w else Step(Run(w, events[..|events| - 1]), events[|events| - 1])
  }

  // ---------------------------------------------------------------- the invariant

  predicate RowsInv(w: World) {
    && w.proofs.Keys == w.t.invitations.Keys
    && (forall id :: id in w.t.invitations ==>
          && RowHolds(w.t.invitations[id])
          && w.t.invitations[id].revision
             == w.t.invitations[id].generation + (if w.t.invitations[id].status == Pending then 0 else 1))
  }

  predicate ProofsInv(w: World) {
    forall id :: id in w.t.invitations && id in w.proofs ==>
      && |w.proofs[id]| == w.t.invitations[id].generation > 0
      && w.proofs[id][|w.proofs[id]| - 1] == w.t.invitations[id].digest
  }

  /** The rows made for one acceptance are there and belong together. */
  predicate Stands(t: Tables, m: Made) {
    && m.invitation in t.invitations
    && var row := t.invitations[m.invitation];
    && row.status == Accepted
    && row.links == Links(Some(m.identity), Some(m.membership), Some(m.principal), Some(m.binding))
    && m.principal in t.principals && t.principals[m.principal] == Principal(row.org, true, Native(m.identity))
    && m.binding in t.bindings && t.bindings[m.binding].org == row.org
    && t.bindings[m.binding].principal == m.principal && t.bindings[m.binding].subject == m.identity
    && m.membership in t.memberships && t.memberships[m.membership].org == row.org
    && t.memberships[m.membership].principal == m.principal && t.memberships[m.membership].binding == m.binding
    && t.memberships[m.membership].establishedBy == row.inviter
  }

  predicate MadeInv(w: World) {
    && (forall i :: 0 <= i < |w.made| ==> Stands(w.t, w.made[i]))
    && (forall i, j :: 0 <= i < j < |w.made| ==> w.made[i].invitation != w.made[j].invitation)
    && (forall id :: id in w.t.invitations && w.t.invitations[id].status == Accepted ==> MadeFor(w.made, id))
  }

  predicate MadeFor(made: seq<Made>, id: Id) {
    exists i :: 0 <= i < |made| && made[i].invitation == id
  }

  predicate Inv(w: World) {
    RowsInv(w) && ProofsInv(w) && MadeInv(w) && SubjectsUnique(w.t.principals)
  }

  // ---------------------------------------------------------------- each step keeps it

  /** The guard and the constraints never stop an acceptance that has come that far. */
  lemma GuardLetsAcceptancePass(t: Tables, c: AcceptCall)
    requires LockAcceptance(t, c).Ok? && LockAcceptance(t, c).value.status == Pending
    requires RowHolds(LockAcceptance(t, c).value)
    ensures UpdateGuard(t.invitations[c.id.value], AcceptedRow(c, t.invitations[c.id.value]), true, None).None?
    ensures RowError(t.invitations, c.id.value, AcceptedRow(c, t.invitations[c.id.value])).None?
    ensures Materialize(t, c).1
         == if !c.rootStands then Some(RootUnavailable)
            else if Collides(t, c, t.invitations[c.id.value]) then Some(UniqueViolation)
            else None
  {
  }

  lemma InsertKeepsInv(w: World, id: Id, row: Invitation, manager: Option<Id>)
    requires Inv(w)
    ensures Inv(Step(w, Inserts(id, row, manager)))
  {
    if InsertRow(w.t, id, row, manager).1.None? {
      var v := Step(w, Inserts(id, row, manager));
      assert v == World(w.t.(invitations := w.t.invitations[id := row]), w.proofs[id := [row.digest]], w.made);
      MadeSurvives(w, v, id);
    }
  }

  /** A write to an invitation that is not accepted leaves everything made in place. */
  lemma MadeSurvives(w: World, v: World, id: Id)
    requires MadeInv(w) && v.made == w.made && id in v.t.invitations && v.t.invitations[id].status != Accepted
    requires v.t == w.t.(invitations := w.t.invitations[id := v.t.invitations[id]])
    requires id in w.t.invitations ==> w.t.invitations[id].status != Accepted
    ensures MadeInv(v)
  {
    forall i | 0 <= i < |w.made| ensures Stands(v.t, w.made[i]) {
      assert Stands(w.t, w.made[i]);
    }
  }

  /** What an update that passes the guard found and leaves. */
  lemma UpdateIs(w: World, id: Id, row: Invitation, manager: Option<Id>)
    requires RowsInv(w) && UpdateRow(w.t, id, row, false, manager).1.None?
    ensures id in w.t.invitations && w.t.invitations[id].status == Pending && row.status != Accepted && RowHolds(row)
    ensures row.revision == w.t.invitations[id].revision + 1
    ensures row.generation == w.t.invitations[id].generation + (if row.status == Pending then 1 else 0)
    ensures row.status != Pending ==> row.digest == w.t.invitations[id].digest
    ensures row.status == Pending ==> row.digest != w.t.invitations[id].digest
    ensures Step(w, Updates(id, row, manager))
         == World(w.t.(invitations := w.t.invitations[id := row]),
                  if row.status == Pending then w.proofs[id := w.proofs[id] + [row.digest]] else w.proofs, w.made)
  {
  }

  lemma UpdateKeepsInv(w: World, id: Id, row: Invitation, manager: Option<Id>)
    requires Inv(w) && Legal(w, Updates(id, row, manager))
    ensures Inv(Step(w, Updates(id, row, manager)))
  {
    if UpdateRow(w.t, id, row, false, manager).1.None? {
      UpdateIs(w, id, row, manager);
      var v := Step(w, Updates(id, row, manager));
      MadeSurvives(w, v, id);
      UpdateKeepsRows(w, v, id, row);
      UpdateKeepsProofs(w, v, id, row);
    }
  }

  lemma UpdateKeepsRows(w: World, v: World, id: Id, row: Invitation)
    requires RowsInv(w) && id in w.t.invitations && w.t.invitations[id].status == Pending && RowHolds(row)
    requires row.revision == w.t.invitations[id].revision + 1
    requires row.generation == w.t.invitations[id].generation + (if row.status == Pending then 1 else 0)
    requires v.t.invitations == w.t.invitations[id := row] && v.proofs.Keys == w.proofs.Keys
    ensures RowsInv(v)
  {
  }

  lemma UpdateKeepsProofs(w: World, v: World, id: Id, row: Invitation)
    requires RowsInv(w) && ProofsInv(w) && id in w.t.invitations
    requires row.generation == w.t.invitations[id].generation + (if row.status == Pending then 1 else 0)
    requires row.status != Pending ==> row.digest == w.t.invitations[id].digest
    requires v.t.invitations == w.t.invitations[id := row]
    requires v.proofs == if row.status == Pending then w.proofs[id := w.proofs[id] + [row.digest]] else w.proofs
    ensures ProofsInv(v)
  {
  }

  /** What an acceptance that makes something found and leaves. */
  lemma CreationIs(w: World, c: AcceptCall)
    requires RowsInv(w) && Creates(w, c)
    ensures ProofGiven(c) && c.id.value in w.t.invitations
    ensures var row := w.t.invitations[c.id.value];
            && row.status == Pending && row.digest == c.digest.value && c.now < row.expires
            && !Collides(w.t, c, row)
            && Step(w, Accepts(c))
               == World(Tables(w.t.invitations[c.id.value := AcceptedRow(c, row)],
                               w.t.principals[c.principal := MadePrincipal(c, row)],
                               w.t.bindings[c.binding := MadeBinding(c, row)],
                               w.t.memberships[c.membership := MadeMembership(c, row)]),
                        w.proofs,
                        w.made + [Made(c.id.value, c.identity.value, c.principal, c.binding, c.membership)])
  {
  }

  lemma AcceptKeepsInv(w: World, c: AcceptCall)
    requires Inv(w)
    ensures Inv(Step(w, Accepts(c)))
  {
    if Creates(w, c) {
      CreationIs(w, c);
      AcceptKeepsStanding(w, c);
      AcceptIsRecorded(w, c);
      AcceptKeepsRows(w, c);
      AcceptKeepsSubjects(w, c);
    } else {
      assert Step(w, Accepts(c)) == w by { NothingMade(w.t, c); }
    }
  }

  lemma AcceptKeepsRows(w: World, c: AcceptCall)
    requires RowsInv(w) && ProofsInv(w) && Creates(w, c)
    ensures var v := Step(w, Accepts(c)); RowsInv(v) && ProofsInv(v)
  {
    CreationIs(w, c);
    var v := Step(w, Accepts(c));
    assert RowHolds(AcceptedRow(c, w.t.invitations[c.id.value]));
    assert v.t.invitations.Keys == w.t.invitations.Keys;
    assert forall k :: k in v.t.invitations && k != c.id.value ==> v.t.invitations[k] == w.t.invitations[k];
  }

  lemma AcceptKeepsSubjects(w: World, c: AcceptCall)
    requires RowsInv(w) && SubjectsUnique(w.t.principals) && Creates(w, c)
    ensures SubjectsUnique(Step(w, Accepts(c)).t.principals)
  {
    CreationIs(w, c);
    assert !SubjectTaken(w.t.principals, w.t.invitations[c.id.value].org, Native(c.identity.value));
  }

  lemma NothingMade(t: Tables, c: AcceptCall)
    ensures Materialize(t, c).1.Some? ==> Materialize(t, c).0 == t
  {
  }

  lemma AcceptKeepsStanding(w: World, c: AcceptCall)
    requires Inv(w) && Creates(w, c)
    ensures var v := Step(w, Accepts(c));
            && (forall i :: 0 <= i < |v.made| ==> Stands(v.t, v.made[i]))
            && (forall i, j :: 0 <= i < j < |v.made| ==> v.made[i].invitation != v.made[j].invitation)
  {
    CreationIs(w, c);
    var v := Step(w, Accepts(c));
    forall i | 0 <= i < |w.made| ensures Stands(v.t, v.made[i]) && v.made[i].invitation != c.id.value {
      assert v.made[i] == w.made[i] && Stands(w.t, w.made[i]);
    }
    assert Stands(v.t, v.made[|w.made|]);
  }

  lemma AcceptIsRecorded(w: World, c: AcceptCall)
    requires Inv(w) && Creates(w, c)
    ensures var v := Step(w, Accepts(c));
            forall k :: k in v.t.invitations && v.t.invitations[k].status == Accepted ==> MadeFor(v.made, k)
  {
    CreationIs(w, c);
    var v := Step(w, Accepts(c));
    forall k | k in v.t.invitations && v.t.invitations[k].status == Accepted ensures MadeFor(v.made, k) {
      if k == c.id.value {
        assert v.made[|w.made|].invitation == k;
      } else {
        var i :| 0 <= i < |w.made| && w.made[i].invitation == k;
        assert v.made[i] == w.made[i];
      }
    }
  }

  lemma OthersKeepInv(w: World, e: Event)
    requires Inv(w) && e.Others? && Legal(w, e)
    ensures Inv(Step(w, e))
  {
    var v := Step(w, e);
    forall i | 0 <= i < |w.made| ensures Stands(v.t, w.made[i]) {
      assert Stands(w.t, w.made[i]);
    }
  }

  lemma StepKeepsInv(w: World, e: Event)
    requires Inv(w) && Legal(w, e)
    ensures Inv(Step(w, e))
  {
    match e
    case Inserts(id, row, manager) => InsertKeepsInv(w, id, row, manager);
    case Updates(id, row, manager) => UpdateKeepsInv(w, id, row, manager);
    case Accepts(c) => AcceptKeepsInv(w, c);
    case Others(_, _, _) => OthersKeepInv(w, e);
  }

  lemma {:induction false} RunKeepsInv(w: World, events: seq<Event>)
    requires Inv(w) && LegalRun(w, events)
    ensures Inv(Run(w, events))
    decreases |events|
  {
    if events != [] {
      RunKeepsInv(w, events[..|events| - 1]);
      StepKeepsInv(Run(w, events[..|events| - 1]), events[|events| - 1]);
    }
  }

  // ---------------------------------------------------------------- what follows for runs

  /** Pending exactly while the revision equals the generation, closed exactly at one more. */
  lemma RevisionTellsStatus(w: World, events: seq<Event>, id: Id)
    requires IsInitial(w) && LegalRun(w, events) && id in Run(w, events).t.invitations
    ensures var row := Run(w, events).t.invitations[id];
            && (row.status == Pending <==> row.revision == row.generation)
            && (row.status != Pending <==> row.revision == row.generation + 1)
  {
    RunKeepsInv(w, events);
  }

  lemma StepKeepsClosed(w: World, e: Event, id: Id)
    requires RowsInv(w) && id in w.t.invitations && w.t.invitations[id].status != Pending
    ensures id in Step(w, e).t.invitations && Step(w, e).t.invitations[id] == w.t.invitations[id]
  {
    match e
    case Inserts(_, _, _) =>
    case Updates(k, row, manager) =>
      if UpdateRow(w.t, k, row, false, manager).1.None? { UpdateIs(w, k, row, manager); }
    case Accepts(c) =>
      if Creates(w, c) { CreationIs(w, c); } else { NothingMade(w.t, c); }
    case Others(_, _, _) =>
  }

  /** A closed invitation never changes again. */
  lemma {:induction false} ClosedIsFinal(w: World, events: seq<Event>, id: Id)
    requires Inv(w) && LegalRun(w, events) && id in w.t.invitations && w.t.invitations[id].status != Pending
    ensures id in Run(w, events).t.invitations && Run(w, events).t.invitations[id] == w.t.invitations[id]
    decreases |events|
  {
    if events != [] {
      ClosedIsFinal(w, events[..|events| - 1], id);
      RunKeepsInv(w, events[..|events| - 1]);
      StepKeepsClosed(Run(w, events[..|events| - 1]), events[|events| - 1], id);
    }
  }

  // ---------------------------------------------------------------- rows and emails

  /** How a row may have moved on: the same row, or a later revision of the same invitation. */
  predicate MovedOn(was: Invitation, now: Invitation) {
    && (now.org, now.email, now.inviter, now.provenance, now.created)
       == (was.org, was.email, was.inviter, was.provenance, was.created)
    && was.revision <= now.revision && was.generation <= now.generation
    && (was.revision == now.revision ==> now == was)
  }

  lemma UpdateMovesOn(w: World, k: Id, row: Invitation, manager: Option<Id>)
    requires RowsInv(w) && UpdateRow(w.t, k, row, false, manager).1.None?
    ensures k in w.t.invitations && MovedOn(w.t.invitations[k], row)
  {
  }

  lemma StepMovesOn(w: World, e: Event, id: Id)
    requires RowsInv(w) && id in w.t.invitations
    ensures id in Step(w, e).t.invitations && MovedOn(w.t.invitations[id], Step(w, e).t.invitations[id])
  {
    match e
    case Inserts(_, _, _) =>
    case Updates(k, row, manager) =>
      if UpdateRow(w.t, k, row, false, manager).1.None? {
        UpdateIs(w, k, row, manager);
        UpdateMovesOn(w, k, row, manager);
      }
    case Accepts(c) =>
      if Creates(w, c) { CreationIs(w, c); } else { NothingMade(w.t, c); }
    case Others(_, _, _) =>
  }

  /** Over any run an invitation keeps what it was created with, its revision never falls, and
      whoever finds the revision unchanged finds the whole row unchanged. */
  lemma {:induction false} SameRevisionSameRow(w: World, events: seq<Event>, id: Id)
    requires Inv(w) && LegalRun(w, events) && id in w.t.invitations
    ensures id in Run(w, events).t.invitations && MovedOn(w.t.invitations[id], Run(w, events).t.invitations[id])
    decreases |events|
  {
    if events != [] {
      SameRevisionSameRow(w, events[..|events| - 1], id);
      RunKeepsInv(w, events[..|events| - 1]);
      StepMovesOn(Run(w, events[..|events| - 1]), events[|events| - 1], id);
    }
  }

  predicate EmailsInv(invitations: map<Id, Invitation>) {
    forall j, k | j in invitations && k in invitations && invitations[j].status == Pending
                  && invitations[k].status == Pending && invitations[j].org == invitations[k].org
                  && invitations[j].email == invitations[k].email :: j == k
  }

  lemma RowKeepsEmails(invitations: map<Id, Invitation>, id: Id, row: Invitation)
    requires EmailsInv(invitations) && !EmailTaken(invitations, id, row)
    ensures EmailsInv(invitations[id := row])
  {
  }

  lemma StepKeepsEmails(w: World, e: Event)
    requires RowsInv(w) && EmailsInv(w.t.invitations)
    ensures EmailsInv(Step(w, e).t.invitations)
  {
    match e
    case Inserts(id, row, manager) =>
      if InsertRow(w.t, id, row, manager).1.None? { RowKeepsEmails(w.t.invitations, id, row); }
    case Updates(id, row, manager) =>
      if UpdateRow(w.t, id, row, false, manager).1.None? { RowKeepsEmails(w.t.invitations, id, row); }
    case Accepts(c) =>
      if Creates(w, c) {
        CreationIs(w, c);
        RowKeepsEmails(w.t.invitations, c.id.value, AcceptedRow(c, w.t.invitations[c.id.value]));
      } else {
        NothingMade(w.t, c);
      }
    case Others(_, _, _) =>
  }

  /** Over any run an organization has at most one pending invitation for an email. */
  lemma {:induction false} OnePendingPerEmail(w: World, events: seq<Event>)
    requires Inv(w) && EmailsInv(w.t.invitations) && LegalRun(w, events)
    ensures EmailsInv(Run(w, events).t.invitations)
    decreases |events|
  {
    if events != [] {
      OnePendingPerEmail(w, events[..|events| - 1]);
      RunKeepsInv(w, events[..|events| - 1]);
      StepKeepsEmails(Run(w, events[..|events| - 1]), events[|events| - 1]);
    }
  }

  // ---------------------------------------------------------------- inviting

  /** A pending invitation of the organization for the email that has not expired. */
  predicate StillInvited(invitations: map<Id, Invitation>, c: InviteCall) {
    exists k :: k in invitations && invitations[k].status == Pending && c.now < invitations[k].expires
             && invitations[k].org == c.org && invitations[k].email == c.email
  }

  /** An invitation is made exactly when the actor may make one, the new row is in order (its
      email, provenance, digest and expiry), and the email has no unexpired invitation pending:
      a lapsed one never stands in the way. */
  lemma InviteSucceedsExactlyWhen(t: Tables, c: InviteCall)
    ensures Invite(t, c).1.None? <==>
              && c.manages && c.id !in t.invitations
              && IsEmail(c.email) && IsProvenance(c.provenance) && IsDigest(c.digest) && c.created < c.expires
              && !StillInvited(t.invitations, c)
    ensures Invite(t, c).1.Some? ==> Invite(t, c).0 == t
  {
    var u := WithExpired(t.invitations, Lapsed(t.invitations, c));
    if k :| k in t.invitations && t.invitations[k].status == Pending && c.now < t.invitations[k].expires
            && t.invitations[k].org == c.org && t.invitations[k].email == c.email {
      assert u[k] == t.invitations[k];
    }
    if c.id !in t.invitations && EmailTaken(u, c.id, NewRow(c)) {
      var k :| k in u && k != c.id && u[k].status == Pending && u[k].org == c.org && u[k].email == c.email;
      assert u[k] == t.invitations[k] && k !in Lapsed(t.invitations, c);
    }
  }

  /** The guarded writes an invitation consists of. */
  ghost predicate AreItsWrites(w: World, c: InviteCall, events: seq<Event>) {
    && (forall k :: 0 <= k < |events| - 1 ==>
          && events[k].Updates? && events[k].id in Lapsed(w.t.invitations, c)
          && events[k].row == ExpiredRow(w.t.invitations[events[k].id]) && events[k].manager == Manager(c))
    && events != [] && events[|events| - 1] == Inserts(c.id, NewRow(c), Manager(c))
  }

  /** In a reachable state an invitation is a run of guarded writes, at most one of them closing
      a lapsed row, so that everything proved of runs holds of it. */
  lemma InviteIsRun(w: World, c: InviteCall) returns (events: seq<Event>)
    requires RowsInv(w) && EmailsInv(w.t.invitations) && Invite(w.t, c).1.None?
    ensures |events| <= 2 && AreItsWrites(w, c, events)
    ensures LegalRun(w, events) && Run(w, events).t == Invite(w.t, c).0
  {
    var inserts := Inserts(c.id, NewRow(c), Manager(c));
    if id :| id in Lapsed(w.t.invitations, c) {
      var closes := Updates(id, ExpiredRow(w.t.invitations[id]), Manager(c));
      ClosingIs(w, c, id);
      InsertingIs(w, Step(w, closes), c);
      RunOfTwo(w, closes, inserts);
      events := [closes, inserts];
    } else {
      assert WithExpired(w.t.invitations, Lapsed(w.t.invitations, c)) == w.t.invitations;
      InsertingIs(w, w, c);
      RunOfOne(w, inserts);
      events := [inserts];
    }
  }

  lemma InsertingIs(w: World, v: World, c: InviteCall)
    requires v.t == w.t.(invitations := WithExpired(w.t.invitations, Lapsed(w.t.invitations, c)))
    requires Invite(w.t, c).1.None?
    ensures Step(v, Inserts(c.id, NewRow(c), Manager(c))).t == Invite(w.t, c).0
  {
  }

  /** The one lapsed row passes the guard, and closing it is the whole update. */
  lemma ClosingIs(w: World, c: InviteCall, id: Id)
    requires RowsInv(w) && EmailsInv(w.t.invitations) && c.manages && id in Lapsed(w.t.invitations, c)
    ensures Step(w, Updates(id, ExpiredRow(w.t.invitations[id]), Manager(c)))
         == w.(t := w.t.(invitations := WithExpired(w.t.invitations, Lapsed(w.t.invitations, c))))
  {
    var row := ExpiredRow(w.t.invitations[id]);
    assert Lapsed(w.t.invitations, c) == {id};
    assert WithExpired(w.t.invitations, {id}) == w.t.invitations[id := row];
    assert UpdateRow(w.t, id, row, false, Manager(c)) == (w.t.(invitations := w.t.invitations[id := row]), None);
  }

  lemma RunOfOne(w: World, e: Event)
    requires Legal(w, e)
    ensures LegalRun(w, [e]) && Run(w, [e]) == Step(w, e)
  {
    assert [e][..0] == [] && LegalRun(w, []) && Run(w, []) == w;
    assert [e][|[e]| - 1] == e;
  }

  lemma RunOfTwo(w: World, d: Event, e: Event)
    requires Legal(w, d) && Legal(Step(w, d), e)
    ensures LegalRun(w, [d, e]) && Run(w, [d, e]) == Step(Step(w, d), e)
  {
    RunOfOne(w, d);
    assert [d, e][..1] == [d] && [d, e][|[d, e]| - 1] == e;
  }

  // ---------------------------------------------------------------- rotated proofs

  predicate RotatedAway(w: World, id: Id, digest: string) {
    id in w.proofs && digest in w.proofs[id] && (id in w.t.invitations ==> w.t.invitations[id].digest != digest)
  }

  /** Among the proofs an invitation has had, those that are refused as unknown, whatever else
      the caller presents, are exactly the rotated-away ones; refusing leaves no trace. */
  lemma RefusedExactlyWhenRotatedAway(w: World, id: Id, digest: string, c: AcceptCall)
    requires Inv(w) && id in w.proofs && digest in w.proofs[id]
    requires c.id == Some(id) && c.digest == Some(digest) && ProofGiven(c)
    ensures Materialize(w.t, c) == (w.t, Some(Unavailable)) <==> RotatedAway(w, id, digest)
  {
    if !RotatedAway(w, id, digest) && LockAcceptance(w.t, c).Ok? && w.t.invitations[id].status == Pending {
      GuardLetsAcceptancePass(w.t, c);
    }
  }

  predicate Rotates(w: World, e: Event) {
    e.Updates? && e.row.status == Pending && UpdateRow(w.t, e.id, e.row, false, e.manager).1.None?
  }

  /** A rotation to a proof the invitation has had before. */
  predicate Reuses(w: World, e: Event) {
    Rotates(w, e) && e.id in w.proofs && e.row.digest in w.proofs[e.id]
  }

  /** A rotation that passes the guard makes a rotated-away proof current again exactly when it
      reuses one. */
  lemma RotationReturnsExactlyWhen(w: World, e: Event)
    requires Inv(w) && Rotates(w, e)
    ensures (exists digest :: RotatedAway(w, e.id, digest) && !RotatedAway(Step(w, e), e.id, digest)) <==> Reuses(w, e)
  {
    UpdateIs(w, e.id, e.row, e.manager);
    var digest := e.row.digest;
    assert Reuses(w, e) ==> RotatedAway(w, e.id, digest) && !RotatedAway(Step(w, e), e.id, digest);
  }

  lemma StepKeepsRotatedAway(w: World, e: Event, id: Id, digest: string)
    requires RowsInv(w) && Legal(w, e) && !Reuses(w, e) && RotatedAway(w, id, digest)
    ensures RotatedAway(Step(w, e), id, digest)
  {
    match e
    case Inserts(_, _, _) =>
    case Updates(k, row, manager) =>
      if UpdateRow(w.t, k, row, false, manager).1.None? { UpdateIs(w, k, row, manager); }
    case Accepts(c) =>
      if Creates(w, c) { CreationIs(w, c); } else { NothingMade(w.t, c); }
    case Others(_, _, _) =>
  }

  /** No rotation of the run reuses a proof. */
  predicate AllFresh(w: World, events: seq<Event>)
    decreases |events|
  {
    events == [] ||
    (AllFresh(w, events[..|events| - 1]) && !Reuses(Run(w, events[..|events| - 1]), events[|events| - 1]))
  }

  /** Whatever is rotated away at some moment of the run is so at every later one. */
  ghost predicate StaysRotatedAway(w: World, events: seq<Event>) {
    forall m: nat, n: nat, id, digest | m <= n <= |events| && RotatedAway(Run(w, events[..m]), id, digest) ::
      RotatedAway(Run(w, events[..n]), id, digest)
  }

  lemma {:induction false} LegalPrefix(w: World, events: seq<Event>, k: nat)
    requires LegalRun(w, events) && k <= |events|
    ensures LegalRun(w, events[..k])
    decreases |events|
  {
    if k < |events| {
      LegalPrefix(w, events[..|events| - 1], k);
      assert events[..|events| - 1][..k] == events[..k];
    } else {
      assert events[..k] == events;
    }
  }

  lemma StepOfRun(w: World, events: seq<Event>, k: nat)
    requires Inv(w) && LegalRun(w, events) && k < |events|
    ensures Inv(Run(w, events[..k])) && Legal(Run(w, events[..k]), events[k])
    ensures Run(w, events[..k + 1]) == Step(Run(w, events[..k]), events[k])
  {
    LegalPrefix(w, events, k);
    LegalPrefix(w, events, k + 1);
    RunKeepsInv(w, events[..k]);
    assert events[..k + 1][..k] == events[..k] && events[..k + 1][k] == events[k];
  }

  lemma {:induction false} FreshPrefix(w: World, events: seq<Event>, k: nat)
    requires AllFresh(w, events) && k <= |events|
    ensures AllFresh(w, events[..k])
    decreases |events|
  {
    if k < |events| {
      FreshPrefix(w, events[..|events| - 1], k);
      assert events[..|events| - 1][..k] == events[..k];
    } else {
      assert events[..k] == events;
    }
  }

  lemma {:induction false} SomeReuse(w: World, events: seq<Event>) returns (k: nat)
    requires !AllFresh(w, events)
    ensures k < |events| && Reuses(Run(w, events[..k]), events[k])
    decreases |events|
  {
    if AllFresh(w, events[..|events| - 1]) {
      k := |events| - 1;
    } else {
      k := SomeReuse(w, events[..|events| - 1]);
      assert events[..|events| - 1][..k] == events[..k];
    }
  }

  lemma {:induction false} FreshKeepsRotatedAway(w: World, events: seq<Event>, m: nat, id: Id, digest: string)
    requires Inv(w) && LegalRun(w, events) && AllFresh(w, events)
    requires m <= |events| && RotatedAway(Run(w, events[..m]), id, digest)
    ensures RotatedAway(Run(w, events), id, digest)
    decreases |events|
  {
    if m == |events| {
      assert events[..m] == events;
    } else {
      var prefix := events[..|events| - 1];
      assert prefix[..m] == events[..m];
      FreshKeepsRotatedAway(w, prefix, m, id, digest);
      RunKeepsInv(w, prefix);
      StepKeepsRotatedAway(Run(w, prefix), events[|events| - 1], id, digest);
    }
  }

  /** Over a run every rotated-away proof stays refused if and only if no rotation reuses one. */
  lemma RotatedProofsStayRefusedExactlyWhen(w: World, events: seq<Event>)
    requires Inv(w) && LegalRun(w, events)
    ensures StaysRotatedAway(w, events) <==> AllFresh(w, events)
  {
    if AllFresh(w, events) {
      forall m: nat, n: nat, id, digest | m <= n <= |events| && RotatedAway(Run(w, events[..m]), id, digest)
        ensures RotatedAway(Run(w, events[..n]), id, digest)
      {
        LegalPrefix(w, events, n);
        FreshPrefix(w, events, n);
        assert events[..n][..m] == events[..m];
        FreshKeepsRotatedAway(w, events[..n], m, id, digest);
      }
    } else {
      var k := SomeReuse(w, events);
      StepOfRun(w, events, k);
      RotationReturnsExactlyWhen(Run(w, events[..k]), events[k]);
      var digest :| RotatedAway(Run(w, events[..k]), events[k].id, digest)
                    && !RotatedAway(Run(w, events[..k + 1]), events[k].id, digest);
    }
  }

  /** With proofs generated afresh, one that a resend replaced is refused at every later moment. */
  lemma RotatedProofNeverAccepts(w: World, events: seq<Event>, id: Id, digest: string, c: AcceptCall)
    requires Inv(w) && LegalRun(w, events) && AllFresh(w, events) && RotatedAway(w, id, digest)
    requires c.id == Some(id) && c.digest == Some(digest)
    ensures Materialize(Run(w, events).t, c) == (Run(w, events).t, Some(Unavailable))
  {
    assert events[..0] == [];
    FreshKeepsRotatedAway(w, events, 0, id, digest);
    RunKeepsInv(w, events);
  }

  /** The guard lets a proof be reused: it compares only with the one in place, so rotating
      from `a` to `b` and back to `a` passes it. */
  lemma GuardAllowsReuse(t: Tables, id: Id, manager: Id, b: string)
    requires id in t.invitations && t.invitations[id].status == Pending && RowHolds(t.invitations[id])
    requires IsDigest(b) && b != t.invitations[id].digest
    requires !EmailTaken(t.invitations, id, t.invitations[id])
    ensures var row := t.invitations[id];
            var away := row.(revision := row.revision + 1, generation := row.generation + 1, digest := b);
            var back := away.(revision := row.revision + 2, generation := row.generation + 2, digest := row.digest);
            var u := UpdateRow(t, id, away, false, Some(manager));
            var v := UpdateRow(u.0, id, back, false, Some(manager));
            && u.1.None? && v.1.None?
            && forall c: AcceptCall | c.id == Some(id) && LockAcceptance(t, c).Ok? :: LockAcceptance(v.0, c).Ok?
  {
    var row := t.invitations[id];
    var away := row.(revision := row.revision + 1, generation := row.generation + 1, digest := b);
    var u := t.(invitations := t.invitations[id := away]);
    assert !EmailTaken(t.invitations, id, away);
    assert UpdateRow(t, id, away, false, Some(manager)) == (u, None);
    assert !EmailTaken(u.invitations, id, away);
  }

  /** In every reachable state an accepted invitation has exactly one principal, binding and
      membership, all made together and still there. */
  lemma AcceptedHasOneOfEach(w: World, events: seq<Event>, id: Id)
    requires IsInitial(w) && LegalRun(w, events)
    ensures var v := Run(w, events);
            && (id in v.t.invitations && v.t.invitations[id].status == Accepted <==> MadeFor(v.made, id))
            && (forall i, j | 0 <= i < |v.made| && 0 <= j < |v.made|
                                  && v.made[i].invitation == v.made[j].invitation :: i == j)
            && (forall i :: 0 <= i < |v.made| ==> Stands(v.t, v.made[i]))
  {
    RunKeepsInv(w, events);
    var v := Run(w, events);
    if MadeFor(v.made, id) {
      var i :| 0 <= i < |v.made| && v.made[i].invitation == id;
      assert Stands(v.t, v.made[i]);
    }
  }

  /** Accepting again as the same identity changes nothing and succeeds; as another identity
      it is refused. Both at any later moment, while session and organization hold. */
  lemma RepeatedAcceptance(w: World, events: seq<Event>, c: AcceptCall, again: AcceptCall)
    requires Inv(w) && Creates(w, c) && LegalRun(Step(w, Accepts(c)), events)
    requires again.id == c.id && again.digest == c.digest && ProofGiven(again)
    requires again.organizationActive && again.authorityActive && again.identityActive
    requires again.sessionActive && again.authenticatorActive
    ensures var v := Run(Step(w, Accepts(c)), events);
            Materialize(v.t, again) == (v.t, if again.identity == c.identity then None else Some(OtherIdentity))
  {
    CreationIs(w, c);
    AcceptKeepsInv(w, c);
    ClosedIsFinal(Step(w, Accepts(c)), events, c.id.value);
  }

  /** One identity accepts at most one invitation of an organization. */
  lemma OneAcceptancePerIdentity(w: World, events: seq<Event>, i: nat, j: nat)
    requires IsInitial(w) && LegalRun(w, events)
    requires i < |Run(w, events).made| && j < |Run(w, events).made|
             && Run(w, events).made[i].identity == Run(w, events).made[j].identity
    requires var v := Run(w, events);
             && v.made[i].invitation in v.t.invitations && v.made[j].invitation in v.t.invitations
             && v.t.invitations[v.made[i].invitation].org == v.t.invitations[v.made[j].invitation].org
    ensures i == j
  {
    RunKeepsInv(w, events);
    var v := Run(w, events);
    assert Stands(v.t, v.made[i]) && Stands(v.t, v.made[j]);
    assert v.made[i].principal == v.made[j].principal;
    MadePrincipalsDiffer(w, events);
  }

  predicate PrincipalsDiffer(made: seq<Made>) {
    forall i, j :: 0 <= i < j < |made| ==> made[i].principal != made[j].principal
  }

  lemma {:induction false} MadePrincipalsDiffer(w: World, events: seq<Event>)
    requires IsInitial(w) && LegalRun(w, events)
    ensures PrincipalsDiffer(Run(w, events).made)
    decreases |events|
  {
    if events != [] {
      var before := Run(w, events[..|events| - 1]);
      var e := events[|events| - 1];
      MadePrincipalsDiffer(w, events[..|events| - 1]);
      RunKeepsInv(w, events[..|events| - 1]);
      if e.Accepts? && Creates(before, e.c) {
        CreationIs(before, e.c);
        assert Run(w, events).made == before.made + [Run(w, events).made[|before.made|]];
        forall k | 0 <= k < |before.made| ensures before.made[k].principal != e.c.principal {
          assert Stands(before.t, before.made[k]);
        }
      }
    }
  }
}
