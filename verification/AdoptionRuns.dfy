/** What every interleaving of adoption commands, and of whatever else changes
    grants, principals and identities, keeps. */
module AdoptionRuns {
  import opened Common
  import opened Adoption

  // ---------------------------------------------------------------- steps

  /** Grant rows of `p` are the same rows, none added. */
  predicate RowsKept(before: seq<Grant>, after: seq<Grant>, p: Id) {
    && |before| <= |after|
    && (forall i :: 0 <= i < |before| ==>
          after[i].principal == before[i].principal && (before[i].principal == p ==> after[i] == before[i]))
    && (forall i :: |before| <= i < |after| ==> after[i].principal != p)
  }

  /** A principal's revision never falls, and stands still only while its grants do. */
  predicate GrantsFollowRevision(t: Tables, u: Tables) {
    && |t.grants| <= |u.grants|
    && forall p :: p in t.principals ==>
         && p in u.principals
         && t.principals[p].revision <= u.principals[p].revision
         && (t.principals[p].revision == u.principals[p].revision ==> RowsKept(t.grants, u.grants, p))
  }

  /** A recovery raises the epoch; without one nobody becomes restricted. */
  predicate RecoveryFollowsEpoch(t: Tables, u: Tables) {
    forall x :: x in t.directory.identities ==>
      && x in u.directory.identities
      && var a, b := t.directory.identities[x], u.directory.identities[x];
         && Epoch(a) <= Epoch(b)
         && (Epoch(a) == Epoch(b) && IsRestricted(b) ==> IsRestricted(a))
  }

  /** Any transaction of the rest of the system: grant changes, lifecycle changes of
      principals, bindings and authorities, recoveries and their completion. */
  predicate Elsewhere(t: Tables, u: Tables) {
    && u.requests == t.requests && u.facts == t.facts
    && u.directory.roots == t.directory.roots && u.directory.policies == t.directory.policies
    && GrantsFollowRevision(t, u)
    && RecoveryFollowsEpoch(t, u)
  }

  function Raised(t: Tables, p: Id): map<Id, Principal>
    requires p in t.principals
  {
    t.principals[p := t.principals[p].(revision := t.principals[p].revision + 1)]
  }

  /** An active grant row revoked, with the revision the trigger raises. */
  function GrantRevoked(t: Tables, i: nat): Tables
    requires i < |t.grants| && t.grants[i].active && t.grants[i].principal in t.principals
  {
    t.(grants := t.grants[i := t.grants[i].(active := false)], principals := Raised(t, t.grants[i].principal))
  }

  /** A grant row inserted, which is how a capability comes back. */
  function GrantInserted(t: Tables, g: Grant): Tables
    requires g.active && g.principal in t.principals
  {
    t.(grants := t.grants + [g], principals := Raised(t, g.principal))
  }

  /** An identity put under recovery, which starts a new epoch. */
  function RecoveryStarted(t: Tables, identity: Id): Tables
    requires identity in t.directory.identities
  {
    var was := t.directory.identities[identity];
    t.(directory := t.directory.(identities :=
       t.directory.identities[identity := was.(recovery := Some(Recovery(true, Epoch(was) + 1)))]))
  }

  /** Revoking a grant, inserting one, and starting a recovery are among the transactions a
      run may hold. */
  lemma TriggeredChangesAreElsewhere(t: Tables, i: nat, g: Grant, identity: Id)
    requires i < |t.grants| && t.grants[i].active && t.grants[i].principal in t.principals
    requires g.active && g.principal in t.principals && identity in t.directory.identities
    ensures Elsewhere(t, GrantRevoked(t, i)) && Elsewhere(t, GrantInserted(t, g)) &&
            Elsewhere(t, RecoveryStarted(t, identity))
  {
    var (u, v, x) := (GrantRevoked(t, i), GrantInserted(t, g), RecoveryStarted(t, identity));
    forall p | p in t.principals && p != t.grants[i].principal ensures RowsKept(t.grants, u.grants, p) {
    }
    forall p | p in t.principals && p != g.principal ensures RowsKept(t.grants, v.grants, p) {
    }
    forall p ensures RowsKept(t.grants, x.grants, p) {
    }
  }

  datatype Event =
    | Consenting(consent: Consent)
    | Withdrawing(withdrawal: Withdrawal)
    | Applying(application: Application)
    | Otherwise(next: Tables)

  predicate Legal(t: Tables, e: Event) {
    e.Otherwise? ==> Elsewhere(t, e.next)
  }

  ghost function Next(t: Tables, e: Event): Tables {
    match e
    case Consenting(c) => DoConsent(t, c).0
    case Withdrawing(c) => DoWithdraw(t, c).0
    case Applying(c) => DoApply(t, c).0
    case Otherwise(u) => u
  }

  ghost function After(t: Tables, events: seq<Event>): Tables
    decreases |events|
  {
    if events == [] then t else Next(After(t, events[..|events| - 1]), events[|events| - 1])
  }

  ghost predicate LegalRun(t: Tables, events: seq<Event>) {
    forall k :: 0 <= k < |events| ==> Legal(After(t, events[..k]), events[k])
  }

  // ---------------------------------------------------------------- invariant

  predicate RowInv(r: Request) {
    && (r.status == Pending <==> r.revision == 1)
    && (r.status != Pending <==> r.revision == 2)
    && r.target == TARGET && ApprovedSource(r.source)
  }

  /** At most one pending row an organization, one row a key, revisions tell the state. */
  ghost predicate RequestsInv(requests: map<Id, Request>) {
    && UniqueKeys(requests)
    && (forall id :: id in requests ==> RowInv(requests[id]))
    && (forall i, j | i in requests && j in requests && requests[i].status == Pending
                      && requests[j].status == Pending && requests[i].org == requests[j].org :: i == j)
  }

  predicate FactInv(requests: map<Id, Request>, f: Fact) {
    && f.request in requests
    && f.target == TARGET
    && var r := requests[f.request];
       r.status == Applied && r.org == f.org && r.controller == f.controller
  }

  /** Facts and applied requests name each other, one of each an organization. */
  ghost predicate FactsInv(requests: map<Id, Request>, facts: seq<Fact>) {
    && (forall i :: 0 <= i < |facts| ==> FactInv(requests, facts[i]))
    && (forall i, j :: 0 <= i < j < |facts| ==> facts[i].org != facts[j].org && facts[i].request != facts[j].request)
    && (forall id :: id in requests && requests[id].status == Applied ==> FindFact(facts, id).Some?)
  }

  ghost predicate Inv(t: Tables) {
    RequestsInv(t.requests) && FactsInv(t.requests, t.facts)
  }

  lemma {:induction false} FindFactFinds(facts: seq<Fact>, request: Id)
    ensures FindFact(facts, request).Some? <==> exists i :: 0 <= i < |facts| && facts[i].request == request
    ensures FindFact(facts, request).Some? ==>
              FindFact(facts, request).value.request == request && FindFact(facts, request).value in facts
  {
    if facts != [] {
      FindFactFinds(facts[1..], request);
      if facts[0].request != request {
        forall i | 0 <= i < |facts| && facts[i].request == request
          ensures exists j :: 0 <= j < |facts[1..]| && facts[1..][j].request == request
        {
          assert facts[1..][i - 1].request == request;
        }
      }
    }
  }

  lemma {:induction false} FindFactAppend(facts: seq<Fact>, f: Fact, request: Id)
    ensures FindFact(facts, request).Some? ==> FindFact(facts + [f], request) == FindFact(facts, request)
    ensures FindFact(facts, request).None? ==>
              FindFact(facts + [f], request) == if f.request == request then Some(f) else None
  {
    if facts != [] {
      assert (facts + [f])[1..] == facts[1..] + [f];
      FindFactAppend(facts[1..], f, request);
    }
  }

  lemma {:induction false} LatestFactFinds(facts: seq<Fact>, org: Id)
    ensures LatestFact(facts, org).None? <==> forall i :: 0 <= i < |facts| ==> facts[i].org != org
    ensures LatestFact(facts, org).Some? ==>
              LatestFact(facts, org).value in facts && LatestFact(facts, org).value.org == org
  {
    if facts != [] {
      LatestFactFinds(facts[..|facts| - 1], org);
    }
  }

  lemma SweepKeepsInv(requests: map<Id, Request>, facts: seq<Fact>, org: Id, now: int)
    requires RequestsInv(requests) && FactsInv(requests, facts)
    ensures RequestsInv(Sweep(requests, org, now)) && FactsInv(Sweep(requests, org, now), facts)
  {
  }

  lemma InsertKeepsInv(requests: map<Id, Request>, facts: seq<Fact>, id: Id, r: Request)
    requires RequestsInv(requests) && FactsInv(requests, facts)
    requires id !in requests && r.status == Pending && RowInv(r) && !HasPending(requests, r.org)
    requires !exists j :: KeyedBy(requests, r.controller, Some(r.key), j)
    ensures RequestsInv(requests[id := r]) && FactsInv(requests[id := r], facts)
  {
    var u := requests[id := r];
    forall j | j in requests && requests[j].controller == r.controller ensures requests[j].key != r.key {
      assert !KeyedBy(requests, r.controller, Some(r.key), j);
    }
    assert UniqueKeys(u);
    forall k | k in u && u[k].status == Applied ensures FindFact(facts, k).Some? {
      assert k in requests;
    }
  }

  lemma ConsentKeepsInv(t: Tables, c: Consent)
    requires Inv(t)
    ensures Inv(DoConsent(t, c).0)
  {
    if ConsentBarrier(t, c).None? && (!exists id :: KeyedBy(t.requests, c.actor, c.key, id))
       && NewConsentBarrier(t, c).None? {
      var swept := Sweep(t.requests, c.org, c.now);
      SweepKeepsInv(t.requests, t.facts, c.org, c.now);
      forall j ensures !KeyedBy(swept, c.actor, c.key, j) {
        assert !KeyedBy(t.requests, c.actor, c.key, j);
      }
      InsertKeepsInv(swept, t.facts, c.newId, NewRequest(t, c));
    }
  }

  lemma WithdrawKeepsInv(t: Tables, c: Withdrawal)
    requires Inv(t)
    ensures Inv(DoWithdraw(t, c).0)
  {
  }

  /** A first application: the organization has no fact yet. */
  lemma FirstApplicationIsFirst(t: Tables, c: Application)
    requires Inv(t) && c.actor.Some? && c.request in t.requests && FirstBarrier(t, c).None?
    ensures forall i :: 0 <= i < |t.facts| ==> t.facts[i].org != t.requests[c.request].org
    ensures FindFact(t.facts, c.request).None?
  {
    LatestFactFinds(t.facts, t.requests[c.request].org);
    FindFactFinds(t.facts, c.request);
  }

  lemma AppendKeepsInv(requests: map<Id, Request>, facts: seq<Fact>, id: Id, f: Fact)
    requires RequestsInv(requests) && FactsInv(requests, facts)
    requires id in requests && requests[id].status == Pending
    requires f.request == id && f.target == TARGET && f.org == requests[id].org
             && f.controller == requests[id].controller
    requires forall i :: 0 <= i < |facts| ==> facts[i].org != f.org
    ensures var applied := requests[id := requests[id].(status := Applied, revision := requests[id].revision + 1)];
            RequestsInv(applied) && FactsInv(applied, facts + [f])
  {
    var applied := requests[id := requests[id].(status := Applied, revision := requests[id].revision + 1)];
    assert RowInv(requests[id]);
    forall i | 0 <= i < |facts| ensures facts[i].request != id && FactInv(applied, facts[i]) {
      assert FactInv(requests, facts[i]);
    }
    forall k | k in applied && applied[k].status == Applied ensures FindFact(facts + [f], k).Some? {
      FindFactAppend(facts, f, k);
    }
  }

  lemma ApplyKeepsInv(t: Tables, c: Application)
    requires Inv(t)
    ensures Inv(DoApply(t, c).0)
  {
    if ApplyBarrier(t, c).None? && FindFact(t.facts, c.request).None? && FirstBarrier(t, c).None? {
      FirstApplicationIsFirst(t, c);
      AppendKeepsInv(t.requests, t.facts, c.request, NewFact(t, c));
    }
  }

  lemma StepKeepsInv(t: Tables, e: Event)
    requires Inv(t) && Legal(t, e)
    ensures Inv(Next(t, e))
  {
    match e
    case Consenting(c) => ConsentKeepsInv(t, c);
    case Withdrawing(c) => WithdrawKeepsInv(t, c);
    case Applying(c) => ApplyKeepsInv(t, c);
    case Otherwise(u) =>
  }

  lemma LegalPrefix(t: Tables, events: seq<Event>, k: nat)
    requires LegalRun(t, events) && k <= |events|
    ensures LegalRun(t, events[..k])
  {
    forall j | 0 <= j < k ensures Legal(After(t, events[..k][..j]), events[..k][j]) {
      assert events[..k][..j] == events[..j];
    }
  }

  lemma {:induction false} RunKeepsInv(t: Tables, events: seq<Event>)
    requires Inv(t) && LegalRun(t, events)
    ensures Inv(After(t, events))
    decreases |events|
  {
    if events != [] {
      var k := |events| - 1;
      LegalPrefix(t, events, k);
      RunKeepsInv(t, events[..k]);
      StepKeepsInv(After(t, events[..k]), events[k]);
    }
  }

  // ---------------------------------------------------------------- whole runs

  ghost predicate Unused(t: Tables) {
    t.requests == map[] && t.facts == []
  }

  /** Over any run an organization gains at most one adoption fact; a request is
      applied exactly when one fact names it; a pending request is at revision 1 and
      a closed one at revision 2; an organization has at most one pending request. */
  lemma ReachableStates(t: Tables, events: seq<Event>)
    requires Unused(t) && LegalRun(t, events)
    ensures var u := After(t, events);
            && (forall i, j :: 0 <= i < j < |u.facts| ==>
                  u.facts[i].org != u.facts[j].org && u.facts[i].request != u.facts[j].request)
            && (forall id :: id in u.requests ==>
                  && (u.requests[id].status == Applied <==> exists i :: 0 <= i < |u.facts| && u.facts[i].request == id)
                  && u.requests[id].revision == (if u.requests[id].status == Pending then 1 else 2))
            && (forall i, j | i in u.requests && j in u.requests && u.requests[i].status == Pending
                              && u.requests[j].status == Pending && u.requests[i].org == u.requests[j].org :: i == j)
  {
    RunKeepsInv(t, events);
    var u := After(t, events);
    forall id | id in u.requests
      ensures u.requests[id].status == Applied <==> exists i :: 0 <= i < |u.facts| && u.facts[i].request == id
    {
      FindFactFinds(u.facts, id);
      if i :| 0 <= i < |u.facts| && u.facts[i].request == id {
        assert FactInv(u.requests, u.facts[i]);
      }
    }
  }

  /** A closed row stays as it is, and so does a row that is still pending; what was
      consented to never changes. */
  predicate RowFrozen(before: Request, after: Request) {
    && (before.status != Pending || after.status == Pending ==> after == before)
    && after == before.(status := after.status, revision := after.revision,
                        withdrawnKey := after.withdrawnKey, withdrawnIntent := after.withdrawnIntent)
  }

  predicate Frozen(t: Tables, u: Tables) {
    && |t.facts| <= |u.facts| && t.facts == u.facts[..|t.facts|]
    && (forall id :: id in t.requests ==> id in u.requests && RowFrozen(t.requests[id], u.requests[id]))
  }

  lemma ConsentFreezes(t: Tables, c: Consent)
    ensures Frozen(t, DoConsent(t, c).0)
  {
    if ConsentBarrier(t, c).None? && (!exists id :: KeyedBy(t.requests, c.actor, c.key, id))
       && NewConsentBarrier(t, c).None? {
      var swept := Sweep(t.requests, c.org, c.now);
      assert forall id :: id in t.requests ==> RowFrozen(t.requests[id], swept[id]);
    }
  }

  lemma ApplyFreezes(t: Tables, c: Application)
    ensures Frozen(t, DoApply(t, c).0)
  {
    if ApplyBarrier(t, c).None? && FindFact(t.facts, c.request).None? && FirstBarrier(t, c).None? {
      assert (t.facts + [NewFact(t, c)])[..|t.facts|] == t.facts;
    }
  }

  lemma StepFreezes(t: Tables, e: Event)
    requires Legal(t, e)
    ensures Frozen(t, Next(t, e))
  {
    match e
    case Consenting(c) => ConsentFreezes(t, c);
    case Withdrawing(c) =>
    case Applying(c) => ApplyFreezes(t, c);
    case Otherwise(u) =>
  }

  lemma FrozenTransitive(a: Tables, b: Tables, c: Tables)
    requires Frozen(a, b) && Frozen(b, c)
    ensures Frozen(a, c)
  {
    assert a.facts == b.facts[..|a.facts|] == c.facts[..|b.facts|][..|a.facts|] == c.facts[..|a.facts|];
  }

  /** Closed requests never change again, pending ones only by closing, and facts are
      only appended. */
  lemma {:induction false} ClosedRequestsNeverChange(t: Tables, events: seq<Event>)
    requires LegalRun(t, events)
    ensures Frozen(t, After(t, events))
    decreases |events|
  {
    if events != [] {
      var k := |events| - 1;
      LegalPrefix(t, events, k);
      ClosedRequestsNeverChange(t, events[..k]);
      StepFreezes(After(t, events[..k]), events[k]);
      FrozenTransitive(t, After(t, events[..k]), After(t, events));
    }
  }

  /** However long after a successful application, applying the same request again
      either answers the first call's tuple or is refused; it never changes a table. */
  lemma ReplayedApplication(t: Tables, first: Application, events: seq<Event>, again: Application)
    requires Inv(t) && DoApply(t, first).1.Ok? && LegalRun(DoApply(t, first).0, events)
    requires again.request == first.request
    ensures var u := After(DoApply(t, first).0, events);
            && DoApply(u, again).0 == u
            && (DoApply(u, again).1.Ok? ==> DoApply(u, again).1 == DoApply(t, first).1)
  {
    var mid := DoApply(t, first).0;
    ApplyKeepsInv(t, first);
    AppliedHasFact(t, first);
    ClosedRequestsNeverChange(mid, events);
    FindFactStays(mid.facts, After(mid, events).facts, first.request);
  }

  lemma AppliedHasFact(t: Tables, c: Application)
    requires Inv(t) && DoApply(t, c).1.Ok?
    ensures var u := DoApply(t, c).0;
            var found := FindFact(u.facts, c.request);
            && found.Some? && c.request in u.requests && u.requests[c.request].status == Applied
            && DoApply(t, c).1 == Ok(FactReply(found.value, u.requests[c.request].revision))
  {
    FindFactFinds(t.facts, c.request);
    if FindFact(t.facts, c.request).None? {
      FirstApplicationIsFirst(t, c);
      FindFactAppend(t.facts, NewFact(t, c), c.request);
    } else {
      assert FactInv(t.requests, FindFact(t.facts, c.request).value);
    }
  }

  lemma {:induction false} FindFactStays(facts: seq<Fact>, more: seq<Fact>, request: Id)
    requires |facts| <= |more| && facts == more[..|facts|]
    requires FindFact(facts, request).Some?
    ensures FindFact(more, request) == FindFact(facts, request)
  {
    assert more[0] == facts[0];
    if facts[0].request != request {
      assert more[1..][..|facts[1..]|] == facts[1..];
      FindFactStays(facts[1..], more[1..], request);
    }
  }

  lemma WithdrawnHasNoFact(t: Tables, id: Id)
    requires Inv(t) && id in t.requests && t.requests[id].status == Withdrawn
    ensures FindFact(t.facts, id).None?
  {
    FindFactFinds(t.facts, id);
    forall i | 0 <= i < |t.facts| ensures t.facts[i].request != id {
      assert FactInv(t.requests, t.facts[i]);
    }
  }

  /** A withdrawn consent is withdrawn for good: however long after, nobody can apply it, and
      withdrawing again changes nothing and answers the same or is refused. */
  lemma WithdrawalIsForGood(t: Tables, c: Withdrawal, events: seq<Event>, a: Application, again: Withdrawal)
    requires Inv(t) && DoWithdraw(t, c).1.Ok? && LegalRun(DoWithdraw(t, c).0, events)
    requires a.request == c.request && again.request == c.request
    ensures var u := After(DoWithdraw(t, c).0, events);
            && c.request in u.requests && u.requests[c.request].status == Withdrawn
            && u.requests[c.request] == DoWithdraw(t, c).0.requests[c.request]
            && DoApply(u, a).0 == u && DoApply(u, a).1.Err?
            && DoWithdraw(u, again).0 == u
            && (DoWithdraw(u, again).1.Ok? ==> DoWithdraw(u, again).1 == DoWithdraw(t, c).1)
  {
    var mid := DoWithdraw(t, c).0;
    var u := After(mid, events);
    WithdrawKeepsInv(t, c);
    WithdrawAnswers(t, c);
    RunKeepsInv(mid, events);
    ClosedRequestsNeverChange(mid, events);
    WithdrawnIsClosed(u, a, again);
  }

  lemma WithdrawAnswers(t: Tables, c: Withdrawal)
    requires DoWithdraw(t, c).1.Ok?
    ensures var mid := DoWithdraw(t, c).0;
            && c.request in mid.requests && mid.requests[c.request].status == Withdrawn
            && DoWithdraw(t, c).1 == Ok((mid.requests[c.request].revision, Withdrawn))
  {
  }

  lemma WithdrawnIsClosed(t: Tables, a: Application, again: Withdrawal)
    requires Inv(t) && a.request in t.requests && t.requests[a.request].status == Withdrawn
    requires again.request == a.request
    ensures DoApply(t, a).0 == t && DoApply(t, a).1.Err? && DoWithdraw(t, again).0 == t
    ensures DoWithdraw(t, again).1.Ok? ==>
              DoWithdraw(t, again).1 == Ok((t.requests[a.request].revision, Withdrawn))
  {
    WithdrawnHasNoFact(t, a.request);
  }

  // ---------------------------------------------------------------- consent still holds

  lemma RowsKeptTransitive(a: seq<Grant>, b: seq<Grant>, c: seq<Grant>, p: Id)
    requires RowsKept(a, b, p) && RowsKept(b, c, p)
    ensures RowsKept(a, c, p)
  {
  }

  lemma FollowTransitive(a: Tables, b: Tables, c: Tables)
    requires GrantsFollowRevision(a, b) && GrantsFollowRevision(b, c)
    requires RecoveryFollowsEpoch(a, b) && RecoveryFollowsEpoch(b, c)
    ensures GrantsFollowRevision(a, c) && RecoveryFollowsEpoch(a, c)
  {
    forall p | p in a.principals
      ensures p in c.principals && a.principals[p].revision <= c.principals[p].revision
      ensures a.principals[p].revision == c.principals[p].revision ==> RowsKept(a.grants, c.grants, p)
    {
      if a.principals[p].revision == c.principals[p].revision {
        RowsKeptTransitive(a.grants, b.grants, c.grants, p);
      }
    }
  }

  lemma ConsentFollows(t: Tables, c: Consent)
    ensures GrantsFollowRevision(t, DoConsent(t, c).0) && RecoveryFollowsEpoch(t, DoConsent(t, c).0)
  {
    var u := DoConsent(t, c).0;
    assert u.grants == t.grants && u.principals == t.principals && u.directory == t.directory;
  }

  lemma ApplyFollows(t: Tables, c: Application)
    ensures GrantsFollowRevision(t, DoApply(t, c).0) && RecoveryFollowsEpoch(t, DoApply(t, c).0)
  {
    if ApplyBarrier(t, c).None? && FindFact(t.facts, c.request).None? && FirstBarrier(t, c).None? {
      var u := Adopted(t, c);
      assert u.directory == t.directory;
    }
  }

  lemma StepFollows(t: Tables, e: Event)
    requires Legal(t, e)
    ensures GrantsFollowRevision(t, Next(t, e)) && RecoveryFollowsEpoch(t, Next(t, e))
  {
    match e
    case Consenting(c) => ConsentFollows(t, c);
    case Withdrawing(c) =>
    case Applying(c) => ApplyFollows(t, c);
    case Otherwise(u) =>
  }

  lemma {:induction false} RunFollows(t: Tables, events: seq<Event>)
    requires LegalRun(t, events)
    ensures GrantsFollowRevision(t, After(t, events)) && RecoveryFollowsEpoch(t, After(t, events))
    decreases |events|
  {
    if events != [] {
      var k := |events| - 1;
      LegalPrefix(t, events, k);
      RunFollows(t, events[..k]);
      StepFollows(After(t, events[..k]), events[k]);
      FollowTransitive(t, After(t, events[..k]), After(t, events));
    }
  }

  ghost predicate SameAuthority(t: Tables, u: Tables, r: Request) {
    && r.controller in t.principals && r.controller in u.principals
    && u.principals[r.controller].revision == t.principals[r.controller].revision
    && RowsKept(t.grants, u.grants, r.controller)
    && r.native in u.directory.identities
    && Epoch(u.directory.identities[r.native]) == r.recoveryEpoch
    && !IsRestricted(u.directory.identities[r.native])
  }

  lemma ConsentCreates(t: Tables, c: Consent)
    requires DoConsent(t, c).1.Ok? && c.newId !in t.requests && c.newId in DoConsent(t, c).0.requests
    ensures var u := DoConsent(t, c).0;
            var r := u.requests[c.newId];
            && r.status == Pending && r.expiresAt == c.now + DAY
            && u.principals == t.principals && u.grants == t.grants && u.directory == t.directory
            && r.controller in u.principals && r.expectedRevision == u.principals[r.controller].revision
            && r.native in u.directory.identities
            && Epoch(u.directory.identities[r.native]) == r.recoveryEpoch
            && !IsRestricted(u.directory.identities[r.native])
  {
  }

  lemma FirstApplicationNeeds(t: Tables, a: Application)
    requires DoApply(t, a).1.Ok? && FindFact(t.facts, a.request).None?
    ensures a.request in t.requests
    ensures var r := t.requests[a.request];
            && r.status == Pending && a.now < r.expiresAt
            && r.controller in t.principals && t.principals[r.controller].revision == r.expectedRevision
            && r.native in t.directory.identities
            && Epoch(t.directory.identities[r.native]) == r.recoveryEpoch
            && !IsRestricted(t.directory.identities[r.native])
  {
  }

  /** An application succeeds only on an unexpired pending consent; and then at every
      moment between that consent and it the root held exactly the grant rows it
      consented with, at the recorded revision, and its identity was not in recovery. */
  lemma ConsentStillHolds(t: Tables, c: Consent, toMoment: seq<Event>, toApply: seq<Event>, a: Application)
    requires DoConsent(t, c).1.Ok? && c.newId !in t.requests && c.newId in DoConsent(t, c).0.requests
    requires LegalRun(DoConsent(t, c).0, toMoment)
    requires LegalRun(After(DoConsent(t, c).0, toMoment), toApply)
    requires var u := After(After(DoConsent(t, c).0, toMoment), toApply);
             a.request == c.newId && DoApply(u, a).1.Ok? && FindFact(u.facts, a.request).None?
    ensures var consented := DoConsent(t, c).0;
            var moment := After(consented, toMoment);
            var u := After(moment, toApply);
            && a.now < c.now + DAY
            && c.newId in u.requests && u.requests[c.newId] == consented.requests[c.newId]
            && SameAuthority(consented, moment, consented.requests[c.newId])
            && SameAuthority(consented, u, consented.requests[c.newId])
  {
    var consented := DoConsent(t, c).0;
    var moment := After(consented, toMoment);
    var u := After(moment, toApply);
    ConsentCreates(t, c);
    FirstApplicationNeeds(u, a);
    ClosedRequestsNeverChange(consented, toMoment);
    ClosedRequestsNeverChange(moment, toApply);
    FrozenTransitive(consented, moment, u);
    RunFollows(consented, toMoment);
    RunFollows(moment, toApply);
    FollowTransitive(consented, moment, u);
  }

  // ---------------------------------------------------------------- what an application does

  lemma {:induction false} MissingIs(policy: seq<PolicyGrant>, grants: seq<Grant>, org: Id, root: Id,
                               capability: string)
    ensures capability in Capabilities(Missing(policy, grants, org, root))
       <==> capability in Capabilities(policy) && !HasActive(grants, Some(org), root, capability)
  {
    if policy != [] {
      MissingIs(policy[1..], grants, org, root, capability);
      CapabilitiesSplit(policy);
      var head := if HasActive(grants, Some(org), root, policy[0].capability) then [] else [policy[0]];
      CapabilitiesConcat(head, Missing(policy[1..], grants, org, root));
    }
  }

  lemma CapabilitiesConcat(a: seq<PolicyGrant>, b: seq<PolicyGrant>)
    ensures Capabilities(a + b) == Capabilities(a) + Capabilities(b)
  {
    forall x | x in Capabilities(a) + Capabilities(b) ensures x in Capabilities(a + b) {
      if x in Capabilities(a) {
        var i :| 0 <= i < |a| && a[i].capability == x;
        assert (a + b)[i].capability == x;
      } else {
        var i :| 0 <= i < |b| && b[i].capability == x;
        assert (a + b)[|a| + i].capability == x;
      }
    }
  }

  lemma CapabilitiesSplit(a: seq<PolicyGrant>)
    requires a != []
    ensures Capabilities(a) == {a[0].capability} + Capabilities(a[1..])
  {
    assert a == [a[0]] + a[1..];
    CapabilitiesConcat([a[0]], a[1..]);
    assert Capabilities([a[0]]) == {a[0].capability};
  }

  lemma {:induction false} CapabilitiesCount(a: seq<PolicyGrant>)
    requires Insertable(a)
    ensures |Capabilities(a)| == |a|
  {
    if a != [] {
      CapabilitiesSplit(a);
      CapabilitiesCount(a[1..]);
    }
  }

  lemma HasActiveAppend(grants: seq<Grant>, more: seq<Grant>, org: Option<Id>, p: Id, capability: string)
    ensures HasActive(grants + more, org, p, capability)
       <==> HasActive(grants, org, p, capability) || HasActive(more, org, p, capability)
  {
    forall i | 0 <= i < |more| && more[i].active && more[i].org == org && more[i].principal == p
             && more[i].capability == capability
      ensures HasActive(grants + more, org, p, capability)
    {
      assert (grants + more)[|grants| + i] == more[i];
    }
    forall i | 0 <= i < |grants| && grants[i].active && grants[i].org == org
             && grants[i].principal == p && grants[i].capability == capability
      ensures HasActive(grants + more, org, p, capability)
    {
      assert (grants + more)[i] == grants[i];
    }
  }

  /** A first application makes the root's active capabilities exactly the old ones
      plus the target policy's, brings back none that was revoked, leaves every other
      principal's rows alone, and records precisely what it added. */
  lemma ApplicationAddsExactly(t: Tables, a: Application, capability: string, other: Id)
    requires Inv(t) && DoApply(t, a).1.Ok? && FindFact(t.facts, a.request).None?
    ensures var u := DoApply(t, a).0;
            var r := t.requests[a.request];
            var f := u.facts[|u.facts| - 1];
            var held := HasActive(t.grants, Some(r.org), r.controller, capability);
            var holds := HasActive(u.grants, Some(r.org), r.controller, capability);
            && r.target in t.directory.policies
            && (holds <==> held || capability in Capabilities(t.directory.policies[r.target]))
            && (capability in f.added <==> holds && !held)
            && (HasRevoked(t.grants, Some(r.org), r.controller, capability) && !held ==> !holds)
            && (other != r.controller ==> RowsKept(t.grants, u.grants, other))
            && f.after == f.before + |f.added| && |f.added| > 0
            && f.before == t.principals[r.controller].revision && f.after == u.principals[r.controller].revision
            && f.approver != f.controller
  {
    var r := t.requests[a.request];
    var policy := t.directory.policies[r.target];
    CapabilitiesCount(Missing(policy, t.grants, r.org, r.controller));
    InsertedHold(policy, t.grants, r.org, r.controller, capability);
    InsertedAreTheirs(policy, t.grants, r.org, r.controller, other);
  }

  /** With a row for each missing policy grant a principal holds what it held and the policy. */
  lemma InsertedHold(policy: seq<PolicyGrant>, grants: seq<Grant>, org: Id, root: Id, capability: string)
    ensures var missing := Missing(policy, grants, org, root);
            var held := HasActive(grants, Some(org), root, capability);
            && (HasActive(grants + NewGrants(org, root, missing), Some(org), root, capability)
                <==> held || capability in Capabilities(policy))
            && (capability in Capabilities(missing) <==> capability in Capabilities(policy) && !held)
  {
    var missing := Missing(policy, grants, org, root);
    var inserted := NewGrants(org, root, missing);
    MissingIs(policy, grants, org, root, capability);
    HasActiveAppend(grants, inserted, Some(org), root, capability);
    if i :| 0 <= i < |missing| && missing[i].capability == capability {
      assert inserted[i].capability == capability;
    }
  }

  lemma InsertedAreTheirs(policy: seq<PolicyGrant>, grants: seq<Grant>, org: Id, root: Id, other: Id)
    ensures other != root ==>
              RowsKept(grants, grants + NewGrants(org, root, Missing(policy, grants, org, root)), other)
  {
  }

  lemma {:induction false} MissingFromPolicy(policy: seq<PolicyGrant>, grants: seq<Grant>, org: Id, root: Id)
    ensures forall g :: g in Missing(policy, grants, org, root) ==> g in policy
  {
    if policy != [] { MissingFromPolicy(policy[1..], grants, org, root); }
  }

  /** Every row an application adds is the root's, in its organization, with the plane and
      the delegability that the target policy gives its capability; old rows stay as they are. */
  lemma AddedRowsCarryPolicy(t: Tables, a: Application, k: nat)
    requires DoApply(t, a).1.Ok? && FindFact(t.facts, a.request).None? && k < |DoApply(t, a).0.grants|
    ensures a.request in t.requests && t.requests[a.request].target in t.directory.policies
    ensures var (g, r) := (DoApply(t, a).0.grants[k], t.requests[a.request]);
            if k < |t.grants| then g == t.grants[k]
            else g.org == Some(r.org) && g.principal == r.controller && g.active && g.plane != Platform
                 && PolicyGrant(g.capability, g.plane, g.delegable) in t.directory.policies[r.target]
  {
    var r := t.requests[a.request];
    var missing := Missing(t.directory.policies[r.target], t.grants, r.org, r.controller);
    MissingFromPolicy(t.directory.policies[r.target], t.grants, r.org, r.controller);
    if k >= |t.grants| { assert missing[k - |t.grants|] in missing; }
  }

  // ---------------------------------------------------------------- repeated consent

  /** However long after a consent, the same controller repeating its key creates
      nothing: it is refused, or told of the same request. */
  lemma RepeatedConsent(t: Tables, c: Consent, events: seq<Event>, again: Consent)
    requires Inv(t) && DoConsent(t, c).1.Ok? && c.newId !in t.requests && c.newId in DoConsent(t, c).0.requests
    requires LegalRun(DoConsent(t, c).0, events)
    requires again.actor == c.actor && again.key == c.key
    ensures var u := After(DoConsent(t, c).0, events);
            var reply := DoConsent(u, again).1;
            var first := DoConsent(t, c).1.value;
            && DoConsent(u, again).0 == u
            && (reply.Ok? ==>
                  && reply.value.request == first.request && reply.value.source == first.source
                  && reply.value.target == first.target && reply.value.expiresAt == first.expiresAt
                  && reply.value.authorityRevision == first.authorityRevision
                  && (again.intent.Some? ==> again.intent == c.intent))
  {
    var consented := DoConsent(t, c).0;
    var u := After(consented, events);
    ConsentKeepsInv(t, c);
    RunKeepsInv(consented, events);
    ClosedRequestsNeverChange(consented, events);
    ConsentNamesKey(t, c);
    assert KeyedBy(u.requests, c.actor, c.key, c.newId);
    RepeatIsLookup(u, again, c.newId);
  }

  lemma ConsentNamesKey(t: Tables, c: Consent)
    requires DoConsent(t, c).1.Ok? && c.newId !in t.requests && c.newId in DoConsent(t, c).0.requests
    ensures var u := DoConsent(t, c).0;
            && KeyedBy(u.requests, c.actor, c.key, c.newId)
            && c.intent == Some(u.requests[c.newId].intent)
            && DoConsent(t, c).1.value == RowReply(c.newId, u.requests[c.newId], c.now)
  {
  }

  lemma RepeatIsLookup(u: Tables, again: Consent, id: Id)
    requires UniqueKeys(u.requests) && KeyedBy(u.requests, again.actor, again.key, id)
    ensures DoConsent(u, again).0 == u
    ensures DoConsent(u, again).1.Ok? ==>
              && DoConsent(u, again).1.value == RowReply(id, u.requests[id], again.now)
              && (again.intent.Some? ==> again.intent.value == u.requests[id].intent)
  {
  }

  // ---------------------------------------------------------------- review

  /** What the platform owner is shown predicts what applying would do: capabilities
      listed as revoked make the application refuse, and otherwise it adds exactly the
      capabilities proposed. */
  lemma ReviewPredictsApplication(t: Tables, v: Review, a: Application)
    requires Inv(t) && DoReview(t, v).Ok? && a.request == v.request && a.now >= v.now
    ensures DoReview(t, v).value.revoked != {} ==> DoApply(t, a).1.Err? && DoApply(t, a).0 == t
    ensures DoApply(t, a).1.Ok? ==>
              && DoReview(t, v).value.revoked == {}
              && DoApply(t, a).1.value.added == DoReview(t, v).value.proposed
              && DoApply(t, a).1.value.before == DoReview(t, v).value.currentRevision
  {
    FindFactFinds(t.facts, v.request);
  }
}
