/** Exactly when the adoption commands succeed, and what they leave, in the fields of the tables. */
module AdoptionExact {
  import opened Common
  import opened Adoption
  import opened AdoptionRuns

  const HOURS_24: int := 86_400_000_000

  // ---------------------------------------------------------------- what the rows must say

  /** An active human of an organization, or of the platform, at a revision. */
  predicate IsHuman(t: Tables, p: Id, org: Option<Id>, revision: int) {
    p in t.principals && t.principals[p] == Principal(org, true, true, revision)
  }

  predicate HoldsRow(t: Tables, g: Grant) {
    exists i :: 0 <= i < |t.grants| && t.grants[i] == g
  }

  /** A row of the capability for the principal, active or revoked. */
  predicate HasRow(t: Tables, org: Id, p: Id, capability: string, active: bool) {
    exists i :: 0 <= i < |t.grants| && t.grants[i].org == Some(org) && t.grants[i].principal == p
             && t.grants[i].capability == capability && t.grants[i].active == active
  }

  /** The binding is the principal's own and active. */
  predicate Binds(d: Directory, binding: Id, org: Option<Id>, p: Id) {
    binding in d.bindings && d.bindings[binding].org == org && d.bindings[binding].principal == p
    && d.bindings[binding].active
  }

  /** An active identity under this active native authority, and not in recovery. */
  predicate InForce(d: Directory, native: Id, authority: Id) {
    && native in d.identities && d.identities[native].active && d.identities[native].authority == authority
    && authority in d.authorities && d.authorities[authority].native && d.authorities[authority].active
    && (d.identities[native].recovery.Some? ==> !d.identities[native].recovery.value.restricted)
  }

  predicate AtEpoch(d: Directory, native: Id, epoch: int) {
    native in d.identities
    && epoch == match d.identities[native].recovery
                case None => 0
                case Some(recovery) => recovery.epoch
  }

  /** The binding's subject is this native identity, in force under the binding's authority. */
  predicate Names(d: Directory, binding: Id, native: Id) {
    binding in d.bindings && d.bindings[binding].subject.native == Some(native)
    && InForce(d, native, d.bindings[binding].authority)
  }

  predicate NoFactOf(t: Tables, org: Id) {
    forall i :: 0 <= i < |t.facts| ==> t.facts[i].org != org
  }

  // ---------------------------------------------------------------- applying

  predicate OwnerCalls(t: Tables, a: Application) {
    && a.actor.Some? && a.actorRevision.Some? && IsHuman(t, a.actor.value, None, a.actorRevision.value)
    && (exists i :: 0 <= i < |t.grants| && t.grants[i].principal == a.actor.value && t.grants[i].active
                 && t.grants[i].plane == Platform
                 && t.grants[i].capability == "platform.organization.adopt_initial_controller_policy")
    && a.key.Some? && IsDigest(a.key.value) && a.intent.Some? && IsDigest(a.intent.value) && a.correlated
  }

  /** A pending, unexpired consent at the revision the caller saw, of the root it was given by
      and from the policy that root still has. */
  predicate ConsentStands(t: Tables, a: Application, r: Request) {
    && r.status == Pending && a.now < r.expiresAt && a.expected == Some(r.revision)
    && r.org in t.directory.roots && t.directory.roots[r.org] == RootFact(r.controller, r.binding, r.source)
    && NoFactOf(t, r.org)
    && r.source.Controller? && 1 <= r.source.version <= 5 && r.target == Controller(6)
  }

  /** Root and approver act under bindings of their own to two different native identities, both
      in force; the root's is the one that consented, with no recovery since. */
  ghost predicate IdentitiesStand(d: Directory, r: Request, actor: Id, actorBinding: Option<Id>) {
    && actorBinding.Some? && actor != r.controller
    && Binds(d, r.binding, Some(r.org), r.controller) && Binds(d, actorBinding.value, None, actor)
    && Names(d, r.binding, r.native) && AtEpoch(d, r.native, r.recoveryEpoch)
    && (exists other :: other != r.native && Names(d, actorBinding.value, other))
    && !(d.bindings[r.binding].authority == d.bindings[actorBinding.value].authority
         && d.bindings[r.binding].subject.text == d.bindings[actorBinding.value].subject.text)
  }

  predicate Lacks(t: Tables, r: Request, g: PolicyGrant) {
    !HasRow(t, r.org, r.controller, g.capability, true)
  }

  predicate Has(s: seq<PolicyGrant>, p: PolicyGrant -> bool) {
    exists k :: 0 <= k < |s| && p(s[k])
  }

  /** Some grant of the policy that the root lacks has the property. */
  predicate HasLacked(policy: seq<PolicyGrant>, t: Tables, r: Request, p: PolicyGrant -> bool) {
    exists i :: 0 <= i < |policy| && Lacks(t, r, policy[i]) && p(policy[i])
  }

  function Anything(): PolicyGrant -> bool { (g: PolicyGrant) => true }

  function OnPlatform(): PolicyGrant -> bool { (g: PolicyGrant) => g.plane == Platform }

  function OnceRevoked(t: Tables, r: Request): PolicyGrant -> bool {
    (g: PolicyGrant) => HasRow(t, r.org, r.controller, g.capability, false)
  }

  function OfCapability(capability: string): PolicyGrant -> bool { (g: PolicyGrant) => g.capability == capability }

  predicate LackedDiffer(policy: seq<PolicyGrant>, t: Tables, r: Request) {
    forall i, j :: 0 <= i < j < |policy| && Lacks(t, r, policy[i]) && Lacks(t, r, policy[j]) ==>
      policy[i].capability != policy[j].capability
  }

  /** The target policy adds something, restores nothing that was revoked, and its rows fit the
      grant table: none on the platform's plane, no capability twice. */
  predicate PolicyFits(t: Tables, r: Request) {
    r.target in t.directory.policies
    && var policy := t.directory.policies[r.target];
       && HasLacked(policy, t, r, Anything())
       && !HasLacked(policy, t, r, OnPlatform())
       && !HasLacked(policy, t, r, OnceRevoked(t, r))
       && LackedDiffer(policy, t, r)
  }

  ghost predicate MayApply(t: Tables, a: Application) {
    && OwnerCalls(t, a) && a.expected.Some? && 1 <= a.expected.value && a.request in t.requests
    && var r := t.requests[a.request];
       && ConsentStands(t, a, r)
       && IdentitiesStand(t.directory, r, a.actor.value, a.actorBinding)
       && IsHuman(t, r.controller, Some(r.org), r.expectedRevision)
       && PolicyFits(t, r)
       && forall i :: 0 <= i < |t.facts| ==> t.facts[i].id != a.factId
  }

  lemma OwnerIs(t: Tables, a: Application)
    ensures OwnerCalls(t, a) && a.expected.Some? && 1 <= a.expected.value && a.request in t.requests
       <==> ApplyBarrier(t, a).None? && a.key.Some? && a.intent.Some? && a.correlated
  {
  }

  lemma IdentitiesAre(t: Tables, a: Application, r: Request)
    requires a.actor.Some?
    ensures IdentitiesStand(t.directory, r, a.actor.value, a.actorBinding)
       <==> IdentityBarrier(t, a, r).None? && a.actor.value != r.controller
  {
    var d := t.directory;
    if IdentityBarrier(t, a, r).None? && a.actor.value != r.controller {
      var other := d.bindings[a.actorBinding.value].subject.native.value;
      assert other != r.native && Names(d, a.actorBinding.value, other);
    }
    if IdentitiesStand(d, r, a.actor.value, a.actorBinding) {
      var other :| other != r.native && Names(d, a.actorBinding.value, other);
      assert UnderActiveNativeAuthority(d, r.native) && UnderActiveNativeAuthority(d, other);
    }
  }

  lemma RowIsHeld(t: Tables, org: Id, p: Id, capability: string)
    ensures HasRow(t, org, p, capability, true) <==> HasActive(t.grants, Some(org), p, capability)
    ensures HasRow(t, org, p, capability, false) <==> HasRevoked(t.grants, Some(org), p, capability)
  {
  }

  lemma HasBoth(a: seq<PolicyGrant>, b: seq<PolicyGrant>, p: PolicyGrant -> bool)
    ensures Has(a + b, p) <==> Has(a, p) || Has(b, p)
  {
    forall k | 0 <= k < |a| && p(a[k]) ensures Has(a + b, p) { assert (a + b)[k] == a[k]; }
    forall k | 0 <= k < |b| && p(b[k]) ensures Has(a + b, p) { assert (a + b)[|a| + k] == b[k]; }
  }

  lemma HasLackedNext(policy: seq<PolicyGrant>, t: Tables, r: Request, p: PolicyGrant -> bool)
    requires policy != []
    ensures HasLacked(policy, t, r, p)
       <==> (Lacks(t, r, policy[0]) && p(policy[0])) || HasLacked(policy[1..], t, r, p)
  {
    var rest := policy[1..];
    if i :| 0 <= i < |policy| && Lacks(t, r, policy[i]) && p(policy[i]) {
      assert i > 0 ==> rest[i - 1] == policy[i];
    }
    if i :| 0 <= i < |rest| && Lacks(t, r, rest[i]) && p(rest[i]) {
      assert policy[i + 1] == rest[i];
    }
  }

  lemma MissingNext(policy: seq<PolicyGrant>, t: Tables, r: Request)
    requires policy != []
    ensures Missing(policy, t.grants, r.org, r.controller)
         == (if Lacks(t, r, policy[0]) then [policy[0]] else []) + Missing(policy[1..], t.grants, r.org, r.controller)
  {
    RowIsHeld(t, r.org, r.controller, policy[0].capability);
  }

  /** Of the policy grants, the missing ones are those the root lacks. */
  lemma {:induction false} MissingHas(policy: seq<PolicyGrant>, t: Tables, r: Request, p: PolicyGrant -> bool)
    ensures Has(Missing(policy, t.grants, r.org, r.controller), p) <==> HasLacked(policy, t, r, p)
  {
    if policy != [] {
      MissingHas(policy[1..], t, r, p);
      MissingNext(policy, t, r);
      HasLackedNext(policy, t, r, p);
      HasBoth(if Lacks(t, r, policy[0]) then [policy[0]] else [],
              Missing(policy[1..], t.grants, r.org, r.controller), p);
      assert Has([policy[0]], p) <==> p(policy[0]) by { assert [policy[0]][0] == policy[0]; }
    }
  }

  predicate Differ(a: seq<PolicyGrant>) {
    forall k, l :: 0 <= k < l < |a| ==> a[k].capability != a[l].capability
  }

  lemma DifferNext(g: PolicyGrant, rest: seq<PolicyGrant>)
    ensures Differ([g] + rest) <==> Differ(rest) && !Has(rest, OfCapability(g.capability))
  {
    var all := [g] + rest;
    assert all[0] == g && forall l :: 0 <= l < |rest| ==> all[l + 1] == rest[l];
    assert forall l :: 0 < l < |all| ==> all[l] == rest[l - 1];
  }

  lemma LackedDifferNext(policy: seq<PolicyGrant>, t: Tables, r: Request)
    requires policy != []
    ensures LackedDiffer(policy, t, r) <==>
              && LackedDiffer(policy[1..], t, r)
              && (Lacks(t, r, policy[0]) ==> !HasLacked(policy[1..], t, r, OfCapability(policy[0].capability)))
  {
    assert forall i :: 0 <= i < |policy[1..]| ==> policy[1..][i] == policy[i + 1];
    assert forall i :: 0 < i < |policy| ==> policy[i] == policy[1..][i - 1];
  }

  lemma {:induction false} MissingDiffer(policy: seq<PolicyGrant>, t: Tables, r: Request)
    ensures Differ(Missing(policy, t.grants, r.org, r.controller)) <==> LackedDiffer(policy, t, r)
  {
    if policy != [] {
      var rest := Missing(policy[1..], t.grants, r.org, r.controller);
      MissingDiffer(policy[1..], t, r);
      MissingHas(policy[1..], t, r, OfCapability(policy[0].capability));
      MissingNext(policy, t, r);
      LackedDifferNext(policy, t, r);
      DifferNext(policy[0], rest);
      assert [] + rest == rest;
    }
  }

  lemma PolicyIs(t: Tables, r: Request)
    requires r.target in t.directory.policies
    ensures var missing := Missing(t.directory.policies[r.target], t.grants, r.org, r.controller);
            PolicyFits(t, r) <==> missing != [] && Insertable(missing)
                                  && !RestoresRevoked(missing, t.grants, r.org, r.controller)
  {
    var policy := t.directory.policies[r.target];
    MissingHas(policy, t, r, Anything());
    MissingHas(policy, t, r, OnPlatform());
    MissingHas(policy, t, r, OnceRevoked(t, r));
    MissingDiffer(policy, t, r);
    GuardsAre(Missing(policy, t.grants, r.org, r.controller), t, r);
  }

  lemma GuardsAre(missing: seq<PolicyGrant>, t: Tables, r: Request)
    ensures missing != [] <==> Has(missing, Anything())
    ensures Insertable(missing) <==> !Has(missing, OnPlatform()) && Differ(missing)
    ensures RestoresRevoked(missing, t.grants, r.org, r.controller) <==> Has(missing, OnceRevoked(t, r))
  {
    if missing != [] { assert Anything()(missing[0]); }
    forall k | 0 <= k < |missing|
      ensures OnceRevoked(t, r)(missing[k]) <==> HasRevoked(t.grants, Some(r.org), r.controller, missing[k].capability)
    {
      RowIsHeld(t, r.org, r.controller, missing[k].capability);
    }
  }

  /** Without a fact of its organization a policy is the initial one; with one, in a reachable
      state, it is the target already. */
  lemma PolicyOf(t: Tables, org: Id)
    requires Inv(t) && org in t.directory.roots
    ensures NoFactOf(t, org) ==> CurrentPolicy(t, org) == t.directory.roots[org].initial
    ensures !NoFactOf(t, org) ==> CurrentPolicy(t, org) == Controller(6)
  {
    LatestFactFinds(t.facts, org);
  }

  /** The fact that decides the policy is the one applied last, by time and then identifier. */
  lemma {:induction false} LatestIsLast(facts: seq<Fact>, org: Id, i: nat)
    requires i < |facts| && facts[i].org == org
    ensures LatestFact(facts, org).Some?
    ensures var f := LatestFact(facts, org).value;
            && f.org == org && f in facts
            && (facts[i].appliedAt < f.appliedAt || (facts[i].appliedAt == f.appliedAt && facts[i].id <= f.id))
    decreases |facts|
  {
    var front := facts[..|facts| - 1];
    LatestFactFinds(front, org);
    LatestFactFinds(facts, org);
    if i < |front| {
      LatestIsLast(front, org, i);
    } else if LatestFact(front, org).Some? {
      var f := LatestFact(front, org).value;
      var j :| 0 <= j < |front| && front[j] == f;
    }
  }

  /** In a reachable state, of a request that has not been applied: the application succeeds if
      and only if the rows say all of this. */
  lemma ApplicationSucceedsExactlyWhen(t: Tables, a: Application)
    requires Inv(t) && forall i :: 0 <= i < |t.facts| ==> t.facts[i].request != a.request
    ensures DoApply(t, a).1.Ok? <==> MayApply(t, a)
    ensures DoApply(t, a).1.Err? ==> DoApply(t, a).0 == t
  {
    FindFactFinds(t.facts, a.request);
    OwnerIs(t, a);
    if ApplyBarrier(t, a).None? && a.key.Some? && a.intent.Some? && a.correlated { FirstIs(t, a); }
  }

  /** Past the owner's own checks. */
  lemma FirstIs(t: Tables, a: Application)
    requires Inv(t) && a.actor.Some? && ApplyBarrier(t, a).None? && OwnerCalls(t, a)
    ensures FirstBarrier(t, a).None? <==> MayApply(t, a)
  {
    OwnerIs(t, a);
    var r := t.requests[a.request];
    IdentitiesAre(t, a, r);
    assert RowInv(r);
    if r.org in t.directory.roots { PolicyOf(t, r.org); }
    if r.target in t.directory.policies { PolicyIs(t, r); }
  }

  /** What a first application leaves and answers. Only these rows change: the request is closed
      at the next revision, the root's revision rises by the capabilities added, and one fact is
      appended that records the call, the consent and the two revisions. */
  lemma ApplicationLeaves(t: Tables, a: Application)
    requires Inv(t) && DoApply(t, a).1.Ok? && forall i :: 0 <= i < |t.facts| ==> t.facts[i].request != a.request
    ensures a.request in t.requests && a.actor.Some? && a.key.Some? && a.intent.Some? && a.actorRevision.Some?
    ensures var ((u, answer), r) := (DoApply(t, a), t.requests[a.request]);
            && u.requests == t.requests[a.request := r.(status := Applied, revision := r.revision + 1)]
            && r.controller in t.principals
            && |u.grants| == |t.grants| + |answer.value.added|
            && u.principals
               == t.principals[r.controller := Principal(Some(r.org), true, true,
                                                         r.expectedRevision + |answer.value.added|)]
            && u.directory == t.directory
            && u.facts == t.facts + [
                 Fact(a.factId, a.request, r.org, r.controller, r.binding, a.actor.value, r.source, Controller(6),
                      r.expectedRevision, r.expectedRevision + |answer.value.added|, answer.value.added,
                      a.key.value, a.intent.value, a.actorRevision.value, a.now, r.native, r.recoveryEpoch)]
            && answer.value
               == ApplyReply(a.factId, a.request, r.org, r.controller, r.source, Controller(6), r.expectedRevision,
                             r.expectedRevision + |answer.value.added|, answer.value.added, r.revision + 1,
                             a.actor.value, a.actorRevision.value, a.now)
  {
    FindFactFinds(t.facts, a.request);
    ApplicationSucceedsExactlyWhen(t, a);
    var r := t.requests[a.request];
    CapabilitiesCount(Missing(t.directory.policies[r.target], t.grants, r.org, r.controller));
  }

  /** Applying once more what has been applied succeeds exactly when the owner who approved it
      calls with the key and intent of then, under a binding in force; it answers the fact. */
  lemma ReplaySucceedsExactlyWhen(t: Tables, a: Application, k: nat)
    requires Inv(t) && k < |t.facts| && t.facts[k].request == a.request && a.key.Some? && a.intent.Some? && a.correlated
    ensures DoApply(t, a).0 == t
    ensures DoApply(t, a).1.Ok? <==>
              && OwnerCalls(t, a) && a.expected.Some? && 1 <= a.expected.value
              && a.actor == Some(t.facts[k].approver)
              && a.key == Some(t.facts[k].key) && a.intent == Some(t.facts[k].intent)
              && a.actorBinding.Some? && Binds(t.directory, a.actorBinding.value, None, t.facts[k].approver)
              && t.directory.bindings[a.actorBinding.value].subject.native.Some?
              && Names(t.directory, a.actorBinding.value,
                       t.directory.bindings[a.actorBinding.value].subject.native.value)
    ensures var f := t.facts[k];
            DoApply(t, a).1.Ok? ==>
              DoApply(t, a).1.value
              == ApplyReply(f.id, f.request, f.org, f.controller, f.source, f.target, f.before, f.after, f.added, 2,
                            f.approver, f.approverRevision, f.appliedAt)
  {
    FindFactFinds(t.facts, a.request);
    OwnerIs(t, a);
    assert FactInv(t.requests, t.facts[k]);
    assert RowInv(t.requests[a.request]);
    assert FindFact(t.facts, a.request).value == t.facts[k];
  }

  // ---------------------------------------------------------------- consenting

  /** The actor manages the organization and is its original root, acting under the root's own
      binding, whose native identity is in force. */
  predicate RootCalls(t: Tables, org: Id, actor: Id, binding: Option<Id>) {
    && actor in t.principals && IsHuman(t, actor, Some(org), t.principals[actor].revision)
    && (org, actor) in t.directory.members && HasRow(t, org, actor, "organization.bootstrap", true)
    && org in t.directory.roots && t.directory.roots[org].controller == actor
    && binding == Some(t.directory.roots[org].binding)
    && Binds(t.directory, t.directory.roots[org].binding, Some(org), actor)
  }

  predicate RootIsNative(t: Tables, org: Id)
    requires org in t.directory.roots
  {
    var binding := t.directory.roots[org].binding;
    && binding in t.directory.bindings && t.directory.bindings[binding].subject.native.Some?
    && Names(t.directory, binding, t.directory.bindings[binding].subject.native.value)
  }

  predicate ConsentIsValid(c: Consent) {
    && c.expected.Some? && 1 <= c.expected.value
    && c.reason.Some? && 1 <= |Btrim(c.reason.value)| <= 500
    && c.key.Some? && IsDigest(c.key.value) && c.intent.Some? && IsDigest(c.intent.value) && c.correlated
  }

  predicate MayConsent(t: Tables, c: Consent) {
    && RootCalls(t, c.org, c.actor, c.binding) && RootIsNative(t, c.org) && ConsentIsValid(c)
    && Controller(6) in t.directory.policies && NoFactOf(t, c.org)
    && (var initial := t.directory.roots[c.org].initial; initial.Controller? && 1 <= initial.version <= 5)
    && c.expected.value == t.principals[c.actor].revision
    && (forall id :: id in t.requests && t.requests[id].org == c.org && t.requests[id].status == Pending ==>
          t.requests[id].expiresAt <= c.now)
    && c.newId !in t.requests
  }

  lemma RootIs(t: Tables, c: Consent)
    ensures RootCalls(t, c.org, c.actor, c.binding)
       <==> IsManager(t, c.org, c.actor) && ConsenterIsRoot(t, c)
    ensures RootCalls(t, c.org, c.actor, c.binding) ==>
              (RootIsNative(t, c.org) <==> BoundNormally(t.directory, c.binding.value))
  {
    RowIsHeld(t, c.org, c.actor, "organization.bootstrap");
  }

  lemma SweptHasPending(t: Tables, org: Id, now: int)
    ensures HasPending(Sweep(t.requests, org, now), org)
       <==> exists id :: id in t.requests && t.requests[id].org == org && t.requests[id].status == Pending
                         && now < t.requests[id].expiresAt
  {
    var swept := Sweep(t.requests, org, now);
    if id :| id in t.requests && t.requests[id].org == org && t.requests[id].status == Pending
             && now < t.requests[id].expiresAt {
      assert swept[id] == t.requests[id];
    }
  }

  /** In a reachable state, with a key the controller has not used: a consent succeeds if and only
      if the rows say all of this. */
  lemma ConsentSucceedsExactlyWhen(t: Tables, c: Consent)
    requires Inv(t)
    requires forall id :: id in t.requests && t.requests[id].controller == c.actor ==> Some(t.requests[id].key) != c.key
    ensures DoConsent(t, c).1.Ok? <==> MayConsent(t, c)
    ensures DoConsent(t, c).1.Err? ==> DoConsent(t, c).0 == t
  {
    RootIs(t, c);
    SweptHasPending(t, c.org, c.now);
    if c.org in t.directory.roots { PolicyOf(t, c.org); }
    assert !exists id :: KeyedBy(t.requests, c.actor, c.key, id);
  }

  /** What it leaves of the other rows: lapsed requests of the organization are closed at the next
      revision, and nothing else changes but the new request. */
  lemma ConsentLeaves(t: Tables, c: Consent)
    requires Inv(t) && DoConsent(t, c).1.Ok?
    requires forall id :: id in t.requests && t.requests[id].controller == c.actor ==> Some(t.requests[id].key) != c.key
    ensures var u := DoConsent(t, c).0;
            && u == t.(requests := u.requests) && u.requests.Keys == t.requests.Keys + {c.newId}
            && c.newId !in t.requests
            && forall id :: id in t.requests ==>
                 u.requests[id]
                 == if t.requests[id].org == c.org && t.requests[id].status == Pending
                    then t.requests[id].(status := Expired, revision := t.requests[id].revision + 1)
                    else t.requests[id]
  {
    ConsentSucceedsExactlyWhen(t, c);
    assert !exists id :: KeyedBy(t.requests, c.actor, c.key, id);
  }

  /** The new request waits for a day, with the root's revision, policy, identity and epoch of
      this moment; the consent answers it. */
  lemma NewRequestIs(t: Tables, c: Consent)
    requires Inv(t) && DoConsent(t, c).1.Ok?
    requires forall id :: id in t.requests && t.requests[id].controller == c.actor ==> Some(t.requests[id].key) != c.key
    ensures MayConsent(t, c) && c.binding.value in t.directory.bindings && c.newId in DoConsent(t, c).0.requests
    ensures var (row, initial) := (DoConsent(t, c).0.requests[c.newId], t.directory.roots[c.org].initial);
            && row == Request(c.org, c.actor, c.binding.value, initial, Controller(6), c.expected.value,
                              Btrim(c.reason.value), c.key.value, c.intent.value, None, None, Pending, 1,
                              c.now + HOURS_24, row.native, row.recoveryEpoch)
            && t.directory.bindings[c.binding.value].subject.native == Some(row.native)
            && AtEpoch(t.directory, row.native, row.recoveryEpoch)
            && DoConsent(t, c).1.value == ConsentReply(c.newId, initial, Controller(6), c.expected.value, 1, Pending,
                                                       c.now + HOURS_24)
  {
    ConsentSucceedsExactlyWhen(t, c);
    PolicyOf(t, c.org);
    assert !exists id :: KeyedBy(t.requests, c.actor, c.key, id);
  }

  /** Repeating a key succeeds exactly when the root calls validly with the intent of then; it
      changes nothing and answers the row as it stands, a lapsed one as expired. */
  lemma RepetitionSucceedsExactlyWhen(t: Tables, c: Consent, id: Id)
    requires Inv(t) && id in t.requests && t.requests[id].controller == c.actor && Some(t.requests[id].key) == c.key
    requires c.intent.Some?
    ensures DoConsent(t, c).0 == t
    ensures DoConsent(t, c).1.Ok? <==>
              && RootCalls(t, c.org, c.actor, c.binding) && RootIsNative(t, c.org) && ConsentIsValid(c)
              && Controller(6) in t.directory.policies
              && (NoFactOf(t, c.org) ==>
                    t.directory.roots[c.org].initial.Controller? && 1 <= t.directory.roots[c.org].initial.version <= 6)
              && c.intent == Some(t.requests[id].intent)
    ensures var r := t.requests[id];
            DoConsent(t, c).1.Ok? ==>
              DoConsent(t, c).1.value
              == ConsentReply(id, r.source, r.target, r.expectedRevision, r.revision,
                              if r.status == Pending && r.expiresAt <= c.now then Expired else r.status, r.expiresAt)
  {
    RootIs(t, c);
    if c.org in t.directory.roots { PolicyOf(t, c.org); }
    assert KeyedBy(t.requests, c.actor, c.key, id);
    assert forall j :: KeyedBy(t.requests, c.actor, c.key, j) ==> j == id;
  }

  // ---------------------------------------------------------------- withdrawing

  predicate MayWithdraw(t: Tables, c: Withdrawal) {
    && RootCalls(t, c.org, c.actor, c.binding)
    && c.request in t.requests && t.requests[c.request].org == c.org
    && c.expected.Some? && 1 <= c.expected.value
    && c.key.Some? && IsDigest(c.key.value) && c.intent.Some? && IsDigest(c.intent.value)
  }

  /** A withdrawal with all its parameters succeeds exactly when the root asks for a request of
      its organization that is pending, unexpired and at the revision named, which it closes, or
      for one it has withdrawn with this key and intent, which changes nothing. */
  lemma WithdrawalSucceedsExactlyWhen(t: Tables, c: Withdrawal)
    requires c.key.Some? && c.intent.Some?
    ensures DoWithdraw(t, c).1.Ok? <==>
              MayWithdraw(t, c)
              && var r := t.requests[c.request];
                 || (r.status == Withdrawn && r.withdrawnKey == c.key && r.withdrawnIntent == c.intent)
                 || (r.status == Pending && c.now < r.expiresAt && c.expected == Some(r.revision))
    ensures DoWithdraw(t, c).1.Err? || t.requests[c.request].status == Withdrawn ==> DoWithdraw(t, c).0 == t
    ensures DoWithdraw(t, c).1.Ok? ==>
              var r := t.requests[c.request];
              var left := if r.status == Withdrawn then r
                          else r.(status := Withdrawn, revision := r.revision + 1,
                                  withdrawnKey := c.key, withdrawnIntent := c.intent);
              DoWithdraw(t, c) == (t.(requests := t.requests[c.request := left]), Ok((left.revision, Withdrawn)))
  {
    RowIsHeld(t, c.org, c.actor, "organization.bootstrap");
    if c.request in t.requests { assert t.requests[c.request := t.requests[c.request]] == t.requests; }
  }

  // ---------------------------------------------------------------- reviewing

  /** The review is shown exactly to an owner under an active binding, for a request that waits
      and whose controller has kept its revision; and what it shows. */
  lemma ReviewShowsExactly(t: Tables, v: Review)
    ensures DoReview(t, v).Ok? <==>
              && v.actor.Some? && v.actorRevision.Some? && v.actorBinding.Some?
              && IsHuman(t, v.actor.value, None, v.actorRevision.value)
              && (exists i :: 0 <= i < |t.grants| && t.grants[i].principal == v.actor.value && t.grants[i].active
                           && t.grants[i].plane == Platform
                           && t.grants[i].capability == "platform.organization.adopt_initial_controller_policy")
              && Binds(t.directory, v.actorBinding.value, None, v.actor.value)
              && v.request in t.requests
              && var r := t.requests[v.request];
                 && r.status == Pending && v.now < r.expiresAt
                 && r.controller in t.principals && t.principals[r.controller].org == Some(r.org)
                 && t.principals[r.controller].active
                 && t.principals[r.controller].revision == r.expectedRevision
    ensures DoReview(t, v).Ok? ==>
              var (r, shown) := (t.requests[v.request], DoReview(t, v).value);
              && shown == ReviewReply(v.request, r.org, r.controller, r.source, r.target, r.expectedRevision,
                                      r.revision, r.reason, r.expiresAt, r.expectedRevision,
                                      shown.proposed, shown.revoked)
  {
  }

  /** The capabilities it proposes are those of the target policy that the root lacks, and those
      it lists as revoked are the proposed ones that the root once held. */
  lemma ReviewProposes(t: Tables, v: Review, capability: string)
    requires DoReview(t, v).Ok? && t.requests[v.request].target in t.directory.policies
    ensures var (r, shown) := (t.requests[v.request], DoReview(t, v).value);
            var policy := t.directory.policies[r.target];
            && (capability in shown.proposed <==>
                  && (exists i :: 0 <= i < |policy| && policy[i].capability == capability)
                  && !HasRow(t, r.org, r.controller, capability, true))
            && (capability in shown.revoked <==>
                  capability in shown.proposed && HasRow(t, r.org, r.controller, capability, false))
  {
    var r := t.requests[v.request];
    MissingIs(t.directory.policies[r.target], t.grants, r.org, r.controller, capability);
    RowIsHeld(t, r.org, r.controller, capability);
  }

  // ---------------------------------------------------------------- refusals

  /** What each refusal of an application tells its caller. */
  predicate ApplicationReason(t: Tables, a: Application, error: Error) {
    match error
    case NoPlatformAuthority =>
      a.actor.None? || a.actorRevision.None? || !IsHuman(t, a.actor.value, None, a.actorRevision.value)
      || !HoldsAdoption(t, a.actor.value)
    case InvalidInput =>
      || a.expected.None? || a.expected.value < 1
      || (a.key.Some? && !IsDigest(a.key.value)) || (a.intent.Some? && !IsDigest(a.intent.value))
    case Unavailable => a.request !in t.requests
    case AlreadyApplied => a.request in t.requests && t.requests[a.request].status == Applied
    case StaleConsent =>
      a.request in t.requests
      && (|| t.requests[a.request].status != Pending || t.requests[a.request].expiresAt <= a.now
          || a.expected != Some(t.requests[a.request].revision))
    case RootChanged =>
      a.request in t.requests
      && var r := t.requests[a.request];
         || r.org !in t.directory.roots || t.directory.roots[r.org] != RootFact(r.controller, r.binding, r.source)
         || !NoFactOf(t, r.org) || a.actor == Some(r.controller)
    case ProvenanceChanged =>
      a.request in t.requests && t.requests[a.request].binding in t.directory.bindings
      && t.directory.bindings[t.requests[a.request].binding].subject.native
         != Some(t.requests[a.request].native)
    case RecoveryInvalidated =>
      a.request in t.requests
      && var r := t.requests[a.request]; !Names(t.directory, r.binding, r.native)
                                         || !AtEpoch(t.directory, r.native, r.recoveryEpoch)
    case StaleAuthority =>
      a.request in t.requests
      && var r := t.requests[a.request];
         r.controller in t.principals && t.principals[r.controller].revision != r.expectedRevision
    case NotRoot =>
      a.request in t.requests
      && var r := t.requests[a.request];
         r.controller in t.principals ==>
           t.principals[r.controller] != Principal(Some(r.org), true, true, t.principals[r.controller].revision)
    case NotApproved => a.request in t.requests && Controller(6) !in t.directory.policies
    case WouldRestoreRevoked =>
      a.request in t.requests && t.requests[a.request].target in t.directory.policies
      && HasLacked(t.directory.policies[t.requests[a.request].target], t, t.requests[a.request],
                   OnceRevoked(t, t.requests[a.request]))
    case NothingMissing =>
      a.request in t.requests && t.requests[a.request].target in t.directory.policies
      && !HasLacked(t.directory.policies[t.requests[a.request].target], t, t.requests[a.request], Anything())
    case IdentityRefused => true
    case Restricted => true
    case ConstraintViolation => true
    case _ => false
  }

  lemma OwnerReasons(t: Tables, a: Application)
    requires ApplyBarrier(t, a).Some?
    ensures ApplicationReason(t, a, ApplyBarrier(t, a).value)
  {
  }

  lemma ReplayReasons(t: Tables, a: Application, f: Fact)
    requires ReplayBarrier(t, a, f).Some? && a.request in t.requests && t.requests[a.request].status == Applied
    ensures ApplicationReason(t, a, ReplayBarrier(t, a, f).value)
  {
  }

  lemma IdentityReasons(t: Tables, a: Application)
    requires a.actor.Some? && a.request in t.requests && IdentityBarrier(t, a, t.requests[a.request]).Some?
    ensures ApplicationReason(t, a, IdentityBarrier(t, a, t.requests[a.request]).value)
  {
  }

  lemma FirstReasons(t: Tables, a: Application)
    requires Inv(t) && a.actor.Some? && a.request in t.requests && FirstBarrier(t, a).Some?
    ensures ApplicationReason(t, a, FirstBarrier(t, a).value)
  {
    var r := t.requests[a.request];
    if FirstBarrier(t, a) == IdentityBarrier(t, a, r) {
      IdentityReasons(t, a);
    } else if FirstBarrier(t, a) == Some(RootChanged) {
      RootReasons(t, a);
    } else {
      StateReasons(t, a);
    }
  }

  lemma StateReasons(t: Tables, a: Application)
    requires RequestsInv(t.requests) && a.actor.Some? && a.request in t.requests && FirstBarrier(t, a).Some?
    requires FirstBarrier(t, a) != IdentityBarrier(t, a, t.requests[a.request])
    requires FirstBarrier(t, a) != Some(RootChanged)
    ensures ApplicationReason(t, a, FirstBarrier(t, a).value)
  {
    var r := t.requests[a.request];
    assert RowInv(r);
    if r.target in t.directory.policies { PolicyReasons(t, r); }
  }

  lemma RootReasons(t: Tables, a: Application)
    requires Inv(t) && a.actor.Some? && a.request in t.requests && FirstBarrier(t, a) == Some(RootChanged)
    ensures ApplicationReason(t, a, RootChanged)
  {
    var r := t.requests[a.request];
    if r.org in t.directory.roots { PolicyOf(t, r.org); }
  }

  lemma PolicyReasons(t: Tables, r: Request)
    requires r.target in t.directory.policies
    ensures var (policy, missing) := (t.directory.policies[r.target],
                                      Missing(t.directory.policies[r.target], t.grants, r.org, r.controller));
            && (RestoresRevoked(missing, t.grants, r.org, r.controller) ==> HasLacked(policy, t, r, OnceRevoked(t, r)))
            && (missing == [] ==> !HasLacked(policy, t, r, Anything()))
  {
    MissingHas(t.directory.policies[r.target], t, r, Anything());
    MissingHas(t.directory.policies[r.target], t, r, OnceRevoked(t, r));
    GuardsAre(Missing(t.directory.policies[r.target], t.grants, r.org, r.controller), t, r);
  }

  /** A refused application changes nothing, and its error is true. */
  lemma ApplicationRefusalsAreTrue(t: Tables, a: Application)
    requires Inv(t) && DoApply(t, a).1.Err?
    ensures DoApply(t, a).0 == t && ApplicationReason(t, a, DoApply(t, a).1.error)
  {
    FindFactFinds(t.facts, a.request);
    if ApplyBarrier(t, a).Some? {
      OwnerReasons(t, a);
    } else if FindFact(t.facts, a.request).Some? {
      var f := FindFact(t.facts, a.request).value;
      var i :| 0 <= i < |t.facts| && t.facts[i] == f;
      assert FactInv(t.requests, t.facts[i]);
      ReplayReasons(t, a, f);
    } else {
      FirstReasons(t, a);
    }
  }

  predicate HoldsAdoption(t: Tables, p: Id) {
    exists i :: 0 <= i < |t.grants| && t.grants[i].principal == p && t.grants[i].active
             && t.grants[i].plane == Platform
             && t.grants[i].capability == "platform.organization.adopt_initial_controller_policy"
  }

  /** What each refusal of a consent tells its caller. */
  lemma ConsentRefusalsAreTrue(t: Tables, c: Consent)
    requires Inv(t) && DoConsent(t, c).1.Err?
    ensures DoConsent(t, c).0 == t
    ensures match DoConsent(t, c).1.error
            case NotManager =>
              || c.actor !in t.principals || !IsHuman(t, c.actor, Some(c.org), t.principals[c.actor].revision)
              || (c.org, c.actor) !in t.directory.members
              || !HasRow(t, c.org, c.actor, "organization.bootstrap", true)
            case NotRoot => !RootCalls(t, c.org, c.actor, c.binding)
            case Restricted => RootCalls(t, c.org, c.actor, c.binding) && !RootIsNative(t, c.org)
            case InvalidInput =>
              || c.expected.None? || c.expected.value < 1 || c.reason.None?
              || !(1 <= |Btrim(c.reason.value)| <= 500) || !c.correlated
              || (c.key.Some? && !IsDigest(c.key.value)) || (c.intent.Some? && !IsDigest(c.intent.value))
            case NoTransition =>
              c.org in t.directory.roots
              && (|| Controller(6) !in t.directory.policies || !NoFactOf(t, c.org)
                  || !t.directory.roots[c.org].initial.Controller?
                  || !(1 <= t.directory.roots[c.org].initial.version <= 5))
            case KeyConflict =>
              exists id :: id in t.requests && t.requests[id].controller == c.actor
                           && c.key == Some(t.requests[id].key) && c.intent != Some(t.requests[id].intent)
            case StaleAuthority => c.actor in t.principals && c.expected != Some(t.principals[c.actor].revision)
            case AlreadyPending =>
              exists id :: id in t.requests && t.requests[id].org == c.org && t.requests[id].status == Pending
                           && c.now < t.requests[id].expiresAt
            case ConstraintViolation => c.key.None? || c.intent.None? || c.newId in t.requests
            case _ => false
  {
    RootIs(t, c);
    RowIsHeld(t, c.org, c.actor, "organization.bootstrap");
    SweptHasPending(t, c.org, c.now);
    if c.org in t.directory.roots { PolicyOf(t, c.org); }
  }
}
