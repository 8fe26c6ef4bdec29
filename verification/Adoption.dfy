/** Dual-consent adoption of the current controller policy: the original controller
    of an organization consents or withdraws, and a distinct platform owner applies.
    Every command is one transaction; a refusal leaves the tables as they were. */
module Adoption {
  import opened Common

  type Id = nat

  const DAY: int := 24 * 60 * 60 * 1_000_000
  const BOOTSTRAP: string := "organization.bootstrap"
  const ADOPT: string := "platform.organization.adopt_initial_controller_policy"

  /** `tenant-controller-vN`, or any other policy key. */
  datatype PolicyKey = Controller(version: nat) | Other(name: string)

  const TARGET: PolicyKey := Controller(6)

  predicate ApprovedSource(policy: PolicyKey) {
    policy.Controller? && 1 <= policy.version <= 5
  }

  predicate KnownPolicy(policy: PolicyKey) {
    policy.Controller? && 1 <= policy.version <= 6
  }

  // ---------------------------------------------------------------- tables

  datatype Status = Pending | Withdrawn | Expired | Applied

  datatype Request = Request(
    org: Id, controller: Id, binding: Id, source: PolicyKey, target: PolicyKey,
    expectedRevision: int, reason: string, key: string, intent: string,
    withdrawnKey: Option<string>, withdrawnIntent: Option<string>,
    status: Status, revision: int, expiresAt: int,
    native: Id, recoveryEpoch: int)

  datatype Fact = Fact(
    id: Id, request: Id, org: Id, controller: Id, binding: Id, approver: Id,
    source: PolicyKey, target: PolicyKey, before: int, after: int, added: set<string>,
    key: string, intent: string, approverRevision: int, appliedAt: int,
    native: Id, recoveryEpoch: int)

  datatype Plane = Platform | TenantControl | Operational

  /** A grant row; revoked rows stay in the table. */
  datatype Grant = Grant(org: Option<Id>, principal: Id, plane: Plane,
    capability: string, delegable: bool, active: bool)

  /** A principal of an organization, or of the platform when it has none. */
  datatype Principal = Principal(org: Option<Id>, human: bool, active: bool, revision: int)

  /** A subject text, with the identifier it spells when it is a native one. */
  datatype Subject = Subject(text: string, native: Option<Id>)

  datatype Binding = Binding(org: Option<Id>, principal: Id, authority: Id, subject: Subject, active: bool)

  datatype Recovery = Recovery(restricted: bool, epoch: int)

  datatype Identity = Identity(authority: Id, active: bool, recovery: Option<Recovery>)

  datatype Authority = Authority(native: bool, active: bool)

  datatype RootFact = RootFact(controller: Id, binding: Id, initial: PolicyKey)

  datatype PolicyGrant = PolicyGrant(capability: string, plane: Plane, delegable: bool)

  /** Tables the adoption commands only read. */
  datatype Directory = Directory(
    members: set<(Id, Id)>, bindings: map<Id, Binding>, identities: map<Id, Identity>,
    authorities: map<Id, Authority>, roots: map<Id, RootFact>, policies: map<PolicyKey, seq<PolicyGrant>>)

  datatype Tables = Tables(
    requests: map<Id, Request>, facts: seq<Fact>, grants: seq<Grant>,
    principals: map<Id, Principal>, directory: Directory)

  datatype Error =
    | NotManager | NotRoot | Restricted | InvalidInput | NoTransition | KeyConflict | StaleAuthority
    | AlreadyPending | ConstraintViolation | Unavailable | NotWithdrawable
    | NoPlatformAuthority | AlreadyApplied | StaleConsent | RootChanged | IdentityRefused | ProvenanceChanged
    | RecoveryInvalidated | NotApproved | WouldRestoreRevoked | NothingMissing

  // ---------------------------------------------------------------- queries

  predicate HasActive(grants: seq<Grant>, org: Option<Id>, principal: Id, capability: string) {
    exists i :: 0 <= i < |grants| && grants[i].active && grants[i].org == org
             && grants[i].principal == principal && grants[i].capability == capability
  }

  predicate HasRevoked(grants: seq<Grant>, org: Option<Id>, principal: Id, capability: string) {
    exists i :: 0 <= i < |grants| && !grants[i].active && grants[i].org == org
             && grants[i].principal == principal && grants[i].capability == capability
  }

  predicate IsTenantHuman(t: Tables, org: Id, principal: Id) {
    principal in t.principals
    && var p := t.principals[principal];
       p.org == Some(org) && p.human && p.active
  }

  /** assert_staff_manager of the baseline schema. */
  predicate IsManager(t: Tables, org: Id, actor: Id) {
    IsTenantHuman(t, org, actor) && (org, actor) in t.directory.members
    && HasActive(t.grants, Some(org), actor, BOOTSTRAP)
  }

  predicate IsPlatformOwner(t: Tables, actor: Id, revision: int) {
    actor in t.principals
    && (var p := t.principals[actor]; p.org.None? && p.human && p.active && p.revision == revision)
    && exists i :: 0 <= i < |t.grants| && t.grants[i].active && t.grants[i].principal == actor
                && t.grants[i].plane == Platform && t.grants[i].capability == ADOPT
  }

  predicate ActiveBinding(d: Directory, binding: Id, org: Option<Id>, principal: Id) {
    binding in d.bindings
    && var b := d.bindings[binding];
       b.active && b.org == org && b.principal == principal
  }

  /** The fact applied last, ties broken by identifier. */
  function LatestFact(facts: seq<Fact>, org: Id): Option<Fact> {
    if facts == [] then None
    else
      var last := facts[|facts| - 1];
      var rest := LatestFact(facts[..|facts| - 1], org);
      if last.org != org then rest
      else if rest.None? then Some(last)
      else if (rest.value.appliedAt > last.appliedAt)
           || (rest.value.appliedAt == last.appliedAt && rest.value.id > last.id) then rest
      else Some(last)
  }

  function CurrentPolicy(t: Tables, org: Id): PolicyKey
    requires org in t.directory.roots
  {
    var latest := LatestFact(t.facts, org);
    if latest.Some? then latest.value.target else t.directory.roots[org].initial
  }

  predicate UnderActiveNativeAuthority(d: Directory, identity: Id) {
    identity in d.identities
    && d.identities[identity].authority in d.authorities
    && d.authorities[d.identities[identity].authority] == Authority(true, true)
  }

  function Epoch(identity: Identity): int {
    if identity.recovery.None? then 0 else identity.recovery.value.epoch
  }

  predicate IsRestricted(identity: Identity) {
    identity.recovery.Some? && identity.recovery.value.restricted
  }

  /** lock_native_identity_recovery_postures answers rows only when every requested
      identity is under an active native authority; this asks for a usable row. */
  predicate NormalPosture(d: Directory, requested: set<Id>, identity: Id, authority: Id) {
    identity in requested
    && (forall i :: i in requested ==> UnderActiveNativeAuthority(d, i))
    && d.identities[identity].active
    && d.identities[identity].authority == authority
    && !IsRestricted(d.identities[identity])
  }

  /** An active binding whose subject is a native identity in normal posture. */
  predicate BoundNormally(d: Directory, binding: Id) {
    binding in d.bindings
    && var b := d.bindings[binding];
       b.subject.native.Some?
       && NormalPosture(d, {b.subject.native.value}, b.subject.native.value, b.authority)
  }

  // ---------------------------------------------------------------- consent

  datatype Consent = Consent(
    org: Id, actor: Id, binding: Option<Id>, expected: Option<int>, reason: Option<string>,
    key: Option<string>, intent: Option<string>, correlated: bool, newId: Id, now: int)

  datatype ConsentReply = ConsentReply(
    request: Id, source: PolicyKey, target: PolicyKey, authorityRevision: int,
    requestRevision: int, status: Status, expiresAt: int)

  predicate BadDigest(digest: Option<string>) {
    digest.Some? && !IsDigest(digest.value)
  }

  predicate ConsenterIsRoot(t: Tables, c: Consent) {
    c.org in t.directory.roots
    && t.directory.roots[c.org].controller == c.actor
    && c.binding == Some(t.directory.roots[c.org].binding)
    && ActiveBinding(t.directory, t.directory.roots[c.org].binding, Some(c.org), c.actor)
    && IsTenantHuman(t, c.org, c.actor)
  }

  predicate BadConsent(c: Consent) {
    || c.expected.None? || c.expected.value < 1
    || c.reason.None? || !(1 <= |Btrim(c.reason.value)| <= 500)
    || BadDigest(c.key) || BadDigest(c.intent) || !c.correlated
  }

  ghost predicate KeyedBy(requests: map<Id, Request>, actor: Id, key: Option<string>, id: Id) {
    id in requests && requests[id].controller == actor && key == Some(requests[id].key)
  }

  /** UNIQUE(controller_principal_id, idempotency_key_digest). */
  ghost predicate UniqueKeys(requests: map<Id, Request>) {
    forall i, j | i in requests && j in requests && requests[i].controller == requests[j].controller
                  && requests[i].key == requests[j].key :: i == j
  }

  function Lapse(r: Request, org: Id, now: int): Request {
    if r.org == org && r.status == Pending && r.expiresAt <= now
    then r.(status := Expired, revision := r.revision + 1) else r
  }

  function Sweep(requests: map<Id, Request>, org: Id, now: int): map<Id, Request> {
    map id | id in requests :: Lapse(requests[id], org, now)
  }

  predicate HasPending(requests: map<Id, Request>, org: Id) {
    exists id :: id in requests && requests[id].org == org && requests[id].status == Pending
  }

  function NewRequest(t: Tables, c: Consent): Request
    requires ConsenterIsRoot(t, c) && BoundNormally(t.directory, c.binding.value)
    requires c.reason.Some? && c.key.Some? && c.intent.Some?
  {
    var native := t.directory.bindings[c.binding.value].subject.native.value;
    Request(c.org, c.actor, c.binding.value, CurrentPolicy(t, c.org), TARGET,
            t.principals[c.actor].revision, Btrim(c.reason.value), c.key.value, c.intent.value,
            None, None, Pending, 1, c.now + DAY, native, Epoch(t.directory.identities[native]))
  }

  function RowReply(id: Id, r: Request, now: int): ConsentReply {
    ConsentReply(id, r.source, r.target, r.expectedRevision, r.revision,
                 if r.status == Pending && r.expiresAt <= now then Expired else r.status, r.expiresAt)
  }

  /** The guards before the idempotent lookup, in their order. */
  function ConsentBarrier(t: Tables, c: Consent): Option<Error> {
    if !IsManager(t, c.org, c.actor) then Some(NotManager)
    else if !ConsenterIsRoot(t, c) then Some(NotRoot)
    else if !BoundNormally(t.directory, c.binding.value) then Some(Restricted)
    else if BadConsent(c) then Some(InvalidInput)
    else if !KnownPolicy(CurrentPolicy(t, c.org)) || TARGET !in t.directory.policies then Some(NoTransition)
    else None
  }

  /** The guards of a consent that repeats no key. */
  function NewConsentBarrier(t: Tables, c: Consent): Option<Error>
    requires ConsenterIsRoot(t, c)
  {
    if !ApprovedSource(CurrentPolicy(t, c.org)) then Some(NoTransition)
    else if c.expected != Some(t.principals[c.actor].revision) then Some(StaleAuthority)
    else if HasPending(Sweep(t.requests, c.org, c.now), c.org) then Some(AlreadyPending)
    else if c.key.None? || c.intent.None? || c.newId in t.requests then Some(ConstraintViolation)
    else None
  }

  ghost function DoConsent(t: Tables, c: Consent): (Tables, Result<ConsentReply, Error>) {
    var barrier := ConsentBarrier(t, c);
    if barrier.Some? then (t, Err(barrier.value))
    else if exists id :: KeyedBy(t.requests, c.actor, c.key, id) then
      var id :| KeyedBy(t.requests, c.actor, c.key, id);
      if c.intent.Some? && t.requests[id].intent != c.intent.value then (t, Err(KeyConflict))
      else (t, Ok(RowReply(id, t.requests[id], c.now)))
    else
      var refusal := NewConsentBarrier(t, c);
      if refusal.Some? then (t, Err(refusal.value))
      else
        var row := NewRequest(t, c);
        (t.(requests := Sweep(t.requests, c.org, c.now)[c.newId := row]), Ok(RowReply(c.newId, row, c.now)))
  }

  // ---------------------------------------------------------------- withdrawal

  datatype Withdrawal = Withdrawal(
    org: Id, actor: Id, binding: Option<Id>, request: Id, expected: Option<int>,
    key: Option<string>, intent: Option<string>, now: int)

  function WithdrawBarrier(t: Tables, c: Withdrawal): Option<Error> {
    if !IsManager(t, c.org, c.actor) then Some(NotManager)
    else if !(c.org in t.directory.roots && t.directory.roots[c.org].controller == c.actor
              && c.binding == Some(t.directory.roots[c.org].binding)
              && ActiveBinding(t.directory, c.binding.value, Some(c.org), c.actor)) then Some(NotRoot)
    else if c.request !in t.requests || t.requests[c.request].org != c.org then Some(Unavailable)
    else if c.expected.None? || c.expected.value < 1 || BadDigest(c.key) || BadDigest(c.intent) then Some(InvalidInput)
    else None
  }

  predicate RepeatsWithdrawal(r: Request, c: Withdrawal) {
    r.status == Withdrawn && c.key.Some? && c.intent.Some? && r.withdrawnKey == c.key && r.withdrawnIntent == c.intent
  }

  function WithdrawnRow(r: Request, c: Withdrawal): Request {
    r.(status := Withdrawn, revision := r.revision + 1, withdrawnKey := c.key, withdrawnIntent := c.intent)
  }

  function DoWithdraw(t: Tables, c: Withdrawal): (Tables, Result<(int, Status), Error>) {
    var barrier := WithdrawBarrier(t, c);
    if barrier.Some? then (t, Err(barrier.value))
    else
      var r := t.requests[c.request];
      if RepeatsWithdrawal(r, c) then (t, Ok((r.revision, r.status)))
      else if r.status != Pending || r.expiresAt <= c.now || Some(r.revision) != c.expected
      then (t, Err(NotWithdrawable))
      else if c.key.None? || c.intent.None? then (t, Err(ConstraintViolation))
      else (t.(requests := t.requests[c.request := WithdrawnRow(r, c)]), Ok((r.revision + 1, Withdrawn)))
  }

  // ---------------------------------------------------------------- application

  datatype Application = Application(
    actor: Option<Id>, actorRevision: Option<int>, actorBinding: Option<Id>, request: Id,
    expected: Option<int>, key: Option<string>, intent: Option<string>, correlated: bool, factId: Id, now: int)

  datatype ApplyReply = ApplyReply(
    fact: Id, request: Id, org: Id, controller: Id, source: PolicyKey, target: PolicyKey,
    before: int, after: int, added: set<string>, requestRevision: int,
    approver: Id, approverRevision: int, appliedAt: int)

  function FactReply(f: Fact, requestRevision: int): ApplyReply {
    ApplyReply(f.id, f.request, f.org, f.controller, f.source, f.target, f.before, f.after, f.added,
               requestRevision, f.approver, f.approverRevision, f.appliedAt)
  }

  function FindFact(facts: seq<Fact>, request: Id): Option<Fact> {
    if facts == [] then None
    else if facts[0].request == request then Some(facts[0])
    else FindFact(facts[1..], request)
  }

  /** Policy grants whose capability the root does not hold. */
  function Missing(policy: seq<PolicyGrant>, grants: seq<Grant>, org: Id, root: Id): seq<PolicyGrant> {
    if policy == [] then []
    else (if HasActive(grants, Some(org), root, policy[0].capability) then [] else [policy[0]])
         + Missing(policy[1..], grants, org, root)
  }

  /** A missing policy capability that the root once held and lost. */
  predicate RestoresRevoked(missing: seq<PolicyGrant>, grants: seq<Grant>, org: Id, root: Id) {
    exists i :: 0 <= i < |missing| && HasRevoked(grants, Some(org), root, missing[i].capability)
  }

  function Capabilities(policy: seq<PolicyGrant>): set<string> {
    set i | 0 <= i < |policy| :: policy[i].capability
  }

  /** What the unique index and the plane trigger let into the grant table. */
  predicate Insertable(missing: seq<PolicyGrant>) {
    && (forall i :: 0 <= i < |missing| ==> missing[i].plane != Platform)
    && (forall i, j :: 0 <= i < j < |missing| ==> missing[i].capability != missing[j].capability)
  }

  function NewGrant(org: Id, root: Id, g: PolicyGrant): Grant {
    Grant(Some(org), root, g.plane, g.capability, g.delegable, true)
  }

  function NewGrants(org: Id, root: Id, missing: seq<PolicyGrant>): seq<Grant> {
    seq(|missing|, i requires 0 <= i < |missing| => NewGrant(org, root, missing[i]))
  }

  function ApplyBarrier(t: Tables, c: Application): Option<Error> {
    if c.actor.None? || c.actorRevision.None? then Some(NoPlatformAuthority)
    else if !IsPlatformOwner(t, c.actor.value, c.actorRevision.value) then Some(NoPlatformAuthority)
    else if c.expected.None? || c.expected.value < 1 || BadDigest(c.key) || BadDigest(c.intent) then Some(InvalidInput)
    else if c.request !in t.requests then Some(Unavailable)
    else None
  }

  /** The guards of a replay: same approver and intent, approver in normal posture. */
  function ReplayBarrier(t: Tables, c: Application, f: Fact): Option<Error> {
    if c.actor != Some(f.approver) || (c.key.Some? && c.key.value != f.key)
       || (c.intent.Some? && c.intent.value != f.intent) then Some(AlreadyApplied)
    else if c.actorBinding.None? || !ActiveBinding(t.directory, c.actorBinding.value, None, f.approver)
    then Some(IdentityRefused)
    else if !BoundNormally(t.directory, c.actorBinding.value) then Some(Restricted)
    else None
  }

  /** Root and approver are distinct active native identities, as at consent time. */
  function IdentityBarrier(t: Tables, c: Application, r: Request): Option<Error>
    requires c.actor.Some?
  {
    var d := t.directory;
    if c.actorBinding.None? || !ActiveBinding(d, r.binding, Some(r.org), r.controller) then Some(IdentityRefused)
    else if !ActiveBinding(d, c.actorBinding.value, None, c.actor.value) then Some(IdentityRefused)
    else
      var root, actor := d.bindings[r.binding], d.bindings[c.actorBinding.value];
      if actor.authority == root.authority && actor.subject.text == root.subject.text then Some(IdentityRefused)
      else if root.subject.native.None? || actor.subject.native.None? then Some(IdentityRefused)
      else
        var rootId, actorId := root.subject.native.value, actor.subject.native.value;
        if r.native != rootId then Some(ProvenanceChanged)
        else if rootId == actorId || !UnderActiveNativeAuthority(d, rootId) || !UnderActiveNativeAuthority(d, actorId)
        then Some(IdentityRefused)
        else if !NormalPosture(d, {rootId, actorId}, rootId, root.authority)
             || Epoch(d.identities[rootId]) != r.recoveryEpoch then Some(RecoveryInvalidated)
        else if !NormalPosture(d, {rootId, actorId}, actorId, actor.authority) then Some(Restricted)
        else None
  }

  /** The guards of a first application, in their order. */
  function FirstBarrier(t: Tables, c: Application): Option<Error>
    requires c.actor.Some? && c.request in t.requests
  {
    var r := t.requests[c.request];
    if r.status != Pending || r.expiresAt <= c.now || Some(r.revision) != c.expected then Some(StaleConsent)
    else if r.org !in t.directory.roots
         || t.directory.roots[r.org].controller != r.controller
         || t.directory.roots[r.org].binding != r.binding
         || CurrentPolicy(t, r.org) != r.source
         || c.actor.value == r.controller then Some(RootChanged)
    else if IdentityBarrier(t, c, r).Some? then IdentityBarrier(t, c, r)
    else if !IsTenantHuman(t, r.org, r.controller) then Some(NotRoot)
    else if t.principals[r.controller].revision != r.expectedRevision then Some(StaleAuthority)
    else if r.target !in t.directory.policies || r.target != TARGET || !ApprovedSource(r.source) then Some(NotApproved)
    else
      var missing := Missing(t.directory.policies[r.target], t.grants, r.org, r.controller);
      if RestoresRevoked(missing, t.grants, r.org, r.controller) then Some(WouldRestoreRevoked)
      else if missing == [] then Some(NothingMissing)
      else if !Insertable(missing) || c.key.None? || c.intent.None? || !c.correlated
           || (exists i :: 0 <= i < |t.facts| && t.facts[i].id == c.factId) then Some(ConstraintViolation)
      else None
  }

  function NewFact(t: Tables, c: Application): Fact
    requires c.actor.Some? && c.request in t.requests && c.actor.value in t.principals && FirstBarrier(t, c).None?
  {
    var r := t.requests[c.request];
    var missing := Missing(t.directory.policies[r.target], t.grants, r.org, r.controller);
    var before := t.principals[r.controller].revision;
    Fact(c.factId, c.request, r.org, r.controller, r.binding, c.actor.value, r.source, r.target,
         before, before + |missing|, Capabilities(missing), c.key.value, c.intent.value,
         t.principals[c.actor.value].revision, c.now, r.native, r.recoveryEpoch)
  }

  /** Every grant row added raises its principal's authority revision by one. */
  function Adopted(t: Tables, c: Application): Tables
    requires c.actor.Some? && c.request in t.requests && c.actor.value in t.principals && FirstBarrier(t, c).None?
  {
    var r := t.requests[c.request];
    var missing := Missing(t.directory.policies[r.target], t.grants, r.org, r.controller);
    var root := t.principals[r.controller];
    Tables(t.requests[c.request := r.(status := Applied, revision := r.revision + 1)],
           t.facts + [NewFact(t, c)],
           t.grants + NewGrants(r.org, r.controller, missing),
           t.principals[r.controller := root.(revision := root.revision + |missing|)],
           t.directory)
  }

  function DoApply(t: Tables, c: Application): (Tables, Result<ApplyReply, Error>) {
    var barrier := ApplyBarrier(t, c);
    if barrier.Some? then (t, Err(barrier.value))
    else
      var found := FindFact(t.facts, c.request);
      if found.Some? then
        var refusal := ReplayBarrier(t, c, found.value);
        if refusal.Some? then (t, Err(refusal.value))
        else (t, Ok(FactReply(found.value, t.requests[c.request].revision)))
      else
        var refusal := FirstBarrier(t, c);
        if refusal.Some? then (t, Err(refusal.value))
        else (Adopted(t, c), Ok(FactReply(NewFact(t, c), t.requests[c.request].revision + 1)))
  }

  // ---------------------------------------------------------------- review

  datatype Review = Review(actor: Option<Id>, actorRevision: Option<int>,
    actorBinding: Option<Id>, request: Id, now: int)

  datatype ReviewReply = ReviewReply(
    request: Id, org: Id, controller: Id, source: PolicyKey, target: PolicyKey, expectedRevision: int,
    requestRevision: int, reason: string, expiresAt: int, currentRevision: int,
    proposed: set<string>, revoked: set<string>)

  /** The projection shown to a platform owner; it changes nothing. */
  function DoReview(t: Tables, v: Review): Result<ReviewReply, Error> {
    if v.actor.None? || v.actorRevision.None? || v.actorBinding.None?
       || !IsPlatformOwner(t, v.actor.value, v.actorRevision.value)
       || !ActiveBinding(t.directory, v.actorBinding.value, None, v.actor.value) then Err(NoPlatformAuthority)
    else if v.request !in t.requests || t.requests[v.request].status != Pending
         || t.requests[v.request].expiresAt <= v.now then Err(Unavailable)
    else
      var r := t.requests[v.request];
      if r.controller !in t.principals || t.principals[r.controller].org != Some(r.org)
         || !t.principals[r.controller].active
         || t.principals[r.controller].revision != r.expectedRevision then Err(StaleAuthority)
      else
        var policy := if r.target in t.directory.policies then t.directory.policies[r.target] else [];
        var missing := Missing(policy, t.grants, r.org, r.controller);
        Ok(ReviewReply(v.request, r.org, r.controller, r.source, r.target, r.expectedRevision, r.revision,
                       r.reason, r.expiresAt, t.principals[r.controller].revision, Capabilities(missing),
                       set i | 0 <= i < |missing| &&
                         HasRevoked(t.grants, Some(r.org), r.controller, missing[i].capability)
                         :: missing[i].capability))
  }

  // ---------------------------------------------------------------- the store

  /** The tables, changed in place by the commands. */
  class AdoptionStore {
    var requests: map<Id, Request>
    var facts: seq<Fact>
    var grants: seq<Grant>
    var principals: map<Id, Principal>
    var directory: Directory

    function Stored(): Tables reads this {
      Tables(requests, facts, grants, principals, directory)
    }

    constructor (principals: map<Id, Principal>, grants: seq<Grant>, directory: Directory)
      ensures Stored() == Tables(map[], [], grants, principals, directory)
    {
      this.requests, this.facts, this.grants := map[], [], grants;
      this.principals, this.directory := principals, directory;
    }

    /** The row an idempotency key names, if any. */
    method FindKey(actor: Id, key: Option<string>) returns (found: Option<Id>)
      ensures found.Some? ==> KeyedBy(requests, actor, key, found.value)
      ensures found.None? ==> forall id :: !KeyedBy(requests, actor, key, id)
    {
      var todo := requests.Keys;
      while todo != {}
        invariant todo <= requests.Keys
        invariant forall id :: KeyedBy(requests, actor, key, id) ==> id in todo
      {
        var id :| id in todo;
        if requests[id].controller == actor && key == Some(requests[id].key) {
          return Some(id);
        }
        todo := todo - {id};
      }
      return None;
    }

    /** Pending rows of the organization past their deadline become expired. */
    method ExpireLapsed(org: Id, now: int) returns (swept: map<Id, Request>)
      ensures swept == Sweep(requests, org, now)
    {
      swept := requests;
      var todo := requests.Keys;
      while todo != {}
        invariant todo <= requests.Keys == swept.Keys
        invariant forall id :: id in requests ==>
                    swept[id] == if id in todo then requests[id] else Lapse(requests[id], org, now)
      {
        var id :| id in todo;
        if requests[id].org == org && requests[id].status == Pending && requests[id].expiresAt <= now {
          swept := swept[id := requests[id].(status := Expired, revision := requests[id].revision + 1)];
        }
        todo := todo - {id};
      }
    }

    method RequestAdoption(c: Consent) returns (reply: Result<ConsentReply, Error>)
      requires UniqueKeys(requests)
      modifies this
      ensures (Stored(), reply) == DoConsent(old(Stored()), c)
    {
      var t := Stored();
      if !IsManager(t, c.org, c.actor) {
        return Err(NotManager);
      }
      if !ConsenterIsRoot(t, c) {
        return Err(NotRoot);
      }
      if !BoundNormally(directory, c.binding.value) {
        return Err(Restricted);
      }
      if BadConsent(c) {
        return Err(InvalidInput);
      }
      var policy := CurrentPolicy(t, c.org);
      if !KnownPolicy(policy) || TARGET !in directory.policies {
        return Err(NoTransition);
      }
      var existing := FindKey(c.actor, c.key);
      if existing.Some? {
        var row := requests[existing.value];
        if c.intent.Some? && row.intent != c.intent.value {
          return Err(KeyConflict);
        }
        return Ok(RowReply(existing.value, row, c.now));
      }
      if !ApprovedSource(policy) {
        return Err(NoTransition);
      }
      if c.expected.value != principals[c.actor].revision {
        return Err(StaleAuthority);
      }
      var swept := ExpireLapsed(c.org, c.now);
      if HasPending(swept, c.org) {
        return Err(AlreadyPending);
      }
      if c.key.None? || c.intent.None? || c.newId in requests {
        return Err(ConstraintViolation);
      }
      var row := NewRequest(t, c);
      requests := swept[c.newId := row];
      return Ok(ConsentReply(c.newId, policy, TARGET, row.expectedRevision, 1, Pending, row.expiresAt));
    }

    /** The policy grants to add, in policy order. */
    method CollectMissing(policy: seq<PolicyGrant>, org: Id, root: Id) returns (missing: seq<PolicyGrant>)
      ensures missing == Missing(policy, grants, org, root)
    {
      missing := [];
      for i := |policy| downto 0
        invariant missing == Missing(policy[i..], grants, org, root)
      {
        assert policy[i..][1..] == policy[i + 1..];
        if !HasActive(grants, Some(org), root, policy[i].capability) {
          missing := [policy[i]] + missing;
        }
      }
      assert policy[0..] == policy;
    }

    /** Row by row; the grant trigger raises the revision once for each. */
    method AddGrants(org: Id, root: Id, missing: seq<PolicyGrant>)
      requires root in principals
      modifies this`grants, this`principals
      ensures grants == old(grants) + NewGrants(org, root, missing)
      ensures principals
           == old(principals)[root := old(principals)[root].(
                revision := old(principals)[root].revision + |missing|)]
    {
      for i := 0 to |missing|
        invariant grants == old(grants) + NewGrants(org, root, missing[..i])
        invariant principals
               == old(principals)[root := old(principals)[root].(
                    revision := old(principals)[root].revision + i)]
      {
        grants := grants + [NewGrant(org, root, missing[i])];
        principals := principals[root := principals[root].(revision := principals[root].revision + 1)];
        assert NewGrants(org, root, missing[..i + 1])
            == NewGrants(org, root, missing[..i]) + [NewGrant(org, root, missing[i])];
      }
      assert missing[..|missing|] == missing;
    }

    method ApplyAdoption(c: Application) returns (reply: Result<ApplyReply, Error>)
      modifies this
      ensures (Stored(), reply) == DoApply(old(Stored()), c)
    {
      var t := Stored();
      var barrier := ApplyBarrier(t, c);
      if barrier.Some? {
        return Err(barrier.value);
      }
      var found := FindFact(facts, c.request);
      if found.Some? {
        var refusal := ReplayBarrier(t, c, found.value);
        if refusal.Some? {
          return Err(refusal.value);
        }
        return Ok(FactReply(found.value, requests[c.request].revision));
      }
      var refusal := FirstBarrier(t, c);
      if refusal.Some? {
        return Err(refusal.value);
      }
      var r := requests[c.request];
      var missing := CollectMissing(directory.policies[r.target], r.org, r.controller);
      var fact := NewFact(t, c);
      AddGrants(r.org, r.controller, missing);
      facts := facts + [fact];
      requests := requests[c.request := r.(status := Applied, revision := r.revision + 1)];
      return Ok(FactReply(fact, requests[c.request].revision));
    }
  }
}
