/** One-shot authentication challenges: creation, the discoverable finalizer with its
    deadline checks, and the deletion of retained challenges.
    Times are integer microseconds; identifiers are numbers; byte strings are sequences. */
module WebAuthn {
  import opened Common
  import opened Deadline

  type Id = nat
  type Octets = seq<nat>

  const SECOND: int := 1_000_000
  const NOT_NULL: string := "23502"
  const UNIQUE: string := "23505"
  const CHECK: string := "23514"
  const FOREIGN_KEY: string := "23503"

  datatype Purpose = Registration | Authentication | StepUp | Discoverable | OtherPurpose
  datatype Status = Pending | Expired | Consumed(at: int)

  datatype Challenge = Challenge(
    purpose: Purpose, identity: Option<Id>, session: Option<Id>, setup: Option<Id>,
    digest: Octets, expires: int, handle: Option<Octets>, status: Status)

  datatype Credential = Credential(
    identity: Id, signCount: int, backupState: bool, userVerified: bool, active: bool,
    handle: Option<Octets>, lastUsed: Option<int>, lastRegression: Option<int>)

  datatype Identity = Identity(authority: Id, active: bool, epoch: int)
  datatype Authority = Authority(native: bool, active: bool)

  datatype Session = Session(
    identity: Id, credential: Option<Id>, tokenDigest: Octets, fingerprint: string, epoch: int,
    expires: int, assurance: string, userVerified: bool)

  datatype Tables = Tables(
    challenges: map<Id, Challenge>, credentials: map<Id, Credential>, identities: map<Id, Identity>,
    authorities: map<Id, Authority>, sessions: map<Id, Session>)

  predicate HandleLength(handle: Option<Octets>) {
    handle.Some? && 16 <= |handle.value| <= 64
  }

  // ---------------------------------------------------------------- creating a challenge

  /** `now` and `created` are the clock at the check and at the insert; `referenced` says
      whether the rows the scope columns point to exist. */
  datatype CreateCall = CreateCall(
    id: Option<Id>, purpose: Option<Purpose>, identity: Option<Id>, session: Option<Id>, setup: Option<Id>,
    digest: Option<Octets>, expires: Option<int>, handle: Option<Octets>,
    now: int, created: int, referenced: bool)

  function ScopeCount(c: CreateCall): int {
    (if c.identity.Some? then 1 else 0) + (if c.session.Some? then 1 else 0) + (if c.setup.Some? then 1 else 0)
  }

  /** The refusals that answer false. A NULL purpose or expiry makes its own test unknown,
      which refuses nothing here and is caught by the NOT NULL columns instead. */
  predicate BadCreate(c: CreateCall) {
    || c.id.None? || c.digest.None? || |c.digest.value| != 32
    || c.purpose == Some(OtherPurpose)
    || (c.expires.Some? && c.expires.value <= c.now)
    || (c.purpose == Some(Discoverable) && ScopeCount(c) != 0)
    || (c.purpose.Some? && c.purpose != Some(Discoverable) && ScopeCount(c) != 1)
    || (c.purpose == Some(Registration) && !HandleLength(c.handle))
    || (c.purpose.Some? && c.purpose != Some(Registration) && c.handle.Some?)
  }

  predicate SameScope(ch: Challenge, c: CreateCall) {
    && Some(ch.purpose) == c.purpose
    && ch.identity == c.identity && ch.session == c.session && ch.setup == c.setup
  }

  /** Earlier challenges of the scope are expired, except for the discoverable purpose. */
  function Superseded(challenges: map<Id, Challenge>, c: CreateCall): map<Id, Challenge> {
    if c.purpose == Some(Discoverable) then challenges
    else map id | id in challenges ::
           if challenges[id].status == Pending && SameScope(challenges[id], c)
           then challenges[id].(status := Expired) else challenges[id]
  }

  predicate Taken(challenges: map<Id, Challenge>, id: Id, digest: Octets) {
    id in challenges || exists k :: k in challenges && challenges[k].digest == digest
  }

  function InsertError(t: Tables, c: CreateCall): Option<string>
    requires !BadCreate(c)
  {
    if c.purpose.None? || c.expires.None? then Some(NOT_NULL)
    else if c.expires.value <= c.created then Some(CHECK)
    else if Taken(t.challenges, c.id.value, c.digest.value) then Some(UNIQUE)
    else if !c.referenced then Some(FOREIGN_KEY)
    else None
  }

  function NewChallenge(c: CreateCall): Challenge
    requires c.purpose.Some? && c.digest.Some? && c.expires.Some?
  {
    Challenge(c.purpose.value, c.identity, c.session, c.setup, c.digest.value, c.expires.value, c.handle, Pending)
  }

  function Create(t: Tables, c: CreateCall): (Tables, Result<bool, string>) {
    if BadCreate(c) then (t, Ok(false))
    else if InsertError(t, c).Some? then (t, Err(InsertError(t, c).value))
    else (t.(challenges := Superseded(t.challenges, c)[c.id.value := NewChallenge(c)]), Ok(true))
  }

  // ---------------------------------------------------------------- the discoverable finalizer

  datatype FinalizeCall = FinalizeCall(
    digest: Option<Octets>, credential: Option<Id>, signCount: int, backupEligible: bool, backupState: bool,
    userVerified: bool, session: Option<Id>, tokenDigest: Option<Octets>, fingerprint: Option<string>,
    expires: Option<int>, authority: Option<Id>, handle: Option<Octets>)

  predicate ValidFinalize(f: FinalizeCall) {
    && f.digest.Some? && |f.digest.value| == 32
    && f.credential.Some? && f.signCount >= 0 && f.session.Some?
    && f.tokenDigest.Some? && |f.tokenDigest.value| == 32
    && f.fingerprint.Some? && |f.fingerprint.value| == 16
    && (forall i :: 0 <= i < |f.fingerprint.value| ==> IsHexDigit(f.fingerprint.value[i]))
    && f.expires.Some? && f.authority.Some?
    && HandleLength(f.handle)
  }

  predicate Selectable(t: Tables, f: FinalizeCall, now: int, id: Id) {
    && id in t.challenges
    && Some(t.challenges[id].digest) == f.digest
    && t.challenges[id].purpose == Discoverable
    && t.challenges[id].status == Pending
    && t.challenges[id].expires > now
    && t.challenges[id].identity.None? && t.challenges[id].session.None? && t.challenges[id].setup.None?
  }

  function Matches(t: Tables, f: FinalizeCall, now: int): set<Id> {
    set id | id in t.challenges && Selectable(t, f, now, id)
  }

  /** The row SELECT INTO takes; digests are unique, so there is at most one. */
  function FindChallenge(t: Tables, f: FinalizeCall, now: int): (id: Option<Id>)
    ensures id.None? <==> Matches(t, f, now) == {}
    ensures id.Some? ==> Selectable(t, f, now, id.value)
  {
    if Matches(t, f, now) == {} then None
    else
      var less := (a: Id, b: Id) => a < b;
      assert Orders(less, Matches(t, f, now));
      Some(Least(less, Matches(t, f, now)))
  }

  /** The authority the caller expects, native and active, for this identity. */
  predicate AuthorityStands(t: Tables, f: FinalizeCall, identity: Id) {
    && identity in t.identities && Some(t.identities[identity].authority) == f.authority
    && t.identities[identity].authority in t.authorities
    && t.authorities[t.identities[identity].authority] == Authority(true, true)
  }

  predicate CredentialStands(t: Tables, f: FinalizeCall, identity: Id)
    requires f.credential.Some?
  {
    && f.credential.value in t.credentials && t.credentials[f.credential.value].active
    && t.credentials[f.credential.value].identity == identity
    && t.credentials[f.credential.value].handle == f.handle
  }

  /** The challenge or the session to be made is past its expiry. */
  predicate Late(ch: Challenge, f: FinalizeCall, now: Readings) {
    ch.expires <= now.a || (f.expires.Some? && f.expires.value <= now.b)
  }

  function Used(cred: Credential, f: FinalizeCall, now: Readings): Credential {
    cred.(signCount := if cred.signCount < f.signCount then f.signCount else cred.signCount,
          lastUsed := Some(now.a),
          backupState := f.backupState,
          userVerified := cred.userVerified || f.userVerified,
          lastRegression := if !f.backupEligible && f.signCount > 0 && cred.signCount > 0
                              && f.signCount < cred.signCount
                            then Some(now.b) else cred.lastRegression)
  }

  function NewSession(f: FinalizeCall, identity: Id, epoch: int): Session
    requires ValidFinalize(f)
  {
    Session(identity, f.credential, f.tokenDigest.value, f.fingerprint.value, epoch, f.expires.value,
            if f.userVerified then "phishing_resistant" else "single_factor", f.userVerified)
  }

  /** Constraints of the session table, with the clock at the insert. */
  function SessionError(t: Tables, f: FinalizeCall, now: int): Option<string>
    requires ValidFinalize(f)
  {
    if f.expires.value <= now then Some(CHECK)
    else if f.session.value in t.sessions then Some(UNIQUE)
    else if exists k :: k in t.sessions && t.sessions[k].tokenDigest == f.tokenDigest.value then Some(UNIQUE)
    else None
  }

  // ---------------------------------------------------------------- its body, statement by statement

  datatype Locals = Locals(challenge: Option<(Id, Challenge)>, identity: Id, epoch: int, rows: seq<Id>)

  const START: Locals := Locals(None, 0, 0, [])

  type Progress = Flow<Tables, Locals, seq<Id>>

  function CheckInputs(f: FinalizeCall, t: Tables, l: Locals): Progress {
    if ValidFinalize(f) then Running(t, l) else Returned(t, l.rows)
  }

  function SelectChallenge(f: FinalizeCall, t: Tables, l: Locals, now: Readings): Progress {
    match FindChallenge(t, f, now.a)
    case None => Returned(t, l.rows)
    case Some(id) => Running(t, l.(challenge := Some((id, t.challenges[id]))))
  }

  function SelectCredential(f: FinalizeCall, t: Tables, l: Locals): Progress {
    if f.credential.Some? && f.credential.value in t.credentials
    then Running(t, l.(identity := t.credentials[f.credential.value].identity)) else Returned(t, l.rows)
  }

  function LockAuthority(f: FinalizeCall, t: Tables, l: Locals): Progress {
    if AuthorityStands(t, f, l.identity) then Running(t, l) else Returned(t, l.rows)
  }

  function LockIdentity(t: Tables, l: Locals): Progress {
    if l.identity in t.identities && t.identities[l.identity].active
    then Running(t, l.(epoch := t.identities[l.identity].epoch)) else Returned(t, l.rows)
  }

  function LockCredential(f: FinalizeCall, t: Tables, l: Locals): Progress {
    if f.credential.Some? && CredentialStands(t, f, l.identity) then Running(t, l) else Returned(t, l.rows)
  }

  function LastAdmission(f: FinalizeCall, t: Tables, l: Locals, now: Readings): Progress {
    if l.challenge.Some? && Late(l.challenge.value.1, f, now) then Returned(t, l.rows) else Running(t, l)
  }

  function UpdateCredential(f: FinalizeCall, t: Tables, l: Locals, now: Readings): Progress {
    if f.credential.Some? && f.credential.value in t.credentials
    then Running(t.(credentials := t.credentials[f.credential.value :=
                      Used(t.credentials[f.credential.value], f, now)]), l)
    else Running(t, l)
  }

  function InsertSession(f: FinalizeCall, t: Tables, l: Locals, now: Readings): Progress {
    if !ValidFinalize(f) then Failed(NOT_NULL)
    else match SessionError(t, f, now.a)
      case Some(code) => Failed(code)
      case None => Running(t.(sessions := t.sessions[f.session.value := NewSession(f, l.identity, l.epoch)]), l)
  }

  function ConsumeChallenge(t: Tables, l: Locals, now: Readings): Progress {
    if l.challenge.Some? && l.challenge.value.0 in t.challenges
    then var id := l.challenge.value.0;
         Running(t.(challenges := t.challenges[id := t.challenges[id].(status := Consumed(now.a))]), l)
    else Running(t, l)
  }

  function ReturnIdentity(t: Tables, l: Locals): Progress {
    Running(t, l.(rows := l.rows + [l.identity]))
  }

  function Body(f: FinalizeCall): (body: seq<Stmt<Tables, Locals, seq<Id>>>)
    ensures |body| == 11
  {
    [ Stmt(0, Plain, (t, l, now) => CheckInputs(f, t, l)),
      Stmt(1, Plain, (t, l, now) => SelectChallenge(f, t, l, now)),
      Stmt(2, Plain, (t, l, now) => SelectCredential(f, t, l)),
      Stmt(3, Plain, (t, l, now) => LockAuthority(f, t, l)),
      Stmt(4, Plain, (t, l, now) => LockIdentity(t, l)),
      Stmt(5, Plain, (t, l, now) => LockCredential(f, t, l)),
      Stmt(6, Plain, (t, l, now) => LastAdmission(f, t, l, now)),
      Stmt(7, FirstWrite, (t, l, now) => UpdateCredential(f, t, l, now)),
      Stmt(8, Plain, (t, l, now) => InsertSession(f, t, l, now)),
      Stmt(9, Deadline.Consume, (t, l, now) => ConsumeChallenge(t, l, now)),
      Stmt(10, Success, (t, l, now) => ReturnIdentity(t, l)) ]
  }

  /** The deadline condition and answer the rewrite is given for this finalizer. */
  function DeadlinePolicy(f: FinalizeCall): Policy<Locals, seq<Id>> {
    Policy((l: Locals, now: Readings) => l.challenge.Some? && Late(l.challenge.value.1, f, now), [])
  }

  /** What the caller sees: a failed call leaves every table as it was. */
  function Outcome(t: Tables, flow: Progress): (Tables, Result<seq<Id>, string>) {
    match flow
    case Running(u, l) => (u, Ok(l.rows))
    case Returned(u, rows) => (u, Ok(rows))
    case Failed(code) => (t, Err(code))
  }

  // ---------------------------------------------------------------- what the finalizer is for

  predicate Admissible(t: Tables, f: FinalizeCall, clock: Clock) {
    && ValidFinalize(f)
    && FindChallenge(t, f, clock(Of(1)).a).Some?
    && f.credential.value in t.credentials
    && AuthorityStands(t, f, t.credentials[f.credential.value].identity)
    && t.identities[t.credentials[f.credential.value].identity].active
    && CredentialStands(t, f, t.credentials[f.credential.value].identity)
    && !Late(t.challenges[FindChallenge(t, f, clock(Of(1)).a).value], f, clock(Of(6)))
  }

  function Finalized(t: Tables, f: FinalizeCall, clock: Clock): Tables
    requires Admissible(t, f, clock)
  {
    var id := FindChallenge(t, f, clock(Of(1)).a).value;
    var cred := t.credentials[f.credential.value];
    t.(challenges := t.challenges[id := t.challenges[id].(status := Consumed(clock(Of(9)).a))],
       credentials := t.credentials[f.credential.value := Used(cred, f, clock(Of(7)))],
       sessions := t.sessions[f.session.value := NewSession(f, cred.identity, t.identities[cred.identity].epoch)])
  }

  /** All at once or not at all, and only while the deadline has not passed. */
  function Finalize(t: Tables, f: FinalizeCall, clock: Clock): (Tables, Result<seq<Id>, string>) {
    if !Admissible(t, f, clock) then (t, Ok([]))
    else
      var ch := t.challenges[FindChallenge(t, f, clock(Of(1)).a).value];
      if Late(ch, f, clock(FirstCheck)) then (t, Ok([]))
      else if SessionError(t, f, clock(Of(8)).a).Some? then (t, Err(SessionError(t, f, clock(Of(8)).a).value))
      else if Late(ch, f, clock(SecondCheck)) then (t, Ok([]))
      else (Finalized(t, f, clock), Ok([t.credentials[f.credential.value].identity]))
  }

  // ---------------------------------------------------------------- retention

  datatype RetainCall = RetainCall(retention: Option<int>, batch: Option<int>, now: int, locked: set<Id>)

  predicate ValidRetain(r: RetainCall) {
    && r.retention.Some? && 86400 <= r.retention.value <= 7776000
    && r.batch.Some? && 1 <= r.batch.value <= 1000
  }

  function Cutoff(r: RetainCall): int
    requires ValidRetain(r)
  {
    r.now - r.retention.value * SECOND
  }

  predicate Retainable(ch: Challenge, cutoff: int) {
    ch.expires <= cutoff && (ch.status.Consumed? ==> ch.status.at <= cutoff)
  }

  function Eligible(t: Tables, r: RetainCall): set<Id>
    requires ValidRetain(r)
  {
    set id | id in t.challenges && Retainable(t.challenges[id], Cutoff(r)) && id !in r.locked
  }

  predicate Older(challenges: map<Id, Challenge>, a: Id, b: Id)
    requires a in challenges && b in challenges
  {
    challenges[a].expires < challenges[b].expires || (challenges[a].expires == challenges[b].expires && a < b)
  }

  predicate IsOldest(challenges: map<Id, Challenge>, s: set<Id>, id: Id)
    requires s <= challenges.Keys
  {
    id in s && forall k :: k in s ==> k == id || Older(challenges, id, k)
  }

  lemma OldestExists(challenges: map<Id, Challenge>, s: set<Id>)
    requires s <= challenges.Keys && s != {}
    ensures exists id :: IsOldest(challenges, s, id)
  {
    var older := (a: Id, b: Id) => a in challenges && b in challenges && Older(challenges, a, b);
    assert Orders(older, s);
    assert IsOldest(challenges, s, Least(older, s));
  }

  function Oldest(challenges: map<Id, Challenge>, s: set<Id>): (id: Id)
    requires s <= challenges.Keys && s != {}
    ensures IsOldest(challenges, s, id)
  {
    OldestExists(challenges, s);
    var id :| IsOldest(challenges, s, id); id
  }

  /** ORDER BY expires_at, id LIMIT n. */
  function Batch(challenges: map<Id, Challenge>, s: set<Id>, n: nat): (ids: set<Id>)
    requires s <= challenges.Keys
    ensures ids <= s
    decreases n
  {
    if n == 0 || s == {} then {}
    else var id := Oldest(challenges, s); {id} + Batch(challenges, s - {id}, n - 1)
  }

  datatype RetainError = BadRetention | BadBatch

  function Retain(t: Tables, r: RetainCall): (Tables, Result<int, RetainError>) {
    if r.retention.None? || r.retention.value < 86400 || r.retention.value > 7776000 then (t, Err(BadRetention))
    else if r.batch.None? || r.batch.value < 1 || r.batch.value > 1000 then (t, Err(BadBatch))
    else
      var ids := Batch(t.challenges, Eligible(t, r), r.batch.value);
      (t.(challenges := t.challenges - ids), Ok(|ids|))
  }

  // ---------------------------------------------------------------- the tables

  class WebAuthnStore {
    var challenges: map<Id, Challenge>
    var credentials: map<Id, Credential>
    var identities: map<Id, Identity>
    var authorities: map<Id, Authority>
    var sessions: map<Id, Session>

    function Stored(): Tables reads this {
      Tables(challenges, credentials, identities, authorities, sessions)
    }

    constructor (t: Tables)
      ensures Stored() == t
    {
      challenges, credentials, identities := t.challenges, t.credentials, t.identities;
      authorities, sessions := t.authorities, t.sessions;
    }

    method CreateChallenge(c: CreateCall) returns (reply: Result<bool, string>)
      modifies this`challenges
      ensures (Stored(), reply) == Create(old(Stored()), c)
    {
      if BadCreate(c) {
        return Ok(false);
      }
      var before := challenges;
      if c.purpose.Some? && c.purpose != Some(Discoverable) {
        challenges := map id | id in challenges ::
          if challenges[id].status == Pending && SameScope(challenges[id], c)
          then challenges[id].(status := Expired) else challenges[id];
      }
      assert Taken(challenges, c.id.value, c.digest.value) <==> Taken(before, c.id.value, c.digest.value) by {
        assert challenges.Keys == before.Keys;
        assert forall k :: k in before ==> challenges[k].digest == before[k].digest;
      }
      var error := InsertError(Stored(), c);
      if error.Some? {
        challenges := before;
        return Err(error.value);
      }
      challenges := challenges[c.id.value := NewChallenge(c)];
      return Ok(true);
    }

    /** The rewritten finalizer: the exception of the second check undoes the writes. */
    method FinalizeDiscoverable(f: FinalizeCall, clock: Clock) returns (reply: Result<seq<Id>, string>)
      modifies this`challenges, this`credentials, this`sessions
      ensures (Stored(), reply) == Finalize(old(Stored()), f, clock)
    {
      if !ValidFinalize(f) {
        return Ok([]);
      }
      var chosen := FindChallenge(Stored(), f, clock(Of(1)).a);
      if chosen.None? || f.credential.value !in credentials {
        return Ok([]);
      }
      var challenge := challenges[chosen.value];
      var cred := credentials[f.credential.value];
      if !AuthorityStands(Stored(), f, cred.identity) || !identities[cred.identity].active
         || !CredentialStands(Stored(), f, cred.identity) || Late(challenge, f, clock(Of(6))) {
        return Ok([]);
      }
      if Late(challenge, f, clock(FirstCheck)) {
        return Ok([]);
      }
      var savedCredentials, savedSessions := credentials, sessions;
      credentials := credentials[f.credential.value := Used(cred, f, clock(Of(7)))];
      var error := SessionError(Stored(), f, clock(Of(8)).a);
      if error.Some? {
        credentials := savedCredentials;
        return Err(error.value);
      }
      sessions := sessions[f.session.value := NewSession(f, cred.identity, identities[cred.identity].epoch)];
      if Late(challenge, f, clock(SecondCheck)) {
        credentials, sessions := savedCredentials, savedSessions;
        return Ok([]);
      }
      challenges := challenges[chosen.value := challenge.(status := Consumed(clock(Of(9)).a))];
      return Ok([cred.identity]);
    }

    method DeleteRetained(r: RetainCall) returns (reply: Result<int, RetainError>)
      modifies this`challenges
      ensures (Stored(), reply) == Retain(old(Stored()), r)
    {
      if r.retention.None? || r.retention.value < 86400 || r.retention.value > 7776000 {
        return Err(BadRetention);
      }
      if r.batch.None? || r.batch.value < 1 || r.batch.value > 1000 {
        return Err(BadBatch);
      }
      var deleted := DeleteOldest(Eligible(Stored(), r), r.batch.value);
      return Ok(deleted);
    }

    /** The DELETE, row by row in the order of its subquery. */
    method DeleteOldest(candidates: set<Id>, n: nat) returns (deleted: nat)
      requires candidates <= challenges.Keys
      modifies this`challenges
      ensures challenges == old(challenges) - Batch(old(challenges), candidates, n)
      ensures deleted == |Batch(old(challenges), candidates, n)|
    {
      var rows, left := challenges, candidates;
      ghost var taken: set<Id> := {};
      deleted := 0;
      while deleted < n && left != {}
        invariant deleted <= n && left <= rows.Keys && taken !! left && |taken| == deleted
        invariant challenges == rows - taken
        invariant Batch(rows, candidates, n) == taken + Batch(rows, left, n - deleted)
      {
        var id := Oldest(rows, left);
        TakeOne(rows, taken, left, n - deleted);
        challenges := challenges - {id};
        left, deleted, taken := left - {id}, deleted + 1, taken + {id};
      }
      assert Batch(rows, left, n - deleted) == {};
    }
  }

  lemma TakeOne(rows: map<Id, Challenge>, taken: set<Id>, left: set<Id>, n: nat)
    requires left <= rows.Keys && left != {} && taken !! left && n > 0
    ensures var id := Oldest(rows, left);
            && rows - taken - {id} == rows - (taken + {id}) && |taken + {id}| == |taken| + 1
            && taken + {id} !! left - {id}
            && taken + Batch(rows, left, n) == (taken + {id}) + Batch(rows, left - {id}, n - 1)
  {
    var id := Oldest(rows, left);
    assert Batch(rows, left, n) == {id} + Batch(rows, left - {id}, n - 1);
  }
}
