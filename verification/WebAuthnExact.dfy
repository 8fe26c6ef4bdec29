/** Exactly when challenges are created, sessions made and rows deleted, and what each of these
    leaves, in the fields of the tables. */
module WebAuthnExact {
  import opened Common
  import opened Deadline
  import opened WebAuthn
  import opened WebAuthnRuns
  import opened WebAuthnRetention

  const MICROS: int := 1_000_000

  // ---------------------------------------------------------------- creating

  predicate OnlyOne(a: bool, b: bool, c: bool) {
    (a && !b && !c) || (!a && b && !c) || (!a && !b && c)
  }

  /** One scope, or none for the discoverable purpose; a user handle for registration only. */
  predicate ScopeFits(c: CreateCall) {
    match c.purpose
    case Some(Discoverable) => c.identity.None? && c.session.None? && c.setup.None? && c.handle.None?
    case Some(Registration) =>
      && OnlyOne(c.identity.Some?, c.session.Some?, c.setup.Some?)
      && c.handle.Some? && 16 <= |c.handle.value| <= 64
    case Some(Authentication) => OnlyOne(c.identity.Some?, c.session.Some?, c.setup.Some?) && c.handle.None?
    case Some(StepUp) => OnlyOne(c.identity.Some?, c.session.Some?, c.setup.Some?) && c.handle.None?
    case Some(OtherPurpose) => false
    case None => false
  }

  /** A challenge is created exactly when the call is whole, its purpose fits its scope, it has
      not expired by the check or the insert, and neither identifier nor digest is in use. */
  lemma CreateSucceedsExactlyWhen(t: Tables, c: CreateCall)
    ensures Create(t, c).1 == Ok(true) <==>
              && c.id.Some? && c.digest.Some? && |c.digest.value| == 32 && ScopeFits(c)
              && c.expires.Some? && c.now < c.expires.value && c.created < c.expires.value
              && c.id.value !in t.challenges && c.referenced
              && forall k :: k in t.challenges ==> t.challenges[k].digest != c.digest.value
    ensures Create(t, c).1 != Ok(true) ==> Create(t, c).0 == t
  {
  }

  /** It leaves one new pending row; earlier pending rows of the same purpose and scope expire,
      unless the purpose is the discoverable one; nothing else changes. */
  lemma CreateLeaves(t: Tables, c: CreateCall)
    requires Create(t, c).1 == Ok(true)
    ensures c.id.Some? && c.purpose.Some? && c.digest.Some? && c.expires.Some? && c.id.value !in t.challenges
    ensures var u := Create(t, c).0;
            && u == t.(challenges := u.challenges) && u.challenges.Keys == t.challenges.Keys + {c.id.value}
            && u.challenges[c.id.value]
               == Challenge(c.purpose.value, c.identity, c.session, c.setup, c.digest.value, c.expires.value,
                            c.handle, Pending)
            && forall id :: id in t.challenges ==>
                 var ch := t.challenges[id];
                 u.challenges[id]
                 == if ch.status == Pending && ch.purpose == c.purpose.value && c.purpose != Some(Discoverable)
                       && (ch.identity, ch.session, ch.setup) == (c.identity, c.session, c.setup)
                    then ch.(status := Expired) else ch
  {
  }

  // ---------------------------------------------------------------- finalizing

  predicate IsFingerprint(s: string) {
    |s| == 16 && forall i :: 0 <= i < 16 ==> s[i] in "0123456789abcdef"
  }

  predicate CallIsWhole(f: FinalizeCall) {
    && f.digest.Some? && |f.digest.value| == 32 && f.credential.Some? && f.session.Some?
    && f.tokenDigest.Some? && |f.tokenDigest.value| == 32
    && f.fingerprint.Some? && IsFingerprint(f.fingerprint.value)
    && f.expires.Some? && f.authority.Some? && f.handle.Some? && 16 <= |f.handle.value| <= 64
    && 0 <= f.signCount
  }

  /** A pending discoverable challenge of the digest, bound to nobody, unexpired whenever the
      finalizer looks: at its select, at its last admission and at the two deadline checks. */
  predicate Waits(t: Tables, f: FinalizeCall, clock: Clock, id: Id) {
    && id in t.challenges
    && var ch := t.challenges[id];
       && ch.purpose == Discoverable && ch.status == Pending && Some(ch.digest) == f.digest
       && ch.identity.None? && ch.session.None? && ch.setup.None?
       && clock(Of(1)).a < ch.expires && clock(Of(6)).a < ch.expires
       && clock(FirstCheck).a < ch.expires && clock(SecondCheck).a < ch.expires
  }

  /** The session to be made is new and unexpired whenever the finalizer looks. */
  predicate SessionFits(t: Tables, f: FinalizeCall, clock: Clock) {
    && f.session.Some? && f.expires.Some? && f.session.value !in t.sessions
    && (forall k :: k in t.sessions ==> Some(t.sessions[k].tokenDigest) != f.tokenDigest)
    && clock(Of(6)).b < f.expires.value && clock(FirstCheck).b < f.expires.value
    && clock(SecondCheck).b < f.expires.value && clock(Of(8)).a < f.expires.value
  }

  /** An active credential with the presented handle, of an active identity under the expected
      authority, which is an active native one. */
  predicate OwnerStands(t: Tables, f: FinalizeCall) {
    && f.credential.Some? && f.credential.value in t.credentials
    && var cred := t.credentials[f.credential.value];
       && cred.active && cred.handle == f.handle
       && cred.identity in t.identities && t.identities[cred.identity].active
       && Some(t.identities[cred.identity].authority) == f.authority
       && t.identities[cred.identity].authority in t.authorities
       && t.authorities[t.identities[cred.identity].authority].native
       && t.authorities[t.identities[cred.identity].authority].active
  }

  lemma WholeIsValid(f: FinalizeCall)
    ensures CallIsWhole(f) <==> ValidFinalize(f)
  {
    if f.fingerprint.Some? && |f.fingerprint.value| == 16 {
      forall i | 0 <= i < 16
        ensures IsHexDigit(f.fingerprint.value[i]) <==> f.fingerprint.value[i] in "0123456789abcdef"
      {
        HexDigits(f.fingerprint.value[i]);
      }
    }
  }

  /** The challenge that waits is the one the finalizer finds. */
  lemma WaitingIsFound(t: Tables, f: FinalizeCall, clock: Clock)
    requires DigestsUnique(t.challenges)
    ensures forall id: Id :: Waits(t, f, clock, id) ==> FindChallenge(t, f, clock(Of(1)).a) == Some(id)
  {
    forall id: Id | Waits(t, f, clock, id) ensures FindChallenge(t, f, clock(Of(1)).a) == Some(id) {
      assert id in Matches(t, f, clock(Of(1)).a);
    }
  }

  /** A session is made if and only if the call is whole, a challenge waits, the owner stands and
      the session fits. */
  lemma FinalizeSucceedsExactlyWhen(t: Tables, f: FinalizeCall, clock: Clock)
    requires DigestsUnique(t.challenges)
    ensures Succeeds(t, f, clock) <==>
              && CallIsWhole(f) && (exists id: Id :: Waits(t, f, clock, id))
              && OwnerStands(t, f) && SessionFits(t, f, clock)
  {
    WholeIsValid(f);
    WaitingIsFound(t, f, clock);
    if Succeeds(t, f, clock) {
      assert Waits(t, f, clock, FindChallenge(t, f, clock(Of(1)).a).value);
    }
  }

  /** What a success leaves. The counter becomes the greater of the stored and the presented one,
      a lower one presented is noted for a credential that is not backed up, the rest of the
      credential follows the assertion; the session copies the call and the identity's epoch;
      the challenge is consumed; nothing else changes. */
  lemma FinalizeLeaves(t: Tables, f: FinalizeCall, clock: Clock, id: Id)
    requires DigestsUnique(t.challenges) && Succeeds(t, f, clock) && Waits(t, f, clock, id)
    ensures CallIsWhole(f) && OwnerStands(t, f)
    ensures var (u, cred) := (Finalize(t, f, clock).0, t.credentials[f.credential.value]);
            && u.identities == t.identities && u.authorities == t.authorities
            && u.challenges == t.challenges[id := t.challenges[id].(status := Consumed(clock(Of(9)).a))]
            && u.credentials
               == t.credentials[f.credential.value :=
                    Credential(cred.identity, if f.signCount > cred.signCount then f.signCount else cred.signCount,
                               f.backupState, cred.userVerified || f.userVerified, true, f.handle,
                               Some(clock(Of(7)).a),
                               if !f.backupEligible && 0 < f.signCount < cred.signCount
                               then Some(clock(Of(7)).b) else cred.lastRegression)]
            && u.sessions
               == t.sessions[f.session.value :=
                    Session(cred.identity, f.credential, f.tokenDigest.value, f.fingerprint.value,
                            t.identities[cred.identity].epoch, f.expires.value,
                            if f.userVerified then "phishing_resistant" else "single_factor", f.userVerified)]
            && Finalize(t, f, clock).1 == Ok([cred.identity])
  {
    FinalizeSucceedsExactlyWhen(t, f, clock);
    WaitingIsFound(t, f, clock);
  }

  // ---------------------------------------------------------------- retaining

  /** Expired for as long as challenges are retained, and consumed as long ago when consumed. */
  predicate RetainedLongEnough(ch: Challenge, seconds: int, now: int) {
    && ch.expires + seconds * MICROS <= now
    && match ch.status
       case Consumed(at) => at + seconds * MICROS <= now
       case Pending => true
       case Expired => true
  }

  /** A pass runs exactly for a retention of one to ninety days and a batch of one to a thousand. */
  lemma RetainRunsExactlyWhen(t: Tables, r: RetainCall)
    ensures Retain(t, r).1.Ok? <==>
              && r.retention.Some? && 24 * 3600 <= r.retention.value <= 90 * 24 * 3600
              && r.batch.Some? && 1 <= r.batch.value <= 1000
    ensures Retain(t, r).1.Err? ==> Retain(t, r).0 == t
  {
  }

  predicate MayGo(t: Tables, r: RetainCall, id: Id) {
    && r.retention.Some? && id in t.challenges && id !in r.locked
    && RetainedLongEnough(t.challenges[id], r.retention.value, r.now)
  }

  /** It deletes only unlocked rows retained long enough, and it leaves one of those only when its
      batch is full and every row it deleted expired earlier, or at the same time with a lower
      identifier. Rows that stay are unchanged, and it answers how many went. */
  lemma RetainDeletesExactly(t: Tables, r: RetainCall, a: Id, b: Id)
    requires Retain(t, r).1.Ok?
    ensures var (u, answer) := Retain(t, r);
            && u == t.(challenges := u.challenges) && u.challenges.Keys <= t.challenges.Keys
            && answer.value == |t.challenges.Keys - u.challenges.Keys| <= r.batch.value
            && (a in u.challenges ==> u.challenges[a] == t.challenges[a])
            && (a in t.challenges && a !in u.challenges ==> MayGo(t, r, a))
            && (MayGo(t, r, b) && b in u.challenges ==> answer.value == r.batch.value)
            && (MayGo(t, r, b) && b in u.challenges && a in t.challenges && a !in u.challenges ==>
                  || t.challenges[a].expires < t.challenges[b].expires
                  || (t.challenges[a].expires == t.challenges[b].expires && a < b))
  {
    var s := Eligible(t, r);
    var ids := Batch(t.challenges, s, r.batch.value);
    EligibleIs(t, r, a);
    EligibleIs(t, r, b);
    BatchIs(t.challenges, s, r.batch.value);
    if a in ids && b in s && b !in ids { BatchIsOldest(t.challenges, s, r.batch.value, a, b); }
    assert t.challenges.Keys - Retain(t, r).0.challenges.Keys == ids;
  }

  lemma EligibleIs(t: Tables, r: RetainCall, id: Id)
    requires ValidRetain(r)
    ensures id in Eligible(t, r) <==> MayGo(t, r, id)
  {
  }

  // ---------------------------------------------------------------- errors

  /** The database errors: a missing value, an expiry already past, an identifier or digest in use,
      and a reference to nothing. */
  lemma ErrorsAreTrue(t: Tables, c: CreateCall)
    requires Create(t, c).1.Err?
    ensures match Create(t, c).1.error
            case "23502" => c.purpose.None? || c.expires.None?
            case "23514" => c.expires.Some? && c.expires.value <= c.created
            case "23505" => c.id.Some? && c.digest.Some? && !IsUnused(t, c.id.value, c.digest.value)
            case "23503" => !c.referenced
            case _ => false
  {
  }

  predicate IsUnused(t: Tables, id: Id, digest: Octets) {
    id !in t.challenges && forall k :: k in t.challenges ==> t.challenges[k].digest != digest
  }

  /** A finalizer fails only on the session it would make. */
  lemma FinalizeErrorsAreTrue(t: Tables, f: FinalizeCall, clock: Clock)
    requires Finalize(t, f, clock).1.Err?
    ensures Finalize(t, f, clock).0 == t && f.expires.Some? && f.session.Some? && f.tokenDigest.Some?
    ensures match Finalize(t, f, clock).1.error
            case "23514" => f.expires.value <= clock(Of(8)).a
            case "23505" =>
              f.session.value in t.sessions
              || exists k :: k in t.sessions && t.sessions[k].tokenDigest == f.tokenDigest.value
            case _ => false
  {
  }
}
