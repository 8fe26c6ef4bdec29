/** The rewritten finalizer body and the finalizer it is meant to be are the same. */
module WebAuthnFinalizer {
  import opened Common
  import opened Deadline
  import opened WebAuthn

  lemma SelectsAreQuiet(f: FinalizeCall, n: nat)
    requires n < 7
    ensures WriteFree(Body(f)[n]) && Quiet(Body(f)[n])
  {
  }

  lemma BodyFits(f: FinalizeCall)
    ensures Fit(Body(f), 7, 9, 10)
  {
    var body := Body(f);
    forall n | 0 <= n < 7 ensures WriteFree(body[n]) && Quiet(body[n]) { SelectsAreQuiet(f, n); }
    assert Quiet(body[7]) && Quiet(body[8]) && Quiet(body[9]) && Quiet(body[10]);
  }

  /** One statement that keeps running, then the rest. */
  lemma RunNext<T, L, R>(body: seq<Stmt<T, L, R>>, n: nat, clock: Clock, t: T, l: L)
    requires n < |body|
    ensures RunBody(body[n..], clock, t, l)
         == match body[n].effect(t, l, clock(Of(body[n].position)))
            case Running(t', l') => RunBody(body[n + 1..], clock, t', l')
            case stopped => stopped
  {
    assert body[n..][0] == body[n] && body[n..][1..] == body[n + 1..];
  }

  /** The locals at the first write. */
  function Reached(t: Tables, f: FinalizeCall, clock: Clock): Locals
    requires Admissible(t, f, clock)
  {
    var id := FindChallenge(t, f, clock(Of(1)).a).value;
    var identity := t.credentials[f.credential.value].identity;
    Locals(Some((id, t.challenges[id])), identity, t.identities[identity].epoch, [])
  }

  /** The checks after the credential has been found: authority, identity, credential, expiry. */
  lemma LocksAre(t: Tables, f: FinalizeCall, clock: Clock, l: Locals,
                 all: seq<Stmt<Tables, Locals, seq<Id>>>, rest: seq<Stmt<Tables, Locals, seq<Id>>>)
    requires all == Body(f)[..7] + rest && l.rows == [] && l.challenge.Some? && f.credential.Some?
    ensures RunBody(all[3..], clock, t, l)
         == if AuthorityStands(t, f, l.identity) && t.identities[l.identity].active
               && CredentialStands(t, f, l.identity) && !Late(l.challenge.value.1, f, clock(Of(6)))
            then RunBody(rest, clock, t, l.(epoch := t.identities[l.identity].epoch))
            else Returned(t, [])
  {
    assert all[7..] == rest;
    RunNext(all, 3, clock, t, l);
    RunNext(all, 4, clock, t, l);
    if AuthorityStands(t, f, l.identity) && t.identities[l.identity].active {
      var m := l.(epoch := t.identities[l.identity].epoch);
      RunNext(all, 5, clock, t, m);
      RunNext(all, 6, clock, t, m);
    }
  }

  /** The seven checks before the first write. */
  lemma ChecksAre(t: Tables, f: FinalizeCall, clock: Clock, l: Locals, rest: seq<Stmt<Tables, Locals, seq<Id>>>)
    requires l == START
    ensures RunBody(Body(f)[..7] + rest, clock, t, l)
         == if Admissible(t, f, clock) then RunBody(rest, clock, t, Reached(t, f, clock)) else Returned(t, [])
  {
    var all := Body(f)[..7] + rest;
    assert all[0..] == all;
    RunNext(all, 0, clock, t, l);
    if ValidFinalize(f) {
      RunNext(all, 1, clock, t, l);
      var found := FindChallenge(t, f, clock(Of(1)).a);
      if found.Some? {
        var m := l.(challenge := Some((found.value, t.challenges[found.value])));
        RunNext(all, 2, clock, t, m);
        if f.credential.value in t.credentials {
          LocksAre(t, f, clock, m.(identity := t.credentials[f.credential.value].identity), all, rest);
        }
      }
    }
  }

  /** The tables after the first two writes. */
  function Written(t: Tables, f: FinalizeCall, clock: Clock): Tables
    requires Admissible(t, f, clock)
  {
    var cred := t.credentials[f.credential.value];
    t.(credentials := t.credentials[f.credential.value := Used(cred, f, clock(Of(7)))],
       sessions := t.sessions[f.session.value := NewSession(f, cred.identity, t.identities[cred.identity].epoch)])
  }

  lemma WritesAre(t: Tables, f: FinalizeCall, clock: Clock, rest: seq<Stmt<Tables, Locals, seq<Id>>>)
    requires Admissible(t, f, clock)
    ensures RunBody(Body(f)[7..9] + rest, clock, t, Reached(t, f, clock))
         == match SessionError(t, f, clock(Of(8)).a)
            case Some(code) => Failed(code)
            case None => RunBody(rest, clock, Written(t, f, clock), Reached(t, f, clock))
  {
    var l := Reached(t, f, clock);
    var cred := t.credentials[f.credential.value];
    var u := t.(credentials := t.credentials[f.credential.value := Used(cred, f, clock(Of(7)))]);
    var all := Body(f)[7..9] + rest;
    assert all[0..] == all && all[2..] == rest;
    RunNext(all, 0, clock, t, l);
    RunNext(all, 1, clock, u, l);
    assert SessionError(u, f, clock(Of(8)).a) == SessionError(t, f, clock(Of(8)).a);
  }

  lemma ConsumeIs(t: Tables, f: FinalizeCall, clock: Clock)
    requires Admissible(t, f, clock)
    ensures RunBody(Body(f)[9..], clock, Written(t, f, clock), Reached(t, f, clock))
         == Running(Finalized(t, f, clock),
                    Reached(t, f, clock).(rows := [t.credentials[f.credential.value].identity]))
  {
    var body := Body(f);
    var l := Reached(t, f, clock);
    assert ConsumeChallenge(Written(t, f, clock), l, clock(Of(9))) == Running(Finalized(t, f, clock), l);
    assert l.rows + [l.identity] == [l.identity];
    RunNext(body, 9, clock, Written(t, f, clock), l);
    RunNext(body, 10, clock, Finalized(t, f, clock), l);
    assert body[11..] == [];
  }

  /** Everything from the first write on. */
  lemma EffectsAre(t: Tables, f: FinalizeCall, clock: Clock)
    requires Admissible(t, f, clock)
    ensures RunBody(Body(f)[7..], clock, t, Reached(t, f, clock))
         == match SessionError(t, f, clock(Of(8)).a)
            case Some(code) => Failed(code)
            case None => Running(Finalized(t, f, clock),
                                 Reached(t, f, clock).(rows := [t.credentials[f.credential.value].identity]))
  {
    WritesAre(t, f, clock, Body(f)[9..]);
    assert Body(f)[7..9] + Body(f)[9..] == Body(f)[7..];
    ConsumeIs(t, f, clock);
  }

  lemma FirstFiresWhen(t: Tables, f: FinalizeCall, clock: Clock, l: Locals)
    requires l == START
    ensures FirstFires(Body(f), 7, DeadlinePolicy(f), clock, t, l)
       <==> Admissible(t, f, clock)
            && Late(t.challenges[FindChallenge(t, f, clock(Of(1)).a).value], f, clock(FirstCheck))
  {
    ChecksAre(t, f, clock, l, []);
    assert Body(f)[..7] + [] == Body(f)[..7];
  }

  lemma SecondFiresWhen(t: Tables, f: FinalizeCall, clock: Clock, l: Locals)
    requires l == START
    ensures SecondFires(Body(f), 7, 9, DeadlinePolicy(f), clock, t, l)
       <==> Admissible(t, f, clock)
            && !Late(t.challenges[FindChallenge(t, f, clock(Of(1)).a).value], f, clock(FirstCheck))
            && SessionError(t, f, clock(Of(8)).a).None?
            && Late(t.challenges[FindChallenge(t, f, clock(Of(1)).a).value], f, clock(SecondCheck))
  {
    FirstFiresWhen(t, f, clock, l);
    ChecksAre(t, f, clock, l, Body(f)[7..9]);
    assert Body(f)[..7] + Body(f)[7..9] == Body(f)[..9];
    if Admissible(t, f, clock) {
      WritesAre(t, f, clock, []);
      assert Body(f)[7..9] + [] == Body(f)[7..9];
    }
  }

  /** The unrewritten body, from its start. */
  lemma BodyIs(t: Tables, f: FinalizeCall, clock: Clock, l: Locals)
    requires l == START
    ensures Outcome(t, RunBody(Body(f), clock, t, l))
         == if !Admissible(t, f, clock) then (t, Ok([]))
            else match SessionError(t, f, clock(Of(8)).a)
              case Some(code) => (t, Err(code))
              case None => (Finalized(t, f, clock), Ok([t.credentials[f.credential.value].identity]))
  {
    ChecksAre(t, f, clock, l, Body(f)[7..]);
    assert Body(f)[..7] + Body(f)[7..] == Body(f);
    if Admissible(t, f, clock) { EffectsAre(t, f, clock); }
  }

  /** Applying the rewrite to the discoverable finalizer's body gives exactly the
      all-or-nothing finalizer with its two deadline checks, for every clock. */
  lemma RewrittenBodyIsFinalize(t: Tables, f: FinalizeCall, clock: Clock, l: Locals)
    requires l == START
    ensures EnforceDeadline(Body(f)).Ok?
    ensures Outcome(t, RunTokens(EnforceDeadline(Body(f)).value, DeadlinePolicy(f), clock, t, l, None))
         == Finalize(t, f, clock)
  {
    BodyFits(f);
    RewriteKeepsMeaning(Body(f), 7, 9, 10, DeadlinePolicy(f), clock, t, l);
    FirstFiresWhen(t, f, clock, l);
    SecondFiresWhen(t, f, clock, l);
    BodyIs(t, f, clock, l);
  }

  /** Without the rewrite the same body can finish after the deadline: its outcome differs
      exactly when it is admitted and a check of the rewritten body finds the deadline past. */
  lemma OriginalOutlivesDeadline(t: Tables, f: FinalizeCall, clock: Clock, l: Locals)
    requires l == START && Finalize(t, f, clock).1.Ok?
    ensures Outcome(t, RunBody(Body(f), clock, t, l)) != Finalize(t, f, clock)
       <==> Admissible(t, f, clock)
            && (|| Late(t.challenges[FindChallenge(t, f, clock(Of(1)).a).value], f, clock(FirstCheck))
                || Late(t.challenges[FindChallenge(t, f, clock(Of(1)).a).value], f, clock(SecondCheck)))
  {
    BodyIs(t, f, clock, l);
  }
}
