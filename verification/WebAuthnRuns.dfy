/** Runs of challenge creation, finalizers and retention passes: a challenge completes at most
    one ceremony, scopes stay apart, and what a session binds. */
module WebAuthnRuns {
  import opened Common
  import opened Deadline
  import opened WebAuthn

  /** The tables beside the challenges. */
  datatype Beside = Beside(
    credentials: map<Id, Credential>, identities: map<Id, Identity>,
    authorities: map<Id, Authority>, sessions: map<Id, Session>)

  /** What a finalizer makes of the challenge it found: false, an error, or its writes. */
  datatype Verdict = Refuses | Raises(code: string) | Completes(beside: Beside)

  /** A call of one of the other four finalizers, by the challenge it asks for and by `rule`:
      everything it decides and writes, as a function of the row found and the other tables.
      `now` is the clock at the select, `at` at the consume. */
  datatype OtherCall = OtherCall(
    digest: Octets, purpose: Purpose, now: int, at: int, rule: (Challenge, Beside) -> Verdict)

  /** `Others` is whatever else the system does to the tables beside the challenges. */
  datatype Event =
    | Creates(c: CreateCall)
    | Finalizes(f: FinalizeCall, clock: Clock)
    | OtherFinalizes(o: OtherCall)
    | Others(beside: Beside)
    | Retains(r: RetainCall)

  datatype Answer =
    | CreateAnswer(created: Result<bool, string>)
    | FinalizeAnswer(rows: Result<seq<Id>, string>)
    | OtherAnswer(completed: Result<bool, string>)
    | Silent

  function BesideOf(t: Tables): Beside {
    Beside(t.credentials, t.identities, t.authorities, t.sessions)
  }

  function With(challenges: map<Id, Challenge>, b: Beside): Tables {
    Tables(challenges, b.credentials, b.identities, b.authorities, b.sessions)
  }

  predicate TakenByOther(ch: Challenge, o: OtherCall) {
    && ch.digest == o.digest && ch.purpose == o.purpose != Discoverable
    && ch.status == Pending && ch.expires > o.now
  }

  function OtherMatches(t: Tables, o: OtherCall): set<Id> {
    set id | id in t.challenges && TakenByOther(t.challenges[id], o)
  }

  function FindOther(t: Tables, o: OtherCall): (id: Option<Id>)
    ensures id.None? <==> OtherMatches(t, o) == {}
    ensures id.Some? ==> id.value in OtherMatches(t, o)
  {
    if OtherMatches(t, o) == {} then None
    else
      var less := (a: Id, b: Id) => a < b;
      assert Orders(less, OtherMatches(t, o));
      Some(Least(less, OtherMatches(t, o)))
  }

  /** It completes and consumes its challenge, or it leaves every table as it was. */
  function FinalizeOther(t: Tables, o: OtherCall): (Tables, Result<bool, string>) {
    match FindOther(t, o)
    case None => (t, Ok(false))
    case Some(id) =>
      match o.rule(t.challenges[id], BesideOf(t))
      case Refuses => (t, Ok(false))
      case Raises(code) => (t, Err(code))
      case Completes(b) => (With(t.challenges[id := t.challenges[id].(status := Consumed(o.at))], b), Ok(true))
  }

  function Step(t: Tables, e: Event): (Tables, Answer) {
    match e
    case Creates(c) => (Create(t, c).0, CreateAnswer(Create(t, c).1))
    case Finalizes(f, clock) => (Finalize(t, f, clock).0, FinalizeAnswer(Finalize(t, f, clock).1))
    case OtherFinalizes(o) => (FinalizeOther(t, o).0, OtherAnswer(FinalizeOther(t, o).1))
    case Others(b) => (With(t.challenges, b), Silent)
    case Retains(r) => (Retain(t, r).0, Silent)
  }

  function Run(t: Tables, events: seq<Event>): Tables
    decreases |events|
  {
    if events == [] then t else Step(Run(t, events[..|events| - 1]), events[|events| - 1]).0
  }

  // ---------------------------------------------------------------- one challenge, one ceremony

  /** A ceremony completed: its challenge, and the session when the discoverable finalizer
      made one. */
  datatype Made = Made(challenge: Id, session: Option<Id>)

  /** What a challenge was issued with for good. */
  datatype Issue = Issue(digest: Octets, purpose: Purpose)

  /** The tables with their history: every challenge ever issued, every ceremony completed, and
      the consumed challenges that were deleted. */
  datatype World = World(t: Tables, issued: map<Id, Issue>, made: seq<Made>, removed: set<Id>)

  predicate IsInitial(w: World) {
    w.t.challenges == map[] && w.issued == map[] && w.made == [] && w.removed == {}
  }

  function Spent(t: Tables): set<Id> {
    set id | id in t.challenges && t.challenges[id].status.Consumed?
  }

  predicate Succeeds(t: Tables, f: FinalizeCall, clock: Clock) {
    Finalize(t, f, clock).1.Ok? && Finalize(t, f, clock).1.value != []
  }

  /** Generated identifiers and digests never repeat. */
  predicate Legal(w: World, e: Event) {
    e.Creates? && e.c.id.Some? && e.c.digest.Some? ==>
      e.c.id.value !in w.issued && forall k :: k in w.issued ==> w.issued[k].digest != e.c.digest.value
  }

  function Advance(w: World, e: Event): World {
    var t := Step(w.t, e).0;
    match e
    case Creates(c) =>
      if Create(w.t, c).1 == Ok(true)
      then w.(t := t, issued := w.issued[c.id.value := Issue(c.digest.value, c.purpose.value)])
      else w.(t := t)
    case Finalizes(f, clock) =>
      if Succeeds(w.t, f, clock)
      then w.(t := t, made := w.made + [Made(FindChallenge(w.t, f, clock(Of(1)).a).value, f.session)])
      else w.(t := t)
    case OtherFinalizes(o) =>
      if FinalizeOther(w.t, o).1 == Ok(true)
      then w.(t := t, made := w.made + [Made(FindOther(w.t, o).value, None)])
      else w.(t := t)
    case Retains(_) => w.(t := t, removed := w.removed + (Spent(w.t) - t.challenges.Keys))
    case Others(_) => w.(t := t)
  }

  predicate LegalRun(w: World, events: seq<Event>)
    decreases |events|, 0
  {
    events == [] ||
    (LegalRun(w, events[..|events| - 1]) && Legal(History(w, events[..|events| - 1]), events[|events| - 1]))
  }

  function History(w: World, events: seq<Event>): World
    requires LegalRun(w, events)
    decreases |events|, 1
  {
    if events == [] then w else Advance(History(w, events[..|events| - 1]), events[|events| - 1])
  }

  predicate IssuedInv(w: World) {
    && (forall id :: id in w.t.challenges ==>
          id in w.issued && w.issued[id] == Issue(w.t.challenges[id].digest, w.t.challenges[id].purpose))
    && (forall j, k :: j in w.issued && k in w.issued && j != k ==> w.issued[j].digest != w.issued[k].digest)
    && (forall id :: id in w.removed ==> id in w.issued && id !in w.t.challenges)
  }

  function MadeIds(made: seq<Made>): set<Id> {
    set i | 0 <= i < |made| :: made[i].challenge
  }

  predicate MadeInv(w: World) {
    && (forall i, j :: 0 <= i < j < |w.made| ==> w.made[i].challenge != w.made[j].challenge)
    && MadeIds(w.made) == Spent(w.t) + w.removed
  }

  /** It made a session exactly when its challenge was issued for the discoverable purpose. */
  predicate Fits(w: World, m: Made) {
    m.challenge in w.issued && (m.session.Some? <==> w.issued[m.challenge].purpose == Discoverable)
  }

  predicate PurposeInv(w: World) {
    forall i :: 0 <= i < |w.made| ==> Fits(w, w.made[i])
  }

  predicate Inv(w: World) {
    IssuedInv(w) && MadeInv(w) && PurposeInv(w)
  }

  lemma CreateKeepsInv(w: World, c: CreateCall)
    requires Inv(w) && Legal(w, Creates(c))
    ensures Inv(Advance(w, Creates(c)))
  {
    CreateKeepsIssued(w, c);
    CreateKeepsSpent(w.t, c);
    CreateKeepsPurposes(w, c);
  }

  lemma CreateKeepsSpent(t: Tables, c: CreateCall)
    requires c.id.Some? && c.digest.Some? ==> c.id.value !in t.challenges
    ensures Spent(Create(t, c).0) == Spent(t)
  {
  }

  lemma CreateKeepsPurposes(w: World, c: CreateCall)
    requires PurposeInv(w) && Legal(w, Creates(c))
    ensures PurposeInv(Advance(w, Creates(c)))
  {
    var v := Advance(w, Creates(c));
    forall i | 0 <= i < |v.made| ensures Fits(v, v.made[i]) { assert Fits(w, w.made[i]); }
  }

  lemma CreateKeepsIssued(w: World, c: CreateCall)
    requires IssuedInv(w) && Legal(w, Creates(c))
    ensures IssuedInv(Advance(w, Creates(c)))
  {
  }

  lemma MadeGrows(made: seq<Made>, m: Made)
    ensures MadeIds(made + [m]) == MadeIds(made) + {m.challenge}
  {
    var all := made + [m];
    assert all[|made|] == m;
    forall id | id in MadeIds(made) ensures id in MadeIds(all) {
      var i :| 0 <= i < |made| && made[i].challenge == id;
      assert all[i] == made[i];
    }
  }

  /** Consuming a pending challenge and recording it once keeps the books. */
  lemma CompletionKeepsMade(w: World, v: World, m: Made, at: int)
    requires IssuedInv(w) && MadeInv(w)
    requires m.challenge in w.t.challenges && w.t.challenges[m.challenge].status == Pending
    requires v.t.challenges == w.t.challenges[m.challenge := w.t.challenges[m.challenge].(status := Consumed(at))]
    requires v.made == w.made + [m] && v.removed == w.removed
    ensures MadeInv(v)
  {
    assert Spent(v.t) == Spent(w.t) + {m.challenge};
    assert m.challenge !in MadeIds(w.made);
    assert forall i :: 0 <= i < |w.made| ==> w.made[i].challenge in MadeIds(w.made);
    MadeGrows(w.made, m);
  }

  lemma CompletionKeepsPurposes(w: World, v: World, m: Made)
    requires PurposeInv(w) && Fits(w, m) && v.made == w.made + [m] && v.issued == w.issued
    ensures PurposeInv(v)
  {
    forall i | 0 <= i < |v.made| ensures Fits(v, v.made[i]) {
      if i < |w.made| { assert Fits(w, w.made[i]); }
    }
  }

  lemma CompletionKeepsIssued(w: World, v: World, id: Id, at: int)
    requires IssuedInv(w) && id in w.t.challenges
    requires v.t.challenges == w.t.challenges[id := w.t.challenges[id].(status := Consumed(at))]
    requires v.issued == w.issued && v.removed == w.removed
    ensures IssuedInv(v)
  {
  }

  lemma FinalizeKeepsInv(w: World, f: FinalizeCall, clock: Clock)
    requires Inv(w)
    ensures Inv(Advance(w, Finalizes(f, clock)))
  {
    if Succeeds(w.t, f, clock) {
      var (v, id) := (Advance(w, Finalizes(f, clock)), FindChallenge(w.t, f, clock(Of(1)).a).value);
      CompletionKeepsMade(w, v, Made(id, f.session), clock(Of(9)).a);
      CompletionKeepsIssued(w, v, id, clock(Of(9)).a);
      CompletionKeepsPurposes(w, v, Made(id, f.session));
    } else {
      FailureLeavesNoTrace(w.t, f, clock);
    }
  }

  lemma OtherKeepsInv(w: World, o: OtherCall)
    requires Inv(w)
    ensures Inv(Advance(w, OtherFinalizes(o)))
  {
    if FinalizeOther(w.t, o).1 == Ok(true) {
      var (v, id) := (Advance(w, OtherFinalizes(o)), FindOther(w.t, o).value);
      CompletionKeepsMade(w, v, Made(id, None), o.at);
      CompletionKeepsIssued(w, v, id, o.at);
      CompletionKeepsPurposes(w, v, Made(id, None));
    }
  }

  lemma RetainOnlyDeletes(t: Tables, r: RetainCall)
    ensures var u := Retain(t, r).0;
            && (forall id :: id in u.challenges ==> id in t.challenges && u.challenges[id] == t.challenges[id])
            && Spent(u) == Spent(t) * u.challenges.Keys
  {
  }

  lemma RetainKeepsInv(w: World, r: RetainCall)
    requires Inv(w)
    ensures Inv(Advance(w, Retains(r)))
  {
    var v := Advance(w, Retains(r));
    RetainOnlyDeletes(w.t, r);
    assert Spent(v.t) + v.removed == Spent(w.t) + w.removed;
  }

  lemma {:induction false} HistoryKeepsInv(w: World, events: seq<Event>)
    requires Inv(w) && LegalRun(w, events)
    ensures Inv(History(w, events))
    decreases |events|
  {
    if events != [] {
      var before := History(w, events[..|events| - 1]);
      HistoryKeepsInv(w, events[..|events| - 1]);
      match events[|events| - 1]
      case Creates(c) => CreateKeepsInv(before, c);
      case Finalizes(f, clock) => FinalizeKeepsInv(before, f, clock);
      case OtherFinalizes(o) => OtherKeepsInv(before, o);
      case Others(_) => assert Spent(History(w, events).t) == Spent(before.t);
      case Retains(r) => RetainKeepsInv(before, r);
    }
  }

  lemma {:induction false} MadeCount(made: seq<Made>)
    requires forall i, j :: 0 <= i < j < |made| ==> made[i].challenge != made[j].challenge
    ensures |MadeIds(made)| == |made|
  {
    if made == [] {
      assert MadeIds(made) == {};
    } else {
      MadeCount(made[..|made| - 1]);
      LastIsNew(made);
    }
  }

  /** The sessions made. */
  function SessionsMade(made: seq<Made>): nat
    decreases |made|
  {
    if made == [] then 0
    else SessionsMade(made[..|made| - 1]) + (if made[|made| - 1].session.Some? then 1 else 0)
  }

  /** Those of the challenges that were issued for the discoverable purpose. */
  function DiscoverableOf(issued: map<Id, Issue>, ids: set<Id>): set<Id> {
    set id | id in ids && id in issued && issued[id].purpose == Discoverable
  }

  lemma {:induction false} SessionCount(w: World, made: seq<Made>)
    requires forall i, j :: 0 <= i < j < |made| ==> made[i].challenge != made[j].challenge
    requires forall i :: 0 <= i < |made| ==> Fits(w, made[i])
    ensures SessionsMade(made) == |DiscoverableOf(w.issued, MadeIds(made))|
    decreases |made|
  {
    if made == [] {
      assert DiscoverableOf(w.issued, MadeIds(made)) == {};
    } else {
      var (front, last) := (made[..|made| - 1], made[|made| - 1]);
      SessionCount(w, front);
      LastIsNew(made);
      assert Fits(w, last);
      OneMore(w.issued, MadeIds(front), last.challenge);
    }
  }

  lemma LastIsNew(made: seq<Made>)
    requires made != [] && forall i, j :: 0 <= i < j < |made| ==> made[i].challenge != made[j].challenge
    ensures var (front, id) := (MadeIds(made[..|made| - 1]), made[|made| - 1].challenge);
            id !in front && MadeIds(made) == front + {id}
  {
    MadeGrows(made[..|made| - 1], made[|made| - 1]);
    assert made == made[..|made| - 1] + [made[|made| - 1]];
  }

  lemma OneMore(issued: map<Id, Issue>, ids: set<Id>, id: Id)
    requires id !in ids && id in issued
    ensures |DiscoverableOf(issued, ids + {id})|
         == |DiscoverableOf(issued, ids)| + (if issued[id].purpose == Discoverable then 1 else 0)
  {
    assert DiscoverableOf(issued, ids + {id})
        == DiscoverableOf(issued, ids) + (if issued[id].purpose == Discoverable then {id} else {});
  }

  /** Over any run from no challenges: no challenge, and no digest, completes two ceremonies of
      any of the five finalizers; the ceremonies completed are as many as the challenges
      consumed, and those that made a session as many as the discoverable ones consumed,
      deleted ones included. */
  lemma OneCeremonyPerChallenge(w: World, events: seq<Event>)
    requires IsInitial(w) && LegalRun(w, events)
    ensures var v := History(w, events);
            && (forall i, j :: 0 <= i < j < |v.made| ==>
                  v.made[i].challenge in v.issued && v.made[j].challenge in v.issued
                  && v.issued[v.made[i].challenge].digest != v.issued[v.made[j].challenge].digest)
            && (forall i :: 0 <= i < |v.made| ==> Fits(v, v.made[i]))
            && |v.made| == |Spent(v.t)| + |v.removed|
            && SessionsMade(v.made) == |DiscoverableOf(v.issued, Spent(v.t))| + |DiscoverableOf(v.issued, v.removed)|
  {
    assert MadeIds(w.made) == Spent(w.t) + w.removed;
    HistoryKeepsInv(w, events);
    MadeDiffer(History(w, events));
    BooksBalance(History(w, events));
  }

  lemma MadeDiffer(w: World)
    requires IssuedInv(w) && MadeInv(w) && PurposeInv(w)
    ensures forall i, j :: 0 <= i < j < |w.made| ==>
              w.made[i].challenge in w.issued && w.made[j].challenge in w.issued
              && w.issued[w.made[i].challenge].digest != w.issued[w.made[j].challenge].digest
  {
    assert forall i :: 0 <= i < |w.made| ==> Fits(w, w.made[i]);
  }

  lemma BooksBalance(w: World)
    requires IssuedInv(w) && MadeInv(w) && PurposeInv(w)
    ensures |w.made| == |Spent(w.t)| + |w.removed|
    ensures SessionsMade(w.made) == |DiscoverableOf(w.issued, Spent(w.t))| + |DiscoverableOf(w.issued, w.removed)|
  {
    MadeCount(w.made);
    SessionCount(w, w.made);
    assert Spent(w.t) !! w.removed;
    assert |Spent(w.t) + w.removed| == |Spent(w.t)| + |w.removed|;
    DiscoverableSplits(w.issued, Spent(w.t), w.removed);
  }

  lemma DiscoverableSplits(issued: map<Id, Issue>, a: set<Id>, b: set<Id>)
    requires a !! b
    ensures |DiscoverableOf(issued, a + b)| == |DiscoverableOf(issued, a)| + |DiscoverableOf(issued, b)|
  {
    assert DiscoverableOf(issued, a + b) == DiscoverableOf(issued, a) + DiscoverableOf(issued, b);
  }

  // ---------------------------------------------------------------- one pending challenge a scope

  predicate SamePurposeAndScope(a: Challenge, b: Challenge) {
    a.purpose == b.purpose && a.identity == b.identity && a.session == b.session && a.setup == b.setup
  }

  predicate OnePendingPerScope(t: Tables) {
    forall j, k | j in t.challenges && k in t.challenges && t.challenges[j].status == Pending
                  && t.challenges[k].status == Pending && t.challenges[j].purpose != Discoverable
                  && SamePurposeAndScope(t.challenges[j], t.challenges[k]) :: j == k
  }

  /** A step that changes no pending challenge and adds none keeps the scopes apart. */
  lemma NoneAdded(t: Tables, u: Tables)
    requires OnePendingPerScope(t)
    requires forall id :: id in u.challenges && u.challenges[id].status == Pending ==>
               id in t.challenges && t.challenges[id] == u.challenges[id]
    ensures OnePendingPerScope(u)
  {
  }

  lemma CreateKeepsScopes(t: Tables, c: CreateCall)
    requires OnePendingPerScope(t)
    ensures OnePendingPerScope(Create(t, c).0)
  {
    if Create(t, c).1 == Ok(true) {
      var u := Create(t, c).0;
      var id := c.id.value;
      forall k | k in u.challenges && k != id && u.challenges[k].status == Pending
        ensures k in t.challenges && t.challenges[k] == u.challenges[k]
        ensures u.challenges[k].purpose != Discoverable ==> !SamePurposeAndScope(u.challenges[k], u.challenges[id])
      {
      }
    }
  }

  lemma StepKeepsScopes(t: Tables, e: Event)
    requires OnePendingPerScope(t)
    ensures OnePendingPerScope(Step(t, e).0)
  {
    if e.Creates? {
      CreateKeepsScopes(t, e.c);
    } else {
      NoneAdded(t, Step(t, e).0);
    }
  }

  /** Over any run, a purpose other than the discoverable one has at most one pending
      challenge for each identity, session or setup. */
  lemma {:induction false} ScopesStayApart(t: Tables, events: seq<Event>)
    requires OnePendingPerScope(t)
    ensures OnePendingPerScope(Run(t, events))
    decreases |events|
  {
    if events != [] {
      ScopesStayApart(t, events[..|events| - 1]);
      StepKeepsScopes(Run(t, events[..|events| - 1]), events[|events| - 1]);
    }
  }

  // ---------------------------------------------------------------- what one success binds

  predicate Binds(t: Tables, f: FinalizeCall, clock: Clock, u: Tables, id: Id) {
    && id in t.challenges && f.credential.Some? && f.credential.value in t.credentials && f.session.Some?
    && var (ch, cred, session) := (t.challenges[id], t.credentials[f.credential.value], f.session.value);
    // a pending discoverable challenge, unexpired at both checks, and now consumed
    && ch.purpose == Discoverable && ch.status == Pending && Some(ch.digest) == f.digest
    && clock(FirstCheck).a < ch.expires && clock(SecondCheck).a < ch.expires
    && u.challenges == t.challenges[id := ch.(status := Consumed(clock(Of(9)).a))]
    // a credential in force, with the presented handle, of an identity under the expected authority
    && cred.active && cred.handle == f.handle
    && cred.identity in t.identities && t.identities[cred.identity].active
    && Some(t.identities[cred.identity].authority) == f.authority
    && t.identities[cred.identity].authority in t.authorities
    && t.authorities[t.identities[cred.identity].authority] == Authority(true, true)
    // one new session, for that identity, credential and epoch
    && session !in t.sessions && session in u.sessions
    && u.sessions == t.sessions[session := u.sessions[session]]
    && u.sessions[session].identity == cred.identity && u.sessions[session].credential == f.credential
    && u.sessions[session].epoch == t.identities[cred.identity].epoch
    && clock(SecondCheck).b < u.sessions[session].expires
    // no other credential touched
    && f.credential.value in u.credentials
    && u.credentials == t.credentials[f.credential.value := u.credentials[f.credential.value]]
  }

  /** A session is made only for the owner of the presented credential, under the expected
      native authority and with the handle the credential was registered with, from a pending
      challenge unexpired at both checks; nothing else changes. */
  lemma SuccessBinds(t: Tables, f: FinalizeCall, clock: Clock)
    requires Succeeds(t, f, clock)
    ensures exists id :: Binds(t, f, clock, Finalize(t, f, clock).0, id)
    ensures Finalize(t, f, clock).1 == Ok([t.credentials[f.credential.value].identity])
  {
    assert Binds(t, f, clock, Finalize(t, f, clock).0, FindChallenge(t, f, clock(Of(1)).a).value);
  }

  /** A finalizer that does not succeed leaves no trace. */
  lemma FailureLeavesNoTrace(t: Tables, f: FinalizeCall, clock: Clock)
    ensures !Succeeds(t, f, clock) ==> Finalize(t, f, clock).0 == t
  {
  }

  predicate CountsHold(a: Tables, b: Tables) {
    forall id :: id in a.credentials ==>
      id in b.credentials && a.credentials[id].signCount <= b.credentials[id].signCount
  }

  /** The rest of the system keeps credentials and lowers no signature counter. */
  predicate OthersKeepCounts(t: Tables, events: seq<Event>)
    decreases |events|
  {
    events == [] ||
    var (before, last) := (Run(t, events[..|events| - 1]), events[|events| - 1]);
    && OthersKeepCounts(t, events[..|events| - 1])
    && (last.Others? || last.OtherFinalizes? ==> CountsHold(before, Step(before, last).0))
  }

  /** A signature counter never goes down, whatever counters assertions present. */
  lemma {:induction false} SignCountNeverDecreases(t: Tables, events: seq<Event>)
    requires OthersKeepCounts(t, events)
    ensures CountsHold(t, Run(t, events))
    decreases |events|
  {
    if events != [] {
      SignCountNeverDecreases(t, events[..|events| - 1]);
      StepKeepsCounts(Run(t, events[..|events| - 1]), events[|events| - 1]);
    }
  }

  lemma StepKeepsCounts(t: Tables, e: Event)
    requires e.Others? || e.OtherFinalizes? ==> CountsHold(t, Step(t, e).0)
    ensures CountsHold(t, Step(t, e).0)
  {
  }
}
