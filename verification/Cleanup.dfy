/** Fenced cleanup of temporary proofs: immutable retention receipts become work items,
    workers claim them under a lease token and append at most one result a lease.
    Times are integer microseconds; identifiers and tokens are numbers, zero the nil one. */
module Cleanup {
  import opened Common

  type Id = nat
  type Token = nat

  const SECOND: int := 1_000_000
  const BATCH: nat := 100
  const PREFIX: string := "request-engine/identity-recovery/"

  datatype Key = Key(backend: nat, mount: string, reference: string, version: int, created: int)
  datatype Receipt = Receipt(deletion: int, expires: int)
  datatype Lease = Lease(token: Token, until: int)
  datatype Work = Work(key: Key, lease: Option<Lease>, attempts: nat, nextAttempt: int, terminal: bool)
  datatype ResultRow = ResultRow(
    work: Id, token: Token, attempt: int, outcome: string, admission: nat, digest: string)

  datatype Tables = Tables(receipts: map<Key, Receipt>, work: map<Id, Work>, results: seq<ResultRow>)

  datatype Error =
    | InvalidInput | CheckViolation | ReceiptConflict | UniqueViolation
    | NotAdmitted | NotReconciled

  /** `instant` is the clock reading at the start of the call, `locked` the work rows that
      other sessions hold; `ids` and `token` are what the database generates. */
  datatype ClaimCall = ClaimCall(
    backend: Option<nat>, mount: Option<string>, grace: Option<int>, lease: Option<int>,
    instant: int, locked: set<Id>, ids: seq<Id>, token: Token)

  datatype Claimed = Claimed(work: Id, token: Token, until: int, attempt: int, key: Key, receipt: Receipt)

  /** `now` is the reading the lease is checked against, `later` the one after the insert. */
  datatype FinishCall = FinishCall(
    work: Option<Id>, token: Option<Token>, outcome: Option<string>, admission: Option<nat>,
    digest: Option<string>, retry: Option<int>, now: int, later: int)

  // ---------------------------------------------------------------- receipts

  predicate IsMount(s: string) {
    1 <= |s| <= 64 && forall i :: 0 <= i < |s| ==>
      'a' <= s[i] <= 'z' || 'A' <= s[i] <= 'Z' || '0' <= s[i] <= '9' || s[i] == '_' || s[i] == '-'
  }

  predicate IsUuid(s: string) {
    |s| == 36 && forall i :: 0 <= i < 36 ==> if i in {8, 13, 18, 23} then s[i] == '-' else IsHexDigit(s[i])
  }

  predicate IsReference(s: string) {
    && |PREFIX| + 38 <= |s| <= 128
    && s[..|PREFIX|] == PREFIX
    && IsUuid(s[|PREFIX|..|PREFIX| + 36])
    && s[|PREFIX| + 36] == '/'
    && '1' <= s[|PREFIX| + 37] <= '9'
    && forall i :: |PREFIX| + 37 < i < |s| ==> '0' <= s[i] <= '9'
  }

  predicate Recordable(key: Key, receipt: Receipt) {
    && key.backend != 0 && IsMount(key.mount) && IsReference(key.reference) && key.version > 0
    && key.created < receipt.deletion <= receipt.expires
  }

  function Record(t: Tables, key: Key, receipt: Receipt): (Tables, Option<Error>) {
    if !Recordable(key, receipt) then (t, Some(CheckViolation))
    else if key !in t.receipts then (t.(receipts := t.receipts[key := receipt]), None)
    else if t.receipts[key] != receipt then (t, Some(ReceiptConflict))
    else (t, None)
  }

  // ---------------------------------------------------------------- the order of due receipts

  /** Receipts of one mount, oldest expiry first. */
  predicate Before(receipts: map<Key, Receipt>, a: Key, b: Key)
    requires a in receipts && b in receipts
  {
    var (ea, eb) := (receipts[a].expires, receipts[b].expires);
    || ea < eb
    || (ea == eb && a.created < b.created)
    || (ea == eb && a.created == b.created && TextLess(a.reference, b.reference))
    || (ea == eb && a.created == b.created && a.reference == b.reference && a.version < b.version)
  }

  lemma BeforeTransitive(receipts: map<Key, Receipt>, a: Key, b: Key, c: Key)
    requires a in receipts && b in receipts && c in receipts
    requires Before(receipts, a, b) && Before(receipts, b, c)
    ensures Before(receipts, a, c)
  {
    TextOrder(a.reference, b.reference, c.reference);
  }

  predicate IsEarliest(receipts: map<Key, Receipt>, due: set<Key>, k: Key)
    requires due <= receipts.Keys
  {
    k in due && forall j :: j in due ==> j == k || Before(receipts, k, j)
  }

  lemma BeforeOrders(receipts: map<Key, Receipt>, due: set<Key>, backend: nat, mount: string,
                     before: (Key, Key) -> bool)
    requires due <= receipts.Keys
    requires forall k :: k in due ==> k.backend == backend && k.mount == mount
    requires forall a, b | a in due && b in due :: before(a, b) == Before(receipts, a, b)
    ensures Orders(before, due)
  {
    forall a, b | a in due && b in due
      ensures !(before(a, b) && before(b, a)) && (a != b ==> before(a, b) || before(b, a))
    {
      TextOrder(a.reference, b.reference, a.reference);
    }
    forall a, b, c | a in due && b in due && c in due && before(a, b) && before(b, c) ensures before(a, c) {
      BeforeTransitive(receipts, a, b, c);
    }
  }

  lemma EarliestExists(receipts: map<Key, Receipt>, due: set<Key>, backend: nat, mount: string)
    requires due <= receipts.Keys && due != {}
    requires forall k :: k in due ==> k.backend == backend && k.mount == mount
    ensures exists k :: IsEarliest(receipts, due, k)
    ensures forall j, k | IsEarliest(receipts, due, j) && IsEarliest(receipts, due, k) :: j == k
  {
    var before := (a: Key, b: Key) => a in receipts && b in receipts && Before(receipts, a, b);
    BeforeOrders(receipts, due, backend, mount, before);
    assert IsEarliest(receipts, due, Least(before, due));
    forall j, k | IsEarliest(receipts, due, j) && IsEarliest(receipts, due, k) ensures j == k {
      assert before(j, k) ==> !before(k, j);
    }
  }

  function Earliest(receipts: map<Key, Receipt>, due: set<Key>, backend: nat, mount: string): (k: Key)
    requires due <= receipts.Keys && due != {}
    requires forall k :: k in due ==> k.backend == backend && k.mount == mount
    ensures IsEarliest(receipts, due, k)
  {
    EarliestExists(receipts, due, backend, mount);
    var k :| IsEarliest(receipts, due, k); k
  }

  /** ORDER BY with a LIMIT: the first `n` due receipts. */
  function FirstDue(receipts: map<Key, Receipt>, due: set<Key>, backend: nat, mount: string, n: nat): (keys: seq<Key>)
    requires due <= receipts.Keys
    requires forall k :: k in due ==> k.backend == backend && k.mount == mount
    ensures |keys| <= n
    decreases n
  {
    if n == 0 || due == {} then []
    else
      var k := Earliest(receipts, due, backend, mount);
      [k] + FirstDue(receipts, due - {k}, backend, mount, n - 1)
  }

  // ---------------------------------------------------------------- claiming

  predicate ValidClaim(c: ClaimCall) {
    && c.backend.Some? && c.backend.value != 0
    && c.mount.Some? && IsMount(c.mount.value)
    && c.grace.Some? && 1 <= c.grace.value <= 604800
    && c.lease.Some? && 10 <= c.lease.value <= 3600
  }

  predicate Mine(c: ClaimCall, key: Key) {
    Some(key.backend) == c.backend && Some(key.mount) == c.mount
  }

  /** Past its expiry by the caller's grace. */
  predicate Due(t: Tables, c: ClaimCall, key: Key)
    requires ValidClaim(c)
  {
    key in t.receipts && Mine(c, key) && t.receipts[key].expires + c.grace.value * SECOND <= c.instant
  }

  predicate HasWork(t: Tables, key: Key) {
    exists id :: id in t.work && t.work[id].key == key
  }

  function MissingDue(t: Tables, c: ClaimCall): set<Key>
    requires ValidClaim(c)
  {
    set key | key in t.receipts && Due(t, c, key) && !HasWork(t, key)
  }

  function Fill(t: Tables, c: ClaimCall): (keys: seq<Key>)
    requires ValidClaim(c)
    ensures |keys| <= BATCH
  {
    FirstDue(t.receipts, MissingDue(t, c), c.backend.value, c.mount.value, BATCH)
  }

  /** The work table with one new row for each of the first `n` keys. */
  function WithRows(work: map<Id, Work>, keys: seq<Key>, ids: seq<Id>, instant: int, n: nat): map<Id, Work>
    requires n <= |keys| && n <= |ids|
  {
    if n == 0 then work
    else WithRows(work, keys, ids, instant, n - 1)[ids[n - 1] := Work(keys[n - 1], None, 0, instant, false)]
  }

  function Filled(t: Tables, c: ClaimCall): Tables
    requires ValidClaim(c) && |c.ids| == BATCH
  {
    var keys := Fill(t, c);
    t.(work := WithRows(t.work, keys, c.ids, c.instant, |keys|))
  }

  predicate Claimable(t: Tables, c: ClaimCall, id: Id)
    requires ValidClaim(c)
  {
    && id in t.work && id !in c.locked
    && !t.work[id].terminal
    && t.work[id].nextAttempt <= c.instant
    && (t.work[id].lease.None? || t.work[id].lease.value.until <= c.instant)
    && Due(t, c, t.work[id].key)
  }

  function Candidates(t: Tables, c: ClaimCall): set<Id>
    requires ValidClaim(c)
  {
    set id | id in t.work && Claimable(t, c, id)
  }

  predicate IsNext(work: map<Id, Work>, s: set<Id>, id: Id)
    requires s <= work.Keys
  {
    id in s && forall j :: j in s ==>
      work[id].nextAttempt < work[j].nextAttempt || (work[id].nextAttempt == work[j].nextAttempt && id <= j)
  }

  lemma NextExists(work: map<Id, Work>, s: set<Id>)
    requires s <= work.Keys && s != {}
    ensures exists id :: IsNext(work, s, id)
  {
    var sooner := (a: Id, b: Id) => a in work && b in work
      && (work[a].nextAttempt < work[b].nextAttempt || (work[a].nextAttempt == work[b].nextAttempt && a < b));
    assert Orders(sooner, s);
    assert IsNext(work, s, Least(sooner, s));
  }

  /** ORDER BY next_attempt_at, id LIMIT 1. */
  function Next(work: map<Id, Work>, s: set<Id>): (id: Id)
    requires s <= work.Keys && s != {}
    ensures IsNext(work, s, id)
  {
    NextExists(work, s);
    var id :| IsNext(work, s, id); id
  }

  function Leased(t: Tables, c: ClaimCall, id: Id): Tables
    requires ValidClaim(c) && id in t.work
  {
    t.(work := t.work[id := t.work[id].(lease := Some(Lease(c.token, c.instant + c.lease.value * SECOND)),
                                        attempts := t.work[id].attempts + 1)])
  }

  /** What a claim answers of the row it has leased. */
  function ClaimedRow(t: Tables, c: ClaimCall, id: Id): Claimed
    requires id in t.work && t.work[id].lease.Some? && t.work[id].key in t.receipts
  {
    Claimed(id, c.token, t.work[id].lease.value.until, t.work[id].attempts,
            t.work[id].key, t.receipts[t.work[id].key])
  }

  function Claim(t: Tables, c: ClaimCall): (Tables, Result<Option<Claimed>, Error>)
    requires |c.ids| == BATCH
  {
    if !ValidClaim(c) then (t, Err(InvalidInput))
    else
      var u := Filled(t, c);
      if Candidates(u, c) == {} then (u, Ok(None))
      else
        var id := Next(u.work, Candidates(u, c));
        var v := Leased(u, c, id);
        (v, Ok(Some(ClaimedRow(v, c, id))))
  }

  // ---------------------------------------------------------------- finishing

  predicate IsTerminal(outcome: string) {
    outcome in {"destroyed", "absent", "unverified", "denied"}
  }

  predicate IsOutcome(outcome: string) {
    IsTerminal(outcome) || outcome in {"unresolved", "retained"}
  }

  predicate ValidFinish(f: FinishCall) {
    && f.work.Some? && f.token.Some?
    && f.outcome.Some? && IsOutcome(f.outcome.value)
    && f.admission.Some? && f.admission.value != 0
    && f.digest.Some? && IsDigest(f.digest.value)
    && f.retry.Some? && 1 <= f.retry.value <= 86400
  }

  /** The token is the work's current lease and the lease has not run out. */
  predicate Holds(t: Tables, id: Id, token: Token, now: int) {
    && id in t.work && !t.work[id].terminal
    && t.work[id].lease.Some? && t.work[id].lease.value.token == token
    && now < t.work[id].lease.value.until
  }

  /** The primary key (work, token) and the unique (work, attempt) of the result table. */
  predicate Duplicates(results: seq<ResultRow>, row: ResultRow) {
    exists i :: 0 <= i < |results| && results[i].work == row.work
             && (results[i].token == row.token || results[i].attempt == row.attempt)
  }

  function ResultOf(t: Tables, f: FinishCall): ResultRow
    requires ValidFinish(f) && f.work.value in t.work
  {
    ResultRow(f.work.value, f.token.value, t.work[f.work.value].attempts, f.outcome.value,
              f.admission.value, f.digest.value)
  }

  function Finish(t: Tables, f: FinishCall): (Tables, Result<bool, Error>) {
    if !ValidFinish(f) then (t, Err(InvalidInput))
    else if !Holds(t, f.work.value, f.token.value, f.now) then (t, Ok(false))
    else if Duplicates(t.results, ResultOf(t, f)) then (t, Err(UniqueViolation))
    else
      var done := t.work[f.work.value].(terminal := IsTerminal(f.outcome.value), lease := None,
                                        nextAttempt := f.later + f.retry.value * SECOND);
      (t.(results := t.results + [ResultOf(t, f)], work := t.work[f.work.value := done]), Ok(true))
  }

  // ---------------------------------------------------------------- the worker

  /** What the worker found out about the item it claimed, nothing when its reconciliation
      raised, and the clock when it reports. The flags say whether its admission is current
      when it claims and when it finishes. */
  datatype Report = Report(
    admitsClaim: bool, outcome: Option<string>, admitsFinish: bool,
    admission: nat, digest: string, retry: int, now: int, later: int)

  datatype Answer = Idle | Fenced | Reported(outcome: string)

  function ReportOf(k: Claimed, p: Report): FinishCall {
    FinishCall(Some(k.work), Some(k.token), p.outcome, Some(p.admission), Some(p.digest), Some(p.retry),
               p.now, p.later)
  }

  /** One round of the worker: a claim and its finish, each a transaction of its own. */
  function Once(t: Tables, c: ClaimCall, p: Report): (Tables, Result<Answer, Error>)
    requires |c.ids| == BATCH
  {
    if !p.admitsClaim then (t, Err(NotAdmitted))
    else
      var (u, claimed) := Claim(t, c);
      match claimed
      case Err(e) => (u, Err(e))
      case Ok(None) => (u, Ok(Idle))
      case Ok(Some(k)) =>
        if p.outcome.None? then (u, Err(NotReconciled))
        else if !p.admitsFinish then (u, Err(NotAdmitted))
        else
          var (v, done) := Finish(u, ReportOf(k, p));
          match done
          case Err(e) => (v, Err(e))
          case Ok(committed) => (v, Ok(if committed then Reported(p.outcome.value) else Fenced))
  }

  // ---------------------------------------------------------------- the tables

  /** The three tables, changed in place by the commands. */
  class CleanupStore {
    var receipts: map<Key, Receipt>
    var work: map<Id, Work>
    var results: seq<ResultRow>

    function Stored(): Tables reads this {
      Tables(receipts, work, results)
    }

    constructor ()
      ensures Stored() == Tables(map[], map[], [])
    {
      receipts, work, results := map[], map[], [];
    }

    method RecordRetention(key: Key, receipt: Receipt) returns (error: Option<Error>)
      modifies this`receipts
      ensures (Stored(), error) == Record(old(Stored()), key, receipt)
    {
      if !Recordable(key, receipt) {
        return Some(CheckViolation);
      }
      if key !in receipts {
        receipts := receipts[key := receipt];
      }
      var retained := receipts[key];
      if retained.deletion != receipt.deletion || retained.expires != receipt.expires {
        return Some(ReceiptConflict);
      }
      return None;
    }

    /** The INSERT of the claim, one selected receipt after the other. */
    method FillWork(c: ClaimCall)
      requires ValidClaim(c) && |c.ids| == BATCH
      modifies this`work
      ensures Stored() == Filled(old(Stored()), c)
    {
      var keys := Fill(Stored(), c);
      for i := 0 to |keys|
        invariant work == WithRows(old(work), keys, c.ids, c.instant, i)
      {
        work := work[c.ids[i] := Work(keys[i], None, 0, c.instant, false)];
      }
    }

    method ClaimCleanup(c: ClaimCall) returns (reply: Result<Option<Claimed>, Error>)
      requires |c.ids| == BATCH
      modifies this`work
      ensures (Stored(), reply) == Claim(old(Stored()), c)
    {
      if !ValidClaim(c) {
        return Err(InvalidInput);
      }
      FillWork(c);
      var candidates := Candidates(Stored(), c);
      if candidates == {} {
        return Ok(None);
      }
      reply := LeaseTo(c, Next(work, candidates));
    }

    /** The UPDATE of the claim and the row it answers. */
    method LeaseTo(c: ClaimCall, chosen: Id) returns (reply: Result<Option<Claimed>, Error>)
      requires ValidClaim(c) && Claimable(Stored(), c, chosen)
      modifies this`work
      ensures Stored() == Leased(old(Stored()), c, chosen)
      ensures reply == Ok(Some(ClaimedRow(Stored(), c, chosen)))
    {
      var row := work[chosen];
      work := work[chosen := row.(lease := Some(Lease(c.token, c.instant + c.lease.value * SECOND)),
                                  attempts := row.attempts + 1)];
      return Ok(Some(Claimed(chosen, work[chosen].lease.value.token, work[chosen].lease.value.until,
                             work[chosen].attempts, row.key, receipts[row.key])));
    }

    method FinishCleanup(f: FinishCall) returns (reply: Result<bool, Error>)
      modifies this`work, this`results
      ensures (Stored(), reply) == Finish(old(Stored()), f)
    {
      if !ValidFinish(f) {
        return Err(InvalidInput);
      }
      var id := f.work.value;
      if id !in work || work[id].terminal || work[id].lease.None?
         || work[id].lease.value.token != f.token.value || work[id].lease.value.until <= f.now {
        return Ok(false);
      }
      var row := ResultRow(id, f.token.value, work[id].attempts, f.outcome.value, f.admission.value, f.digest.value);
      if Duplicates(results, row) {
        return Err(UniqueViolation);
      }
      results := results + [row];
      work := work[id := work[id].(terminal := IsTerminal(f.outcome.value), lease := None,
                                   nextAttempt := f.later + f.retry.value * SECOND)];
      return Ok(true);
    }

    method RunOnce(c: ClaimCall, p: Report) returns (answer: Result<Answer, Error>)
      requires |c.ids| == BATCH
      modifies this`work, this`results
      ensures (Stored(), answer) == Once(old(Stored()), c, p)
    {
      if !p.admitsClaim {
        return Err(NotAdmitted);
      }
      var claimed := ClaimCleanup(c);
      if claimed.Err? {
        return Err(claimed.error);
      }
      if claimed.value.None? {
        return Ok(Idle);
      }
      if p.outcome.None? {
        return Err(NotReconciled);
      }
      if !p.admitsFinish {
        return Err(NotAdmitted);
      }
      var done := FinishCleanup(ReportOf(claimed.value.value, p));
      if done.Err? {
        return Err(done.error);
      }
      return Ok(if done.value then Reported(p.outcome.value) else Fenced);
    }
  }
}
