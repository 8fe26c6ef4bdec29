/** Runs of records, claims and finishes in any order: which lease may write a result. */
module CleanupRuns {
  import opened Common
  import opened Cleanup

  datatype Event =
    | Records(key: Key, receipt: Receipt)
    | Claims(c: ClaimCall)
    | Finishes(f: FinishCall)

  datatype Issue = Issue(work: Id, attempt: int, until: int)

  /** The tables, and what has happened: every token issued, and the leases a later claim
      overwrote, in order. */
  datatype World = World(t: Tables, issued: map<Token, Issue>, overwritten: seq<(Id, Token)>)

  predicate IsInitial(w: World) {
    w.t.receipts == map[] && w.t.work == map[] && w.t.results == [] && w.issued == map[] && w.overwritten == []
  }

  function Reply(w: World, c: ClaimCall): Option<Claimed>
    requires |c.ids| == BATCH
  {
    match Claim(w.t, c).1
    case Ok(claimed) => claimed
    case Err(_) => None
  }

  function AfterClaim(w: World, c: ClaimCall): World
    requires |c.ids| == BATCH
  {
    var t := Claim(w.t, c).0;
    match Reply(w, c)
    case None => w.(t := t)
    case Some(k) =>
      World(t, w.issued[k.token := Issue(k.work, k.attempt, k.until)],
            if k.work in w.t.work && w.t.work[k.work].lease.Some?
            then w.overwritten + [(k.work, w.t.work[k.work].lease.value.token)] else w.overwritten)
  }

  /** Generated identifiers and tokens are new. */
  predicate Legal(w: World, e: Event) {
    match e
    case Records(_, _) => true
    case Claims(c) =>
      && |c.ids| == BATCH
      && (forall i, j :: 0 <= i < j < BATCH ==> c.ids[i] != c.ids[j])
      && (forall i :: 0 <= i < BATCH ==> c.ids[i] !in w.t.work)
      && c.token !in w.issued
    case Finishes(_) => true
  }

  function Step(w: World, e: Event): World
    requires Legal(w, e)
  {
    match e
    case Records(key, receipt) => w.(t := Record(w.t, key, receipt).0)
    case Claims(c) => AfterClaim(w, c)
    case Finishes(f) => w.(t := Finish(w.t, f).0)
  }

  predicate LegalRun(w: World, events: seq<Event>)
    decreases |events|, 0
  {
    events == [] ||
    (LegalRun(w, events[..|events| - 1]) && Legal(Run(w, events[..|events| - 1]), events[|events| - 1]))
  }

  function Run(w: World, events: seq<Event>): World
    requires LegalRun(w, events)
    decreases |events|, 1
  {
    if events == [] then w else Step(Run(w, events[..|events| - 1]), events[|events| - 1])
  }

  // ---------------------------------------------------------------- filling the work table

  lemma {:induction false} FirstDueIs(receipts: map<Key, Receipt>, due: set<Key>, backend: nat, mount: string, n: nat)
    requires due <= receipts.Keys
    requires forall k :: k in due ==> k.backend == backend && k.mount == mount
    ensures var keys := FirstDue(receipts, due, backend, mount, n);
            && (forall i :: 0 <= i < |keys| ==> keys[i] in due)
            && (forall i, j | 0 <= i < j < |keys| :: keys[i] != keys[j] && Before(receipts, keys[i], keys[j]))
            && (forall k | k in due && k !in keys ::
                  |keys| == n && forall i :: 0 <= i < n ==> Before(receipts, keys[i], k))
    decreases n
  {
    if n > 0 && due != {} {
      var first := Earliest(receipts, due, backend, mount);
      FirstDueIs(receipts, due - {first}, backend, mount, n - 1);
      var rest := FirstDue(receipts, due - {first}, backend, mount, n - 1);
      var keys := [first] + rest;
      assert forall k :: k in keys <==> k == first || k in rest;
    }
  }

  lemma FillIs(t: Tables, c: ClaimCall)
    requires ValidClaim(c)
    ensures forall i :: 0 <= i < |Fill(t, c)| ==> Due(t, c, Fill(t, c)[i]) && !HasWork(t, Fill(t, c)[i])
    ensures forall i, j :: 0 <= i < j < |Fill(t, c)| ==> Fill(t, c)[i] != Fill(t, c)[j]
    ensures MissingDue(t, c) != {} ==> |Fill(t, c)| > 0
  {
    FirstDueIs(t.receipts, MissingDue(t, c), c.backend.value, c.mount.value, BATCH);
    if key :| key in MissingDue(t, c) {
      assert key in Fill(t, c) || |Fill(t, c)| == BATCH;
    }
  }

  lemma {:induction false} WithRowsIs(work: map<Id, Work>, keys: seq<Key>, ids: seq<Id>, instant: int, n: nat)
    requires n <= |keys| <= |ids|
    requires forall i, j :: 0 <= i < j < |ids| ==> ids[i] != ids[j]
    requires forall i :: 0 <= i < |ids| ==> ids[i] !in work
    ensures var all := WithRows(work, keys, ids, instant, n);
            && (forall id :: id in all ==> id in work || exists i :: 0 <= i < n && id == ids[i])
            && (forall id :: id in work ==> id in all && all[id] == work[id])
            && (forall i :: 0 <= i < n ==> ids[i] in all && all[ids[i]] == Work(keys[i], None, 0, instant, false))
  {
    if n > 0 { WithRowsIs(work, keys, ids, instant, n - 1); }
  }

  /** What the INSERT of a claim leaves of the other rows, and what it adds. */
  lemma FilledIs(w: World, c: ClaimCall)
    requires Legal(w, Claims(c)) && ValidClaim(c)
    ensures var u := Filled(w.t, c).work;
            && (forall id :: id in w.t.work ==> id in u && u[id] == w.t.work[id])
            && (forall id :: id in u && id !in w.t.work ==>
                  u[id].lease.None? && u[id].attempts == 0 && !u[id].terminal && u[id].nextAttempt == c.instant
                  && Due(w.t, c, u[id].key) && !HasWork(w.t, u[id].key))
            && (forall id, jd :: id in u && jd in u && id !in w.t.work && jd !in w.t.work && id != jd ==>
                  u[id].key != u[jd].key)
            && (MissingDue(w.t, c) != {} ==> exists id :: id in u && id !in w.t.work)
  {
    var keys := Fill(w.t, c);
    FillIs(w.t, c);
    WithRowsIs(w.t.work, keys, c.ids, c.instant, |keys|);
    if MissingDue(w.t, c) != {} { assert c.ids[0] in Filled(w.t, c).work; }
  }

  // ---------------------------------------------------------------- the invariant

  predicate LeasesInv(w: World) {
    && (forall id :: id in w.t.work && w.t.work[id].lease.Some? ==>
          && !w.t.work[id].terminal
          && w.t.work[id].lease.value.token in w.issued
          && w.issued[w.t.work[id].lease.value.token] ==
             Issue(id, w.t.work[id].attempts, w.t.work[id].lease.value.until))
    && (forall k :: k in w.issued ==>
          w.issued[k].work in w.t.work && 1 <= w.issued[k].attempt <= w.t.work[w.issued[k].work].attempts)
    && (forall j, k :: j in w.issued && k in w.issued && j != k && w.issued[j].work == w.issued[k].work ==>
          w.issued[j].attempt != w.issued[k].attempt)
  }

  predicate Current(t: Tables, id: Id, token: Token) {
    id in t.work && t.work[id].lease.Some? && t.work[id].lease.value.token == token
  }

  /** A result of a token that was issued for its work and attempt, and is no lease any more. */
  predicate ResultStands(w: World, row: ResultRow) {
    && row.token in w.issued && w.issued[row.token].work == row.work && w.issued[row.token].attempt == row.attempt
    && !Current(w.t, row.work, row.token)
  }

  predicate ResultsInv(w: World) {
    && (forall i :: 0 <= i < |w.t.results| ==> ResultStands(w, w.t.results[i]))
    && (forall i, j :: 0 <= i < j < |w.t.results| ==> w.t.results[i].token != w.t.results[j].token)
  }

  predicate Committed(results: seq<ResultRow>, token: Token) {
    exists i :: 0 <= i < |results| && results[i].token == token
  }

  predicate OverwrittenInv(w: World) {
    forall i :: 0 <= i < |w.overwritten| ==>
      && w.overwritten[i].1 in w.issued && w.issued[w.overwritten[i].1].work == w.overwritten[i].0
      && !Current(w.t, w.overwritten[i].0, w.overwritten[i].1)
      && !Committed(w.t.results, w.overwritten[i].1)
  }

  /** One work item a receipt: the unique and foreign keys of the work table. */
  predicate KeysInv(w: World) {
    && (forall id :: id in w.t.work ==> w.t.work[id].key in w.t.receipts)
    && (forall id, jd :: id in w.t.work && jd in w.t.work && id != jd ==> w.t.work[id].key != w.t.work[jd].key)
  }

  function ResultCount(results: seq<ResultRow>, id: Id): nat {
    if results == [] then 0
    else ResultCount(results[..|results| - 1], id) + (if results[|results| - 1].work == id then 1 else 0)
  }

  function OverwriteCount(overwritten: seq<(Id, Token)>, id: Id): nat {
    if overwritten == [] then 0
    else OverwriteCount(overwritten[..|overwritten| - 1], id)
         + (if overwritten[|overwritten| - 1].0 == id then 1 else 0)
  }

  function Accounted(w: World, id: Id): nat
    requires id in w.t.work
  {
    ResultCount(w.t.results, id) + OverwriteCount(w.overwritten, id) + (if w.t.work[id].lease.Some? then 1 else 0)
  }

  ghost predicate CountsInv(w: World) {
    && (forall id :: id in w.t.work ==> w.t.work[id].attempts == Accounted(w, id))
    && (forall id :: id !in w.t.work ==> ResultCount(w.t.results, id) == 0 && OverwriteCount(w.overwritten, id) == 0)
  }

  ghost predicate Inv(w: World) {
    LeasesInv(w) && ResultsInv(w) && OverwrittenInv(w) && KeysInv(w) && CountsInv(w)
  }

  // ---------------------------------------------------------------- each step keeps it

  lemma RecordKeepsInv(w: World, key: Key, receipt: Receipt)
    requires Inv(w)
    ensures Inv(Step(w, Records(key, receipt)))
  {
    var v := Step(w, Records(key, receipt));
    SameLeases(w, v);
    SameResults(w, v);
    assert forall id :: id in w.t.work ==> Accounted(v, id) == Accounted(w, id);
  }

  /** Only receipts differ. */
  predicate SameWork(w: World, v: World) {
    && v.t.work == w.t.work && v.t.results == w.t.results
    && v.issued == w.issued && v.overwritten == w.overwritten
  }

  lemma SameLeases(w: World, v: World)
    requires SameWork(w, v) && LeasesInv(w)
    ensures LeasesInv(v)
  {
  }

  lemma SameResults(w: World, v: World)
    requires SameWork(w, v) && ResultsInv(w) && OverwrittenInv(w)
    ensures ResultsInv(v) && OverwrittenInv(v)
  {
    forall i | 0 <= i < |v.t.results| ensures ResultStands(v, v.t.results[i]) {
      assert ResultStands(w, w.t.results[i]);
    }
  }

  lemma FillKeepsInv(w: World, c: ClaimCall)
    requires Inv(w) && Legal(w, Claims(c)) && ValidClaim(c)
    ensures Inv(w.(t := Filled(w.t, c)))
  {
    FilledIs(w, c);
    var v := w.(t := Filled(w.t, c));
    forall id | id in v.t.work ensures v.t.work[id].attempts == Accounted(v, id) {
      if id in w.t.work { assert Accounted(w, id) == Accounted(v, id); }
    }
    FillKeepsLeases(w, c);
  }

  lemma FillKeepsLeases(w: World, c: ClaimCall)
    requires Inv(w) && Legal(w, Claims(c)) && ValidClaim(c)
    ensures var v := w.(t := Filled(w.t, c)); LeasesInv(v) && ResultsInv(v) && OverwrittenInv(v)
  {
    FilledIs(w, c);
    var v := w.(t := Filled(w.t, c));
    forall id, token | id in w.t.work ensures Current(v.t, id, token) <==> Current(w.t, id, token) {
    }
  }

  /** A claim of `id` in a world whose work table already holds it. */
  function WithLease(w: World, c: ClaimCall, id: Id): World
    requires ValidClaim(c) && id in w.t.work
  {
    var v := Leased(w.t, c, id);
    World(v, w.issued[c.token := Issue(id, v.work[id].attempts, v.work[id].lease.value.until)],
          if w.t.work[id].lease.Some? then w.overwritten + [(id, w.t.work[id].lease.value.token)] else w.overwritten)
  }

  lemma LeaseKeepsLeasesInv(w: World, c: ClaimCall, id: Id)
    requires LeasesInv(w) && ValidClaim(c) && id in w.t.work && !w.t.work[id].terminal && c.token !in w.issued
    ensures LeasesInv(WithLease(w, c, id))
  {
  }

  lemma LeaseKeepsResults(w: World, c: ClaimCall, id: Id)
    requires Inv(w) && ValidClaim(c) && id in w.t.work && !w.t.work[id].terminal && c.token !in w.issued
    ensures ResultsInv(WithLease(w, c, id)) && OverwrittenInv(WithLease(w, c, id)) && KeysInv(WithLease(w, c, id))
  {
    var v := WithLease(w, c, id);
    assert v.t.results == w.t.results;
    forall i | 0 <= i < |v.overwritten|
      ensures v.overwritten[i].1 in v.issued && v.issued[v.overwritten[i].1].work == v.overwritten[i].0
      ensures !Current(v.t, v.overwritten[i].0, v.overwritten[i].1)
      ensures !Committed(v.t.results, v.overwritten[i].1)
    {
      if i < |w.overwritten| { assert v.overwritten[i] == w.overwritten[i]; }
    }
  }

  lemma LeaseKeepsCounts(w: World, c: ClaimCall, id: Id)
    requires Inv(w) && ValidClaim(c) && id in w.t.work
    ensures CountsInv(WithLease(w, c, id))
  {
    var v := WithLease(w, c, id);
    if w.t.work[id].lease.Some? {
      assert v.overwritten[..|v.overwritten| - 1] == w.overwritten;
    }
    forall jd | jd in v.t.work ensures v.t.work[jd].attempts == Accounted(v, jd) {
      assert w.t.work[jd].attempts == Accounted(w, jd);
    }
  }

  /** A claim is the fill followed, when something is claimable, by one lease. */
  lemma ClaimIs(w: World, c: ClaimCall)
    requires Legal(w, Claims(c)) && ValidClaim(c)
    ensures var u := w.(t := Filled(w.t, c));
            && (Candidates(u.t, c) == {} ==> Step(w, Claims(c)) == u)
            && (Candidates(u.t, c) != {} ==>
                  Step(w, Claims(c)) == WithLease(u, c, Next(u.t.work, Candidates(u.t, c))))
  {
    FilledIs(w, c);
  }

  lemma LeaseKeepsInv(w: World, c: ClaimCall, id: Id)
    requires Inv(w) && ValidClaim(c) && id in w.t.work && !w.t.work[id].terminal && c.token !in w.issued
    ensures Inv(WithLease(w, c, id))
  {
    LeaseKeepsLeasesInv(w, c, id);
    LeaseKeepsResults(w, c, id);
    LeaseKeepsCounts(w, c, id);
  }

  lemma ClaimKeepsInv(w: World, c: ClaimCall)
    requires Inv(w) && Legal(w, Claims(c))
    ensures Inv(Step(w, Claims(c)))
  {
    if ValidClaim(c) {
      FillKeepsInv(w, c);
      ClaimIs(w, c);
      var u := w.(t := Filled(w.t, c));
      if Candidates(u.t, c) != {} {
        var id := Next(u.t.work, Candidates(u.t, c));
        assert Claimable(u.t, c, id);
        LeaseKeepsInv(u, c, id);
      }
    }
  }

  /** The unique keys of the result table never stop a finish. */
  lemma NeverDuplicates(w: World, f: FinishCall)
    requires Inv(w)
    ensures Finish(w.t, f).1 != Err(UniqueViolation)
  {
    if ValidFinish(f) && Holds(w.t, f.work.value, f.token.value, f.now) {
      var row := ResultOf(w.t, f);
      forall i | 0 <= i < |w.t.results| && w.t.results[i].work == row.work
        ensures w.t.results[i].token != row.token && w.t.results[i].attempt != row.attempt
      {
        assert !Current(w.t, row.work, w.t.results[i].token);
      }
    }
  }

  /** What a finish that answers true found and leaves. */
  lemma FinishIs(w: World, f: FinishCall)
    requires Finish(w.t, f).1 == Ok(true)
    ensures var v := Step(w, Finishes(f));
            && ValidFinish(f) && Current(w.t, f.work.value, f.token.value)
            && v.issued == w.issued && v.overwritten == w.overwritten && v.t.receipts == w.t.receipts
            && v.t.results == w.t.results + [ResultOf(w.t, f)]
            && v.t.work == w.t.work[f.work.value := v.t.work[f.work.value]]
            && v.t.work[f.work.value].lease.None?
            && v.t.work[f.work.value].attempts == w.t.work[f.work.value].attempts
            && v.t.work[f.work.value].key == w.t.work[f.work.value].key
  {
  }

  lemma FinishKeepsInv(w: World, f: FinishCall)
    requires Inv(w)
    ensures Inv(Step(w, Finishes(f)))
  {
    if Finish(w.t, f).1 == Ok(true) {
      FinishIs(w, f);
      FinishKeepsLeases(w, f);
      FinishKeepsCounts(w, f);
      FinishKeepsResults(w, f);
      FinishKeepsOverwritten(w, f);
    }
  }

  lemma FinishKeepsLeases(w: World, f: FinishCall)
    requires LeasesInv(w) && KeysInv(w) && Finish(w.t, f).1 == Ok(true)
    ensures LeasesInv(Step(w, Finishes(f))) && KeysInv(Step(w, Finishes(f)))
  {
    FinishIs(w, f);
  }

  lemma FinishKeepsCounts(w: World, f: FinishCall)
    requires CountsInv(w) && Finish(w.t, f).1 == Ok(true)
    ensures CountsInv(Step(w, Finishes(f)))
  {
    FinishIs(w, f);
    var v := Step(w, Finishes(f));
    assert v.t.results[..|v.t.results| - 1] == w.t.results;
    forall jd | jd in v.t.work ensures v.t.work[jd].attempts == Accounted(v, jd) {
      assert w.t.work[jd].attempts == Accounted(w, jd);
    }
  }

  lemma TokenIsNew(w: World, f: FinishCall)
    requires ResultsInv(w) && OverwrittenInv(w) && LeasesInv(w) && Finish(w.t, f).1 == Ok(true)
    ensures !Committed(w.t.results, f.token.value)
    ensures forall i :: 0 <= i < |w.overwritten| ==> w.overwritten[i].1 != f.token.value
  {
    FinishIs(w, f);
    forall i | 0 <= i < |w.t.results| ensures w.t.results[i].token != f.token.value {
      assert !Current(w.t, w.t.results[i].work, w.t.results[i].token);
    }
    forall i | 0 <= i < |w.overwritten| ensures w.overwritten[i].1 != f.token.value {
      assert !Current(w.t, w.overwritten[i].0, w.overwritten[i].1);
    }
  }

  lemma NewResultStands(w: World, f: FinishCall)
    requires LeasesInv(w) && Finish(w.t, f).1 == Ok(true)
    ensures ResultStands(Step(w, Finishes(f)), ResultOf(w.t, f))
  {
    FinishIs(w, f);
  }

  lemma OldResultStands(w: World, f: FinishCall, row: ResultRow)
    requires Finish(w.t, f).1 == Ok(true) && ResultStands(w, row)
    ensures ResultStands(Step(w, Finishes(f)), row)
  {
    FinishIs(w, f);
  }

  lemma FinishKeepsResults(w: World, f: FinishCall)
    requires LeasesInv(w) && ResultsInv(w) && OverwrittenInv(w) && Finish(w.t, f).1 == Ok(true)
    ensures ResultsInv(Step(w, Finishes(f)))
  {
    TokenIsNew(w, f);
    NewResultStands(w, f);
    var v := Step(w, Finishes(f));
    FinishIs(w, f);
    forall i | 0 <= i < |v.t.results| ensures ResultStands(v, v.t.results[i]) {
      if i < |w.t.results| { OldResultStands(w, f, w.t.results[i]); }
    }
    forall i, j | 0 <= i < j < |v.t.results| ensures v.t.results[i].token != v.t.results[j].token {
      assert v.t.results[i] == w.t.results[i];
    }
  }

  lemma CommittedBy(w: World, f: FinishCall, token: Token)
    requires Finish(w.t, f).1 == Ok(true)
    ensures Committed(Step(w, Finishes(f)).t.results, token)
       <==> Committed(w.t.results, token) || token == f.token.value
  {
    FinishIs(w, f);
    var v := Step(w, Finishes(f));
    assert v.t.results[|w.t.results|].token == f.token.value;
    if i :| 0 <= i < |w.t.results| && w.t.results[i].token == token {
      assert v.t.results[i].token == token;
    }
  }

  lemma FinishKeepsOverwritten(w: World, f: FinishCall)
    requires Inv(w) && Finish(w.t, f).1 == Ok(true)
    ensures OverwrittenInv(Step(w, Finishes(f)))
  {
    FinishIs(w, f);
    TokenIsNew(w, f);
    var v := Step(w, Finishes(f));
    forall i | 0 <= i < |w.overwritten|
      ensures !Committed(v.t.results, w.overwritten[i].1) && !Current(v.t, w.overwritten[i].0, w.overwritten[i].1)
    {
      assert !Current(w.t, w.overwritten[i].0, w.overwritten[i].1);
      CommittedBy(w, f, w.overwritten[i].1);
    }
  }

  lemma StepKeepsInv(w: World, e: Event)
    requires Inv(w) && Legal(w, e)
    ensures Inv(Step(w, e))
  {
    match e
    case Records(key, receipt) => RecordKeepsInv(w, key, receipt);
    case Claims(c) => ClaimKeepsInv(w, c);
    case Finishes(f) => FinishKeepsInv(w, f);
  }

  lemma {:induction false} RunKeepsInv(w: World, events: seq<Event>)
    requires Inv(w) && LegalRun(w, events)
    ensures Inv(Run(w, events))
    decreases |events|
  {
    if events != [] {
      RunKeepsInv(w, events[..|events| - 1]);
      StepKeepsInv(Run(w, events[..|events| - 1]), events[|events| - 1]);
    }
  }

  // ---------------------------------------------------------------- what follows for runs

  /** Over any run from the empty tables: a token commits at most one result, no unique key
      ever stops a finish, and each receipt has at most one work item. */
  lemma TokenCommitsAtMostOnce(w: World, events: seq<Event>)
    requires IsInitial(w) && LegalRun(w, events)
    ensures var v := Run(w, events);
            && (forall i, j | 0 <= i < j < |v.t.results| :: v.t.results[i].token != v.t.results[j].token)
            && (forall f :: Finish(v.t, f).1 != Err(UniqueViolation))
            && (forall id, jd | id in v.t.work && jd in v.t.work && v.t.work[id].key == v.t.work[jd].key :: id == jd)
  {
    RunKeepsInv(w, events);
    forall f ensures Finish(Run(w, events).t, f).1 != Err(UniqueViolation) {
      NeverDuplicates(Run(w, events), f);
    }
  }

  /** Every attempt is a result, an overwritten lease, or the lease now held. */
  lemma AttemptsAddUp(w: World, events: seq<Event>, id: Id)
    requires IsInitial(w) && LegalRun(w, events) && id in Run(w, events).t.work
    ensures var v := Run(w, events);
            v.t.work[id].attempts
            == ResultCount(v.t.results, id) + OverwriteCount(v.overwritten, id)
               + (if v.t.work[id].lease.Some? then 1 else 0)
  {
    RunKeepsInv(w, events);
    assert Run(w, events).t.work[id].attempts == Accounted(Run(w, events), id);
  }

  predicate Superseded(w: World, token: Token) {
    exists i :: 0 <= i < |w.overwritten| && w.overwritten[i].1 == token
  }

  lemma StepKeepsSuperseded(w: World, e: Event, token: Token)
    requires Legal(w, e) && Superseded(w, token)
    ensures Superseded(Step(w, e), token)
  {
    var i :| 0 <= i < |w.overwritten| && w.overwritten[i].1 == token;
    assert Step(w, e).overwritten[i] == w.overwritten[i];
  }

  /** A lease that a later claim overwrote never commits, then or at any later moment. */
  lemma {:induction false} SupersededNeverCommits(w: World, events: seq<Event>, token: Token)
    requires Inv(w) && Superseded(w, token) && LegalRun(w, events)
    ensures Superseded(Run(w, events), token) && !Committed(Run(w, events).t.results, token)
    decreases |events|
  {
    if events != [] {
      SupersededNeverCommits(w, events[..|events| - 1], token);
      StepKeepsSuperseded(Run(w, events[..|events| - 1]), events[|events| - 1], token);
    }
    RunKeepsInv(w, events);
    var v := Run(w, events);
    var i :| 0 <= i < |v.overwritten| && v.overwritten[i].1 == token;
    assert !Committed(v.t.results, v.overwritten[i].1);
  }

  /** Every clock reading of the run is at `now` or later. */
  predicate NotBefore(events: seq<Event>, now: int) {
    forall i :: 0 <= i < |events| ==>
      match events[i]
      case Records(_, _) => true
      case Claims(c) => now <= c.instant
      case Finishes(f) => now <= f.now
  }

  lemma StepIssues(w: World, e: Event, token: Token)
    requires Inv(w) && Legal(w, e) && token in w.issued
    ensures token in Step(w, e).issued && Step(w, e).issued[token] == w.issued[token]
  {
    if e.Claims? && Reply(w, e.c).Some? { assert Reply(w, e.c).value.token == e.c.token; }
  }

  lemma StepWithExpired(w: World, e: Event, token: Token, now: int)
    requires LeasesInv(w) && Legal(w, e) && token in w.issued && w.issued[token].until <= now
    requires NotBefore([e], now) && !Committed(w.t.results, token)
    ensures !Committed(Step(w, e).t.results, token)
  {
    var v := Step(w, e);
    match e
    case Records(_, _) =>
    case Claims(c) =>
    case Finishes(f) =>
      assert [e][0] == e && w.issued[token].until <= f.now;
      if Finish(w.t, f).1 == Ok(true) {
        CommittedBy(w, f, token);
      }
  }

  /** A token whose lease has run out without a result commits none from then on, even if
      nobody claims the work again. */
  lemma {:induction false} ExpiredNeverCommits(w: World, events: seq<Event>, token: Token, now: int)
    requires Inv(w) && LegalRun(w, events) && token in w.issued && w.issued[token].until <= now
    requires NotBefore(events, now) && !Committed(w.t.results, token)
    ensures token in Run(w, events).issued && Run(w, events).issued[token] == w.issued[token]
    ensures !Committed(Run(w, events).t.results, token)
    decreases |events|
  {
    if events != [] {
      var before := Run(w, events[..|events| - 1]);
      var last := events[|events| - 1];
      ExpiredNeverCommits(w, events[..|events| - 1], token, now);
      RunKeepsInv(w, events[..|events| - 1]);
      assert NotBefore([last], now);
      StepIssues(before, last, token);
      StepWithExpired(before, last, token, now);
    }
  }

  /** Two leases of one work item are never live together: a claim that is answered finds the
      earlier lease gone or run out, and overwrites it. */
  lemma ClaimFencesEarlierLease(w: World, c: ClaimCall)
    requires Inv(w) && Legal(w, Claims(c)) && Reply(w, c).Some?
    ensures var id := Reply(w, c).value.work;
            && Current(Step(w, Claims(c)).t, id, c.token)
            && (id in w.t.work && w.t.work[id].lease.Some? ==>
                  && w.t.work[id].lease.value.until <= c.instant
                  && Superseded(Step(w, Claims(c)), w.t.work[id].lease.value.token))
  {
    FilledIs(w, c);
    var id := Reply(w, c).value.work;
    if id in w.t.work && w.t.work[id].lease.Some? {
      var v := Step(w, Claims(c));
      assert v.overwritten[|v.overwritten| - 1].1 == w.t.work[id].lease.value.token;
    }
  }

  /** The work is open and the token its lease, which has not run out. */
  predicate IsLive(t: Tables, id: Id, token: Token, now: int) {
    id in t.work && !t.work[id].terminal
    && match t.work[id].lease
       case Some(lease) => lease.token == token && now < lease.until
       case None => false
  }

  predicate FinishIsWhole(f: FinishCall) {
    && f.work.Some? && f.token.Some? && f.admission.Some? && f.admission.value != 0
    && f.outcome.Some?
    && f.outcome.value in {"destroyed", "absent", "unverified", "denied", "unresolved", "retained"}
    && f.digest.Some? && IsDigest(f.digest.value) && f.retry.Some? && 1 <= f.retry.value <= 24 * 3600
  }

  /** A finish answers true exactly when its input is valid and its token is the live lease of
      open work; then it adds that one result, gives the lease up, closes the work or puts it
      off by the retry, and touches nothing else. Otherwise it leaves no trace. */
  lemma FinishCommitsExactlyWhen(w: World, f: FinishCall)
    requires Inv(w)
    ensures Finish(w.t, f).1.Ok? <==> FinishIsWhole(f)
    ensures Finish(w.t, f).1 == Ok(true) <==> FinishIsWhole(f) && IsLive(w.t, f.work.value, f.token.value, f.now)
    ensures Finish(w.t, f).1 != Ok(true) ==> Finish(w.t, f).0 == w.t
    ensures Finish(w.t, f).1 == Ok(true) ==>
              var (u, id) := (Finish(w.t, f).0, f.work.value);
              && u.receipts == w.t.receipts && u.work == w.t.work[id := u.work[id]]
              && |u.results| == |w.t.results| + 1 && u.results[..|w.t.results|] == w.t.results
              && u.results[|w.t.results|].work == id && u.results[|w.t.results|].token == f.token.value
              && u.results[|w.t.results|].attempt == w.t.work[id].attempts
              && Some(u.results[|w.t.results|].outcome) == f.outcome
              && Some(u.results[|w.t.results|].admission) == f.admission
              && Some(u.results[|w.t.results|].digest) == f.digest
              && u.work[id].key == w.t.work[id].key
              && u.work[id].lease.None? && u.work[id].attempts == w.t.work[id].attempts
              && (u.work[id].terminal <==> f.outcome.value !in {"unresolved", "retained"})
              && u.work[id].nextAttempt == f.later + f.retry.value * 1_000_000
  {
    NeverDuplicates(w, f);
  }

  predicate CommittedFor(results: seq<ResultRow>, id: Id, token: Token) {
    exists i :: 0 <= i < |results| && results[i].work == id && results[i].token == token
  }

  lemma {:induction false} ResultsStay(w: World, events: seq<Event>, id: Id, token: Token)
    requires LegalRun(w, events) && CommittedFor(w.t.results, id, token)
    ensures CommittedFor(Run(w, events).t.results, id, token)
    decreases |events|
  {
    if events != [] {
      var before := Run(w, events[..|events| - 1]);
      ResultsStay(w, events[..|events| - 1], id, token);
      var i :| 0 <= i < |before.t.results| && before.t.results[i].work == id && before.t.results[i].token == token;
      assert Run(w, events).t.results[i] == before.t.results[i];
    }
  }

  /** A token that has committed is spent: at every later moment a finish with it changes nothing. */
  lemma SpentTokenChangesNothing(w: World, f: FinishCall, events: seq<Event>, again: FinishCall)
    requires Inv(w) && Finish(w.t, f).1 == Ok(true) && LegalRun(Step(w, Finishes(f)), events)
    requires again.work == f.work && again.token == f.token
    ensures var v := Run(Step(w, Finishes(f)), events);
            Finish(v.t, again).0 == v.t && Finish(v.t, again).1 != Ok(true)
  {
    var u := Step(w, Finishes(f));
    var v := Run(u, events);
    FinishIs(w, f);
    FinishKeepsInv(w, f);
    assert u.t.results[|w.t.results|] == ResultOf(w.t, f);
    ResultsStay(u, events, f.work.value, f.token.value);
    RunKeepsInv(u, events);
    SpentIsNotCurrent(v, f.work.value, f.token.value);
    NotCurrentChangesNothing(v.t, again);
  }

  lemma SpentIsNotCurrent(w: World, id: Id, token: Token)
    requires ResultsInv(w) && CommittedFor(w.t.results, id, token)
    ensures !Current(w.t, id, token)
  {
    var i :| 0 <= i < |w.t.results| && w.t.results[i].work == id && w.t.results[i].token == token;
    assert !Current(w.t, w.t.results[i].work, w.t.results[i].token);
  }

  lemma NotCurrentChangesNothing(t: Tables, f: FinishCall)
    requires f.work.Some? && f.token.Some? && !Current(t, f.work.value, f.token.value)
    ensures Finish(t, f).0 == t && Finish(t, f).1 != Ok(true)
  {
  }

  lemma StepKeepsTerminal(w: World, e: Event, id: Id)
    requires Legal(w, e) && id in w.t.work && w.t.work[id].terminal
    ensures id in Step(w, e).t.work && Step(w, e).t.work[id] == w.t.work[id]
    ensures e.Claims? && Reply(w, e.c).Some? ==> Reply(w, e.c).value.work != id
  {
    match e
    case Records(_, _) =>
    case Claims(c) => ClaimKeepsTerminal(w, c, id);
    case Finishes(f) =>
  }

  lemma ClaimKeepsTerminal(w: World, c: ClaimCall, id: Id)
    requires Legal(w, Claims(c)) && id in w.t.work && w.t.work[id].terminal
    ensures id in Step(w, Claims(c)).t.work && Step(w, Claims(c)).t.work[id] == w.t.work[id]
    ensures Reply(w, c).Some? ==> Reply(w, c).value.work != id
  {
    if ValidClaim(c) { FilledIs(w, c); }
  }

  /** Terminal work is never claimed again and its row never changes. */
  lemma {:induction false} TerminalIsFinal(w: World, events: seq<Event>, id: Id)
    requires Inv(w) && LegalRun(w, events) && id in w.t.work && w.t.work[id].terminal
    ensures id in Run(w, events).t.work && Run(w, events).t.work[id] == w.t.work[id]
    ensures forall c :: Legal(Run(w, events), Claims(c)) && Reply(Run(w, events), c).Some? ==>
              Reply(Run(w, events), c).value.work != id
    decreases |events|
  {
    if events != [] {
      TerminalIsFinal(w, events[..|events| - 1], id);
      RunKeepsInv(w, events[..|events| - 1]);
      StepKeepsTerminal(Run(w, events[..|events| - 1]), events[|events| - 1], id);
    }
    RunKeepsInv(w, events);
    forall c | Legal(Run(w, events), Claims(c)) && Reply(Run(w, events), c).Some?
      ensures Reply(Run(w, events), c).value.work != id
    {
      StepKeepsTerminal(Run(w, events), Claims(c), id);
    }
  }

  /** A receipt of the mount, past its expiry by the grace in seconds. */
  predicate IsOverdue(t: Tables, c: ClaimCall, key: Key) {
    && key in t.receipts && c.grace.Some? && c.backend == Some(key.backend) && c.mount == Some(key.mount)
    && t.receipts[key].expires + c.grace.value * 1_000_000 <= c.instant
  }

  /** Why an item may not be handed out: it is closed, put off, under a lease that has not run
      out, or locked by another session. */
  predicate IsHeld(t: Tables, c: ClaimCall, id: Id)
    requires id in t.work
  {
    || t.work[id].terminal
    || c.instant < t.work[id].nextAttempt
    || (t.work[id].lease.Some? && c.instant < t.work[id].lease.value.until)
    || id in c.locked
  }

  lemma HeldIs(t: Tables, c: ClaimCall)
    requires ValidClaim(c)
    ensures forall key :: Due(t, c, key) <==> IsOverdue(t, c, key)
    ensures forall id :: id in t.work ==>
              (Claimable(t, c, id) <==> !IsHeld(t, c, id) && IsOverdue(t, c, t.work[id].key))
  {
  }

  /** A valid claim comes back empty-handed exactly when every due receipt of its mount has a
      work item that is closed, not yet due again, under a live lease, or locked. */
  lemma ClaimIsEmptyExactlyWhen(w: World, c: ClaimCall)
    requires Inv(w) && Legal(w, Claims(c)) && ValidClaim(c)
    requires forall i :: 0 <= i < BATCH ==> c.ids[i] !in c.locked
    ensures Reply(w, c).None? <==>
              forall key :: IsOverdue(w.t, c, key) ==>
                exists id :: id in w.t.work && w.t.work[id].key == key && IsHeld(w.t, c, id)
  {
    EmptyClaim(w, c);
    HeldIs(w.t, c);
    assert forall key, id | Due(w.t, c, key) && id in w.t.work && w.t.work[id].key == key ::
             !Claimable(w.t, c, id) <==> IsHeld(w.t, c, id);
  }

  lemma EmptyClaim(w: World, c: ClaimCall)
    requires Inv(w) && Legal(w, Claims(c)) && ValidClaim(c)
    requires forall i :: 0 <= i < BATCH ==> c.ids[i] !in c.locked
    ensures Reply(w, c).None? <==>
              forall key :: key in w.t.receipts && Due(w.t, c, key) ==>
                exists id :: id in w.t.work && w.t.work[id].key == key && !Claimable(w.t, c, id)
  {
    FilledIs(w, c);
    CandidatesAfterFill(w, c);
    var u := Filled(w.t, c);
    if Reply(w, c).None? {
      forall key | key in w.t.receipts && Due(w.t, c, key)
        ensures exists id :: id in w.t.work && w.t.work[id].key == key && !Claimable(w.t, c, id)
      {
        assert key !in MissingDue(w.t, c);
        assert HasWork(w.t, key);
      }
    } else {
      var id := Next(u.work, Candidates(u, c));
      var key := u.work[id].key;
      assert Due(w.t, c, key);
      forall jd | jd in w.t.work && w.t.work[jd].key == key ensures Claimable(w.t, c, jd) {
        assert id in w.t.work && id == jd;
      }
    }
  }

  /** Whatever was claimable stays so, and a missing item becomes claimable. */
  lemma CandidatesAfterFill(w: World, c: ClaimCall)
    requires Inv(w) && Legal(w, Claims(c)) && ValidClaim(c)
    requires forall i :: 0 <= i < BATCH ==> c.ids[i] !in c.locked
    ensures forall id :: Claimable(w.t, c, id) ==> id in Candidates(Filled(w.t, c), c)
    ensures MissingDue(w.t, c) != {} ==> Candidates(Filled(w.t, c), c) != {}
  {
    var u := Filled(w.t, c);
    var keys := Fill(w.t, c);
    FilledIs(w, c);
    FillIs(w.t, c);
    WithRowsIs(w.t.work, keys, c.ids, c.instant, |keys|);
    if MissingDue(w.t, c) != {} {
      assert Claimable(u, c, c.ids[0]);
      assert c.ids[0] in Candidates(u, c);
    }
  }

  /** What an answered claim hands out: the least claimable item, whose receipt is past its
      expiry by the grace, under the new token, for the lease asked, as its next attempt;
      every other item stays as it was after the fill. */
  lemma ClaimHandsOut(w: World, c: ClaimCall)
    requires Legal(w, Claims(c)) && Reply(w, c).Some?
    ensures ValidClaim(c)
    ensures var (k, u, v) := (Reply(w, c).value, Filled(w.t, c).work, Step(w, Claims(c)).t);
            && k.work in u && v.work == u[k.work := v.work[k.work]]
            && k.key == u[k.work].key && k.key in w.t.receipts && k.receipt == w.t.receipts[k.key]
            && Mine(c, k.key) && k.receipt.expires + c.grace.value * SECOND <= c.instant
            && !u[k.work].terminal && u[k.work].nextAttempt <= c.instant && k.work !in c.locked
            && k.token == c.token && k.until == c.instant + c.lease.value * SECOND
            && k.attempt == u[k.work].attempts + 1
            && v.work[k.work] == u[k.work].(lease := Some(Lease(k.token, k.until)), attempts := k.attempt)
            && forall j | j in u && Claimable(w.t.(work := u), c, j) ::
                 u[k.work].nextAttempt < u[j].nextAttempt || (u[k.work].nextAttempt == u[j].nextAttempt && k.work <= j)
  {
    FilledIs(w, c);
  }

  /** Every claim of the run happens before `time`. */
  predicate ClaimsBefore(events: seq<Event>, time: int) {
    forall i :: 0 <= i < |events| && events[i].Claims? ==> events[i].c.instant < time
  }

  lemma StepKeepsWaiting(w: World, e: Event, id: Id)
    requires Inv(w) && Legal(w, e) && id in w.t.work && w.t.work[id].lease.None?
    requires e.Claims? ==> e.c.instant < w.t.work[id].nextAttempt
    ensures id in Step(w, e).t.work && Step(w, e).t.work[id] == w.t.work[id]
  {
    match e
    case Records(_, _) =>
    case Claims(c) =>
      if ValidClaim(c) {
        FilledIs(w, c);
        ClaimIs(w, c);
      }
    case Finishes(f) =>
      if Finish(w.t, f).1 == Ok(true) { FinishIs(w, f); }
  }

  /** Unleased work is left alone until its next attempt is due: the retry delay of a finish
      is kept by every later claim. */
  lemma {:induction false} RetryIsRespected(w: World, events: seq<Event>, id: Id)
    requires Inv(w) && LegalRun(w, events) && id in w.t.work && w.t.work[id].lease.None?
    requires ClaimsBefore(events, w.t.work[id].nextAttempt)
    ensures id in Run(w, events).t.work && Run(w, events).t.work[id] == w.t.work[id]
    decreases |events|
  {
    if events != [] {
      var prefix := events[..|events| - 1];
      assert ClaimsBefore(prefix, w.t.work[id].nextAttempt);
      RetryIsRespected(w, prefix, id);
      RunKeepsInv(w, prefix);
      StepKeepsWaiting(Run(w, prefix), events[|events| - 1], id);
    }
  }

  // ---------------------------------------------------------------- receipts

  lemma StepKeepsReceipts(w: World, e: Event, key: Key)
    requires Legal(w, e) && key in w.t.receipts
    ensures key in Step(w, e).t.receipts && Step(w, e).t.receipts[key] == w.t.receipts[key]
  {
  }

  /** A recorded receipt stays as recorded; recording it again changes nothing, and recording
      other times under its key is refused. */
  lemma {:induction false} ReceiptsAreForGood(w: World, events: seq<Event>, key: Key, receipt: Receipt, again: Receipt)
    requires LegalRun(w, events) && Record(w.t, key, receipt).1.None?
    requires w.t == Record(w.t, key, receipt).0
    ensures var v := Run(w, events).t;
            && key in v.receipts && v.receipts[key] == receipt
            && Record(v, key, receipt) == (v, None)
            && (again != receipt ==> Record(v, key, again).0 == v && Record(v, key, again).1.Some?)
    decreases |events|
  {
    if events != [] {
      ReceiptsAreForGood(w, events[..|events| - 1], key, receipt, again);
      StepKeepsReceipts(Run(w, events[..|events| - 1]), events[|events| - 1], key);
    }
  }
}
