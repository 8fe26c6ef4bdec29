/** Progress of the cleanup: claims hand out all that is open, and a lease that has not run out
    is ended by nothing but its own result. */
module CleanupProgress {
  import opened Common
  import opened Cleanup
  import opened CleanupRuns

  // ---------------------------------------------------------------- what is open

  /** A due receipt without work, or whose work can be claimed. */
  predicate IsOpen(t: Tables, c: ClaimCall, key: Key)
    requires ValidClaim(c)
  {
    IsOverdue(t, c, key) && forall id :: id in t.work && t.work[id].key == key ==> !IsHeld(t, c, id)
  }

  function OpenKeys(t: Tables, c: ClaimCall): set<Key>
    requires ValidClaim(c)
  {
    set key | key in t.receipts && IsOpen(t, c, key)
  }

  /** A valid claim that no other session is in the way of. */
  predicate Uncontended(c: ClaimCall) {
    ValidClaim(c) && c.locked == {}
  }

  lemma FillKeepsOpen(w: World, c: ClaimCall)
    requires Inv(w) && Legal(w, Claims(c)) && Uncontended(c)
    ensures OpenKeys(Filled(w.t, c), c) == OpenKeys(w.t, c)
  {
    FilledIs(w, c);
    var u := Filled(w.t, c);
    forall key | key in w.t.receipts ensures IsOpen(u, c, key) <==> IsOpen(w.t, c, key) {
      FillKeepsOpenKey(w, c, key);
    }
  }

  lemma FillKeepsOpenKey(w: World, c: ClaimCall, key: Key)
    requires Inv(w) && Legal(w, Claims(c)) && Uncontended(c) && key in w.t.receipts
    ensures IsOpen(Filled(w.t, c), c, key) <==> IsOpen(w.t, c, key)
  {
    FilledIs(w, c);
    var u := Filled(w.t, c);
    forall id | id in u.work && u.work[id].key == key && id !in w.t.work ensures Claimable(u, c, id) {
    }
    forall id | id in w.t.work && w.t.work[id].key == key
      ensures id in u.work && u.work[id].key == key && (Claimable(u, c, id) <==> Claimable(w.t, c, id))
    {
    }
  }

  /** A lease closes the receipt of its item and no other. */
  lemma LeaseTakesOne(w: World, c: ClaimCall, id: Id)
    requires KeysInv(w) && Uncontended(c) && Claimable(w.t, c, id)
    ensures w.t.work[id].key in OpenKeys(w.t, c)
    ensures OpenKeys(Leased(w.t, c, id), c) == OpenKeys(w.t, c) - {w.t.work[id].key}
  {
    var v := Leased(w.t, c, id);
    assert !Claimable(v, c, id);
    forall key | key in w.t.receipts && key != w.t.work[id].key ensures IsOpen(v, c, key) <==> IsOpen(w.t, c, key) {
      forall j | j in w.t.work && w.t.work[j].key == key ensures Claimable(v, c, j) <==> Claimable(w.t, c, j) {
      }
    }
  }

  /** An open receipt has a candidate once the claim has filled in what is missing. */
  lemma CandidateExists(w: World, c: ClaimCall, key: Key)
    requires Inv(w) && Legal(w, Claims(c)) && Uncontended(c) && key in OpenKeys(w.t, c)
    ensures Candidates(Filled(w.t, c), c) != {}
  {
    CandidatesAfterFill(w, c);
    if HasWork(w.t, key) {
      var id :| id in w.t.work && w.t.work[id].key == key;
      assert Claimable(w.t, c, id);
      assert id in Candidates(Filled(w.t, c), c);
    } else {
      assert key in MissingDue(w.t, c);
    }
  }

  /** An uncontended claim hands out an open receipt exactly when there is one, and that one is
      then the only one no longer open. */
  lemma ClaimTakesOne(w: World, c: ClaimCall)
    requires Inv(w) && Legal(w, Claims(c)) && Uncontended(c)
    ensures Reply(w, c).Some? <==> OpenKeys(w.t, c) != {}
    ensures Reply(w, c).Some? ==> Reply(w, c).value.key in OpenKeys(w.t, c)
    ensures OpenKeys(Step(w, Claims(c)).t, c)
         == OpenKeys(w.t, c) - (if Reply(w, c).Some? then {Reply(w, c).value.key} else {})
  {
    var u := w.(t := Filled(w.t, c));
    FillKeepsInv(w, c);
    FillKeepsOpen(w, c);
    ClaimIs(w, c);
    if Candidates(u.t, c) != {} {
      var id := Next(u.t.work, Candidates(u.t, c));
      assert Claimable(u.t, c, id);
      LeaseTakesOne(u, c, id);
    } else if key :| key in OpenKeys(w.t, c) {
      CandidateExists(w, c, key);
    }
  }

  // ---------------------------------------------------------------- all of it is handed out

  /** Uncontended claims of one mount at one instant; leases and tokens may differ. */
  predicate Alike(c: ClaimCall, d: ClaimCall) {
    Uncontended(c) && Uncontended(d) &&
    (c.backend, c.mount, c.grace, c.instant) == (d.backend, d.mount, d.grace, d.instant)
  }

  predicate AllAlike(events: seq<Event>, c: ClaimCall) {
    forall i :: 0 <= i < |events| ==> events[i].Claims? && Alike(events[i].c, c)
  }

  lemma SameOpenKeys(t: Tables, c: ClaimCall, d: ClaimCall)
    requires Alike(c, d)
    ensures OpenKeys(t, c) == OpenKeys(t, d)
  {
    forall key | key in t.receipts ensures IsOpen(t, c, key) <==> IsOpen(t, d, key) {
      forall id ensures Claimable(t, c, id) <==> Claimable(t, d, id) {
      }
    }
  }

  /** The receipts the claims of a run hand out, in order. */
  function HandedOut(w: World, events: seq<Event>): seq<Key>
    requires LegalRun(w, events) && forall i :: 0 <= i < |events| ==> events[i].Claims?
    decreases |events|
  {
    if events == [] then []
    else
      var (prefix, last) := (events[..|events| - 1], events[|events| - 1]);
      var reply := Reply(Run(w, prefix), last.c);
      HandedOut(w, prefix) + (if reply.Some? then [reply.value.key] else [])
  }

  function Elements(keys: seq<Key>): set<Key> {
    set key | key in keys
  }

  /** What each next claim does to the books: one open receipt fewer, one handed out. */
  predicate Accounts(open: set<Key>, keys: seq<Key>, left: set<Key>, claims: nat) {
    && (forall i, j :: 0 <= i < j < |keys| ==> keys[i] != keys[j])
    && Elements(keys) <= open && left == open - Elements(keys)
    && |left| == |open| - |keys| && |keys| == if claims <= |open| then claims else |open|
  }

  lemma AccountsGrow(open: set<Key>, keys: seq<Key>, left: set<Key>, claims: nat, key: Key)
    requires Accounts(open, keys, left, claims) && key in left
    ensures Accounts(open, keys + [key], left - {key}, claims + 1)
  {
    assert Elements(keys + [key]) == Elements(keys) + {key};
    assert key !in keys;
    assert left != {};
  }

  lemma NextClaim(w: World, d: ClaimCall, c: ClaimCall, open: set<Key>, keys: seq<Key>, claims: nat)
    requires Inv(w) && Legal(w, Claims(d)) && Alike(d, c) && Accounts(open, keys, OpenKeys(w.t, c), claims)
    ensures Accounts(open, keys + (if Reply(w, d).Some? then [Reply(w, d).value.key] else []),
                     OpenKeys(Step(w, Claims(d)).t, c), claims + 1)
  {
    ClaimTakesOne(w, d);
    SameOpenKeys(w.t, d, c);
    SameOpenKeys(Step(w, Claims(d)).t, d, c);
    if Reply(w, d).Some? {
      AccountsGrow(open, keys, OpenKeys(w.t, c), claims, Reply(w, d).value.key);
    } else {
      assert keys + [] == keys && OpenKeys(w.t, c) == {};
    }
  }

  lemma {:induction false} ClaimsAccount(w: World, events: seq<Event>, c: ClaimCall)
    requires Inv(w) && LegalRun(w, events) && Uncontended(c) && AllAlike(events, c)
    ensures Accounts(OpenKeys(w.t, c), HandedOut(w, events), OpenKeys(Run(w, events).t, c), |events|)
    decreases |events|
  {
    if events == [] {
      assert Elements([]) == {};
    } else {
      var (prefix, last) := (events[..|events| - 1], events[|events| - 1]);
      ClaimsAccount(w, prefix, c);
      RunKeepsInv(w, prefix);
      NextClaim(Run(w, prefix), last.c, c, OpenKeys(w.t, c), HandedOut(w, prefix), |prefix|);
    }
  }

  /** Uncontended claims at one instant hand out distinct open receipts, one each as long as
      there is one, so that as many claims as there are open receipts hand out every one of
      them and leave none. */
  lemma ClaimsHandOutAllOpen(w: World, events: seq<Event>, c: ClaimCall)
    requires Inv(w) && LegalRun(w, events) && Uncontended(c) && AllAlike(events, c)
    ensures Accounts(OpenKeys(w.t, c), HandedOut(w, events), OpenKeys(Run(w, events).t, c), |events|)
    ensures |events| >= |OpenKeys(w.t, c)| ==>
              Elements(HandedOut(w, events)) == OpenKeys(w.t, c) && OpenKeys(Run(w, events).t, c) == {}
  {
    ClaimsAccount(w, events, c);
    NothingLeft(OpenKeys(w.t, c), HandedOut(w, events), OpenKeys(Run(w, events).t, c), |events|);
  }

  lemma NothingLeft(open: set<Key>, keys: seq<Key>, left: set<Key>, claims: nat)
    requires Accounts(open, keys, left, claims)
    ensures claims >= |open| ==> Elements(keys) == open && left == {}
  {
  }

  // ---------------------------------------------------------------- a lease is good until it runs out

  /** The lease is in force, or its result is in. */
  predicate Kept(w: World, k: Claimed) {
    || Committed(w.t.results, k.token)
    || (k.work in w.t.work && !w.t.work[k.work].terminal && w.t.work[k.work].lease == Some(Lease(k.token, k.until)))
  }

  lemma StepKeepsLease(w: World, e: Event, k: Claimed)
    requires Inv(w) && Legal(w, e) && Kept(w, k) && (e.Claims? ==> e.c.instant < k.until)
    ensures Kept(Step(w, e), k)
  {
    match e
    case Records(_, _) =>
    case Claims(c) => ClaimKeepsLease(w, c, k);
    case Finishes(f) => FinishKeepsLease(w, f, k);
  }

  lemma ClaimKeepsLease(w: World, c: ClaimCall, k: Claimed)
    requires Inv(w) && Legal(w, Claims(c)) && Kept(w, k) && c.instant < k.until
    ensures Kept(Step(w, Claims(c)), k)
  {
    if ValidClaim(c) {
      FilledIs(w, c);
      ClaimIs(w, c);
    }
  }

  lemma FinishKeepsLease(w: World, f: FinishCall, k: Claimed)
    requires Inv(w) && Kept(w, k)
    ensures Kept(Step(w, Finishes(f)), k)
  {
    if Finish(w.t, f).1 == Ok(true) {
      FinishIs(w, f);
      var results := Step(w, Finishes(f)).t.results;
      assert results[|w.t.results|].token == f.token.value;
      assert forall i :: 0 <= i < |w.t.results| ==> results[i] == w.t.results[i];
    }
  }

  lemma {:induction false} LeaseIsKept(w: World, events: seq<Event>, k: Claimed)
    requires Inv(w) && LegalRun(w, events) && Kept(w, k) && ClaimsBefore(events, k.until)
    ensures Kept(Run(w, events), k)
    decreases |events|
  {
    if events != [] {
      var prefix := events[..|events| - 1];
      assert ClaimsBefore(prefix, k.until);
      LeaseIsKept(w, prefix, k);
      RunKeepsInv(w, prefix);
      StepKeepsLease(Run(w, prefix), events[|events| - 1], k);
    }
  }

  lemma ClaimedIsKept(w: World, c: ClaimCall)
    requires Legal(w, Claims(c)) && Reply(w, c).Some?
    ensures Kept(Step(w, Claims(c)), Reply(w, c).value)
  {
    ClaimHandsOut(w, c);
  }

  /** Whatever happens after a claim was answered: a worker that reports before its lease runs
      out, while nobody's clock has reached that time, succeeds exactly when its token has
      not committed a result before. Other workers cannot fence it. */
  lemma LiveLeaseCommits(w: World, c: ClaimCall, events: seq<Event>, f: FinishCall)
    requires Inv(w) && Legal(w, Claims(c)) && Reply(w, c).Some? && LegalRun(Step(w, Claims(c)), events)
    requires var k := Reply(w, c).value;
             && ClaimsBefore(events, k.until) && ValidFinish(f)
             && f.work == Some(k.work) && f.token == Some(k.token) && f.now < k.until
    ensures var v := Run(Step(w, Claims(c)), events);
            Finish(v.t, f).1 == Ok(true) <==> !Committed(v.t.results, Reply(w, c).value.token)
  {
    var (k, u) := (Reply(w, c).value, Step(w, Claims(c)));
    var v := Run(u, events);
    ClaimKeepsInv(w, c);
    ClaimedIsKept(w, c);
    LeaseIsKept(u, events, k);
    RunKeepsInv(u, events);
    KeptCommits(v, k, f);
  }

  lemma KeptCommits(w: World, k: Claimed, f: FinishCall)
    requires Inv(w) && Kept(w, k) && ValidFinish(f)
    requires f.work == Some(k.work) && f.token == Some(k.token) && f.now < k.until
    ensures Finish(w.t, f).1 == Ok(true) <==> !Committed(w.t.results, k.token)
  {
    if Committed(w.t.results, k.token) {
      var i :| 0 <= i < |w.t.results| && w.t.results[i].token == k.token;
      CommittedIsNotCurrent(w, f, i);
    } else {
      NeverDuplicates(w, f);
    }
  }

  lemma CommittedIsNotCurrent(w: World, f: FinishCall, i: nat)
    requires Inv(w) && i < |w.t.results| && f.token == Some(w.t.results[i].token)
    ensures Finish(w.t, f).1 != Ok(true)
  {
    assert !Current(w.t, w.t.results[i].work, w.t.results[i].token);
  }

  // ---------------------------------------------------------------- one round of the worker

  /** Parameters that the finishing command accepts. */
  predicate ValidReport(p: Report) {
    && (p.outcome.Some? ==> IsOutcome(p.outcome.value))
    && p.admission != 0 && IsDigest(p.digest) && 1 <= p.retry <= 86400
  }

  /** The worker gives a round up: it is not admitted, or its reconciliation raises. */
  predicate GivesUp(w: World, c: ClaimCall, p: Report)
    requires |c.ids| == BATCH
  {
    !p.admitsClaim || (Reply(w, c).Some? && (p.outcome.None? || !p.admitsFinish))
  }

  /** One round with valid parameters, no other worker coming in between. It raises exactly when
      the worker gives up, the database never makes it, and then leaves at most its lease. It is
      idle exactly when the claim comes back empty, fenced exactly when the lease has run out
      before the report, and otherwise adds its one result for the item claimed. That item was
      due by its receipt and the grace: the worker's own test of that never holds it back. */
  lemma RoundIs(w: World, c: ClaimCall, p: Report)
    requires Inv(w) && Legal(w, Claims(c)) && ValidClaim(c) && ValidReport(p)
    ensures var (t, answer) := Once(w.t, c, p);
            && (answer.Err? <==> GivesUp(w, c, p))
            && (answer.Err? ==> t == if p.admitsClaim then Step(w, Claims(c)).t else w.t)
            && (answer == Ok(Idle) <==> p.admitsClaim && Reply(w, c).None?)
            && (answer == Ok(Fenced) <==>
                  !GivesUp(w, c, p) && Reply(w, c).Some? && c.instant + c.lease.value * SECOND <= p.now)
            && (answer.Ok? && answer.value.Reported? ==>
                  && Some(answer.value.outcome) == p.outcome
                  && |t.results| == |w.t.results| + 1 && t.results[..|w.t.results|] == w.t.results
                  && t.results[|w.t.results|].work == Reply(w, c).value.work
                  && t.results[|w.t.results|].token == c.token
                  && Some(t.results[|w.t.results|].outcome) == p.outcome)
            && (!(answer.Ok? && answer.value.Reported?) ==> t.results == w.t.results)
    ensures Reply(w, c).Some? ==> Reply(w, c).value.receipt.expires + c.grace.value * SECOND <= c.instant
  {
    ClaimKeepsInv(w, c);
    if Reply(w, c).Some? {
      ClaimHandsOut(w, c);
      NeverDuplicates(Step(w, Claims(c)), ReportOf(Reply(w, c).value, p));
      RoundFinishes(w, c, p);
    }
  }

  lemma RoundFinishes(w: World, c: ClaimCall, p: Report)
    requires Inv(w) && Legal(w, Claims(c)) && ValidReport(p) && Reply(w, c).Some?
    ensures var (u, k) := (Step(w, Claims(c)), Reply(w, c).value);
            Holds(u.t, k.work, k.token, p.now) <==> p.now < c.instant + c.lease.value * SECOND
  {
    ClaimHandsOut(w, c);
    ClaimKeepsInv(w, c);
  }
}
