/** What claims hand out and receipts must look like, in the fields of the tables. */
module CleanupExact {
  import opened Common
  import opened Cleanup
  import opened CleanupRuns
  import opened CleanupProgress

  const MICROS: int := 1_000_000

  // ---------------------------------------------------------------- formats

  /** A mount: one to sixty-four letters, digits, underscores and hyphens. */
  predicate MountFits(s: string) {
    1 <= |s| <= 64
    && forall i :: 0 <= i < |s| ==>
         'a' <= s[i] <= 'z' || 'A' <= s[i] <= 'Z' || '0' <= s[i] <= '9' || s[i] == '_' || s[i] == '-'
  }

  /** A reference as the issuer writes it: its prefix, a UUID, and a number without leading zeros. */
  predicate Refers(s: string, uuid: string, number: string) {
    && |s| <= 128 && s == "request-engine/identity-recovery/" + (uuid + ("/" + number))
    && |uuid| == 36
    && (forall i :: 0 <= i < 36 && i in {8, 13, 18, 23} ==> uuid[i] == '-')
    && (forall i :: 0 <= i < 36 && i !in {8, 13, 18, 23} ==> uuid[i] in "0123456789abcdef")
    && number != "" && number[0] != '0' && forall i :: 0 <= i < |number| ==> number[i] in "0123456789"
  }

  lemma HexOrDigit(c: char)
    ensures IsHexDigit(c) <==> c in "0123456789abcdef"
    ensures '0' <= c <= '9' <==> c in "0123456789"
  {
    HexDigits(c);
    if '0' <= c <= '9' { assert "0123456789"[(c - '0') as int] == c; }
  }

  lemma ReferenceIs(s: string)
    ensures IsReference(s) <==> exists uuid, number :: Refers(s, uuid, number)
  {
    if IsReference(s) {
      var (p, uuid, number) := (|PREFIX|, s[|PREFIX|..|PREFIX| + 36], s[|PREFIX| + 37..]);
      assert s == PREFIX + (uuid + ("/" + number)) by {
        assert s == s[..p] + s[p..] && s[p..] == uuid + s[p + 36..] && s[p + 36..] == [s[p + 36]] + number;
      }
      forall i | 0 <= i < 36 ensures IsHexDigit(uuid[i]) <==> uuid[i] in "0123456789abcdef" { HexOrDigit(uuid[i]); }
      forall i | 0 <= i < |number| ensures number[i] in "0123456789" {
        assert number[i] == s[p + 37 + i];
        HexOrDigit(number[i]);
      }
      assert Refers(s, uuid, number);
    }
    if uuid, number :| Refers(s, uuid, number) { ReferenceReads(s, uuid, number); }
  }

  lemma ReferenceReads(s: string, uuid: string, number: string)
    requires Refers(s, uuid, number)
    ensures IsReference(s)
  {
    var p := |PREFIX|;
    PartsOf(s, PREFIX, uuid, number);
    forall i | 0 <= i < 36 ensures IsHexDigit(uuid[i]) <==> uuid[i] in "0123456789abcdef" { HexOrDigit(uuid[i]); }
    assert IsUuid(uuid);
    forall i | 0 <= i < |number| ensures '0' <= number[i] <= '9' { HexOrDigit(number[i]); }
    forall i | p + 37 < i < |s| ensures '0' <= s[i] <= '9' { assert s[i] == number[i - p - 37]; }
  }

  lemma PartsOf(s: string, prefix: string, uuid: string, number: string)
    requires s == prefix + (uuid + ("/" + number)) && |uuid| == 36
    ensures var p := |prefix|;
            && |s| == p + 37 + |number| && s[..p] == prefix && s[p..p + 36] == uuid && s[p + 36] == '/'
            && forall i :: p + 37 <= i < |s| ==> s[i] == number[i - p - 37]
  {
  }

  // ---------------------------------------------------------------- what a claim hands out

  /** A claim is refused exactly for a parameter that is missing or out of range, and then changes
      nothing. */
  lemma ClaimIsRefusedExactlyWhen(t: Tables, c: ClaimCall)
    requires |c.ids| == BATCH
    ensures Claim(t, c).1.Ok? <==>
              && c.backend.Some? && c.backend.value != 0
              && c.mount.Some? && MountFits(c.mount.value)
              && c.grace.Some? && 1 <= c.grace.value <= 7 * 24 * 3600
              && c.lease.Some? && 10 <= c.lease.value <= 3600
    ensures Claim(t, c).1.Err? ==> Claim(t, c).0 == t
  {
  }

  /** When an item may be tried, and how often it has been: as its row says, or at once and never
      for one that the claim itself has filled in. */
  function NextAttempt(t: Tables, c: ClaimCall, id: Id): int {
    if id in t.work then t.work[id].nextAttempt else c.instant
  }

  function Attempts(t: Tables, id: Id): nat {
    if id in t.work then t.work[id].attempts else 0
  }

  /** An answered claim hands out an item that was not held, or one for a due receipt that had
      none, before every other item not held in next attempt and then identifier; it leases it
      under its token, counts the attempt, and leaves the rest of the items as they were. */
  lemma ClaimHandsOutExactly(w: World, c: ClaimCall, j: Id)
    requires Inv(w) && Legal(w, Claims(c)) && Reply(w, c).Some? && c.lease.Some?
    ensures var (k, v) := (Reply(w, c).value, Step(w, Claims(c)).t);
            && k.work !in c.locked && IsOverdue(w.t, c, k.key)
            && (if k.work in w.t.work then w.t.work[k.work].key == k.key && !IsHeld(w.t, c, k.work)
                else forall id :: id in w.t.work ==> w.t.work[id].key != k.key)
            && k == Claimed(k.work, c.token, c.instant + c.lease.value * MICROS, Attempts(w.t, k.work) + 1,
                            k.key, w.t.receipts[k.key])
            && k.work in v.work
            && v.work[k.work] == Work(k.key, Some(Lease(c.token, c.instant + c.lease.value * MICROS)),
                                      Attempts(w.t, k.work) + 1, NextAttempt(w.t, c, k.work), false)
            && v.receipts == w.t.receipts && v.results == w.t.results
            && (j in w.t.work && j != k.work ==> j in v.work && v.work[j] == w.t.work[j])
            && (j in w.t.work && !IsHeld(w.t, c, j) && IsOverdue(w.t, c, w.t.work[j].key) ==>
                  || NextAttempt(w.t, c, k.work) < w.t.work[j].nextAttempt
                  || (NextAttempt(w.t, c, k.work) == w.t.work[j].nextAttempt && k.work <= j))
  {
    HandedOutIsLeased(w, c);
    HandedOutWasOpen(w, c);
    if j in w.t.work && !IsHeld(w.t, c, j) && IsOverdue(w.t, c, w.t.work[j].key) { HandedOutIsFirst(w, c, j); }
  }

  lemma HandedOutIsLeased(w: World, c: ClaimCall)
    requires Legal(w, Claims(c)) && Reply(w, c).Some? && c.lease.Some?
    ensures var (k, v) := (Reply(w, c).value, Step(w, Claims(c)).t);
            && k.work !in c.locked && k.key in w.t.receipts
            && k == Claimed(k.work, c.token, c.instant + c.lease.value * MICROS, Attempts(w.t, k.work) + 1,
                            k.key, w.t.receipts[k.key])
            && k.work in v.work
            && v.work[k.work] == Work(k.key, Some(Lease(c.token, c.instant + c.lease.value * MICROS)),
                                      Attempts(w.t, k.work) + 1, NextAttempt(w.t, c, k.work), false)
            && v.receipts == w.t.receipts && v.results == w.t.results
            && forall id :: id in w.t.work && id != k.work ==> id in v.work && v.work[id] == w.t.work[id]
  {
    ClaimHandsOut(w, c);
    FilledIs(w, c);
    ClaimIs(w, c);
  }

  lemma HandedOutWasOpen(w: World, c: ClaimCall)
    requires Legal(w, Claims(c)) && Reply(w, c).Some? && c.lease.Some?
    ensures var k := Reply(w, c).value;
            && IsOverdue(w.t, c, k.key)
            && if k.work in w.t.work then w.t.work[k.work].key == k.key && !IsHeld(w.t, c, k.work)
               else forall id :: id in w.t.work ==> w.t.work[id].key != k.key
  {
    ClaimHandsOut(w, c);
    FilledIs(w, c);
    ClaimIs(w, c);
    HeldIs(w.t, c);
    var u := w.(t := Filled(w.t, c));
    HeldIs(u.t, c);
    assert Claimable(u.t, c, Next(u.t.work, Candidates(u.t, c)));
  }

  lemma HandedOutIsFirst(w: World, c: ClaimCall, j: Id)
    requires Legal(w, Claims(c)) && Reply(w, c).Some? && c.lease.Some?
    requires j in w.t.work && !IsHeld(w.t, c, j) && IsOverdue(w.t, c, w.t.work[j].key)
    ensures var k := Reply(w, c).value;
            || NextAttempt(w.t, c, k.work) < w.t.work[j].nextAttempt
            || (NextAttempt(w.t, c, k.work) == w.t.work[j].nextAttempt && k.work <= j)
  {
    ClaimHandsOut(w, c);
    FilledIs(w, c);
    HeldIs(w.t, c);
    assert Claimable(w.t, c, j);
    assert Claimable(w.t.(work := Filled(w.t, c).work), c, j);
  }

  /** Work whose lease has run out is handed out again: an uncontended claim on a mount with nothing
      else open takes it under its own token, as the next attempt. */
  lemma LapsedLeaseIsReclaimed(w: World, c: ClaimCall, id: Id)
    requires Inv(w) && Legal(w, Claims(c)) && Uncontended(c)
    requires id in w.t.work && !w.t.work[id].terminal && w.t.work[id].nextAttempt <= c.instant
    requires w.t.work[id].lease.Some? && w.t.work[id].lease.value.until <= c.instant
    requires IsOverdue(w.t, c, w.t.work[id].key)
    requires forall key :: key in w.t.receipts && key != w.t.work[id].key ==> !IsOpen(w.t, c, key)
    ensures Reply(w, c).Some?
    ensures var (k, v) := (Reply(w, c).value, Step(w, Claims(c)).t);
            && k.work == id && k.token == c.token && k.attempt == w.t.work[id].attempts + 1
            && k.until == c.instant + c.lease.value * MICROS
            && c.token != w.t.work[id].lease.value.token
            && id in v.work && v.work[id].lease == Some(Lease(c.token, k.until))
  {
    var key := w.t.work[id].key;
    assert IsOpen(w.t, c, key);
    assert key in OpenKeys(w.t, c);
    ClaimTakesOne(w, c);
    ClaimHandsOutExactly(w, c, id);
  }

  // ---------------------------------------------------------------- the order of the select

  /** Expiry first, then creation, then reference, then version. */
  predicate NotAfter(receipts: map<Key, Receipt>, a: Key, b: Key)
    requires a in receipts && b in receipts
  {
    && receipts[a].expires <= receipts[b].expires
    && (receipts[a].expires == receipts[b].expires ==>
          && a.created <= b.created
          && (a.created == b.created ==>
                && !TextLess(b.reference, a.reference)
                && (a.reference == b.reference ==> a.version <= b.version)))
  }

  /** The receipts selected for new work come in the order of the select, and those it leaves out
      come after all of them. */
  lemma SelectionIsOrdered(t: Tables, c: ClaimCall, i: nat, j: nat, k: Key)
    requires ValidClaim(c) && i < j < |Fill(t, c)|
    requires IsOverdue(t, c, k) && k !in Fill(t, c) && forall id :: id in t.work ==> t.work[id].key != k
    ensures Fill(t, c)[i] in t.receipts && Fill(t, c)[j] in t.receipts
    ensures NotAfter(t.receipts, Fill(t, c)[i], Fill(t, c)[j]) && Fill(t, c)[i] != Fill(t, c)[j]
    ensures NotAfter(t.receipts, Fill(t, c)[j], k) && |Fill(t, c)| == 100
  {
    FirstDueIs(t.receipts, MissingDue(t, c), c.backend.value, c.mount.value, BATCH);
    HeldIs(t, c);
    assert k in MissingDue(t, c);
    var (a, b) := (Fill(t, c)[i], Fill(t, c)[j]);
    TextOrder(a.reference, b.reference, a.reference);
    TextOrder(b.reference, k.reference, b.reference);
  }

  // ---------------------------------------------------------------- receipts

  /** Recording succeeds exactly for a receipt in order that is new or the same as before; what is
      recorded is that receipt, and nothing else changes. */
  lemma RecordsExactlyWhen(t: Tables, key: Key, receipt: Receipt)
    ensures Record(t, key, receipt).1.None? <==>
              && key.backend != 0 && MountFits(key.mount)
              && (exists uuid, number :: Refers(key.reference, uuid, number)) && 0 < key.version
              && key.created < receipt.deletion <= receipt.expires
              && (key in t.receipts ==> t.receipts[key] == receipt)
    ensures Record(t, key, receipt).0
         == if Record(t, key, receipt).1.None? then t.(receipts := t.receipts[key := receipt]) else t
  {
    ReferenceIs(key.reference);
    if key in t.receipts && t.receipts[key] == receipt {
      assert t.receipts[key := receipt] == t.receipts;
    }
  }
}
