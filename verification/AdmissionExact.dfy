/** What one call to the limiter answers and leaves, in the fields of its row. */
module AdmissionExact {
  import opened Common
  import opened Sorting
  import opened Admission

  /** The times of the log after `now` less sixty seconds, in ascending order. */
  ghost predicate Survive(kept: seq<int>, log: seq<int>, now: int) {
    Sorted(kept) && forall x :: multiset(kept)[x] == if x > now - 60_000_000 then multiset(log)[x] else 0
  }

  lemma {:induction false} RecentCounts(log: seq<int>, now: int, x: int)
    ensures multiset(Recent(log, now))[x] == if x > now - 60_000_000 then multiset(log)[x] else 0
  {
    if log != [] {
      RecentCounts(log[1..], now, x);
      assert log == [log[0]] + log[1..];
      assert multiset(log) == multiset{log[0]} + multiset(log[1..]);
    }
  }

  /** The three refusals: for a limit out of range, without a state row, and for a limit other than
      the one the row is bound to. A refusal leaves the row as it is. */
  lemma CallIsRefusedExactlyWhen(row: Option<Row>, call: Call)
    ensures Decide(row, call).1 == Err(BadLimit) <==>
              call.limit.None? || call.limit.value < 1 || 10_000 < call.limit.value
    ensures Decide(row, call).1 == Err(MissingRow) <==>
              row.None? && call.limit.Some? && 1 <= call.limit.value <= 10_000
    ensures Decide(row, call).1 == Err(LimitMismatch) <==>
              && row.Some? && call.limit.Some? && 1 <= call.limit.value <= 10_000
              && row.value.limit.Some? && row.value.limit.value != call.limit.value
    ensures Decide(row, call).1.Err? ==> Decide(row, call).0 == row
  {
  }

  /** A call that is not refused is allowed exactly when fewer admissions survive than its limit. It
      then stores them and itself; otherwise it stores nothing but the limit, and waits the least
      number of whole seconds, at least one, after which the oldest of them is out of the window. */
  lemma CallIsDecided(row: Option<Row>, call: Call) returns (kept: seq<int>)
    requires Decide(row, call).1.Ok?
    ensures row.Some? && call.limit.Some? && Survive(kept, row.value.attempts, call.now)
    ensures var (after, answer) := Decide(row, call);
            && (answer.value.allowed <==> |kept| < call.limit.value)
            && (answer.value.allowed ==>
                  answer.value.retryAfter == 0 && after == Some(Row(call.limit, kept + [call.now])))
            && (!answer.value.allowed ==>
                  && after == Some(Row(call.limit, row.value.attempts)) && kept != []
                  && 1 <= answer.value.retryAfter
                  && kept[0] + 60_000_000 <= call.now + answer.value.retryAfter * 1_000_000
                  && (1 < answer.value.retryAfter ==>
                        call.now + (answer.value.retryAfter - 1) * 1_000_000 < kept[0] + 60_000_000))
  {
    var recent := Recent(row.value.attempts, call.now);
    kept := Sort(recent);
    SortSorts(recent);
    SortLength(recent);
    forall x ensures multiset(kept)[x] == if x > call.now - 60_000_000 then multiset(row.value.attempts)[x] else 0 {
      RecentCounts(row.value.attempts, call.now, x);
    }
  }

  /** The survivors are determined by this, so the answer and the row are. */
  lemma SurvivorsAreUnique(a: seq<int>, b: seq<int>, log: seq<int>, now: int)
    requires Survive(a, log, now) && Survive(b, log, now)
    ensures a == b
  {
    assert forall x :: multiset(a)[x] == multiset(b)[x];
    assert multiset(a) == multiset(b);
    SortedUnique(a, b);
  }
}
