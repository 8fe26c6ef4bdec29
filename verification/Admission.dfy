/** The shared HTTP authentication limiter: one state row holding a pruned log of
    admission times, and the ideal limiter that never forgets an admission.
    Times are integer microseconds. */
module Admission {
  import opened Common
  import opened Sorting

  const SECOND: int := 1_000_000
  const WINDOW: int := 60 * SECOND
  const MAX_LIMIT: int := 10000

  datatype Error = BadLimit | MissingRow | LimitMismatch

  datatype Decision = Decision(allowed: bool, retryAfter: int)

  /** The singleton row: the limit once bound, and the stored admission times. */
  datatype Row = Row(limit: Option<int>, attempts: seq<int>)

  datatype Call = Call(limit: Option<int>, now: int)

  type Answer = Result<Decision, Error>

  // ---------------------------------------------------------------- the log

  /** The times still inside the window that ends at `now`. */
  function Recent(log: seq<int>, now: int): seq<int> {
    if log == [] then []
    else (if log[0] > now - WINDOW then [log[0]] else []) + Recent(log[1..], now)
  }

  // ---------------------------------------------------------------- one call

  /** CEIL of a microsecond interval in whole seconds. */
  function CeilSeconds(us: int): int { -((-us) / SECOND) }

  function WaitFor(oldest: int, now: int): int {
    var wait := CeilSeconds(oldest + WINDOW - now);
    if wait < 1 then 1 else wait
  }

  predicate LimitInRange(limit: Option<int>) {
    limit.Some? && 1 <= limit.value <= MAX_LIMIT
  }

  /** The guards of the command, in the order it tests them. */
  function Refusal(row: Option<Row>, limit: Option<int>): Option<Error> {
    if !LimitInRange(limit) then Some(BadLimit)
    else if row.None? then Some(MissingRow)
    else if row.value.limit.Some? && row.value.limit != limit then Some(LimitMismatch)
    else None
  }

  /** The answer and the row the command leaves. */
  function Decide(row: Option<Row>, call: Call): (Option<Row>, Answer) {
    var refusal := Refusal(row, call.limit);
    if refusal.Some? then (row, Err(refusal.value))
    else
      var kept := Sort(Recent(row.value.attempts, call.now));
      if |kept| < call.limit.value then
        (Some(Row(call.limit, kept + [call.now])), Ok(Decision(true, 0)))
      else
        (Some(Row(call.limit, row.value.attempts)),
         Ok(Decision(false, WaitFor(kept[0], call.now))))
  }

  /** The same decision taken by a limiter that keeps every admission ever made. */
  function DecideIdeal(row: Option<Row>, call: Call): (Option<Row>, Answer) {
    var refusal := Refusal(row, call.limit);
    if refusal.Some? then (row, Err(refusal.value))
    else
      var log := row.value.attempts;
      var kept := Recent(log, call.now);
      if |kept| < call.limit.value then
        (Some(Row(call.limit, log + [call.now])), Ok(Decision(true, 0)))
      else
        (Some(Row(call.limit, log)), Ok(Decision(false, WaitFor(Minimum(kept), call.now))))
  }

  function Minimum(s: seq<int>): int
    requires s != []
  {
    if |s| == 1 then s[0] else var m := Minimum(s[1..]); if s[0] <= m then s[0] else m
  }

  /** The state row, updated in place by the command. */
  class AdmissionState {
    var present: bool
    var configuredLimit: Option<int>
    var attempts: seq<int>

    function Stored(): Option<Row> reads this {
      if present then Some(Row(configuredLimit, attempts)) else None
    }

    constructor ()
      ensures Stored() == Some(Row(None, []))
    {
      present, configuredLimit, attempts := true, None, [];
    }

    method Admit(limit: Option<int>, now: int) returns (answer: Answer)
      modifies this
      ensures (Stored(), answer) == Decide(old(Stored()), Call(limit, now))
    {
      if limit.None? || limit.value < 1 || limit.value > MAX_LIMIT {
        return Err(BadLimit);
      }
      if !present {
        return Err(MissingRow);
      }
      if configuredLimit.None? {
        configuredLimit := limit;
      } else if configuredLimit.value != limit.value {
        return Err(LimitMismatch);
      }
      var kept := Prune(attempts, now);
      if |kept| < limit.value {
        attempts := kept + [now];
        return Ok(Decision(true, 0));
      }
      return Ok(Decision(false, WaitFor(kept[0], now)));
    }
  }

  /** The windowed scan: each surviving time goes to its place in time order. */
  method Prune(log: seq<int>, now: int) returns (kept: seq<int>)
    ensures kept == Sort(Recent(log, now))
    ensures Sorted(kept)
    ensures multiset(kept) == multiset(Recent(log, now))
  {
    kept := [];
    for i := 0 to |log|
      invariant Sorted(kept)
      invariant multiset(kept) == multiset(Recent(log[..i], now))
    {
      RecentOneMore(log, i, now);
      if log[i] > now - WINDOW {
        InsertSorts(log[i], kept);
        InsertAdds(log[i], kept);
        kept := Insert(log[i], kept);
      }
    }
    assert log[..|log|] == log;
    SortSorts(Recent(log, now));
    SortedUnique(kept, Sort(Recent(log, now)));
  }

  // ---------------------------------------------------------------- Recent

  lemma {:induction false} RecentConcat(a: seq<int>, b: seq<int>, now: int)
    ensures Recent(a + b, now) == Recent(a, now) + Recent(b, now)
  {
    if a == [] {
      assert a + b == b;
    } else {
      assert (a + b)[0] == a[0] && (a + b)[1..] == a[1..] + b;
      RecentConcat(a[1..], b, now);
    }
  }

  lemma RecentOneMore(log: seq<int>, i: nat, now: int)
    requires i < |log|
    ensures multiset(Recent(log[..i + 1], now))
         == multiset(Recent(log[..i], now)) + (if log[i] > now - WINDOW then multiset{log[i]} else multiset{})
  {
    assert log[..i + 1] == log[..i] + [log[i]];
    RecentConcat(log[..i], [log[i]], now);
    assert Recent([log[i]], now) == if log[i] > now - WINDOW then [log[i]] else [];
  }

  /** Forgetting what an earlier window dropped changes no later window. */
  lemma {:induction false} RecentTwice(log: seq<int>, earlier: int, later: int)
    requires earlier <= later
    ensures Recent(Recent(log, earlier), later) == Recent(log, later)
  {
    if log != [] {
      RecentTwice(log[1..], earlier, later);
      if log[0] > earlier - WINDOW {
        RecentConcat([log[0]], Recent(log[1..], earlier), later);
        assert Recent(log, earlier) == [log[0]] + Recent(log[1..], earlier);
      } else {
        assert Recent(log, earlier) == Recent(log[1..], earlier);
      }
    }
  }

  lemma {:induction false} RecentFloor(log: seq<int>, now: int, floor: int)
    requires forall i :: 0 <= i < |log| ==> floor <= log[i]
    ensures forall i :: 0 <= i < |Recent(log, now)| ==> floor <= Recent(log, now)[i]
  {
    if log != [] { RecentFloor(log[1..], now, floor); }
  }

  lemma {:induction false} RecentSorted(log: seq<int>, now: int)
    requires Sorted(log)
    ensures Sorted(Recent(log, now))
    ensures forall i :: 0 <= i < |Recent(log, now)| ==> Recent(log, now)[i] > now - WINDOW
  {
    if log != [] {
      RecentSorted(log[1..], now);
      RecentFloor(log[1..], now, log[0]);
    }
  }

  lemma {:induction false} RecentAll(log: seq<int>, now: int)
    requires forall i :: 0 <= i < |log| ==> log[i] > now - WINDOW
    ensures Recent(log, now) == log
  {
    if log != [] {
      RecentAll(log[1..], now);
    }
  }

  lemma {:induction false} LeastIsFirst(s: seq<int>)
    requires s != [] && Sorted(s)
    ensures Minimum(s) == s[0]
  {
    if |s| > 1 { LeastIsFirst(s[1..]); }
  }

  // ---------------------------------------------------------------- runs

  function Run(row: Option<Row>, calls: seq<Call>): (r: (Option<Row>, seq<Answer>))
    ensures |r.1| == |calls|
    decreases calls
  {
    if calls == [] then (row, [])
    else
      var (mid, answer) := Decide(row, calls[0]);
      var (end, answers) := Run(mid, calls[1..]);
      (end, [answer] + answers)
  }

  function RunIdeal(row: Option<Row>, calls: seq<Call>): (r: (Option<Row>, seq<Answer>))
    ensures |r.1| == |calls|
    decreases calls
  {
    if calls == [] then (row, [])
    else
      var (mid, answer) := DecideIdeal(row, calls[0]);
      var (end, answers) := RunIdeal(mid, calls[1..]);
      (end, [answer] + answers)
  }

  /** The clock never goes back, starting at `since`. */
  predicate ClockFrom(since: int, calls: seq<Call>)
    decreases calls
  {
    calls != [] ==> since <= calls[0].now && ClockFrom(calls[0].now, calls[1..])
  }

  function LastTime(since: int, calls: seq<Call>): int {
    if calls == [] then since else calls[|calls| - 1].now
  }

  predicate AllUpTo(log: seq<int>, at: int) {
    forall i :: 0 <= i < |log| ==> log[i] <= at
  }

  lemma {:induction false} RecentKeepsBound(log: seq<int>, now: int, at: int)
    requires AllUpTo(log, at)
    ensures AllUpTo(Recent(log, now), at)
  {
    if log != [] { RecentKeepsBound(log[1..], now, at); }
  }

  /** What pruning keeps of the full log at time `at`. */
  ghost predicate Tracks(row: Option<Row>, ideal: Option<Row>, at: int) {
    match (row, ideal) {
      case (None, None) => true
      case (Some(r), Some(i)) =>
        && r.limit == i.limit
        && Sorted(i.attempts)
        && AllUpTo(i.attempts, at)
        && Sorted(r.attempts)
        && (forall t :: t >= at ==> Recent(r.attempts, t) == Recent(i.attempts, t))
      case _ => false
    }
  }

  lemma StepTracks(row: Option<Row>, ideal: Option<Row>, at: int, call: Call)
    requires Tracks(row, ideal, at) && at <= call.now
    ensures Tracks(Decide(row, call).0, DecideIdeal(ideal, call).0, call.now)
    ensures Decide(row, call).1 == DecideIdeal(ideal, call).1
  {
    if Refusal(row, call.limit).None? {
      var log, now := ideal.value.attempts, call.now;
      var window := Recent(row.value.attempts, now);
      assert window == Recent(log, now);
      RecentSorted(log, now);
      SortOfSorted(window);
      RecentKeepsBound(log, now, at);
      if |window| < call.limit.value {
        forall t | t >= now
          ensures Recent(window + [now], t) == Recent(log + [now], t)
        {
          RecentConcat(window, [now], t);
          RecentConcat(log, [now], t);
          RecentTwice(log, now, t);
        }
      } else {
        LeastIsFirst(window);
      }
    }
  }

  /** On every run with a clock that never goes back, the pruned log gives exactly
      the answers, retry times included, of a limiter that forgets nothing. */
  lemma {:induction false} PrunedLogAnswersAsFullLog(row: Option<Row>, ideal: Option<Row>, at: int, calls: seq<Call>)
    requires Tracks(row, ideal, at) && ClockFrom(at, calls)
    ensures Run(row, calls).1 == RunIdeal(ideal, calls).1
    ensures Tracks(Run(row, calls).0, RunIdeal(ideal, calls).0, LastTime(at, calls))
    decreases calls
  {
    if calls != [] {
      StepTracks(row, ideal, at, calls[0]);
      PrunedLogAnswersAsFullLog(Decide(row, calls[0]).0, DecideIdeal(ideal, calls[0]).0, calls[0].now, calls[1..]);
    }
  }

  /** Admissions in the half-open window (t - 60s, t]. */
  function InWindow(log: seq<int>, t: int): nat {
    if log == [] then 0
    else (if t - WINDOW < log[0] <= t then 1 else 0) + InWindow(log[1..], t)
  }

  lemma {:induction false} InWindowConcat(a: seq<int>, b: seq<int>, t: int)
    ensures InWindow(a + b, t) == InWindow(a, t) + InWindow(b, t)
  {
    if a == [] {
      assert a + b == b;
    } else {
      assert (a + b)[0] == a[0] && (a + b)[1..] == a[1..] + b;
      InWindowConcat(a[1..], b, t);
    }
  }

  lemma {:induction false} InWindowAtMostRecent(log: seq<int>, now: int, t: int)
    requires now <= t
    ensures InWindow(log, t) <= |Recent(log, now)|
  {
    if log != [] { InWindowAtMostRecent(log[1..], now, t); }
  }

  /** The row as the migration inserts it. */
  predicate Installed(row: Option<Row>) {
    row == Some(Row(None, []))
  }

  /** From the installed row, forgetting old admissions is never visible. */
  lemma PruningIsInvisible(row: Option<Row>, calls: seq<Call>, start: int)
    requires Installed(row) && ClockFrom(start, calls)
    ensures Run(row, calls).1 == RunIdeal(row, calls).1
  {
    PrunedLogAnswersAsFullLog(row, row, start, calls);
  }

  /** The times at which a run answered "allowed". */
  function Admissions(calls: seq<Call>, answers: seq<Answer>): seq<int>
    requires |calls| == |answers|
  {
    if calls == [] then []
    else (if answers[0].Ok? && answers[0].value.allowed then [calls[0].now] else [])
         + Admissions(calls[1..], answers[1..])
  }

  lemma {:induction false} IdealLogIsAdmissions(row: Option<Row>, calls: seq<Call>)
    requires row.Some?
    ensures RunIdeal(row, calls).0.Some?
    ensures RunIdeal(row, calls).0.value.attempts
         == row.value.attempts + Admissions(calls, RunIdeal(row, calls).1)
    decreases calls
  {
    if calls != [] {
      IdealLogIsAdmissions(DecideIdeal(row, calls[0]).0, calls[1..]);
    }
  }

  // ---------------------------------------------------------------- retry-after

  /** What every reachable row satisfies once its limit is bound. */
  predicate Tight(row: Option<Row>, at: int) {
    row.Some? && Sorted(row.value.attempts) && AllUpTo(row.value.attempts, at)
    && match row.value.limit
       case None => row.value.attempts == []
       case Some(limit) => 1 <= limit <= MAX_LIMIT && |row.value.attempts| <= limit
  }

  lemma StepTight(row: Option<Row>, at: int, call: Call)
    requires Tight(row, at) && at <= call.now
    ensures Tight(Decide(row, call).0, call.now)
  {
    if Refusal(row, call.limit).None? {
      RecentSorted(row.value.attempts, call.now);
      RecentKeepsBound(row.value.attempts, call.now, at);
      SortOfSorted(Recent(row.value.attempts, call.now));
    }
  }

  lemma {:induction false} RunTight(row: Option<Row>, at: int, calls: seq<Call>)
    requires Tight(row, at) && ClockFrom(at, calls)
    ensures Tight(Run(row, calls).0, LastTime(at, calls))
    decreases calls
  {
    if calls != [] {
      StepTight(row, at, calls[0]);
      RunTight(Decide(row, calls[0]).0, calls[0].now, calls[1..]);
    }
  }

  /** The stored array never outgrows the bound limit, hence never the table's
      own bound, whatever the clock does. */
  lemma {:induction false} ArrayNeverExceedsLimit(row: Option<Row>, calls: seq<Call>)
    requires row.Some? && (row.value.limit.Some? ==> |row.value.attempts| <= row.value.limit.value <= MAX_LIMIT)
    requires row.value.limit.None? ==> row.value.attempts == []
    ensures var end := Run(row, calls).0;
            end.Some? && (end.value.limit.Some? ==> |end.value.attempts| <= end.value.limit.value <= MAX_LIMIT)
    decreases calls
  {
    if calls != [] {
      ArrayNeverExceedsLimit(Decide(row, calls[0]).0, calls[1..]);
    }
  }

  lemma {:induction false} RecentShrinks(log: seq<int>, now: int)
    ensures |Recent(log, now)| <= |log|
    ensures |Recent(log, now)| == |log| ==> forall i :: 0 <= i < |log| ==> log[i] > now - WINDOW
  {
    if log != [] { RecentShrinks(log[1..], now); }
  }

  predicate Denied(answer: Answer) {
    answer.Ok? && !answer.value.allowed
  }

  predicate Allowed(answer: Answer) {
    answer.Ok? && answer.value.allowed
  }

  /** After a denial the next answer is decided by the oldest admission alone. */
  lemma DenialWaitsForOldest(row: Option<Row>, at: int, call: Call, t: int)
    requires Tight(row, at) && at <= call.now <= t
    requires Denied(Decide(row, call).1)
    ensures var after := Decide(row, call).0;
            && after == Some(Row(call.limit, row.value.attempts)) && after == row
            && row.value.attempts != []
            && Decide(row, call).1.value.retryAfter == WaitFor(row.value.attempts[0], call.now)
            && call.now - WINDOW < row.value.attempts[0] <= call.now
            && (t >= row.value.attempts[0] + WINDOW ==> Allowed(Decide(after, Call(call.limit, t)).1))
            && (t < row.value.attempts[0] + WINDOW ==> Denied(Decide(after, Call(call.limit, t)).1))
  {
    var log := row.value.attempts;
    RecentShrinks(log, call.now);
    RecentShrinks(log, t);
    RecentSorted(log, call.now);
    RecentSorted(log, t);
    SortOfSorted(Recent(log, call.now));
    RecentAll(log, call.now);
    SortOfSorted(Recent(log, t));
    if t < log[0] + WINDOW { RecentAll(log, t); }
  }

  /** Calls that admit nobody leave the row as it was. */
  lemma {:induction false} RefusalsLeaveRow(row: Option<Row>, calls: seq<Call>)
    requires row.Some? && row.value.limit.Some?
    requires NobodyAdmitted(row, calls)
    ensures Run(row, calls).0 == row
    decreases calls
  {
    if calls != [] {
      var mid := Decide(row, calls[0]).0;
      assert !Allowed(Run(row, calls).1[0]);
      assert mid == row;
      forall i | 0 <= i < |calls[1..]| ensures !Allowed(Run(mid, calls[1..]).1[i]) {
        assert Run(row, calls).1[i + 1] == Run(mid, calls[1..]).1[i];
      }
      RefusalsLeaveRow(mid, calls[1..]);
    }
  }

  /** On any run, a denial's wait is between 1 and 60 seconds; if nobody is admitted
      meanwhile, a retry after that wait is allowed, and a retry after any smaller
      whole number of seconds is denied. */
  lemma RetryAfterIsExact(row: Option<Row>, calls: seq<Call>, start: int, call: Call, between: seq<Call>, seconds: int)
    requires Installed(row) && ClockFrom(start, calls) && LastTime(start, calls) <= call.now
    requires Denied(Decide(Run(row, calls).0, call).1)
    requires NobodyAdmitted(Decide(Run(row, calls).0, call).0, between)
    ensures var denial := Decide(Run(row, calls).0, call);
            var wait := denial.1.value.retryAfter;
            var retry := Decide(Run(denial.0, between).0, Call(call.limit, call.now + seconds * SECOND)).1;
            && 1 <= wait <= 60
            && (seconds >= wait ==> Allowed(retry))
            && (1 <= seconds < wait ==> Denied(retry))
  {
    RunTight(row, start, calls);
    DenialIsExact(Run(row, calls).0, LastTime(start, calls), call, between, seconds);
  }

  predicate NobodyAdmitted(row: Option<Row>, calls: seq<Call>) {
    forall i :: 0 <= i < |calls| ==> !Allowed(Run(row, calls).1[i])
  }

  lemma DenialIsExact(row: Option<Row>, at: int, call: Call, between: seq<Call>, seconds: int)
    requires Tight(row, at) && at <= call.now
    requires Denied(Decide(row, call).1)
    requires NobodyAdmitted(Decide(row, call).0, between)
    ensures var wait := Decide(row, call).1.value.retryAfter;
            var later := Run(Decide(row, call).0, between).0;
            var retry := Decide(later, Call(call.limit, call.now + seconds * SECOND)).1;
            && 1 <= wait <= 60
            && (seconds >= wait ==> Allowed(retry))
            && (1 <= seconds < wait ==> Denied(retry))
  {
    DenialWaitsForOldest(row, at, call, call.now);
    RefusalsLeaveRow(row, between);
    CeilIsLeast(row.value.attempts[0] + WINDOW - call.now, seconds);
    if seconds >= 1 {
      DenialWaitsForOldest(row, at, call, call.now + seconds * SECOND);
    }
  }

  lemma CeilIsLeast(us: int, seconds: int)
    requires 0 < us <= WINDOW
    ensures 1 <= CeilSeconds(us) <= 60
    ensures seconds * SECOND >= us <==> seconds >= CeilSeconds(us)
  {
    var q := (-us) / SECOND;
    assert q * SECOND <= -us < (q + 1) * SECOND;
  }

  lemma Admits(row: Option<Row>, limit: int, now: int, kept: seq<int>, next: seq<int>)
    requires row.Some? && 1 <= limit <= MAX_LIMIT
    requires row.value.limit.None? || row.value.limit == Some(limit)
    requires Recent(row.value.attempts, now) == kept && Sorted(kept) && |kept| < limit
    requires next == kept + [now]
    ensures Decide(row, Call(Some(limit), now)) == (Some(Row(Some(limit), next)), Ok(Decision(true, 0)))
  {
    SortOfSorted(kept);
  }
}
