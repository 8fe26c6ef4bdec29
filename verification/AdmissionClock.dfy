/** What the limiter's promises ask of the clock, exactly: which sequences of readings keep
    every window within the limit, and when the wait it answers stays within the window. */
module AdmissionClock {
  import opened Common
  import opened Sorting
  import opened Admission

  // ---------------------------------------------------------------- readings

  /** The calls take the readings in order, each any number of times. */
  predicate Takes(calls: seq<Call>, r: seq<int>)
    decreases |calls| + |r|
  {
    calls == [] || (r != [] && ((calls[0].now == r[0] && Takes(calls[1..], r)) || Takes(calls, r[1..])))
  }

  /** Two times that one window of sixty seconds can hold. */
  predicate Near(a: int, b: int) {
    a - b < WINDOW && b - a < WINDOW
  }

  /** A reading far enough on to forget `x`, before one that is near `x` again. */
  predicate Forgets(x: int, later: int, again: int) {
    later >= x + WINDOW && Near(x, again)
  }

  /** No reading is forgotten at a second one and near a third. */
  predicate KeepsItsPast(r: seq<int>) {
    forall i, j, k | 0 <= i < j < k < |r| :: !Forgets(r[i], r[j], r[k])
  }

  /** Every window of the run holds at most the limit it is bound to. */
  ghost predicate WithinLimit(row: Option<Row>, calls: seq<Call>) {
    forall t :: Holds(Run(row, calls).0, Admissions(calls, Run(row, calls).1), t)
  }

  predicate Holds(end: Option<Row>, granted: seq<int>, t: int) {
    end.Some? && if end.value.limit.None? then granted == [] else InWindow(granted, t) <= end.value.limit.value
  }

  // ---------------------------------------------------------------- counting

  lemma TakenOut(s: seq<int>, i: nat, t: int)
    requires i < |s|
    ensures multiset(s[..i] + s[i + 1..]) == multiset(s) - multiset{s[i]}
    ensures InWindow(s, t) == InWindow([s[i]], t) + InWindow(s[..i] + s[i + 1..], t)
  {
    assert s == s[..i] + ([s[i]] + s[i + 1..]);
    InWindowConcat(s[..i], [s[i]] + s[i + 1..], t);
    InWindowConcat([s[i]], s[i + 1..], t);
    InWindowConcat(s[..i], s[i + 1..], t);
  }

  lemma {:induction false} InWindowPermutes(a: seq<int>, b: seq<int>, t: int)
    requires multiset(a) == multiset(b)
    ensures InWindow(a, t) == InWindow(b, t)
    decreases |a|
  {
    assert |multiset(a)| == |multiset(b)|;
    if a != [] {
      assert a[0] in multiset(b);
      var i :| 0 <= i < |b| && b[i] == a[0];
      var (x, y) := (a[..0] + a[1..], b[..i] + b[i + 1..]);
      TakenOut(a, 0, t);
      TakenOut(b, i, t);
      assert multiset(x) == multiset(y);
      InWindowPermutes(x, y, t);
    }
  }

  lemma {:induction false} NoneInWindow(log: seq<int>, now: int, t: int)
    requires t - WINDOW < now <= t && forall x :: 0 <= x < |log| ==> !Near(log[x], now)
    ensures InWindow(log, t) == 0
  {
    if log != [] { NoneInWindow(log[1..], now, t); }
  }

  /** The times a pruning at `now` drops. */
  function Dropped(log: seq<int>, now: int): seq<int> {
    if log == [] then []
    else (if log[0] > now - WINDOW then [] else [log[0]]) + Dropped(log[1..], now)
  }

  lemma {:induction false} PruningSplits(log: seq<int>, now: int)
    ensures multiset(Recent(log, now)) + multiset(Dropped(log, now)) == multiset(log)
  {
    if log != [] {
      PruningSplits(log[1..], now);
      assert log == [log[0]] + log[1..];
      if log[0] > now - WINDOW {
        assert Recent(log, now) == [log[0]] + Recent(log[1..], now) && Dropped(log, now) == Dropped(log[1..], now);
      } else {
        assert Recent(log, now) == Recent(log[1..], now) && Dropped(log, now) == [log[0]] + Dropped(log[1..], now);
      }
    }
  }

  lemma {:induction false} RecentIs(log: seq<int>, now: int, x: int)
    ensures x in Recent(log, now) <==> x in log && x > now - WINDOW
    ensures x in Dropped(log, now) <==> x in log && x <= now - WINDOW
  {
    if log != [] {
      RecentIs(log[1..], now, x);
      assert log == [log[0]] + log[1..];
    }
  }

  // ---------------------------------------------------------------- enough: readings that keep their past

  /** No stored time can be forgotten by these readings and then be near one of them. */
  predicate Safe(stored: seq<int>, r: seq<int>) {
    forall x, j, k | 0 <= x < |stored| && 0 <= j < k < |r| :: !Forgets(stored[x], r[j], r[k])
  }

  /** No forgotten time is near any of these readings. */
  predicate Gone(lost: seq<int>, r: seq<int>) {
    forall x, k | 0 <= x < |lost| && 0 <= k < |r| :: !Near(lost[x], r[k])
  }

  /** `log` holds everything granted, `lost` what the row has forgotten of it. */
  ghost predicate Follows(row: Option<Row>, log: seq<int>, lost: seq<int>, r: seq<int>) {
    && row.Some? && KeepsItsPast(r)
    && multiset(log) == multiset(row.value.attempts) + multiset(lost)
    && Safe(row.value.attempts, r) && Gone(lost, r)
    && forall t :: Holds(row, log, t)
  }

  lemma SuffixFollows(row: Option<Row>, log: seq<int>, lost: seq<int>, r: seq<int>)
    requires Follows(row, log, lost, r) && r != []
    ensures Follows(row, log, lost, r[1..])
  {
    var rest := r[1..];
    assert forall k :: 0 <= k < |rest| ==> rest[k] == r[k + 1];
    forall i, j, k | 0 <= i < j < k < |rest| ensures !Forgets(rest[i], rest[j], rest[k]) {
      assert !Forgets(r[i + 1], r[j + 1], r[k + 1]);
    }
    forall x, j, k | 0 <= x < |row.value.attempts| && 0 <= j < k < |rest|
      ensures !Forgets(row.value.attempts[x], rest[j], rest[k])
    {
      assert !Forgets(row.value.attempts[x], r[j + 1], r[k + 1]);
    }
    forall x, k | 0 <= x < |lost| && 0 <= k < |rest| ensures !Near(lost[x], rest[k]) {
      assert !Near(lost[x], r[k + 1]);
    }
  }

  lemma StoredStaysSafe(stored: seq<int>, kept: seq<int>, r: seq<int>)
    requires Safe(stored, r) && KeepsItsPast(r) && r != [] && multiset(kept) == multiset(Recent(stored, r[0]))
    ensures Safe(kept + [r[0]], r)
  {
    var next := kept + [r[0]];
    forall x, j, k | 0 <= x < |next| && 0 <= j < k < |r| ensures !Forgets(next[x], r[j], r[k]) {
      if x < |kept| {
        assert kept[x] in multiset(kept);
        assert kept[x] in multiset(Recent(stored, r[0]));
        RecentIs(stored, r[0], kept[x]);
        var y :| 0 <= y < |stored| && stored[y] == kept[x];
        assert !Forgets(stored[y], r[j], r[k]);
      } else if j > 0 {
        assert !Forgets(r[0], r[j], r[k]);
      }
    }
  }

  lemma LostStaysGone(stored: seq<int>, lost: seq<int>, r: seq<int>)
    requires Safe(stored, r) && Gone(lost, r) && r != []
    ensures Gone(lost + Dropped(stored, r[0]), r)
  {
    var gone := lost + Dropped(stored, r[0]);
    forall x, k | 0 <= x < |gone| && 0 <= k < |r| ensures !Near(gone[x], r[k]) {
      if x < |lost| {
        assert gone[x] == lost[x];
      } else {
        RecentIs(stored, r[0], gone[x]);
        var y :| 0 <= y < |stored| && stored[y] == gone[x];
        assert k > 0 ==> !Forgets(stored[y], r[0], r[k]);
      }
    }
  }

  /** What is lost is far from now, so the row counts everything a window around now holds. */
  lemma WindowIsCounted(row: Option<Row>, log: seq<int>, lost: seq<int>, now: int, t: int)
    requires row.Some? && multiset(log) == multiset(row.value.attempts) + multiset(lost)
    requires forall x :: 0 <= x < |lost| ==> !Near(lost[x], now)
    requires t - WINDOW < now <= t
    ensures InWindow(log, t) <= |Recent(row.value.attempts, now)|
  {
    assert multiset(row.value.attempts + lost) == multiset(log);
    InWindowPermutes(log, row.value.attempts + lost, t);
    InWindowConcat(row.value.attempts, lost, t);
    NoneInWindow(lost, now, t);
    InWindowAtMostRecent(row.value.attempts, now, t);
  }

  lemma AdmissionFollows(row: Option<Row>, log: seq<int>, lost: seq<int>, r: seq<int>, call: Call)
    requires Follows(row, log, lost, r) && r != [] && call.now == r[0] && Allowed(Decide(row, call).1)
    ensures Follows(Decide(row, call).0, log + [call.now], lost + Dropped(row.value.attempts, call.now), r)
  {
    var (stored, now) := (row.value.attempts, call.now);
    var kept := Sort(Recent(stored, now));
    SortSorts(Recent(stored, now));
    SortLength(Recent(stored, now));
    PruningSplits(stored, now);
    StoredStaysSafe(stored, kept, r);
    LostStaysGone(stored, lost, r);
    forall t ensures Holds(Decide(row, call).0, log + [now], t) {
      assert Holds(row, log, t);
      InWindowConcat(log, [now], t);
      if t - WINDOW < now <= t {
        forall x | 0 <= x < |lost| ensures !Near(lost[x], now) { assert !Near(lost[x], r[0]); }
        WindowIsCounted(row, log, lost, now, t);
      }
    }
  }

  lemma UnboundIsEmpty(row: Option<Row>, log: seq<int>, lost: seq<int>)
    requires row.Some? && Holds(row, log, 0) && multiset(log) == multiset(row.value.attempts) + multiset(lost)
    ensures row.value.limit.None? ==> row.value.attempts == []
  {
    assert |multiset(log)| == |multiset(row.value.attempts)| + |multiset(lost)|;
  }

  lemma RefusalFollows(row: Option<Row>, log: seq<int>, lost: seq<int>, r: seq<int>, call: Call)
    requires Follows(row, log, lost, r) && !Allowed(Decide(row, call).1)
    ensures Decide(row, call).0 == row
  {
    assert Holds(row, log, 0);
    UnboundIsEmpty(row, log, lost);
    SortLength(Recent(row.value.attempts, call.now));
  }

  lemma {:induction false} RunFollows(row: Option<Row>, log: seq<int>, lost: seq<int>, r: seq<int>,
                               calls: seq<Call>, t: int)
    requires Follows(row, log, lost, r) && Takes(calls, r)
    ensures Holds(Run(row, calls).0, log + Admissions(calls, Run(row, calls).1), t)
    decreases |calls| + |r|
  {
    if calls == [] {
      assert Holds(row, log, t);
      assert log + [] == log;
    } else if calls[0].now == r[0] && Takes(calls[1..], r) {
      var mid := Decide(row, calls[0]);
      var rest := Admissions(calls[1..], Run(mid.0, calls[1..]).1);
      if Allowed(mid.1) {
        AdmissionFollows(row, log, lost, r, calls[0]);
        RunFollows(mid.0, log + [calls[0].now], lost + Dropped(row.value.attempts, calls[0].now), r, calls[1..], t);
        assert log + [calls[0].now] + rest == log + ([calls[0].now] + rest);
      } else {
        RefusalFollows(row, log, lost, r, calls[0]);
        RunFollows(row, log, lost, r, calls[1..], t);
        assert [] + rest == rest;
      }
    } else {
      SuffixFollows(row, log, lost, r);
      RunFollows(row, log, lost, r[1..], calls, t);
    }
  }

  // ---------------------------------------------------------------- needed: readings that forget

  lemma {:induction false} TakesFrom(calls: seq<Call>, r: seq<int>, i: nat)
    requires i < |r| && calls != [] && calls[0].now == r[i] && Takes(calls[1..], r[i..])
    ensures Takes(calls, r)
  {
    if i == 0 {
      assert r[0..] == r;
    } else {
      assert r[1..][i - 1..] == r[i..];
      TakesFrom(calls, r[1..], i - 1);
    }
  }

  /** Two calls at `a`, one at `b` and one at `c`, all asking for two a minute. */
  predicate IsWitness(calls: seq<Call>, a: int, b: int, c: int) {
    && |calls| == 4
    && (forall n :: 0 <= n < 4 ==> calls[n].limit == Some(2))
    && calls[0].now == calls[1].now == a && calls[2].now == b && calls[3].now == c
  }

  lemma WitnessTakes(calls: seq<Call>, r: seq<int>, i: nat, j: nat, k: nat)
    requires i < j < k < |r| && IsWitness(calls, r[i], r[j], r[k])
    ensures Takes(calls, r)
  {
    assert calls[3..][1..] == [] && calls[2..][1..] == calls[3..] && calls[1..][1..] == calls[2..];
    assert r[i..][j - i..] == r[j..] && r[j..][k - j..] == r[k..];
    TakesFrom(calls[3..], r[j..], k - j);
    TakesFrom(calls[2..], r[i..], j - i);
    assert r[i..][0..] == r[i..];
    TakesFrom(calls[1..], r[i..], 0);
    TakesFrom(calls, r, i);
  }

  lemma {:induction false} RunOne(row: Option<Row>, calls: seq<Call>)
    requires calls != []
    ensures Run(row, calls) == (Run(Decide(row, calls[0]).0, calls[1..]).0,
                                [Decide(row, calls[0]).1] + Run(Decide(row, calls[0]).0, calls[1..]).1)
    ensures Admissions(calls, Run(row, calls).1)
         == (if Allowed(Decide(row, calls[0]).1) then [calls[0].now] else [])
            + Admissions(calls[1..], Run(Decide(row, calls[0]).0, calls[1..]).1)
  {
    var rest := Run(Decide(row, calls[0]).0, calls[1..]).1;
    assert ([Decide(row, calls[0]).1] + rest)[1..] == rest;
  }

  lemma RecentOfOne(x: int, now: int)
    ensures Recent([x], now) == if x > now - WINDOW then [x] else []
  {
  }

  /** Once `b` has emptied the window, `c` is admitted whether or not it counts `b`. */
  lemma {:induction false} LastTwo(row: Option<Row>, calls: seq<Call>, b: int, c: int)
    requires row.Some? && row.value.limit == Some(2) && Recent(row.value.attempts, b) == []
    requires |calls| == 2 && calls[0] == Call(Some(2), b) && calls[1] == Call(Some(2), c)
    ensures Run(row, calls).0.Some? && Run(row, calls).0.value.limit == Some(2)
    ensures Admissions(calls, Run(row, calls).1) == [b] + [c]
  {
    var mid := Some(Row(Some(2), [b]));
    RecentOfOne(b, c);
    Admits(row, 2, b, [], [b]);
    Admits(mid, 2, c, Recent([b], c), Recent([b], c) + [c]);
    RunOne(row, calls);
    RunOne(mid, calls[1..]);
    assert calls[1..][1..] == [];
  }

  lemma {:induction false} WitnessRuns(row: Option<Row>, calls: seq<Call>, a: int, b: int, c: int)
    requires Installed(row) && IsWitness(calls, a, b, c) && Forgets(a, b, c)
    ensures Run(row, calls).0.Some? && Run(row, calls).0.value.limit == Some(2)
    ensures Admissions(calls, Run(row, calls).1) == [a] + ([a] + ([b] + [c]))
  {
    var one := Some(Row(Some(2), [a]));
    var two := Some(Row(Some(2), [a] + [a]));
    RecentOfOne(a, a);
    RecentOfOne(a, b);
    RecentConcat([a], [a], b);
    Admits(row, 2, a, [], [a]);
    Admits(one, 2, a, [a], [a] + [a]);
    RunOne(row, calls);
    RunOne(one, calls[1..]);
    assert calls[1..][1..] == calls[2..];
    LastTwo(two, calls[2..], b, c);
  }

  /** All four are admitted, and three of them share a window. */
  lemma {:induction false} WitnessBreaksLimit(row: Option<Row>, calls: seq<Call>, a: int, b: int, c: int)
    requires Installed(row) && IsWitness(calls, a, b, c) && Forgets(a, b, c)
    ensures !WithinLimit(row, calls)
  {
    var t := if a < c then c else a;
    WitnessRuns(row, calls, a, b, c);
    InWindowConcat([a], [a] + ([b] + [c]), t);
    InWindowConcat([a], [b] + [c], t);
    InWindowConcat([b], [c], t);
    assert !Holds(Run(row, calls).0, Admissions(calls, Run(row, calls).1), t);
  }

  // ---------------------------------------------------------------- the exact condition

  /** Whatever the limit and however often each reading is taken, every window of every run
      from the installed row stays within the limit if and only if no reading is forgotten at
      a second one and near a third. */
  lemma LimitHoldsExactlyWhen(row: Option<Row>, r: seq<int>)
    requires Installed(row)
    ensures (forall calls | Takes(calls, r) :: WithinLimit(row, calls)) <==> KeepsItsPast(r)
  {
    if KeepsItsPast(r) {
      forall calls | Takes(calls, r) ensures WithinLimit(row, calls) {
        forall t ensures Holds(Run(row, calls).0, Admissions(calls, Run(row, calls).1), t) {
          RunFollows(row, [], [], r, calls, t);
          assert [] + Admissions(calls, Run(row, calls).1) == Admissions(calls, Run(row, calls).1);
        }
      }
    } else {
      var i, j, k :| 0 <= i < j < k < |r| && Forgets(r[i], r[j], r[k]);
      var calls := [Call(Some(2), r[i]), Call(Some(2), r[i]), Call(Some(2), r[j]), Call(Some(2), r[k])];
      WitnessTakes(calls, r, i, j, k);
      WitnessBreaksLimit(row, calls, r[i], r[j], r[k]);
    }
  }

  /** The clock readings of a run, one a call. */
  function Times(calls: seq<Call>): (r: seq<int>)
    ensures |r| == |calls| && forall i :: 0 <= i < |calls| ==> r[i] == calls[i].now
  {
    if calls == [] then [] else [calls[0].now] + Times(calls[1..])
  }

  lemma {:induction false} TakesTimes(calls: seq<Call>, r: seq<int>)
    requires |r| == |calls| && forall i :: 0 <= i < |calls| ==> r[i] == calls[i].now
    ensures Takes(calls, r)
  {
    if calls != [] {
      TakesTimes(calls[1..], r[1..]);
      assert Takes(calls[1..], r);
    }
  }

  lemma {:induction false} ForwardTimesAscend(start: int, calls: seq<Call>)
    requires ClockFrom(start, calls)
    ensures Sorted(Times(calls))
    ensures forall i :: 0 <= i < |calls| ==> start <= calls[i].now
    decreases |calls|
  {
    if calls != [] { ForwardTimesAscend(calls[0].now, calls[1..]); }
  }

  /** The safety theorem, as the case of a clock that never goes back: after any run from the
      installed row the admissions ever granted put at most the bound limit in any interval
      of sixty seconds. */
  lemma NoWindowExceedsLimit(row: Option<Row>, calls: seq<Call>, start: int, t: int)
    requires Installed(row) && ClockFrom(start, calls)
    ensures var granted := Admissions(calls, Run(row, calls).1);
            match Run(row, calls).0
            case Some(end) =>
              (match end.limit case Some(limit) => InWindow(granted, t) <= limit case None => granted == [])
            case None => false
  {
    ForwardTimesAscend(start, calls);
    TakesTimes(calls, Times(calls));
    LimitHoldsExactlyWhen(row, Times(calls));
    assert KeepsItsPast(Times(calls));
    assert WithinLimit(row, calls);
    assert Holds(Run(row, calls).0, Admissions(calls, Run(row, calls).1), t);
  }

  /** For every denial, whatever the clock has done: the wait is at least a second, and at
      most sixty exactly when some counted admission is not after now. */
  lemma WaitIsWithinWindowExactlyWhen(row: Option<Row>, call: Call)
    requires Denied(Decide(row, call).1)
    ensures var wait := Decide(row, call).1.value.retryAfter;
            && 1 <= wait
            && (wait <= 60 <==> exists i :: 0 <= i < |row.value.attempts|
                                  && call.now - WINDOW < row.value.attempts[i] <= call.now)
  {
    var log := row.value.attempts;
    SortLength(Recent(log, call.now));
    CeilWithin(Sort(Recent(log, call.now))[0] + WINDOW - call.now);
    OldestCounted(log, call.now);
  }

  lemma OldestCounted(log: seq<int>, now: int)
    requires Sort(Recent(log, now)) != []
    ensures Sort(Recent(log, now))[0] <= now <==> exists i :: 0 <= i < |log| && now - WINDOW < log[i] <= now
  {
    var kept := Sort(Recent(log, now));
    SortSorts(Recent(log, now));
    assert kept[0] in multiset(kept);
    RecentIs(log, now, kept[0]);
    if i :| 0 <= i < |log| && now - WINDOW < log[i] <= now {
      RecentIs(log, now, log[i]);
      assert log[i] in multiset(Recent(log, now));
      assert log[i] in kept;
    }
  }

  lemma CeilWithin(us: int)
    ensures CeilSeconds(us) <= 60 <==> us <= WINDOW
  {
  }
}
