/** The load probe's pool of workers over shared counters, under any interleaving of its
    tasks, and the percentiles of its latencies. Times are integer ticks of one clock. */
module LoadProbe {
  import opened Common
  import opened Sorting

  /** A validated plan: requests at most, tasks at once, and the length of a duration trial. */
  datatype Config = Config(cap: nat, concurrency: nat, duration: Option<int>)

  predicate ValidConfig(c: Config) {
    1 <= c.cap <= 10000 && 1 <= c.concurrency <= 128 && (c.duration.Some? ==> c.duration.value >= 1)
  }

  datatype Outcome = Response(status: nat) | TooLarge | BadEncoding | TransportError

  function Name(o: Outcome): string {
    match o
    case Response(status) => Digits(status)
    case TooLarge => "response_too_large"
    case BadEncoding => "unsupported_content_encoding"
    case TransportError => "transport_error"
  }

  predicate IsError(o: Outcome) {
    o.Response? ==> o.status >= 300
  }

  /** Where a worker stands: at its loop test, before the semaphore, in a request, or gone. */
  datatype Worker = Looping | Entering | InRequest(since: int) | LeftAtCap | LeftAtDeadline(at: int)

  /** `statuses` is the Counter of status names. */
  datatype State = State(
    workers: seq<Worker>, issued: nat, active: int, peak: int, latencies: seq<int>,
    statuses: multiset<string>, errors: nat, lastIssued: int)

  function Start(c: Config): State {
    State(seq(c.concurrency, _ => Looping), 0, 0, 0, [], multiset{}, 0, 0)
  }

  // ---------------------------------------------------------------- the atomic steps of a task

  /** From the loop test to the request: no other task runs in between. */
  function Test(c: Config, started: int, s: State, i: nat, now: int): State
    requires i < |s.workers|
  {
    if s.issued >= c.cap then s.(workers := s.workers[i := LeftAtCap])
    else if c.duration.Some? && now - started >= c.duration.value
    then s.(workers := s.workers[i := LeftAtDeadline(now)])
    else s.(workers := s.workers[i := Entering], issued := s.issued + 1, lastIssued := now - started)
  }

  /** Acquiring the semaphore. */
  function Enter(s: State, i: nat, now: int): State
    requires i < |s.workers|
  {
    s.(workers := s.workers[i := InRequest(now)], active := s.active + 1,
       peak := if s.peak < s.active + 1 then s.active + 1 else s.peak)
  }

  /** The request ends, however it ends, and the worker returns to its loop test. */
  function Finish(s: State, i: nat, now: int, o: Outcome): State
    requires i < |s.workers| && s.workers[i].InRequest?
  {
    s.(workers := s.workers[i := Looping], active := s.active - 1,
       latencies := s.latencies + [now - s.workers[i].since], statuses := s.statuses + multiset{Name(o)},
       errors := s.errors + (if IsError(o) then 1 else 0))
  }

  predicate Done(s: State) {
    forall i :: 0 <= i < |s.workers| ==> s.workers[i].LeftAtCap? || s.workers[i].LeftAtDeadline?
  }

  function DurationCompleted(c: Config, s: State, elapsed: int): bool {
    c.duration.None? || (s.issued < c.cap && elapsed >= c.duration.value)
  }

  function ErrorRate(s: State): real {
    if s.issued == 0 then 1.0 else s.errors as real / s.issued as real
  }

  // ---------------------------------------------------------------- the shared counters

  /** What the workers of one run share. */
  class Probe {
    const config: Config
    const started: int
    var workers: seq<Worker>
    var issued: nat
    var active: int
    var peak: int
    var latencies: seq<int>
    var statuses: multiset<string>
    var errors: nat
    var lastIssued: int

    function Shared(): State reads this {
      State(workers, issued, active, peak, latencies, statuses, errors, lastIssued)
    }

    constructor (config: Config, started: int)
      ensures Shared() == Start(config) && this.config == config && this.started == started
    {
      this.config, this.started := config, started;
      workers := seq(config.concurrency, _ => Looping);
      issued, active, peak, latencies := 0, 0, 0, [];
      statuses, errors, lastIssued := multiset{}, 0, 0;
    }

    method TestAndIssue(i: nat, now: int)
      requires i < |workers|
      modifies this
      ensures Shared() == Test(config, started, old(Shared()), i, now)
    {
      if issued >= config.cap {
        workers := workers[i := LeftAtCap];
        return;
      }
      if config.duration.Some? && now - started >= config.duration.value {
        workers := workers[i := LeftAtDeadline(now)];
        return;
      }
      issued := issued + 1;
      lastIssued := now - started;
      workers := workers[i := Entering];
    }

    method EnterRequest(i: nat, now: int)
      requires i < |workers|
      modifies this
      ensures Shared() == Enter(old(Shared()), i, now)
    {
      active := active + 1;
      if peak < active {
        peak := active;
      }
      workers := workers[i := InRequest(now)];
    }

    method FinishRequest(i: nat, now: int, o: Outcome)
      requires i < |workers| && workers[i].InRequest?
      modifies this
      ensures Shared() == Finish(old(Shared()), i, now, o)
    {
      latencies := latencies + [now - workers[i].since];
      statuses := statuses + multiset{Name(o)};
      if IsError(o) {
        errors := errors + 1;
      }
      active := active - 1;
      workers := workers[i := Looping];
    }

    /** The pool at work: the event loop takes the tasks' steps in an order of its own. */
    method Gather(events: seq<Event>)
      requires Shared() == Start(config) && LegalRun(config, started, events)
      modifies this
      ensures Shared() == Run(config, started, events)
    {
      for k := 0 to |events|
        invariant LegalRun(config, started, events[..k]) && Shared() == Run(config, started, events[..k])
      {
        NextStep(config, started, events, k);
        match events[k]
        case Tests(i, now) => TestAndIssue(i, now);
        case Enters(i, now) => EnterRequest(i, now);
        case Finishes(i, now, o) => FinishRequest(i, now, o);
      }
      assert events[..|events|] == events;
    }
  }

  lemma {:induction false} LegalPrefix(c: Config, started: int, events: seq<Event>, k: nat)
    requires LegalRun(c, started, events) && k <= |events|
    ensures LegalRun(c, started, events[..k])
    decreases |events|
  {
    if k < |events| {
      LegalPrefix(c, started, events[..|events| - 1], k);
      assert events[..|events| - 1][..k] == events[..k];
    } else {
      assert events[..k] == events;
    }
  }

  lemma NextStep(c: Config, started: int, events: seq<Event>, k: nat)
    requires LegalRun(c, started, events) && k < |events|
    ensures LegalRun(c, started, events[..k]) && LegalRun(c, started, events[..k + 1])
    ensures var s := Run(c, started, events[..k]);
            && events[k].i < |s.workers| && (events[k].Finishes? ==> s.workers[events[k].i].InRequest?)
            && Run(c, started, events[..k + 1]) == Step(c, started, s, events[k])
  {
    LegalPrefix(c, started, events, k);
    LegalPrefix(c, started, events, k + 1);
    assert events[..k + 1][..k] == events[..k] && events[..k + 1][k] == events[k];
  }

  // ---------------------------------------------------------------- runs

  datatype Event =
    | Tests(i: nat, now: int)
    | Enters(i: nat, now: int)
    | Finishes(i: nat, now: int, outcome: Outcome)

  /** A task takes a step only from where it stands; the semaphore lets in at most
      `concurrency`; the clock does not run backwards. */
  predicate Legal(c: Config, s: State, e: Event, clock: int) {
    && e.i < |s.workers| && clock <= e.now
    && match e
       case Tests(i, _) => s.workers[i].Looping?
       case Enters(i, _) => s.workers[i].Entering? && s.active < c.concurrency
       case Finishes(i, _, _) => s.workers[i].InRequest?
  }

  function Step(c: Config, started: int, s: State, e: Event): State
    requires e.i < |s.workers| && (e.Finishes? ==> s.workers[e.i].InRequest?)
  {
    match e
    case Tests(i, now) => Test(c, started, s, i, now)
    case Enters(i, now) => Enter(s, i, now)
    case Finishes(i, now, o) => Finish(s, i, now, o)
  }

  /** The clock after a run. */
  function ClockAfter(started: int, events: seq<Event>): int {
    if events == [] then started else events[|events| - 1].now
  }

  predicate LegalRun(c: Config, started: int, events: seq<Event>)
    decreases |events|, 0
  {
    events == [] ||
    var prefix := events[..|events| - 1];
    LegalRun(c, started, prefix)
    && Legal(c, Run(c, started, prefix), events[|events| - 1], ClockAfter(started, prefix))
  }

  function Run(c: Config, started: int, events: seq<Event>): State
    requires LegalRun(c, started, events)
    decreases |events|, 1
  {
    if events == [] then Start(c)
    else Step(c, started, Run(c, started, events[..|events| - 1]), events[|events| - 1])
  }

  /** The outcomes of the requests that ended, in order. */
  function Outcomes(events: seq<Event>): seq<Outcome>
    decreases |events|
  {
    if events == [] then []
    else
      var last := events[|events| - 1];
      Outcomes(events[..|events| - 1]) + (if last.Finishes? then [last.outcome] else [])
  }

  function Names(outcomes: seq<Outcome>): multiset<string>
    decreases |outcomes|
  {
    if outcomes == [] then multiset{}
    else Names(outcomes[..|outcomes| - 1]) + multiset{Name(outcomes[|outcomes| - 1])}
  }

  function Failures(outcomes: seq<Outcome>): nat
    decreases |outcomes|
  {
    if outcomes == [] then 0
    else Failures(outcomes[..|outcomes| - 1]) + (if IsError(outcomes[|outcomes| - 1]) then 1 else 0)
  }

  function Busy(workers: seq<Worker>): nat
    decreases |workers|
  {
    if workers == [] then 0
    else Busy(workers[..|workers| - 1]) + (if workers[|workers| - 1].InRequest? then 1 else 0)
  }

  function Queued(workers: seq<Worker>): nat
    decreases |workers|
  {
    if workers == [] then 0
    else Queued(workers[..|workers| - 1]) + (if workers[|workers| - 1].Entering? then 1 else 0)
  }

  /** Every issued request is waiting, running, or counted once as a sample and a status. */
  predicate Inv(c: Config, s: State) {
    && |s.workers| == c.concurrency
    && s.issued <= c.cap
    && s.issued == Queued(s.workers) + Busy(s.workers) + |s.latencies|
    && s.active == Busy(s.workers)
    && 0 <= s.active <= s.peak <= c.concurrency
    && |s.statuses| == |s.latencies|
    && s.errors <= |s.latencies|
    && (forall i :: 0 <= i < |s.workers| && s.workers[i].LeftAtCap? ==> s.issued == c.cap)
  }

  /** Once a worker has left at the deadline, the clock is past it and nothing more is issued. */
  predicate DeadlineInv(c: Config, started: int, s: State, clock: int) {
    && started <= clock
    && (forall i :: 0 <= i < |s.workers| && s.workers[i].LeftAtDeadline? ==>
          c.duration.Some? && c.duration.value <= s.workers[i].at - started && s.workers[i].at <= clock
          && s.issued < c.cap)
  }

  lemma {:induction false} CountsAfter(workers: seq<Worker>, i: nat, next: Worker)
    requires i < |workers|
    ensures Busy(workers[i := next])
         == Busy(workers) - (if workers[i].InRequest? then 1 else 0) + (if next.InRequest? then 1 else 0)
    ensures Queued(workers[i := next])
         == Queued(workers) - (if workers[i].Entering? then 1 else 0) + (if next.Entering? then 1 else 0)
    decreases |workers|
  {
    var front := workers[..|workers| - 1];
    if i < |workers| - 1 {
      CountsAfter(front, i, next);
      assert workers[i := next][..|workers| - 1] == front[i := next];
    } else {
      assert workers[i := next][..|workers| - 1] == front;
    }
  }

  lemma {:induction false} CountsBound(workers: seq<Worker>)
    ensures Busy(workers) + Queued(workers) <= |workers|
    ensures (forall i :: 0 <= i < |workers| ==> !workers[i].InRequest? && !workers[i].Entering?) ==>
              Busy(workers) == 0 && Queued(workers) == 0
    decreases |workers|
  {
    if workers != [] { CountsBound(workers[..|workers| - 1]); }
  }

  lemma {:induction false} NoneCounted(workers: seq<Worker>)
    requires forall i :: 0 <= i < |workers| ==> workers[i].Looping?
    ensures Busy(workers) == 0 && Queued(workers) == 0
    decreases |workers|
  {
    if workers != [] { NoneCounted(workers[..|workers| - 1]); }
  }

  lemma StepKeepsInv(c: Config, started: int, s: State, e: Event, clock: int)
    requires Inv(c, s) && DeadlineInv(c, started, s, clock) && Legal(c, s, e, clock)
    ensures Inv(c, Step(c, started, s, e)) && DeadlineInv(c, started, Step(c, started, s, e), e.now)
  {
    CountsAfter(s.workers, e.i, Step(c, started, s, e).workers[e.i]);
    CountsBound(s.workers);
  }

  lemma {:induction false} RunKeepsInv(c: Config, started: int, events: seq<Event>)
    requires ValidConfig(c) && LegalRun(c, started, events)
    ensures Inv(c, Run(c, started, events))
    ensures DeadlineInv(c, started, Run(c, started, events), ClockAfter(started, events))
    decreases |events|
  {
    if events == [] {
      NoneCounted(Start(c).workers);
    } else {
      var prefix := events[..|events| - 1];
      RunKeepsInv(c, started, prefix);
      StepKeepsInv(c, started, Run(c, started, prefix), events[|events| - 1], ClockAfter(started, prefix));
    }
  }

  /** At every moment of every interleaving: no more requests than the cap, no more at once
      than the concurrency, and a worker with a request to send never finds the semaphore taken. */
  lemma LimitsHold(c: Config, started: int, events: seq<Event>)
    requires ValidConfig(c) && LegalRun(c, started, events)
    ensures var s := Run(c, started, events);
            && s.issued <= c.cap && s.active <= s.peak <= c.concurrency
            && forall i :: 0 <= i < |s.workers| && s.workers[i].Entering? ==> s.active < c.concurrency
  {
    RunKeepsInv(c, started, events);
    var s := Run(c, started, events);
    CountsBound(s.workers);
    forall i | 0 <= i < |s.workers| && s.workers[i].Entering? ensures s.active < c.concurrency {
      QueuedSome(s.workers, i);
    }
  }

  lemma {:induction false} QueuedSome(workers: seq<Worker>, i: nat)
    requires i < |workers| && workers[i].Entering?
    ensures Queued(workers) > 0
    decreases |workers|
  {
    if i < |workers| - 1 { QueuedSome(workers[..|workers| - 1], i); }
  }

  /** At the end every issued request has one sample and one status, a counted run has issued
      exactly its cap, and nothing is still running. */
  lemma EveryRequestIsCounted(c: Config, started: int, events: seq<Event>)
    requires ValidConfig(c) && LegalRun(c, started, events) && Done(Run(c, started, events))
    ensures var s := Run(c, started, events);
            && s.issued == |s.latencies| == |s.statuses| && s.active == 0
            && (c.duration.None? ==> s.issued == c.cap)
  {
    RunKeepsInv(c, started, events);
    var s := Run(c, started, events);
    CountsBound(s.workers);
    assert s.workers[0].LeftAtCap? || s.workers[0].LeftAtDeadline?;
  }

  /** A duration run counts as completed exactly when every worker left because the time was up. */
  lemma CompletedMeansDeadline(c: Config, started: int, events: seq<Event>, end: int)
    requires ValidConfig(c) && c.duration.Some? && LegalRun(c, started, events) && Done(Run(c, started, events))
    requires ClockAfter(started, events) <= end
    ensures DurationCompleted(c, Run(c, started, events), end - started)
       <==> forall i :: 0 <= i < |Run(c, started, events).workers| ==>
              Run(c, started, events).workers[i].LeftAtDeadline?
  {
    RunKeepsInv(c, started, events);
    var s := Run(c, started, events);
    assert s.workers[0].LeftAtCap? || s.workers[0].LeftAtDeadline?;
  }

  lemma StepTallies(c: Config, started: int, s: State, e: Event)
    requires e.i < |s.workers| && (e.Finishes? ==> s.workers[e.i].InRequest?)
    ensures var next := Step(c, started, s, e);
            && next.statuses == s.statuses + (if e.Finishes? then multiset{Name(e.outcome)} else multiset{})
            && next.errors == s.errors + (if e.Finishes? && IsError(e.outcome) then 1 else 0)
            && |next.latencies| == |s.latencies| + (if e.Finishes? then 1 else 0)
  {
  }

  lemma TallyGrows(outcomes: seq<Outcome>, o: Outcome)
    ensures Names(outcomes + [o]) == Names(outcomes) + multiset{Name(o)}
    ensures Failures(outcomes + [o]) == Failures(outcomes) + (if IsError(o) then 1 else 0)
  {
    assert (outcomes + [o])[..|outcomes|] == outcomes;
  }

  /** Statuses and errors are those of the requests that ended, each counted once. */
  lemma {:induction false} TalliesAreOutcomes(c: Config, started: int, events: seq<Event>)
    requires LegalRun(c, started, events)
    ensures var s := Run(c, started, events);
            && s.statuses == Names(Outcomes(events)) && s.errors == Failures(Outcomes(events))
            && |s.latencies| == |Outcomes(events)|
    decreases |events|
  {
    if events != [] {
      var prefix := events[..|events| - 1];
      var last := events[|events| - 1];
      TalliesAreOutcomes(c, started, prefix);
      StepTallies(c, started, Run(c, started, prefix), last);
      if last.Finishes? {
        TallyGrows(Outcomes(prefix), last.outcome);
        assert Outcomes(events) == Outcomes(prefix) + [last.outcome];
      } else {
        assert Outcomes(events) == Outcomes(prefix);
      }
    }
  }

  lemma Quotient(errors: nat, issued: nat)
    requires errors <= issued && issued > 0
    ensures 0.0 <= errors as real / issued as real <= 1.0
    ensures errors as real / issued as real == 0.0 <==> errors == 0
  {
  }

  /** The reported error rate is a rate, and zero exactly when requests were made and none failed. */
  lemma ErrorRateIsARate(c: Config, started: int, events: seq<Event>)
    requires ValidConfig(c) && LegalRun(c, started, events) && Done(Run(c, started, events))
    ensures 0.0 <= ErrorRate(Run(c, started, events)) <= 1.0
    ensures ErrorRate(Run(c, started, events)) == 0.0 <==>
              Run(c, started, events).issued > 0 && Failures(Outcomes(events)) == 0
  {
    EveryRequestIsCounted(c, started, events);
    RunKeepsInv(c, started, events);
    TalliesAreOutcomes(c, started, events);
    var s := Run(c, started, events);
    if s.issued > 0 { Quotient(s.errors, s.issued); }
  }

  /** Requests start after the run does, samples are durations, and in a duration run every
      request is issued before the time is up. */
  predicate TimesInv(c: Config, started: int, s: State, clock: int) {
    && started <= clock
    && (forall i :: 0 <= i < |s.workers| && s.workers[i].InRequest? ==> started <= s.workers[i].since <= clock)
    && (forall i :: 0 <= i < |s.latencies| ==> 0 <= s.latencies[i] <= clock - started)
    && 0 <= s.lastIssued <= clock - started
    && (c.duration.Some? && s.issued > 0 ==> s.lastIssued < c.duration.value)
  }

  lemma {:induction false} TimesHold(c: Config, started: int, events: seq<Event>)
    requires LegalRun(c, started, events)
    ensures TimesInv(c, started, Run(c, started, events), ClockAfter(started, events))
    decreases |events|
  {
    if events != [] { TimesHold(c, started, events[..|events| - 1]); }
  }

  // ---------------------------------------------------------------- percentiles

  function Ceil(x: real): int { -((-x).Floor) }

  /** `part` of the way from `a` to `b`. */
  function Blend(a: int, b: int, part: real): real {
    a as real + (b - a) as real * part
  }

  function Interpolate(ordered: seq<int>, rank: real): real
    requires ordered != [] && 0.0 <= rank <= (|ordered| - 1) as real
  {
    Blend(ordered[rank.Floor], ordered[Ceil(rank)], rank - rank.Floor as real)
  }

  function Rank(n: nat, p: real): (rank: real)
    requires n > 0 && 0.0 <= p <= 1.0
    ensures 0.0 <= rank <= (n - 1) as real
  {
    (n - 1) as real * p
  }

  /** Linear interpolation between the closest ranks. */
  function Percentile(values: seq<int>, p: real): Option<real>
    requires 0.0 <= p <= 1.0
  {
    if values == [] then None
    else
      SortLength(values);
      Some(Interpolate(Sort(values), Rank(|values|, p)))
  }

  lemma ScaledGrows(width: real, part: real, more: real)
    requires 0.0 <= width && part <= more
    ensures width * part <= width * more
  {
  }

  lemma BlendGrows(a: int, b: int, part: real, more: real)
    requires a <= b && 0.0 <= part <= more <= 1.0
    ensures a as real <= Blend(a, b, part) <= Blend(a, b, more) <= b as real
  {
    var width := (b - a) as real;
    ScaledGrows(width, 0.0, part);
    ScaledGrows(width, part, more);
    ScaledGrows(width, more, 1.0);
  }

  lemma RankGrows(n: nat, p: real, q: real)
    requires n > 0 && 0.0 <= p <= q <= 1.0
    ensures Rank(n, p) <= Rank(n, q)
  {
    ScaledGrows((n - 1) as real, p, q);
  }

  lemma FloorAndCeil(x: real)
    ensures x.Floor as real <= x < (x.Floor + 1) as real
    ensures Ceil(x) == if x == x.Floor as real then x.Floor else x.Floor + 1
  {
  }

  lemma BetweenNeighbours(ordered: seq<int>, rank: real)
    requires ordered != [] && Sorted(ordered) && 0.0 <= rank <= (|ordered| - 1) as real
    ensures 0 <= rank.Floor <= Ceil(rank) < |ordered|
    ensures ordered[rank.Floor] as real <= Interpolate(ordered, rank) <= ordered[Ceil(rank)] as real
  {
    FloorAndCeil(rank);
    BlendGrows(ordered[rank.Floor], ordered[Ceil(rank)], rank - rank.Floor as real, 1.0);
  }

  lemma InterpolationGrows(ordered: seq<int>, r: real, s: real)
    requires ordered != [] && Sorted(ordered) && 0.0 <= r <= s <= (|ordered| - 1) as real
    ensures Interpolate(ordered, r) <= Interpolate(ordered, s)
  {
    BetweenNeighbours(ordered, r);
    BetweenNeighbours(ordered, s);
    FloorAndCeil(r);
    FloorAndCeil(s);
    if r.Floor < s.Floor {
      assert ordered[Ceil(r)] <= ordered[s.Floor];
    } else if r == r.Floor as real {
      assert ordered[Ceil(r)] == ordered[s.Floor];
    } else {
      BlendGrows(ordered[r.Floor], ordered[Ceil(r)], r - r.Floor as real, s - s.Floor as real);
    }
  }

  lemma WithinEnds(ordered: seq<int>, rank: real)
    requires ordered != [] && Sorted(ordered) && 0.0 <= rank <= (|ordered| - 1) as real
    ensures ordered[0] as real <= Interpolate(ordered, rank) <= ordered[|ordered| - 1] as real
  {
    BetweenNeighbours(ordered, rank);
    assert ordered[0] <= ordered[rank.Floor] && ordered[Ceil(rank)] <= ordered[|ordered| - 1];
  }

  lemma InterpolateAt(ordered: seq<int>, rank: real, k: nat, part: real)
    requires k < |ordered| && 0.0 <= part < 1.0 && (part > 0.0 ==> k + 1 < |ordered|) && rank == k as real + part
    ensures 0.0 <= rank <= (|ordered| - 1) as real
    ensures Interpolate(ordered, rank) ==
            if part == 0.0 then ordered[k] as real else Blend(ordered[k], ordered[k + 1], part)
  {
    FloorAndCeil(rank);
    assert rank.Floor == k;
  }

  /** At a whole rank the percentile is the sample of that rank. */
  lemma PercentileAtRank(values: seq<int>, p: real, k: nat)
    requires 0.0 <= p <= 1.0 && k < |values| && (|values| - 1) as real * p == k as real
    ensures |Sort(values)| == |values| && Percentile(values, p) == Some(Sort(values)[k] as real)
  {
    SortLength(values);
    InterpolateAt(Sort(values), Rank(|values|, p), k, 0.0);
  }

  /** Between two neighbouring ranks it moves in proportion from the percentile at the one to
      the percentile at the other. */
  lemma PercentileIsProportional(values: seq<int>, p: real, q: real, between: real, k: nat, part: real)
    requires 0.0 <= p <= 1.0 && 0.0 <= q <= 1.0 && 0.0 <= between <= 1.0 && 0.0 < part < 1.0 && k + 1 < |values|
    requires (|values| - 1) as real * p == k as real && (|values| - 1) as real * q == (k + 1) as real
    requires (|values| - 1) as real * between == k as real + part
    ensures Percentile(values, between).value - Percentile(values, p).value
         == (Percentile(values, q).value - Percentile(values, p).value) * part
  {
    SortLength(values);
    PercentileAtRank(values, p, k);
    PercentileAtRank(values, q, k + 1);
    InterpolateAt(Sort(values), Rank(|values|, between), k, part);
    BlendIsProportional(Sort(values)[k], Sort(values)[k + 1], part, Percentile(values, p).value,
                        Percentile(values, q).value, Percentile(values, between).value);
  }

  lemma BlendIsProportional(a: int, b: int, part: real, x: real, y: real, z: real)
    requires x == a as real && y == b as real && z == Blend(a, b, part)
    ensures z - x == (y - x) * part
  {
    assert (b - a) as real == y - x;
  }

  /** A higher percentile is never below a lower one, so p50 <= p95 <= p99. */
  lemma PercentilesAreOrdered(values: seq<int>, p: real, q: real)
    requires values != [] && 0.0 <= p <= q <= 1.0
    ensures Percentile(values, p).value <= Percentile(values, q).value
  {
    SortLength(values);
    SortSorts(values);
    RankGrows(|values|, p, q);
    InterpolationGrows(Sort(values), Rank(|values|, p), Rank(|values|, q));
  }

  /** The least and the greatest of the samples. */
  predicate Bounds(values: seq<int>, lo: int, hi: int) {
    lo in values && hi in values && forall k :: 0 <= k < |values| ==> lo <= values[k] <= hi
  }

  /** A percentile lies between the least and the greatest sample. */
  lemma PercentileIsWithinSamples(values: seq<int>, p: real, lo: int, hi: int)
    requires 0.0 <= p <= 1.0 && Bounds(values, lo, hi)
    ensures lo as real <= Percentile(values, p).value <= hi as real
  {
    SortLength(values);
    SortSorts(values);
    var ordered := Sort(values);
    WithinEnds(ordered, Rank(|values|, p));
    SameElements(values, ordered, ordered[0]);
    SameElements(values, ordered, ordered[|ordered| - 1]);
    assert ordered[0] in values && ordered[|ordered| - 1] in values;
  }

  /** The percentile at 0 is the least sample and the one at 1 the greatest. */
  lemma PercentileEnds(values: seq<int>, lo: int, hi: int)
    requires Bounds(values, lo, hi)
    ensures Percentile(values, 0.0) == Some(lo as real) && Percentile(values, 1.0) == Some(hi as real)
  {
    SortSorts(values);
    PercentileAtZero(values);
    PercentileAtOne(values);
    EndsAreBounds(values, Sort(values), lo, hi);
  }

  lemma Scaled(width: real)
    ensures width * 0.0 == 0.0 && width * 1.0 == width
  {
  }

  lemma PercentileAtZero(values: seq<int>)
    requires values != []
    ensures |Sort(values)| == |values| && Percentile(values, 0.0) == Some(Sort(values)[0] as real)
  {
    Scaled((|values| - 1) as real);
    PercentileAtRank(values, 0.0, 0);
  }

  lemma PercentileAtOne(values: seq<int>)
    requires values != []
    ensures |Sort(values)| == |values| && Percentile(values, 1.0) == Some(Sort(values)[|values| - 1] as real)
  {
    Scaled((|values| - 1) as real);
    PercentileAtRank(values, 1.0, |values| - 1);
  }

  lemma EndsAreBounds(values: seq<int>, ordered: seq<int>, lo: int, hi: int)
    requires Bounds(values, lo, hi) && Sorted(ordered) && multiset(ordered) == multiset(values)
    ensures ordered != [] && ordered[0] == lo && ordered[|ordered| - 1] == hi
  {
    SameElements(values, ordered, lo);
    SameElements(values, ordered, hi);
    SameElements(values, ordered, ordered[0]);
    SameElements(values, ordered, ordered[|ordered| - 1]);
    assert ordered[0] in values && ordered[|ordered| - 1] in values;
  }

  lemma SameElements(s: seq<int>, t: seq<int>, x: int)
    requires multiset(s) == multiset(t)
    ensures x in s <==> x in t
  {
    assert x in s <==> x in multiset(s);
    assert x in t <==> x in multiset(t);
  }

  /** The order in which samples arrive makes no difference. */
  lemma PercentileIgnoresOrder(values: seq<int>, other: seq<int>, p: real)
    requires multiset(values) == multiset(other) && 0.0 <= p <= 1.0
    ensures Percentile(values, p) == Percentile(other, p)
  {
    SameSort(values, other);
    SortLength(values);
    SortLength(other);
  }

  lemma SameSort(values: seq<int>, other: seq<int>)
    requires multiset(values) == multiset(other)
    ensures Sort(values) == Sort(other)
  {
    SortSorts(values);
    SortSorts(other);
    SortedUnique(Sort(values), Sort(other));
  }
}
