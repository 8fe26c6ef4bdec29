/** What the load probe's report says of the requests of a run, each figure by itself. */
module LoadProbeExact {
  import opened Common
  import opened Sorting
  import opened LoadProbe

  // ---------------------------------------------------------------- the peak

  function ActiveAfter(c: Config, started: int, events: seq<Event>, k: nat): int
    requires LegalRun(c, started, events) && k <= |events|
  {
    LegalPrefix(c, started, events, k);
    Run(c, started, events[..k]).active
  }

  lemma ShorterRun(c: Config, started: int, events: seq<Event>, k: nat)
    requires LegalRun(c, started, events) && events != [] && k < |events|
    ensures ActiveAfter(c, started, events[..|events| - 1], k) == ActiveAfter(c, started, events, k)
  {
    assert events[..|events| - 1][..k] == events[..k];
  }

  /** The peak is the greatest number of requests active at one moment of the run. */
  lemma {:induction false} PeakIsGreatest(c: Config, started: int, events: seq<Event>, k: nat) returns (at: nat)
    requires ValidConfig(c) && LegalRun(c, started, events) && k <= |events|
    ensures ActiveAfter(c, started, events, k) <= Run(c, started, events).peak
    ensures at <= |events| && ActiveAfter(c, started, events, at) == Run(c, started, events).peak
    decreases |events|
  {
    assert events[..|events|] == events;
    RunKeepsInv(c, started, events);
    if events == [] {
      at := 0;
    } else {
      var prefix := events[..|events| - 1];
      at := PeakIsGreatest(c, started, prefix, if k < |events| then k else |events| - 1);
      ShorterRun(c, started, events, at);
      if k < |events| { ShorterRun(c, started, events, k); }
      if Run(c, started, prefix).peak != Run(c, started, events).peak { at := |events|; }
    }
  }

  // ---------------------------------------------------------------- the samples

  /** When the worker's latest request of the run was entered. */
  function LastEntered(events: seq<Event>, i: nat): int
    decreases |events|
  {
    if events == [] then 0
    else
      var last := events[|events| - 1];
      if last.Enters? && last.i == i then last.now else LastEntered(events[..|events| - 1], i)
  }

  /** The durations of the requests that ended, in the order of their ends. */
  function Durations(events: seq<Event>): seq<int>
    decreases |events|
  {
    if events == [] then []
    else
      var (prefix, last) := (events[..|events| - 1], events[|events| - 1]);
      Durations(prefix) + (if last.Finishes? then [last.now - LastEntered(prefix, last.i)] else [])
  }

  predicate SinceEntered(s: State, events: seq<Event>) {
    forall i :: 0 <= i < |s.workers| && s.workers[i].InRequest? ==> s.workers[i].since == LastEntered(events, i)
  }

  lemma {:induction false} RequestsKnowTheirEntry(c: Config, started: int, events: seq<Event>)
    requires LegalRun(c, started, events)
    ensures SinceEntered(Run(c, started, events), events)
    decreases |events|
  {
    if events != [] { RequestsKnowTheirEntry(c, started, events[..|events| - 1]); }
  }

  /** Every sample is the time between a request's entry and its end. */
  lemma {:induction false} SamplesAreDurations(c: Config, started: int, events: seq<Event>)
    requires LegalRun(c, started, events)
    ensures Run(c, started, events).latencies == Durations(events)
    decreases |events|
  {
    if events != [] {
      var (prefix, last) := (events[..|events| - 1], events[|events| - 1]);
      SamplesAreDurations(c, started, prefix);
      RequestsKnowTheirEntry(c, started, prefix);
      SampleAppended(c, started, Run(c, started, prefix), last);
    }
  }

  lemma SampleAppended(c: Config, started: int, s: State, e: Event)
    requires e.i < |s.workers| && (e.Finishes? ==> s.workers[e.i].InRequest?)
    ensures Step(c, started, s, e).latencies
         == s.latencies + (if e.Finishes? then [e.now - s.workers[e.i].since] else [])
  {
  }

  // ---------------------------------------------------------------- issuing

  /** When the latest request of the run was issued, from the start of the run. */
  function LastIssue(c: Config, started: int, events: seq<Event>): int
    requires LegalRun(c, started, events)
    decreases |events|
  {
    if events == [] then 0
    else
      var (prefix, last) := (events[..|events| - 1], events[|events| - 1]);
      if Run(c, started, prefix).issued < Run(c, started, events).issued then last.now - started
      else LastIssue(c, started, prefix)
  }

  lemma {:induction false} LastIssuedIs(c: Config, started: int, events: seq<Event>)
    requires LegalRun(c, started, events)
    ensures Run(c, started, events).lastIssued == LastIssue(c, started, events)
    decreases |events|
  {
    if events != [] { LastIssuedIs(c, started, events[..|events| - 1]); }
  }

  /** At its loop test a worker issues one more request exactly while the cap is not reached and,
      in a duration run, the time is not up; otherwise it leaves for the reason that holds first. */
  lemma TestIssuesExactlyWhen(c: Config, started: int, s: State, i: nat, now: int)
    requires i < |s.workers|
    ensures var next := Test(c, started, s, i, now);
            var timeUp := c.duration.Some? && started + c.duration.value <= now;
            && (next.issued == s.issued + 1 <==> s.issued < c.cap && !timeUp)
            && (next.issued == s.issued <==> c.cap <= s.issued || timeUp)
            && next.workers[i] == (if c.cap <= s.issued then LeftAtCap
                                   else if timeUp then LeftAtDeadline(now) else Entering)
            && |next.workers| == |s.workers|
            && (forall j :: 0 <= j < |s.workers| && j != i ==> next.workers[j] == s.workers[j])
  {
  }

  // ---------------------------------------------------------------- the tallies

  /** How many of the outcomes have the property. */
  function Tally(outcomes: seq<Outcome>, p: Outcome -> bool): nat
    decreases |outcomes|
  {
    if outcomes == [] then 0
    else Tally(outcomes[..|outcomes| - 1], p) + (if p(outcomes[|outcomes| - 1]) then 1 else 0)
  }

  /** The text under which the report counts a status code, or an outcome that has none. */
  lemma NamesDiffer(o: Outcome, status: nat)
    ensures Name(o) == Digits(status) <==> o == Response(status)
    ensures Name(o) == "response_too_large" <==> o == TooLarge
    ensures Name(o) == "unsupported_content_encoding" <==> o == BadEncoding
    ensures Name(o) == "transport_error" <==> o == TransportError
  {
    DigitsValue(status);
    if o.Response? { DigitsValue(o.status); }
  }

  lemma {:induction false} NamesCount(outcomes: seq<Outcome>, name: string, p: Outcome -> bool)
    requires forall o :: p(o) <==> Name(o) == name
    ensures Names(outcomes)[name] == Tally(outcomes, p)
    decreases |outcomes|
  {
    if outcomes != [] { NamesCount(outcomes[..|outcomes| - 1], name, p); }
  }

  lemma {:induction false} FailuresCount(outcomes: seq<Outcome>, p: Outcome -> bool)
    requires forall o :: p(o) <==> !(o.Response? && o.status < 300)
    ensures Failures(outcomes) == Tally(outcomes, p)
    decreases |outcomes|
  {
    if outcomes != [] { FailuresCount(outcomes[..|outcomes| - 1], p); }
  }

  /** A status is counted as often as a response had it, the three other outcomes under their
      names, and an error for everything but a response with a status below 300. */
  lemma TalliesCountOutcomes(c: Config, started: int, events: seq<Event>, status: nat)
    requires LegalRun(c, started, events)
    ensures var (s, outcomes) := (Run(c, started, events), Outcomes(events));
            && s.statuses[Digits(status)] == Tally(outcomes, o => o == Response(status))
            && s.statuses["response_too_large"] == Tally(outcomes, o => o == TooLarge)
            && s.statuses["unsupported_content_encoding"] == Tally(outcomes, o => o == BadEncoding)
            && s.statuses["transport_error"] == Tally(outcomes, o => o == TransportError)
            && s.errors == Tally(outcomes, (o: Outcome) => !(o.Response? && o.status < 300))
  {
    TalliesAreOutcomes(c, started, events);
    forall o: Outcome
      ensures Name(o) == Digits(status) <==> o == Response(status)
      ensures Name(o) == "response_too_large" <==> o == TooLarge
      ensures Name(o) == "unsupported_content_encoding" <==> o == BadEncoding
      ensures Name(o) == "transport_error" <==> o == TransportError
    {
      NamesDiffer(o, status);
    }
    var outcomes := Outcomes(events);
    NamesCount(outcomes, Digits(status), o => o == Response(status));
    NamesCount(outcomes, "response_too_large", o => o == TooLarge);
    NamesCount(outcomes, "unsupported_content_encoding", o => o == BadEncoding);
    NamesCount(outcomes, "transport_error", o => o == TransportError);
    FailuresCount(outcomes, (o: Outcome) => !(o.Response? && o.status < 300));
  }

  // ---------------------------------------------------------------- the verdict

  /** The rate is the errors' share of the requests, and a run without a duration is complete
      whatever the time; a percentile is missing exactly without samples. */
  lemma FiguresAre(c: Config, s: State, elapsed: int, values: seq<int>, p: real)
    requires 0.0 <= p <= 1.0
    ensures s.issued > 0 ==> ErrorRate(s) * s.issued as real == s.errors as real
    ensures c.duration.None? ==> DurationCompleted(c, s, elapsed)
    ensures Percentile(values, p).None? <==> values == []
  {
  }
}
