/** Retention passes: what they delete, how many of them it takes, and exactly when the rest of
    the system could notice. */
module WebAuthnRetention {
  import opened Common
  import opened Deadline
  import opened WebAuthn
  import opened WebAuthnRuns

  // ---------------------------------------------------------------- what a pass deletes

  lemma {:induction false} BatchIs(challenges: map<Id, Challenge>, s: set<Id>, n: nat)
    requires s <= challenges.Keys
    ensures |Batch(challenges, s, n)| == if |s| < n then |s| else n
    ensures n >= |s| ==> Batch(challenges, s, n) == s
    decreases n
  {
    if n > 0 && s != {} {
      BatchIs(challenges, s - {Oldest(challenges, s)}, n - 1);
    }
  }

  lemma {:induction false} BatchIsOldest(challenges: map<Id, Challenge>, s: set<Id>, n: nat, a: Id, b: Id)
    requires s <= challenges.Keys
    requires a in Batch(challenges, s, n) && b in s && b !in Batch(challenges, s, n)
    ensures Older(challenges, a, b)
    decreases n
  {
    var id := Oldest(challenges, s);
    if a != id { BatchIsOldest(challenges, s - {id}, n - 1, a, b); }
  }

  /** An answered pass deletes only challenges past the cutoff, the oldest first, as many as
      it reports; one that no other session got in the way of, and that reports fewer than its
      batch, leaves none behind. */
  lemma PassDeletesOldest(t: Tables, r: RetainCall)
    requires Retain(t, r).1.Ok?
    ensures var u := Retain(t, r).0;
            && Retain(t, r).1.value == |t.challenges.Keys - u.challenges.Keys| <= r.batch.value
            && u == t.(challenges := u.challenges)
            && (forall id :: id in u.challenges ==> id in t.challenges && u.challenges[id] == t.challenges[id])
            && (forall id :: id in t.challenges && id !in u.challenges ==> Retainable(t.challenges[id], Cutoff(r)))
            && (forall a, b | a in t.challenges && a !in u.challenges && b in u.challenges && b !in r.locked
                              && Retainable(t.challenges[b], Cutoff(r)) :: Older(t.challenges, a, b))
            && (r.locked == {} && Retain(t, r).1.value < r.batch.value ==>
                  forall id :: id in u.challenges ==> !Retainable(u.challenges[id], Cutoff(r)))
  {
    var s := Eligible(t, r);
    var ids := Batch(t.challenges, s, r.batch.value);
    BatchIs(t.challenges, s, r.batch.value);
    forall a, b | a in ids && b in s && b !in ids ensures Older(t.challenges, a, b) {
      BatchIsOldest(t.challenges, s, r.batch.value, a, b);
    }
    assert t.challenges.Keys - Retain(t, r).0.challenges.Keys == ids;
  }

  // ---------------------------------------------------------------- how many passes it takes

  /** The challenges a pass with this cutoff may delete. */
  function Overdue(t: Tables, cutoff: int): set<Id> {
    set id | id in t.challenges && Retainable(t.challenges[id], cutoff)
  }

  /** No other session is in the way of the pass. */
  predicate Uncontended(r: RetainCall, cutoff: int) {
    ValidRetain(r) && Cutoff(r) == cutoff && r.locked == {}
  }

  function Passes(t: Tables, passes: seq<RetainCall>): Tables
    decreases |passes|
  {
    if passes == [] then t else Retain(Passes(t, passes[..|passes| - 1]), passes[|passes| - 1]).0
  }

  /** The batches of the passes together. */
  function Capacity(passes: seq<RetainCall>): int
    decreases |passes|
  {
    if passes == [] then 0
    else
      var last := passes[|passes| - 1];
      Capacity(passes[..|passes| - 1]) + (if ValidRetain(last) then last.batch.value else 0)
  }

  lemma UncontendedPass(t: Tables, r: RetainCall, cutoff: int)
    requires Uncontended(r, cutoff)
    ensures Retain(t, r).0
         == t.(challenges := t.challenges - Batch(t.challenges, Overdue(t, cutoff), r.batch.value))
  {
    assert Eligible(t, r) == Overdue(t, cutoff);
  }

  lemma PassTakesBatch(t: Tables, r: RetainCall, cutoff: int)
    requires Uncontended(r, cutoff)
    ensures var u := Retain(t, r).0;
            && Overdue(u, cutoff) <= Overdue(t, cutoff) && u.challenges.Keys <= t.challenges.Keys
            && t.challenges.Keys - u.challenges.Keys == Overdue(t, cutoff) - Overdue(u, cutoff)
            && |Overdue(u, cutoff)|
               == if |Overdue(t, cutoff)| <= r.batch.value then 0 else |Overdue(t, cutoff)| - r.batch.value
  {
    var s := Overdue(t, cutoff);
    var ids := Batch(t.challenges, s, r.batch.value);
    UncontendedPass(t, r, cutoff);
    BatchIs(t.challenges, s, r.batch.value);
    OverdueLess(t, s, ids, cutoff);
  }

  lemma OverdueLess(t: Tables, s: set<Id>, ids: set<Id>, cutoff: int)
    requires s == Overdue(t, cutoff) && ids <= s
    ensures var u := t.(challenges := t.challenges - ids);
            && Overdue(u, cutoff) == s - ids && s - (s - ids) == ids && |s - ids| == |s| - |ids|
            && t.challenges.Keys - u.challenges.Keys == ids
  {
  }

  /** Uncontended passes with one cutoff delete overdue challenges and nothing else, each as
      many as its batch while there are any; so passes whose batches together reach the number
      of overdue challenges leave none, and fewer leave exactly the rest. */
  lemma {:induction false} PassesDrain(t: Tables, passes: seq<RetainCall>, cutoff: int)
    requires forall i :: 0 <= i < |passes| ==> Uncontended(passes[i], cutoff)
    ensures var (u, n) := (Passes(t, passes), |Overdue(t, cutoff)|);
            && Overdue(u, cutoff) <= Overdue(t, cutoff)
            && (forall id :: id in u.challenges <==>
                  id in t.challenges && (id in Overdue(t, cutoff) ==> id in Overdue(u, cutoff)))
            && |Overdue(u, cutoff)| == if n <= Capacity(passes) then 0 else n - Capacity(passes)
    decreases |passes|
  {
    if passes != [] {
      var (front, last) := (passes[..|passes| - 1], passes[|passes| - 1]);
      PassesDrain(t, front, cutoff);
      PassTakesBatch(Passes(t, front), last, cutoff);
      CapacityIsPositive(front);
    }
  }

  lemma {:induction false} CapacityIsPositive(passes: seq<RetainCall>)
    requires forall i :: 0 <= i < |passes| ==> ValidRetain(passes[i])
    ensures Capacity(passes) >= |passes|
    decreases |passes|
  {
    if passes != [] { CapacityIsPositive(passes[..|passes| - 1]); }
  }

  lemma {:induction false} EqualBatches(passes: seq<RetainCall>, batch: int)
    requires forall i :: 0 <= i < |passes| ==> ValidRetain(passes[i]) && passes[i].batch.value == batch
    ensures Capacity(passes) == |passes| * batch
    decreases |passes|
  {
    if passes != [] { EqualBatches(passes[..|passes| - 1], batch); }
  }

  /** With equal batches none is left exactly when the passes are at least as many as the
      overdue challenges divided by the batch, rounded up. */
  lemma PassesNeeded(t: Tables, passes: seq<RetainCall>, cutoff: int, batch: int)
    requires forall i :: 0 <= i < |passes| ==> Uncontended(passes[i], cutoff) && passes[i].batch.value == batch
    ensures Overdue(Passes(t, passes), cutoff) == {} <==> |Overdue(t, cutoff)| <= |passes| * batch
  {
    PassesDrain(t, passes, cutoff);
    EqualBatches(passes, batch);
  }

  // ---------------------------------------------------------------- who could notice

  /** The answers to everything but the retention passes. */
  function Answers(t: Tables, events: seq<Event>): seq<Answer>
    decreases |events|
  {
    if events == [] then []
    else
      var (before, last) := (Run(t, events[..|events| - 1]), events[|events| - 1]);
      Answers(t, events[..|events| - 1]) + (if last.Retains? then [] else [Step(before, last).1])
  }

  /** The run without its retention passes. */
  function Without(events: seq<Event>): seq<Event>
    decreases |events|
  {
    if events == [] then []
    else
      var last := events[|events| - 1];
      Without(events[..|events| - 1]) + (if last.Retains? then [] else [last])
  }

  /** Generated challenge identifiers and digests are new, deleted challenges included. */
  predicate IsNew(t: Tables, e: Event) {
    e.Creates? && e.c.id.Some? && e.c.digest.Some? ==> !Taken(t.challenges, e.c.id.value, e.c.digest.value)
  }

  predicate NewThroughout(t: Tables, events: seq<Event>)
    decreases |events|
  {
    events == [] ||
    (NewThroughout(t, events[..|events| - 1])
     && IsNew(Run(t, Without(events[..|events| - 1])), events[|events| - 1]))
  }

  /** `a` is `b` less some challenges. */
  predicate Thinner(a: Tables, b: Tables) {
    && BesideOf(a) == BesideOf(b)
    && forall id :: id in a.challenges ==> id in b.challenges && b.challenges[id] == a.challenges[id]
  }

  predicate DigestsUnique(challenges: map<Id, Challenge>) {
    forall j, k | j in challenges && k in challenges && challenges[j].digest == challenges[k].digest :: j == k
  }

  /** The challenges a finalizer could take. */
  predicate Selects(t: Tables, e: Event, id: Id) {
    match e
    case Finalizes(f, clock) => ValidFinalize(f) && Selectable(t, f, clock(Of(1)).a, id)
    case OtherFinalizes(o) => id in t.challenges && TakenByOther(t.challenges[id], o)
    case _ => false
  }

  /** The challenge it takes. */
  function Found(t: Tables, e: Event): (id: Option<Id>)
    ensures id.None? <==> forall k :: !Selects(t, e, k)
    ensures id.Some? ==> Selects(t, e, id.value)
  {
    match e
    case Finalizes(f, clock) =>
      assert ValidFinalize(f) ==> forall k :: Selects(t, e, k) <==> k in Matches(t, f, clock(Of(1)).a);
      if ValidFinalize(f) then FindChallenge(t, f, clock(Of(1)).a) else None
    case OtherFinalizes(o) =>
      assert forall k :: Selects(t, e, k) <==> k in OtherMatches(t, o);
      FindOther(t, o)
    case _ => None
  }

  /** It could take a challenge of `b` that `a` lacks. */
  predicate Misses(a: Tables, b: Tables, e: Event) {
    exists id :: id in b.challenges && id !in a.challenges && Selects(b, e, id)
  }

  /** With one challenge a digest, the two take the same one unless the missing one is it. */
  lemma SameFindExactlyWhen(a: Tables, b: Tables, e: Event)
    requires Thinner(a, b) && DigestsUnique(b.challenges)
    ensures Found(a, e) == Found(b, e) <==> !Misses(a, b, e)
  {
    forall j, k | Selects(b, e, j) && Selects(b, e, k) ensures j == k {
      assert b.challenges[j].digest == b.challenges[k].digest;
    }
    forall k | k in a.challenges ensures Selects(a, e, k) <==> Selects(b, e, k) {
    }
  }

  // ---------------------------------------------------------------- one step of the two runs

  lemma SameRefusals(a: Tables, b: Tables, c: CreateCall)
    requires Thinner(a, b) && IsNew(b, Creates(c))
    ensures Create(a, c).1 == Create(b, c).1
  {
    if !BadCreate(c) {
      assert !Taken(b.challenges, c.id.value, c.digest.value);
      forall k | k in a.challenges ensures k != c.id.value && a.challenges[k].digest != c.digest.value {
        assert k in b.challenges;
      }
    }
  }

  lemma CreateStaysThinner(a: Tables, b: Tables, c: CreateCall)
    requires Thinner(a, b) && Create(a, c).1 == Create(b, c).1
    ensures Thinner(Create(a, c).0, Create(b, c).0)
  {
  }

  lemma SameFinalize(a: Tables, b: Tables, f: FinalizeCall, clock: Clock)
    requires Thinner(a, b) && !Misses(a, b, Finalizes(f, clock))
    ensures Finalize(a, f, clock).1 == Finalize(b, f, clock).1
    ensures Thinner(Finalize(a, f, clock).0, Finalize(b, f, clock).0)
  {
    var now := clock(Of(1)).a;
    if ValidFinalize(f) {
      forall id ensures Selectable(a, f, now, id) <==> Selectable(b, f, now, id) {
        if Selectable(b, f, now, id) { assert Selects(b, Finalizes(f, clock), id); }
      }
      assert Matches(a, f, now) == Matches(b, f, now);
      assert Admissible(a, f, clock) <==> Admissible(b, f, clock);
    }
  }

  lemma SameOther(a: Tables, b: Tables, o: OtherCall)
    requires Thinner(a, b) && !Misses(a, b, OtherFinalizes(o))
    ensures FinalizeOther(a, o).1 == FinalizeOther(b, o).1
    ensures Thinner(FinalizeOther(a, o).0, FinalizeOther(b, o).0)
  {
    forall id | id in b.challenges && TakenByOther(b.challenges[id], o) ensures id in a.challenges {
      assert Selects(b, OtherFinalizes(o), id);
    }
    assert OtherMatches(a, o) == OtherMatches(b, o);
  }

  lemma SameStep(a: Tables, b: Tables, e: Event)
    requires Thinner(a, b) && !e.Retains? && IsNew(b, e) && !Misses(a, b, e)
    ensures Step(a, e).1 == Step(b, e).1
    ensures Thinner(Step(a, e).0, Step(b, e).0)
  {
    match e
    case Creates(c) => SameRefusals(a, b, c); CreateStaysThinner(a, b, c);
    case Finalizes(f, clock) => SameFinalize(a, b, f, clock);
    case OtherFinalizes(o) => SameOther(a, b, o);
    case Others(_) =>
  }

  lemma RetainThins(a: Tables, b: Tables, r: RetainCall)
    requires Thinner(a, b)
    ensures Thinner(Retain(a, r).0, b)
  {
  }

  // ---------------------------------------------------------------- exactly when a run notices

  /** No finalizer of the run could take a challenge that a pass has deleted. */
  predicate Unnoticed(t: Tables, events: seq<Event>)
    decreases |events|
  {
    events == [] ||
    var prefix := events[..|events| - 1];
    Unnoticed(t, prefix) && !Misses(Run(t, prefix), Run(t, Without(prefix)), events[|events| - 1])
  }

  /** Every finalizer of the run takes the challenge it would take without the passes. */
  predicate SameFinds(t: Tables, events: seq<Event>)
    decreases |events|
  {
    events == [] ||
    var (prefix, last) := (events[..|events| - 1], events[|events| - 1]);
    SameFinds(t, prefix) && Found(Run(t, prefix), last) == Found(Run(t, Without(prefix)), last)
  }

  lemma WithoutLast(events: seq<Event>)
    requires events != []
    ensures var (prefix, last) := (events[..|events| - 1], events[|events| - 1]);
            && (last.Retains? ==> Without(events) == Without(prefix))
            && (!last.Retains? ==> Without(events) != [] && Without(events)[..|Without(events)| - 1] == Without(prefix)
                                   && Without(events)[|Without(events)| - 1] == last)
  {
  }

  lemma {:induction false} UnnoticedRuns(t: Tables, events: seq<Event>)
    requires NewThroughout(t, events) && Unnoticed(t, events)
    ensures Answers(t, events) == Answers(t, Without(events))
    ensures Thinner(Run(t, events), Run(t, Without(events)))
    decreases |events|
  {
    if events != [] {
      var (prefix, last) := (events[..|events| - 1], events[|events| - 1]);
      UnnoticedRuns(t, prefix);
      WithoutLast(events);
      if last.Retains? {
        RetainThins(Run(t, prefix), Run(t, Without(prefix)), last.r);
      } else {
        SameStep(Run(t, prefix), Run(t, Without(prefix)), last);
      }
    }
  }

  lemma StepKeepsDigestsUnique(t: Tables, e: Event)
    requires DigestsUnique(t.challenges)
    ensures DigestsUnique(Step(t, e).0.challenges)
  {
    match e
    case Creates(c) => CreateKeepsDigestsUnique(t, c);
    case Finalizes(f, clock) =>
    case OtherFinalizes(o) =>
    case Others(_) =>
    case Retains(r) =>
  }

  lemma CreateKeepsDigestsUnique(t: Tables, c: CreateCall)
    requires DigestsUnique(t.challenges)
    ensures DigestsUnique(Create(t, c).0.challenges)
  {
  }

  lemma {:induction false} DigestsStayUnique(t: Tables, events: seq<Event>)
    requires DigestsUnique(t.challenges)
    ensures DigestsUnique(Run(t, events).challenges)
    decreases |events|
  {
    if events != [] {
      DigestsStayUnique(t, events[..|events| - 1]);
      StepKeepsDigestsUnique(Run(t, events[..|events| - 1]), events[|events| - 1]);
    }
  }

  /** Over any run: every finalizer takes the challenge it would take had there been no
      retention pass if and only if none of them could take a challenge that was deleted, and
      then no answer of the run differs. */
  lemma {:induction false} RetentionIsUnnoticedExactlyWhen(t: Tables, events: seq<Event>)
    requires NewThroughout(t, events) && DigestsUnique(t.challenges)
    ensures SameFinds(t, events) <==> Unnoticed(t, events)
    ensures SameFinds(t, events) ==> Answers(t, events) == Answers(t, Without(events))
    decreases |events|
  {
    if events != [] {
      var (prefix, last) := (events[..|events| - 1], events[|events| - 1]);
      RetentionIsUnnoticedExactlyWhen(t, prefix);
      if Unnoticed(t, prefix) {
        UnnoticedRuns(t, prefix);
        DigestsStayUnique(t, Without(prefix));
        SameFindExactlyWhen(Run(t, prefix), Run(t, Without(prefix)), last);
      }
    }
    if Unnoticed(t, events) { UnnoticedRuns(t, events); }
  }

  // ---------------------------------------------------------------- a clock that keeps it so

  predicate Reads(e: Event) {
    e.Finalizes? || e.OtherFinalizes?
  }

  /** The clock when a finalizer selects its challenge. */
  function ReadAt(e: Event): int
    requires Reads(e)
  {
    if e.Finalizes? then e.clock(Of(1)).a else e.o.now
  }

  /** No finalizer selects before the cutoff of an earlier pass, which lies at least a day
      before the pass itself. */
  predicate ReadsAfterCutoffs(events: seq<Event>) {
    forall j, k | 0 <= j < k < |events| && events[j].Retains? && ValidRetain(events[j].r) && Reads(events[k]) ::
      Cutoff(events[j].r) <= ReadAt(events[k])
  }

  /** Some pass of the run could delete challenges of this expiry. */
  predicate Passed(events: seq<Event>, expires: int) {
    exists j :: 0 <= j < |events| && events[j].Retains? && ValidRetain(events[j].r) && expires <= Cutoff(events[j].r)
  }

  predicate MissingArePassed(a: Tables, b: Tables, events: seq<Event>) {
    forall id | id in b.challenges && id !in a.challenges :: Passed(events, b.challenges[id].expires)
  }

  lemma PassedBefore(events: seq<Event>, expires: int)
    requires events != [] && Passed(events[..|events| - 1], expires)
    ensures Passed(events, expires)
  {
    var prefix := events[..|events| - 1];
    var j :| 0 <= j < |prefix| && prefix[j].Retains? && ValidRetain(prefix[j].r) && expires <= Cutoff(prefix[j].r);
    assert events[j] == prefix[j];
  }

  /** A step of both runs leaves the same challenges missing, with the same expiry. */
  lemma StepKeepsMissing(a: Tables, b: Tables, e: Event, id: Id)
    requires Thinner(a, b) && !e.Retains? && IsNew(b, e) && Step(a, e).1 == Step(b, e).1
    requires id in Step(b, e).0.challenges && id !in Step(a, e).0.challenges
    ensures id in b.challenges && id !in a.challenges
    ensures b.challenges[id].expires == Step(b, e).0.challenges[id].expires
  {
    if e.Creates? {
      CreateKeepsMissing(a, b, e.c, id);
    } else {
      OthersKeepExpiry(a, e);
      OthersKeepExpiry(b, e);
    }
  }

  lemma OthersKeepExpiry(t: Tables, e: Event)
    requires !e.Creates? && !e.Retains?
    ensures Step(t, e).0.challenges.Keys == t.challenges.Keys
    ensures forall id :: id in t.challenges ==> Step(t, e).0.challenges[id].expires == t.challenges[id].expires
  {
  }

  lemma CreateKeepsMissing(a: Tables, b: Tables, c: CreateCall, id: Id)
    requires Thinner(a, b) && Create(a, c).1 == Create(b, c).1
    requires id in Create(b, c).0.challenges && id !in Create(a, c).0.challenges
    ensures id in b.challenges && id !in a.challenges
    ensures b.challenges[id].expires == Create(b, c).0.challenges[id].expires
  {
  }

  lemma RetainMisses(a: Tables, b: Tables, r: RetainCall, id: Id)
    requires Thinner(a, b) && id in a.challenges && id !in Retain(a, r).0.challenges
    ensures ValidRetain(r) && b.challenges[id].expires <= Cutoff(r)
  {
    assert id in Eligible(a, r);
  }

  lemma NothingMissed(a: Tables, b: Tables, events: seq<Event>)
    requires events != [] && ReadsAfterCutoffs(events) && MissingArePassed(a, b, events[..|events| - 1])
    ensures !Misses(a, b, events[|events| - 1])
  {
    var (prefix, last) := (events[..|events| - 1], events[|events| - 1]);
    forall id | id in b.challenges && id !in a.challenges ensures !Selects(b, last, id) {
      assert Passed(prefix, b.challenges[id].expires);
      var j :| 0 <= j < |prefix| && prefix[j].Retains? && ValidRetain(prefix[j].r)
               && b.challenges[id].expires <= Cutoff(prefix[j].r);
      assert events[j] == prefix[j];
    }
  }

  lemma PassKeepsMissing(a: Tables, b: Tables, events: seq<Event>)
    requires events != [] && events[|events| - 1].Retains? && Thinner(a, b)
    requires MissingArePassed(a, b, events[..|events| - 1])
    ensures MissingArePassed(Retain(a, events[|events| - 1].r).0, b, events)
  {
    var (prefix, r) := (events[..|events| - 1], events[|events| - 1].r);
    forall id | id in b.challenges && id !in Retain(a, r).0.challenges
      ensures Passed(events, b.challenges[id].expires)
    {
      if id in a.challenges {
        RetainMisses(a, b, r, id);
      } else {
        PassedBefore(events, b.challenges[id].expires);
      }
    }
  }

  lemma OtherStepKeepsMissing(a: Tables, b: Tables, events: seq<Event>)
    requires events != [] && !events[|events| - 1].Retains? && Thinner(a, b) && IsNew(b, events[|events| - 1])
    requires Step(a, events[|events| - 1]).1 == Step(b, events[|events| - 1]).1
    requires MissingArePassed(a, b, events[..|events| - 1])
    ensures MissingArePassed(Step(a, events[|events| - 1]).0, Step(b, events[|events| - 1]).0, events)
  {
    var last := events[|events| - 1];
    var (a', b') := (Step(a, last).0, Step(b, last).0);
    forall id | id in b'.challenges && id !in a'.challenges ensures Passed(events, b'.challenges[id].expires) {
      StepKeepsMissing(a, b, last, id);
      PassedBefore(events, b.challenges[id].expires);
    }
  }

  lemma NextKeepsMissing(a: Tables, b: Tables, events: seq<Event>)
    requires events != [] && Thinner(a, b) && MissingArePassed(a, b, events[..|events| - 1])
    requires IsNew(b, events[|events| - 1]) && !Misses(a, b, events[|events| - 1])
    ensures var last := events[|events| - 1];
            MissingArePassed(Step(a, last).0, if last.Retains? then b else Step(b, last).0, events)
  {
    var last := events[|events| - 1];
    if last.Retains? {
      PassKeepsMissing(a, b, events);
    } else {
      SameStep(a, b, last);
      OtherStepKeepsMissing(a, b, events);
    }
  }

  /** Retention passes anywhere in a run, under any retention and batch, change no answer of
      the run, neither of challenge creation nor of any finalizer, as long as no finalizer
      selects at a time before the cutoff of an earlier pass. */
  lemma {:induction false} RetentionIsInvisible(t: Tables, events: seq<Event>)
    requires ReadsAfterCutoffs(events) && NewThroughout(t, events)
    ensures Unnoticed(t, events)
    ensures Answers(t, events) == Answers(t, Without(events))
    ensures MissingArePassed(Run(t, events), Run(t, Without(events)), events)
    decreases |events|
  {
    if events != [] {
      var (prefix, last) := (events[..|events| - 1], events[|events| - 1]);
      var (a, b) := (Run(t, prefix), Run(t, Without(prefix)));
      assert ReadsAfterCutoffs(prefix) by {
        assert forall k :: 0 <= k < |prefix| ==> prefix[k] == events[k];
      }
      RetentionIsInvisible(t, prefix);
      UnnoticedRuns(t, prefix);
      WithoutLast(events);
      NothingMissed(a, b, events);
      NextKeepsMissing(a, b, events);
      UnnoticedRuns(t, events);
    }
  }

  // ---------------------------------------------------------------- exactly which reading notices

  /** What the constraints and the creating command guarantee of a stored challenge. */
  predicate Sound(ch: Challenge) {
    && |ch.digest| == 32
    && (ch.purpose == Discoverable ==> ch.identity.None? && ch.session.None? && ch.setup.None?)
  }

  /** Some finalizer that selects at this time takes another challenge in `a` than in `b`. */
  ghost predicate NoticedAt(a: Tables, b: Tables, at: int) {
    exists e :: Reads(e) && ReadAt(e) == at && Found(a, e) != Found(b, e)
  }

  /** A finalizer that asks for this challenge. */
  function Asking(ch: Challenge, at: int): Event {
    if ch.purpose == Discoverable then
      Finalizes(FinalizeCall(Some(ch.digest), Some(0), 0, false, false, false, Some(0), Some(ch.digest),
                             Some("0123456789abcdef"), Some(0), Some(0), Some(ch.digest)),
                _ => Readings(at, at))
    else OtherFinalizes(OtherCall(ch.digest, ch.purpose, at, at, (_, _) => Refuses))
  }

  lemma AskingSelects(t: Tables, id: Id, at: int)
    requires id in t.challenges && Sound(t.challenges[id])
    ensures Reads(Asking(t.challenges[id], at)) && ReadAt(Asking(t.challenges[id], at)) == at
    ensures Selects(t, Asking(t.challenges[id], at), id)
       <==> t.challenges[id].status == Pending && at < t.challenges[id].expires
  {
  }

  /** A finalizer selecting at a given time can tell that a pass has been made exactly when the
      pass deleted a challenge that was still pending and that had not expired at that time:
      a reading before the expiry of a deleted row, and nothing else, notices the deletion. */
  lemma PassIsNoticedExactlyWhen(t: Tables, r: RetainCall, at: int)
    requires DigestsUnique(t.challenges) && forall id :: id in t.challenges ==> Sound(t.challenges[id])
    ensures NoticedAt(Retain(t, r).0, t, at) <==>
              exists id :: id in t.challenges && id !in Retain(t, r).0.challenges
                           && t.challenges[id].status == Pending && at < t.challenges[id].expires
  {
    var u := Retain(t, r).0;
    RetainThins(t, t, r);
    if e :| Reads(e) && ReadAt(e) == at && Found(u, e) != Found(t, e) {
      SameFindExactlyWhen(u, t, e);
      var id :| id in t.challenges && id !in u.challenges && Selects(t, e, id);
    }
    if id :| id in t.challenges && id !in u.challenges
             && t.challenges[id].status == Pending && at < t.challenges[id].expires {
      AskingSelects(t, id, at);
      SameFindExactlyWhen(u, t, Asking(t.challenges[id], at));
    }
  }
}
