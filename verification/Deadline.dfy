/** The rewrite that adds deadline checks to a finalizer body, and what running the
    rewritten body means. Generic in the tables `T`, the local variables `L` and the
    reply `R`; a body is a list of statements, each an arbitrary total step. */
module Deadline {
  import opened Common

  /** The private SQLSTATE of the second check. */
  const DEADLINE: string := "PWE01"

  datatype Anchor = FirstWrite | Consume | Success | Plain

  datatype Flow<T, L, R> =
    | Running(tables: T, locals: L)
    | Returned(final: T, reply: R)
    | Failed(code: string)

  /** Two clock readings, as many as one deadline condition takes. */
  datatype Readings = Readings(a: int, b: int)

  /** Which reading of the clock: that of a statement of the body, or of an added check. */
  datatype Label = Of(n: nat) | FirstCheck | SecondCheck

  type Clock = Label -> Readings

  datatype Stmt<!T, !L, !R> = Stmt(position: nat, anchor: Anchor, effect: (T, L, Readings) -> Flow<T, L, R>)

  /** When the deadline has passed, and what the finalizer then answers. */
  datatype Policy<!L, !R> = Policy(expired: (L, Readings) -> bool, failure: R)

  datatype Token<!T, !L, !R> =
    | Do(stmt: Stmt<T, L, R>)
    | ReturnIfExpired
    | Begin
    | RaiseIfExpired
    | EndOnDeadline

  // ---------------------------------------------------------------- running a body

  /** The original body: statement after statement until one returns or fails. */
  function RunBody<T, L, R>(body: seq<Stmt<T, L, R>>, clock: Clock, t: T, l: L): Flow<T, L, R>
    decreases |body|
  {
    if body == [] then Running(t, l)
    else
      match body[0].effect(t, l, clock(Of(body[0].position)))
      case Running(t', l') => RunBody(body[1..], clock, t', l')
      case stopped => stopped
  }

  /** What a raised `code` becomes: caught when a block is open and a handler follows. */
  function Raise<T, L, R>(code: string, rest: seq<Token<T, L, R>>, p: Policy<L, R>, saved: Option<T>): Flow<T, L, R> {
    if code == DEADLINE && saved.Some? && (exists i :: 0 <= i < |rest| && rest[i].EndOnDeadline?)
    then Returned(saved.value, p.failure)
    else Failed(code)
  }

  /** The rewritten body. `saved` holds the tables at the start of the open block. */
  function RunTokens<T, L, R>(
      tokens: seq<Token<T, L, R>>, p: Policy<L, R>, clock: Clock, t: T, l: L, saved: Option<T>): Flow<T, L, R>
    decreases |tokens|
  {
    if tokens == [] then Running(t, l)
    else
      var rest := tokens[1..];
      match tokens[0]
      case Do(s) =>
        (match s.effect(t, l, clock(Of(s.position)))
         case Running(t', l') => RunTokens(rest, p, clock, t', l', saved)
         case Returned(t', r) => Returned(t', r)
         case Failed(code) => Raise(code, rest, p, saved))
      case ReturnIfExpired =>
        if p.expired(l, clock(FirstCheck)) then Returned(t, p.failure) else RunTokens(rest, p, clock, t, l, saved)
      case Begin => RunTokens(rest, p, clock, t, l, Some(t))
      case RaiseIfExpired =>
        if p.expired(l, clock(SecondCheck)) then Raise(DEADLINE, rest, p, saved)
        else RunTokens(rest, p, clock, t, l, saved)
      case EndOnDeadline => RunTokens(rest, p, clock, t, l, None)
  }

  // ---------------------------------------------------------------- the rewrite

  function Plains<T, L, R>(body: seq<Stmt<T, L, R>>): (tokens: seq<Token<T, L, R>>)
    ensures |tokens| == |body| && forall i :: 0 <= i < |body| ==> tokens[i] == Do(body[i])
  {
    seq(|body|, i requires 0 <= i < |body| => Do(body[i]))
  }

  predicate IsAnchor<T, L, R>(token: Token<T, L, R>, anchor: Anchor) {
    token.Do? && token.stmt.anchor == anchor
  }

  function Count<T, L, R>(tokens: seq<Token<T, L, R>>, anchor: Anchor): nat {
    if tokens == [] then 0 else (if IsAnchor(tokens[0], anchor) then 1 else 0) + Count(tokens[1..], anchor)
  }

  /** Text before and after the first occurrence of an anchor. */
  function Surround<T, L, R>(
      tokens: seq<Token<T, L, R>>, anchor: Anchor, before: seq<Token<T, L, R>>, after: seq<Token<T, L, R>>)
    : seq<Token<T, L, R>>
  {
    if tokens == [] then []
    else if IsAnchor(tokens[0], anchor) then before + [tokens[0]] + after + tokens[1..]
    else [tokens[0]] + Surround(tokens[1..], anchor, before, after)
  }

  /** Blocks open before they close. The database refuses to create a function whose text
      has an END, with its handler, ahead of the BEGIN it belongs to. */
  predicate Nested<T, L, R>(tokens: seq<Token<T, L, R>>, open: bool) {
    if tokens == [] then !open
    else if tokens[0].Begin? then !open && Nested(tokens[1..], true)
    else if tokens[0].EndOnDeadline? then open && Nested(tokens[1..], false)
    else Nested(tokens[1..], open)
  }

  datatype Refusal = Ambiguous(anchor: Anchor) | SyntaxError

  /** Refused with the first anchor that does not occur exactly once, and by the database
      when the rewritten text is no well-formed body. */
  function EnforceDeadline<T, L, R>(body: seq<Stmt<T, L, R>>): Result<seq<Token<T, L, R>>, Refusal> {
    var tokens := Plains(body);
    if Count(tokens, FirstWrite) != 1 then Err(Ambiguous(FirstWrite))
    else if Count(tokens, Consume) != 1 then Err(Ambiguous(Consume))
    else if Count(tokens, Success) != 1 then Err(Ambiguous(Success))
    else
      var one := Surround(tokens, FirstWrite, [ReturnIfExpired, Begin], []);
      var two := Surround(one, Consume, [RaiseIfExpired], []);
      var three := Surround(two, Success, [], [EndOnDeadline]);
      if Nested(three, false) then Ok(three) else Err(SyntaxError)
  }

  // ---------------------------------------------------------------- bodies the rewrite is for

  predicate OnceAt<T, L, R>(body: seq<Stmt<T, L, R>>, anchor: Anchor, i: nat) {
    i < |body| && forall n :: 0 <= n < |body| ==> (body[n].anchor == anchor <==> n == i)
  }

  /** Each anchor at exactly one place: first write, consume and success. */
  predicate Placed<T, L, R>(body: seq<Stmt<T, L, R>>, i: nat, j: nat, k: nat) {
    OnceAt(body, FirstWrite, i) && OnceAt(body, Consume, j) && OnceAt(body, Success, k)
  }

  ghost predicate WriteFree<T(!new), L(!new), R(!new)>(s: Stmt<T, L, R>) {
    forall t, l, now ::
      match s.effect(t, l, now)
      case Running(t', _) => t' == t
      case Returned(t', _) => t' == t
      case Failed(_) => true
  }

  /** No statement of the body raises the private code itself. */
  ghost predicate Quiet<T(!new), L(!new), R(!new)>(s: Stmt<T, L, R>) {
    forall t, l, now :: s.effect(t, l, now) != Failed(DEADLINE)
  }

  ghost predicate Fit<T(!new), L(!new), R(!new)>(body: seq<Stmt<T, L, R>>, i: nat, j: nat, k: nat) {
    && Placed(body, i, j, k) && i < j < k
    && (forall n :: 0 <= n < i ==> WriteFree(body[n]))
    && (forall n :: 0 <= n < |body| ==> Quiet(body[n]))
  }

  // ---------------------------------------------------------------- shape of the result

  /** What the rewrite makes of one statement. */
  function Piece<T, L, R>(s: Stmt<T, L, R>): seq<Token<T, L, R>> {
    match s.anchor
    case FirstWrite => [ReturnIfExpired, Begin, Do(s)]
    case Consume => [RaiseIfExpired, Do(s)]
    case Success => [Do(s), EndOnDeadline]
    case Plain => [Do(s)]
  }

  function Weave<T, L, R>(body: seq<Stmt<T, L, R>>): seq<Token<T, L, R>> {
    if body == [] then [] else Piece(body[0]) + Weave(body[1..])
  }

  /** Every occurrence of an anchor surrounded, not only the first. */
  function SurroundAll<T, L, R>(
      tokens: seq<Token<T, L, R>>, anchor: Anchor, before: seq<Token<T, L, R>>, after: seq<Token<T, L, R>>)
    : seq<Token<T, L, R>>
  {
    if tokens == [] then []
    else (if IsAnchor(tokens[0], anchor) then before + [tokens[0]] + after else [tokens[0]])
         + SurroundAll(tokens[1..], anchor, before, after)
  }

  lemma {:induction false} NoneSurrounded<T, L, R>(
      tokens: seq<Token<T, L, R>>, anchor: Anchor, before: seq<Token<T, L, R>>, after: seq<Token<T, L, R>>)
    requires Count(tokens, anchor) == 0
    ensures SurroundAll(tokens, anchor, before, after) == tokens
  {
    if tokens != [] {
      NoneSurrounded(tokens[1..], anchor, before, after);
      assert tokens == [tokens[0]] + tokens[1..];
    }
  }

  lemma {:induction false} FirstIsAll<T, L, R>(
      tokens: seq<Token<T, L, R>>, anchor: Anchor, before: seq<Token<T, L, R>>, after: seq<Token<T, L, R>>)
    requires Count(tokens, anchor) <= 1
    ensures Surround(tokens, anchor, before, after) == SurroundAll(tokens, anchor, before, after)
  {
    if tokens != [] {
      if IsAnchor(tokens[0], anchor) {
        NoneSurrounded(tokens[1..], anchor, before, after);
      } else {
        FirstIsAll(tokens[1..], anchor, before, after);
      }
    }
  }

  lemma {:induction false} SurroundAllBoth<T, L, R>(
      a: seq<Token<T, L, R>>, b: seq<Token<T, L, R>>, anchor: Anchor,
      before: seq<Token<T, L, R>>, after: seq<Token<T, L, R>>)
    ensures SurroundAll(a + b, anchor, before, after)
         == SurroundAll(a, anchor, before, after) + SurroundAll(b, anchor, before, after)
    decreases |a|
  {
    if a == [] {
      assert a + b == b;
    } else {
      assert (a + b)[0] == a[0] && (a + b)[1..] == a[1..] + b;
      SurroundAllBoth(a[1..], b, anchor, before, after);
    }
  }

  lemma {:induction false} CountBoth<T, L, R>(a: seq<Token<T, L, R>>, b: seq<Token<T, L, R>>, anchor: Anchor)
    ensures Count(a + b, anchor) == Count(a, anchor) + Count(b, anchor)
  {
    if a == [] {
      assert a + b == b;
    } else {
      assert (a + b)[0] == a[0] && (a + b)[1..] == a[1..] + b;
      CountBoth(a[1..], b, anchor);
    }
  }

  /** Added tokens are no statements, so surrounding changes no count. */
  lemma {:induction false} CountStays<T, L, R>(
      tokens: seq<Token<T, L, R>>, anchor: Anchor, before: seq<Token<T, L, R>>, after: seq<Token<T, L, R>>,
      other: Anchor)
    requires Count(before, other) == 0 && Count(after, other) == 0
    ensures Count(SurroundAll(tokens, anchor, before, after), other) == Count(tokens, other)
  {
    if tokens != [] {
      CountStays(tokens[1..], anchor, before, after, other);
      var rest := SurroundAll(tokens[1..], anchor, before, after);
      if IsAnchor(tokens[0], anchor) {
        CountBoth(before + [tokens[0]] + after, rest, other);
        CountBoth(before + [tokens[0]], after, other);
        CountBoth(before, [tokens[0]], other);
      } else {
        CountBoth([tokens[0]], rest, other);
      }
    }
  }

  /** The three replacements, each at every occurrence of its anchor. */
  function AllThree<T, L, R>(tokens: seq<Token<T, L, R>>): seq<Token<T, L, R>> {
    var one := SurroundAll(tokens, FirstWrite, [ReturnIfExpired, Begin], []);
    var two := SurroundAll(one, Consume, [RaiseIfExpired], []);
    SurroundAll(two, Success, [], [EndOnDeadline])
  }

  lemma AllThreeBoth<T, L, R>(a: seq<Token<T, L, R>>, b: seq<Token<T, L, R>>)
    ensures AllThree(a + b) == AllThree(a) + AllThree(b)
  {
    var head: seq<Token<T, L, R>> := [ReturnIfExpired, Begin];
    var none: seq<Token<T, L, R>> := [];
    SurroundAllBoth(a, b, FirstWrite, head, none);
    var (a1, b1) := (SurroundAll(a, FirstWrite, head, none), SurroundAll(b, FirstWrite, head, none));
    SurroundAllBoth(a1, b1, Consume, [RaiseIfExpired], none);
    var (a2, b2) := (SurroundAll(a1, Consume, [RaiseIfExpired], none),
                    SurroundAll(b1, Consume, [RaiseIfExpired], none));
    SurroundAllBoth(a2, b2, Success, none, [EndOnDeadline]);
  }

  lemma SurroundOne<T, L, R>(x: Token<T, L, R>, anchor: Anchor, before: seq<Token<T, L, R>>, after: seq<Token<T, L, R>>)
    ensures SurroundAll([x], anchor, before, after) == if IsAnchor(x, anchor) then before + [x] + after else [x]
  {
    var none: seq<Token<T, L, R>> := [];
    assert [x][1..] == none;
    assert SurroundAll(none, anchor, before, after) == none;
    assert before + [x] + after + none == before + [x] + after && [x] + none == [x];
  }

  lemma AllThreeOfOne<T, L, R>(s: Stmt<T, L, R>)
    ensures AllThree([Do(s)]) == Piece(s)
  {
    var head: seq<Token<T, L, R>> := [ReturnIfExpired, Begin];
    var none: seq<Token<T, L, R>> := [];
    var x := Do(s);
    SurroundOne(x, FirstWrite, head, none);
    SurroundOne(x, Consume, [RaiseIfExpired], none);
    SurroundOne(x, Success, none, [EndOnDeadline]);
    if s.anchor == FirstWrite {
      HeadStays(Consume, [RaiseIfExpired], none, x);
      HeadStays(Success, none, [EndOnDeadline], x);
      assert head + [x] + none == [ReturnIfExpired, Begin, x];
    } else if s.anchor == Consume {
      var raise: seq<Token<T, L, R>> := [RaiseIfExpired];
      SurroundAllBoth(raise, [x], Success, none, [EndOnDeadline]);
      SurroundOne(RaiseIfExpired, Success, none, [EndOnDeadline]);
      assert raise + [x] + none == raise + [x];
    }
  }

  lemma HeadStays<T, L, R>(anchor: Anchor, before: seq<Token<T, L, R>>, after: seq<Token<T, L, R>>, x: Token<T, L, R>)
    requires !IsAnchor(x, anchor)
    ensures SurroundAll([ReturnIfExpired, Begin, x], anchor, before, after) == [ReturnIfExpired, Begin, x]
  {
    assert [ReturnIfExpired, Begin, x] == [ReturnIfExpired] + ([Begin] + [x]);
    SurroundAllBoth([ReturnIfExpired], [Begin] + [x], anchor, before, after);
    SurroundAllBoth([Begin], [x], anchor, before, after);
    SurroundOne(ReturnIfExpired, anchor, before, after);
    SurroundOne(Begin, anchor, before, after);
    SurroundOne(x, anchor, before, after);
  }

  lemma {:induction false} AllThreeIsWeave<T, L, R>(body: seq<Stmt<T, L, R>>)
    ensures AllThree(Plains(body)) == Weave(body)
  {
    if body == [] {
      assert Plains(body) == [];
    } else {
      AllThreeIsWeave(body[1..]);
      AllThreeOfOne(body[0]);
      AllThreeBoth([Do(body[0])], Plains(body[1..]));
      assert Plains(body) == [Do(body[0])] + Plains(body[1..]);
    }
  }

  lemma {:induction false} Once<T, L, R>(body: seq<Stmt<T, L, R>>, anchor: Anchor, i: nat)
    requires OnceAt(body, anchor, i)
    ensures Count(Plains(body), anchor) == 1
  {
    var tokens := Plains(body);
    assert tokens == tokens[..i] + ([tokens[i]] + tokens[i + 1..]);
    CountBoth(tokens[..i], [tokens[i]] + tokens[i + 1..], anchor);
    CountBoth([tokens[i]], tokens[i + 1..], anchor);
    NoneCounted(tokens[..i], anchor);
    NoneCounted(tokens[i + 1..], anchor);
  }

  lemma {:induction false} NoneCounted<T, L, R>(tokens: seq<Token<T, L, R>>, anchor: Anchor)
    requires forall n :: 0 <= n < |tokens| ==> !IsAnchor(tokens[n], anchor)
    ensures Count(tokens, anchor) == 0
  {
    if tokens != [] { NoneCounted(tokens[1..], anchor); }
  }

  /** With each anchor once, wherever it stands, the rewrite turns every statement into its
      piece; what is left to refuse is a text whose blocks do not nest. */
  lemma RewriteIsWeave<T, L, R>(body: seq<Stmt<T, L, R>>, i: nat, j: nat, k: nat)
    requires Placed(body, i, j, k)
    ensures EnforceDeadline(body) == if Nested(Weave(body), false) then Ok(Weave(body)) else Err(SyntaxError)
  {
    var tokens := Plains(body);
    var head: seq<Token<T, L, R>> := [ReturnIfExpired, Begin];
    var none: seq<Token<T, L, R>> := [];
    Once(body, FirstWrite, i);
    Once(body, Consume, j);
    Once(body, Success, k);
    FirstIsAll(tokens, FirstWrite, head, none);
    var one := SurroundAll(tokens, FirstWrite, head, none);
    NoneCounted(head, Consume);
    CountStays(tokens, FirstWrite, head, none, Consume);
    FirstIsAll(one, Consume, [RaiseIfExpired], none);
    var two := SurroundAll(one, Consume, [RaiseIfExpired], none);
    NoneCounted(head, Success);
    CountStays(tokens, FirstWrite, head, none, Success);
    CountStays(one, Consume, [RaiseIfExpired], none, Success);
    FirstIsAll(two, Success, none, [EndOnDeadline]);
    AllThreeIsWeave(body);
  }

  lemma {:induction false} WeaveBoth<T, L, R>(a: seq<Stmt<T, L, R>>, b: seq<Stmt<T, L, R>>)
    ensures Weave(a + b) == Weave(a) + Weave(b)
    decreases |a|
  {
    if a == [] {
      assert a + b == b;
    } else {
      assert (a + b)[0] == a[0] && (a + b)[1..] == a[1..] + b;
      WeaveBoth(a[1..], b);
    }
  }

  lemma {:induction false} WeavePlain<T, L, R>(a: seq<Stmt<T, L, R>>)
    requires forall n :: 0 <= n < |a| ==> a[n].anchor == Plain
    ensures Weave(a) == Plains(a)
  {
    if a != [] {
      WeavePlain(a[1..]);
      assert Plains(a) == [Do(a[0])] + Plains(a[1..]);
    }
  }

  /** The text up to the anchor at `x`, its piece, and the rest. */
  lemma WeaveAt<T, L, R>(body: seq<Stmt<T, L, R>>, w: nat, x: nat)
    requires w <= x < |body| && forall n :: w <= n < x ==> body[n].anchor == Plain
    ensures Weave(body[w..]) == Plains(body[w..x]) + (Piece(body[x]) + Weave(body[x + 1..]))
  {
    assert body[w..] == body[w..x] + body[x..];
    WeaveBoth(body[w..x], body[x..]);
    WeavePlain(body[w..x]);
    assert body[x..][1..] == body[x + 1..];
  }

  lemma {:induction false} NestedOver<T, L, R>(a: seq<Token<T, L, R>>, rest: seq<Token<T, L, R>>, open: bool)
    requires forall n :: 0 <= n < |a| ==> !a[n].Begin? && !a[n].EndOnDeadline?
    ensures Nested(a + rest, open) == Nested(rest, open)
    decreases |a|
  {
    if a == [] {
      assert a + rest == rest;
    } else {
      assert (a + rest)[0] == a[0] && (a + rest)[1..] == a[1..] + rest;
      NestedOver(a[1..], rest, open);
    }
  }

  lemma {:induction false} WeaveHasNoBlocks<T, L, R>(a: seq<Stmt<T, L, R>>)
    requires forall n :: 0 <= n < |a| ==> a[n].anchor != FirstWrite && a[n].anchor != Success
    ensures forall n :: 0 <= n < |Weave(a)| ==> !Weave(a)[n].Begin? && !Weave(a)[n].EndOnDeadline?
  {
    if a != [] { WeaveHasNoBlocks(a[1..]); }
  }

  /** Nesting passes over a stretch without first write or success to what follows it. */
  lemma NestedFrom<T, L, R>(body: seq<Stmt<T, L, R>>, w: nat, x: nat, open: bool)
    requires w <= x < |body| && forall n :: w <= n < x ==> body[n].anchor != FirstWrite && body[n].anchor != Success
    ensures Nested(Weave(body[w..]), open) == Nested(Piece(body[x]) + Weave(body[x + 1..]), open)
  {
    assert body[w..] == body[w..x] + body[x..];
    WeaveBoth(body[w..x], body[x..]);
    WeaveHasNoBlocks(body[w..x]);
    NestedOver(Weave(body[w..x]), Weave(body[x..]), open);
    assert body[x..][1..] == body[x + 1..];
  }

  lemma NestedPieces<T, L, R>(f: Stmt<T, L, R>, s: Stmt<T, L, R>, rest: seq<Token<T, L, R>>)
    requires f.anchor == FirstWrite && s.anchor == Success
    ensures Nested(Piece(f) + rest, false) == Nested(rest, true)
    ensures Nested(Piece(s) + rest, true) == Nested(rest, false)
    ensures !Nested(Piece(s) + rest, false)
  {
    var (x, y) := (Do(f), Do(s));
    assert (Piece(f) + rest)[1..] == [Begin, x] + rest;
    assert Nested(Piece(f) + rest, false) == Nested([Begin, x] + rest, false);
    assert ([Begin, x] + rest)[1..] == [x] + rest && ([x] + rest)[1..] == rest;
    assert Nested([x] + rest, true) == Nested(rest, true);
    assert (Piece(s) + rest)[1..] == [EndOnDeadline] + rest && ([EndOnDeadline] + rest)[1..] == rest;
  }

  lemma NestedAtEnd<T, L, R>(a: seq<Stmt<T, L, R>>)
    requires forall n :: 0 <= n < |a| ==> a[n].anchor != FirstWrite && a[n].anchor != Success
    ensures Nested(Weave(a), false)
  {
    WeaveHasNoBlocks(a);
    NestedOver(Weave(a), [], false);
    assert Weave(a) + [] == Weave(a);
  }

  lemma NestedExactlyWhen<T, L, R>(body: seq<Stmt<T, L, R>>, i: nat, k: nat)
    requires OnceAt(body, FirstWrite, i) && OnceAt(body, Success, k)
    ensures Nested(Weave(body), false) <==> i < k
  {
    assert body[0..] == body;
    if i < k {
      NestedFrom(body, 0, i, false);
      NestedPieces(body[i], body[k], Weave(body[i + 1..]));
      NestedFrom(body, i + 1, k, true);
      NestedPieces(body[i], body[k], Weave(body[k + 1..]));
      NestedAtEnd(body[k + 1..]);
    } else {
      NestedFrom(body, 0, k, false);
      NestedPieces(body[i], body[k], Weave(body[k + 1..]));
    }
  }

  /** The rewritten function can be created exactly when the first write comes before the
      success; where the consume stands is never looked at. */
  lemma CreatedExactlyWhen<T, L, R>(body: seq<Stmt<T, L, R>>, i: nat, j: nat, k: nat)
    requires Placed(body, i, j, k)
    ensures EnforceDeadline(body) == if i < k then Ok(Weave(body)) else Err(SyntaxError)
  {
    RewriteIsWeave(body, i, j, k);
    NestedExactlyWhen(body, i, k);
  }

  // ---------------------------------------------------------------- meaning of the result

  lemma {:induction false} RunSplit<T, L, R>(a: seq<Stmt<T, L, R>>, b: seq<Stmt<T, L, R>>, clock: Clock, t: T, l: L)
    ensures RunBody(a + b, clock, t, l)
         == match RunBody(a, clock, t, l)
            case Running(t', l') => RunBody(b, clock, t', l')
            case stopped => stopped
    decreases |a|
  {
    if a == [] {
      assert a + b == b;
    } else {
      assert (a + b)[0] == a[0] && (a + b)[1..] == a[1..] + b;
      match a[0].effect(t, l, clock(Of(a[0].position)))
      case Running(t', l') => RunSplit(a[1..], b, clock, t', l');
      case Returned(_, _) =>
      case Failed(_) =>
    }
  }

  /** Quiet statements behave in a block as they do outside it. */
  lemma {:induction false} PlainStretch<T(!new), L(!new), R(!new)>(
      a: seq<Stmt<T, L, R>>, rest: seq<Token<T, L, R>>, p: Policy<L, R>, clock: Clock, t: T, l: L, saved: Option<T>)
    requires forall n :: 0 <= n < |a| ==> Quiet(a[n])
    ensures RunTokens(Plains(a) + rest, p, clock, t, l, saved)
         == match RunBody(a, clock, t, l)
            case Running(t', l') => RunTokens(rest, p, clock, t', l', saved)
            case stopped => stopped
    decreases |a|
  {
    var tokens := Plains(a) + rest;
    if a == [] {
      assert tokens == rest;
    } else {
      assert tokens[0] == Do(a[0]);
      assert tokens[1..] == Plains(a[1..]) + rest;
      assert Quiet(a[0]);
      match a[0].effect(t, l, clock(Of(a[0].position)))
      case Running(t', l') => PlainStretch(a[1..], rest, p, clock, t', l', saved);
      case Returned(_, _) =>
      case Failed(_) =>
    }
  }

  lemma {:induction false} PrefixWritesNothing<T(!new), L(!new), R(!new)>(
      a: seq<Stmt<T, L, R>>, clock: Clock, t: T, l: L)
    requires forall n :: 0 <= n < |a| ==> WriteFree(a[n])
    ensures match RunBody(a, clock, t, l)
            case Running(t', _) => t' == t
            case Returned(t', _) => t' == t
            case Failed(_) => true
    decreases |a|
  {
    if a != [] {
      assert WriteFree(a[0]);
      match a[0].effect(t, l, clock(Of(a[0].position)))
      case Running(t', l') => PrefixWritesNothing(a[1..], clock, t', l');
      case Returned(_, _) =>
      case Failed(_) =>
    }
  }

  /** The run reaches the first write with the deadline already past. */
  predicate FirstFires<T, L, R>(body: seq<Stmt<T, L, R>>, i: nat, p: Policy<L, R>, clock: Clock, t: T, l: L)
    requires i <= |body|
  {
    var reached := RunBody(body[..i], clock, t, l);
    reached.Running? && p.expired(reached.locals, clock(FirstCheck))
  }

  /** The run gets past the first check, but the deadline is over when it comes to consume. */
  predicate SecondFires<T, L, R>(body: seq<Stmt<T, L, R>>, i: nat, j: nat, p: Policy<L, R>, clock: Clock, t: T, l: L)
    requires i <= j <= |body|
  {
    var reached := RunBody(body[..j], clock, t, l);
    !FirstFires(body, i, p, clock, t, l) && reached.Running? && p.expired(reached.locals, clock(SecondCheck))
  }

  /** A run of the rewritten body is the original run when neither check fires, and otherwise
      answers the failure value with every table as it was when the call began. */
  lemma RewriteKeepsMeaning<T(!new), L(!new), R(!new)>(
      body: seq<Stmt<T, L, R>>, i: nat, j: nat, k: nat, p: Policy<L, R>, clock: Clock, t: T, l: L)
    requires Fit(body, i, j, k)
    ensures EnforceDeadline(body).Ok?
    ensures RunTokens(EnforceDeadline(body).value, p, clock, t, l, None)
         == if FirstFires(body, i, p, clock, t, l) || SecondFires(body, i, j, p, clock, t, l)
            then Returned(t, p.failure)
            else RunBody(body, clock, t, l)
  {
    CreatedExactlyWhen(body, i, j, k);
    var rest := FromFirstWrite(body, i, j, k);
    WeaveInOrder(body, i, j, k);
    PlainStretch(body[..i], rest, p, clock, t, l, None);
    PrefixWritesNothing(body[..i], clock, t, l);
    RunSplit(body[..i], body[i..], clock, t, l);
    RunSplit(body[..i], body[i..j], clock, t, l);
    assert body[..i] + body[i..] == body && body[..i] + body[i..j] == body[..j];
    match RunBody(body[..i], clock, t, l)
    case Running(t', l') => ChecksStop(body, i, j, k, p, clock, t', l');
    case Returned(_, _) =>
    case Failed(_) =>
  }

  /** The rewritten text from the first check on. */
  function FromFirstWrite<T, L, R>(body: seq<Stmt<T, L, R>>, i: nat, j: nat, k: nat): seq<Token<T, L, R>>
    requires i < j < k < |body|
  {
    [ReturnIfExpired]
    + ([Begin]
       + (Plains(body[i..j])
          + ([RaiseIfExpired] + (Plains(body[j..k + 1]) + ([EndOnDeadline] + Plains(body[k + 1..]))))))
  }

  lemma PlainsSpan<T, L, R>(body: seq<Stmt<T, L, R>>, i: nat, k: nat)
    requires i < k < |body|
    ensures Plains(body[i..k]) == [Do(body[i])] + Plains(body[i + 1..k])
    ensures Plains(body[i..k + 1]) == [Do(body[i])] + (Plains(body[i + 1..k]) + [Do(body[k])])
  {
    assert body[i..k] == [body[i]] + body[i + 1..k];
    assert body[i..k + 1] == [body[i]] + (body[i + 1..k] + [body[k]]);
  }

  lemma WeaveFromConsume<T, L, R>(body: seq<Stmt<T, L, R>>, i: nat, j: nat, k: nat)
    requires Placed(body, i, j, k) && i < j < k
    ensures Weave(body[i + 1..])
         == Plains(body[i + 1..j])
            + ([RaiseIfExpired] + (Plains(body[j..k + 1]) + ([EndOnDeadline] + Plains(body[k + 1..]))))
  {
    WeaveAt(body, i + 1, j);
    WeaveFromSuccess(body, j, k);
    PlainsSpan(body, j, k);
    LastPieces(body[j], body[k], Plains(body[j + 1..k]), Plains(body[k + 1..]),
               Plains(body[j..k + 1]), Weave(body[j + 1..]));
  }

  lemma WeaveFromSuccess<T, L, R>(body: seq<Stmt<T, L, R>>, j: nat, k: nat)
    requires j < k < |body| && forall n :: j < n < |body| && n != k ==> body[n].anchor == Plain
    ensures Weave(body[j + 1..]) == Plains(body[j + 1..k]) + (Piece(body[k]) + Plains(body[k + 1..]))
  {
    WeaveAt(body, j + 1, k);
    WeavePlain(body[k + 1..]);
  }

  lemma LastPieces<T, L, R>(u: Stmt<T, L, R>, s: Stmt<T, L, R>, a: seq<Token<T, L, R>>, d: seq<Token<T, L, R>>,
                            span: seq<Token<T, L, R>>, tail: seq<Token<T, L, R>>)
    requires u.anchor == Consume && s.anchor == Success
    requires span == [Do(u)] + (a + [Do(s)]) && tail == a + (Piece(s) + d)
    ensures Piece(u) + tail == [RaiseIfExpired] + (span + ([EndOnDeadline] + d))
  {
  }

  lemma WeaveInOrder<T, L, R>(body: seq<Stmt<T, L, R>>, i: nat, j: nat, k: nat)
    requires Placed(body, i, j, k) && i < j < k
    ensures Weave(body) == Plains(body[..i]) + FromFirstWrite(body, i, j, k)
  {
    assert body[0..] == body && body[0..i] == body[..i];
    WeaveAt(body, 0, i);
    WeaveFromConsume(body, i, j, k);
    PlainsSpan(body, i, j);
    var (a, f) := (Plains(body[i + 1..j]), Do(body[i]));
    var rest := [RaiseIfExpired] + (Plains(body[j..k + 1]) + ([EndOnDeadline] + Plains(body[k + 1..])));
    FirstPiece(body[i], a, rest);
  }

  lemma FirstPiece<T, L, R>(f: Stmt<T, L, R>, a: seq<Token<T, L, R>>, rest: seq<Token<T, L, R>>)
    requires f.anchor == FirstWrite
    ensures Piece(f) + (a + rest) == [ReturnIfExpired] + ([Begin] + (([Do(f)] + a) + rest))
  {
  }

  lemma ChecksStop<T(!new), L(!new), R(!new)>(
      body: seq<Stmt<T, L, R>>, i: nat, j: nat, k: nat, p: Policy<L, R>, clock: Clock, t: T, l: L)
    requires Fit(body, i, j, k)
    ensures var reached := RunBody(body[i..j], clock, t, l);
            RunTokens(FromFirstWrite(body, i, j, k), p, clock, t, l, None)
            == if p.expired(l, clock(FirstCheck)) || (reached.Running? && p.expired(reached.locals, clock(SecondCheck)))
               then Returned(t, p.failure) else RunBody(body[i..], clock, t, l)
  {
    var tokens := FromFirstWrite(body, i, j, k);
    var tail := Plains(body[j..k + 1]) + ([EndOnDeadline] + Plains(body[k + 1..]));
    var inner := Plains(body[i..j]) + ([RaiseIfExpired] + tail);
    assert tokens == [ReturnIfExpired] + ([Begin] + inner);
    assert tokens[1..] == [Begin] + inner && ([Begin] + inner)[1..] == inner;
    MiddleAndTail(body, i, j, k, p, clock, t, l);
  }

  lemma MiddleAndTail<T(!new), L(!new), R(!new)>(
      body: seq<Stmt<T, L, R>>, i: nat, j: nat, k: nat, p: Policy<L, R>, clock: Clock, t: T, l: L)
    requires Fit(body, i, j, k)
    ensures var tail := Plains(body[j..k + 1]) + ([EndOnDeadline] + Plains(body[k + 1..]));
            var reached := RunBody(body[i..j], clock, t, l);
            RunTokens(Plains(body[i..j]) + ([RaiseIfExpired] + tail), p, clock, t, l, Some(t))
            == if reached.Running? && p.expired(reached.locals, clock(SecondCheck)) then Returned(t, p.failure)
               else RunBody(body[i..], clock, t, l)
  {
    var tail := Plains(body[j..k + 1]) + ([EndOnDeadline] + Plains(body[k + 1..]));
    PlainStretch(body[i..j], [RaiseIfExpired] + tail, p, clock, t, l, Some(t));
    RunSplit(body[i..j], body[j..], clock, t, l);
    assert body[i..j] + body[j..] == body[i..];
    match RunBody(body[i..j], clock, t, l)
    case Running(t', l') =>
      assert ([RaiseIfExpired] + tail)[1..] == tail;
      assert tail[k + 1 - j].EndOnDeadline?;
      if !p.expired(l', clock(SecondCheck)) { TailIsUnchanged(body, j, k, p, clock, t', l', Some(t)); }
    case Returned(_, _) =>
    case Failed(_) =>
  }

  lemma TailIsUnchanged<T(!new), L(!new), R(!new)>(
      body: seq<Stmt<T, L, R>>, j: nat, k: nat, p: Policy<L, R>, clock: Clock, t: T, l: L, saved: Option<T>)
    requires j < k < |body| && forall n :: 0 <= n < |body| ==> Quiet(body[n])
    ensures RunTokens(Plains(body[j..k + 1]) + ([EndOnDeadline] + Plains(body[k + 1..])), p, clock, t, l, saved)
         == RunBody(body[j..], clock, t, l)
  {
    var last := Plains(body[k + 1..]);
    PlainStretch(body[j..k + 1], [EndOnDeadline] + last, p, clock, t, l, saved);
    RunSplit(body[j..k + 1], body[k + 1..], clock, t, l);
    assert body[j..k + 1] + body[k + 1..] == body[j..];
    match RunBody(body[j..k + 1], clock, t, l)
    case Running(t', l') =>
      assert ([EndOnDeadline] + last)[1..] == last;
      PlainStretch(body[k + 1..], [], p, clock, t', l', None);
      assert last + [] == last;
    case Returned(_, _) =>
    case Failed(_) =>
  }

  // ---------------------------------------------------------------- any order of the anchors

  /** The run comes to the second check past its deadline, the first not having fired. */
  predicate LateAtConsume<T, L, R>(body: seq<Stmt<T, L, R>>, i: nat, j: nat, p: Policy<L, R>, clock: Clock, t: T, l: L)
    requires i <= |body| && j <= |body|
  {
    var reached := RunBody(body[..j], clock, t, l);
    && reached.Running? && p.expired(reached.locals, clock(SecondCheck))
    && (i < j ==> !FirstFires(body, i, p, clock, t, l))
  }

  /** A run of the body through the statement at `x`. */
  lemma RunThrough<T, L, R>(body: seq<Stmt<T, L, R>>, w: nat, x: nat, y: nat, clock: Clock, t: T, l: L)
    requires w <= x < y <= |body|
    ensures RunBody(body[w..y], clock, t, l)
         == match RunBody(body[w..x], clock, t, l)
            case Running(t', l') =>
              (match body[x].effect(t', l', clock(Of(body[x].position)))
               case Running(t'', l'') => RunBody(body[x + 1..y], clock, t'', l'')
               case stopped => stopped)
            case stopped => stopped
  {
    assert body[w..y] == body[w..x] + body[x..y];
    RunSplit(body[w..x], body[x..y], clock, t, l);
    assert body[x..y][0] == body[x] && body[x..y][1..] == body[x + 1..y];
  }

  /** A run of the rewritten text over a stretch without anchors. */
  lemma RunFrom<T(!new), L(!new), R(!new)>(
      body: seq<Stmt<T, L, R>>, w: nat, x: nat, p: Policy<L, R>, clock: Clock, t: T, l: L, saved: Option<T>)
    requires w <= x < |body| && forall n :: w <= n < x ==> body[n].anchor == Plain && Quiet(body[n])
    ensures RunTokens(Weave(body[w..]), p, clock, t, l, saved)
         == match RunBody(body[w..x], clock, t, l)
            case Running(t', l') => RunTokens(Piece(body[x]) + Weave(body[x + 1..]), p, clock, t', l', saved)
            case stopped => stopped
  {
    WeaveAt(body, w, x);
    PlainStretch(body[w..x], Piece(body[x]) + Weave(body[x + 1..]), p, clock, t, l, saved);
  }

  /** The second check outside any block: the private code has no handler. */
  lemma RaisedUncaught<T(!new), L(!new), R(!new)>(
      body: seq<Stmt<T, L, R>>, w: nat, j: nat, p: Policy<L, R>, clock: Clock, t: T, l: L)
    requires w <= j < |body| && body[j].anchor == Consume
    requires forall n :: w <= n < j ==> body[n].anchor == Plain && Quiet(body[n])
    requires RunBody(body[w..j], clock, t, l).Running?
    requires p.expired(RunBody(body[w..j], clock, t, l).locals, clock(SecondCheck))
    ensures RunTokens(Weave(body[w..]), p, clock, t, l, None) == Failed(DEADLINE)
  {
    RunFrom(body, w, j, p, clock, t, l, None);
    assert (Piece(body[j]) + Weave(body[j + 1..]))[0] == RaiseIfExpired;
  }

  lemma RunPieces<T(!new), L(!new), R(!new)>(
      s: Stmt<T, L, R>, rest: seq<Token<T, L, R>>, p: Policy<L, R>, clock: Clock, t: T, l: L, saved: Option<T>)
    requires Quiet(s)
    ensures s.anchor == FirstWrite && !p.expired(l, clock(FirstCheck)) ==>
              RunTokens(Piece(s) + rest, p, clock, t, l, saved)
              == match s.effect(t, l, clock(Of(s.position)))
                 case Running(t', l') => RunTokens(rest, p, clock, t', l', Some(t))
                 case stopped => stopped
    ensures s.anchor == Success ==>
              RunTokens(Piece(s) + rest, p, clock, t, l, saved)
              == match s.effect(t, l, clock(Of(s.position)))
                 case Running(t', l') => RunTokens(rest, p, clock, t', l', None)
                 case stopped => stopped
  {
    var done := [Do(s)] + rest;
    assert done[1..] == rest;
    if s.anchor == FirstWrite {
      assert (Piece(s) + rest)[1..] == [Begin] + done && ([Begin] + done)[1..] == done;
      assert RunTokens([Begin] + done, p, clock, t, l, saved) == RunTokens(done, p, clock, t, l, Some(t));
    } else if s.anchor == Success {
      assert (Piece(s) + rest)[1..] == [EndOnDeadline] + rest && ([EndOnDeadline] + rest)[1..] == rest;
    }
  }

  /** A consume after the success is checked when the block has been closed. */
  lemma RaisedAfter<T(!new), L(!new), R(!new)>(
      body: seq<Stmt<T, L, R>>, i: nat, j: nat, k: nat, p: Policy<L, R>, clock: Clock, t: T, l: L)
    requires Placed(body, i, j, k) && i < k < j && forall n :: 0 <= n < |body| ==> Quiet(body[n])
    requires LateAtConsume(body, i, j, p, clock, t, l)
    ensures RunTokens(Weave(body), p, clock, t, l, None) == Failed(DEADLINE)
  {
    assert body[0..] == body && body[0..i] == body[..i] && body[0..j] == body[..j];
    RunThrough(body, 0, i, j, clock, t, l);
    RunFrom(body, 0, i, p, clock, t, l, None);
    var first := RunBody(body[..i], clock, t, l);
    RunPieces(body[i], Weave(body[i + 1..]), p, clock, first.tables, first.locals, None);
    var begun := body[i].effect(first.tables, first.locals, clock(Of(body[i].position)));
    RaisedOutside(body, i, j, k, p, clock, begun.tables, begun.locals, first.tables);
  }

  lemma RaisedOutside<T(!new), L(!new), R(!new)>(
      body: seq<Stmt<T, L, R>>, i: nat, j: nat, k: nat, p: Policy<L, R>, clock: Clock, t: T, l: L, saved: T)
    requires Placed(body, i, j, k) && i < k < j && forall n :: 0 <= n < |body| ==> Quiet(body[n])
    requires RunBody(body[i + 1..j], clock, t, l).Running?
    requires p.expired(RunBody(body[i + 1..j], clock, t, l).locals, clock(SecondCheck))
    ensures RunTokens(Weave(body[i + 1..]), p, clock, t, l, Some(saved)) == Failed(DEADLINE)
  {
    RunThrough(body, i + 1, k, j, clock, t, l);
    RunFrom(body, i + 1, k, p, clock, t, l, Some(saved));
    var within := RunBody(body[i + 1..k], clock, t, l);
    RaisedBeyond(body, k, j, p, clock, within.tables, within.locals, saved);
  }

  lemma RaisedBeyond<T(!new), L(!new), R(!new)>(
      body: seq<Stmt<T, L, R>>, k: nat, j: nat, p: Policy<L, R>, clock: Clock, t: T, l: L, saved: T)
    requires k < j < |body| && body[k].anchor == Success && body[j].anchor == Consume && Quiet(body[k])
    requires forall n :: k < n < j ==> body[n].anchor == Plain && Quiet(body[n])
    requires var closed := body[k].effect(t, l, clock(Of(body[k].position)));
             closed.Running?
             && var late := RunBody(body[k + 1..j], clock, closed.tables, closed.locals);
                late.Running? && p.expired(late.locals, clock(SecondCheck))
    ensures RunTokens(Piece(body[k]) + Weave(body[k + 1..]), p, clock, t, l, Some(saved)) == Failed(DEADLINE)
  {
    var closed := body[k].effect(t, l, clock(Of(body[k].position)));
    RunPieces(body[k], Weave(body[k + 1..]), p, clock, t, l, Some(saved));
    RaisedUncaught(body, k + 1, j, p, clock, closed.tables, closed.locals);
  }

  /** For every body whose rewrite can be created, on every run that comes late to the consume:
      the failure value with unchanged tables is answered if and only if the consume stands
      between the first write and the success; otherwise the private code escapes. */
  lemma LateRunIsAnsweredExactlyWhen<T(!new), L(!new), R(!new)>(
      body: seq<Stmt<T, L, R>>, i: nat, j: nat, k: nat, p: Policy<L, R>, clock: Clock, t: T, l: L)
    requires Placed(body, i, j, k) && i < k && forall n :: 0 <= n < |body| ==> Quiet(body[n])
    requires i < j < k ==> forall n :: 0 <= n < i ==> WriteFree(body[n])
    requires LateAtConsume(body, i, j, p, clock, t, l)
    ensures EnforceDeadline(body).Ok?
    ensures var outcome := RunTokens(EnforceDeadline(body).value, p, clock, t, l, None);
            && (outcome == Returned(t, p.failure) <==> i < j < k)
            && (outcome == Failed(DEADLINE) <==> !(i < j < k))
  {
    CreatedExactlyWhen(body, i, j, k);
    assert body[i].anchor == FirstWrite && body[j].anchor == Consume && body[k].anchor == Success;
    if j < i {
      assert body[0..] == body && body[0..j] == body[..j];
      RaisedUncaught(body, 0, j, p, clock, t, l);
    } else if k < j {
      RaisedAfter(body, i, j, k, p, clock, t, l);
    } else {
      RewriteKeepsMeaning(body, i, j, k, p, clock, t, l);
    }
  }
}
