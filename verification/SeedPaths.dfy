/** When the path that a difference report prints tells where the difference is. */
module SeedPaths {
  import opened Common
  import opened SeedCompare

  function RenderOne(step: Step): string {
    match step
    case Key(k) => "." + k
    case Index(n) => "[" + Digits(n) + "]"
  }

  predicate EndsInIndex(k: string, x: string, n: nat) {
    k == x + ("[" + Digits(n) + "]")
  }

  /** A key that reads as one step: no dot, and no index at its end. */
  ghost predicate Plain(k: string) {
    '.' !in k && !exists x, n: nat :: EndsInIndex(k, x, n)
  }

  ghost predicate PlainSteps(steps: seq<Step>) {
    forall i :: 0 <= i < |steps| && steps[i].Key? ==> Plain(steps[i].key)
  }

  // ---------------------------------------------------------------- reading a path from its end

  lemma {:induction false} RenderBoth(a: seq<Step>, b: seq<Step>)
    ensures Render(a + b) == Render(a) + Render(b)
    decreases |a|
  {
    if a == [] {
      assert a + b == b;
    } else {
      assert (a + b)[0] == a[0] && (a + b)[1..] == a[1..] + b;
      RenderBoth(a[1..], b);
    }
  }

  lemma RenderSingle(step: Step)
    ensures Render([step]) == RenderOne(step)
  {
    assert [step][1..] == [];
    assert RenderOne(step) + "" == RenderOne(step);
  }

  lemma RenderLast(steps: seq<Step>)
    requires steps != []
    ensures Render(steps) == Render(steps[..|steps| - 1]) + RenderOne(steps[|steps| - 1])
  {
    var (front, last) := (steps[..|steps| - 1], steps[|steps| - 1]);
    RenderBoth(front, [last]);
    RenderSingle(last);
    assert steps == front + [last];
  }

  /** Where a character last stands in a text, or -1. */
  function LastIndex(s: string, c: char): (n: int)
    ensures -1 <= n < |s|
  {
    if s == [] then -1 else if s[|s| - 1] == c then |s| - 1 else LastIndex(s[..|s| - 1], c)
  }

  lemma {:induction false} LastIndexBefore(s: string, tail: string, c: char)
    requires c !in tail
    ensures LastIndex(s + tail, c) == LastIndex(s, c)
    decreases |tail|
  {
    if tail == [] {
      assert s + tail == s;
    } else {
      var front := tail[..|tail| - 1];
      LastIndexBefore(s, front, c);
      assert (s + tail)[..|s + tail| - 1] == s + front;
      assert (s + tail)[|s + tail| - 1] == tail[|tail| - 1];
    }
  }

  /** The last occurrence of a character cuts a text in only one way. */
  lemma LastCut(a: string, c: char, u: string, b: string, v: string)
    requires a + [c] + u == b + [c] + v && c !in u && c !in v
    ensures a == b && u == v
  {
    var s := a + [c] + u;
    LastIndexBefore(a + [c], u, c);
    LastIndexBefore(b + [c], v, c);
    assert a == s[..|a|] && b == s[..|b|] && u == s[|a| + 1..] && v == s[|b| + 1..];
  }

  lemma DigitsAreDigits(n: nat)
    ensures Digits(n) != "" && forall i :: 0 <= i < |Digits(n)| ==> IsDecimal(Digits(n)[i])
  {
    DigitsValue(n);
  }

  lemma DigitsAreInjective(m: nat, n: nat)
    requires Digits(m) == Digits(n)
    ensures m == n
  {
    DigitsValue(m);
    DigitsValue(n);
  }

  lemma IndexText(a: string, n: nat)
    ensures a + RenderOne(Index(n)) == a + ['['] + (Digits(n) + "]")
    ensures '[' !in Digits(n) + "]" && '.' !in RenderOne(Index(n))
  {
    DigitsAreDigits(n);
  }

  lemma SameIndexLast(a: string, m: nat, b: string, n: nat)
    requires a + RenderOne(Index(m)) == b + RenderOne(Index(n))
    ensures a == b && m == n
  {
    IndexText(a, m);
    IndexText(b, n);
    LastCut(a, '[', Digits(m) + "]", b, Digits(n) + "]");
    SameEnd(Digits(m), Digits(n), "]");
    DigitsAreInjective(m, n);
  }

  lemma SameEnd(u: string, v: string, end: string)
    requires u + end == v + end
    ensures u == v
  {
    assert u == (u + end)[..|u|] && v == (v + end)[..|v|];
  }

  lemma SameKeyLast(a: string, k: string, b: string, j: string)
    requires a + RenderOne(Key(k)) == b + RenderOne(Key(j)) && '.' !in k && '.' !in j
    ensures a == b && k == j
  {
    assert a + RenderOne(Key(k)) == a + ['.'] + k && b + RenderOne(Key(j)) == b + ['.'] + j;
    LastCut(a, '.', k, b, j);
  }

  /** A plain key and an index never print the same end. */
  lemma KeyIsNotIndex(a: string, k: string, b: string, n: nat)
    requires a + RenderOne(Key(k)) == b + RenderOne(Index(n)) && '.' !in k
    ensures exists x :: EndsInIndex(k, x, n)
  {
    IndexText(b, n);
    EndIsCut(a, k, b, RenderOne(Index(n)));
    assert EndsInIndex(k, k[..|k| - |RenderOne(Index(n))|], n);
  }

  /** A text without dots at the end of another ends what follows the last dot. */
  lemma EndIsCut(a: string, k: string, b: string, tail: string)
    requires a + ("." + k) == b + tail && '.' !in k && '.' !in tail
    ensures |tail| <= |k| && k == k[..|k| - |tail|] + tail
  {
    var s := a + ("." + k);
    assert s == a + ['.'] + k;
    LastIndexBefore(a + ['.'], k, '.');
    LastIndexBefore(b, tail, '.');
    assert k == s[|a| + 1..] && tail == s[|b|..];
  }

  lemma PlainFront(s: seq<Step>)
    requires PlainSteps(s) && s != []
    ensures PlainSteps(s[..|s| - 1]) && (s[|s| - 1].Key? ==> Plain(s[|s| - 1].key))
  {
  }

  lemma NothingPrintsNothing(s: seq<Step>)
    ensures Render(s) == "" <==> s == []
  {
  }

  /** With plain keys the printed path determines the steps. */
  lemma {:induction false} PlainPathsAreUnambiguous(s: seq<Step>, t: seq<Step>)
    requires PlainSteps(s) && PlainSteps(t) && Render(s) == Render(t)
    ensures s == t
    decreases |s|
  {
    NothingPrintsNothing(s);
    NothingPrintsNothing(t);
    if s != [] {
      var (a, b) := (s[..|s| - 1], t[..|t| - 1]);
      PlainFront(s);
      PlainFront(t);
      RenderLast(s);
      RenderLast(t);
      LastStepsAgree(Render(a), s[|s| - 1], Render(b), t[|t| - 1]);
      PlainPathsAreUnambiguous(a, b);
      assert s == a + [s[|s| - 1]] && t == b + [t[|t| - 1]];
    }
  }

  lemma LastStepsAgree(a: string, x: Step, b: string, y: Step)
    requires a + RenderOne(x) == b + RenderOne(y)
    requires (x.Key? ==> Plain(x.key)) && (y.Key? ==> Plain(y.key))
    ensures a == b && x == y
  {
    match (x, y)
    case (Key(k), Key(j)) => SameKeyLast(a, k, b, j);
    case (Index(m), Index(n)) => SameIndexLast(a, m, b, n);
    case (Key(k), Index(n)) => KeyIsNotIndex(a, k, b, n);
    case (Index(m), Key(j)) => KeyIsNotIndex(b, j, a, m);
  }

  // ---------------------------------------------------------------- what reports tell

  /** The comparison reports exactly this first difference. */
  ghost predicate Reports(e: Json, a: Json, path: string, steps: seq<Step>, kind: Kind) {
    FirstDifference(e, a, path) == Some(Difference(path + Render(steps), kind)) && IsFirst(e, a, steps, kind)
  }

  /** Two reports that print one path mean one place, when the keys on the way are plain. */
  lemma EqualPathsMeanEqualPlaces(e: Json, a: Json, s: seq<Step>, kind: Kind,
                                 e': Json, a': Json, s': seq<Step>, kind': Kind,
                                 path: string)
    requires Reports(e, a, path, s, kind) && Reports(e', a', path, s', kind')
    requires PlainSteps(s) && PlainSteps(s')
    requires FirstDifference(e, a, path).value.path == FirstDifference(e', a', path).value.path
    ensures s == s'
  {
    assert Render(s) == (path + Render(s))[|path|..] && Render(s') == (path + Render(s'))[|path|..];
    PlainPathsAreUnambiguous(s, s');
  }

  lemma IsReported(e: Json, a: Json, path: string, steps: seq<Step>, kind: Kind)
    requires IsFirst(e, a, steps, kind)
    ensures Reports(e, a, path, steps, kind)
  {
    ReportsFirstDifference(e, a, path);
    FirstIsUnequal(e, a, steps, kind);
    var found := FirstDifference(e, a, path).value;
    var s :| found.path == path + Render(s) && IsFirst(e, a, s, found.kind);
    FirstIsUnique(e, a, steps, kind, s, found.kind);
  }

  function Field(k: string, v: Json): Json {
    Obj(map[k := v])
  }

  function Padded(n: nat, v: Json): Json {
    Arr(seq(n, _ => Null) + [v])
  }

  lemma FirstInField(k: string, x: Json, y: Json, steps: seq<Step>, kind: Kind)
    requires IsFirst(x, y, steps, kind)
    ensures IsFirst(Field(k, x), Field(k, y), [Key(k)] + steps, kind)
  {
    TextOrder(k, k, k);
    assert ([Key(k)] + steps)[1..] == steps;
  }

  lemma FirstInPadded(n: nat, x: Json, y: Json, steps: seq<Step>, kind: Kind)
    requires IsFirst(x, y, steps, kind)
    ensures IsFirst(Padded(n, x), Padded(n, y), [Index(n)] + steps, kind)
  {
    assert ([Index(n)] + steps)[1..] == steps;
    assert forall j :: 0 <= j < n ==> Padded(n, x).items[j] == Null && Padded(n, y).items[j] == Null;
  }

  lemma {:induction false} HasDot(k: string) returns (x: string, y: string)
    requires '.' in k
    ensures k == x + "." + y
  {
    var i :| 0 <= i < |k| && k[i] == '.';
    x, y := k[..i], k[i + 1..];
  }

  /** Another place that a key's step reads like. */
  ghost predicate ReadsLike(k: string, s: seq<Step>) {
    Render(s) == Render([Key(k)]) && s != [Key(k)]
  }

  /** Two pairs of trees that differ first at different places, the first pair at key `k`,
      and that print the same path and kind. */
  ghost predicate PrintAlike(k: string, path: string, x: Json, y: Json, e: Json, a: Json, s: seq<Step>) {
    && ReadsLike(k, s)
    && Reports(Field(k, x), Field(k, y), path, [Key(k)], TypeMismatch(x, y))
    && Reports(e, a, path, s, TypeMismatch(x, y))
  }

  lemma FieldIsReported(k: string, path: string, x: Json, y: Json)
    requires !SameType(x, y)
    ensures Reports(Field(k, x), Field(k, y), path, [Key(k)], TypeMismatch(x, y))
  {
    assert IsFirst(x, y, [], TypeMismatch(x, y));
    FirstInField(k, x, y, [], TypeMismatch(x, y));
    assert [Key(k)] + [] == [Key(k)];
    IsReported(Field(k, x), Field(k, y), path, [Key(k)], TypeMismatch(x, y));
  }

  lemma RenderTwo(a: Step, b: Step)
    ensures Render([a] + [b]) == RenderOne(a) + RenderOne(b)
  {
    RenderBoth([a], [b]);
    RenderSingle(a);
    RenderSingle(b);
  }

  lemma DottedKey(u: string, v: string, path: string, x: Json, y: Json)
    requires !SameType(x, y)
    ensures PrintAlike(u + "." + v, path, x, y, Field(u, Field(v, x)), Field(u, Field(v, y)), [Key(u)] + [Key(v)])
  {
    var (k, s, kind) := (u + "." + v, [Key(u)] + [Key(v)], TypeMismatch(x, y));
    FieldIsReported(k, path, x, y);
    FieldIsReported(v, path, x, y);
    FirstInField(u, Field(v, x), Field(v, y), [Key(v)], kind);
    IsReported(Field(u, Field(v, x)), Field(u, Field(v, y)), path, s, kind);
    RenderTwo(Key(u), Key(v));
    RenderSingle(Key(k));
    assert "." + (u + "." + v) == ("." + u) + ("." + v);
    assert |s| == 2;
  }

  lemma IndexedPlace(u: string, n: nat, path: string, x: Json, y: Json)
    requires !SameType(x, y)
    ensures Reports(Field(u, Padded(n, x)), Field(u, Padded(n, y)), path, [Key(u)] + [Index(n)], TypeMismatch(x, y))
  {
    var kind := TypeMismatch(x, y);
    assert IsFirst(x, y, [], kind);
    FirstInPadded(n, x, y, [], kind);
    assert [Index(n)] + [] == [Index(n)];
    FirstInField(u, Padded(n, x), Padded(n, y), [Index(n)], kind);
    IsReported(Field(u, Padded(n, x)), Field(u, Padded(n, y)), path, [Key(u)] + [Index(n)], kind);
  }

  lemma IndexReadsLike(u: string, n: nat)
    ensures ReadsLike(u + ("[" + Digits(n) + "]"), [Key(u)] + [Index(n)])
  {
    var k := u + ("[" + Digits(n) + "]");
    RenderTwo(Key(u), Index(n));
    RenderSingle(Key(k));
    assert "." + k == ("." + u) + ("[" + Digits(n) + "]");
    assert |[Key(u)] + [Index(n)]| == 2;
  }

  lemma IndexedKey(u: string, n: nat, path: string, x: Json, y: Json)
    requires !SameType(x, y)
    ensures PrintAlike(u + ("[" + Digits(n) + "]"), path, x, y,
                       Field(u, Padded(n, x)), Field(u, Padded(n, y)), [Key(u)] + [Index(n)])
  {
    FieldIsReported(u + ("[" + Digits(n) + "]"), path, x, y);
    IndexedPlace(u, n, path, x, y);
    IndexReadsLike(u, n);
  }

  /** For every key that is not plain there are two such pairs, whatever two values of
      different types the trees hold there. */
  lemma OtherKeysAreAmbiguous(k: string, path: string, x: Json, y: Json)
    requires !Plain(k) && !SameType(x, y)
    ensures exists e, a, s :: PrintAlike(k, path, x, y, e, a, s)
  {
    if '.' in k {
      var u, v := HasDot(k);
      DottedKey(u, v, path, x, y);
    } else {
      var u, n: nat :| EndsInIndex(k, u, n);
      IndexedKey(u, n, path, x, y);
    }
  }

  // ---------------------------------------------------------------- types

  /** The Python type a value decodes to. */
  function TypeName(j: Json): string {
    match j
    case Null => "NoneType"
    case Bool(_) => "bool"
    case Int(_) => "int"
    case Decimal(_) => "float"
    case Str(_) => "str"
    case Arr(_) => "list"
    case Obj(_) => "dict"
  }

  /** A mismatch of types is reported here exactly when the two types differ. */
  lemma TypeMismatchExactlyWhen(e: Json, a: Json, path: string)
    ensures TypeName(e) != TypeName(a) ==> FirstDifference(e, a, path) == Some(Difference(path, TypeMismatch(e, a)))
    ensures TypeName(e) == TypeName(a) ==> !Reports(e, a, path, [], TypeMismatch(e, a))
  {
    NothingPrintsNothing([]);
  }
}
