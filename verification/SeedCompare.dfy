/** Recursive comparison of two JSON trees that reports the first difference. */
module SeedCompare {
  import opened Common

  /** A float as JSON decodes it. Python compares NaN unequal to itself. */
  datatype Float = Finite(value: real) | PlusInfinity | MinusInfinity | NaN

  datatype Json =
    | Null
    | Bool(flag: bool)
    | Int(number: int)
    | Decimal(float: Float)
    | Str(text: string)
    | Arr(items: seq<Json>)
    | Obj(fields: map<string, Json>)

  datatype Kind =
    | TypeMismatch(expected: Json, actual: Json)
    | UnexpectedKey
    | MissingKey
    | LengthMismatch(expectedLength: nat, actualLength: nat)
    | ValueMismatch(expected: Json, actual: Json)

  /** `path` is text, as it is printed in the report. */
  datatype Difference = Difference(path: string, kind: Kind)

  predicate SameType(a: Json, b: Json) {
    match a
    case Null => b.Null?
    case Bool(_) => b.Bool?
    case Int(_) => b.Int?
    case Decimal(_) => b.Decimal?
    case Str(_) => b.Str?
    case Arr(_) => b.Arr?
    case Obj(_) => b.Obj?
  }

  /** Python's `!=` on two scalars of one type. */
  predicate Differ(a: Json, b: Json) {
    a != b || a == Decimal(NaN)
  }

  // ---------------------------------------------------------------- sorted keys

  lemma TextLessOrders(keys: set<string>, less: (string, string) -> bool)
    requires forall a, b | a in keys && b in keys :: less(a, b) == TextLess(a, b)
    ensures Orders(less, keys)
  {
    forall a, b | a in keys && b in keys
      ensures !(less(a, b) && less(b, a)) && (a != b ==> less(a, b) || less(b, a))
    {
      TextOrder(a, b, a);
    }
    forall a, b, c | a in keys && b in keys && c in keys && less(a, b) && less(b, c) ensures less(a, c) {
      TextOrder(a, b, c);
    }
  }

  function FirstKey(keys: set<string>): (k: string)
    requires keys != {}
    ensures k in keys && forall j :: j in keys && j != k ==> TextLess(k, j)
  {
    var less := (a: string, b: string) => TextLess(a, b);
    TextLessOrders(keys, less);
    Least(less, keys)
  }

  function SortedKeys(keys: set<string>): seq<string>
    decreases |keys|
  {
    if keys == {} then [] else var k := FirstKey(keys); [k] + SortedKeys(keys - {k})
  }

  predicate Ascending(keys: seq<string>) {
    forall i, j :: 0 <= i < j < |keys| ==> TextLess(keys[i], keys[j])
  }

  lemma {:induction false} SortedKeysSorts(keys: set<string>)
    ensures Ascending(SortedKeys(keys))
    ensures forall k :: k in SortedKeys(keys) <==> k in keys
    decreases |keys|
  {
    if keys != {} {
      var rest := keys - {FirstKey(keys)};
      SortedKeysSorts(rest);
      forall j | 0 <= j < |SortedKeys(rest)| ensures TextLess(FirstKey(keys), SortedKeys(rest)[j]) {
        assert SortedKeys(rest)[j] in rest;
      }
    }
  }

  // ---------------------------------------------------------------- the comparison

  function FirstDifference(e: Json, a: Json, path: string): Option<Difference>
    decreases e, 1, 0
  {
    if !SameType(e, a) then Some(Difference(path, TypeMismatch(e, a)))
    else if e.Obj? then InFields(e, a, SortedKeys(e.fields.Keys + a.fields.Keys), path)
    else if e.Arr? then
      if |e.items| != |a.items| then Some(Difference(path, LengthMismatch(|e.items|, |a.items|)))
      else InItems(e, a, 0, path)
    else if Differ(e, a) then Some(Difference(path, ValueMismatch(e, a)))
    else None
  }

  function InFields(e: Json, a: Json, keys: seq<string>, path: string): Option<Difference>
    requires e.Obj? && a.Obj?
    decreases e, 0, |keys|
  {
    if keys == [] then None
    else
      var here := path + "." + keys[0];
      if keys[0] !in e.fields then Some(Difference(here, UnexpectedKey))
      else if keys[0] !in a.fields then Some(Difference(here, MissingKey))
      else
        var inner := FirstDifference(e.fields[keys[0]], a.fields[keys[0]], here);
        if inner.Some? then inner else InFields(e, a, keys[1..], path)
  }

  function InItems(e: Json, a: Json, index: nat, path: string): Option<Difference>
    requires e.Arr? && a.Arr? && index <= |e.items| == |a.items|
    decreases e, 0, |e.items| - index
  {
    if index == |e.items| then None
    else
      var inner := FirstDifference(e.items[index], a.items[index], path + "[" + Digits(index) + "]");
      if inner.Some? then inner else InItems(e, a, index + 1, path)
  }

  // ---------------------------------------------------------------- what it means

  predicate NaNFree(j: Json) {
    match j
    case Decimal(f) => f != NaN
    case Arr(items) => forall i :: 0 <= i < |items| ==> NaNFree(items[i])
    case Obj(fields) => forall k :: k in fields ==> NaNFree(fields[k])
    case _ => true
  }

  /** Equal, and able to show it: no NaN anywhere. */
  predicate Equal(e: Json, a: Json) {
    e == a && NaNFree(e)
  }

  datatype Step = Key(key: string) | Index(index: nat)

  function Render(steps: seq<Step>): string {
    if steps == [] then ""
    else (match steps[0] case Key(k) => "." + k case Index(i) => "[" + Digits(i) + "]") + Render(steps[1..])
  }

  /** `steps` leads to a difference of the stated kind, and everything before it, in the order
      of sorted keys and of indices, is equal. */
  predicate IsFirst(e: Json, a: Json, steps: seq<Step>, kind: Kind)
    decreases e
  {
    if steps == [] then
      match kind
      case TypeMismatch(x, y) => x == e && y == a && !SameType(e, a)
      case LengthMismatch(m, n) => e.Arr? && a.Arr? && m == |e.items| && n == |a.items| && m != n
      case ValueMismatch(x, y) => x == e && y == a && SameType(e, a) && !e.Arr? && !e.Obj? && Differ(e, a)
      case UnexpectedKey => false
      case MissingKey => false
    else
      match steps[0]
      case Index(i) =>
        && e.Arr? && a.Arr? && |e.items| == |a.items| && i < |e.items|
        && (forall j :: 0 <= j < i ==> Equal(e.items[j], a.items[j]))
        && IsFirst(e.items[i], a.items[i], steps[1..], kind)
      case Key(k) =>
        && e.Obj? && a.Obj?
        && (forall j :: j in e.fields.Keys + a.fields.Keys && TextLess(j, k) ==> FieldsEqual(e, a, j))
        && if k in e.fields && k in a.fields then IsFirst(e.fields[k], a.fields[k], steps[1..], kind)
           else steps[1..] == []
                && ((kind == UnexpectedKey && k !in e.fields && k in a.fields)
                    || (kind == MissingKey && k in e.fields && k !in a.fields))
  }

  predicate FieldsEqual(e: Json, a: Json, k: string)
    requires e.Obj? && a.Obj?
  {
    k in e.fields && k in a.fields && Equal(e.fields[k], a.fields[k])
  }

  /** What the comparison owes its caller for two trees. */
  ghost predicate Meets(e: Json, a: Json, path: string, d: Option<Difference>) {
    match d
    case None => Equal(e, a)
    case Some(found) =>
      !Equal(e, a) && exists steps :: found.path == path + Render(steps) && IsFirst(e, a, steps, found.kind)
  }

  lemma RenderStep(path: string, step: Step, rest: seq<Step>)
    ensures path + Render([step] + rest) == (path + Render([step])) + Render(rest)
  {
    assert ([step] + rest)[1..] == rest;
    assert [step][1..] == [];
  }

  /** A first difference one level down is one here, if all earlier siblings are equal. */
  lemma Deeper(e: Json, a: Json, path: string, step: Step, x: Json, y: Json, d: Option<Difference>)
    requires Meets(x, y, path + Render([step]), d) && d.Some?
    requires forall steps, kind :: IsFirst(x, y, steps, kind) ==> IsFirst(e, a, [step] + steps, kind)
    ensures exists steps :: d.value.path == path + Render(steps) && IsFirst(e, a, steps, d.value.kind)
  {
    var steps :| d.value.path == (path + Render([step])) + Render(steps) && IsFirst(x, y, steps, d.value.kind);
    RenderStep(path, step, steps);
    assert IsFirst(e, a, [step] + steps, d.value.kind);
  }

  /** The report is nothing exactly for equal trees without NaN; otherwise its path leads to a
      genuine difference of the stated kind with nothing different before it. */
  lemma {:induction false} ReportsFirstDifference(e: Json, a: Json, path: string)
    ensures Meets(e, a, path, FirstDifference(e, a, path))
    decreases e, 1, 0
  {
    if !SameType(e, a) {
      assert Render([]) == "" && IsFirst(e, a, [], TypeMismatch(e, a));
      assert path == path + Render([]);
    } else if e.Obj? {
      var keys := SortedKeys(e.fields.Keys + a.fields.Keys);
      SortedKeysSorts(e.fields.Keys + a.fields.Keys);
      FieldsReport(e, a, keys, 0, path);
      assert keys[0..] == keys;
    } else if e.Arr? {
      if |e.items| != |a.items| {
        assert Render([]) == "" && IsFirst(e, a, [], LengthMismatch(|e.items|, |a.items|));
        assert path == path + Render([]);
      } else {
        ItemsReport(e, a, 0, path);
      }
    } else if Differ(e, a) {
      assert Render([]) == "" && IsFirst(e, a, [], ValueMismatch(e, a));
      assert path == path + Render([]);
    }
  }

  lemma FirstInItem(e: Json, a: Json, index: nat)
    requires e.Arr? && a.Arr? && index < |e.items| == |a.items|
    requires forall j :: 0 <= j < index ==> Equal(e.items[j], a.items[j])
    ensures forall steps, kind ::
              IsFirst(e.items[index], a.items[index], steps, kind) ==> IsFirst(e, a, [Index(index)] + steps, kind)
  {
    forall steps, kind | IsFirst(e.items[index], a.items[index], steps, kind)
      ensures IsFirst(e, a, [Index(index)] + steps, kind)
    {
      assert ([Index(index)] + steps)[1..] == steps;
    }
  }

  lemma {:induction false} ItemsReport(e: Json, a: Json, index: nat, path: string)
    requires e.Arr? && a.Arr? && index <= |e.items| == |a.items|
    requires forall j :: 0 <= j < index ==> Equal(e.items[j], a.items[j])
    ensures Meets(e, a, path, InItems(e, a, index, path))
    decreases e, 0, |e.items| - index
  {
    if index == |e.items| {
      assert e.items == a.items;
    } else {
      var step := Index(index);
      var (x, y) := (e.items[index], a.items[index]);
      assert [step][1..] == [];
      assert path + Render([step]) == path + "[" + Digits(index) + "]";
      ReportsFirstDifference(x, y, path + Render([step]));
      var inner := FirstDifference(x, y, path + Render([step]));
      if inner.Some? {
        FirstInItem(e, a, index);
        Deeper(e, a, path, step, x, y, inner);
        assert Equal(e, a) ==> Equal(x, y);
      } else {
        ItemsReport(e, a, index + 1, path);
      }
    }
  }

  lemma {:induction false} FieldsReport(e: Json, a: Json, keys: seq<string>, n: nat, path: string)
    requires e.Obj? && a.Obj? && n <= |keys| && Ascending(keys)
    requires forall k :: k in keys <==> k in e.fields || k in a.fields
    requires forall i :: 0 <= i < n ==> FieldsEqual(e, a, keys[i])
    ensures Meets(e, a, path, InFields(e, a, keys[n..], path))
    decreases e, 0, |keys| - n
  {
    if n == |keys| {
      AllFieldsEqual(e, a, keys);
    } else {
      var k := keys[n];
      var step := Key(k);
      assert keys[n..][0] == k && keys[n..][1..] == keys[n + 1..];
      assert [step][1..] == [];
      assert path + Render([step]) == path + "." + k;
      EarlierKeys(e, a, keys, n);
      if k !in e.fields {
        assert IsFirst(e, a, [step], UnexpectedKey);
      } else if k !in a.fields {
        assert IsFirst(e, a, [step], MissingKey);
      } else {
        var (x, y) := (e.fields[k], a.fields[k]);
        ReportsFirstDifference(x, y, path + Render([step]));
        var inner := FirstDifference(x, y, path + Render([step]));
        if inner.Some? {
          forall steps, kind | IsFirst(x, y, steps, kind) ensures IsFirst(e, a, [step] + steps, kind) {
            assert ([step] + steps)[1..] == steps;
          }
          Deeper(e, a, path, step, x, y, inner);
          assert Equal(e, a) ==> Equal(x, y);
        } else {
          FieldsReport(e, a, keys, n + 1, path);
        }
      }
    }
  }

  lemma AllFieldsEqual(e: Json, a: Json, keys: seq<string>)
    requires e.Obj? && a.Obj?
    requires forall k :: k in keys <==> k in e.fields || k in a.fields
    requires forall i :: 0 <= i < |keys| ==> FieldsEqual(e, a, keys[i])
    ensures Equal(e, a)
  {
    forall k | k in e.fields || k in a.fields ensures FieldsEqual(e, a, k) {
      assert k in keys;
      var i :| 0 <= i < |keys| && keys[i] == k;
    }
    assert e.fields == a.fields;
  }

  lemma EarlierKeys(e: Json, a: Json, keys: seq<string>, n: nat)
    requires e.Obj? && a.Obj? && n < |keys| && Ascending(keys)
    requires forall k :: k in keys <==> k in e.fields || k in a.fields
    requires forall i :: 0 <= i < n ==> FieldsEqual(e, a, keys[i])
    ensures forall j :: (j in e.fields || j in a.fields) && TextLess(j, keys[n]) ==> FieldsEqual(e, a, j)
  {
    forall j | (j in e.fields || j in a.fields) && TextLess(j, keys[n]) ensures FieldsEqual(e, a, j) {
      assert j in keys;
      var i :| 0 <= i < |keys| && keys[i] == j;
      TextOrder(keys[i], keys[n], keys[i]);
    }
  }

  /** Two trees have at most one first difference, so the report is determined by the trees. */
  lemma {:induction false} FirstIsUnique(e: Json, a: Json, s: seq<Step>, k: Kind, s': seq<Step>, k': Kind)
    requires IsFirst(e, a, s, k) && IsFirst(e, a, s', k')
    ensures s == s' && k == k'
    decreases e
  {
    if s != [] && s' != [] {
      FirstIsUnequal(e, a, s, k);
      if s[0] == s'[0] {
        assert s == [s[0]] + s[1..] && s' == [s'[0]] + s'[1..];
        match s[0]
        case Index(i) => FirstIsUnique(e.items[i], a.items[i], s[1..], k, s'[1..], k');
        case Key(key) =>
          if key in e.fields && key in a.fields {
            FirstIsUnique(e.fields[key], a.fields[key], s[1..], k, s'[1..], k');
          }
      } else {
        StepsAgree(e, a, s, k, s', k');
      }
    }
  }

  lemma {:induction false} FirstIsUnequal(e: Json, a: Json, s: seq<Step>, k: Kind)
    requires IsFirst(e, a, s, k)
    ensures !Equal(e, a)
    decreases e
  {
    if s != [] {
      match s[0]
      case Index(i) => FirstIsUnequal(e.items[i], a.items[i], s[1..], k);
      case Key(key) =>
        if key in e.fields && key in a.fields { FirstIsUnequal(e.fields[key], a.fields[key], s[1..], k); }
    }
  }

  lemma StepsAgree(e: Json, a: Json, s: seq<Step>, k: Kind, s': seq<Step>, k': Kind)
    requires IsFirst(e, a, s, k) && IsFirst(e, a, s', k') && s != [] && s' != []
    ensures s[0] == s'[0]
  {
    match s[0]
    case Index(i) =>
      FirstIsUnequal(e.items[i], a.items[i], s[1..], k);
      FirstIsUnequal(e.items[s'[0].index], a.items[s'[0].index], s'[1..], k');
    case Key(key) =>
      var other := s'[0].key;
      TextOrder(key, other, key);
      if key in e.fields && key in a.fields { FirstIsUnequal(e.fields[key], a.fields[key], s[1..], k); }
      if other in e.fields && other in a.fields { FirstIsUnequal(e.fields[other], a.fields[other], s'[1..], k'); }
  }
}
