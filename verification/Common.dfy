/** Result types shared by the models of the database commands and scripts. */
module Common {

  /** A nullable column, parameter or query result. */
  datatype Option<+T> = None | Some(value: T)

  /** A command either answers or raises; a raise leaves every table as it was. */
  datatype Result<+T, +E> = Ok(value: T) | Err(error: E)

  /** True of text made only of blanks, the empty text included. */
  predicate Blank(s: string) {
    forall i :: 0 <= i < |s| ==> s[i] == ' '
  }

  /** PostgreSQL's btrim: blanks dropped at both ends. */
  function Btrim(s: string): (r: string)
    ensures |r| <= |s|
    ensures r == [] <==> Blank(s)
    ensures r != [] ==> r[0] != ' ' && r[|r| - 1] != ' '
  {
    if s == [] then []
    else if s[0] == ' ' then Btrim(s[1..])
    else if s[|s| - 1] == ' ' then Btrim(s[..|s| - 1])
    else s
  }

  /** Only blanks are dropped, and only at the ends. */
  lemma {:induction false} BtrimIs(s: string) returns (from: nat, to: nat)
    ensures from <= to <= |s| && Btrim(s) == s[from..to]
    ensures forall i :: 0 <= i < |s| && !(from <= i < to) ==> s[i] == ' '
  {
    if s == [] {
      from, to := 0, 0;
    } else if s[0] == ' ' {
      from, to := BtrimIs(s[1..]);
      assert forall i :: 0 < i < |s| ==> s[i] == s[1..][i - 1];
      from, to := from + 1, to + 1;
    } else if s[|s| - 1] == ' ' {
      from, to := BtrimIs(s[..|s| - 1]);
      assert forall i :: 0 <= i < |s| - 1 ==> s[i] == s[..|s| - 1][i];
    } else {
      from, to := 0, |s|;
    }
  }

  predicate IsHexDigit(c: char) {
    '0' <= c <= '9' || 'a' <= c <= 'f'
  }

  lemma HexDigits(c: char)
    ensures IsHexDigit(c) <==> c in "0123456789abcdef"
  {
    var all := "0123456789abcdef";
    if '0' <= c <= '9' {
      assert all[(c - '0') as int] == c;
    } else if 'a' <= c <= 'f' {
      assert all[10 + (c - 'a') as int] == c;
    }
  }

  /** Sixty-four lower-case hexadecimal digits. */
  predicate IsDigest(s: string) {
    |s| == 64 && forall i :: 0 <= i < 64 ==> IsHexDigit(s[i])
  }

  lemma DigestIs(s: string)
    ensures IsDigest(s) <==> |s| == 64 && forall i :: 0 <= i < |s| ==> s[i] in "0123456789abcdef"
  {
    forall i | 0 <= i < |s| ensures IsHexDigit(s[i]) <==> s[i] in "0123456789abcdef" { HexDigits(s[i]); }
  }

  /** Texts in the order of their characters. */
  predicate TextLess(a: string, b: string) {
    b != [] && (a == [] || a[0] < b[0] || (a[0] == b[0] && TextLess(a[1..], b[1..])))
  }

  /** That order is total, asymmetric and transitive. */
  lemma {:induction false} TextOrder(a: string, b: string, c: string)
    ensures a == b || TextLess(a, b) || TextLess(b, a)
    ensures !(TextLess(a, b) && TextLess(b, a))
    ensures TextLess(a, b) && TextLess(b, c) ==> TextLess(a, c)
  {
    if a != [] && b != [] {
      TextOrder(a[1..], b[1..], if c == [] then [] else c[1..]);
      assert a == [a[0]] + a[1..] && b == [b[0]] + b[1..];
    }
  }

  /** One text comes before another when it is the beginning of it, or has the lower character
      where the two first differ. */
  lemma {:induction false} TextLessIs(a: string, b: string)
    ensures TextLess(a, b) <==>
              exists n :: 0 <= n <= |a| && n < |b| && a[..n] == b[..n] && (n == |a| || a[n] < b[n])
  {
    if b == [] {
    } else if a == [] {
      assert a[..0] == b[..0];
    } else if a[0] != b[0] {
      if a[0] < b[0] { assert a[..0] == b[..0]; }
      forall n | 0 < n <= |a| && n < |b| ensures a[..n] != b[..n] { assert a[..n][0] == a[0] && b[..n][0] == b[0]; }
    } else {
      TextLessIs(a[1..], b[1..]);
      forall n | 0 <= n <= |a[1..]| && n < |b[1..]| && a[1..][..n] == b[1..][..n]
        ensures a[..n + 1] == b[..n + 1]
      {
        assert a[..n + 1] == [a[0]] + a[1..][..n] && b[..n + 1] == [b[0]] + b[1..][..n];
      }
      forall n | 0 < n <= |a| && n < |b| && a[..n] == b[..n] ensures a[1..][..n - 1] == b[1..][..n - 1] {
        assert a[1..][..n - 1] == a[..n][1..] && b[1..][..n - 1] == b[..n][1..];
      }
      SharedHead(a, b);
    }
  }

  lemma SharedHead(a: string, b: string)
    requires a != [] && b != [] && a[0] == b[0]
    requires forall n :: 0 <= n <= |a[1..]| && n < |b[1..]| && a[1..][..n] == b[1..][..n] ==> a[..n + 1] == b[..n + 1]
    requires forall n :: 0 < n <= |a| && n < |b| && a[..n] == b[..n] ==> a[1..][..n - 1] == b[1..][..n - 1]
    ensures (exists n :: 0 <= n <= |a| && n < |b| && a[..n] == b[..n] && (n == |a| || a[n] < b[n]))
       <==> exists n :: 0 <= n <= |a[1..]| && n < |b[1..]| && a[1..][..n] == b[1..][..n]
                        && (n == |a[1..]| || a[1..][n] < b[1..][n])
  {
    if n :| 0 <= n <= |a| && n < |b| && a[..n] == b[..n] && (n == |a| || a[n] < b[n]) {
      assert n > 0;
      assert a[1..][..n - 1] == b[1..][..n - 1] && (n - 1 == |a[1..]| || a[1..][n - 1] < b[1..][n - 1]);
    }
    if n :| 0 <= n <= |a[1..]| && n < |b[1..]| && a[1..][..n] == b[1..][..n]
            && (n == |a[1..]| || a[1..][n] < b[1..][n]) {
      assert a[..n + 1] == b[..n + 1] && (n + 1 == |a| || a[n + 1] < b[n + 1]);
    }
  }

  /** A number in decimal. */
  function Digits(n: nat): string {
    if n < 10 then ["0123456789"[n]] else Digits(n / 10) + ["0123456789"[n % 10]]
  }

  predicate IsDecimal(c: char) {
    '0' <= c <= '9'
  }

  /** The number that decimal digits spell. */
  function Value(digits: string): int
    decreases |digits|
  {
    if digits == [] then 0
    else 10 * Value(digits[..|digits| - 1]) + (digits[|digits| - 1] as int - '0' as int)
  }

  /** It reads back as the number, without leading zeros. */
  lemma {:induction false} DigitsValue(n: nat)
    ensures Value(Digits(n)) == n && Digits(n) != "" && (Digits(n)[0] == '0' ==> n == 0)
    ensures forall i :: 0 <= i < |Digits(n)| ==> IsDecimal(Digits(n)[i])
  {
    DigitValue(n % 10);
    if n >= 10 {
      DigitsValue(n / 10);
      assert Digits(n)[..|Digits(n)| - 1] == Digits(n / 10);
    } else {
      assert Digits(n)[..0] == "";
    }
  }

  lemma DigitValue(d: nat)
    requires d < 10
    ensures IsDecimal("0123456789"[d]) && "0123456789"[d] as int - '0' as int == d
  {
  }

  // ---------------------------------------------------------------- least elements

  /** `less` orders the elements of `s` strictly and totally. */
  ghost predicate Orders<T>(less: (T, T) -> bool, s: set<T>) {
    && (forall x, y | x in s && y in s && x != y :: less(x, y) || less(y, x))
    && (forall x, y | x in s && y in s :: !(less(x, y) && less(y, x)))
    && (forall x, y, z | x in s && y in s && z in s && less(x, y) && less(y, z) :: less(x, z))
  }

  predicate IsLeast<T(==)>(less: (T, T) -> bool, s: set<T>, x: T) {
    x in s && forall y :: y in s && y != x ==> less(x, y)
  }

  lemma {:induction false} LeastExists<T>(less: (T, T) -> bool, s: set<T>)
    requires s != {} && Orders(less, s)
    ensures exists x :: IsLeast(less, s, x)
    decreases |s|
  {
    var a :| a in s;
    if s == {a} {
      assert IsLeast(less, s, a);
    } else {
      LeastExists(less, s - {a});
      var b :| IsLeast(less, s - {a}, b);
      var m := if less(a, b) then a else b;
      forall y | y in s && y != m ensures less(m, y) {
        if y != a { assert y in s - {a}; }
      }
      assert IsLeast(less, s, m);
    }
  }

  /** The element of a finite set that comes before all others. */
  function Least<T(==)>(less: (T, T) -> bool, s: set<T>): (x: T)
    requires s != {} && Orders(less, s)
    ensures IsLeast(less, s, x)
  {
    LeastExists(less, s);
    var x :| IsLeast(less, s, x); x
  }
}
