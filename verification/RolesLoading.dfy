/** Exactly which texts the role loader accepts, and what it makes of them. */
module RolesLoading {
  import opened Common
  import opened Roles
  import opened RolesRoundTrip

  // ---------------------------------------------------------------- characters

  /** The characters that Python counts as blank, and those at which it splits lines. */
  lemma BlanksAre(c: char)
    ensures IsSpace(c) <==>
              c in {'\t', '\n', '\U{0b}', '\U{0c}', '\r', '\U{1c}', '\U{1d}', '\U{1e}', '\U{1f}', ' ', '\U{85}',
                    '\U{a0}', '\U{1680}', '\U{2000}', '\U{2001}', '\U{2002}', '\U{2003}', '\U{2004}', '\U{2005}',
                    '\U{2006}', '\U{2007}', '\U{2008}', '\U{2009}', '\U{200a}', '\U{2028}', '\U{2029}',
                    '\U{202f}', '\U{205f}', '\U{3000}'}
    ensures IsBreak(c) <==>
              c in {'\n', '\r', '\U{0b}', '\U{0c}', '\U{1c}', '\U{1d}', '\U{1e}', '\U{85}', '\U{2028}', '\U{2029}'}
  {
  }

  /** Blank outside the two positions, and not blank at the ends between them. */
  predicate IsCore(s: string, from: nat, to: nat) {
    && from <= to <= |s|
    && (forall i :: 0 <= i < |s| && !(from <= i < to) ==> IsSpace(s[i]))
    && (from < to ==> !IsSpace(s[from]) && !IsSpace(s[to - 1]))
  }

  lemma CoreAfterBlank(s: string, from: nat, to: nat)
    requires s != [] && IsSpace(s[0]) && IsCore(s[1..], from, to)
    ensures IsCore(s, from + 1, to + 1) && s[from + 1..to + 1] == s[1..][from..to]
  {
    assert forall i :: 0 < i < |s| ==> s[i] == s[1..][i - 1];
  }

  lemma CoreBeforeBlank(s: string, from: nat, to: nat)
    requires s != [] && IsSpace(s[|s| - 1]) && IsCore(s[..|s| - 1], from, to)
    ensures IsCore(s, from, to) && s[from..to] == s[..|s| - 1][from..to]
  {
    assert forall i :: 0 <= i < |s| - 1 ==> s[i] == s[..|s| - 1][i];
  }

  /** Stripping takes the blanks off both ends and nothing else. */
  lemma {:induction false} StripIs(s: string) returns (from: nat, to: nat)
    ensures IsCore(s, from, to) && Strip(s) == s[from..to]
    decreases |s|
  {
    from, to := 0, |s|;
    if s != [] && IsSpace(s[0]) {
      from, to := StripIs(s[1..]);
      CoreAfterBlank(s, from, to);
      from, to := from + 1, to + 1;
    } else if s != [] && IsSpace(s[|s| - 1]) {
      from, to := StripIs(s[..|s| - 1]);
      CoreBeforeBlank(s, from, to);
    }
  }

  // ---------------------------------------------------------------- a statement

  /** A role statement: a quoted name without quotes, and attributes on one line up to a semicolon. */
  predicate IsStatementOf(s: string, name: string, attributes: string) {
    && s == "CREATE ROLE \"" + (name + ("\" WITH " + attributes))
    && name != "" && '"' !in name
    && |attributes| >= 2 && attributes[|attributes| - 1] == ';' && '\n' !in attributes
  }

  /** A line is recognised under a name exactly when it is a role statement of that name. */
  lemma RoleNameIs(s: string, name: string)
    ensures RoleName(s) == Some(name) <==> exists attributes :: IsStatementOf(s, name, attributes)
  {
    if RoleName(s) == Some(name) { NameIsOfStatement(s, name); }
    if attributes :| IsStatementOf(s, name, attributes) { StatementHasName(s, name, attributes); }
  }

  lemma StatementHasName(s: string, name: string, attributes: string)
    requires IsStatementOf(s, name, attributes)
    ensures RoleName(s) == Some(name)
  {
    FormIsCut(OPENING, name, CLOSING, attributes);
  }

  lemma NameIsOfStatement(s: string, name: string)
    requires RoleName(s) == Some(name)
    ensures exists attributes :: IsStatementOf(s, name, attributes)
  {
    var rest := s[|OPENING|..];
    var attributes := rest[Find(rest, '"') + |CLOSING|..];
    PartsOf(s, OPENING, CLOSING);
    assert IsStatementOf(s, name, attributes);
  }

  /** A text that starts with the opening and has the closing at its first quote is put together of
      the opening, what stands between, the closing, and the rest. */
  lemma PartsOf(s: string, opening: string, closing: string)
    requires Starts(s, opening)
    requires var rest := s[|opening|..]; Starts(rest[Find(rest, '"')..], closing)
    ensures var rest := s[|opening|..];
            var n := Find(rest, '"');
            n + |closing| <= |rest| && '"' !in rest[..n]
            && s == opening + (rest[..n] + (closing + rest[n + |closing|..]))
  {
    var rest := s[|opening|..];
    var n := Find(rest, '"');
    assert s == opening + rest;
    assert rest[n..] == closing + rest[n..][|closing|..] && rest[n..][|closing|..] == rest[n + |closing|..];
    assert rest == rest[..n] + rest[n..];
  }

  // ---------------------------------------------------------------- a text

  /** The lines that are neither empty nor comments, stripped. */
  function Significant(lines: seq<string>): seq<string> {
    if lines == [] then []
    else
      var line := Strip(lines[0]);
      (if line == "" || (|line| >= 2 && line[0] == '-' && line[1] == '-') then [] else [line])
      + Significant(lines[1..])
  }

  lemma IsComment(line: string)
    ensures Starts(line, "--") <==> |line| >= 2 && line[0] == '-' && line[1] == '-'
  {
    if |line| >= 2 { assert line[..2] == [line[0], line[1]]; }
  }

  ghost predicate NamesFit(statements: seq<string>, found: map<string, string>) {
    && (forall i :: 0 <= i < |statements| ==>
          RoleName(statements[i]).Some? && RoleName(statements[i]).value !in found)
    && (forall i, j :: 0 <= i < j < |statements| ==> RoleName(statements[i]) != RoleName(statements[j]))
  }

  ghost predicate MapsTo(m: map<string, string>, statements: seq<string>, found: map<string, string>) {
    && (forall i :: 0 <= i < |statements| ==>
          RoleName(statements[i]).Some? && RoleName(statements[i]).value in m
          && m[RoleName(statements[i]).value] == statements[i])
    && (forall k :: k in found ==> k in m && m[k] == found[k])
    && (forall k :: k in m && k !in found ==>
          exists i :: 0 <= i < |statements| && RoleName(statements[i]) == Some(k))
  }

  lemma NamesFitNext(statements: seq<string>, found: map<string, string>)
    requires statements != []
    ensures NamesFit(statements, found) <==>
              && RoleName(statements[0]).Some? && RoleName(statements[0]).value !in found
              && NamesFit(statements[1..], found[RoleName(statements[0]).value := statements[0]])
  {
    var rest := statements[1..];
    assert forall i :: 0 <= i < |rest| ==> rest[i] == statements[i + 1];
    assert forall i :: 0 < i < |statements| ==> statements[i] == rest[i - 1];
  }

  lemma MapsToNext(m: map<string, string>, statements: seq<string>, found: map<string, string>, name: string)
    requires statements != [] && RoleName(statements[0]) == Some(name) && name !in found
    requires NamesFit(statements, found) && MapsTo(m, statements[1..], found[name := statements[0]])
    ensures MapsTo(m, statements, found)
  {
    var rest := statements[1..];
    assert forall i :: 0 < i < |statements| ==> statements[i] == rest[i - 1];
    forall k | k in m && k !in found ensures exists i :: 0 <= i < |statements| && RoleName(statements[i]) == Some(k) {
      if k != name {
        var i :| 0 <= i < |rest| && RoleName(rest[i]) == Some(k);
        assert statements[i + 1] == rest[i];
      }
    }
  }

  /** A text is loaded exactly when every significant line is a role statement and no two have a
      name in common; the map is then that from the names to the statements. */
  lemma {:induction false} LoadSucceedsExactlyWhen(lines: seq<string>, found: map<string, string>)
    ensures LoadLines(lines, found).Ok? <==> NamesFit(Significant(lines), found)
    ensures LoadLines(lines, found).Ok? ==> MapsTo(LoadLines(lines, found).value, Significant(lines), found)
  {
    if lines != [] {
      var line := Strip(lines[0]);
      IsComment(line);
      if line == "" || Starts(line, "--") {
        LoadSucceedsExactlyWhen(lines[1..], found);
        assert Significant(lines) == Significant(lines[1..]);
      } else {
        var all := Significant(lines);
        assert all == [line] + Significant(lines[1..]) && all[1..] == Significant(lines[1..]);
        NamesFitNext(all, found);
        if RoleName(line).Some? && RoleName(line).value !in found {
          LoadSucceedsExactlyWhen(lines[1..], found[RoleName(line).value := line]);
          if LoadLines(lines, found).Ok? {
            MapsToNext(LoadLines(lines, found).value, all, found, RoleName(line).value);
          }
        }
      }
    }
  }

  /** A number is printed with a minus sign exactly when it is negative. */
  lemma MinusExactlyWhen(n: int)
    ensures IntText(n) != "" && (IntText(n)[0] == '-' <==> n < 0)
  {
    DigitsValue(if n < 0 then -n else n);
  }
}
