/** Quoting can be undone, and what the printer writes the loader reads back, exactly when
    the catalog keeps to what a role statement on one line can carry. */
module RolesRoundTrip {
  import opened Common
  import opened Roles

  // ---------------------------------------------------------------- quoting

  lemma {:induction false} BodyReadsBack(s: string, q: char, rest: string)
    requires rest == [] || rest[0] != q
    ensures ReadBody(Double(s, q) + [q] + rest, q) == Some((s, rest))
  {
    var text := Double(s, q) + [q] + rest;
    if s == [] {
      assert text == [q] + rest;
      assert text[1..] == rest;
    } else {
      BodyReadsBack(s[1..], q, rest);
      var inner := Double(s[1..], q) + [q] + rest;
      assert s == [s[0]] + s[1..];
      if s[0] == q {
        assert text == [q, q] + inner;
        assert text[2..] == inner;
      } else {
        assert text == [s[0]] + inner;
        assert text[1..] == inner;
      }
    }
  }

  /** A quoted name or literal reads back as itself, wherever it stands, as long as no quote
      follows it directly. */
  lemma QuotedReadsBack(s: string, q: char, rest: string)
    requires rest == [] || rest[0] != q
    ensures ReadQuoted(Quoted(s, q) + rest, q) == Some((s, rest))
  {
    BodyReadsBack(s, q, rest);
    assert (Quoted(s, q) + rest)[1..] == Double(s, q) + [q] + rest;
  }

  /** So no two texts are quoted alike. */
  lemma QuotingIsInjective(s: string, t: string)
    requires Ident(s) == Ident(t) || Literal(s) == Literal(t)
    ensures s == t
  {
    QuotedReadsBack(s, '"', []);
    QuotedReadsBack(t, '"', []);
    QuotedReadsBack(s, '\'', []);
    QuotedReadsBack(t, '\'', []);
    assert Ident(s) + [] == Ident(s) && Ident(t) + [] == Ident(t);
    assert Literal(s) + [] == Literal(s) && Literal(t) + [] == Literal(t);
  }

  lemma {:induction false} DoubleKeepsCharacters(s: string, q: char)
    ensures forall c :: c in Double(s, q) <==> c in s
    ensures q !in s ==> Double(s, q) == s
  {
    if s != [] {
      DoubleKeepsCharacters(s[1..], q);
      assert s == [s[0]] + s[1..];
    }
  }

  // ---------------------------------------------------------------- unbroken text

  lemma UnbrokenBoth(a: string, b: string)
    ensures Unbroken(a + b) <==> Unbroken(a) && Unbroken(b)
  {
    if Unbroken(a + b) {
      forall i | 0 <= i < |a| ensures !IsBreak(a[i]) { assert (a + b)[i] == a[i]; }
      forall i | 0 <= i < |b| ensures !IsBreak(b[i]) { assert (a + b)[|a| + i] == b[i]; }
    }
  }

  lemma UnbrokenDouble(s: string, q: char)
    requires !IsBreak(q)
    ensures Unbroken(Double(s, q)) <==> Unbroken(s)
    ensures Unbroken(Quoted(s, q)) <==> Unbroken(s)
  {
    DoubleKeepsCharacters(s, q);
    if Unbroken(s) {
      forall i | 0 <= i < |Double(s, q)| ensures !IsBreak(Double(s, q)[i]) { assert Double(s, q)[i] in s; }
    }
    if Unbroken(Double(s, q)) {
      forall i | 0 <= i < |s| ensures !IsBreak(s[i]) { assert s[i] in Double(s, q); }
    }
    UnbrokenBoth([q] + Double(s, q), [q]);
    UnbrokenBoth([q], Double(s, q));
  }

  lemma {:induction false} UnbrokenJoin(words: seq<string>)
    ensures Unbroken(Join(words)) <==> forall i :: 0 <= i < |words| ==> Unbroken(words[i])
  {
    if |words| > 1 {
      UnbrokenJoin(words[1..]);
      UnbrokenBoth(words[0] + " ", Join(words[1..]));
      UnbrokenBoth(words[0], " ");
      assert words == [words[0]] + words[1..];
    }
  }

  lemma {:induction false} UnbrokenDigits(n: nat)
    ensures Unbroken(Digits(n))
  {
    if n >= 10 {
      UnbrokenDigits(n / 10);
      UnbrokenBoth(Digits(n / 10), ["0123456789"[n % 10]]);
    }
  }

  lemma UnbrokenInt(n: int)
    ensures Unbroken(IntText(n))
  {
    UnbrokenDigits(if n < 0 then -n else n);
    if n < 0 { UnbrokenBoth("-", Digits(-n)); }
  }

  predicate KeepsToLine(r: Role) {
    r.validUntil.Some? ==> Unbroken(r.validUntil.value)
  }

  lemma UnbrokenFlag(value: bool, word: string)
    requires Unbroken(word)
    ensures Unbroken(Flag(value, word))
  {
    UnbrokenBoth("NO", word);
  }

  lemma UnbrokenFlags(r: Role)
    ensures forall i :: 0 <= i < 7 ==> Unbroken(Attributes(r)[i])
  {
    UnbrokenFlag(r.superuser, "SUPERUSER");
    UnbrokenFlag(r.inherit, "INHERIT");
    UnbrokenFlag(r.createRole, "CREATEROLE");
    UnbrokenFlag(r.createDb, "CREATEDB");
    UnbrokenFlag(r.canLogin, "LOGIN");
    UnbrokenFlag(r.replication, "REPLICATION");
    UnbrokenFlag(r.bypassRls, "BYPASSRLS");
  }

  lemma UnbrokenAttributes(r: Role)
    ensures Unbroken(Join(Attributes(r))) <==> KeepsToLine(r)
  {
    var words := Attributes(r);
    UnbrokenFlags(r);
    UnbrokenInt(r.connectionLimit);
    UnbrokenBoth("CONNECTION LIMIT ", IntText(r.connectionLimit));
    if r.validUntil.Some? && r.validUntil.value != "" {
      UnbrokenDouble(r.validUntil.value, '\'');
      UnbrokenBoth("VALID UNTIL ", Literal(r.validUntil.value));
      assert |words| == 9 && words[8] == "VALID UNTIL " + Literal(r.validUntil.value);
    }
    UnbrokenJoin(words);
  }

  lemma UnbrokenFive(a: string, b: string, c: string, d: string, e: string)
    requires Unbroken(a) && Unbroken(c) && Unbroken(e)
    ensures Unbroken(a + b + c + d + e) <==> Unbroken(b) && Unbroken(d)
  {
    UnbrokenBoth(a, b);
    UnbrokenBoth(a + b, c);
    UnbrokenBoth(a + b + c, d);
    UnbrokenBoth(a + b + c + d, e);
  }

  lemma UnbrokenParts(name: string, attributes: string)
    ensures Unbroken("CREATE ROLE " + Ident(name) + " WITH " + attributes + ";") <==>
               Unbroken(name) && Unbroken(attributes)
  {
    UnbrokenDouble(name, '"');
    UnbrokenFive("CREATE ROLE ", Ident(name), " WITH ", attributes, ";");
  }

  lemma UnbrokenStatement(r: Role)
    ensures Unbroken(Statement(r)) <==> Unbroken(r.name) && KeepsToLine(r)
  {
    UnbrokenAttributes(r);
    UnbrokenParts(r.name, Join(Attributes(r)));
  }

  // ---------------------------------------------------------------- splitting lines

  lemma {:induction false} BreakIsFound(line: string, c: char, rest: string)
    requires Unbroken(line) && IsBreak(c)
    ensures FirstBreak(line + [c] + rest) == |line|
  {
    var text := line + [c] + rest;
    if line == [] {
      assert text[0] == c;
    } else {
      assert text[0] == line[0] && text[1..] == line[1..] + [c] + rest;
      BreakIsFound(line[1..], c, rest);
    }
  }

  lemma LineIsFirst(line: string, rest: string)
    requires Unbroken(line)
    ensures SplitLines(line + "\n" + rest) == [line] + SplitLines(rest)
  {
    var text := line + "\n" + rest;
    BreakIsFound(line, '\n', rest);
    assert text[..|line|] == line && text[|line|] == '\n' && text[|line| + 1..] == rest;
  }

  lemma TextStarts(lines: seq<string>, rest: string)
    requires lines != []
    ensures Text(lines) + rest == lines[0] + "\n" + (Text(lines[1..]) + rest)
  {
  }

  lemma OneLineMore(line: string, text: string, lines: seq<string>, rest: string)
    requires Unbroken(line) && SplitLines(text) == lines + SplitLines(rest)
    ensures SplitLines(line + "\n" + text) == ([line] + lines) + SplitLines(rest)
  {
    LineIsFirst(line, text);
  }

  lemma {:induction false} LinesReadBack(lines: seq<string>, rest: string)
    requires forall i :: 0 <= i < |lines| ==> Unbroken(lines[i])
    ensures SplitLines(Text(lines) + rest) == lines + SplitLines(rest)
  {
    if lines == [] {
      assert Text(lines) + rest == rest;
    } else {
      var (first, others) := (lines[0], lines[1..]);
      LinesReadBack(others, rest);
      OneLineMore(first, Text(others) + rest, others, rest);
      TextStarts(lines, rest);
      assert lines == [first] + others;
    }
  }

  lemma {:induction false} TextOfBoth(a: seq<string>, b: seq<string>)
    ensures Text(a + b) == Text(a) + Text(b)
  {
    if a == [] {
      assert a + b == b;
    } else {
      assert (a + b)[1..] == a[1..] + b;
      TextOfBoth(a[1..], b);
    }
  }

  lemma {:induction false} SplitIsUnbroken(text: string)
    ensures forall i :: 0 <= i < |SplitLines(text)| ==> Unbroken(SplitLines(text)[i])
    decreases |text|
  {
    if text != [] {
      var n := FirstBreak(text);
      if n < |text| {
        SplitIsUnbroken(text[n + (if text[n] == '\r' && n + 1 < |text| && text[n + 1] == '\n' then 2 else 1)..]);
      } else {
        assert text[..n] == text;
      }
    }
  }

  lemma FirstCharacterStays(text: string)
    requires text != [] && !IsBreak(text[0])
    ensures SplitLines(text) != [] && SplitLines(text)[0] != [] && SplitLines(text)[0][0] == text[0]
  {
  }

  // ---------------------------------------------------------------- one line at a time

  lemma {:induction false} StripKeepsFirst(s: string)
    requires s != [] && !IsSpace(s[0])
    ensures Strip(s) != [] && Strip(s)[0] == s[0]
    decreases |s|
  {
    if IsSpace(s[|s| - 1]) { StripKeepsFirst(s[..|s| - 1]); }
  }

  lemma {:induction false} StripIsUnbroken(s: string)
    requires Unbroken(s)
    ensures Unbroken(Strip(s))
    decreases |s|
  {
    if s != [] {
      if IsSpace(s[0]) {
        StripIsUnbroken(s[1..]);
      } else if IsSpace(s[|s| - 1]) {
        StripIsUnbroken(s[..|s| - 1]);
      }
    }
  }

  predicate IsName(name: string) {
    name != "" && '"' !in name && Unbroken(name)
  }

  lemma {:induction false} FindIs(a: string, c: char, b: string)
    requires c !in a
    ensures Find(a + [c] + b, c) == |a|
  {
    var s := a + [c] + b;
    if a == [] {
      assert s[0] == c;
    } else {
      assert s[0] == a[0] && s[1..] == a[1..] + [c] + b;
      FindIs(a[1..], c, b);
    }
  }

  /** Any text of the form of a role statement is one, under its name. */
  lemma FormIsRecognised(name: string, attributes: string)
    requires IsName(name) && |attributes| >= 2 && attributes[|attributes| - 1] == ';' && '\n' !in attributes
    ensures RoleName(OPENING + (name + (CLOSING + attributes))) == Some(name)
  {
    FormIsCut(OPENING, name, CLOSING, attributes);
  }

  lemma FormIsCut(opening: string, name: string, closing: string, attributes: string)
    requires '"' !in name && closing != "" && closing[0] == '"'
    ensures var s := opening + (name + (closing + attributes));
            var rest := s[|opening|..];
            && Starts(s, opening) && Find(rest, '"') == |name| && rest[..|name|] == name
            && Starts(rest[|name|..], closing) && rest[|name| + |closing|..] == attributes
  {
    var rest := name + (closing + attributes);
    CutAfter(opening, rest);
    NameEnds(name, closing, attributes);
    CutAfter(name, closing + attributes);
    CutAfter(closing, attributes);
    assert rest[|name| + |closing|..] == rest[|name|..][|closing|..];
  }

  lemma CutAfter(head: string, tail: string)
    ensures (head + tail)[..|head|] == head && (head + tail)[|head|..] == tail
  {
  }

  /** The first quote after the opening one is the closing one. */
  lemma NameEnds(name: string, closing: string, attributes: string)
    requires '"' !in name && closing != "" && closing[0] == '"'
    ensures Find(name + (closing + attributes), '"') == |name|
  {
    assert name + (closing + attributes) == name + ['"'] + (closing[1..] + attributes);
    FindIs(name, '"', closing[1..] + attributes);
  }

  lemma Regroup(a: string, q: string, name: string, b: string, attributes: string, end: string)
    ensures a + (q + name + q) + b + attributes + end == (a + q) + (name + ((q + b) + (attributes + end)))
  {
  }

  lemma Delimiters()
    ensures OPENING == "CREATE ROLE " + ['"'] && CLOSING == ['"'] + " WITH "
  {
  }

  lemma StatementForm(r: Role)
    requires '"' !in r.name
    ensures Statement(r) == OPENING + (r.name + (CLOSING + (Join(Attributes(r)) + ";")))
  {
    Delimiters();
    assert Ident(r.name) == ['"'] + r.name + ['"'] by { DoubleKeepsCharacters(r.name, '"'); }
    Regroup("CREATE ROLE ", ['"'], r.name, " WITH ", Join(Attributes(r)), ";");
  }

  /** No blank at either end, and not the start of a note. */
  lemma NothingToStrip(s: string)
    requires s != [] && s[0] == 'C' && s[|s| - 1] == ';'
    ensures Strip(s) == s && !Starts(s, "--")
  {
    StartsAlike(s, "--");
  }

  lemma StatementIsRecognised(r: Role)
    requires IsName(r.name) && KeepsToLine(r)
    ensures Strip(Statement(r)) == Statement(r) != "" && !Starts(Statement(r), "--")
    ensures RoleName(Statement(r)) == Some(r.name)
  {
    var attributes := Join(Attributes(r)) + ";";
    StatementForm(r);
    AttributesEnd(r);
    FormIsRecognised(r.name, attributes);
    FormEnds(r.name, attributes);
    NothingToStrip(Statement(r));
  }

  lemma AttributesEnd(r: Role)
    requires KeepsToLine(r)
    ensures var attributes := Join(Attributes(r)) + ";";
            |attributes| >= 2 && attributes[|attributes| - 1] == ';' && '\n' !in attributes
  {
    UnbrokenAttributes(r);
    UnbrokenBoth(Join(Attributes(r)), ";");
    JoinIsLonger(Attributes(r));
  }

  lemma FormEnds(name: string, attributes: string)
    requires attributes != "" && attributes[|attributes| - 1] == ';'
    ensures var s := OPENING + (name + (CLOSING + attributes)); s[0] == 'C' && s[|s| - 1] == ';'
  {
  }

  lemma JoinIsLonger(words: seq<string>)
    requires words != [] && words[0] != ""
    ensures Join(words) != ""
  {
  }

  lemma RecognisedIsName(s: string)
    requires Unbroken(s) && RoleName(s).Some?
    ensures IsName(RoleName(s).value)
  {
    var rest := s[|OPENING|..];
    var n := Find(rest, '"');
    assert forall i :: 0 <= i < n ==> rest[..n][i] == s[|OPENING| + i];
  }

  // ---------------------------------------------------------------- loading

  lemma {:induction false} LoadInParts(a: seq<string>, b: seq<string>, found: map<string, string>)
    ensures LoadLines(a + b, found)
         == match LoadLines(a, found)
            case Err(e) => Err(e)
            case Ok(m) => LoadLines(b, m)
    decreases |a|
  {
    if a == [] {
      assert a + b == b;
    } else {
      assert (a + b)[0] == a[0] && (a + b)[1..] == a[1..] + b;
      var statement := Strip(a[0]);
      if statement == "" || Starts(statement, "--") {
        LoadInParts(a[1..], b, found);
      } else if RoleName(statement).Some? && RoleName(statement).value !in found {
        LoadInParts(a[1..], b, found[RoleName(statement).value := statement]);
      }
    }
  }

  predicate IsNote(line: string) {
    line == "" || (Starts(line, "--") && !IsSpace(line[|line| - 1]))
  }

  lemma {:induction false} NotesAreSkipped(notes: seq<string>, found: map<string, string>)
    requires forall i :: 0 <= i < |notes| ==> IsNote(notes[i])
    ensures LoadLines(notes, found) == Ok(found)
  {
    if notes != [] {
      assert notes[0] != "" ==> notes[0][0] == notes[0][..2][0];
      NotesAreSkipped(notes[1..], found);
    }
  }

  lemma StartsAlike(s: string, prefix: string)
    requires s != "" && prefix != ""
    ensures Starts(s, prefix) ==> s[0] == prefix[0]
  {
    if Starts(s, prefix) { assert s[..|prefix|][0] == s[0]; }
  }

  /** A line that starts like a grant or an alteration is no role statement. */
  lemma OthersAreRefused(lines: seq<string>, found: map<string, string>)
    requires lines != [] && lines[0] != [] && lines[0][0] in {'G', 'A'}
    ensures LoadLines(lines, found) == Err(UnexpectedStatement)
  {
    StripKeepsFirst(lines[0]);
    StartsAlike(Strip(lines[0]), "--");
    StartsAlike(Strip(lines[0]), OPENING);
  }

  predicate Clean(m: map<string, string>) {
    forall k :: k in m ==> IsName(k) && Unbroken(m[k])
  }

  lemma {:induction false} LoadedIsClean(lines: seq<string>, found: map<string, string>)
    requires Clean(found) && forall i :: 0 <= i < |lines| ==> Unbroken(lines[i])
    ensures LoadLines(lines, found).Ok? ==> Clean(LoadLines(lines, found).value)
    decreases |lines|
  {
    if lines != [] {
      var statement := Strip(lines[0]);
      StripIsUnbroken(lines[0]);
      if statement == "" || Starts(statement, "--") {
        LoadedIsClean(lines[1..], found);
      } else if RoleName(statement).Some? && RoleName(statement).value !in found {
        RecognisedIsName(statement);
        LoadedIsClean(lines[1..], found[RoleName(statement).value := statement]);
      }
    }
  }

  predicate DistinctNames(roles: seq<Role>) {
    forall i, j :: 0 <= i < j < |roles| ==> roles[i].name != roles[j].name
  }

  function Names(roles: seq<Role>): set<string> {
    set i | 0 <= i < |roles| :: roles[i].name
  }

  predicate Printable(roles: seq<Role>) {
    forall i :: 0 <= i < |roles| ==> IsName(roles[i].name) && KeepsToLine(roles[i])
  }

  /** The map from each role's name to its printed statement, and nothing else. */
  predicate IsCatalogOf(m: map<string, string>, roles: seq<Role>) {
    m.Keys == Names(roles) && forall i :: 0 <= i < |roles| ==>
      roles[i].name in m && m[roles[i].name] == Statement(roles[i])
  }

  predicate Recognised(line: string, name: string) {
    Strip(line) == line != "" && !Starts(line, "--") && RoleName(line) == Some(name)
  }

  predicate Apart(names: seq<string>, found: map<string, string>) {
    && (forall i, j :: 0 <= i < j < |names| ==> names[i] != names[j])
    && (forall i :: 0 <= i < |names| ==> names[i] !in found)
  }

  lemma ApartNext(names: seq<string>, found: map<string, string>, line: string)
    requires names != []
    ensures Apart(names, found) <==> names[0] !in found && Apart(names[1..], found[names[0] := line])
  {
    assert names == [names[0]] + names[1..];
    assert forall i :: 0 < i < |names| ==> names[i] == names[1..][i - 1];
  }

  /** Recognised lines load exactly when no name comes twice, each under its name. */
  lemma {:induction false} RecognisedLoad(names: seq<string>, lines: seq<string>, found: map<string, string>)
    requires |names| == |lines| && forall i :: 0 <= i < |lines| ==> Recognised(lines[i], names[i])
    ensures LoadLines(lines, found).Ok? <==> Apart(names, found)
    ensures LoadLines(lines, found).Ok? ==> LoadedAs(LoadLines(lines, found).value, names, lines, found)
    decreases |lines|
  {
    if lines != [] {
      assert Recognised(lines[0], names[0]);
      ApartNext(names, found, lines[0]);
      if names[0] !in found {
        RecognisedLoad(names[1..], lines[1..], found[names[0] := lines[0]]);
        if Apart(names, found) {
          LoadedNext(LoadLines(lines, found).value, names, lines, found);
        }
      }
    }
  }

  ghost predicate LoadedAs(m: map<string, string>, names: seq<string>, lines: seq<string>, found: map<string, string>)
    requires |names| == |lines|
  {
    && (forall k :: k in m <==> k in found || k in names)
    && (forall k :: k in found ==> m[k] == found[k])
    && (forall i :: 0 <= i < |names| ==> m[names[i]] == lines[i])
  }

  lemma LoadedNext(m: map<string, string>, names: seq<string>, lines: seq<string>, found: map<string, string>)
    requires |names| == |lines| > 0 && names[0] !in found
    requires LoadedAs(m, names[1..], lines[1..], found[names[0] := lines[0]])
    ensures LoadedAs(m, names, lines, found)
  {
    assert forall k :: k in names <==> k == names[0] || k in names[1..];
    forall i | 0 <= i < |names| ensures m[names[i]] == lines[i] {
      if i > 0 { assert names[1..][i - 1] == names[i] && lines[1..][i - 1] == lines[i]; }
    }
  }

  // ---------------------------------------------------------------- what is printed

  predicate ArePrinted(lines: seq<string>, roles: seq<Role>) {
    |lines| == |roles| && forall i :: 0 <= i < |roles| ==> lines[i] == Statement(roles[i])
  }

  lemma PrintedNext(lines: seq<string>, line: string, roles: seq<Role>, last: Role)
    requires ArePrinted(lines, roles) && line == Statement(last)
    ensures ArePrinted(lines + [line], roles + [last])
  {
  }

  lemma {:induction false} RoleLinesAre(roles: seq<Role>)
    ensures RoleLines(roles).Ok? <==> forall i :: 0 <= i < |roles| ==> !roles[i].hasPassword
    ensures RoleLines(roles).Ok? ==> ArePrinted(RoleLines(roles).value, roles)
    decreases |roles|
  {
    if roles != [] {
      var (front, last) := (roles[..|roles| - 1], roles[|roles| - 1]);
      RoleLinesAre(front);
      assert roles == front + [last];
      if RoleLines(roles).Ok? { PrintedNext(RoleLines(front).value, Statement(last), front, last); }
    }
  }

  predicate AllBegin(lines: seq<string>, c: char) {
    forall i :: 0 <= i < |lines| ==> lines[i] != "" && lines[i][0] == c
  }

  lemma AllBeginBoth(a: seq<string>, b: seq<string>, c: char)
    requires AllBegin(a, c) && AllBegin(b, c)
    ensures AllBegin(a + b, c)
  {
  }

  lemma {:induction false} GrantLinesAre(memberships: seq<RoleMembership>)
    ensures GrantLines(memberships).Ok? <==>
              forall i :: 0 <= i < |memberships| ==> memberships[i].inheritOption && memberships[i].setOption
    ensures GrantLines(memberships).Ok? ==>
              |GrantLines(memberships).value| == |memberships|
              && AllBegin(GrantLines(memberships).value, 'G')
    decreases |memberships|
  {
    if memberships != [] {
      var (front, last) := (memberships[..|memberships| - 1], memberships[|memberships| - 1]);
      GrantLinesAre(front);
      if GrantLines(memberships).Ok? {
        GrantLineBegins(last);
        AllBeginBoth(GrantLines(front).value, [GrantLine(last)], 'G');
      }
    }
  }

  lemma GrantLineBegins(m: RoleMembership)
    ensures GrantLine(m) != "" && GrantLine(m)[0] == 'G'
  {
  }

  lemma SettingLineBegins(s: RoleSetting, item: string)
    requires '=' in item
    ensures SettingLine(s, item) != "" && SettingLine(s, item)[0] == 'A'
  {
  }

  lemma {:induction false} ItemLinesAre(s: RoleSetting, n: nat)
    requires n <= |s.items|
    ensures ItemLines(s, n).Ok? <==> forall i :: 0 <= i < n ==> '=' in s.items[i]
    ensures ItemLines(s, n).Ok? ==> |ItemLines(s, n).value| == n
    decreases n
  {
    if n > 0 { ItemLinesAre(s, n - 1); }
  }

  lemma {:induction false} ItemLinesBegin(s: RoleSetting, n: nat)
    requires n <= |s.items|
    ensures ItemLines(s, n).Ok? ==> AllBegin(ItemLines(s, n).value, 'A')
    decreases n
  {
    if ItemLines(s, n).Ok? && n > 0 {
      ItemLinesBegin(s, n - 1);
      SettingLineBegins(s, s.items[n - 1]);
      AllBeginBoth(ItemLines(s, n - 1).value, [SettingLine(s, s.items[n - 1])], 'A');
    }
  }

  predicate NoItems(settings: seq<RoleSetting>) {
    forall i :: 0 <= i < |settings| ==> settings[i].items == []
  }

  predicate ItemsAssign(settings: seq<RoleSetting>) {
    forall i :: 0 <= i < |settings| ==> forall j :: 0 <= j < |settings[i].items| ==> '=' in settings[i].items[j]
  }

  lemma {:induction false} SettingLinesAre(settings: seq<RoleSetting>)
    ensures SettingLines(settings).Ok? <==> ItemsAssign(settings)
    ensures SettingLines(settings).Ok? ==>
              (SettingLines(settings).value == [] <==> NoItems(settings)) && AllBegin(SettingLines(settings).value, 'A')
    decreases |settings|
  {
    if settings != [] {
      var (front, last) := (settings[..|settings| - 1], settings[|settings| - 1]);
      SettingLinesAre(front);
      ItemLinesAre(last, |last.items|);
      assert settings == front + [last];
      assert ItemsAssign(settings) <==>
             ItemsAssign(front) && forall j :: 0 <= j < |last.items| ==> '=' in last.items[j];
      assert NoItems(settings) <==> NoItems(front) && last.items == [];
      if SettingLines(settings).Ok? {
        ItemLinesBegin(last, |last.items|);
        AllBeginBoth(SettingLines(front).value, ItemLines(last, |last.items|).value, 'A');
      }
    }
  }

  /** The printer refuses exactly password roles, unusual memberships and settings that assign
      nothing. */
  lemma PrintsExactlyWhen(c: Catalog)
    ensures Materialize(c).Ok? <==>
              && (forall i :: 0 <= i < |c.roles| ==> !c.roles[i].hasPassword)
              && (forall i :: 0 <= i < |c.memberships| ==> c.memberships[i].inheritOption && c.memberships[i].setOption)
              && ItemsAssign(c.settings)
  {
    RoleLinesAre(c.roles);
    GrantLinesAre(c.memberships);
    SettingLinesAre(c.settings);
  }

  // ---------------------------------------------------------------- the round trip

  predicate Recovers(c: Catalog)
    requires Materialize(c).Ok?
  {
    Load(Materialize(c).value).Ok? && IsCatalogOf(Load(Materialize(c).value).value, c.roles)
  }

  /** One-line names and expiries, each name once, and nothing beside the roles. */
  predicate Loadable(c: Catalog) {
    Printable(c.roles) && DistinctNames(c.roles) && c.memberships == [] && NoItems(c.settings)
  }

  predicate AreNotes(notes: seq<string>) {
    forall i :: 0 <= i < |notes| ==> IsNote(notes[i]) && Unbroken(notes[i])
  }

  lemma NotesThenRest(notes: seq<string>, rest: string, found: map<string, string>)
    requires AreNotes(notes)
    ensures LoadLines(SplitLines(Text(notes) + rest), found) == LoadLines(SplitLines(rest), found)
  {
    LinesReadBack(notes, rest);
    NotesAreSkipped(notes, found);
    LoadInParts(notes, SplitLines(rest), found);
  }

  lemma NoteInTwo(a: string, b: string)
    requires Starts(a, "--") && Unbroken(a) && Unbroken(b) && b != "" && !IsSpace(b[|b| - 1])
    ensures IsNote(a + b) && Unbroken(a + b)
  {
    UnbrokenBoth(a, b);
    assert (a + b)[..2] == a[..2];
  }

  lemma OriginIsNote()
    ensures IsNote(ORIGIN) && Unbroken(ORIGIN)
  {
    NoteInTwo("-- Generated from the audited ", "Request Engine role catalog.");
  }

  lemma WarningIsNote()
    ensures IsNote(WARNING) && Unbroken(WARNING)
  {
    NoteInTwo("-- Credentials are intentionally ", "forbidden from this payload.");
  }

  lemma HeaderIsNotes()
    ensures AreNotes(HEADER)
  {
    OriginIsNote();
    WarningIsNote();
  }

  /** After the notes, a first line that is no role statement stops the loader. */
  lemma NotesThenRefusal(notes: seq<string>, rest: seq<string>, found: map<string, string>)
    requires AreNotes(notes) && rest != [] && rest[0] != "" && rest[0][0] in {'G', 'A'}
    ensures LoadLines(SplitLines(Text(notes + rest)), found) == Err(UnexpectedStatement)
  {
    TextOfBoth(notes, rest);
    NotesThenRest(notes, Text(rest), found);
    assert Text(rest)[0] == rest[0][0];
    FirstCharacterStays(Text(rest));
    OthersAreRefused(SplitLines(Text(rest)), found);
  }

  lemma NotesOnly(notes: seq<string>, found: map<string, string>)
    requires AreNotes(notes)
    ensures LoadLines(SplitLines(Text(notes)), found) == Ok(found)
  {
    NotesThenRest(notes, "", found);
    assert Text(notes) + "" == Text(notes);
  }

  lemma SectionsAreNotes()
    ensures AreNotes(["", MEMBERSHIPS]) && AreNotes(["", SETTINGS])
  {
    NoteInTwo("-- Role ", "memberships");
    NoteInTwo("-- Role ", "settings");
    assert MEMBERSHIPS == "-- Role " + "memberships" && SETTINGS == "-- Role " + "settings";
  }

  /** Once the role lines are read, a catalog with memberships or settings stops the loader. */
  lemma TailLoads(c: Catalog, grants: seq<string>, items: seq<string>, found: map<string, string>)
    requires GrantLines(c.memberships) == Ok(grants) && SettingLines(c.settings) == Ok(items)
    ensures LoadLines(SplitLines(Text(Tail(c, grants, items))), found)
         == if c.memberships == [] && NoItems(c.settings) then Ok(found) else Err(UnexpectedStatement)
  {
    GrantLinesAre(c.memberships);
    SettingLinesAre(c.settings);
    SectionsAreNotes();
    var settings := if c.settings != [] then ["", SETTINGS] else [];
    if c.memberships != [] {
      assert Tail(c, grants, items) == ["", MEMBERSHIPS] + (grants + settings + items);
      NotesThenRefusal(["", MEMBERSHIPS], grants + settings + items, found);
    } else {
      assert Tail(c, grants, items) == settings + items;
      SettingsLoad(settings, items, found);
    }
  }

  lemma SettingsLoad(notes: seq<string>, items: seq<string>, found: map<string, string>)
    requires AreNotes(notes) && AllBegin(items, 'A')
    ensures LoadLines(SplitLines(Text(notes + items)), found)
         == if items == [] then Ok(found) else Err(UnexpectedStatement)
  {
    if items == [] {
      assert notes + items == notes;
      NotesOnly(notes, found);
    } else {
      NotesThenRefusal(notes, items, found);
    }
  }

  lemma PrintedIs(c: Catalog, lines: seq<string>, grants: seq<string>, items: seq<string>)
    requires RoleLines(c.roles) == Ok(lines) && GrantLines(c.memberships) == Ok(grants) &&
             SettingLines(c.settings) == Ok(items)
    ensures Materialize(c) == Ok(Text(HEADER) + (Text(lines) + Text(Tail(c, grants, items))))
  {
    TextOfThree(HEADER, lines, Tail(c, grants, items));
  }

  lemma TextOfThree(a: seq<string>, b: seq<string>, c: seq<string>)
    ensures Text(a + b + c) == Text(a) + (Text(b) + Text(c))
  {
    TextOfBoth(a + b, c);
    TextOfBoth(a, b);
  }

  lemma RolesAreRecognised(roles: seq<Role>, names: seq<string>, lines: seq<string>)
    requires Printable(roles) && ArePrinted(lines, roles)
    requires |names| == |roles| && forall i :: 0 <= i < |roles| ==> names[i] == roles[i].name
    ensures forall i :: 0 <= i < |roles| ==> Unbroken(lines[i]) && Recognised(lines[i], names[i])
  {
    forall i | 0 <= i < |roles| ensures Unbroken(lines[i]) && Recognised(lines[i], names[i]) {
      UnbrokenStatement(roles[i]);
      StatementIsRecognised(roles[i]);
    }
  }

  lemma LoadedIsCatalog(m: map<string, string>, roles: seq<Role>, names: seq<string>,
                        lines: seq<string>, none: map<string, string>)
    requires ArePrinted(lines, roles) && none == map[]
    requires |names| == |roles| && forall i :: 0 <= i < |roles| ==> names[i] == roles[i].name
    requires LoadedAs(m, names, lines, none)
    ensures IsCatalogOf(m, roles)
  {
    forall k ensures k in m.Keys <==> k in Names(roles) {
      if k in names {
        var i :| 0 <= i < |names| && names[i] == k;
        assert roles[i].name == k;
      }
      if k in Names(roles) {
        var i :| 0 <= i < |roles| && roles[i].name == k;
        assert names[i] == k;
      }
    }
  }

  /** What the printed text loads as, when all its role lines are recognised. */
  lemma TextLoads(c: Catalog, names: seq<string>, lines: seq<string>, none: map<string, string>)
    requires RoleLines(c.roles) == Ok(lines) && GrantLines(c.memberships).Ok? && SettingLines(c.settings).Ok?
    requires |names| == |lines| && forall i :: 0 <= i < |lines| ==> Unbroken(lines[i]) && Recognised(lines[i], names[i])
    ensures Materialize(c).Ok?
    ensures var loaded := LoadLines(SplitLines(Materialize(c).value), none);
            && (loaded.Ok? <==> Apart(names, none) && c.memberships == [] && NoItems(c.settings))
            && (loaded.Ok? ==> LoadedAs(loaded.value, names, lines, none))
  {
    var (grants, items) := (GrantLines(c.memberships).value, SettingLines(c.settings).value);
    var tail := Text(Tail(c, grants, items));
    PrintedIs(c, lines, grants, items);
    HeaderIsNotes();
    NotesThenRest(HEADER, Text(lines) + tail, none);
    LinesReadBack(lines, tail);
    LoadInParts(lines, SplitLines(tail), none);
    RecognisedLoad(names, lines, none);
    if LoadLines(lines, none).Ok? { TailLoads(c, grants, items, LoadLines(lines, none).value); }
  }

  lemma NamesApart(roles: seq<Role>, names: seq<string>, none: map<string, string>)
    requires |names| == |roles| && none == map[]
    requires forall i :: 0 <= i < |names| ==> names[i] == roles[i].name
    ensures Apart(names, none) <==> DistinctNames(roles)
  {
  }

  /** With one-line names and expiries, loading comes down to distinct names and an empty tail. */
  lemma PrintableLoads(c: Catalog, none: map<string, string>)
    requires Materialize(c).Ok? && Printable(c.roles) && none == map[]
    ensures LoadLines(SplitLines(Materialize(c).value), none).Ok? <==>
              DistinctNames(c.roles) && c.memberships == [] && NoItems(c.settings)
    ensures LoadLines(SplitLines(Materialize(c).value), none).Ok? ==>
              IsCatalogOf(LoadLines(SplitLines(Materialize(c).value), none).value, c.roles)
  {
    var lines := RoleLines(c.roles).value;
    var names := seq(|c.roles|, i requires 0 <= i < |c.roles| => c.roles[i].name);
    RoleLinesAre(c.roles);
    RolesAreRecognised(c.roles, names, lines);
    TextLoads(c, names, lines, none);
    NamesApart(c.roles, names, none);
    var loaded := LoadLines(SplitLines(Materialize(c).value), none);
    if loaded.Ok? { LoadedIsCatalog(loaded.value, c.roles, names, lines, none); }
  }

  /** A recovered map has clean names and statements, so the catalog's were printable. */
  lemma RecoveredIsPrintable(c: Catalog, none: map<string, string>)
    requires Materialize(c).Ok? && none == map[]
    requires LoadLines(SplitLines(Materialize(c).value), none).Ok?
    requires IsCatalogOf(LoadLines(SplitLines(Materialize(c).value), none).value, c.roles)
    ensures Printable(c.roles)
  {
    var lines := SplitLines(Materialize(c).value);
    var m := LoadLines(lines, none).value;
    SplitIsUnbroken(Materialize(c).value);
    LoadedIsClean(lines, none);
    forall i | 0 <= i < |c.roles| ensures IsName(c.roles[i].name) && KeepsToLine(c.roles[i]) {
      assert c.roles[i].name in m;
      UnbrokenStatement(c.roles[i]);
    }
  }

  /** Loading the printed text gives back exactly the map from role names to printed
      statements if and only if the catalog is loadable. */
  lemma LoadRecoversExactlyWhen(c: Catalog)
    requires Materialize(c).Ok?
    ensures Recovers(c) <==> Loadable(c)
  {
    var none: map<string, string> := map[];
    if Recovers(c) { RecoveredIsPrintable(c, none); }
    if Printable(c.roles) { PrintableLoads(c, none); }
  }
}
