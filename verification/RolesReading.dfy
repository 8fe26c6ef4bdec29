/** A reader of the printed role catalog that undoes the printer: every printed attribute of every
    role, membership and setting is read back from the text. */
module RolesReading {
  import opened Common
  import opened Roles
  import opened RolesRoundTrip

  // ---------------------------------------------------------------- the reader

  /** The text after a word that it starts with. */
  function After(text: string, word: string): Option<string> {
    if |word| <= |text| && text[..|word|] == word then Some(text[|word|..]) else None
  }

  function ReadNamed(text: string, word: string, q: char): Option<(string, string)> {
    match After(text, word)
    case None => None
    case Some(rest) => ReadQuoted(rest, q)
  }

  /** A flag is the word, or the word after NO; a blank follows. */
  function ReadFlag(text: string, word: string): Option<(bool, string)> {
    match After(text, word)
    case Some(rest) => (match After(rest, " ") case Some(next) => Some((true, next)) case None => None)
    case None =>
      match After(text, "NO")
      case None => None
      case Some(rest) =>
        match After(rest, word)
        case None => None
        case Some(more) => match After(more, " ") case Some(next) => Some((false, next)) case None => None
  }

  function ReadFlags(text: string, words: seq<string>): Option<(seq<bool>, string)> {
    if words == [] then Some(([], text))
    else
      match ReadFlag(text, words[0])
      case None => None
      case Some((value, rest)) =>
        match ReadFlags(rest, words[1..])
        case None => None
        case Some((values, more)) => Some(([value] + values, more))
  }

  /** How many digits a text starts with. */
  function Span(text: string): (n: nat)
    ensures n <= |text|
  {
    if text == [] || !IsDecimal(text[0]) then 0 else 1 + Span(text[1..])
  }

  function ReadInt(text: string): Option<(int, string)> {
    if text != [] && text[0] == '-' then Some((-Value(text[1..][..Span(text[1..])]), text[1..][Span(text[1..])..]))
    else Some((Value(text[..Span(text)]), text[Span(text)..]))
  }

  /** The end of a role statement, with its expiry when it has one. */
  function ReadUntil(text: string): Option<(Option<string>, string)> {
    match After(text, ";\n")
    case Some(rest) => Some((None, rest))
    case None =>
      match ReadNamed(text, " VALID UNTIL ", '\'')
      case None => None
      case Some((until, rest)) =>
        match After(rest, ";\n")
        case Some(more) => Some((Some(until), more))
        case None => None
  }

  function Words(): seq<string> {
    ["SUPERUSER", "INHERIT", "CREATEROLE", "CREATEDB", "LOGIN", "REPLICATION", "BYPASSRLS"]
  }

  function ReadLimit(text: string): Option<(int, string)> {
    match After(text, "CONNECTION LIMIT ")
    case None => None
    case Some(rest) => ReadInt(rest)
  }

  function ReadAttributes(text: string): Option<(seq<bool>, int, Option<string>, string)> {
    match ReadFlags(text, Words())
    case None => None
    case Some((flags, t)) =>
      match ReadLimit(t)
      case None => None
      case Some((limit, u)) =>
        match ReadUntil(u)
        case None => None
        case Some((until, rest)) => Some((flags, limit, until, rest))
  }

  lemma {:induction false} FlagsCount(text: string, words: seq<string>)
    ensures ReadFlags(text, words).Some? ==> |ReadFlags(text, words).value.0| == |words|
  {
    if words != [] && ReadFlag(text, words[0]).Some? { FlagsCount(ReadFlag(text, words[0]).value.1, words[1..]); }
  }

  function ReadRole(text: string): Option<(Role, string)> {
    match ReadNamed(text, "CREATE ROLE ", '"')
    case None => None
    case Some((name, t)) =>
      match After(t, " WITH ")
      case None => None
      case Some(u) =>
        FlagsCount(u, Words());
        match ReadAttributes(u)
        case None => None
        case Some((f, limit, until, rest)) =>
          Some((Role(name, false, f[0], f[1], f[2], f[3], f[4], f[5], f[6], limit, until), rest))
  }

  // ---------------------------------------------------------------- reading back the pieces

  lemma AfterWord(word: string, rest: string)
    ensures After(word + rest, word) == Some(rest)
  {
    assert (word + rest)[..|word|] == word && (word + rest)[|word|..] == rest;
  }

  lemma NotAfter(text: string, word: string)
    requires word != "" && (text == "" || text[0] != word[0])
    ensures After(text, word) == None
  {
    if |word| <= |text| { assert text[..|word|][0] == text[0]; }
  }

  lemma NamedReadsBack(word: string, name: string, q: char, rest: string)
    requires rest == "" || rest[0] != q
    ensures ReadNamed(word + (Quoted(name, q) + rest), word, q) == Some((name, rest))
  {
    AfterWord(word, Quoted(name, q) + rest);
    QuotedReadsBack(name, q, rest);
  }

  lemma FlagReadsBack(value: bool, word: string, rest: string)
    requires word != "" && word[0] != 'N'
    ensures ReadFlag(Flag(value, word) + (" " + rest), word) == Some((value, rest))
  {
    AfterWord(word, " " + rest);
    AfterWord(" ", rest);
    if !value {
      assert Flag(value, word) + (" " + rest) == "NO" + (word + (" " + rest));
      AfterWord("NO", word + (" " + rest));
      NotAfter("NO" + (word + (" " + rest)), word);
    }
  }

  /** The flags, each with the blank after it. */
  function FlagsText(values: seq<bool>, words: seq<string>): string
    requires |values| == |words|
  {
    if values == [] then "" else Flag(values[0], words[0]) + (" " + FlagsText(values[1..], words[1..]))
  }

  lemma FlagsTextNext(values: seq<bool>, words: seq<string>, rest: string)
    requires |values| == |words| && values != []
    ensures FlagsText(values, words) + rest
         == Flag(values[0], words[0]) + (" " + (FlagsText(values[1..], words[1..]) + rest))
  {
    var (flag, tail) := (Flag(values[0], words[0]), FlagsText(values[1..], words[1..]));
    assert (flag + (" " + tail)) + rest == flag + (" " + (tail + rest));
  }

  lemma {:induction false} FlagsReadBack(values: seq<bool>, words: seq<string>, rest: string)
    requires |values| == |words| && forall i :: 0 <= i < |words| ==> words[i] != "" && words[i][0] != 'N'
    ensures ReadFlags(FlagsText(values, words) + rest, words) == Some((values, rest))
  {
    if values == [] {
      assert "" + rest == rest;
    } else {
      var tail := FlagsText(values[1..], words[1..]) + rest;
      FlagsTextNext(values, words, rest);
      FlagReadsBack(values[0], words[0], tail);
      FlagsReadBack(values[1..], words[1..], rest);
      assert [values[0]] + values[1..] == values;
    }
  }

  lemma {:induction false} SpanIs(digits: string, rest: string)
    requires forall i :: 0 <= i < |digits| ==> IsDecimal(digits[i])
    requires rest == "" || !IsDecimal(rest[0])
    ensures Span(digits + rest) == |digits|
  {
    if digits == "" {
      assert digits + rest == rest;
    } else {
      assert (digits + rest)[1..] == digits[1..] + rest;
      SpanIs(digits[1..], rest);
    }
  }

  lemma IntReadsBack(n: int, rest: string)
    requires rest == "" || !IsDecimal(rest[0])
    ensures ReadInt(IntText(n) + rest) == Some((n, rest))
  {
    var digits := Digits(if n < 0 then -n else n);
    DigitsValue(if n < 0 then -n else n);
    SpanIs(digits, rest);
    assert (digits + rest)[..|digits|] == digits && (digits + rest)[|digits|..] == rest;
    if n < 0 {
      assert IntText(n) + rest == "-" + (digits + rest);
      assert ("-" + (digits + rest))[1..] == digits + rest;
    } else {
      assert (digits + rest)[0] == digits[0];
    }
  }

  // ---------------------------------------------------------------- a role

  function Flags(r: Role): seq<bool> {
    [r.superuser, r.inherit, r.createRole, r.createDb, r.canLogin, r.replication, r.bypassRls]
  }

  /** The expiry that is printed: an empty one is not. */
  function Expiry(r: Role): Option<string> {
    if r.validUntil == Some("") then None else r.validUntil
  }

  function UntilText(until: Option<string>): string {
    match until
    case None => ";\n"
    case Some(u) => " VALID UNTIL " + (Literal(u) + ";\n")
  }

  lemma UntilReadsBack(until: Option<string>, rest: string)
    ensures ReadUntil(UntilText(until) + rest) == Some((until, rest))
  {
    AfterWord(";\n", rest);
    match until
    case None =>
    case Some(u) =>
      assert UntilText(until) + rest == " VALID UNTIL " + (Literal(u) + (";\n" + rest));
      NotAfter(" VALID UNTIL " + (Literal(u) + (";\n" + rest)), ";\n");
      NamedReadsBack(" VALID UNTIL ", u, '\'', ";\n" + rest);
  }

  lemma LimitReadsBack(n: int, rest: string)
    requires rest == "" || !IsDecimal(rest[0])
    ensures ReadLimit("CONNECTION LIMIT " + (IntText(n) + rest)) == Some((n, rest))
  {
    AfterWord("CONNECTION LIMIT ", IntText(n) + rest);
    IntReadsBack(n, rest);
  }

  /** The attributes of a statement, to the end of its line. */
  function AttributesText(flags: seq<bool>, limit: int, until: Option<string>): string
    requires |flags| == 7
  {
    FlagsText(flags, Words()) + ("CONNECTION LIMIT " + (IntText(limit) + UntilText(until)))
  }

  lemma UntilStarts(until: Option<string>, rest: string)
    ensures UntilText(until) + rest != "" && !IsDecimal((UntilText(until) + rest)[0])
  {
    if until.Some? { assert UntilText(until)[0] == ' '; }
  }

  lemma AttributesReadBack(flags: seq<bool>, limit: int, until: Option<string>, rest: string)
    requires |flags| == 7
    ensures ReadAttributes(AttributesText(flags, limit, until) + rest) == Some((flags, limit, until, rest))
  {
    var u := UntilText(until) + rest;
    var t := "CONNECTION LIMIT " + (IntText(limit) + u);
    Regrouped(FlagsText(flags, Words()), "CONNECTION LIMIT ", IntText(limit), UntilText(until), rest);
    FlagsReadBack(flags, Words(), t);
    UntilStarts(until, rest);
    LimitReadsBack(limit, u);
    UntilReadsBack(until, rest);
  }

  lemma Regrouped(a: string, b: string, c: string, d: string, e: string)
    ensures (a + (b + (c + d))) + e == a + (b + (c + (d + e)))
  {
  }

  lemma {:induction false} JoinFlags(values: seq<bool>, words: seq<string>, flags: seq<string>, more: seq<string>)
    requires |values| == |words| == |flags| && more != []
    requires forall i :: 0 <= i < |flags| ==> flags[i] == Flag(values[i], words[i])
    ensures Join(flags + more) == FlagsText(values, words) + Join(more)
  {
    if flags == [] {
      assert flags + more == more;
    } else {
      assert (flags + more)[0] == flags[0] && (flags + more)[1..] == flags[1..] + more;
      JoinFlags(values[1..], words[1..], flags[1..], more);
    }
  }

  /** What follows the flags in the list of attributes. */
  function Rest(r: Role): seq<string> {
    ["CONNECTION LIMIT " + IntText(r.connectionLimit)]
    + (if Expiry(r).Some? then ["VALID UNTIL " + Literal(Expiry(r).value)] else [])
  }

  lemma AttributesSplit(r: Role)
    ensures |Attributes(r)| >= 8 && Attributes(r)[7..] == Rest(r)
    ensures forall i :: 0 <= i < 7 ==> Attributes(r)[i] == Flag(Flags(r)[i], Words()[i])
  {
    FlagsAre(r);
    assert Attributes(r) == (Attributes(r)[..7] + ["CONNECTION LIMIT " + IntText(r.connectionLimit)])
                            + (if Expiry(r).Some? then ["VALID UNTIL " + Literal(Expiry(r).value)] else []);
  }

  lemma FlagsAre(r: Role)
    ensures |Attributes(r)| >= 8
    ensures forall i :: 0 <= i < 7 ==> Attributes(r)[i] == Flag(Flags(r)[i], Words()[i])
  {
  }

  lemma JoinRest(r: Role)
    ensures Join(Rest(r))
         == ("CONNECTION LIMIT " + IntText(r.connectionLimit))
            + (if Expiry(r).Some? then " " + ("VALID UNTIL " + Literal(Expiry(r).value)) else "")
  {
    if Expiry(r).Some? { assert Rest(r)[1..] == ["VALID UNTIL " + Literal(Expiry(r).value)]; }
  }

  lemma AttributesAre(r: Role)
    ensures Join(Attributes(r)) + ";\n" == AttributesText(Flags(r), r.connectionLimit, Expiry(r))
  {
    AttributesSplit(r);
    assert Attributes(r) == Attributes(r)[..7] + Rest(r);
    JoinFlags(Flags(r), Words(), Attributes(r)[..7], Rest(r));
    JoinRest(r);
    var (flags, limit) := (FlagsText(Flags(r), Words()), IntText(r.connectionLimit));
    match Expiry(r)
    case Some(until) => WithUntil(flags, "CONNECTION LIMIT ", limit, Literal(until));
    case None => WithoutUntil(flags, "CONNECTION LIMIT ", limit);
  }

  lemma WithoutUntil(a: string, b: string, c: string)
    ensures (a + ((b + c) + "")) + ";\n" == a + (b + (c + ";\n"))
  {
  }

  lemma WithUntil(a: string, b: string, c: string, d: string)
    ensures (a + ((b + c) + (" " + ("VALID UNTIL " + d)))) + ";\n"
         == a + (b + (c + (" VALID UNTIL " + (d + ";\n"))))
  {
    assert " " + "VALID UNTIL " == " VALID UNTIL ";
  }

  /** The role as its statement tells it. */
  function Told(r: Role): Role {
    r.(hasPassword := false, validUntil := Expiry(r))
  }

  /** Every printed attribute of a role reads back from its line, whatever follows. */
  lemma RoleReadsBack(r: Role, rest: string)
    ensures ReadRole(Statement(r) + "\n" + rest) == Some((Told(r), rest))
  {
    var t := AttributesText(Flags(r), r.connectionLimit, Expiry(r)) + rest;
    StatementLine(r, rest);
    AttributesAre(r);
    AttributesReadBack(Flags(r), r.connectionLimit, Expiry(r), rest);
    AfterWord(" WITH ", t);
    NamedReadsBack("CREATE ROLE ", r.name, '"', " WITH " + t);
  }

  lemma StatementLine(r: Role, rest: string)
    ensures Statement(r) + "\n" + rest
         == "CREATE ROLE " + (Ident(r.name) + (" WITH " + ((Join(Attributes(r)) + ";\n") + rest)))
  {
    LineOf("CREATE ROLE ", Ident(r.name), " WITH ", Join(Attributes(r)), rest);
  }

  lemma LineOf(a: string, b: string, c: string, d: string, rest: string)
    ensures a + b + c + d + ";" + "\n" + rest == a + (b + (c + ((d + ";\n") + rest)))
  {
    assert ";" + "\n" == ";\n";
  }

  /** So two roles that print alike are equal in everything printed. */
  lemma StatementsTell(r: Role, s: Role)
    requires Statement(r) == Statement(s)
    ensures Told(r) == Told(s)
  {
    RoleReadsBack(r, "");
    RoleReadsBack(s, "");
  }

  // ---------------------------------------------------------------- a membership

  datatype Granted = Granted(parent: string, member: string, admin: bool)

  function ReadGrant(text: string): Option<(Granted, string)> {
    match ReadNamed(text, "GRANT ", '"')
    case None => None
    case Some((parent, t)) =>
      match ReadNamed(t, " TO ", '"')
      case None => None
      case Some((member, u)) =>
        match After(u, ";\n")
        case Some(rest) => Some((Granted(parent, member, false), rest))
        case None =>
          match After(u, " WITH ADMIN OPTION;\n")
          case None => None
          case Some(rest) => Some((Granted(parent, member, true), rest))
  }

  function AdminText(admin: bool): string {
    if admin then " WITH ADMIN OPTION;\n" else ";\n"
  }

  lemma GrantText(m: RoleMembership, rest: string)
    ensures GrantLine(m) + "\n" + rest
         == "GRANT " + (Ident(m.parent) + (" TO " + (Ident(m.member) + (AdminText(m.adminOption) + rest))))
  {
    var option := if m.adminOption then " WITH ADMIN OPTION" else "";
    GrantParts("GRANT ", Ident(m.parent), " TO ", Ident(m.member), option, rest);
    assert option + ";\n" == AdminText(m.adminOption);
  }

  lemma GrantParts(a: string, b: string, c: string, d: string, e: string, rest: string)
    ensures a + b + c + d + e + ";" + "\n" + rest == a + (b + (c + (d + ((e + ";\n") + rest))))
  {
    assert ";" + "\n" == ";\n";
  }

  /** Parent, member and admin option read back from a grant's line. */
  lemma GrantReadsBack(m: RoleMembership, rest: string)
    ensures ReadGrant(GrantLine(m) + "\n" + rest) == Some((Granted(m.parent, m.member, m.adminOption), rest))
  {
    var end := AdminText(m.adminOption) + rest;
    GrantText(m, rest);
    NamedReadsBack("GRANT ", m.parent, '"', " TO " + (Ident(m.member) + end));
    NamedReadsBack(" TO ", m.member, '"', end);
    AfterWord(AdminText(m.adminOption), rest);
    if m.adminOption { NotAfter(end, ";\n"); }
  }

  // ---------------------------------------------------------------- a setting

  datatype Assigned = Assigned(role: string, database: string, key: string, value: string)

  function ReadAssignment(text: string, role: string, database: string): Option<(Assigned, string)> {
    match ReadNamed(text, " SET ", '"')
    case None => None
    case Some((key, t)) =>
      match ReadNamed(t, " TO ", '\'')
      case None => None
      case Some((value, u)) =>
        match After(u, ";\n")
        case None => None
        case Some(rest) => Some((Assigned(role, database, key, value), rest))
  }

  function ReadSetting(text: string): Option<(Assigned, string)> {
    match ReadNamed(text, "ALTER ROLE ", '"')
    case None => None
    case Some((role, t)) =>
      match ReadNamed(t, " IN DATABASE ", '"')
      case Some((database, u)) => ReadAssignment(u, role, database)
      case None => ReadAssignment(t, role, "")
  }

  /** An item is split at its first equals sign. */
  function SplitItem(item: string): (string, string) {
    if item == "" then ("", "")
    else if item[0] == '=' then ("", item[1..])
    else var (key, value) := SplitItem(item[1..]); ([item[0]] + key, value)
  }

  lemma {:induction false} SplitItemIs(item: string)
    requires '=' in item
    ensures SplitItem(item) == (item[..Find(item, '=')], item[Find(item, '=') + 1..])
  {
    if item[0] != '=' {
      SplitItemIs(item[1..]);
      assert item[..Find(item, '=')] == [item[0]] + item[1..][..Find(item[1..], '=')];
    }
  }

  function SetText(key: string, value: string): string {
    " SET " + (Ident(key) + (" TO " + (Literal(value) + ";\n")))
  }

  lemma AssignmentReadsBack(key: string, value: string, role: string, database: string, rest: string)
    ensures ReadAssignment(SetText(key, value) + rest, role, database)
         == Some((Assigned(role, database, key, value), rest))
  {
    SetParts(" SET ", Ident(key), " TO ", Literal(value), ";\n", rest);
    NamedReadsBack(" SET ", key, '"', " TO " + (Literal(value) + (";\n" + rest)));
    NamedReadsBack(" TO ", value, '\'', ";\n" + rest);
    AfterWord(";\n", rest);
  }

  lemma SetParts(a: string, b: string, c: string, d: string, e: string, rest: string)
    ensures (a + (b + (c + (d + e)))) + rest == a + (b + (c + (d + (e + rest))))
  {
  }

  function DatabaseText(database: string): string {
    if database != "" then " IN DATABASE " + Ident(database) else ""
  }

  lemma SettingText(s: RoleSetting, item: string, rest: string)
    requires '=' in item
    ensures var (key, value) := SplitItem(item);
            SettingLine(s, item) + "\n" + rest
            == "ALTER ROLE " + (Ident(s.role) + (DatabaseText(s.database) + (SetText(key, value) + rest)))
  {
    SplitItemIs(item);
    var (key, value) := SplitItem(item);
    SettingParts("ALTER ROLE ", Ident(s.role), DatabaseText(s.database), Ident(key), Literal(value), rest);
  }

  lemma SettingParts(a: string, b: string, c: string, d: string, e: string, rest: string)
    ensures a + b + c + " SET " + d + " TO " + e + ";" + "\n" + rest
         == a + (b + (c + ((" SET " + (d + (" TO " + (e + ";\n")))) + rest)))
  {
    assert ";" + "\n" == ";\n";
  }

  lemma SetStarts(key: string, value: string, rest: string)
    ensures var text := SetText(key, value) + rest; |text| >= 2 && text[0] == ' ' && text[1] == 'S'
  {
  }

  lemma NoDatabase(text: string)
    requires |text| >= 2 && text[1] == 'S'
    ensures After(text, " IN DATABASE ") == None
  {
    var word := " IN DATABASE ";
    if |word| <= |text| { assert text[..|word|][1] == text[1]; }
  }

  lemma ScopeReadsBack(role: string, database: string, end: string)
    requires |end| >= 2 && end[0] == ' ' && end[1] == 'S'
    ensures ReadSetting("ALTER ROLE " + (Ident(role) + (DatabaseText(database) + end)))
         == ReadAssignment(end, role, database)
  {
    if database == "" {
      assert DatabaseText(database) + end == end;
      NamedReadsBack("ALTER ROLE ", role, '"', end);
      NoDatabase(end);
    } else {
      var t := " IN DATABASE " + (Ident(database) + end);
      assert DatabaseText(database) + end == t;
      NamedReadsBack("ALTER ROLE ", role, '"', t);
      NamedReadsBack(" IN DATABASE ", database, '"', end);
    }
  }

  /** Role, database, key and value read back from a setting's line. */
  lemma SettingReadsBack(s: RoleSetting, item: string, rest: string)
    requires '=' in item
    ensures var (key, value) := SplitItem(item);
            ReadSetting(SettingLine(s, item) + "\n" + rest) == Some((Assigned(s.role, s.database, key, value), rest))
  {
    var (key, value) := SplitItem(item);
    SettingText(s, item, rest);
    SetStarts(key, value, rest);
    ScopeReadsBack(s.role, s.database, SetText(key, value) + rest);
    AssignmentReadsBack(key, value, s.role, s.database, rest);
  }

  // ---------------------------------------------------------------- a whole catalog

  /** As many as can be read, and what follows them. */
  function ReadAll<T>(read: string -> Option<(T, string)>, text: string): (seq<T>, string)
    decreases |text|
  {
    match read(text)
    case None => ([], text)
    case Some((x, rest)) =>
      if |rest| < |text| then var (xs, more) := ReadAll(read, rest); ([x] + xs, more) else ([], text)
  }

  function AfterLine(text: string): string {
    if text == "" then "" else if text[0] == '\n' then text[1..] else AfterLine(text[1..])
  }

  /** A section starts with an empty line and a comment. */
  function ReadSection(text: string): string {
    if text != "" && text[0] == '\n' then AfterLine(text[1..]) else text
  }

  function ReadCatalog(text: string): Option<(seq<Role>, seq<Granted>, seq<Assigned>)> {
    var (roles, t) := ReadAll(ReadRole, AfterLine(AfterLine(AfterLine(text))));
    var (grants, u) := ReadAll(ReadGrant, ReadSection(t));
    var (settings, v) := ReadAll(ReadSetting, ReadSection(u));
    if v == "" then Some((roles, grants, settings)) else None
  }

  function ToldAll(roles: seq<Role>): seq<Role> {
    seq(|roles|, i requires 0 <= i < |roles| => Told(roles[i]))
  }

  function GrantedAll(memberships: seq<RoleMembership>): seq<Granted> {
    seq(|memberships|, i requires 0 <= i < |memberships| =>
      Granted(memberships[i].parent, memberships[i].member, memberships[i].adminOption))
  }

  function AssignedItems(s: RoleSetting): seq<Assigned> {
    seq(|s.items|, i requires 0 <= i < |s.items| =>
      Assigned(s.role, s.database, SplitItem(s.items[i]).0, SplitItem(s.items[i]).1))
  }

  function AssignedAll(settings: seq<RoleSetting>): seq<Assigned> {
    if settings == [] then [] else AssignedAll(settings[..|settings| - 1]) + AssignedItems(settings[|settings| - 1])
  }

  /** Each line reads as its entry, whatever follows it. */
  ghost predicate Reads<T>(read: string -> Option<(T, string)>, lines: seq<string>, xs: seq<T>) {
    |lines| == |xs|
    && forall i: nat, tail: string :: i < |lines| ==> read(lines[i] + "\n" + tail) == Some((xs[i], tail))
  }

  lemma ReadsBoth<T>(read: string -> Option<(T, string)>, a: seq<string>, x: seq<T>, b: seq<string>, y: seq<T>)
    requires Reads(read, a, x) && Reads(read, b, y)
    ensures Reads(read, a + b, x + y)
  {
    forall i: nat, tail: string | i < |a + b| ensures read((a + b)[i] + "\n" + tail) == Some(((x + y)[i], tail)) {
      if i < |a| { assert (a + b)[i] == a[i]; } else { assert (a + b)[i] == b[i - |a|]; }
    }
  }

  lemma {:induction false} AllReadBack<T>(
      read: string -> Option<(T, string)>, lines: seq<string>, xs: seq<T>, rest: string)
    requires Reads(read, lines, xs) && read(rest).None?
    ensures ReadAll(read, Text(lines) + rest) == (xs, rest)
  {
    if lines == [] {
      assert Text(lines) + rest == rest;
    } else {
      var tail := Text(lines[1..]) + rest;
      assert Text(lines) + rest == lines[0] + "\n" + tail;
      assert read(lines[0] + "\n" + tail) == Some((xs[0], tail));
      AllReadBack(read, lines[1..], xs[1..], rest);
      assert [xs[0]] + xs[1..] == xs;
    }
  }

  lemma {:induction false} AfterLineIs(line: string, rest: string)
    requires '\n' !in line
    ensures AfterLine(line + "\n" + rest) == rest
  {
    var text := line + "\n" + rest;
    if line == "" {
      assert text[1..] == rest;
    } else {
      assert text[0] == line[0] && text[1..] == line[1..] + "\n" + rest;
      AfterLineIs(line[1..], rest);
    }
  }

  lemma RolesRead(c: Catalog)
    requires RoleLines(c.roles).Ok?
    ensures Reads(ReadRole, RoleLines(c.roles).value, ToldAll(c.roles))
  {
    RoleLinesAre(c.roles);
    var lines := RoleLines(c.roles).value;
    forall i: nat, tail: string | i < |lines|
      ensures ReadRole(lines[i] + "\n" + tail) == Some((ToldAll(c.roles)[i], tail))
    {
      RoleReadsBack(c.roles[i], tail);
    }
  }

  lemma {:induction false} GrantsRead(memberships: seq<RoleMembership>)
    requires GrantLines(memberships).Ok?
    ensures Reads(ReadGrant, GrantLines(memberships).value, GrantedAll(memberships))
    decreases |memberships|
  {
    if memberships != [] {
      var (front, last) := (memberships[..|memberships| - 1], memberships[|memberships| - 1]);
      GrantsRead(front);
      var one := [Granted(last.parent, last.member, last.adminOption)];
      forall i: nat, tail: string | i < 1
        ensures ReadGrant([GrantLine(last)][i] + "\n" + tail) == Some((one[i], tail))
      {
        GrantReadsBack(last, tail);
      }
      ReadsBoth(ReadGrant, GrantLines(front).value, GrantedAll(front), [GrantLine(last)], one);
      assert GrantedAll(memberships) == GrantedAll(front) + one;
    }
  }

  lemma ItemReads(s: RoleSetting, item: string)
    requires '=' in item
    ensures Reads(ReadSetting, [SettingLine(s, item)],
                  [Assigned(s.role, s.database, SplitItem(item).0, SplitItem(item).1)])
  {
    var (lines, one) :=
      ([SettingLine(s, item)], [Assigned(s.role, s.database, SplitItem(item).0, SplitItem(item).1)]);
    forall i: nat, tail: string | i < |lines| ensures ReadSetting(lines[i] + "\n" + tail) == Some((one[i], tail)) {
      SettingReadsBack(s, item, tail);
    }
  }

  lemma {:induction false} ItemsRead(s: RoleSetting, n: nat)
    requires n <= |s.items| && ItemLines(s, n).Ok?
    ensures Reads(ReadSetting, ItemLines(s, n).value, AssignedItems(s)[..n])
    decreases n
  {
    if n > 0 {
      ItemsRead(s, n - 1);
      var (item, entries) := (s.items[n - 1], AssignedItems(s));
      ItemReads(s, item);
      ReadsBoth(ReadSetting, ItemLines(s, n - 1).value, entries[..n - 1], [SettingLine(s, item)], [entries[n - 1]]);
      OneMore(entries, n);
    }
  }

  lemma OneMore<T>(s: seq<T>, n: nat)
    requires 0 < n <= |s|
    ensures s[..n] == s[..n - 1] + [s[n - 1]]
  {
  }

  lemma {:induction false} SettingsRead(settings: seq<RoleSetting>)
    requires SettingLines(settings).Ok?
    ensures Reads(ReadSetting, SettingLines(settings).value, AssignedAll(settings))
    decreases |settings|
  {
    if settings != [] {
      var (front, last) := (settings[..|settings| - 1], settings[|settings| - 1]);
      SettingsRead(front);
      ItemsRead(last, |last.items|);
      assert AssignedItems(last)[..|last.items|] == AssignedItems(last);
      ReadsBoth(ReadSetting, SettingLines(front).value, AssignedAll(front),
                ItemLines(last, |last.items|).value, AssignedItems(last));
    }
  }

  // ---------------------------------------------------------------- the sections

  lemma NotAtStart(text: string)
    requires text == "" || text[0] !in {'C', 'G', 'A'}
    ensures ReadRole(text).None? && ReadGrant(text).None? && ReadSetting(text).None?
  {
    NotAfter(text, "CREATE ROLE ");
    NotAfter(text, "GRANT ");
    NotAfter(text, "ALTER ROLE ");
  }

  lemma SettingIsNoGrant(text: string)
    requires text == "" || text[0] == 'A'
    ensures ReadGrant(text).None?
  {
    NotAfter(text, "GRANT ");
  }

  lemma TextBegins(lines: seq<string>, c: char)
    requires AllBegin(lines, c)
    ensures Text(lines) == "" || Text(lines)[0] == c
  {
  }

  /** The comment over a section is skipped with the empty line before it. */
  lemma SectionIsSkipped(title: string, rest: string)
    requires '\n' !in title
    ensures ReadSection(Text(["", title]) + rest) == rest
  {
    var text := Text(["", title]) + rest;
    TextOfOne("");
    TextOfOne(title);
    TextOfBoth([""], [title]);
    assert [""] + [title] == ["", title];
    assert text == "\n" + (title + "\n" + rest);
    assert text[0] == '\n' && text[1..] == title + "\n" + rest;
    AfterLineIs(title, rest);
  }

  function SettingsText(c: Catalog, items: seq<string>): string {
    (if c.settings != [] then Text(["", SETTINGS]) else "") + Text(items)
  }

  lemma TailText(c: Catalog, grants: seq<string>, items: seq<string>)
    ensures Text(Tail(c, grants, items))
         == (if c.memberships != [] then Text(["", MEMBERSHIPS]) else "") + (Text(grants) + SettingsText(c, items))
  {
    var a := if c.memberships != [] then ["", MEMBERSHIPS] else [];
    var b := if c.settings != [] then ["", SETTINGS] else [];
    TextOfBoth(a + grants + b, items);
    TextOfBoth(a + grants, b);
    TextOfBoth(a, grants);
    assert Text([]) == "";
    FourTexts(Text(a), Text(grants), Text(b), Text(items));
  }

  lemma FourTexts(a: string, b: string, c: string, d: string)
    ensures a + b + c + d == a + (b + (c + d))
  {
  }

  lemma TitlesAreLines()
    ensures '\n' !in MEMBERSHIPS && '\n' !in SETTINGS && '\n' !in ORIGIN && '\n' !in WARNING
  {
    SectionsAreNotes();
    OriginIsNote();
    WarningIsNote();
  }

  lemma HeaderIsSkipped(rest: string)
    ensures AfterLine(AfterLine(AfterLine(Text(HEADER) + rest))) == rest
  {
    TitlesAreLines();
    HeaderText(rest);
    AfterLineIs(ORIGIN, WARNING + "\n" + ("" + "\n" + rest));
    AfterLineIs(WARNING, "" + "\n" + rest);
    AfterLineIs("", rest);
  }

  lemma HeaderText(rest: string)
    ensures Text(HEADER) + rest == ORIGIN + "\n" + (WARNING + "\n" + ("" + "\n" + rest))
  {
    ThreeLines(ORIGIN, WARNING, "", rest);
  }

  lemma ThreeLines(a: string, b: string, c: string, rest: string)
    ensures Text([a, b, c]) + rest == a + "\n" + (b + "\n" + (c + "\n" + rest))
  {
    TextOfOne(a);
    TextOfOne(b);
    TextOfOne(c);
    TextOfBoth([a] + [b], [c]);
    TextOfBoth([a], [b]);
    assert [a, b, c] == [a] + [b] + [c];
  }

  lemma TextOfOne(line: string)
    ensures Text([line]) == line + "\n"
  {
    assert [line][1..] == [];
    assert line + "\n" + "" == line + "\n";
  }

  lemma SettingsReadBack(c: Catalog, items: seq<string>)
    requires SettingLines(c.settings) == Ok(items)
    ensures ReadAll(ReadSetting, ReadSection(SettingsText(c, items))) == (AssignedAll(c.settings), "")
  {
    SettingsRead(c.settings);
    SettingLinesAre(c.settings);
    TextBegins(items, 'A');
    TitlesAreLines();
    if c.settings != [] { SectionIsSkipped(SETTINGS, Text(items)); }
    NotAtStart("");
    AllReadBack(ReadSetting, items, AssignedAll(c.settings), "");
    assert Text(items) + "" == Text(items) && "" + Text(items) == Text(items);
  }

  /** The grants' section, up to the settings' text. */
  lemma GrantsReadBack(c: Catalog, grants: seq<string>, items: seq<string>)
    requires GrantLines(c.memberships) == Ok(grants) && SettingLines(c.settings) == Ok(items)
    ensures var (read, rest) := ReadAll(ReadGrant, ReadSection(Text(Tail(c, grants, items))));
            && read == GrantedAll(c.memberships)
            && (c.memberships != [] || c.settings == [] ==> rest == SettingsText(c, items))
            && (c.memberships == [] && c.settings != [] ==> rest == Text(items))
  {
    var rest := SettingsText(c, items);
    GrantsRead(c.memberships);
    SettingLinesAre(c.settings);
    TextBegins(items, 'A');
    TitlesAreLines();
    TailText(c, grants, items);
    if c.memberships != [] {
      SectionIsSkipped(MEMBERSHIPS, Text(grants) + rest);
      SettingsAreNoGrant(c, items);
      AllReadBack(ReadGrant, grants, GrantedAll(c.memberships), rest);
    } else {
      assert grants == [] && "" + ("" + rest) == rest;
      if c.settings != [] { SectionIsSkipped(SETTINGS, Text(items)); }
      SettingIsNoGrant(Text(items));
      assert c.settings == [] ==> rest == "" + Text(items) == Text(items);
      SettingsSection(c, items);
    }
  }

  lemma SettingsAreNoGrant(c: Catalog, items: seq<string>)
    requires SettingLines(c.settings) == Ok(items)
    ensures ReadGrant(SettingsText(c, items)).None?
  {
    SettingLinesAre(c.settings);
    if c.settings == [] {
      assert items == [] && SettingsText(c, items) == "";
      NotAtStart("");
    } else {
      assert SettingsText(c, items)[0] == '\n';
      NotAtStart(SettingsText(c, items));
    }
  }

  lemma SettingsSection(c: Catalog, items: seq<string>)
    requires SettingLines(c.settings) == Ok(items)
    ensures ReadSection(SettingsText(c, items)) == Text(items) && ReadSection(Text(items)) == Text(items)
  {
    SettingLinesAre(c.settings);
    TextBegins(items, 'A');
    TitlesAreLines();
    if c.settings != [] {
      SectionIsSkipped(SETTINGS, Text(items));
    } else {
      assert "" + Text(items) == Text(items);
    }
  }

  lemma TailIsNoRole(c: Catalog, grants: seq<string>, items: seq<string>)
    requires GrantLines(c.memberships) == Ok(grants) && SettingLines(c.settings) == Ok(items)
    ensures ReadRole(Text(Tail(c, grants, items))).None?
  {
    if c.memberships == [] && c.settings == [] {
      assert Tail(c, grants, items) == [];
    } else {
      assert Tail(c, grants, items)[0] == "" && Text(Tail(c, grants, items))[0] == '\n';
    }
    NotAtStart(Text(Tail(c, grants, items)));
  }

  /** Whatever the catalog: what the printer prints reads back as all that it tells of the roles,
      the memberships and the settings, in their order. */
  lemma CatalogReadsBack(c: Catalog)
    requires Materialize(c).Ok?
    ensures ReadCatalog(Materialize(c).value)
         == Some((ToldAll(c.roles), GrantedAll(c.memberships), AssignedAll(c.settings)))
  {
    var (lines, grants) := (RoleLines(c.roles).value, GrantLines(c.memberships).value);
    var items := SettingLines(c.settings).value;
    var tail := Text(Tail(c, grants, items));
    PrintedIs(c, lines, grants, items);
    HeaderIsSkipped(Text(lines) + tail);
    RolesRead(c);
    TailIsNoRole(c, grants, items);
    AllReadBack(ReadRole, lines, ToldAll(c.roles), tail);
    GrantsReadBack(c, grants, items);
    SettingsSection(c, items);
    SettingsReadBack(c, items);
  }

  /** So two catalogs that print the same text tell the same. */
  lemma PrintedCatalogsTell(c: Catalog, d: Catalog)
    requires Materialize(c).Ok? && Materialize(d) == Materialize(c)
    ensures ToldAll(c.roles) == ToldAll(d.roles) && GrantedAll(c.memberships) == GrantedAll(d.memberships)
    ensures AssignedAll(c.settings) == AssignedAll(d.settings)
  {
    CatalogReadsBack(c);
    CatalogReadsBack(d);
  }
}
