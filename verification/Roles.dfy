/** The printer of the role catalog and the loader that reads its text back. */
module Roles {
  import opened Common

  datatype Role = Role(
    name: string, hasPassword: bool, superuser: bool, inherit: bool, createRole: bool, createDb: bool,
    canLogin: bool, replication: bool, bypassRls: bool, connectionLimit: int, validUntil: Option<string>)

  datatype RoleMembership = RoleMembership(
    parent: string, member: string, inheritOption: bool, setOption: bool, adminOption: bool)

  datatype RoleSetting = RoleSetting(role: string, database: string, items: seq<string>)

  datatype Catalog = Catalog(roles: seq<Role>, memberships: seq<RoleMembership>, settings: seq<RoleSetting>)

  datatype PrintError = CredentialBearing(role: string) | NonDefaultMembership | UnexpectedSetting(item: string)

  datatype LoadError = UnexpectedStatement | DuplicateRole(name: string)

  // ---------------------------------------------------------------- quoting

  function Double(s: string, q: char): string {
    if s == [] then [] else (if s[0] == q then [q, q] else [s[0]]) + Double(s[1..], q)
  }

  function Quoted(s: string, q: char): string {
    [q] + Double(s, q) + [q]
  }

  function Ident(s: string): string { Quoted(s, '"') }

  function Literal(s: string): string { Quoted(s, '\'') }

  /** Reads the rest of a quoted text after its opening quote, and what follows it. */
  function ReadBody(text: string, q: char): Option<(string, string)> {
    if text == [] then None
    else if text[0] != q then
      match ReadBody(text[1..], q)
      case None => None
      case Some((s, rest)) => Some(([text[0]] + s, rest))
    else if |text| > 1 && text[1] == q then
      match ReadBody(text[2..], q)
      case None => None
      case Some((s, rest)) => Some(([q] + s, rest))
    else Some(([], text[1..]))
  }

  function ReadQuoted(text: string, q: char): Option<(string, string)> {
    if text == [] || text[0] != q then None else ReadBody(text[1..], q)
  }

  // ---------------------------------------------------------------- printing

  function IntText(n: int): string {
    if n < 0 then "-" + Digits(-n) else Digits(n)
  }

  function Join(words: seq<string>): string {
    if words == [] then "" else if |words| == 1 then words[0] else words[0] + " " + Join(words[1..])
  }

  function Flag(value: bool, word: string): string {
    if value then word else "NO" + word
  }

  function Attributes(r: Role): seq<string> {
    [ Flag(r.superuser, "SUPERUSER"),
      Flag(r.inherit, "INHERIT"),
      Flag(r.createRole, "CREATEROLE"),
      Flag(r.createDb, "CREATEDB"),
      Flag(r.canLogin, "LOGIN"),
      Flag(r.replication, "REPLICATION"),
      Flag(r.bypassRls, "BYPASSRLS"),
      "CONNECTION LIMIT " + IntText(r.connectionLimit) ]
    + (if r.validUntil.Some? && r.validUntil.value != "" then ["VALID UNTIL " + Literal(r.validUntil.value)] else [])
  }

  function Statement(r: Role): string {
    "CREATE ROLE " + Ident(r.name) + " WITH " + Join(Attributes(r)) + ";"
  }

  function GrantLine(m: RoleMembership): string {
    "GRANT " + Ident(m.parent) + " TO " + Ident(m.member) + (if m.adminOption then " WITH ADMIN OPTION" else "") + ";"
  }

  /** Where `c` first stands in `s`, or its length. */
  function Find(s: string, c: char): (n: nat)
    ensures n <= |s| && (n < |s| ==> s[n] == c) && forall i :: 0 <= i < n ==> s[i] != c
  {
    if s == [] || s[0] == c then 0 else 1 + Find(s[1..], c)
  }

  function SettingLine(s: RoleSetting, item: string): string
    requires '=' in item
  {
    var at := Find(item, '=');
    "ALTER ROLE " + Ident(s.role) + (if s.database != "" then " IN DATABASE " + Ident(s.database) else "")
    + " SET " + Ident(item[..at]) + " TO " + Literal(item[at + 1..]) + ";"
  }

  // The two long lines are written in halves, because the verifier goes through the characters
  // of a text one short literal at a time (NoteInTwo puts the halves together).
  const ORIGIN: string := "-- Generated from the audited " + "Request Engine role catalog."
  const WARNING: string := "-- Credentials are intentionally " + "forbidden from this payload."
  const MEMBERSHIPS: string := "-- Role memberships"
  const SETTINGS: string := "-- Role settings"
  const HEADER: seq<string> := [ORIGIN, WARNING, ""]

  function RoleLines(roles: seq<Role>): Result<seq<string>, PrintError> {
    if roles == [] then Ok([])
    else
      var last := roles[|roles| - 1];
      match RoleLines(roles[..|roles| - 1])
      case Err(e) => Err(e)
      case Ok(lines) => if last.hasPassword then Err(CredentialBearing(last.name)) else Ok(lines + [Statement(last)])
  }

  function GrantLines(memberships: seq<RoleMembership>): Result<seq<string>, PrintError> {
    if memberships == [] then Ok([])
    else
      var last := memberships[|memberships| - 1];
      match GrantLines(memberships[..|memberships| - 1])
      case Err(e) => Err(e)
      case Ok(lines) =>
        if !last.inheritOption || !last.setOption then Err(NonDefaultMembership) else Ok(lines + [GrantLine(last)])
  }

  function ItemLines(s: RoleSetting, n: nat): Result<seq<string>, PrintError>
    requires n <= |s.items|
  {
    if n == 0 then Ok([])
    else
      match ItemLines(s, n - 1)
      case Err(e) => Err(e)
      case Ok(lines) =>
        if '=' !in s.items[n - 1] then Err(UnexpectedSetting(s.items[n - 1]))
        else Ok(lines + [SettingLine(s, s.items[n - 1])])
  }

  function SettingLines(settings: seq<RoleSetting>): Result<seq<string>, PrintError> {
    if settings == [] then Ok([])
    else
      var last := settings[|settings| - 1];
      match SettingLines(settings[..|settings| - 1])
      case Err(e) => Err(e)
      case Ok(lines) =>
        match ItemLines(last, |last.items|)
        case Err(e) => Err(e)
        case Ok(more) => Ok(lines + more)
  }

  /** Each line with its line feed. */
  function Text(lines: seq<string>): string {
    if lines == [] then "" else lines[0] + "\n" + Text(lines[1..])
  }

  /** The sections after the roles. */
  function Tail(c: Catalog, grants: seq<string>, items: seq<string>): seq<string> {
    (if c.memberships != [] then ["", MEMBERSHIPS] else []) + grants
    + (if c.settings != [] then ["", SETTINGS] else []) + items
  }

  function PrintedLines(c: Catalog): Result<seq<string>, PrintError> {
    match RoleLines(c.roles)
    case Err(e) => Err(e)
    case Ok(roles) =>
      match GrantLines(c.memberships)
      case Err(e) => Err(e)
      case Ok(grants) =>
        match SettingLines(c.settings)
        case Err(e) => Err(e)
        case Ok(items) => Ok(HEADER + roles + Tail(c, grants, items))
  }

  function Materialize(c: Catalog): Result<string, PrintError> {
    match PrintedLines(c)
    case Err(e) => Err(e)
    case Ok(lines) => Ok(Text(lines))
  }

  /** The printer as it runs: lines appended section by section, stopping at the first refusal. */
  method Print(c: Catalog) returns (text: Result<string, PrintError>)
    ensures text == Materialize(c)
  {
    var roles := PrintRoles(c.roles);
    if roles.Err? {
      return Err(roles.error);
    }
    var lines := HEADER + roles.value;
    var grants := PrintGrants(c.memberships);
    if grants.Err? {
      return Err(grants.error);
    }
    var items := PrintSettings(c.settings);
    if items.Err? {
      return Err(items.error);
    }
    lines := lines + Tail(c, grants.value, items.value);
    return Ok(Text(lines));
  }

  method PrintRoles(roles: seq<Role>) returns (lines: Result<seq<string>, PrintError>)
    ensures lines == RoleLines(roles)
  {
    var done: seq<string> := [];
    for i := 0 to |roles|
      invariant RoleLines(roles[..i]) == Ok(done)
    {
      assert roles[..i + 1][..i] == roles[..i];
      if roles[i].hasPassword {
        RolesStop(roles, i + 1);
        return Err(CredentialBearing(roles[i].name));
      }
      done := done + [Statement(roles[i])];
    }
    assert roles[..|roles|] == roles;
    return Ok(done);
  }

  method PrintGrants(memberships: seq<RoleMembership>) returns (lines: Result<seq<string>, PrintError>)
    ensures lines == GrantLines(memberships)
  {
    var done: seq<string> := [];
    for i := 0 to |memberships|
      invariant GrantLines(memberships[..i]) == Ok(done)
    {
      assert memberships[..i + 1][..i] == memberships[..i];
      if !memberships[i].inheritOption || !memberships[i].setOption {
        GrantsStop(memberships, i + 1);
        return Err(NonDefaultMembership);
      }
      done := done + [GrantLine(memberships[i])];
    }
    assert memberships[..|memberships|] == memberships;
    return Ok(done);
  }

  method PrintSettings(settings: seq<RoleSetting>) returns (lines: Result<seq<string>, PrintError>)
    ensures lines == SettingLines(settings)
  {
    var done: seq<string> := [];
    for i := 0 to |settings|
      invariant SettingLines(settings[..i]) == Ok(done)
    {
      assert settings[..i + 1][..i] == settings[..i];
      var items := PrintItems(settings[i]);
      if items.Err? {
        SettingsStop(settings, i + 1);
        return Err(items.error);
      }
      done := done + items.value;
    }
    assert settings[..|settings|] == settings;
    return Ok(done);
  }

  method PrintItems(s: RoleSetting) returns (lines: Result<seq<string>, PrintError>)
    ensures lines == ItemLines(s, |s.items|)
  {
    var done: seq<string> := [];
    for j := 0 to |s.items|
      invariant ItemLines(s, j) == Ok(done)
    {
      if '=' !in s.items[j] {
        ItemsStop(s, j + 1, |s.items|);
        return Err(UnexpectedSetting(s.items[j]));
      }
      done := done + [SettingLine(s, s.items[j])];
    }
    return Ok(done);
  }

  /** An error in a first part is the error of the whole. */
  lemma {:induction false} RolesStop(roles: seq<Role>, n: nat)
    requires n <= |roles| && RoleLines(roles[..n]).Err?
    ensures RoleLines(roles) == RoleLines(roles[..n])
    decreases |roles|
  {
    if n == |roles| {
      assert roles[..n] == roles;
    } else {
      assert roles[..|roles| - 1][..n] == roles[..n];
      RolesStop(roles[..|roles| - 1], n);
    }
  }

  lemma {:induction false} GrantsStop(memberships: seq<RoleMembership>, n: nat)
    requires n <= |memberships| && GrantLines(memberships[..n]).Err?
    ensures GrantLines(memberships) == GrantLines(memberships[..n])
    decreases |memberships|
  {
    if n == |memberships| {
      assert memberships[..n] == memberships;
    } else {
      assert memberships[..|memberships| - 1][..n] == memberships[..n];
      GrantsStop(memberships[..|memberships| - 1], n);
    }
  }

  lemma {:induction false} SettingsStop(settings: seq<RoleSetting>, n: nat)
    requires n <= |settings| && SettingLines(settings[..n]).Err?
    ensures SettingLines(settings) == SettingLines(settings[..n])
    decreases |settings|
  {
    if n == |settings| {
      assert settings[..n] == settings;
    } else {
      assert settings[..|settings| - 1][..n] == settings[..n];
      SettingsStop(settings[..|settings| - 1], n);
    }
  }

  lemma {:induction false} ItemsStop(s: RoleSetting, n: nat, m: nat)
    requires n <= m <= |s.items| && ItemLines(s, n).Err?
    ensures ItemLines(s, m) == ItemLines(s, n)
    decreases m
  {
    if n < m { ItemsStop(s, n, m - 1); }
  }

  // ---------------------------------------------------------------- loading

  /** Where Python's splitlines breaks a line. */
  predicate IsBreak(c: char) {
    c == '\n' || c == '\r' || '\U{0b}' <= c <= '\U{0c}' || '\U{1c}' <= c <= '\U{1e}'
    || c == '\U{85}' || c == '\U{2028}' || c == '\U{2029}'
  }

  /** What Python's strip removes. */
  predicate IsSpace(c: char) {
    '\U{09}' <= c <= '\U{0d}' || '\U{1c}' <= c <= '\U{20}' || c == '\U{85}' || c == '\U{a0}' || c == '\U{1680}'
    || '\U{2000}' <= c <= '\U{200a}' || c == '\U{2028}' || c == '\U{2029}' || c == '\U{202f}'
    || c == '\U{205f}' || c == '\U{3000}'
  }

  predicate Unbroken(s: string) {
    forall i :: 0 <= i < |s| ==> !IsBreak(s[i])
  }

  function FirstBreak(s: string): (n: nat)
    ensures n <= |s| && (n < |s| ==> IsBreak(s[n])) && Unbroken(s[..n])
  {
    if s == [] || IsBreak(s[0]) then 0
    else
      var n := 1 + FirstBreak(s[1..]);
      assert s[..n] == [s[0]] + s[1..][..n - 1];
      n
  }

  function SplitLines(text: string): seq<string>
    decreases |text|
  {
    if text == [] then []
    else
      var n := FirstBreak(text);
      if n == |text| then [text]
      else
        var width := if text[n] == '\r' && n + 1 < |text| && text[n + 1] == '\n' then 2 else 1;
        [text[..n]] + SplitLines(text[n + width..])
  }

  function Strip(s: string): string {
    if s == [] then []
    else if IsSpace(s[0]) then Strip(s[1..])
    else if IsSpace(s[|s| - 1]) then Strip(s[..|s| - 1])
    else s
  }

  predicate Starts(s: string, prefix: string) {
    |prefix| <= |s| && s[..|prefix|] == prefix
  }

  const OPENING: string := "CREATE ROLE \""
  const CLOSING: string := "\" WITH "

  /** The role name when the whole statement has the form of a role statement. */
  function RoleName(s: string): Option<string> {
    if !Starts(s, OPENING) then None
    else
      var rest := s[|OPENING|..];
      var n := Find(rest, '"');
      if n == 0 || !Starts(rest[n..], CLOSING) then None
      else
        var attributes := rest[n + |CLOSING|..];
        if |attributes| < 2 || attributes[|attributes| - 1] != ';' || '\n' in attributes then None else Some(rest[..n])
  }

  function LoadLines(lines: seq<string>, found: map<string, string>): Result<map<string, string>, LoadError> {
    if lines == [] then Ok(found)
    else
      var statement := Strip(lines[0]);
      if statement == "" || Starts(statement, "--") then LoadLines(lines[1..], found)
      else if RoleName(statement).None? then Err(UnexpectedStatement)
      else if RoleName(statement).value in found then Err(DuplicateRole(RoleName(statement).value))
      else LoadLines(lines[1..], found[RoleName(statement).value := statement])
  }

  function Load(text: string): Result<map<string, string>, LoadError> {
    LoadLines(SplitLines(text), map[])
  }

  /** The loader as it runs: a dictionary filled line by line. */
  method LoadRoleStatements(text: string) returns (loaded: Result<map<string, string>, LoadError>)
    ensures loaded == Load(text)
  {
    var lines := SplitLines(text);
    var statements: map<string, string> := map[];
    for i := 0 to |lines|
      invariant Load(text) == LoadLines(lines[i..], statements)
    {
      assert lines[i..][0] == lines[i] && lines[i..][1..] == lines[i + 1..];
      var statement := Strip(lines[i]);
      if statement == "" || Starts(statement, "--") {
        continue;
      }
      var name := RoleName(statement);
      if name.None? {
        return Err(UnexpectedStatement);
      }
      if name.value in statements {
        return Err(DuplicateRole(name.value));
      }
      statements := statements[name.value := statement];
    }
    return Ok(statements);
  }
}
