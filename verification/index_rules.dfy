/**
  Index rules and where they come from (backend/app/services/index_rules.py).

  A rule is a named pattern. The service reads rules from an override store
  when one is given, else from a database table or a JSON file, as the
  `INDEX_RULE_SOURCE` setting says, and keeps the store it chose. The file
  system and the database are outside the model: the file's state and the
  table's rows are parameters, as is Python's `str.lower`.
 */
module IndexRules {
  import opened Results
  import opened Text
  import opened Json
  import opened Database

  /** `IndexRule`. */
  datatype IndexRule = IndexRule(name: string, pattern: string, description: string, enabled: bool)

  /** `IndexRule.to_dict`. */
  function ToDict(rule: IndexRule): Json {
    JObj([
      ("name", JStr(rule.name)),
      ("pattern", JStr(rule.pattern)),
      ("description", JStr(rule.description)),
      ("enabled", JBool(rule.enabled))])
  }

  /** `str(item.get(key, default))` on a dict item. */
  function FieldStr(fields: seq<(string, Json)>, key: string, default: string): string {
    match Lookup(fields, key)
    case Some(v) => Str(v)
    case None => default
  }

  /** `bool(item.get("enabled", True))`. */
  function FieldEnabled(fields: seq<(string, Json)>): bool {
    match Lookup(fields, "enabled")
    case Some(v) => Truthy(v)
    case None => true
  }

  /** The rule one dict item describes, before validation. */
  function RuleOf(fields: seq<(string, Json)>): IndexRule {
    IndexRule(FieldStr(fields, "name", ""), FieldStr(fields, "pattern", ""),
      FieldStr(fields, "description", ""), FieldEnabled(fields))
  }

  /** A rule the file store accepts: it has a name and a pattern. */
  predicate Valid(rule: IndexRule) {
    rule.name != [] && rule.pattern != []
  }

  /**
    The loop of `_load_sync` over the `rules` entries: items that are not
    dicts are skipped, as are rules without a name or a pattern.
   */
  function ParseRules(items: seq<Json>): (r: seq<IndexRule>)
    ensures |r| <= |items|
    ensures forall k :: 0 <= k < |r| ==> Valid(r[k])
    ensures (forall k :: 0 <= k < |items| ==> !items[k].JObj?) ==> r == []
  {
    if items == [] then []
    else
      var rest := ParseRules(items[1..]);
      if items[0].JObj? && Valid(RuleOf(items[0].fields)) then [RuleOf(items[0].fields)] + rest else rest
  }

  /** What lies at the rules file's path. */
  datatype RulesFile =
    | Missing
    | Unreadable            // reading or JSON decoding failed
    | Parsed(raw: Json)

  /**
    `FileIndexRuleStore._load_sync`. A missing or undecodable file yields
    no rules; a decoded file that is not a dict, or whose `rules` value
    cannot be iterated, raises.
   */
  function LoadSync(file: RulesFile): (r: Result<seq<IndexRule>>)
    ensures !file.Parsed? ==> r == Ok([])
    ensures file.Parsed? ==> (r.Err? <==> !file.raw.JObj? || Iterate(Get(file.raw, "rules", JList([])).value).Err?)
    ensures r.Ok? ==> forall k :: 0 <= k < |r.value| ==> Valid(r.value[k])
  {
    match file
    case Missing => Ok([])
    case Unreadable => Ok([])
    case Parsed(raw) =>
      match Get(raw, "rules", JList([]))
      case Err(e) => Err(e)
      case Ok(entries) =>
        match Iterate(entries)
        case Err(e) => Err(e)
        case Ok(items) => Ok(ParseRules(items))
  }

  function RuleDicts(rules: seq<IndexRule>): (r: seq<Json>)
    ensures |r| == |rules|
    ensures forall k :: 0 <= k < |r| ==> r[k] == ToDict(rules[k])
  {
    seq(|rules|, k requires 0 <= k < |rules| => ToDict(rules[k]))
  }

  /** The dict has the four keys, in the order `to_dict` writes them. */
  lemma ToDictKeys(rule: IndexRule)
    ensures ToDict(rule).JObj? && Keys(ToDict(rule).fields) == ["name", "pattern", "description", "enabled"]
  {
  }

  /** A rule reads back from its own dict. */
  lemma RuleOfToDict(rule: IndexRule)
    ensures RuleOf(ToDict(rule).fields) == rule
  {
    var f := ToDict(rule).fields;
    assert DistinctKeys(f);
    LookupDistinct(f, 0);
    LookupDistinct(f, 1);
    LookupDistinct(f, 2);
    LookupDistinct(f, 3);
  }

  lemma {:induction false} ParseRuleDicts(rules: seq<IndexRule>)
    requires forall k :: 0 <= k < |rules| ==> Valid(rules[k])
    ensures ParseRules(RuleDicts(rules)) == rules
    decreases |rules|
  {
    if rules != [] {
      var dicts := RuleDicts(rules);
      assert dicts[0] == ToDict(rules[0]) && dicts[1..] == RuleDicts(rules[1..]);
      forall k | 0 <= k < |rules| - 1 ensures Valid(rules[1..][k]) {
        assert rules[1..][k] == rules[k + 1];
      }
      ParseRuleDicts(rules[1..]);
      ParseValidHead(dicts, rules[0]);
      assert [rules[0]] + rules[1..] == rules;
    }
  }

  /** A list whose first item is a valid rule's dict parses to that rule, then the rest. */
  lemma ParseValidHead(items: seq<Json>, rule: IndexRule)
    requires items != [] && items[0] == ToDict(rule) && Valid(rule)
    ensures ParseRules(items) == [rule] + ParseRules(items[1..])
  {
    RuleOfToDict(rule);
  }

  /** A file holding `{"rules": items}` yields the valid rules among `items`. */
  lemma LoadSyncOf(items: seq<Json>)
    ensures LoadSync(Parsed(JObj([("rules", JList(items))]))) == Ok(ParseRules(items))
  {
    assert Get(JObj([("rules", JList(items))]), "rules", JList([])) == Ok(JList(items));
  }

  /**
    A file holding `{"rules": [rule.to_dict() for rule in rules]}` loads
    back exactly `rules`, in order, when every rule has a name and a
    pattern.
   */
  lemma LoadSyncRoundTrip(rules: seq<IndexRule>)
    requires forall k :: 0 <= k < |rules| ==> Valid(rules[k])
    ensures LoadSync(Parsed(JObj([("rules", JList(RuleDicts(rules)))]))) == Ok(rules)
  {
    LoadSyncOf(RuleDicts(rules));
    ParseRuleDicts(rules);
  }

  /**
    The file store's own test: one rule with every field given, disabled,
    loads as that rule.
   */
  lemma LoadSyncExample()
    ensures LoadSync(Parsed(JObj([("rules", JList([JObj([
      ("name", JStr("rule-a")), ("pattern", JStr("foo")),
      ("description", JStr("test rule")), ("enabled", JBool(false))])]))])))
      == Ok([IndexRule("rule-a", "foo", "test rule", false)])
  {
    var rule := IndexRule("rule-a", "foo", "test rule", false);
    assert RuleDicts([rule]) == [ToDict(rule)];
    LoadSyncRoundTrip([rule]);
  }

  /** An entry without a pattern, or one that is not a dict, is dropped. */
  lemma LoadSyncSkipsInvalid(rule: IndexRule)
    requires Valid(rule)
    ensures LoadSync(Parsed(JObj([("rules", JList([JObj([("name", JStr("x"))]), JStr("y"), ToDict(rule)]))])))
      == Ok([rule])
  {
    var noPattern := JObj([("name", JStr("x"))]);
    var items := [noPattern, JStr("y"), ToDict(rule)];
    LoadSyncOf(items);
    RuleOfToDict(rule);
    assert ParseRules([ToDict(rule)]) == [rule];
    assert items[1..][1..] == [ToDict(rule)];
    assert ParseRules(items[1..]) == [rule];
    assert RuleOf(noPattern.fields).pattern == [];
  }

  // Table names

  predicate IsAsciiLetter(c: char) {
    'A' <= c <= 'Z' || 'a' <= c <= 'z'
  }

  predicate IsAsciiDigit(c: char) {
    '0' <= c <= '9'
  }

  /** `[A-Za-z_][A-Za-z0-9_]*` matching the whole of `s`. */
  predicate IsIdentifier(s: string) {
    && |s| >= 1
    && (IsAsciiLetter(s[0]) || s[0] == '_')
    && forall k :: 1 <= k < |s| ==> IsAsciiLetter(s[k]) || IsAsciiDigit(s[k]) || s[k] == '_'
  }

  /**
    Where Python's `$` matches (without MULTILINE): at the end of the
    string, or just before a newline that ends it.
   */
  predicate DollarAt(s: string, i: int) {
    i == |s| || (i == |s| - 1 && 0 <= i && s[i] == '\n')
  }

  /**
    `re.match(r"^[A-Za-z_][A-Za-z0-9_]*$", s)`: some identifier prefix of
    `s` is followed by a position where `$` matches.
   */
  predicate PatternMatches(s: string) {
    exists n :: 1 <= n <= |s| && IsIdentifier(s[..n]) && DollarAt(s, n)
  }

  /** `_sanitize_table_name` as written. */
  function SanitizeAsWritten(table: string): (r: Result<string>)
    ensures r.Ok? <==> PatternMatches(table)
    ensures r.Ok? ==> r.value == table
  {
    if PatternMatches(table) then Ok(table) else Err(ValueError("Unsafe index rule table name"))
  }

  /**
    The check as written accepts exactly the identifiers and the
    identifiers followed by one newline.
   */
  lemma PatternMatchesIff(s: string)
    ensures PatternMatches(s) <==> IsIdentifier(s) || (|s| >= 2 && s[|s| - 1] == '\n' && IsIdentifier(s[..|s| - 1]))
  {
    if IsIdentifier(s) {
      assert s[..|s|] == s;
      assert DollarAt(s, |s|);
    }
    if |s| >= 2 && s[|s| - 1] == '\n' && IsIdentifier(s[..|s| - 1]) {
      assert DollarAt(s, |s| - 1);
    }
    if PatternMatches(s) {
      var n :| 1 <= n <= |s| && IsIdentifier(s[..n]) && DollarAt(s, n);
      if n == |s| {
        assert s[..n] == s;
      }
    }
  }

  /** So a table name with a trailing newline passes the check as written. */
  lemma TrailingNewlineAccepted()
    ensures SanitizeAsWritten("t\n") == Ok("t\n")
    ensures !IsIdentifier("t\n")
  {
    PatternMatchesIff("t\n");
    assert "t\n"[..1] == "t";
  }

  /**
    `_sanitize_table_name` as intended: only a whole identifier is a safe
    table name.
   */
  function Sanitize(table: string): (r: Result<string>)
    ensures r.Ok? <==> IsIdentifier(table)
    ensures r.Ok? ==> r.value == table
    ensures r.Err? ==> r.error == ValueError("Unsafe index rule table name")
  {
    if IsIdentifier(table) then Ok(table) else Err(ValueError("Unsafe index rule table name"))
  }

  /** The intended check rejects what it should and agrees with the written one elsewhere. */
  lemma SanitizeRefinesAsWritten(table: string)
    ensures Sanitize(table).Ok? ==> SanitizeAsWritten(table) == Sanitize(table)
    ensures Sanitize("t\n").Err? && Sanitize("invalid-name").Err?
  {
    PatternMatchesIff(table);
    assert "t\n"[1] == '\n';
    assert "invalid-name"[7] == '-';
  }

  // Stores and the service

  /** The settings `IndexRuleService` reads from its configuration. */
  datatype IndexSettings = IndexSettings(
    source: Option<string>,   // INDEX_RULE_SOURCE
    rulesPath: string,        // INDEX_RULES_PATH
    table: string,            // INDEX_RULE_TABLE
    db: DbSettings)

  /** A store, described by what it reads from. The override is given by the rules it returns. */
  datatype Store =
    | Override(rules: seq<IndexRule>)
    | DbStore(dsn: string, table: string)
    | FileStore(path: string)

  /** `(INDEX_RULE_SOURCE or "file").lower()`. */
  function SourceName(source: Option<string>, lower: string -> string): string {
    lower(if source.Some? && source.value != [] then source.value else "file")
  }

  /**
    `_create_store`: the override when there is one; else the database
    store when the source is `db` (whose constructor checks the table
    name, with the check as written); else the file store.
   */
  function CreateStore(override: Option<seq<IndexRule>>, s: IndexSettings, lower: string -> string): (r: Result<Store>)
    ensures override.Some? ==> r == Ok(Override(override.value))
    ensures override.None? && SourceName(s.source, lower) == "db" ==>
      (r.Ok? <==> PatternMatches(s.table)) && (r.Ok? ==> r.value == DbStore(Dsn(s.db), s.table))
    ensures override.None? && SourceName(s.source, lower) == "db" && IsIdentifier(s.table) ==> r.Ok?
    ensures override.None? && SourceName(s.source, lower) != "db" ==> r == Ok(FileStore(s.rulesPath))
  {
    if override.Some? then Ok(Override(override.value))
    else if SourceName(s.source, lower) == "db" then
      PatternMatchesIff(s.table);
      match SanitizeAsWritten(s.table)
      case Ok(table) => Ok(DbStore(Dsn(s.db), table))
      case Err(e) => Err(e)
    else Ok(FileStore(s.rulesPath))
  }

  /** A database source accepts a table name that ends in a newline. */
  lemma NewlineTableAccepted(s: IndexSettings, lower: string -> string)
    requires SourceName(s.source, lower) == "db" && s.table == "t\n"
    ensures CreateStore(None, s, lower) == Ok(DbStore(Dsn(s.db), "t\n"))
  {
    TrailingNewlineAccepted();
  }

  /** One row of the rules table; the columns `description` and `enabled` may be NULL. */
  datatype RuleRow = RuleRow(name: string, pattern: string, description: Option<string>, enabled: Option<bool>)

  /** `COALESCE(enabled, TRUE)`. */
  predicate RowEnabled(row: RuleRow) {
    row.enabled != Some(false)
  }

  /** The rule of one row: a NULL description reads as `""`, and the row is enabled. */
  function RowRule(row: RuleRow): IndexRule {
    IndexRule(row.name, row.pattern, if row.description.Some? then row.description.value else "", true)
  }

  /**
    `DatabaseIndexRuleStore.load_rules` over the table's rows, already in
    name order: the enabled rows, with the NULL defaults filled in.
   */
  function DbRules(rows: seq<RuleRow>): (r: seq<IndexRule>)
    ensures |r| <= |rows|
    ensures forall k :: 0 <= k < |r| ==> r[k].enabled
    ensures forall k :: 0 <= k < |rows| && RowEnabled(rows[k]) ==> RowRule(rows[k]) in r
  {
    if rows == [] then []
    else
      var row := rows[0];
      var rest := DbRules(rows[1..]);
      assert forall k :: 1 <= k < |rows| ==> rows[k] == rows[1..][k - 1];
      if RowEnabled(row) then [RowRule(row)] + rest else rest
  }

  /** The `k`-th rule is the rule of the enabled row at position `idx[k]`. */
  predicate PickedRow(rows: seq<RuleRow>, rules: seq<IndexRule>, idx: seq<int>, k: int) {
    0 <= k < |idx| && k < |rules| && 0 <= idx[k] < |rows| && RowEnabled(rows[idx[k]]) && rules[k] == RowRule(rows[idx[k]])
  }

  predicate RowsPicked(rows: seq<RuleRow>, rules: seq<IndexRule>, idx: seq<int>) {
    |idx| == |rules| && forall k :: 0 <= k < |idx| ==> PickedRow(rows, rules, idx, k)
  }

  predicate Ascending(idx: seq<int>) {
    forall k, l :: 0 <= k < l < |idx| ==> idx[k] < idx[l]
  }

  /** Every enabled row's position is listed. */
  predicate EnabledCovered(rows: seq<RuleRow>, idx: seq<int>) {
    forall j :: 0 <= j < |rows| && RowEnabled(rows[j]) ==> j in idx
  }

  /**
    `rules` are the rules of the enabled rows of `rows` at the increasing
    positions `idx`, and every enabled row is among them: the rows' order
    is kept and no disabled row contributes.
   */
  predicate EnabledSelection(rows: seq<RuleRow>, rules: seq<IndexRule>, idx: seq<int>) {
    RowsPicked(rows, rules, idx) && Ascending(idx) && EnabledCovered(rows, idx)
  }

  /** The database store returns the enabled rows' rules, in row order, and nothing else. */
  lemma {:induction false} DbRulesSelect(rows: seq<RuleRow>) returns (idx: seq<int>)
    ensures EnabledSelection(rows, DbRules(rows), idx)
    decreases |rows|
  {
    if rows == [] {
      idx := [];
    } else {
      var rest := DbRulesSelect(rows[1..]);
      assert rows == [rows[0]] + rows[1..];
      if RowEnabled(rows[0]) {
        idx := [0] + Later(rest);
        KeepRow(rows[0], rows[1..], rest);
      } else {
        idx := Later(rest);
        SkipRow(rows[0], rows[1..], rest);
      }
    }
  }

  /** Every position moved one row down. */
  function Later(xs: seq<int>): (r: seq<int>)
    ensures |r| == |xs|
    ensures forall k :: 0 <= k < |xs| ==> r[k] == xs[k] + 1
  {
    seq(|xs|, k requires 0 <= k < |xs| => xs[k] + 1)
  }

  /** `DbRules` on a first row and the rest. */
  lemma DbRulesCons(head: RuleRow, tail: seq<RuleRow>)
    ensures ([head] + tail)[1..] == tail
    ensures DbRules([head] + tail) == (if RowEnabled(head) then [RowRule(head)] else []) + DbRules(tail)
  {
    assert ([head] + tail)[1..] == tail;
  }

  /** A disabled first row is skipped: the tail's positions move one down. */
  lemma SkipRow(head: RuleRow, tail: seq<RuleRow>, rest: seq<int>)
    requires !RowEnabled(head)
    requires EnabledSelection(tail, DbRules(tail), rest)
    ensures EnabledSelection([head] + tail, DbRules([head] + tail), Later(rest))
  {
    DbRulesCons(head, tail);
    PickedLater([head] + tail, DbRules(tail), rest);
    AscendingLater(rest);
    CoveredLater([head] + tail, rest, Later(rest));
  }

  /** An enabled first row's rule comes first, in front of the tail's selection. */
  lemma KeepRow(head: RuleRow, tail: seq<RuleRow>, rest: seq<int>)
    requires RowEnabled(head)
    requires EnabledSelection(tail, DbRules(tail), rest)
    ensures EnabledSelection([head] + tail, DbRules([head] + tail), [0] + Later(rest))
  {
    DbRulesCons(head, tail);
    PickedLater([head] + tail, DbRules(tail), rest);
    PickedFirst([head] + tail, DbRules(tail), Later(rest));
    AscendingLater(rest);
    AscendingFirst(Later(rest));
    CoveredLater([head] + tail, rest, [0] + Later(rest));
  }

  lemma AscendingLater(rest: seq<int>)
    requires Ascending(rest)
    ensures Ascending(Later(rest))
  {
  }

  lemma AscendingFirst(idx: seq<int>)
    requires Ascending(idx) && forall k :: 0 <= k < |idx| ==> idx[k] >= 1
    ensures Ascending([0] + idx)
  {
    forall k, l | 0 <= k < l < |idx| + 1 ensures ([0] + idx)[k] < ([0] + idx)[l] {
      assert ([0] + idx)[l] == idx[l - 1];
      if k > 0 {
        assert ([0] + idx)[k] == idx[k - 1];
      }
    }
  }

  /** The tail's picks, one row further down, are picks of the whole; none is the first row. */
  lemma PickedLater(rows: seq<RuleRow>, rules: seq<IndexRule>, rest: seq<int>)
    requires rows != [] && RowsPicked(rows[1..], rules, rest)
    ensures RowsPicked(rows, rules, Later(rest))
    ensures forall k :: 0 <= k < |rest| ==> Later(rest)[k] >= 1
  {
    forall k | 0 <= k < |rest| ensures PickedRow(rows, rules, Later(rest), k) && Later(rest)[k] >= 1 {
      assert PickedRow(rows[1..], rules, rest, k);
      assert rows[1..][rest[k]] == rows[rest[k] + 1];
    }
  }

  lemma PickedFirst(rows: seq<RuleRow>, rules: seq<IndexRule>, idx: seq<int>)
    requires rows != [] && RowEnabled(rows[0]) && RowsPicked(rows, rules, idx)
    ensures RowsPicked(rows, [RowRule(rows[0])] + rules, [0] + idx)
  {
    forall k | 0 < k < |idx| + 1 ensures PickedRow(rows, [RowRule(rows[0])] + rules, [0] + idx, k) {
      assert PickedRow(rows, rules, idx, k - 1);
    }
    assert PickedRow(rows, [RowRule(rows[0])] + rules, [0] + idx, 0);
  }

  lemma CoveredLater(rows: seq<RuleRow>, rest: seq<int>, idx: seq<int>)
    requires rows != [] && EnabledCovered(rows[1..], rest)
    requires forall k :: 0 <= k < |rest| ==> rest[k] + 1 in idx
    requires RowEnabled(rows[0]) ==> 0 in idx
    ensures EnabledCovered(rows, idx)
  {
    forall j | 0 < j < |rows| && RowEnabled(rows[j]) ensures j in idx {
      assert rows[1..][j - 1] == rows[j];
      var k :| 0 <= k < |rest| && rest[k] == j - 1;
    }
  }

  /** What the outside world holds: the rules file and the table's rows (or a database failure). */
  datatype Backends = Backends(file: string -> RulesFile, table: Result<seq<RuleRow>>)

  /** `load_rules` of a store. */
  function LoadRules(store: Store, b: Backends): (r: Result<seq<IndexRule>>)
    ensures store.Override? ==> r == Ok(store.rules)
    ensures store.FileStore? ==> r == LoadSync(b.file(store.path))
    ensures store.DbStore? ==> (r.Ok? <==> b.table.Ok?) && (r.Ok? ==> forall k :: 0 <= k < |r.value| ==> r.value[k].enabled)
  {
    match store
    case Override(rules) => Ok(rules)
    case FileStore(path) => LoadSync(b.file(path))
    case DbStore(_, _) =>
      match b.table
      case Ok(rows) => Ok(DbRules(rows))
      case Err(e) => Err(e)
  }

  /** `IndexRuleService`: the override and the store chosen on first use. */
  datatype Service = Service(override: Option<seq<IndexRule>>, store: Option<Store>)

  /**
    `list_rules`: creates the store on first use and keeps it; a failed
    creation keeps nothing.
   */
  function ListRules(svc: Service, s: IndexSettings, lower: string -> string, b: Backends)
    : (r: (Result<seq<IndexRule>>, Service))
    ensures r.1.override == svc.override
    ensures svc.store.Some? ==> r == (LoadRules(svc.store.value, b), svc)
    ensures svc.store.None? ==>
      match CreateStore(svc.override, s, lower)
      case Ok(store) => r == (LoadRules(store, b), svc.(store := Some(store)))
      case Err(e) => r == (Err(e), svc)
  {
    if svc.store.Some? then (LoadRules(svc.store.value, b), svc)
    else
      match CreateStore(svc.override, s, lower)
      case Ok(store) => (LoadRules(store, b), svc.(store := Some(store)))
      case Err(e) => (Err(e), svc)
  }

  /**
    Once a store has been created, later calls read from it whatever the
    settings have become.
   */
  lemma StoreIsKept(svc: Service, s1: IndexSettings, s2: IndexSettings, lower: string -> string, b: Backends)
    requires ListRules(svc, s1, lower, b).0.Ok?
    ensures var svc' := ListRules(svc, s1, lower, b).1;
      && svc'.store.Some?
      && ListRules(svc', s2, lower, b) == (LoadRules(svc'.store.value, b), svc')
  {
  }

  /** The service's test with an override store: its rules come back whatever the settings say. */
  lemma OverridePreferred(rules: seq<IndexRule>, s: IndexSettings, lower: string -> string, b: Backends)
    ensures ListRules(Service(Some(rules), None), s, lower, b).0 == Ok(rules)
  {
  }

  /** The service's test with the file source. */
  lemma FileSourceExample(s: IndexSettings, lower: string -> string, b: Backends)
    requires s.source == Some("file") && lower("file") == "file"
    requires b.file(s.rulesPath) == Parsed(JObj([("rules", JList([JObj([("name", JStr("file_rule")), ("pattern", JStr("bar"))])]))]))
    ensures ListRules(Service(None, None), s, lower, b).0 == Ok([IndexRule("file_rule", "bar", "", true)])
  {
    var item := JObj([("name", JStr("file_rule")), ("pattern", JStr("bar"))]);
    assert RuleOf(item.fields) == IndexRule("file_rule", "bar", "", true);
    assert ParseRules([item]) == [IndexRule("file_rule", "bar", "", true)];
  }
}
