/**
 * The Cloudflare set-up script: it copies the database schema into the
 * app's first D1 migration, writes the refresh route, adds the
 * `refresh_logs` table to the migration and the refresh settings to
 * `wrangler.toml`, each only when it is not there yet.
 */
module Cloudflare {
  import opened Wrappers
  import opened Strings

  // ---------------------------------------------------------------------
  // Reading a file line by line
  // ---------------------------------------------------------------------

  /** The length of a non-empty text's first line, its newline included. */
  function FirstLineLength(s: string): (k: nat)
    requires s != ""
    ensures 0 < k <= |s|
    ensures k < |s| ==> s[k - 1] == '\n'
  {
    if s[0] == '\n' || |s| == 1 then 1 else 1 + FirstLineLength(s[1..])
  }

  /** `f.readlines()`: the lines of a text, each keeping its newline. */
  function Lines(s: string): (ls: seq<string>)
    decreases |s|
  {
    if s == "" then []
    else
      var k := FirstLineLength(s);
      [s[..k]] + Lines(s[k..])
  }

  /** A text that one of the lines contains is in the whole text. */
  lemma {:induction false} LineToWhole(s: string, m: string, j: int)
    requires 0 <= j < |Lines(s)| && Contains(Lines(s)[j], m)
    ensures Contains(s, m)
    decreases |s|
  {
    var k := FirstLineLength(s);
    var first, rest := s[..k], s[k..];
    assert s == first + rest;
    if j == 0 {
      ContainsLeft(first, rest, m);
    } else {
      LineToWhole(rest, m, j - 1);
      ContainsRight(first, rest, m);
    }
  }

  /** A text without newlines that is in the whole text is in one of its lines. */
  lemma {:induction false} WholeToLine(s: string, m: string) returns (j: int)
    requires m != "" && '\n' !in m && Contains(s, m)
    ensures 0 <= j < |Lines(s)| && Contains(Lines(s)[j], m)
    decreases |s|
  {
    var i :| 0 <= i <= |s| && OccursAt(s, m, i);
    var k := FirstLineLength(s);
    var first, rest := s[..k], s[k..];
    var ls := Lines(s);
    if i + |m| <= k {
      assert first[i..i + |m|] == s[i..i + |m|];
      assert OccursAt(first, m, i);
      j := 0;
    } else if i >= k {
      assert rest[i - k..i - k + |m|] == s[i..i + |m|];
      assert OccursAt(rest, m, i - k);
      var j' := WholeToLine(rest, m);
      j := j' + 1;
    } else {
      assert false;
    }
  }

  /** `any(m in line for line in lines)` over the text's lines. */
  predicate AnyLineHas(s: string, m: string) {
    exists i :: 0 <= i < |Lines(s)| && Contains(Lines(s)[i], m)
  }

  /**
   * Looking for a text without newlines line by line finds it exactly
   * when it occurs in the whole file.
   */
  lemma AnyLineContains(s: string, m: string)
    requires m != "" && '\n' !in m
    ensures AnyLineHas(s, m) <==> Contains(s, m)
  {
    if exists i :: 0 <= i < |Lines(s)| && Contains(Lines(s)[i], m) {
      var i :| 0 <= i < |Lines(s)| && Contains(Lines(s)[i], m);
      LineToWhole(s, m, i);
    }
    if Contains(s, m) {
      var j := WholeToLine(s, m);
    }
  }

  // ---------------------------------------------------------------------
  // The files the script touches
  // ---------------------------------------------------------------------

  /**
   * `database/schema.sql`, the app's `migrations/0001_initial.sql`, whether
   * the refresh route has been written, and the app's `wrangler.toml`;
   * None for a file that does not exist.
   */
  datatype Files = Files(schema: Option<string>, migration: Option<string>, route: bool, wrangler: Option<string>)

  /** `create_migration_file`: without a schema it fails; otherwise the migration becomes a copy of it. */
  function CreateMigrationFile(f: Files): (r: (bool, Files))
    ensures r.0 <==> f.schema.Some?
    ensures r.0 ==> r.1 == f.(migration := f.schema)
    ensures !r.0 ==> r.1 == f
  {
    if f.schema.None? then (false, f) else (true, f.(migration := f.schema))
  }

  // ---------------------------------------------------------------------
  // The refresh log table
  // ---------------------------------------------------------------------

  /** What `update_schema_for_logs` looks for in the migration. */
  const LogsMarker := "CREATE TABLE refresh_logs"

  const LogsTableHead := "\n-- טבלת לוגים לתיעוד רענון מכרזים\n"

  const LogsTableTail :=
    " (\n    id INTEGER PRIMARY KEY AUTOINCREMENT,\n    source TEXT NOT NULL,\n    status TEXT NOT NULL,\n"
    + "    count INTEGER DEFAULT 0,\n    error TEXT,\n    timestamp TEXT NOT NULL\n);\n\n"
    + "CREATE INDEX idx_refresh_logs_source ON refresh_logs(source);\n"
    + "CREATE INDEX idx_refresh_logs_timestamp ON refresh_logs(timestamp);\n"

  /** The table and its two indexes, as appended to the migration. */
  const LogsTable := LogsTableHead + LogsMarker + LogsTableTail

  /** A text contains itself wherever it is embedded. */
  lemma ContainsMiddle(a: string, m: string, b: string)
    ensures Contains(a + m + b, m)
  {
    assert OccursAt(m, m, 0) by {
      assert m[0..|m|] == m;
    }
    ContainsRight(a, m, m);
    ContainsLeft(a + m, b, m);
  }

  /**
   * `update_schema_for_logs`: a missing migration fails; one that already
   * creates `refresh_logs` is left as it is; otherwise the table is
   * appended.
   */
  function UpdateSchemaForLogs(f: Files): (r: (bool, Files))
    ensures r.0 <==> f.migration.Some?
    ensures r.1.schema == f.schema && r.1.route == f.route && r.1.wrangler == f.wrangler
    ensures f.migration.None? ==> r.1 == f
  {
    match f.migration
    case None => (false, f)
    case Some(c) =>
      if Contains(c, LogsMarker) then (true, f)
      else (true, f.(migration := Some(c + LogsTable)))
  }

  /**
   * The update keeps the migration as a prefix, leaves it alone exactly
   * when it already creates the table, always leaves it creating the
   * table, and a second update changes nothing.
   */
  lemma UpdateSchemaForLogsSpec(f: Files)
    requires f.migration.Some?
    ensures var c := f.migration.value;
      var g := UpdateSchemaForLogs(f).1;
      && g.migration.Some?
      && StartsWith(g.migration.value, c)
      && (g.migration.value == c <==> Contains(c, LogsMarker))
      && (!Contains(c, LogsMarker) ==> g.migration.value == c + LogsTable)
      && Contains(g.migration.value, LogsMarker)
      && UpdateSchemaForLogs(g) == (true, g)
  {
    var c := f.migration.value;
    if !Contains(c, LogsMarker) {
      ContainsMiddle(LogsTableHead, LogsMarker, LogsTableTail);
      ContainsRight(c, LogsTable, LogsMarker);
      assert (c + LogsTable)[..|c|] == c;
      assert |LogsTable| > 0;
    }
  }

  // ---------------------------------------------------------------------
  // The refresh route
  // ---------------------------------------------------------------------

  /**
   * `create_refresh_worker`: writes the route, then updates the migration;
   * it succeeds whether or not that update did.
   */
  function CreateRefreshWorker(f: Files): (r: (bool, Files))
    ensures r.0 && r.1.route
    ensures r.1 == UpdateSchemaForLogs(f.(route := true)).1
  {
    (true, UpdateSchemaForLogs(f.(route := true)).1)
  }

  /** The route is written even without a migration to update, and the step still reports success. */
  lemma CreateRefreshWorkerIgnoresSchema(f: Files)
    requires f.migration.None?
    ensures CreateRefreshWorker(f) == (true, f.(route := true))
    ensures !UpdateSchemaForLogs(f.(route := true)).0
  {
  }

  // ---------------------------------------------------------------------
  // The wrangler configuration
  // ---------------------------------------------------------------------

  /** What `update_wrangler_config` looks for, line by line. */
  const ApiKeyName := "REFRESH_API_KEY"

  const RefreshConfigHead := "\n# הגדרות רענון אוטומטי\n[vars]\n"

  const RefreshConfigTail :=
    " = \"your-secure-api-key-here\"\n\n# הגדרות תזמון\n[triggers]\n"
    + "crons = [\"0 */8 * * *\"]  # הפעלה כל 8 שעות\n"

  /** The settings appended to `wrangler.toml`: the API key and the cron trigger. */
  const RefreshConfig := RefreshConfigHead + ApiKeyName + RefreshConfigTail

  /** `any("REFRESH_API_KEY" in line for line in f.readlines())`. */
  predicate HasApiKeyLine(c: string) {
    AnyLineHas(c, ApiKeyName)
  }

  lemma ApiKeyNameOneLine()
    ensures ApiKeyName != "" && '\n' !in ApiKeyName
  {
    var a, b := "REFRESH_", "API_KEY";
    assert ApiKeyName == a + b;
  }

  /**
   * `update_wrangler_config`: a missing file fails; a file with a line
   * mentioning the key is left as it is; otherwise the settings are
   * appended.
   */
  function UpdateWranglerConfig(f: Files): (r: (bool, Files))
    ensures r.0 <==> f.wrangler.Some?
    ensures r.1.schema == f.schema && r.1.migration == f.migration && r.1.route == f.route
    ensures f.wrangler.None? ==> r.1 == f
  {
    match f.wrangler
    case None => (false, f)
    case Some(c) =>
      if HasApiKeyLine(c) then (true, f)
      else (true, f.(wrangler := Some(c + RefreshConfig)))
  }

  /** Once the settings are appended, a line mentions the key. */
  lemma AppendedConfigHasKey(c: string)
    ensures Contains(c + RefreshConfig, ApiKeyName) && HasApiKeyLine(c + RefreshConfig)
  {
    ApiKeyNameOneLine();
    ContainsMiddle(RefreshConfigHead, ApiKeyName, RefreshConfigTail);
    ContainsRight(c, RefreshConfig, ApiKeyName);
    AnyLineContains(c + RefreshConfig, ApiKeyName);
  }

  /**
   * The update keeps the configuration as a prefix, leaves it alone exactly
   * when it mentions the key anywhere, always leaves it mentioning the key,
   * and a second update changes nothing.
   */
  lemma UpdateWranglerConfigSpec(f: Files)
    requires f.wrangler.Some?
    ensures var c := f.wrangler.value;
      var g := UpdateWranglerConfig(f).1;
      && g.wrangler.Some?
      && StartsWith(g.wrangler.value, c)
      && (g.wrangler.value == c <==> Contains(c, ApiKeyName))
      && (!Contains(c, ApiKeyName) ==> g.wrangler.value == c + RefreshConfig)
      && Contains(g.wrangler.value, ApiKeyName)
      && UpdateWranglerConfig(g) == (true, g)
  {
    var c := f.wrangler.value;
    ApiKeyNameOneLine();
    AnyLineContains(c, ApiKeyName);
    if !Contains(c, ApiKeyName) {
      var d := c + RefreshConfig;
      var g := UpdateWranglerConfig(f).1;
      AppendedConfigHasKey(c);
      assert d[..|c|] == c;
      assert |RefreshConfig| > 0;
    }
  }

  // ---------------------------------------------------------------------
  // The script
  // ---------------------------------------------------------------------

  /** A step of `main`. */
  datatype Step = MigrationStep | WorkerStep | WranglerStep

  /**
   * `main`: the migration first; the route only after it succeeded; the
   * wrangler settings only after the route step succeeded.
   */
  function Main(f: Files): (r: (seq<Step>, Files))
    ensures |r.0| > 0 && r.0[0] == MigrationStep
    ensures r.0 == [MigrationStep] <==> f.schema.None?
    ensures f.schema.None? ==> r.1 == f
  {
    var (migrated, f1) := CreateMigrationFile(f);
    if !migrated then ([MigrationStep], f1)
    else
      var (worked, f2) := CreateRefreshWorker(f1);
      if !worked then ([MigrationStep, WorkerStep], f2)
      else ([MigrationStep, WorkerStep, WranglerStep], UpdateWranglerConfig(f2).1)
  }

  /**
   * With a schema, the script leaves the migration as the schema plus the
   * log table unless the schema already creates it, writes the route, and
   * leaves `wrangler.toml`, when there is one, mentioning the API key.
   */
  lemma MainSpec(f: Files)
    requires f.schema.Some?
    ensures var (steps, g) := Main(f);
      var s := f.schema.value;
      && steps == [MigrationStep, WorkerStep, WranglerStep]
      && g.schema == f.schema && g.route
      && g.migration == Some(if Contains(s, LogsMarker) then s else s + LogsTable)
      && g.wrangler.Some? == f.wrangler.Some?
      && (f.wrangler.Some? ==> Contains(g.wrangler.value, ApiKeyName) && StartsWith(g.wrangler.value, f.wrangler.value))
  {
    var f1 := CreateMigrationFile(f).1;
    UpdateSchemaForLogsSpec(f1.(route := true));
    var f2 := CreateRefreshWorker(f1).1;
    if f.wrangler.Some? {
      UpdateWranglerConfigSpec(f2);
    }
  }

  /** Running the script a second time changes nothing more. */
  lemma MainIdempotent(f: Files)
    ensures Main(Main(f).1).1 == Main(f).1
  {
    if f.schema.Some? {
      var g := Main(f).1;
      MainSpec(f);
      var g1 := CreateMigrationFile(g).1;
      var g2 := CreateRefreshWorker(g1).1;
      var f2 := CreateRefreshWorker(CreateMigrationFile(f).1).1;
      assert g1 == f2.(migration := f.schema, wrangler := g.wrangler);
      assert g2.migration == g.migration;
      if f.wrangler.Some? {
        UpdateWranglerConfigSpec(f2);
        assert g2 == UpdateWranglerConfig(f2).1;
      } else {
        assert g2 == g;
      }
    }
  }
}
