/** Restoring a backup and validating the result. A restore checks the archive, waits for the
    server, optionally drops the schema, runs pg_restore, then runs the validation checks
    (1-7 and 9) against the restored database and reports which of them failed. The file
    system and the database are values; pg_restore, `pg_restore -l` and pg_isready are oracles
    that report how they ended. */
module Restore {
  import opened Wrappers
  import opened Text
  import opened Exceptions
  import opened Json
  import opened Files
  import opened Subprocess
  import opened Models
  import opened Metadata
  import Backup

  /** The enum types a restored database must define. */
  const ExpectedEnums: seq<string> := [
    "ioc_type", "scanner_type", "scan_policy_type", "users_role", "firewall_types", "action_types"
  ]

  /** The tables a restored database must hold. */
  const ExpectedTables: seq<string> := [
    "schema_migrations", "clients", "users", "ioc", "group_scans", "ioc_scans",
    "virustotal_scan_results", "scan_results_generic", "firewalls", "action_logs"
  ]

  /** A restore looks for the enum types every sidecar lists, and for the migration table next
      to the nine tables whose rows a backup counts. */
  lemma ExpectedNames()
    ensures ExpectedEnums == SidecarEnumTypes
    ensures ExpectedTables == ["schema_migrations"] + CountedTables
  {
  }

  // ---------------------------------------------------------------------------
  // The validation report
  // ---------------------------------------------------------------------------

  /** How many of the checks passed. */
  function PassedCount(checks: seq<ValidationResult>): (n: nat)
    ensures n <= |checks|
  {
    if checks == [] then 0
    else PassedCount(checks[..|checks| - 1]) + (if checks[|checks| - 1].passed then 1 else 0)
  }

  predicate AllPass(checks: seq<ValidationResult>) {
    forall i :: 0 <= i < |checks| ==> checks[i].passed
  }

  /** Every check passed exactly when all of them are counted as passed. */
  lemma {:induction false} PassedCountAll(checks: seq<ValidationResult>)
    ensures PassedCount(checks) == |checks| <==> AllPass(checks)
  {
    if checks != [] {
      var init := checks[..|checks| - 1];
      PassedCountAll(init);
      assert forall i :: 0 <= i < |init| ==> init[i] == checks[i];
    }
  }

  /** The details of the failed checks, in order: what a restore reports as its validation
      errors. There is one per failed check. */
  function FailedDetails(checks: seq<ValidationResult>): (r: seq<string>)
    ensures |r| == |checks| - PassedCount(checks)
  {
    if checks == [] then []
    else
      var last := checks[|checks| - 1];
      FailedDetails(checks[..|checks| - 1]) + (if last.passed then [] else [last.details])
  }

  /** The failed details of two runs of checks are those of the first run, then those of the
      second. */
  lemma {:induction false} FailedDetailsAppend(a: seq<ValidationResult>, b: seq<ValidationResult>)
    ensures FailedDetails(a + b) == FailedDetails(a) + FailedDetails(b)
  {
    if b != [] {
      var init := b[..|b| - 1];
      assert (a + b)[..|a + b| - 1] == a + init;
      assert (a + b)[|a + b| - 1] == b[|b| - 1];
      FailedDetailsAppend(a, init);
    } else {
      assert a + b == a;
    }
  }

  /** No validation error is reported exactly when every check passed. */
  lemma NoErrorsIffAllPass(checks: seq<ValidationResult>)
    ensures FailedDetails(checks) == [] <==> AllPass(checks)
  {
    PassedCountAll(checks);
  }

  /** `ValidationReport`: the checks in the order they were added, and how many of them passed
      and failed. `warnings` is never changed. */
  class ValidationReport {
    var checks: seq<ValidationResult>
    var passed: nat
    var failed: nat
    var warnings: nat

    /** The counters agree with the checks. */
    ghost predicate Valid()
      reads this
    {
      passed == PassedCount(checks) && passed + failed == |checks|
    }

    constructor ()
      ensures checks == [] && passed == 0 && failed == 0 && warnings == 0
      ensures Valid()
    {
      checks, passed, failed, warnings := [], 0, 0, 0;
    }

    /** `add_check`: append the check and count it as passed or as failed. */
    method AddCheck(result: ValidationResult)
      requires Valid()
      modifies this
      ensures checks == old(checks) + [result]
      ensures passed == old(passed) + (if result.passed then 1 else 0)
      ensures failed == old(failed) + (if result.passed then 0 else 1)
      ensures warnings == old(warnings)
      ensures Valid()
    {
      assert (checks + [result])[..|checks|] == checks;
      checks := checks + [result];
      if result.passed {
        passed := passed + 1;
      } else {
        failed := failed + 1;
      }
    }

    /** `all_passed`: no check failed, that is, every check passed. */
    function AllPassed(): (r: bool)
      reads this
      requires Valid()
      ensures r <==> AllPass(checks)
    {
      PassedCountAll(checks);
      failed == 0
    }

    /** `to_dict`: the summary holds the number of checks and the two counters (which `Valid`
        ties to the checks that passed and failed), `all_passed` says whether every check
        passed, and `checks` shows every check in order. */
    function ToDict(): (r: Value)
      reads this
      requires Valid()
      ensures ReportShows(r, checks, passed, failed, AllPass(checks))
    {
      ReportSummary(checks, passed, failed, AllPassed());
      ReportDict(checks, passed, failed, AllPassed())
    }
  }

  /** `str(v) if v else None`: a value that is false to Python, such as 0, is shown as null. */
  function ShownOrNull(v: Value): Value {
    if Truthy(v) then Str(Show(v)) else Null
  }

  const CheckKeys: seq<string> := ["name", "passed", "details", "expected", "actual"]

  function CheckValues(c: ValidationResult): seq<Value> {
    [Str(c.checkName), Bool(c.passed), Str(c.details), ShownOrNull(c.expected), ShownOrNull(c.actual)]
  }

  /** One check as the report's dictionary shows it. */
  function CheckDict(c: ValidationResult): (r: Value)
    ensures IsDict(r, CheckKeys, CheckValues(c))
  {
    Dict(CheckKeys, CheckValues(c))
  }

  /** A matching migration version 0 is shown with no expected and no actual value. */
  lemma ZeroVersionShownAsNull(details: string)
    ensures var shown := CheckValues(ValidationResult("Migration Version", true, details, Int(0), Int(0)));
            shown[3] == Null && shown[4] == Null
  {
  }

  const SummaryKeys: seq<string> := ["total", "passed", "failed", "all_passed"]

  function ReportDict(checks: seq<ValidationResult>, passed: nat, failed: nat, allPassed: bool): Value {
    var summary := Dict(SummaryKeys, [Int(|checks|), Int(passed), Int(failed), Bool(allPassed)]);
    var shown := Array(seq(|checks|, i requires 0 <= i < |checks| => CheckDict(checks[i])));
    Dict(["checks", "summary"], [shown, summary])
  }

  /** `report["checks"]` is a list showing each check, in the order they were added. */
  predicate ShowsChecks(report: Value, checks: seq<ValidationResult>) {
    && Index(report, "checks").Ok?
    && Index(report, "checks").value.Array?
    && |Index(report, "checks").value.items| == |checks|
    && forall i :: 0 <= i < |checks| ==> Index(report, "checks").value.items[i] == CheckDict(checks[i])
  }

  /** The summary of a report holds its counters and its verdict, and its list shows every
      check in order. */
  lemma ReportSummary(checks: seq<ValidationResult>, passed: nat, failed: nat, allPassed: bool)
    ensures ReportShows(ReportDict(checks, passed, failed, allPassed), checks, passed, failed, allPassed)
  {
    var values := [Int(|checks|), Int(passed), Int(failed), Bool(allPassed)];
    var summary := Dict(SummaryKeys, values);
    var shown := Array(seq(|checks|, i requires 0 <= i < |checks| => CheckDict(checks[i])));
    IndexDict(ReportDict(checks, passed, failed, allPassed), ["checks", "summary"], [shown, summary], 0);
    IndexDict(ReportDict(checks, passed, failed, allPassed), ["checks", "summary"], [shown, summary], 1);
    IndexDict(summary, SummaryKeys, values, 0);
    IndexDict(summary, SummaryKeys, values, 1);
    IndexDict(summary, SummaryKeys, values, 2);
    IndexDict(summary, SummaryKeys, values, 3);
  }

  /** A report whose summary holds the number of checks, the two counters and the verdict, and
      whose list shows every check in order. */
  predicate ReportShows(report: Value, checks: seq<ValidationResult>, passed: int, failed: int, allPassed: bool) {
    && Field(report, "summary", "total") == Ok(Int(|checks|))
    && Field(report, "summary", "passed") == Ok(Int(passed))
    && Field(report, "summary", "failed") == Ok(Int(failed))
    && Field(report, "summary", "all_passed") == Ok(Bool(allPassed))
    && ShowsChecks(report, checks)
  }

  // ---------------------------------------------------------------------------
  // Reading psql's output
  // ---------------------------------------------------------------------------

  /** `f"Failed to check: {e}"`. */
  function FailedToCheck(e: Error): string {
    "Failed to check: " + e.Message()
  }

  /** The ValueError `int(s)` raises for a text that is not an integer. */
  function NotAnInteger(s: string): Error {
    ValueError("invalid literal for int() with base 10: '" + s + "'")
  }

  /** A query whose output is an integer: None for blank output, the integer, or the exception
      psql or `int()` raised. */
  function ReadInt(db: Database, q: Query): Result<Option<int>, Error> {
    match RunPsql(db(q))
    case Err(e) => Err(e)
    case Ok(result) =>
      var out := Strip(result.stdout);
      if result.success && out != "" then
        match ParseInt(out)
        case Some(n) => Ok(Some(n))
        case None => Err(NotAnInteger(out))
      else Ok(None)
  }

  /** A query yields an integer exactly when psql succeeds and prints one, and nothing when
      psql succeeds and prints only white space; anything else is an exception. */
  lemma ReadIntMeaning(db: Database, q: Query)
    ensures var r := ReadInt(db, q);
            && (r.Ok? && r.value.Some? <==> RunPsql(db(q)).Ok? && ParseInt(Strip(db(q).stdout)).Some?)
            && (r.Ok? && r.value.Some? ==> ParseInt(Strip(db(q).stdout)) == r.value)
            && (r == Ok(None) <==> RunPsql(db(q)).Ok? && Strip(db(q).stdout) == "")
  {
    assert ParseInt("") == None;
  }

  /** An integer psql prints, with any white space around it, is read back. */
  lemma ReadIntOfRendering(db: Database, q: Query, n: int)
    requires db(q).Exited? && db(q).returncode == 0 && Strip(db(q).stdout) == IntToString(n)
    ensures ReadInt(db, q) == Ok(Some(n))
  {
    ParseIntOfIntToString(n);
  }

  /** A backup's row-count probe and a restore's reading of the same query agree: both take
      the integer psql prints and nothing else. */
  lemma ProbeIsReadInt(db: Database, table: string)
    ensures Backup.Probe(db, table) == (match ReadInt(db, RowCount(table))
                                        case Ok(Some(n)) => Some(n)
                                        case _ => None)
  {
  }

  /** `metadata and key in metadata`: false without metadata or with an empty one; `in` raises a
      TypeError on a value that is neither a dict, a list nor a str. */
  function HasSection(metadata: Option<Value>, key: string): (r: Result<bool, Error>)
    ensures metadata.None? ==> r == Ok(false)
    ensures metadata.Some? && metadata.value.Object? ==> r == Ok(key in Keys(metadata.value.fields))
  {
    match metadata
    case None => Ok(false)
    case Some(v) => if !Truthy(v) then Ok(false) else HasKey(v, key)
  }

  // ---------------------------------------------------------------------------
  // Checks 1 and 2: the migration
  // ---------------------------------------------------------------------------

  /** Check 1, `_check_migration_version`. It fails on an error or on blank output; with a
      `migration_info` section it passes when the live version equals the recorded one, and
      without one it passes on any version. */
  function MigrationVersionCheck(db: Database, metadata: Option<Value>): (r: ValidationResult)
    ensures r.checkName == "Migration Version"
    ensures r.passed ==> ReadInt(db, MigrationVersion).Ok? && ReadInt(db, MigrationVersion).value.Some?
    ensures HasSection(metadata, "migration_info") == Ok(false) ==>
              (r.passed <==> ReadInt(db, MigrationVersion).Ok? && ReadInt(db, MigrationVersion).value.Some?)
  {
    var name := "Migration Version";
    match ReadInt(db, MigrationVersion)
    case Err(e) => Check(name, false, FailedToCheck(e))
    case Ok(None) => Check(name, false, "No migration version found")
    case Ok(Some(version)) =>
      var shown := IntToString(version);
      match HasSection(metadata, "migration_info")
      case Err(e) => Check(name, false, FailedToCheck(e))
      case Ok(false) => Check(name, true, "Version " + shown + " (no metadata to compare)")
      case Ok(true) =>
        match Field(metadata.value, "migration_info", "version")
        case Err(e) => Check(name, false, FailedToCheck(e))
        case Ok(expected) =>
          if EqualsInt(expected, version) then
            ValidationResult(name, true, "Version " + shown + " matches expected", expected, Int(version))
          else
            ValidationResult(name, false, "Version " + shown + " does not match expected " + Show(expected), expected, Int(version))
  }

  /** What the checks read from a sidecar a backup wrote: both sections are present, with the
      recorded version and the recorded counts. */
  lemma SidecarSections(info: BackupInfo, migration: MigrationInfo, counts: TableCounts, checksum: string)
    ensures var d := GenerateMetadataDict(info, migration, counts, checksum);
            && HasSection(Some(d), "migration_info") == Ok(true)
            && HasSection(Some(d), "table_counts") == Ok(true)
            && Field(d, "migration_info", "version") == Ok(Int(migration.version))
            && Index(d, "table_counts") == Ok(counts.ToDict())
  {
    SidecarFields(info, migration, counts, checksum);
    assert SidecarKeys[1] == "migration_info" && SidecarKeys[2] == "table_counts";
  }

  /** Against a sidecar written by a backup, check 1 passes exactly when the live version is
      the one the backup recorded. */
  lemma VersionCheckAgainstSidecar(
    db: Database, info: BackupInfo, migration: MigrationInfo, counts: TableCounts, checksum: string, version: int)
    requires ReadInt(db, MigrationVersion) == Ok(Some(version))
    ensures MigrationVersionCheck(db, Some(GenerateMetadataDict(info, migration, counts, checksum))).passed
            <==> version == migration.version
  {
    var d := GenerateMetadataDict(info, migration, counts, checksum);
    SidecarSections(info, migration, counts, checksum);
    VersionCheckAgainst(db, d, version, migration.version);
  }

  /** Against metadata that records a version, check 1 passes exactly when the live version is
      that one. */
  lemma VersionCheckAgainst(db: Database, metadata: Value, version: int, recorded: int)
    requires ReadInt(db, MigrationVersion) == Ok(Some(version))
    requires HasSection(Some(metadata), "migration_info") == Ok(true)
    requires Field(metadata, "migration_info", "version") == Ok(Int(recorded))
    ensures MigrationVersionCheck(db, Some(metadata)).passed <==> version == recorded
  {
    var r := MigrationVersionCheck(db, Some(metadata));
    assert r.passed == EqualsInt(Int(recorded), version);
  }

  /** The restore side's reading of the dirty flag: `t`, `true` or `1`, in either case. */
  predicate IsDirtyText(out: string) {
    Lower(Strip(out)) in ["t", "true", "1"]
  }

  /** Check 2, `_check_migration_dirty`: it passes exactly when psql prints a flag that is not
      a dirty word; an error or blank output fails it. */
  function DirtyCheck(db: Database): (r: ValidationResult)
    ensures r.checkName == "Migration Dirty Flag"
    ensures r.passed <==> RunPsql(db(MigrationDirty)).Ok? && Strip(db(MigrationDirty).stdout) != ""
                          && !IsDirtyText(db(MigrationDirty).stdout)
  {
    var name := "Migration Dirty Flag";
    match RunPsql(db(MigrationDirty))
    case Err(e) => Check(name, false, FailedToCheck(e))
    case Ok(result) =>
      if result.success && Strip(result.stdout) != "" then
        if !IsDirtyText(result.stdout) then Check(name, true, "Migration is clean")
        else Check(name, false, "Migration is dirty - pending migrations")
      else Check(name, false, "Could not determine dirty status")
  }

  /** The two sides read the dirty flag differently: a backup takes only `t` (in either case)
      as dirty, a restore also `true` and `1`. So the words `true` and `1` pass the backup side
      as clean and fail check 2 as dirty. */
  lemma DirtyReadingsDiffer(version: int, flag: string, stderr: string)
    requires Backup.Word(flag)
    ensures Backup.MigrationFromOutput(Exited(0, IntToString(version) + "|" + flag, stderr)).dirty <==> Lower(flag) == "t"
    ensures IsDirtyText(flag) <==> Lower(flag) in ["t", "true", "1"]
    ensures Lower(flag) in ["true", "1"] ==>
              IsDirtyText(flag) && !Backup.MigrationFromOutput(Exited(0, IntToString(version) + "|" + flag, stderr)).dirty
  {
    Backup.MigrationOfRow(version, flag, stderr);
    Backup.StripUnchanged(flag);
  }

  // ---------------------------------------------------------------------------
  // Checks 3 and 4: tables and enum types
  // ---------------------------------------------------------------------------

  /** `[line.strip() for line in lines if line.strip()]`. */
  function NonBlankLines(lines: seq<string>): (r: seq<string>)
    ensures |r| <= |lines|
  {
    if lines == [] then []
    else (if Strip(lines[0]) != "" then [Strip(lines[0])] else []) + NonBlankLines(lines[1..])
  }

  /** The listed names are exactly the stripped lines that are not blank. */
  lemma {:induction false} NonBlankLinesMembers(lines: seq<string>, x: string)
    ensures x in NonBlankLines(lines) <==> x != "" && exists i :: 0 <= i < |lines| && Strip(lines[i]) == x
  {
    if lines != [] {
      var tail := lines[1..];
      NonBlankLinesMembers(tail, x);
      if exists j :: 0 <= j < |tail| && Strip(tail[j]) == x {
        var j :| 0 <= j < |tail| && Strip(tail[j]) == x;
        assert Strip(lines[j + 1]) == x;
      }
      if exists i :: 0 <= i < |lines| && Strip(lines[i]) == x {
        var i :| 0 <= i < |lines| && Strip(lines[i]) == x;
        if i > 0 {
          assert Strip(tail[i - 1]) == x;
        }
      }
    }
  }

  /** `_get_tables_list` and `_get_enums_list`: the stripped non-blank lines psql printed. psql
      raises on a failed query, so the `[]` for an unsuccessful result is never reached: the
      exception reaches the check instead. */
  function Listing(db: Database, q: Query): (r: Result<seq<string>, Error>)
    ensures r.Ok? <==> RunPsql(db(q)).Ok?
  {
    match RunPsql(db(q))
    case Err(e) => Err(e)
    case Ok(result) =>
      if result.success then Ok(NonBlankLines(Split(Strip(result.stdout), '\n'))) else Ok([])
  }

  /** Names printed one per line are listed as they are, in order. */
  lemma ListingOfNames(db: Database, q: Query, names: seq<string>, stderr: string)
    requires |names| >= 1 && forall i :: 0 <= i < |names| ==> Backup.Word(names[i])
    requires db(q) == Exited(0, Join(names, '\n'), stderr)
    ensures Listing(db, q) == Ok(names)
  {
    var out := Join(names, '\n');
    JoinEnds(names, '\n');
    Backup.StripUnchanged(out);
    SplitJoin(names, '\n');
    NonBlankWords(names);
  }

  /** A join of words begins with the first word's first letter and ends with the last word's
      last letter. */
  lemma {:induction false} JoinEnds(parts: seq<string>, sep: char)
    requires |parts| >= 1 && forall i :: 0 <= i < |parts| ==> |parts[i]| > 0
    ensures var s := Join(parts, sep);
            |s| > 0 && s[0] == parts[0][0] && s[|s| - 1] == parts[|parts| - 1][|parts[|parts| - 1]| - 1]
    decreases |parts|
  {
    if |parts| > 1 {
      JoinEnds(parts[1..], sep);
    }
  }

  /** Words are their own non-blank lines. */
  lemma {:induction false} NonBlankWords(names: seq<string>)
    requires forall i :: 0 <= i < |names| ==> Backup.Word(names[i])
    ensures NonBlankLines(names) == names
  {
    if names != [] {
      Backup.StripUnchanged(names[0]);
      NonBlankWords(names[1..]);
    }
  }

  /** `[n for n in expected if n not in present]`. */
  function Missing(expected: seq<string>, present: seq<string>): (r: seq<string>)
    ensures forall x :: x in r <==> x in expected && x !in present
  {
    if expected == [] then []
    else (if expected[0] in present then [] else [expected[0]]) + Missing(expected[1..], present)
  }

  /** The missing names keep the declared order: those of a prefix come first. */
  lemma {:induction false} MissingAppend(a: seq<string>, b: seq<string>, present: seq<string>)
    ensures Missing(a + b, present) == Missing(a, present) + Missing(b, present)
  {
    if a != [] {
      assert (a + b)[0] == a[0] && (a + b)[1..] == a[1..] + b;
      MissingAppend(a[1..], b, present);
      var head := if a[0] in present then [] else [a[0]];
      assert Missing(a + b, present) == head + Missing(a[1..] + b, present);
      assert Missing(a, present) == head + Missing(a[1..], present);
    } else {
      assert a + b == b;
    }
  }

  /** Checks 3 and 4: they pass exactly when the listing worked and holds every expected
      name; otherwise they name the missing ones, or the error. */
  function PresenceCheck(name: string, noun: string, expected: seq<string>, listing: Result<seq<string>, Error>)
    : (r: ValidationResult)
    ensures r.checkName == name
    ensures r.passed <==> listing.Ok? && forall x :: x in expected ==> x in listing.value
    ensures listing.Err? ==> r.details == FailedToCheck(listing.error)
    ensures listing.Ok? && !r.passed ==> r.details == "Missing " + noun + ": " + ShowNames(Missing(expected, listing.value))
  {
    match listing
    case Err(e) => Check(name, false, FailedToCheck(e))
    case Ok(present) =>
      var missing := Missing(expected, present);
      if missing == [] then
        Check(name, true, "All " + NatToString(|expected|) + " expected " + noun + " present")
      else
        assert missing[0] in missing;
        Check(name, false, "Missing " + noun + ": " + ShowNames(missing))
  }

  /** Check 3, `_check_tables_exist`. */
  function TablesCheck(db: Database): (r: ValidationResult)
    ensures r.checkName == "Tables Exist"
    ensures r.passed <==> Listing(db, TableList).Ok? && forall t :: t in ExpectedTables ==> t in Listing(db, TableList).value
  {
    PresenceCheck("Tables Exist", "tables", ExpectedTables, Listing(db, TableList))
  }

  /** Check 4, `_check_enums_exist`. */
  function EnumsCheck(db: Database): (r: ValidationResult)
    ensures r.checkName == "ENUM Types Exist"
    ensures r.passed <==> Listing(db, EnumList).Ok? && forall t :: t in ExpectedEnums ==> t in Listing(db, EnumList).value
  {
    PresenceCheck("ENUM Types Exist", "ENUMs", ExpectedEnums, Listing(db, EnumList))
  }

  /** A listing query that fails does not report every table missing: check 3 reports the
      error instead. */
  lemma FailedListingIsAnError(db: Database)
    requires RunPsql(db(TableList)).Err?
    ensures !TablesCheck(db).passed && TablesCheck(db).details == FailedToCheck(RunPsql(db(TableList)).error)
  {
    assert Listing(db, TableList) == Err(RunPsql(db(TableList)).error);
  }

  // ---------------------------------------------------------------------------
  // Checks 5, 6 and 9: counts
  // ---------------------------------------------------------------------------

  /** Check 5, `_check_indexes`: it passes exactly when psql prints a positive count. */
  function IndexesCheck(db: Database): (r: ValidationResult)
    ensures r.checkName == "Indexes Present"
    ensures var c := ReadInt(db, IndexCount);
            r.passed <==> c.Ok? && c.value.Some? && c.value.value > 0
  {
    var name := "Indexes Present";
    match ReadInt(db, IndexCount)
    case Err(e) => Check(name, false, FailedToCheck(e))
    case Ok(None) => Check(name, false, "Could not count indexes")
    case Ok(Some(count)) => Check(name, count > 0, "Found " + IntToString(count) + " indexes in database")
  }

  /** Check 6, `_check_foreign_keys`: any count that is not negative passes it; only an error
      or blank output fails it. */
  function ForeignKeysCheck(db: Database): (r: ValidationResult)
    ensures r.checkName == "Foreign Keys Present"
    ensures var c := ReadInt(db, ForeignKeyCount);
            r.passed <==> c.Ok? && c.value.Some? && c.value.value >= 0
  {
    var name := "Foreign Keys Present";
    match ReadInt(db, ForeignKeyCount)
    case Err(e) => Check(name, false, FailedToCheck(e))
    case Ok(None) => Check(name, false, "Could not count foreign keys")
    case Ok(Some(count)) => Check(name, count >= 0, "Found " + IntToString(count) + " foreign key constraints")
  }

  /** Check 9, `_check_orphans`: it fails only when psql prints a count other than 0; an error
      or blank output lets it pass. */
  function OrphansCheck(db: Database): (r: ValidationResult)
    ensures r.checkName == "Orphaned Records"
    ensures var c := ReadInt(db, OrphanCount);
            !r.passed <==> c.Ok? && c.value.Some? && c.value.value != 0
  {
    var name := "Orphaned Records";
    match ReadInt(db, OrphanCount)
    case Err(e) => Check(name, true, "Orphan check skipped: " + e.Message())
    case Ok(None) => Check(name, true, "Could not check orphans (query may not apply)")
    case Ok(Some(count)) => Check(name, count == 0, "Found " + IntToString(count) + " orphaned records")
  }

  /** Counts psql prints are judged by their value: a positive index count passes check 5, any
      foreign key count passes check 6, and only 0 orphans passes check 9. */
  lemma CountChecksOfRendering(db: Database, indexes: nat, foreignKeys: nat, orphans: nat)
    requires db(IndexCount).Exited? && db(IndexCount).returncode == 0 && Strip(db(IndexCount).stdout) == IntToString(indexes)
    requires db(ForeignKeyCount).Exited? && db(ForeignKeyCount).returncode == 0
             && Strip(db(ForeignKeyCount).stdout) == IntToString(foreignKeys)
    requires db(OrphanCount).Exited? && db(OrphanCount).returncode == 0 && Strip(db(OrphanCount).stdout) == IntToString(orphans)
    ensures IndexesCheck(db).passed <==> indexes > 0
    ensures ForeignKeysCheck(db).passed
    ensures OrphansCheck(db).passed <==> orphans == 0
  {
    ReadIntOfRendering(db, IndexCount, indexes);
    ReadIntOfRendering(db, ForeignKeyCount, foreignKeys);
    ReadIntOfRendering(db, OrphanCount, orphans);
  }

  // ---------------------------------------------------------------------------
  // Check 7: row counts
  // ---------------------------------------------------------------------------

  /** One table of the recorded counts: a mismatch when psql prints an integer other than the
      recorded count; a failed or blank or non-integer probe is skipped. */
  function MismatchOf(db: Database, item: (string, Value)): seq<string> {
    match Backup.Probe(db, item.0)
    case None => []
    case Some(actual) =>
      if EqualsInt(item.1, actual) then []
      else [item.0 + ": expected " + Show(item.1) + ", got " + IntToString(actual)]
  }

  /** A table shows a mismatch exactly when psql prints an integer for it that differs from
      the recorded count. */
  lemma MismatchMeaning(db: Database, item: (string, Value))
    ensures MismatchOf(db, item) == [] <==>
              Backup.Probe(db, item.0).None? || EqualsInt(item.1, Backup.Probe(db, item.0).value)
  {
  }

  /** The lines `f` gives for each item, in order. */
  function FlatMap<T>(f: T -> seq<string>, items: seq<T>): seq<string>
  {
    if items == [] then []
    else FlatMap(f, items[..|items| - 1]) + f(items[|items| - 1])
  }

  /** One more item adds its own lines at the end. */
  lemma FlatMapStep<T>(f: T -> seq<string>, items: seq<T>, i: nat)
    requires i < |items|
    ensures FlatMap(f, items[..i + 1]) == FlatMap(f, items[..i]) + f(items[i])
  {
    assert items[..i + 1][..i] == items[..i];
  }

  /** No lines exactly when no item gives any. */
  lemma {:induction false} FlatMapEmpty<T>(f: T -> seq<string>, items: seq<T>)
    ensures FlatMap(f, items) == [] <==> forall i :: 0 <= i < |items| ==> f(items[i]) == []
  {
    if items != [] {
      var init := items[..|items| - 1];
      FlatMapEmpty(f, init);
      assert forall i :: 0 <= i < |init| ==> init[i] == items[i];
    }
  }

  /** The mismatches of the recorded counts, in order. */
  function Mismatches(db: Database, items: seq<(string, Value)>): seq<string>
  {
    FlatMap(item => MismatchOf(db, item), items)
  }

  /** One more table adds its own mismatch, if any, at the end. */
  lemma MismatchesStep(db: Database, items: seq<(string, Value)>, i: nat)
    requires i < |items|
    ensures Mismatches(db, items[..i + 1]) == Mismatches(db, items[..i]) + MismatchOf(db, items[i])
  {
    FlatMapStep(item => MismatchOf(db, item), items, i);
  }

  /** There is no mismatch exactly when no table shows one. */
  lemma NoMismatches(db: Database, items: seq<(string, Value)>)
    ensures Mismatches(db, items) == [] <==> forall i :: 0 <= i < |items| ==> MismatchOf(db, items[i]) == []
  {
    FlatMapEmpty(item => MismatchOf(db, item), items);
  }

  /** Check 7, `_check_row_counts`: it passes exactly when the recorded counts form a dict and
      none of its tables shows a mismatch. */
  function RowCountsCheck(db: Database, counts: Value): (r: ValidationResult)
    ensures r.checkName == "Row Counts Match"
    ensures r.passed <==> counts.Object? && forall i :: 0 <= i < |counts.fields| ==> MismatchOf(db, counts.fields[i]) == []
  {
    var name := "Row Counts Match";
    match Items(counts)
    case Err(e) => Check(name, false, FailedToCheck(e))
    case Ok(items) =>
      var mismatches := Mismatches(db, items);
      NoMismatches(db, items);
      if mismatches == [] then Check(name, true, "All row counts match metadata")
      else Check(name, false, "Row count mismatches: " + ShowNames(mismatches))
  }

  /** The loop of `_check_row_counts`: each recorded table is queried in turn, and a table whose
      query fails is skipped rather than stopping the check. */
  method CheckRowCounts(db: Database, counts: Value) returns (r: ValidationResult)
    ensures r == RowCountsCheck(db, counts)
  {
    var name := "Row Counts Match";
    var listed := Items(counts);
    if listed.Err? {
      return Check(name, false, FailedToCheck(listed.error));
    }
    var items := listed.value;
    var mismatches: seq<string> := [];
    for i := 0 to |items|
      invariant mismatches == Mismatches(db, items[..i])
    {
      var (table, expected) := items[i];
      MismatchesStep(db, items, i);
      var result := RunPsql(db(RowCount(table)));
      var actual: Option<int> := None;
      if result.Ok? && result.value.success && Strip(result.value.stdout) != "" {
        actual := ParseInt(Strip(result.value.stdout));
      }
      assert actual == Backup.Probe(db, table);
      ghost var step := MismatchOf(db, items[i]);
      if actual.Some? && !EqualsInt(expected, actual.value) {
        mismatches := mismatches + [table + ": expected " + Show(expected) + ", got " + IntToString(actual.value)];
      }
      assert mismatches == Mismatches(db, items[..i]) + step;
    }
    assert items[..|items|] == items;
    if mismatches == [] {
      r := Check(name, true, "All row counts match metadata");
    } else {
      r := Check(name, false, "Row count mismatches: " + ShowNames(mismatches));
    }
  }

  /** The counts a backup records match the database it read them from: check 7 passes on
      them. A table whose probe failed was recorded as 0 and is skipped again. */
  lemma RecordedCountsMatch(db: Database)
    ensures RowCountsCheck(db, Backup.CountsOf(db, ZeroCounts(), CountedTables).ToDict()).passed
  {
    var counts := Backup.CountsOf(db, ZeroCounts(), CountedTables);
    forall t | t in CountedTables
      ensures counts.Count(t) == Backup.Probe(db, t).GetOr(0)
    {
      Backup.CountsOfCounted(db, t);
    }
    ProbedCountsMatch(db, counts);
  }

  /** Counts that hold, for each counted table, what psql prints for it (0 when it prints no
      integer) pass check 7. */
  lemma ProbedCountsMatch(db: Database, counts: TableCounts)
    requires forall t :: t in CountedTables ==> counts.Count(t) == Backup.Probe(db, t).GetOr(0)
    ensures RowCountsCheck(db, counts.ToDict()).passed
  {
    var d := counts.ToDict();
    CountsDictDistinct(counts);
    forall i | 0 <= i < |d.fields| ensures MismatchOf(db, d.fields[i]) == [] {
      ProbedItemMatches(db, counts, i);
    }
  }

  /** The record's dictionary has one entry per counted table. */
  lemma CountsDictDistinct(counts: TableCounts)
    ensures DistinctKeys(counts.ToDict().fields)
  {
    var d := counts.ToDict();
    CountedTablesDistinct();
    forall i, j | 0 <= i < j < |d.fields| ensures d.fields[i].0 != d.fields[j].0 {
      assert Keys(d.fields)[i] == d.fields[i].0 && Keys(d.fields)[j] == d.fields[j].0;
    }
  }

  /** One entry of the record's dictionary agrees with its table's probe. */
  lemma ProbedItemMatches(db: Database, counts: TableCounts, i: int)
    requires forall t :: t in CountedTables ==> counts.Count(t) == Backup.Probe(db, t).GetOr(0)
    requires DistinctKeys(counts.ToDict().fields) && 0 <= i < |counts.ToDict().fields|
    ensures MismatchOf(db, counts.ToDict().fields[i]) == []
  {
    var d := counts.ToDict();
    var t := CountedTables[i];
    assert Keys(d.fields)[i] == d.fields[i].0;
    LookupAt(d.fields, i);
    assert Index(d, t) == Ok(Int(counts.Count(t)));
    MismatchMeaning(db, d.fields[i]);
  }

  // ---------------------------------------------------------------------------
  // `validate_restore`
  // ---------------------------------------------------------------------------

  /** Checks 1 to 6, in order. */
  function LeadingChecks(db: Database, metadata: Option<Value>): (r: seq<ValidationResult>)
    ensures |r| == 6
  {
    [MigrationVersionCheck(db, metadata), DirtyCheck(db), TablesCheck(db), EnumsCheck(db),
     IndexesCheck(db), ForeignKeysCheck(db)]
  }

  /** Check 7 when the metadata has a `table_counts` section, none otherwise. Reading that
      section happens outside any check, so it can raise. */
  function RowCountChecks(db: Database, metadata: Option<Value>): (r: Result<seq<ValidationResult>, Error>)
    ensures r.Ok? ==> |r.value| == if HasSection(metadata, "table_counts") == Ok(true) then 1 else 0
  {
    match HasSection(metadata, "table_counts")
    case Err(e) => Err(e)
    case Ok(false) => Ok([])
    case Ok(true) =>
      match Index(metadata.value, "table_counts")
      case Err(e) => Err(e)
      case Ok(counts) => Ok([RowCountsCheck(db, counts)])
  }

  /** The checks `validate_restore` adds, in order: 1 to 6, then 7 when the metadata has a
      `table_counts` section, then 9. */
  function ExpectedChecks(db: Database, metadata: Option<Value>): (r: Result<seq<ValidationResult>, Error>) {
    match RowCountChecks(db, metadata)
    case Err(e) => Err(e)
    case Ok(middle) => Ok(LeadingChecks(db, metadata) + middle + [OrphansCheck(db)])
  }

  /** The seventh of eight checks is the row-count check on the recorded `table_counts`. */
  lemma ValidationOrder(db: Database, metadata: Option<Value>)
    ensures var r := ExpectedChecks(db, metadata);
            r.Ok? && |r.value| == 8 ==>
              metadata.Some? && r.value[6] == RowCountsCheck(db, Index(metadata.value, "table_counts").value)
  {
    var rows := RowCountChecks(db, metadata);
    if rows.Ok? && rows.value != [] {
      assert (LeadingChecks(db, metadata) + rows.value + [OrphansCheck(db)])[6] == rows.value[0];
    }
  }

  /** The orphan check always comes last. */
  lemma OrphansLast(db: Database, metadata: Option<Value>)
    ensures var r := ExpectedChecks(db, metadata);
            r.Ok? ==> r.value[|r.value| - 1] == OrphansCheck(db)
  {
  }

  /** A validation runs 7 or 8 checks; without metadata it runs 7 and cannot raise, and it
      raises only on metadata that is not a dict. */
  lemma ValidationShape(db: Database, metadata: Option<Value>)
    ensures var r := ExpectedChecks(db, metadata);
            && (r.Ok? ==> |r.value| == 7 || |r.value| == 8)
            && (r.Ok? ==> (|r.value| == 8 <==> HasSection(metadata, "table_counts") == Ok(true)))
            && (metadata.None? ==> r.Ok? && |r.value| == 7)
            && (r.Err? ==> metadata.Some? && !metadata.value.Object?)
  {
    var rows := RowCountChecks(db, metadata);
    if rows.Ok? {
      assert |ExpectedChecks(db, metadata).value| == 6 + |rows.value| + 1;
    }
  }

  /** Checks 1 to 6 added to the report in order; they depend on the database and the metadata
      only, not on the report. */
  method RunLeadingChecks(report: ValidationReport, leading: seq<ValidationResult>)
    requires report.Valid() && |leading| == 6
    modifies report
    ensures report.checks == old(report.checks) + leading
    ensures report.warnings == old(report.warnings)
    ensures report.Valid()
  {
    report.AddCheck(leading[0]);
    report.AddCheck(leading[1]);
    report.AddCheck(leading[2]);
    report.AddCheck(leading[3]);
    report.AddCheck(leading[4]);
    report.AddCheck(leading[5]);
    assert report.checks == old(report.checks) + leading;
  }

  /** Check 7 added to the report when the metadata has a `table_counts` section; reading that
      section can raise, and then nothing is added. */
  method RunRowCountCheck(report: ValidationReport, db: Database, metadata: Option<Value>) returns (e: Option<Error>)
    requires report.Valid()
    modifies report
    ensures e.Some? <==> RowCountChecks(db, metadata).Err?
    ensures e.Some? ==> RowCountChecks(db, metadata) == Err(e.value) && report.checks == old(report.checks)
    ensures e.None? ==> report.checks == old(report.checks) + RowCountChecks(db, metadata).value
    ensures report.warnings == old(report.warnings)
    ensures report.Valid()
  {
    var hasCounts := HasSection(metadata, "table_counts");
    if hasCounts.Err? {
      return Some(hasCounts.error);
    }
    if hasCounts.value {
      var counts := Index(metadata.value, "table_counts");
      if counts.Err? {
        return Some(counts.error);
      }
      var rowCounts := CheckRowCounts(db, counts.value);
      report.AddCheck(rowCounts);
    }
    return None;
  }

  /** `validate_restore`: a fresh report to which the checks are added one by one. */
  method ValidateRestore(db: Database, metadata: Option<Value>) returns (r: Result<ValidationReport, Error>)
    ensures r.Ok? <==> ExpectedChecks(db, metadata).Ok?
    ensures r.Err? ==> ExpectedChecks(db, metadata) == Err(r.error)
    ensures r.Ok? ==> fresh(r.value) && r.value.Valid() && r.value.warnings == 0
                      && r.value.checks == ExpectedChecks(db, metadata).value
  {
    var report := new ValidationReport();
    var leading := LeadingChecks(db, metadata);
    RunLeadingChecks(report, leading);
    assert report.checks == leading;
    var e := RunRowCountCheck(report, db, metadata);
    if e.Some? {
      return Err(e.value);
    }
    ghost var middle := RowCountChecks(db, metadata).value;
    assert report.checks == leading + middle;
    // Check 8 (API health) is never run.
    var orphans := OrphansCheck(db);
    report.AddCheck(orphans);
    assert report.checks == leading + middle + [orphans];
    r := Ok(report);
  }

  /** A backup restored into a database that answers as the one it was taken from passes the
      row-count check, and the version check passes exactly when the versions agree. */
  lemma BackupThenValidate(db: Database, info: BackupInfo, migration: MigrationInfo, checksum: string, version: int)
    requires ReadInt(db, MigrationVersion) == Ok(Some(version))
    ensures var sidecar := GenerateMetadataDict(info, migration, Backup.CountsOf(db, ZeroCounts(), CountedTables), checksum);
            var r := ExpectedChecks(db, Some(sidecar));
            && r.Ok? && |r.value| == 8
            && (r.value[0].passed <==> version == migration.version)
            && r.value[6].passed
  {
    var counts := Backup.CountsOf(db, ZeroCounts(), CountedTables);
    var sidecar := GenerateMetadataDict(info, migration, counts, checksum);
    SidecarSections(info, migration, counts, checksum);
    ChecksAgainstRecord(db, sidecar, counts.ToDict());
    VersionCheckAgainst(db, sidecar, version, migration.version);
    RecordedCountsMatch(db);
  }

  /** Against metadata recording counts, the validation runs eight checks: the first is the
      version check, the seventh compares the recorded counts. */
  lemma ChecksAgainstRecord(db: Database, metadata: Value, counts: Value)
    requires HasSection(Some(metadata), "table_counts") == Ok(true)
    requires Index(metadata, "table_counts") == Ok(counts)
    ensures var r := ExpectedChecks(db, Some(metadata));
            && r.Ok? && |r.value| == 8
            && r.value[0] == MigrationVersionCheck(db, Some(metadata))
            && r.value[6] == RowCountsCheck(db, counts)
  {
    ChecksWithCounts(db, metadata, counts);
  }

  /** With a `table_counts` section, the validation runs all eight checks. */
  lemma ChecksWithCounts(db: Database, metadata: Value, counts: Value)
    requires HasSection(Some(metadata), "table_counts") == Ok(true)
    requires Index(metadata, "table_counts") == Ok(counts)
    ensures ExpectedChecks(db, Some(metadata))
            == Ok(LeadingChecks(db, Some(metadata)) + [RowCountsCheck(db, counts)] + [OrphansCheck(db)])
  {
    assert RowCountChecks(db, Some(metadata)) == Ok([RowCountsCheck(db, counts)]);
  }

  // ---------------------------------------------------------------------------
  // `restore_backup`
  // ---------------------------------------------------------------------------

  /** What the archive listing (`pg_restore -l`), the readiness wait and pg_restore report. */
  datatype Tools = Tools(formatCheck: ProcessOutcome, ready: bool, pgRestore: ProcessOutcome)

  /** The metadata a restore compares against: none without a path, a missing file or one that
      does not load (that error is swallowed). Checking whether the file exists is outside the
      restore's error handling, so an unsearchable directory makes the whole restore raise. */
  function LoadedMetadata(fs: Fs, metadataPath: Option<Path>): (r: Result<Option<Value>, Error>)
    ensures r.Err? <==> metadataPath.Some? && metadataPath.value.Path? && metadataPath.value.dir in fs.unsearchable
    ensures r.Ok? && r.value.Some? ==>
              metadataPath.Some? && metadataPath.value in fs.files && fs.files[metadataPath.value] == Document(r.value.value)
  {
    match metadataPath
    case None => Ok(None)
    case Some(p) =>
      match FileExists(fs, p)
      case Err(e) => Err(e)
      case Ok(false) => Ok(None)
      case Ok(true) =>
        match LoadMetadata(fs, p)
        case Ok(doc) => Ok(doc)
        case Err(_) => Ok(None)
  }

  /** The result of a restore that raised: not a success, not validated, the message as the
      only validation error. */
  function Failed(backupPath: Path, duration: real, e: Error): RestoreResult {
    RestoreResult(false, backupPath, false, [e.Message()], duration, Some(e.Message()))
  }

  /** The steps inside the restore's error handling: the archive must exist and list, the
      server must be ready, pg_restore must succeed, and validation must not raise; then they
      yield the validation's checks. */
  function RestoreSteps(fs: Fs, db: Database, tools: Tools, backupPath: Path, metadata: Option<Value>)
    : Result<seq<ValidationResult>, Error>
  {
    match FileExists(fs, backupPath)
    case Err(e) => Err(e)
    case Ok(false) => Err(RestoreError("Backup file not found: " + backupPath.Str()))
    case Ok(true) =>
      match VerifyBackupFormat(tools.formatCheck)
      case Err(e) => Err(e)
      case Ok(_) =>
        if !tools.ready then Err(RestoreError("Database not ready after timeout"))
        else
          match RunPgRestore(tools.pgRestore)
          case Err(e) => Err(e)
          case Ok(_) => ExpectedChecks(db, metadata)
  }

  /** The result of a restore: a failure carrying the error that was raised, or a success
      carrying the validation's verdict and the details of its failed checks. */
  function Attempt(fs: Fs, db: Database, tools: Tools, backupPath: Path, metadata: Option<Value>, duration: real)
    : RestoreResult
  {
    match RestoreSteps(fs, db, tools, backupPath, metadata)
    case Err(e) => Failed(backupPath, duration, e)
    case Ok(checks) => RestoreResult(true, backupPath, AllPass(checks), FailedDetails(checks), duration, None)
  }

  /** `restore_backup`. */
  function Restored(fs: Fs, db: Database, tools: Tools, backupPath: Path, metadataPath: Option<Path>, duration: real)
    : Result<RestoreResult, Error>
  {
    match LoadedMetadata(fs, metadataPath)
    case Err(e) => Err(e)
    case Ok(metadata) => Ok(Attempt(fs, db, tools, backupPath, metadata, duration))
  }

  /** A restore succeeds exactly when the archive exists and lists, the server is ready,
      pg_restore returns and validation does not raise. */
  lemma RestoreOutcomes(fs: Fs, db: Database, tools: Tools, backupPath: Path, metadata: Option<Value>, duration: real)
    ensures var r := Attempt(fs, db, tools, backupPath, metadata, duration);
            && r.backupFile == backupPath && r.durationSeconds == duration
            && (r.success <==> FileExists(fs, backupPath) == Ok(true) && VerifyBackupFormat(tools.formatCheck).Ok?
                               && tools.ready && RunPgRestore(tools.pgRestore).Ok? && ExpectedChecks(db, metadata).Ok?)
  {
  }

  /** A failed restore is not validated and reports its error as the one validation error; a
      successful one is validated exactly when it reports no validation error. */
  lemma RestoreReports(fs: Fs, db: Database, tools: Tools, backupPath: Path, metadata: Option<Value>, duration: real)
    ensures var r := Attempt(fs, db, tools, backupPath, metadata, duration);
            && (!r.success ==> !r.validationPassed && |r.validationErrors| == 1 && r.error == Some(r.validationErrors[0]))
            && (r.success ==> r.error.None? && (r.validationPassed <==> r.validationErrors == []))
  {
    var steps := RestoreSteps(fs, db, tools, backupPath, metadata);
    if steps.Ok? {
      NoErrorsIffAllPass(steps.value);
    }
  }

  /** pg_restore finishing with ignored errors still counts as restored. */
  lemma IgnoredErrorsStillRestore(
    fs: Fs, db: Database, tools: Tools, backupPath: Path, metadata: Option<Value>, duration: real)
    requires tools.pgRestore.Exited? && Contains(Lower(tools.pgRestore.stderr), IgnoredErrorsMarker)
    requires FileExists(fs, backupPath) == Ok(true) && VerifyBackupFormat(tools.formatCheck).Ok? && tools.ready
    requires metadata.None?
    ensures Attempt(fs, db, tools, backupPath, metadata, duration).success
  {
    ValidationShape(db, metadata);
  }

  /** A sidecar that does not hold JSON is ignored: the restore goes on as if it had none. */
  lemma UnreadableMetadataIgnored(
    fs: Fs, db: Database, tools: Tools, backupPath: Path, metadataPath: Path, duration: real)
    requires metadataPath in fs.files && fs.files[metadataPath].Blob? && metadataPath.Path?
    requires metadataPath.dir !in fs.unsearchable
    ensures Restored(fs, db, tools, backupPath, Some(metadataPath), duration)
            == Restored(fs, db, tools, backupPath, None, duration)
  {
  }

  /** The start of `restore_backup`: the metadata file is read when it exists; one that does
      not load is ignored, but checking that it exists can raise. */
  method LoadRestoreMetadata(fs: Fs, metadataPath: Option<Path>) returns (r: Result<Option<Value>, Error>)
    ensures r == LoadedMetadata(fs, metadataPath)
  {
    var metadata: Option<Value> := None;
    if metadataPath.Some? {
      var present := FileExists(fs, metadataPath.value);
      if present.Err? {
        return Err(present.error);
      }
      if present.value {
        var loaded := LoadMetadata(fs, metadataPath.value);
        if loaded.Ok? {
          metadata := loaded.value;
        }
      }
    }
    return Ok(metadata);
  }

  /** `restore_backup`: the steps in order; a schema drop that fails is logged and ignored. */
  method RestoreBackup(
    fs: Fs, db: Database, tools: Tools, backupPath: Path, metadataPath: Option<Path>, dropSchema: bool, duration: real)
    returns (r: Result<RestoreResult, Error>)
    ensures r == Restored(fs, db, tools, backupPath, metadataPath, duration)
  {
    var loaded := LoadRestoreMetadata(fs, metadataPath);
    if loaded.Err? {
      return Err(loaded.error);
    }
    var metadata := loaded.value;
    var found := FileExists(fs, backupPath);
    if found.Err? {
      return Ok(Failed(backupPath, duration, found.error));
    }
    if !found.value {
      return Ok(Failed(backupPath, duration, RestoreError("Backup file not found: " + backupPath.Str())));
    }
    var format := VerifyBackupFormat(tools.formatCheck);
    if format.Err? {
      return Ok(Failed(backupPath, duration, format.error));
    }
    if !tools.ready {
      return Ok(Failed(backupPath, duration, RestoreError("Database not ready after timeout")));
    }
    if dropSchema {
      // `_drop_schema`: whatever psql reports is only logged.
      var dropped := RunPsql(db(DropSchema));
    }
    var restored := RunPgRestore(tools.pgRestore);
    if restored.Err? {
      return Ok(Failed(backupPath, duration, restored.error));
    }
    var validation := ValidateRestore(db, metadata);
    if validation.Err? {
      return Ok(Failed(backupPath, duration, validation.error));
    }
    var report := validation.value;
    assert ExpectedChecks(db, metadata) == Ok(report.checks);
    r := Ok(RestoreResult(true, backupPath, report.AllPassed(), FailedDetails(report.checks), duration, None));
  }
}
