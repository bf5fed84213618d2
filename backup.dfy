/** Creating a backup: read the migration version, name the files, count the rows of the known
    tables, run pg_dump, write the sidecar, then apply local retention. The file system and the
    database are values; pg_dump is an oracle that reports how it exited and what, if anything,
    it left at the output path. */
module Backup {
  import opened Wrappers
  import opened Text
  import opened Exceptions
  import opened Json
  import opened Files
  import opened Subprocess
  import opened Models
  import opened Metadata
  import opened Retention

  /** A `BackupManager`: the database it dumps, the backup directory, the retention counts and
      the base name of the files. */
  datatype BackupManager = BackupManager(
    database: string, backupDir: string, retentionDaily: int, retentionWeekly: int, baseName: string)
  {
    /** The configuration accepts retention counts of at least 1. */
    predicate Valid() {
      retentionDaily >= 1 && retentionWeekly >= 1
    }

    function DailyDir(): string { backupDir + "/daily" }
    function WeeklyDir(): string { backupDir + "/weekly" }
    function ManualDir(): string { backupDir + "/manual" }

    /** The retention policy the manager builds over its three directories. */
    function Policy(): (r: RetentionConfig)
      requires Valid()
      ensures r.Valid()
    {
      var dirs := [DailyDir(), WeeklyDir(), ManualDir()];
      assert DailyDir()[|backupDir| + 1] == 'd' && WeeklyDir()[|backupDir| + 1] == 'w'
        && ManualDir()[|backupDir| + 1] == 'm';
      RetentionConfig(DailyDir(), WeeklyDir(), ManualDir(), retentionDaily, retentionWeekly)
    }

    /** The directory a new backup goes to: daily, weekly, and manual for any other type. */
    function OutputDir(backupType: string): string {
      if backupType == "daily" then DailyDir()
      else if backupType == "weekly" then WeeklyDir()
      else ManualDir()
    }
  }

  /** A backup is written to the directory it is listed from, and a type the listing rejects is
      written to the manual directory. */
  lemma OutputDirIsListed(m: BackupManager, backupType: string)
    requires m.Valid()
    ensures backupType in {"daily", "weekly", "manual"} ==>
              TypeDirectory(m.Policy(), backupType) == Ok(m.OutputDir(backupType))
    ensures backupType !in {"daily", "weekly", "manual"} ==>
              TypeDirectory(m.Policy(), backupType).Err? && m.OutputDir(backupType) == m.Policy().manualDir
  {
  }

  // ---------------------------------------------------------------------------
  // `_get_migration_info`
  // ---------------------------------------------------------------------------

  const DefaultMigration := MigrationInfo(0, false)

  /** The migration row as psql printed it: the stripped output holds exactly one `|`, the
      version before it and the dirty flag after it. */
  predicate MigrationRowShape(o: ProcessOutcome) {
    o.Exited? && o.returncode == 0 && Strip(o.stdout) != "" && |Split(Strip(o.stdout), '|')| == 2
  }

  /** `_get_migration_info` on psql's outcome. */
  function MigrationFromOutput(o: ProcessOutcome): MigrationInfo {
    match RunPsql(o)
    case Err(_) => DefaultMigration
    case Ok(result) =>
      if result.success && Strip(result.stdout) != "" then
        var parts := Split(Strip(result.stdout), '|');
        if |parts| == 2 then
          match ParseInt(Strip(parts[0]))
          case Some(version) => MigrationInfo(version, Lower(Strip(parts[1])) == "t")
          case None => DefaultMigration
        else DefaultMigration
      else DefaultMigration
  }

  /** What the migration read tells about psql's output: psql missing or failing gives the
      default; any other reading comes from a two-field row, a nonzero version is the integer
      before the `|`, and a dirty flag is a `t` in either case after it. */
  lemma MigrationMeaning(o: ProcessOutcome)
    ensures o.NotInstalled? || o.returncode != 0 ==> MigrationFromOutput(o) == DefaultMigration
    ensures MigrationFromOutput(o) != DefaultMigration ==> MigrationRowShape(o)
    ensures MigrationFromOutput(o).version != 0 ==>
              ParseInt(Strip(Split(Strip(o.stdout), '|')[0])) == Some(MigrationFromOutput(o).version)
    ensures MigrationFromOutput(o).dirty ==> Lower(Strip(Split(Strip(o.stdout), '|')[1])) == "t"
  {
  }

  /** A text with no white space at either end is its own strip. */
  lemma StripUnchanged(s: string)
    requires |s| > 0 && !IsSpace(s[0]) && !IsSpace(s[|s| - 1])
    ensures Strip(s) == s
  {
  }

  /** A decimal rendering of an integer holds neither a `|` nor white space. */
  lemma IntToStringChars(n: int)
    ensures var s := IntToString(n);
            && |s| > 0 && '|' !in s
            && forall i :: 0 <= i < |s| ==> !IsSpace(s[i])
  {
    var s := IntToString(n);
    if n < 0 {
      assert s == "-" + NatToString(-n);
      DigitCharsOf(-n);
    } else {
      DigitCharsOf(n);
    }
  }

  lemma {:induction false} DigitCharsOf(n: nat)
    ensures |NatToString(n)| > 0 && AllDigits(NatToString(n))
  {
    if n >= 10 {
      DigitCharsOf(n / 10);
    }
  }

  /** A row `<version>|<flag>` splits into the two texts around its one `|`. */
  lemma SplitRow(v: string, flag: string)
    requires '|' !in v && '|' !in flag
    ensures Split(v + "|" + flag, '|') == [v, flag]
  {
    var out := v + "|" + flag;
    assert out == v + ['|'] + flag;
    IndexOfAfter(v, '|', flag);
    assert out[..|v|] == v;
    assert out[|v| + 1..] == flag;
    assert Split(flag, '|') == [flag];
  }

  /** A non-empty text without `|` or white space. */
  predicate Word(flag: string) {
    |flag| > 0 && '|' !in flag && forall i :: 0 <= i < |flag| ==> !IsSpace(flag[i])
  }

  /** The text of psql's row for a version and a one-word flag, and how it is taken apart. */
  lemma RowText(version: int, flag: string)
    requires Word(flag)
    ensures var v := IntToString(version);
            var out := v + "|" + flag;
            && Strip(out) == out && out != ""
            && Split(out, '|') == [v, flag]
            && ParseInt(Strip(v)) == Some(version)
            && Strip(flag) == flag
  {
    var v := IntToString(version);
    IntToStringChars(version);
    StripUnchanged(v + "|" + flag);
    StripUnchanged(v);
    StripUnchanged(flag);
    SplitRow(v, flag);
    ParseIntOfIntToString(version);
  }

  /** psql's row for a version and a one-word flag is read as that version, dirty exactly when
      the flag lowercased is `t`. */
  lemma MigrationOfRow(version: int, flag: string, stderr: string)
    requires Word(flag)
    ensures MigrationFromOutput(Exited(0, IntToString(version) + "|" + flag, stderr))
            == MigrationInfo(version, Lower(flag) == "t")
  {
    RowText(version, flag);
  }

  /** The row psql prints for a version and a flag `t` or `f` is read back as that version and
      flag. */
  lemma MigrationRoundTrip(version: int, dirty: bool, stderr: string)
    ensures MigrationFromOutput(Exited(0, IntToString(version) + "|" + (if dirty then "t" else "f"), stderr))
            == MigrationInfo(version, dirty)
  {
    var flag := if dirty then "t" else "f";
    FlagLetter(dirty);
    MigrationOfRow(version, flag, stderr);
  }

  /** The flag letter psql prints is a word, lowercased to `t` exactly when it marks dirty. */
  lemma FlagLetter(dirty: bool)
    ensures var flag := if dirty then "t" else "f";
            Word(flag) && (Lower(flag) == "t" <==> dirty)
  {
    var flag := if dirty then "t" else "f";
    assert Lower(flag)[0] == LowerChar(flag[0]);
  }

  lemma FlagWords()
    ensures Word("true") && Word("1")
  {
  }

  /** Only the letter `t`, in either case, marks the migration dirty (MigrationOfRow): the
      words `true` and `1`, which the restore side accepts, do not. */
  lemma OnlyTIsDirty(version: int, stderr: string)
    ensures !MigrationFromOutput(Exited(0, IntToString(version) + "|" + "true", stderr)).dirty
    ensures !MigrationFromOutput(Exited(0, IntToString(version) + "|" + "1", stderr)).dirty
  {
    FlagWords();
    MigrationOfRow(version, "true", stderr);
    assert |Lower("true")| != |"t"|;
    MigrationOfRow(version, "1", stderr);
    assert Lower("1")[0] == '1';
  }

  // ---------------------------------------------------------------------------
  // `_get_table_counts`
  // ---------------------------------------------------------------------------

  /** One table's probe: the integer psql printed, or None when the query fails, prints nothing
      or prints something that is not an integer. */
  function Probe(db: Database, table: string): (r: Option<int>)
    ensures RunPsql(db(RowCount(table))).Err? || Strip(db(RowCount(table)).stdout) == "" ==> r.None?
    ensures r.Some? ==> RunPsql(db(RowCount(table))).Ok? && ParseInt(Strip(db(RowCount(table)).stdout)) == r
  {
    match RunPsql(db(RowCount(table)))
    case Err(_) => None
    case Ok(result) =>
      if result.success && Strip(result.stdout) != "" then ParseInt(Strip(result.stdout)) else None
  }

  /** The counts after probing `tables` in order, starting from `start`: a probe that yields no
      integer leaves the record as it was. */
  function CountsOf(db: Database, start: TableCounts, tables: seq<string>): TableCounts {
    if tables == [] then start
    else
      var last := tables[|tables| - 1];
      var before := CountsOf(db, start, tables[..|tables| - 1]);
      match Probe(db, last)
      case Some(n) => before.With(last, n)
      case None => before
  }

  /** After probing distinct tables from a fresh record, each counted table among them holds its
      probe's integer, or 0 when the probe yielded none, and every other table still holds 0. */
  lemma {:induction false} CountsOfTables(db: Database, tables: seq<string>, t: string)
    requires Distinct(tables)
    ensures t in tables && t in CountedTables ==> CountsOf(db, ZeroCounts(), tables).Count(t) == Probe(db, t).GetOr(0)
    ensures t !in tables ==> CountsOf(db, ZeroCounts(), tables).Count(t) == 0
  {
    if tables != [] {
      var init := tables[..|tables| - 1];
      var last := tables[|tables| - 1];
      assert Distinct(init) by {
        forall i, j | 0 <= i < j < |init| ensures init[i] != init[j] {
          assert init[i] == tables[i] && init[j] == tables[j];
        }
      }
      assert last !in init by {
        forall i | 0 <= i < |init| ensures init[i] != last {
          assert init[i] == tables[i];
        }
      }
      assert t in tables && t != last ==> t in init by {
        if t in tables && t != last {
          var i :| 0 <= i < |tables| && tables[i] == t;
          assert init[i] == t;
        }
      }
      CountsOfTables(db, init, t);
      CountsOfTables(db, init, last);
    }
  }

  /** The counts a backup records: each counted table holds its probe's integer, and a table
      whose probe failed keeps 0. */
  lemma CountsOfCounted(db: Database, t: string)
    requires t in CountedTables
    ensures CountsOf(db, ZeroCounts(), CountedTables).Count(t) == Probe(db, t).GetOr(0)
    ensures RunPsql(db(RowCount(t))).Err? ==> CountsOf(db, ZeroCounts(), CountedTables).Count(t) == 0
  {
    CountedTablesDistinct();
    CountsOfTables(db, CountedTables, t);
  }

  /** The loop of `_get_table_counts` over any list of tables: a failed probe never stops it. */
  method ProbeTables(db: Database, start: TableCounts, tables: seq<string>) returns (counts: TableCounts)
    ensures counts == CountsOf(db, start, tables)
  {
    counts := start;
    for i := 0 to |tables|
      invariant counts == CountsOf(db, start, tables[..i])
    {
      var table := tables[i];
      assert tables[..i + 1][..i] == tables[..i];
      var result := RunPsql(db(RowCount(table)));
      if result.Ok? && result.value.success && Strip(result.value.stdout) != "" {
        var parsed := ParseInt(Strip(result.value.stdout));
        if parsed.Some? {
          counts := counts.With(table, parsed.value);
        }
      }
    }
    assert tables[..|tables|] == tables;
  }

  /** `_get_table_counts`: probe the nine tables in turn, starting from a fresh record. */
  method GetTableCounts(db: Database) returns (counts: TableCounts)
    ensures counts == CountsOf(db, ZeroCounts(), CountedTables)
  {
    counts := ProbeTables(db, ZeroCounts(), CountedTables);
  }

  // ---------------------------------------------------------------------------
  // `create_backup`
  // ---------------------------------------------------------------------------

  /** pg_dump writes its archive to the output path when it runs and leaves output behind. */
  function PgDumpWrites(fs: Fs, path: Path, dump: ProcessOutcome, output: Option<seq<bv8>>): (r: Fs)
    ensures r.dirs == fs.dirs && r.locked == fs.locked && r.unsearchable == fs.unsearchable
    ensures forall p :: p != path ==> (p in r.files <==> p in fs.files) && (p in r.files ==> r.files[p] == fs.files[p])
  {
    if dump.Exited? && output.Some? then fs.(files := fs.files[path := Blob(output.value)]) else fs
  }

  /** The two paths of a new backup: the dump and its sidecar, in the type's directory, named
      after the migration version read from the database. */
  function BackupPaths(m: BackupManager, db: Database, backupType: string, nameTime: DateTime): (r: (Path, Path))
    ensures r.0.Path? && r.1.Path? && r.0.dir == r.1.dir == m.OutputDir(backupType)
    ensures var names := GenerateBackupFilename(m.baseName, backupType, MigrationFromOutput(db(MigrationRow)).version, nameTime);
            r.0.name == names.0 && r.1.name == names.1
    ensures EndsWith(r.0.name, ".dump") && r.1 == Sidecar(r.0) && r.0 != r.1
  {
    var names := GenerateBackupFilename(m.baseName, backupType, MigrationFromOutput(db(MigrationRow)).version, nameTime);
    var dir := m.OutputDir(backupType);
    SidecarIsNotDump(names.0);
    (Path(dir, names.0), Path(dir, names.1))
  }

  /** The result `create_backup` returns for an exception with message `msg`. */
  function Failure(m: BackupManager, backupType: string, now: DateTime, msg: string): BackupResult {
    BackupResult(false, NoPath, NoPath, BackupInfo(now, backupType, m.database, "", 0), "", Some(msg))
  }

  /** The sidecar of a new backup: the dump's description, the migration read first, the row
      counts, and an empty checksum. */
  function SidecarOf(m: BackupManager, db: Database, backupType: string, now: DateTime, dump: Path, size: nat): Value {
    var info := BackupInfo(now, backupType, m.database, dump.Name(), size);
    GenerateMetadataDict(info, MigrationFromOutput(db(MigrationRow)), CountsOf(db, ZeroCounts(), CountedTables), "")
  }

  /** The file system once the output directory is made and pg_dump has run. */
  function Dumped(fs: Fs, backupPath: Path, dump: ProcessOutcome, output: Option<seq<bv8>>): Fs
    requires backupPath.Path?
  {
    PgDumpWrites(fs.(dirs := fs.dirs + {backupPath.dir}), backupPath, dump, output)
  }

  /** What the first steps of `create_backup` raise: making the output directory fails when its
      parent may not be searched; pg_dump raises on a failed run; and a run that left no file
      at the output path is reported as a BackupError. */
  function DumpError(fs: Fs, backupPath: Path, dump: ProcessOutcome, output: Option<seq<bv8>>): (r: Option<Error>)
    requires backupPath.Path?
    ensures r.None? <==>
              backupPath.dir !in fs.unsearchable && RunPgDump(dump).Ok? && backupPath in Dumped(fs, backupPath, dump, output).files
    ensures backupPath.dir in fs.unsearchable ==> r.Some? && r.value.OSError?
    ensures backupPath.dir !in fs.unsearchable && RunPgDump(dump).Err? ==> r == Some(RunPgDump(dump).error)
    ensures backupPath.dir !in fs.unsearchable && RunPgDump(dump).Ok? && backupPath !in Dumped(fs, backupPath, dump, output).files ==>
              r == Some(BackupError("Backup file was not created: " + backupPath.Str()))
  {
    match Mkdir(fs, backupPath.dir)
    case Err(e) => Some(e)
    case Ok(_) =>
      match RunPgDump(dump)
      case Err(e) => Some(e)
      case Ok(_) =>
        if backupPath !in Dumped(fs, backupPath, dump, output).files then
          Some(BackupError("Backup file was not created: " + backupPath.Str()))
        else None
  }

  /** `create_backup`, step by step. Every exception becomes a failure result: nothing is
      raised. `saved` is the file system right after the sidecar was written, when that step
      was reached and succeeded. The sidecar is written only after pg_dump returned and its file
      exists; a failure before that leaves the file system as pg_dump left it, with no sidecar
      and no retention; after it, retention runs, and its failure fails the whole backup although
      both files were written. */
  method CreateBackup(
    m: BackupManager, fs: Fs, db: Database, dump: ProcessOutcome, output: Option<seq<bv8>>,
    backupType: string, nameTime: DateTime, now: DateTime)
    returns (after: Fs, result: BackupResult, ghost saved: Option<Fs>)
    requires m.Valid()
    ensures !result.success ==> result.error.Some? && result == Failure(m, backupType, now, result.error.value)
    ensures var (backupPath, metadataPath) := BackupPaths(m, db, backupType, nameTime);
            var failed := DumpError(fs, backupPath, dump, output);
            var dumped := Dumped(fs, backupPath, dump, output);
            && (failed.Some? ==>
                  && saved.None? && !result.success && result.error == Some(failed.value.Message())
                  && after == if backupPath.dir in fs.unsearchable then fs else dumped)
            && (failed.None? && saved.None? ==> !result.success && after == dumped)
            && (saved.Some? ==>
                  && failed.None?
                  && var size := SizeOf(dumped.files[backupPath]);
                  && saved.value.files == dumped.files[metadataPath := Document(SidecarOf(m, db, backupType, now, backupPath, size))]
                  && (after, result) == Retained(m, saved.value, backupType, now, backupPath, metadataPath,
                       BackupInfo(now, backupType, m.database, backupPath.name, size)))
  {
    // 1. The migration version, and the file names.
    var migration := MigrationFromOutput(db(MigrationRow));
    var (backupPath, metadataPath) := BackupPaths(m, db, backupType, nameTime);
    // 2. The row counts, then pg_dump and the check that it left a file.
    var counts := GetTableCounts(db);
    var failed;
    after, failed := DumpStep(fs, backupPath, dump, output);
    if failed.Some? {
      return after, Failure(m, backupType, now, failed.value.Message()), None;
    }
    // 3. The sidecar, with an empty checksum, then retention.
    var info, doc := Describe(m, db, migration, counts, backupType, now, backupPath, SizeOf(after.files[backupPath]));
    after, result, saved := SaveAndRetain(m, after, backupType, now, backupPath, metadataPath, info, doc);
  }

  /** The description of a new dump and the sidecar built from it, the migration and the
      counts, with an empty checksum. */
  method Describe(
    m: BackupManager, db: Database, migration: MigrationInfo, counts: TableCounts,
    backupType: string, now: DateTime, backupPath: Path, size: nat)
    returns (info: BackupInfo, doc: Value)
    requires migration == MigrationFromOutput(db(MigrationRow)) && counts == CountsOf(db, ZeroCounts(), CountedTables)
    ensures info == BackupInfo(now, backupType, m.database, backupPath.Name(), size)
    ensures doc == SidecarOf(m, db, backupType, now, backupPath, size)
  {
    info := BackupInfo(now, backupType, m.database, backupPath.Name(), size);
    doc := GenerateMetadataDict(info, migration, counts, "");
  }

  /** The middle steps of `create_backup`: make the output directory, run pg_dump, and check
      that the dump file exists. */
  method DumpStep(fs: Fs, backupPath: Path, dump: ProcessOutcome, output: Option<seq<bv8>>)
    returns (after: Fs, failed: Option<Error>)
    requires backupPath.Path?
    ensures failed == DumpError(fs, backupPath, dump, output)
    ensures after == if backupPath.dir in fs.unsearchable then fs else Dumped(fs, backupPath, dump, output)
  {
    var made := Mkdir(fs, backupPath.dir);
    if made.Err? {
      return fs, Some(made.error);
    }
    after := PgDumpWrites(made.value, backupPath, dump, output);
    var dumped := RunPgDump(dump);
    if dumped.Err? {
      return after, Some(dumped.error);
    }
    if backupPath !in after.files {
      return after, Some(BackupError("Backup file was not created: " + backupPath.Str()));
    }
    return after, None;
  }

  /** The last two steps of `create_backup`: write the sidecar, then apply retention; either
      failure becomes a failure result. `saved` is the file system right after the sidecar was
      written. */
  method SaveAndRetain(
    m: BackupManager, fs: Fs, backupType: string, now: DateTime,
    backupPath: Path, metadataPath: Path, info: BackupInfo, doc: Value)
    returns (after: Fs, result: BackupResult, ghost saved: Option<Fs>)
    requires m.Valid()
    ensures saved.None? <==> SaveMetadata(fs, metadataPath, doc).Err?
    ensures saved.None? ==>
              after == fs && result == Failure(m, backupType, now, SaveMetadata(fs, metadataPath, doc).error.Message())
    ensures saved.Some? ==>
              && saved.value == fs.(dirs := fs.dirs + {metadataPath.dir}, files := fs.files[metadataPath := Document(doc)])
              && (after, result) == Retained(m, saved.value, backupType, now, backupPath, metadataPath, info)
  {
    after, saved := fs, None;
    var written := SaveMetadata(after, metadataPath, doc);
    if written.Err? {
      return after, Failure(m, backupType, now, written.error.Message()), saved;
    }
    after := written.value;
    saved := Some(after);
    var report;
    after, report := EnforceRetention(m.Policy(), after);
    if report.Err? {
      return after, Failure(m, backupType, now, report.error.Message()), saved;
    }
    return after, BackupResult(true, backupPath, metadataPath, info, "", None), saved;
  }

  /** The end of `create_backup` once the sidecar is written: retention runs on the saved file
      system; the backup succeeds, describing the dump and its sidecar, exactly when retention
      does, and otherwise fails with retention's message. */
  function Retained(
    m: BackupManager, saved: Fs, backupType: string, now: DateTime,
    backupPath: Path, metadataPath: Path, info: BackupInfo): (r: (Fs, BackupResult))
    requires m.Valid()
    ensures r.0 == Enforce(m.Policy(), saved).0
    ensures r.1.success <==> Enforce(m.Policy(), saved).1.Ok?
    ensures r.1.success ==> r.1 == BackupResult(true, backupPath, metadataPath, info, "", None)
    ensures !r.1.success ==> r.1 == Failure(m, backupType, now, Enforce(m.Policy(), saved).1.error.Message())
  {
    var (after, report) := Enforce(m.Policy(), saved);
    match report
    case Ok(_) => (after, BackupResult(true, backupPath, metadataPath, info, "", None))
    case Err(e) => (after, Failure(m, backupType, now, e.Message()))
  }

  /** Retention never touches the manual directory: a manual backup's files, once written,
      survive the sweep that follows, whether it succeeds or fails. */
  lemma RetentionSparesManual(m: BackupManager, saved: Fs, p: Path)
    requires m.Valid()
    requires p in saved.files && p.Path? && p.dir == m.ManualDir()
    ensures p in Enforce(m.Policy(), saved).0.files
  {
    EnforceTouchesOnlySweptDirs(m.Policy(), saved);
  }

  /** The sidecar of a backup carries an empty checksum, the name and size of its dump, and the
      migration version that also appears in the dump's name. */
  lemma SidecarOfBackup(m: BackupManager, db: Database, backupType: string, now: DateTime, dump: Path, size: nat)
    ensures var doc := SidecarOf(m, db, backupType, now, dump, size);
            && Field(doc, "backup_info", "checksum_sha256") == Ok(Str(""))
            && Field(doc, "backup_info", "filename") == Ok(Str(dump.Name()))
            && Field(doc, "backup_info", "size_bytes") == Ok(Int(size))
            && Field(doc, "migration_info", "version") == Ok(Int(MigrationFromOutput(db(MigrationRow)).version))
  {
    var info := BackupInfo(now, backupType, m.database, dump.Name(), size);
    SidecarFields(info, MigrationFromOutput(db(MigrationRow)), CountsOf(db, ZeroCounts(), CountedTables), "");
  }

  // ---------------------------------------------------------------------------
  // `list_backups`, `get_latest_backup`
  // ---------------------------------------------------------------------------

  /** `list_backups`: an unknown type raises ValueError, a missing directory lists nothing, and
      otherwise the `.dump` files of the type's directory are listed in name order. */
  function ListBackups(m: BackupManager, fs: Fs, backupType: string): (r: Result<seq<Path>, Error>)
    ensures backupType !in {"daily", "weekly", "manual"} ==> r == Err(ValueError("Invalid backup type: " + backupType))
    ensures r.Ok? ==> forall i, j :: 0 <= i < j < |r.value| ==> LexLess(r.value[i].Name(), r.value[j].Name())
    ensures backupType in {"daily", "weekly", "manual"} ==>
              var dir := m.OutputDir(backupType);
              && (r.Ok? <==> dir !in fs.unsearchable)
              && (r.Ok? ==> forall p :: p in r.value <==> dir in fs.dirs && p.Path? && p.dir == dir && p in fs.files && EndsWith(p.name, ".dump"))
  {
    var directory :=
      if backupType == "daily" then Ok(m.DailyDir())
      else if backupType == "weekly" then Ok(m.WeeklyDir())
      else if backupType == "manual" then Ok(m.ManualDir())
      else Err(ValueError("Invalid backup type: " + backupType));
    match directory
    case Err(e) => Err(e)
    case Ok(dir) =>
      match DirExists(fs, dir)
      case Err(e) => Err(e)
      case Ok(present) =>
        if !present then Ok([])
        else Ok(PathsIn(dir, SortedDumps(fs, dir)))
  }

  /** The manager lists exactly what the retention policy over its directories lists. */
  lemma ListBackupsAsPolicy(m: BackupManager, fs: Fs, backupType: string)
    requires m.Valid()
    ensures ListBackups(m, fs, backupType) == Retention.ListBackups(m.Policy(), fs, backupType)
  {
  }

  /** `get_latest_backup`: the last listed dump, or None when there is none. */
  function GetLatestBackup(m: BackupManager, fs: Fs, backupType: string): (r: Result<Option<Path>, Error>)
    ensures r.Ok? <==> ListBackups(m, fs, backupType).Ok?
    ensures r.Ok? ==> (r.value.None? <==> ListBackups(m, fs, backupType).value == [])
    ensures r.Ok? && r.value.Some? ==>
              var listed := ListBackups(m, fs, backupType).value;
              && r.value.value in listed
              && forall i :: 0 <= i < |listed| && listed[i] != r.value.value ==> LexLess(listed[i].Name(), r.value.value.Name())
  {
    match ListBackups(m, fs, backupType)
    case Err(e) => Err(e)
    case Ok(backups) =>
      if backups == [] then Ok(None)
      else
        var last := backups[|backups| - 1];
        LastIsGreatest(backups);
        Ok(Some(last))
  }

  /** In a list sorted by name, every other entry's name is below the last one's. */
  lemma LastIsGreatest(listed: seq<Path>)
    requires listed != []
    requires forall i, j :: 0 <= i < j < |listed| ==> LexLess(listed[i].Name(), listed[j].Name())
    ensures forall i :: 0 <= i < |listed| && listed[i] != listed[|listed| - 1] ==>
              LexLess(listed[i].Name(), listed[|listed| - 1].Name())
  {
    forall i | 0 <= i < |listed| && listed[i] != listed[|listed| - 1]
      ensures LexLess(listed[i].Name(), listed[|listed| - 1].Name())
    {
      assert i < |listed| - 1;
    }
  }
}
