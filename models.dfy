/** The records the backup and restore operations exchange, and their `to_dict` projections
    into JSON values. */
module Models {
  import opened Wrappers
  import opened Text
  import opened Json
  import opened Files

  // ---------------------------------------------------------------------------
  // Date and time values
  // ---------------------------------------------------------------------------

  /** A `datetime`: `utc` tells an aware UTC value from a naive one. */
  datatype DateTime = DateTime(
    year: nat, month: nat, day: nat,
    hour: nat, minute: nat, second: nat, micro: nat,
    utc: bool)
  {
    /** The field ranges `datetime` enforces (the day is not checked against the month). */
    predicate Valid() {
      1 <= year <= 9999 && 1 <= month <= 12 && 1 <= day <= 31
      && hour < 24 && minute < 60 && second < 60 && micro < 1000000
    }

    /** `isoformat()`: microseconds only when nonzero, and `+00:00` for an aware UTC value. */
    function IsoFormat(): string {
      PadDecimal(year, 4) + "-" + PadDecimal(month, 2) + "-" + PadDecimal(day, 2)
      + "T" + PadDecimal(hour, 2) + ":" + PadDecimal(minute, 2) + ":" + PadDecimal(second, 2)
      + (if micro != 0 then "." + PadDecimal(micro, 6) else "")
      + (if utc then "+00:00" else "")
    }
  }

  /** `a` falls in an earlier second than `b`. */
  predicate EarlierSecond(a: DateTime, b: DateTime) {
    if a.year != b.year then a.year < b.year
    else if a.month != b.month then a.month < b.month
    else if a.day != b.day then a.day < b.day
    else if a.hour != b.hour then a.hour < b.hour
    else if a.minute != b.minute then a.minute < b.minute
    else a.second < b.second
  }

  predicate SameSecond(a: DateTime, b: DateTime) {
    a.year == b.year && a.month == b.month && a.day == b.day
    && a.hour == b.hour && a.minute == b.minute && a.second == b.second
  }

  /** `a < b` on datetimes of one kind. */
  predicate Earlier(a: DateTime, b: DateTime) {
    EarlierSecond(a, b) || (SameSecond(a, b) && a.micro < b.micro)
  }

  // ---------------------------------------------------------------------------
  // Records
  // ---------------------------------------------------------------------------

  /** The keys of a dictionary are pairwise different. */
  predicate DistinctKeys(fields: seq<(string, Value)>) {
    forall i, j :: 0 <= i < j < |fields| ==> fields[i].0 != fields[j].0
  }

  /** In a dictionary with distinct keys, each key finds its own value. */
  lemma {:induction false} LookupAt(fields: seq<(string, Value)>, i: nat)
    requires DistinctKeys(fields) && i < |fields|
    ensures Lookup(fields, fields[i].0) == Some(fields[i].1)
  {
    if i > 0 {
      assert DistinctKeys(fields[1..]) by {
        forall a, b | 0 <= a < b < |fields| - 1
          ensures fields[1..][a].0 != fields[1..][b].0
        {
          assert fields[1..][a] == fields[a + 1] && fields[1..][b] == fields[b + 1];
        }
      }
      assert fields[1..][i - 1] == fields[i];
      LookupAt(fields[1..], i - 1);
    }
  }

  /** A dictionary with exactly `keys`, in order, each holding the matching value of `values`. */
  predicate IsDict(v: Value, keys: seq<string>, values: seq<Value>) {
    && |keys| == |values|
    && v.Object?
    && Keys(v.fields) == keys
    && forall i :: 0 <= i < |keys| ==> Lookup(v.fields, keys[i]) == Some(values[i])
  }

  /** `v[keys[i]]` on such a dictionary is `values[i]`. */
  lemma IndexDict(v: Value, keys: seq<string>, values: seq<Value>, i: nat)
    requires IsDict(v, keys, values) && i < |keys|
    ensures Index(v, keys[i]) == Ok(values[i])
  {
    assert Lookup(v.fields, keys[i]) == Some(values[i]);
  }

  /** Builds a dictionary from distinct keys and their values; it has exactly those entries. */
  function Dict(keys: seq<string>, values: seq<Value>): (r: Value)
    requires |keys| == |values|
    requires forall i, j :: 0 <= i < j < |keys| ==> keys[i] != keys[j]
    ensures IsDict(r, keys, values)
  {
    var fields := seq(|keys|, i requires 0 <= i < |keys| => (keys[i], values[i]));
    assert DistinctKeys(fields);
    forall i | 0 <= i < |keys|
      ensures Lookup(fields, keys[i]) == Some(values[i])
    {
      LookupAt(fields, i);
    }
    Object(fields)
  }

  /** `MigrationInfo`: the schema version recorded in `schema_migrations` and its dirty flag. */
  datatype MigrationInfo = MigrationInfo(version: int, dirty: bool) {
    /** `to_dict`: exactly `version` and `dirty`. */
    function ToDict(): (r: Value)
      ensures IsDict(r, ["version", "dirty"], [Int(version), Bool(dirty)])
    {
      Dict(["version", "dirty"], [Int(version), Bool(dirty)])
    }
  }

  /** The nine tables whose row counts a backup records, in declaration order. */
  const CountedTables: seq<string> := [
    "clients", "users", "ioc", "group_scans", "ioc_scans",
    "virustotal_scan_results", "scan_results_generic", "firewalls", "action_logs"
  ]

  lemma CountedTablesDistinct()
    ensures forall i, j :: 0 <= i < j < |CountedTables| ==> CountedTables[i] != CountedTables[j]
  {
  }

  /** `TableCounts`: one row count per counted table, each 0 unless set. */
  datatype TableCounts = TableCounts(
    clients: int, users: int, ioc: int, groupScans: int, iocScans: int,
    virustotalScanResults: int, scanResultsGeneric: int, firewalls: int, actionLogs: int)
  {
    /** `getattr(counts, table)`; a name that is not a counted table reads as 0. */
    function Count(table: string): int {
      match table
      case "clients" => clients
      case "users" => users
      case "ioc" => ioc
      case "group_scans" => groupScans
      case "ioc_scans" => iocScans
      case "virustotal_scan_results" => virustotalScanResults
      case "scan_results_generic" => scanResultsGeneric
      case "firewalls" => firewalls
      case "action_logs" => actionLogs
      case _ => 0
    }

    /** `setattr(counts, table, n)`: only that table's count changes. A name that is not a
        counted table would add an attribute `to_dict` never reads, so the counts stay. */
    function With(table: string, n: int): (r: TableCounts)
      ensures table in CountedTables ==> r.Count(table) == n
      ensures forall t :: t != table ==> r.Count(t) == Count(t)
    {
      match table
      case "clients" => this.(clients := n)
      case "users" => this.(users := n)
      case "ioc" => this.(ioc := n)
      case "group_scans" => this.(groupScans := n)
      case "ioc_scans" => this.(iocScans := n)
      case "virustotal_scan_results" => this.(virustotalScanResults := n)
      case "scan_results_generic" => this.(scanResultsGeneric := n)
      case "firewalls" => this.(firewalls := n)
      case "action_logs" => this.(actionLogs := n)
      case _ => this
    }

    /** `to_dict`: exactly the nine table names, in order, each with its count. */
    function ToDict(): (r: Value)
      ensures r.Object? && Keys(r.fields) == CountedTables
      ensures forall i :: 0 <= i < |CountedTables| ==> Index(r, CountedTables[i]) == Ok(Int(Count(CountedTables[i])))
    {
      CountedTablesDistinct();
      var values := seq(9, i requires 0 <= i < 9 => Int(Count(CountedTables[i])));
      var r := Dict(CountedTables, values);
      forall i | 0 <= i < |CountedTables|
        ensures Index(r, CountedTables[i]) == Ok(Int(Count(CountedTables[i])))
      {
        IndexDict(r, CountedTables, values, i);
      }
      r
    }
  }

  /** `TableCounts()`: a fresh record has every count 0. */
  function ZeroCounts(): (r: TableCounts)
    ensures forall t :: r.Count(t) == 0
  {
    TableCounts(0, 0, 0, 0, 0, 0, 0, 0, 0)
  }

  /** `BackupInfo`: what one backup is. */
  datatype BackupInfo = BackupInfo(timestamp: DateTime, kind: string, database: string, filename: string, sizeBytes: int) {
    /** `to_dict`: five keys; the timestamp is its ISO text with "Z" appended. */
    function ToDict(): (r: Value)
      ensures IsDict(r, ["timestamp", "type", "database", "filename", "size_bytes"],
                     [Str(timestamp.IsoFormat() + "Z"), Str(kind), Str(database), Str(filename), Int(sizeBytes)])
    {
      Dict(["timestamp", "type", "database", "filename", "size_bytes"],
           [Str(timestamp.IsoFormat() + "Z"), Str(kind), Str(database), Str(filename), Int(sizeBytes)])
    }
  }

  /** A backup's own description carries no checksum. */
  lemma BackupInfoHasNoChecksum(info: BackupInfo)
    ensures Index(info.ToDict(), "checksum_sha256").Err?
  {
    var d := info.ToDict();
    assert Keys(d.fields) == ["timestamp", "type", "database", "filename", "size_bytes"];
  }

  /** `str | None` as JSON. */
  function OptionalText(s: Option<string>): Value {
    match s
    case Some(t) => Str(t)
    case None => Null
  }

  /** `BackupResult`: the outcome `create_backup` reports. */
  datatype BackupResult = BackupResult(
    success: bool, backupPath: Path, metadataPath: Path, info: BackupInfo,
    checksum: string, error: Option<string>)
  {
    /** `to_dict`: one key per field, paths as text, the info as its own dictionary. */
    function ToDict(): (r: Value)
      ensures IsDict(r, ["success", "backup_path", "metadata_path", "backup_info", "checksum", "error"],
                     [Bool(success), Str(backupPath.Str()), Str(metadataPath.Str()), info.ToDict(),
                      Str(checksum), OptionalText(error)])
    {
      Dict(["success", "backup_path", "metadata_path", "backup_info", "checksum", "error"],
           [Bool(success), Str(backupPath.Str()), Str(metadataPath.Str()), info.ToDict(),
            Str(checksum), OptionalText(error)])
    }
  }

  function TextArray(items: seq<string>): (r: Value)
    ensures r.Array? && |r.items| == |items| && forall i :: 0 <= i < |items| ==> r.items[i] == Str(items[i])
  {
    Array(seq(|items|, i requires 0 <= i < |items| => Str(items[i])))
  }

  /** `RestoreResult`: the outcome `restore_backup` reports. */
  datatype RestoreResult = RestoreResult(
    success: bool, backupFile: Path, validationPassed: bool, validationErrors: seq<string>,
    durationSeconds: real, error: Option<string>)
  {
    /** `to_dict`: one key per field. */
    function ToDict(): (r: Value)
      ensures IsDict(r, ["success", "backup_file", "validation_passed", "validation_errors", "duration_seconds", "error"],
                     [Bool(success), Str(backupFile.Str()), Bool(validationPassed), TextArray(validationErrors),
                      Float(durationSeconds), OptionalText(error)])
    {
      Dict(["success", "backup_file", "validation_passed", "validation_errors", "duration_seconds", "error"],
           [Bool(success), Str(backupFile.Str()), Bool(validationPassed), TextArray(validationErrors),
            Float(durationSeconds), OptionalText(error)])
    }
  }

  /** `ValidationResult`: one validation check; `expected` and `actual` default to None. */
  datatype ValidationResult = ValidationResult(checkName: string, passed: bool, details: string, expected: Value, actual: Value)

  function Check(name: string, passed: bool, details: string): ValidationResult {
    ValidationResult(name, passed, details, Null, Null)
  }

  /** `BackupMetadata`: the full description of a backup, including its checksum. */
  datatype BackupMetadata = BackupMetadata(
    info: BackupInfo, migration: MigrationInfo, counts: TableCounts, checksumSha256: string, enumTypes: seq<string>)
  {
    /** `to_dict`: four sections; the checksum is not among them. */
    function ToDict(): (r: Value)
      ensures IsDict(r, ["backup_info", "migration_info", "table_counts", "enum_types"],
                     [info.ToDict(), migration.ToDict(), counts.ToDict(), TextArray(enumTypes)])
      ensures "checksum_sha256" !in Keys(r.fields)
    {
      Dict(["backup_info", "migration_info", "table_counts", "enum_types"],
           [info.ToDict(), migration.ToDict(), counts.ToDict(), TextArray(enumTypes)])
    }
  }
}
