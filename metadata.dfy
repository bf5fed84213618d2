/** Backup file names and the JSON sidecar that describes each backup. */
module Metadata {
  import opened Wrappers
  import opened Text
  import opened Exceptions
  import opened Json
  import opened Files
  import opened Models

  // ---------------------------------------------------------------------------
  // File names
  // ---------------------------------------------------------------------------

  /** `timestamp.strftime("%Y%m%d_%H%M%S")`: fifteen characters of fixed width. */
  function TimestampText(t: DateTime): (s: string)
    ensures |s| == 15
  {
    PadDecimal(t.year, 4) + (PadDecimal(t.month, 2) + (PadDecimal(t.day, 2)
      + ("_" + (PadDecimal(t.hour, 2) + (PadDecimal(t.minute, 2) + PadDecimal(t.second, 2))))))
  }

  /** `{base_name}_{timestamp}_v{migration_version}_{backup_type}`. */
  function BackupStem(baseName: string, kind: string, version: int, t: DateTime): string {
    (baseName + "_") + (TimestampText(t) + ("_v" + IntToString(version) + "_" + kind))
  }

  /** `generate_backup_filename`: a dump name and a sidecar name that share one stem and differ
      only in their suffix; the sidecar is what pathlib's `with_suffix(".json")` makes of the dump. */
  function GenerateBackupFilename(baseName: string, kind: string, version: int, t: DateTime): (r: (string, string))
    ensures EndsWith(r.0, ".dump") && EndsWith(r.1, ".json")
    ensures |r.0| == |r.1| && r.0[..|r.0| - 5] == r.1[..|r.1| - 5]
    ensures StartsWith(r.0, baseName + "_" + TimestampText(t))
    ensures WithSuffix(r.0, ".json") == r.1
  {
    var stem := BackupStem(baseName, kind, version, t);
    SidecarName(stem);
    assert (stem + ".dump")[..|stem|] == stem && (stem + ".json")[..|stem|] == stem;
    assert (stem + ".dump")[..|baseName + "_" + TimestampText(t)|] == baseName + "_" + TimestampText(t);
    (stem + ".dump", stem + ".json")
  }

  /** Zero-padded fields of one width compare as text as they compare as numbers. */
  lemma PadCompare(n: nat, m: nat, width: nat)
    requires n < Pow10(width) && m < Pow10(width)
    ensures LexLess(PadDecimal(n, width), PadDecimal(m, width)) <==> n < m
    ensures PadDecimal(n, width) == PadDecimal(m, width) <==> n == m
  {
    PadDecimalOrder(n, m, width);
    PadDecimalOrder(m, n, width);
    LexIrreflexive(PadDecimal(n, width));
  }

  /** The timestamp text orders timestamps chronologically, to the second. */
  lemma {:induction false} TimestampTextOrder(t1: DateTime, t2: DateTime)
    requires t1.Valid() && t2.Valid()
    ensures LexLess(TimestampText(t1), TimestampText(t2)) <==> EarlierSecond(t1, t2)
  {
    assert Pow10(2) == 100 && Pow10(4) == 10000;
    var s1, s2 := PadDecimal(t1.second, 2), PadDecimal(t2.second, 2);
    var mi1, mi2 := PadDecimal(t1.minute, 2) + s1, PadDecimal(t2.minute, 2) + s2;
    var h1, h2 := PadDecimal(t1.hour, 2) + mi1, PadDecimal(t2.hour, 2) + mi2;
    var u1, u2 := "_" + h1, "_" + h2;
    var d1, d2 := PadDecimal(t1.day, 2) + u1, PadDecimal(t2.day, 2) + u2;
    var mo1, mo2 := PadDecimal(t1.month, 2) + d1, PadDecimal(t2.month, 2) + d2;
    PadCompare(t1.second, t2.second, 2);
    PadCompare(t1.minute, t2.minute, 2);
    LexBlocks(PadDecimal(t1.minute, 2), s1, PadDecimal(t2.minute, 2), s2);
    PadCompare(t1.hour, t2.hour, 2);
    LexBlocks(PadDecimal(t1.hour, 2), mi1, PadDecimal(t2.hour, 2), mi2);
    LexCommonPrefix("_", h1, h2);
    PadCompare(t1.day, t2.day, 2);
    LexBlocks(PadDecimal(t1.day, 2), u1, PadDecimal(t2.day, 2), u2);
    PadCompare(t1.month, t2.month, 2);
    LexBlocks(PadDecimal(t1.month, 2), d1, PadDecimal(t2.month, 2), d2);
    PadCompare(t1.year, t2.year, 4);
    LexBlocks(PadDecimal(t1.year, 4), mo1, PadDecimal(t2.year, 4), mo2);
  }

  /** What follows the timestamp in a dump name. */
  function NameTail(kind: string, version: int): string {
    "_v" + IntToString(version) + "_" + kind + ".dump"
  }

  lemma DumpNameShape(baseName: string, kind: string, version: int, t: DateTime)
    ensures GenerateBackupFilename(baseName, kind, version, t).0
            == (baseName + "_") + (TimestampText(t) + NameTail(kind, version))
  {
    var p, ts, mid := baseName + "_", TimestampText(t), "_v" + IntToString(version) + "_" + kind;
    assert (p + (ts + mid)) + ".dump" == p + ((ts + mid) + ".dump");
    assert (ts + mid) + ".dump" == ts + (mid + ".dump");
  }

  /** Two names made from one base name in different seconds sort as their timestamps do,
      whatever their migration versions and backup types. */
  lemma {:induction false} FilenameOrder(
    baseName: string, kind1: string, version1: int, t1: DateTime,
    kind2: string, version2: int, t2: DateTime)
    requires t1.Valid() && t2.Valid() && !SameSecond(t1, t2)
    ensures LexLess(GenerateBackupFilename(baseName, kind1, version1, t1).0,
                    GenerateBackupFilename(baseName, kind2, version2, t2).0)
            <==> EarlierSecond(t1, t2)
  {
    var p := baseName + "_";
    var ts1, ts2 := TimestampText(t1), TimestampText(t2);
    var r1, r2 := NameTail(kind1, version1), NameTail(kind2, version2);
    DumpNameShape(baseName, kind1, version1, t1);
    DumpNameShape(baseName, kind2, version2, t2);
    LexCommonPrefix(p, ts1 + r1, ts2 + r2);
    TimestampTextOrder(t1, t2);
    TimestampTextOrder(t2, t1);
    LexIrreflexive(ts1);
    LexBlocks(ts1, r1, ts2, r2);
  }

  // ---------------------------------------------------------------------------
  // The sidecar document
  // ---------------------------------------------------------------------------

  /** The enum type names every sidecar lists, in order. */
  const SidecarEnumTypes: seq<string> := [
    "ioc_type", "scanner_type", "scan_policy_type", "users_role", "firewall_types", "action_types"
  ]

  /** `v[key1][key2]`, as a reader of the sidecar writes it. */
  function Field(v: Value, key1: string, key2: string): Result<Value, Error> {
    match Index(v, key1)
    case Ok(section) => Index(section, key2)
    case Err(e) => Err(e)
  }

  const InfoKeys: seq<string> := ["timestamp", "type", "database", "filename", "size_bytes", "checksum_sha256"]

  function InfoValues(info: BackupInfo, checksum: string): seq<Value> {
    [Str(info.timestamp.IsoFormat() + "Z"), Str(info.kind), Str(info.database),
     Str(info.filename), Int(info.sizeBytes), Str(checksum)]
  }

  /** The `backup_info` section of a sidecar: the backup's own fields and the checksum. */
  function InfoSection(info: BackupInfo, checksum: string): (r: Value)
    ensures IsDict(r, InfoKeys, InfoValues(info, checksum))
  {
    Dict(InfoKeys, InfoValues(info, checksum))
  }

  const SidecarKeys: seq<string> := ["backup_info", "migration_info", "table_counts", "enum_types"]

  /** `generate_metadata_dict`: a dictionary with four sections, in this order. */
  function GenerateMetadataDict(info: BackupInfo, migration: MigrationInfo, counts: TableCounts, checksum: string): (r: Value)
    ensures r.Object? && Keys(r.fields) == SidecarKeys
  {
    Dict(SidecarKeys, [InfoSection(info, checksum), migration.ToDict(), counts.ToDict(), TextArray(SidecarEnumTypes)])
  }

  /** A reader indexing a sidecar finds the checksum argument and the backup's filename, type,
      database, size and timestamp text in `backup_info`, the migration version and dirty flag
      in `migration_info`, the counts' own dictionary in `table_counts`, and the six enum
      names in `enum_types`. */
  lemma SidecarFields(info: BackupInfo, migration: MigrationInfo, counts: TableCounts, checksum: string)
    ensures var r := GenerateMetadataDict(info, migration, counts, checksum);
            && Field(r, "backup_info", "checksum_sha256") == Ok(Str(checksum))
            && Field(r, "backup_info", "filename") == Ok(Str(info.filename))
            && Field(r, "backup_info", "type") == Ok(Str(info.kind))
            && Field(r, "backup_info", "database") == Ok(Str(info.database))
            && Field(r, "backup_info", "size_bytes") == Ok(Int(info.sizeBytes))
            && Field(r, "backup_info", "timestamp") == Ok(Str(info.timestamp.IsoFormat() + "Z"))
            && Field(r, "migration_info", "version") == Ok(Int(migration.version))
            && Field(r, "migration_info", "dirty") == Ok(Bool(migration.dirty))
            && Index(r, "table_counts") == Ok(counts.ToDict())
            && Index(r, "enum_types") == Ok(TextArray(SidecarEnumTypes))
  {
    var r := GenerateMetadataDict(info, migration, counts, checksum);
    var values := [InfoSection(info, checksum), migration.ToDict(), counts.ToDict(), TextArray(SidecarEnumTypes)];
    IndexDict(r, SidecarKeys, values, 0);
    IndexDict(r, SidecarKeys, values, 1);
    IndexDict(r, SidecarKeys, values, 2);
    IndexDict(r, SidecarKeys, values, 3);
    var section, infoValues := InfoSection(info, checksum), InfoValues(info, checksum);
    IndexDict(section, InfoKeys, infoValues, 0);
    IndexDict(section, InfoKeys, infoValues, 1);
    IndexDict(section, InfoKeys, infoValues, 2);
    IndexDict(section, InfoKeys, infoValues, 3);
    IndexDict(section, InfoKeys, infoValues, 4);
    IndexDict(section, InfoKeys, infoValues, 5);
    var m := migration.ToDict();
    IndexDict(m, ["version", "dirty"], [Int(migration.version), Bool(migration.dirty)], 0);
    IndexDict(m, ["version", "dirty"], [Int(migration.version), Bool(migration.dirty)], 1);
  }

  /** The sidecar and `BackupMetadata.to_dict` agree on the migration, count and enum sections,
      but the record's `backup_info` has no checksum (the sidecar's does, by SidecarFields). */
  lemma SidecarVersusRecord(info: BackupInfo, migration: MigrationInfo, counts: TableCounts, checksum: string)
    ensures var d := GenerateMetadataDict(info, migration, counts, checksum);
            var m := BackupMetadata(info, migration, counts, checksum, SidecarEnumTypes).ToDict();
            && Index(m, "migration_info") == Index(d, "migration_info")
            && Index(m, "table_counts") == Index(d, "table_counts")
            && Index(m, "enum_types") == Index(d, "enum_types")
            && Field(m, "backup_info", "checksum_sha256").Err?
  {
    var d := GenerateMetadataDict(info, migration, counts, checksum);
    var m := BackupMetadata(info, migration, counts, checksum, SidecarEnumTypes).ToDict();
    var dValues := [InfoSection(info, checksum), migration.ToDict(), counts.ToDict(), TextArray(SidecarEnumTypes)];
    var mValues := [info.ToDict(), migration.ToDict(), counts.ToDict(), TextArray(SidecarEnumTypes)];
    IndexDict(d, SidecarKeys, dValues, 1);
    IndexDict(d, SidecarKeys, dValues, 2);
    IndexDict(d, SidecarKeys, dValues, 3);
    IndexDict(m, SidecarKeys, mValues, 0);
    IndexDict(m, SidecarKeys, mValues, 1);
    IndexDict(m, SidecarKeys, mValues, 2);
    IndexDict(m, SidecarKeys, mValues, 3);
    BackupInfoHasNoChecksum(info);
  }

  // ---------------------------------------------------------------------------
  // Saving and loading
  // ---------------------------------------------------------------------------

  /** `save_metadata`: create the parent directory, then write the document unchanged. */
  function SaveMetadata(fs: Fs, path: Path, doc: Value): (r: Result<Fs, Error>)
    ensures r.Ok? <==> path.Path? && path.dir !in fs.unsearchable && path !in fs.locked
    ensures r.Ok? ==> r.value == fs.(dirs := fs.dirs + {path.dir}, files := fs.files[path := Document(doc)])
  {
    var parent := if path.Path? then path.dir else ".";
    match Mkdir(fs, parent)
    case Err(e) => Err(e)
    case Ok(fs1) => WriteFile(fs1, path, Document(doc))
  }

  /** `load_metadata`: None for a missing file, the stored document otherwise. Asking whether
      the file exists raises in a directory that may not be searched, opening "." raises, and a
      file that does not hold JSON raises a JSONDecodeError. */
  function LoadMetadata(fs: Fs, path: Path): (r: Result<Option<Value>, Error>)
    ensures r.Err? <==>
      || path.NoPath?
      || path.dir in fs.unsearchable
      || (path in fs.files && fs.files[path].Blob?)
    ensures r.Err? && path.Path? && path.dir !in fs.unsearchable ==> r.error.JSONDecodeError?
    ensures r.Ok? && path !in fs.files ==> r.value == None
    ensures r.Ok? && path in fs.files ==> r.value == Some(fs.files[path].doc)
  {
    var present :- FileExists(fs, path);
    if !present then Ok(None)
    else if path.NoPath? then Err(OSError("[Errno 21] Is a directory: '.'"))
    else match fs.files[path]
      case Document(doc) => Ok(Some(doc))
      case Blob(_) => Err(JSONDecodeError("Expecting value: line 1 column 1 (char 0)"))
  }

  /** What is saved is what is loaded. */
  lemma SaveThenLoad(fs: Fs, path: Path, doc: Value)
    requires SaveMetadata(fs, path, doc).Ok?
    ensures LoadMetadata(SaveMetadata(fs, path, doc).value, path) == Ok(Some(doc))
  {
  }

  /** `calculate_file_size`. */
  function CalculateFileSize(fs: Fs, path: Path): (r: Result<nat, Error>)
    ensures r.Ok? <==> path in fs.files
    ensures r.Ok? ==> r.value == SizeOf(fs.files[path])
  {
    if path in fs.files then Ok(SizeOf(fs.files[path])) else Err(NotFound(path))
  }

  /** `create_backup_metadata`: the record names the artifact by its own file name, carries its
      digest (`digest` stands for SHA-256 of the file's bytes) and size, and lists the six enum
      types; a missing artifact raises. */
  function CreateBackupMetadata(
    fs: Fs, backupPath: Path, kind: string, database: string,
    migration: MigrationInfo, counts: TableCounts, now: DateTime, digest: FileContent -> string): (r: Result<BackupMetadata, Error>)
    ensures r.Ok? <==> backupPath in fs.files
    ensures r.Ok? ==> r.value.info.filename == backupPath.Name()
    ensures r.Ok? ==> r.value.checksumSha256 == digest(fs.files[backupPath])
    ensures r.Ok? ==> r.value.info.sizeBytes == SizeOf(fs.files[backupPath])
    ensures r.Ok? ==> r.value.migration == migration && r.value.counts == counts
    ensures r.Ok? ==> r.value.enumTypes == SidecarEnumTypes
  {
    match ReadFile(fs, backupPath)
    case Err(e) => Err(e)
    case Ok(content) =>
      var checksum := digest(content);
      match CalculateFileSize(fs, backupPath)
      case Err(e) => Err(e)
      case Ok(size) =>
        var info := BackupInfo(now, kind, database, backupPath.Name(), size);
        Ok(BackupMetadata(info, migration, counts, checksum, SidecarEnumTypes))
  }
}
