/** The scheduler's jobs: a scheduled or triggered backup followed by an upload, the upload of
    one backup and its sidecar, and the sweep that uploads every local backup the ledger does
    not yet hold. The local disk is a value, the bucket is a value the jobs thread through, and
    the ledger is the `UploadRegistry` object the jobs update in place. */
module Jobs {
  import opened Wrappers
  import opened Exceptions
  import opened Json
  import opened Files
  import Text
  import Models
  import Metadata
  import Backup
  import GcsStorage
  import Registry
  import Subprocess

  /** The categories a sweep visits, in this order. */
  const SyncTypes: seq<string> := ["daily", "weekly", "manual"]

  /** The object key of a backup file: `{prefix}/{type}/{name}`. */
  function ObjectKey(prefix: string, backupType: string, name: string): (r: string)
    ensures |r| == |prefix| + |backupType| + |name| + 2 && r[|prefix|] == '/'
  {
    prefix + "/" + backupType + "/" + name
  }

  // ---------------------------------------------------------------------------
  // What the jobs see
  // ---------------------------------------------------------------------------

  /** The fixed surroundings of a job: the object prefix, whether the ledger file can be
      written, the local disk, the current time, and the etag the store gives an object. */
  datatype Env = Env(
    prefix: string, writable: bool, fs: Fs, now: Models.DateTime, etagOf: string -> string)

  /** The ledger object's state: its table, its time stamp and the file it saves to. */
  datatype LedgerState = LedgerState(table: Registry.Table, lastUpdated: string, file: Registry.Stored)

  /** What reading a sidecar for its checksum gives: nothing to use (no file, or a document
      that is false: `if not metadata`), an exception, or the checksum. */
  datatype SidecarRead = Unusable | Broken | Found(checksum: string)

  /** `load_metadata(path)` then `metadata["backup_info"]["checksum_sha256"]`. A JSON decoding
      error, a missing key, or a section that is not a dictionary raises; a checksum that is
      not a string is taken as an error as well. */
  function ReadChecksum(fs: Fs, metadataPath: Path): (r: SidecarRead)
    ensures var loaded := Metadata.LoadMetadata(fs, metadataPath);
      r.Unusable? <==> loaded.Ok? && (loaded.value.None? || !Truthy(loaded.value.value))
    ensures var loaded := Metadata.LoadMetadata(fs, metadataPath);
      r.Found? <==>
        && loaded.Ok? && loaded.value.Some? && Truthy(loaded.value.value)
        && Metadata.Field(loaded.value.value, "backup_info", "checksum_sha256").Ok?
        && Metadata.Field(loaded.value.value, "backup_info", "checksum_sha256").value.Str?
    ensures r.Found? ==>
      Metadata.Field(Metadata.LoadMetadata(fs, metadataPath).value.value, "backup_info", "checksum_sha256")
        == Ok(Str(r.checksum))
    ensures metadataPath.Path? && metadataPath.dir !in fs.unsearchable && metadataPath !in fs.files ==> r.Unusable?
    ensures metadataPath.Path? && metadataPath.dir in fs.unsearchable ==> r.Broken?
  {
    match Metadata.LoadMetadata(fs, metadataPath)
    case Err(_) => Broken
    case Ok(loaded) =>
      if loaded.None? || !Truthy(loaded.value) then Unusable
      else
        match Metadata.Field(loaded.value, "backup_info", "checksum_sha256")
        case Ok(Str(s)) => Found(s)
        case _ => Broken
  }

  /** `if registry.is_uploaded(...)`: the stored object key is returned, and an empty key is
      false. */
  predicate AlreadyUploaded(t: Registry.Table, backupType: string, filename: string, checksum: string) {
    match t.IsUploaded(backupType, filename, checksum)
    case Some(key) => key != ""
    case None => false
  }

  /** `mark_uploaded` on the ledger state: the entry is written, the time set, and the file
      saved when it can be. */
  function Marked(l: LedgerState, writable: bool, backupType: string, filename: string,
                  checksum: string, gcsKey: string, now: string): (r: LedgerState)
    requires l.table.Valid()
    ensures r.table.Valid() && r.lastUpdated == now
    ensures r.table.IsUploaded(backupType, filename, checksum) == Some(gcsKey)
    ensures forall k :: k != Registry.KeyOf(backupType, filename) ==>
      (k in r.table.entries <==> k in l.table.entries)
      && (k in l.table.entries ==> r.table.entries[k] == l.table.entries[k])
    ensures r.file == if writable then Registry.Holds(Registry.Ledger(r.table, now)) else l.file
  {
    var t := l.table.Put(Registry.KeyOf(backupType, filename),
                         Registry.MarkedEntry(filename, checksum, gcsKey, now));
    Registry.MarkThenIsUploaded(l.table, backupType, filename, checksum, gcsKey, now);
    LedgerState(t, now, if writable then Registry.Holds(Registry.Ledger(t, now)) else l.file)
  }

  // ---------------------------------------------------------------------------
  // `_upload_backup`
  // ---------------------------------------------------------------------------

  /** The bucket and the ledger after an upload, and what the upload returns. */
  datatype Upload = Upload(bucket: GcsStorage.Bucket, ledger: LedgerState, ok: bool)

  /** `_upload_backup` with a cloud manager and a registry: read the checksum; a backup the
      ledger holds with that checksum is done; otherwise upload the dump to
      `{prefix}/{type}/{name}`, then the sidecar beside it, and mark the ledger only when both
      uploads succeeded. Every failure returns False. */
  function UploadOutcome(env: Env, bucket: GcsStorage.Bucket, ledger: LedgerState,
                         backupPath: Path, metadataPath: Path, backupType: string): (r: Upload)
    requires ledger.table.Valid()
    ensures r.ledger.table.Valid() && r.bucket.refused == bucket.refused
    ensures !r.ok ==> r.ledger == ledger
    ensures forall k :: k != Registry.KeyOf(backupType, backupPath.Name()) ==>
      (k in r.ledger.table.entries <==> k in ledger.table.entries)
      && (k in ledger.table.entries ==> r.ledger.table.entries[k] == ledger.table.entries[k])
  {
    match ReadChecksum(env.fs, metadataPath)
    case Unusable => Upload(bucket, ledger, false)
    case Broken => Upload(bucket, ledger, false)
    case Found(checksum) =>
      var filename := backupPath.Name();
      if AlreadyUploaded(ledger.table, backupType, filename, checksum) then Upload(bucket, ledger, true)
      else
        var gcsKey := ObjectKey(env.prefix, backupType, filename);
        var metadataKey := ObjectKey(env.prefix, backupType, metadataPath.Name());
        var (withDump, dumpResult) :=
          GcsStorage.UploadFile(bucket, env.fs, backupPath, gcsKey, env.now, env.etagOf(gcsKey));
        if !dumpResult.success then Upload(withDump, ledger, false)
        else
          var (withBoth, metadataResult) :=
            GcsStorage.UploadFile(withDump, env.fs, metadataPath, metadataKey, env.now, env.etagOf(metadataKey));
          if !metadataResult.success then Upload(withBoth, ledger, false)
          else Upload(withBoth, Marked(ledger, env.writable, backupType, filename, checksum, gcsKey,
                                       env.now.IsoFormat()), true)
  }

  /** A sidecar that cannot be read, or has no checksum, makes the upload return False and
      changes nothing. */
  lemma UploadUnreadable(env: Env, bucket: GcsStorage.Bucket, ledger: LedgerState,
                         backupPath: Path, metadataPath: Path, backupType: string)
    requires ledger.table.Valid() && !ReadChecksum(env.fs, metadataPath).Found?
    ensures UploadOutcome(env, bucket, ledger, backupPath, metadataPath, backupType) == Upload(bucket, ledger, false)
  {
  }

  /** A backup the ledger already holds with the sidecar's checksum is reported uploaded, and
      neither the bucket nor the ledger changes. */
  lemma UploadWhenUploaded(env: Env, bucket: GcsStorage.Bucket, ledger: LedgerState,
                           backupPath: Path, metadataPath: Path, backupType: string)
    requires ledger.table.Valid()
    requires var read := ReadChecksum(env.fs, metadataPath);
      read.Found? && AlreadyUploaded(ledger.table, backupType, backupPath.Name(), read.checksum)
    ensures UploadOutcome(env, bucket, ledger, backupPath, metadataPath, backupType) == Upload(bucket, ledger, true)
  {
  }

  /** The object a successful upload of `path` stores. */
  function Stored(env: Env, path: Path, key: string): GcsStorage.CloudObject
    requires path in env.fs.files
  {
    var content := env.fs.files[path];
    GcsStorage.CloudObject(content, Some(SizeOf(content)), Some(env.now), Some(env.etagOf(key)))
  }

  /** The sidecar gives a checksum the ledger does not hold for the backup: the upload goes to
      the store. */
  predicate NotYetUploaded(env: Env, ledger: LedgerState, backupPath: Path, metadataPath: Path, backupType: string) {
    var read := ReadChecksum(env.fs, metadataPath);
    read.Found? && !AlreadyUploaded(ledger.table, backupType, backupPath.Name(), read.checksum)
  }

  /** The dump's object key, `{prefix}/{type}/{name}`, and the sidecar's beside it. */
  function DumpKey(env: Env, backupType: string, backupPath: Path): string {
    ObjectKey(env.prefix, backupType, backupPath.Name())
  }

  function SidecarKey(env: Env, backupType: string, metadataPath: Path): string {
    ObjectKey(env.prefix, backupType, metadataPath.Name())
  }

  /** The upload succeeds exactly when both files are on disk and the store takes both keys. */
  lemma UploadSucceedsIff(env: Env, bucket: GcsStorage.Bucket, ledger: LedgerState,
                          backupPath: Path, metadataPath: Path, backupType: string)
    requires ledger.table.Valid() && NotYetUploaded(env, ledger, backupPath, metadataPath, backupType)
    ensures UploadOutcome(env, bucket, ledger, backupPath, metadataPath, backupType).ok <==>
      && backupPath in env.fs.files && DumpKey(env, backupType, backupPath) !in bucket.refused
      && metadataPath in env.fs.files && SidecarKey(env, backupType, metadataPath) !in bucket.refused
  {
  }

  /** A failed dump upload returns False before the sidecar is tried: nothing changes. */
  lemma UploadDumpRefused(env: Env, bucket: GcsStorage.Bucket, ledger: LedgerState,
                          backupPath: Path, metadataPath: Path, backupType: string)
    requires ledger.table.Valid() && NotYetUploaded(env, ledger, backupPath, metadataPath, backupType)
    requires backupPath !in env.fs.files || DumpKey(env, backupType, backupPath) in bucket.refused
    ensures UploadOutcome(env, bucket, ledger, backupPath, metadataPath, backupType) == Upload(bucket, ledger, false)
  {
  }

  /** A failed sidecar upload returns False with the dump left in the store and the ledger as
      it was. */
  lemma UploadSidecarRefused(env: Env, bucket: GcsStorage.Bucket, ledger: LedgerState,
                             backupPath: Path, metadataPath: Path, backupType: string)
    requires ledger.table.Valid() && NotYetUploaded(env, ledger, backupPath, metadataPath, backupType)
    requires backupPath in env.fs.files && DumpKey(env, backupType, backupPath) !in bucket.refused
    requires metadataPath !in env.fs.files || SidecarKey(env, backupType, metadataPath) in bucket.refused
    ensures var key := DumpKey(env, backupType, backupPath);
      UploadOutcome(env, bucket, ledger, backupPath, metadataPath, backupType)
        == Upload(bucket.(objects := bucket.objects[key := Stored(env, backupPath, key)]), ledger, false)
  {
  }

  /** A successful upload stores the dump under `{prefix}/{type}/{name}` and the sidecar
      beside it, and only then marks the ledger with the dump's key. */
  lemma UploadStoresBoth(env: Env, bucket: GcsStorage.Bucket, ledger: LedgerState,
                         backupPath: Path, metadataPath: Path, backupType: string)
    requires ledger.table.Valid() && NotYetUploaded(env, ledger, backupPath, metadataPath, backupType)
    requires UploadOutcome(env, bucket, ledger, backupPath, metadataPath, backupType).ok
    ensures var r := UploadOutcome(env, bucket, ledger, backupPath, metadataPath, backupType);
      var key := DumpKey(env, backupType, backupPath);
      var sidecarKey := SidecarKey(env, backupType, metadataPath);
      r.bucket.objects == bucket.objects[key := Stored(env, backupPath, key)][sidecarKey := Stored(env, metadataPath, sidecarKey)]
  {
  }

  lemma UploadMarks(env: Env, bucket: GcsStorage.Bucket, ledger: LedgerState,
                    backupPath: Path, metadataPath: Path, backupType: string)
    requires ledger.table.Valid() && NotYetUploaded(env, ledger, backupPath, metadataPath, backupType)
    requires UploadOutcome(env, bucket, ledger, backupPath, metadataPath, backupType).ok
    ensures UploadOutcome(env, bucket, ledger, backupPath, metadataPath, backupType).ledger
      == Marked(ledger, env.writable, backupType, backupPath.Name(), ReadChecksum(env.fs, metadataPath).checksum,
                DumpKey(env, backupType, backupPath), env.now.IsoFormat())
  {
  }

  /** Uploading is idempotent: after a successful upload the same call reports success and
      changes neither the bucket nor the ledger. */
  lemma {:induction false} UploadIdempotent(env: Env, bucket: GcsStorage.Bucket, ledger: LedgerState,
                                            backupPath: Path, metadataPath: Path, backupType: string)
    requires ledger.table.Valid()
    requires UploadOutcome(env, bucket, ledger, backupPath, metadataPath, backupType).ok
    ensures var r := UploadOutcome(env, bucket, ledger, backupPath, metadataPath, backupType);
      UploadOutcome(env, r.bucket, r.ledger, backupPath, metadataPath, backupType) == Upload(r.bucket, r.ledger, true)
  {
    var r := UploadOutcome(env, bucket, ledger, backupPath, metadataPath, backupType);
    var read := ReadChecksum(env.fs, metadataPath);
    assert read.Found?;
    var filename := backupPath.Name();
    if !AlreadyUploaded(ledger.table, backupType, filename, read.checksum) {
      var gcsKey := ObjectKey(env.prefix, backupType, filename);
      assert r.ledger == Marked(ledger, env.writable, backupType, filename, read.checksum, gcsKey,
                                env.now.IsoFormat());
      assert r.ledger.table.IsUploaded(backupType, filename, read.checksum) == Some(gcsKey);
      assert gcsKey != "";
    }
    assert AlreadyUploaded(r.ledger.table, backupType, filename, read.checksum);
    UploadWhenUploaded(env, r.bucket, r.ledger, backupPath, metadataPath, backupType);
  }

  // ---------------------------------------------------------------------------
  // `_sync_to_cloud`
  // ---------------------------------------------------------------------------

  /** The bucket and the ledger as a sweep goes, with its two counters. */
  datatype Tally = Tally(bucket: GcsStorage.Bucket, ledger: LedgerState, synced: nat, errors: nat)

  /** The end of a sweep; `completed` is false when a listing raised and ended it early. */
  datatype Sweep = Sweep(tally: Tally, completed: bool)

  /** Paths a listing of dumps returns: named files. */
  predicate Dumps(paths: seq<Path>) {
    forall i :: 0 <= i < |paths| ==> paths[i].Path? && paths[i].name != ""
  }

  /** One listed backup: skipped without a sidecar, with an unusable one, or when the ledger
      holds it with the sidecar's checksum; otherwise uploaded. A failed upload or an
      exception counts an error and the sweep goes on. */
  function SyncItem(env: Env, t: Tally, backupType: string, backupPath: Path): (r: Tally)
    requires t.ledger.table.Valid() && backupPath.Path? && backupPath.name != ""
    ensures r.ledger.table.Valid() && r.bucket.refused == t.bucket.refused
    ensures t.synced <= r.synced && t.errors <= r.errors && r.synced + r.errors <= t.synced + t.errors + 1
    ensures forall k :: k != Registry.KeyOf(backupType, backupPath.name) ==>
      (k in r.ledger.table.entries <==> k in t.ledger.table.entries)
      && (k in t.ledger.table.entries ==> r.ledger.table.entries[k] == t.ledger.table.entries[k])
  {
    var metadataPath := Sidecar(backupPath);
    // `exists()` does not raise here: the listing has just searched this directory.
    if metadataPath !in env.fs.files then t
    else
      match ReadChecksum(env.fs, metadataPath)
      case Unusable => t
      case Broken => t.(errors := t.errors + 1)
      case Found(checksum) =>
        if AlreadyUploaded(t.ledger.table, backupType, backupPath.name, checksum) then t
        else
          var u := UploadOutcome(env, t.bucket, t.ledger, backupPath, metadataPath, backupType);
          if u.ok then Tally(u.bucket, u.ledger, t.synced + 1, t.errors)
          else Tally(u.bucket, u.ledger, t.synced, t.errors + 1)
  }

  /** The inner loop of `_sync_to_cloud`: the listed backups of one type, in order. */
  function SyncItems(env: Env, t: Tally, backupType: string, paths: seq<Path>): (r: Tally)
    requires t.ledger.table.Valid() && Dumps(paths)
    ensures r.ledger.table.Valid() && r.bucket.refused == t.bucket.refused
    ensures t.synced <= r.synced && t.errors <= r.errors && r.synced + r.errors <= t.synced + t.errors + |paths|
    decreases |paths|
  {
    if paths == [] then t
    else SyncItems(env, SyncItem(env, t, backupType, paths[0]), backupType, paths[1..])
  }

  /** The outer loop of `_sync_to_cloud`: each type's backups are listed, then synced; a listing
      that raises ends the sweep, keeping what was uploaded before it. */
  function SweepFrom(env: Env, list: Listing, t: Tally, types: seq<string>): (r: Sweep)
    requires ListsDumps(list)
    requires t.ledger.table.Valid()
    ensures r.tally.ledger.table.Valid() && r.tally.bucket.refused == t.bucket.refused
    decreases |types|
  {
    if types == [] then Sweep(t, true)
    else
      match list(types[0])
      case Err(_) => Sweep(t, false)
      case Ok(paths) =>
        SweepFrom(env, list, SyncItems(env, t, types[0], paths), types[1..])
  }

  /** A sweep completes exactly when every listing succeeds. */
  lemma {:induction false} SweepCompletes(env: Env, list: Listing, t: Tally, types: seq<string>)
    requires ListsDumps(list)
    requires t.ledger.table.Valid()
    ensures SweepFrom(env, list, t, types).completed <==>
      forall i :: 0 <= i < |types| ==> list(types[i]).Ok?
    decreases |types|
  {
    if types != [] {
      match list(types[0])
      case Err(_) =>
      case Ok(paths) =>
        SweepCompletes(env, list, SyncItems(env, t, types[0], paths), types[1..]);
        assert forall i :: 1 <= i < |types| ==> types[i] == types[1..][i - 1];
    }
  }

  /** `list_backups(type)` for the duration of a sweep: the local disk does not change while
      it runs, so each type always lists the same. */
  type Listing = string -> Result<seq<Path>, Error>

  /** Every successful listing holds named files with pairwise different names. */
  ghost predicate ListsDumps(list: Listing) {
    forall backupType :: list(backupType).Ok? ==>
      Dumps(list(backupType).value)
      && forall i, j :: 0 <= i < j < |list(backupType).value| ==>
           list(backupType).value[i].name != list(backupType).value[j].name
  }

  /** The backup manager's `list_backups` over a disk. */
  function BackupListing(m: Backup.BackupManager, fs: Fs): (list: Listing)
    ensures ListsDumps(list)
    ensures forall backupType :: list(backupType) == Backup.ListBackups(m, fs, backupType)
  {
    ListedDumpsAll(m, fs);
    backupType => Backup.ListBackups(m, fs, backupType)
  }

  lemma ListedDumpsAll(m: Backup.BackupManager, fs: Fs)
    ensures forall backupType :: ListedOk(Backup.ListBackups(m, fs, backupType))
  {
    forall backupType ensures ListedOk(Backup.ListBackups(m, fs, backupType)) {
      ListedDumps(m, fs, backupType);
    }
  }

  predicate ListedOk(r: Result<seq<Path>, Error>) {
    r.Ok? ==> Dumps(r.value) && forall i, j :: 0 <= i < j < |r.value| ==> r.value[i].name != r.value[j].name
  }

  /** A listing returns named files with pairwise different names. */
  lemma ListedDumps(m: Backup.BackupManager, fs: Fs, backupType: string)
    ensures ListedOk(Backup.ListBackups(m, fs, backupType))
  {
    var r := Backup.ListBackups(m, fs, backupType);
    if r.Ok? {
      forall i | 0 <= i < |r.value| ensures r.value[i].Path? && r.value[i].name != "" {
        assert r.value[i] in r.value;
      }
      forall i, j | 0 <= i < j < |r.value| ensures r.value[i].name != r.value[j].name {
        Text.LexIrreflexive(r.value[i].Name());
      }
    }
  }

  /** The ledger holds the backup with the checksum its sidecar gives. */
  predicate InLedger(fs: Fs, table: Registry.Table, backupType: string, p: Path) {
    p.Path? && p.name != "" &&
    match ReadChecksum(fs, Sidecar(p))
    case Found(checksum) => AlreadyUploaded(table, backupType, p.name, checksum)
    case _ => false
  }

  /** A backup the store takes: both files are on disk, the sidecar gives a checksum, and the
      store accepts both keys. */
  predicate Uploadable(env: Env, refused: set<string>, backupType: string, p: Path) {
    p.Path? && p.name != "" && p in env.fs.files && Sidecar(p) in env.fs.files
    && ReadChecksum(env.fs, Sidecar(p)).Found?
    && ObjectKey(env.prefix, backupType, p.name) !in refused
    && ObjectKey(env.prefix, backupType, Sidecar(p).name) !in refused
  }

  /** InLedger depends only on the entry under the backup's own key. */
  lemma InLedgerLocal(fs: Fs, t1: Registry.Table, t2: Registry.Table, backupType: string, p: Path)
    requires p.Path?
    requires var k := Registry.KeyOf(backupType, p.name);
      (k in t1.entries <==> k in t2.entries) && (k in t1.entries ==> t1.entries[k] == t2.entries[k])
    ensures InLedger(fs, t1, backupType, p) <==> InLedger(fs, t2, backupType, p)
  {
  }

  /** One step leaves an uploadable backup in the ledger. */
  lemma SyncItemRecords(env: Env, t: Tally, backupType: string, p: Path)
    requires t.ledger.table.Valid() && Uploadable(env, t.bucket.refused, backupType, p)
    ensures InLedger(env.fs, SyncItem(env, t, backupType, p).ledger.table, backupType, p)
  {
    var checksum := ReadChecksum(env.fs, Sidecar(p)).checksum;
    if !AlreadyUploaded(t.ledger.table, backupType, p.name, checksum) {
      UploadSucceedsIff(env, t.bucket, t.ledger, p, Sidecar(p), backupType);
      UploadMarks(env, t.bucket, t.ledger, p, Sidecar(p), backupType);
      var gcsKey := ObjectKey(env.prefix, backupType, p.name);
      assert gcsKey != "";
    }
  }

  /** Backups with other names keep their ledger entries through a directory's sweep. */
  lemma {:induction false} SyncItemsKeep(env: Env, t: Tally, backupType: string, paths: seq<Path>, k: string)
    requires t.ledger.table.Valid() && Dumps(paths)
    requires forall i :: 0 <= i < |paths| ==> k != Registry.KeyOf(backupType, paths[i].name)
    ensures var r := SyncItems(env, t, backupType, paths);
      (k in r.ledger.table.entries <==> k in t.ledger.table.entries)
      && (k in t.ledger.table.entries ==> r.ledger.table.entries[k] == t.ledger.table.entries[k])
    decreases |paths|
  {
    if paths != [] {
      SyncItemsKeep(env, SyncItem(env, t, backupType, paths[0]), backupType, paths[1..], k);
    }
  }

  /** After a directory's sweep, every uploadable backup in it is in the ledger, whatever
      failed before or after it. */
  lemma {:induction false} SyncItemsRecord(env: Env, t: Tally, backupType: string, paths: seq<Path>)
    requires t.ledger.table.Valid() && Dumps(paths)
    requires forall i, j :: 0 <= i < j < |paths| ==> paths[i].name != paths[j].name
    ensures var r := SyncItems(env, t, backupType, paths);
      forall i :: 0 <= i < |paths| && Uploadable(env, t.bucket.refused, backupType, paths[i]) ==>
        InLedger(env.fs, r.ledger.table, backupType, paths[i])
    decreases |paths|
  {
    if paths != [] {
      var t1 := SyncItem(env, t, backupType, paths[0]);
      var rest := paths[1..];
      var r := SyncItems(env, t1, backupType, rest);
      assert r == SyncItems(env, t, backupType, paths);
      SyncItemsRecord(env, t1, backupType, rest);
      forall i | 0 <= i < |paths| && Uploadable(env, t.bucket.refused, backupType, paths[i])
        ensures InLedger(env.fs, r.ledger.table, backupType, paths[i])
      {
        if i == 0 {
          SyncItemRecords(env, t, backupType, paths[0]);
          var k := Registry.KeyOf(backupType, paths[0].name);
          forall j | 0 <= j < |rest| ensures k != Registry.KeyOf(backupType, rest[j].name) {
            assert rest[j] == paths[j + 1];
            assert |k| == |Registry.KeyOf(backupType, rest[j].name)| ==> k[|backupType| + 1..] == paths[0].name;
          }
          SyncItemsKeep(env, t1, backupType, rest, k);
          InLedgerLocal(env.fs, t1.ledger.table, r.ledger.table, backupType, paths[0]);
        } else {
          assert paths[i] == rest[i - 1];
        }
      }
    }
  }

  /** The categories' ledger keys never meet: they start with different letters. */
  predicate DistinctInitials(types: seq<string>) {
    (forall i :: 0 <= i < |types| ==> types[i] != "")
    && forall i, j :: 0 <= i < j < |types| ==> types[i][0] != types[j][0]
  }

  /** Every entry keyed under a category the sweep does not reach keeps its place. */
  lemma {:induction false} SweepKeeps(env: Env, list: Listing, t: Tally, types: seq<string>, k: string)
    requires ListsDumps(list)
    requires t.ledger.table.Valid()
    requires forall i :: 0 <= i < |types| ==> types[i] != "" && (k == "" || k[0] != types[i][0])
    ensures var r := SweepFrom(env, list, t, types).tally.ledger.table;
      (k in r.entries <==> k in t.ledger.table.entries)
      && (k in t.ledger.table.entries ==> r.entries[k] == t.ledger.table.entries[k])
    decreases |types|
  {
    if types != [] {
      match list(types[0])
      case Err(_) =>
      case Ok(paths) =>
        forall j | 0 <= j < |paths| ensures k != Registry.KeyOf(types[0], paths[j].name) {
          assert Registry.KeyOf(types[0], paths[j].name)[0] == types[0][0];
        }
        SyncItemsKeep(env, t, types[0], paths, k);
        SweepKeeps(env, list, SyncItems(env, t, types[0], paths), types[1..], k);
    }
  }

  /** A sweep whose first listing succeeded leaves every uploadable backup of that listing in
      the ledger: the later categories' keys start with other letters. */
  lemma SweepRecordsFirst(env: Env, list: Listing, t: Tally, types: seq<string>, p: Path)
    requires ListsDumps(list)
    requires t.ledger.table.Valid() && DistinctInitials(types) && |types| > 0
    requires list(types[0]).Ok? && p in list(types[0]).value
    requires Uploadable(env, t.bucket.refused, types[0], p)
    ensures InLedger(env.fs, SweepFrom(env, list, t, types).tally.ledger.table, types[0], p)
  {
    var paths := list(types[0]).value;
    var t1 := SyncItems(env, t, types[0], paths);
    var rest := types[1..];
    SyncItemsRecord(env, t, types[0], paths);
    var k := Registry.KeyOf(types[0], p.name);
    assert k[0] == types[0][0];
    forall n | 0 <= n < |rest| ensures rest[n] != "" && k[0] != rest[n][0] {
      assert rest[n] == types[n + 1];
    }
    SweepKeeps(env, list, t1, rest, k);
    InLedgerLocal(env.fs, t1.ledger.table, SweepFrom(env, list, t1, rest).tally.ledger.table, types[0], p);
  }

  /** The categories after the first keep distinct initials. */
  lemma DistinctInitialsTail(types: seq<string>)
    requires DistinctInitials(types) && |types| > 0
    ensures DistinctInitials(types[1..])
  {
    var rest := types[1..];
    forall a, b | 0 <= a < b < |rest| ensures rest[a][0] != rest[b][0] {
      assert rest[a] == types[a + 1] && rest[b] == types[b + 1];
    }
  }

  /** A sweep that completes leaves every uploadable backup it listed in the ledger: a failure
      on one backup does not keep the others out. */
  lemma {:induction false} SweepRecordsAt(env: Env, list: Listing, t: Tally, types: seq<string>, i: nat, p: Path)
    requires ListsDumps(list)
    requires t.ledger.table.Valid() && DistinctInitials(types) && i < |types|
    requires SweepFrom(env, list, t, types).completed
    requires list(types[i]).Ok? && p in list(types[i]).value
    requires Uploadable(env, t.bucket.refused, types[i], p)
    ensures InLedger(env.fs, SweepFrom(env, list, t, types).tally.ledger.table, types[i], p)
    decreases i
  {
    if i == 0 {
      SweepRecordsFirst(env, list, t, types, p);
    } else {
      var paths := list(types[0]).value;
      var t1 := SyncItems(env, t, types[0], paths);
      var rest := types[1..];
      var table := SweepFrom(env, list, t, types).tally.ledger.table;
      assert SweepFrom(env, list, t1, rest).tally.ledger.table == table;
      DistinctInitialsTail(types);
      assert rest[i - 1] == types[i];
      SweepRecordsAt(env, list, t1, rest, i - 1, p);
      assert InLedger(env.fs, table, rest[i - 1], p);
    }
  }

  /** After a completed sweep over the three categories, the ledger holds every uploadable
      backup any of the listings returned. */
  lemma SweepRecords(env: Env, list: Listing, t: Tally)
    requires ListsDumps(list)
    requires t.ledger.table.Valid() && SweepFrom(env, list, t, SyncTypes).completed
    ensures forall i, p ::
      (0 <= i < |SyncTypes| && list(SyncTypes[i]).Ok?
       && p in list(SyncTypes[i]).value && Uploadable(env, t.bucket.refused, SyncTypes[i], p))
      ==> InLedger(env.fs, SweepFrom(env, list, t, SyncTypes).tally.ledger.table, SyncTypes[i], p)
  {
    SyncTypesDistinct();
    forall i, p |
      0 <= i < |SyncTypes| && list(SyncTypes[i]).Ok?
      && p in list(SyncTypes[i]).value && Uploadable(env, t.bucket.refused, SyncTypes[i], p)
      ensures InLedger(env.fs, SweepFrom(env, list, t, SyncTypes).tally.ledger.table, SyncTypes[i], p)
    {
      SweepRecordsAt(env, list, t, SyncTypes, i, p);
    }
  }

  /** The three categories start with different letters. */
  lemma SyncTypesDistinct()
    ensures DistinctInitials(SyncTypes)
  {
  }

  // ---------------------------------------------------------------------------
  // The scheduler
  // ---------------------------------------------------------------------------

  /** A `JobScheduler`: the backup manager, the object prefix, whether a cloud storage manager
      is configured, and the registry when there is one. */
  class JobScheduler {
    const manager: Backup.BackupManager
    const prefix: string
    const hasCloud: bool
    const registry: Registry.UploadRegistry?

    ghost predicate Valid()
      reads registry
    {
      manager.Valid() && (registry != null ==> registry.Valid())
    }

    /** `self.cloud_manager and self.registry`: both are configured. */
    predicate CloudSync() {
      hasCloud && registry != null
    }

    function Ledger(): (l: LedgerState)
      reads registry
      requires registry != null
      ensures l.table == registry.table
    {
      LedgerState(registry.table, registry.lastUpdated, registry.file)
    }

    function EnvAt(fs: Fs, now: Models.DateTime, etagOf: string -> string): (e: Env)
      requires registry != null
      ensures e.fs == fs && e.prefix == prefix && e.writable == registry.writable
    {
      Env(prefix, registry.writable, fs, now, etagOf)
    }

    constructor(manager: Backup.BackupManager, prefix: string, hasCloud: bool,
                registry: Registry.UploadRegistry?)
      ensures this.manager == manager && this.prefix == prefix && this.hasCloud == hasCloud
      ensures this.registry == registry
    {
      this.manager := manager;
      this.prefix := prefix;
      this.hasCloud := hasCloud;
      this.registry := registry;
    }

    /** `_upload_backup`: False with nothing changed without a cloud manager and a registry;
        otherwise the bucket and the ledger become what `UploadOutcome` says. */
    method UploadBackup(fs: Fs, bucket: GcsStorage.Bucket, backupPath: Path, metadataPath: Path,
                        backupType: string, now: Models.DateTime, etagOf: string -> string)
      returns (after: GcsStorage.Bucket, ok: bool)
      requires Valid()
      modifies registry
      ensures Valid()
      ensures !CloudSync() ==> !ok && after == bucket && (registry != null ==> unchanged(registry))
      ensures CloudSync() ==>
        var u := UploadOutcome(EnvAt(fs, now, etagOf), bucket, old(Ledger()), backupPath, metadataPath, backupType);
        after == u.bucket && Ledger() == u.ledger && ok == u.ok
    {
      if !CloudSync() {
        return bucket, false;
      }
      var read := ReadChecksum(fs, metadataPath);
      if !read.Found? {
        return bucket, false;
      }
      var existing := registry.IsUploaded(backupType, backupPath.Name(), read.checksum);
      if existing.Some? && existing.value != "" {
        return bucket, true;
      }
      after, ok := Transfer(fs, bucket, backupPath, metadataPath, backupType, now, etagOf, read.checksum);
    }

    /** The second half of `_upload_backup`, for a backup the ledger does not hold: the dump,
        then the sidecar, then the ledger. */
    method Transfer(fs: Fs, bucket: GcsStorage.Bucket, backupPath: Path, metadataPath: Path,
                    backupType: string, now: Models.DateTime, etagOf: string -> string, checksum: string)
      returns (after: GcsStorage.Bucket, ok: bool)
      requires Valid() && CloudSync()
      requires NotYetUploaded(EnvAt(fs, now, etagOf), Ledger(), backupPath, metadataPath, backupType)
      requires ReadChecksum(fs, metadataPath).checksum == checksum
      modifies registry
      ensures Valid()
      ensures var u := UploadOutcome(EnvAt(fs, now, etagOf), bucket, old(Ledger()), backupPath, metadataPath, backupType);
        after == u.bucket && Ledger() == u.ledger && ok == u.ok
    {
      var filename := backupPath.Name();
      var gcsKey := ObjectKey(prefix, backupType, filename);
      var metadataKey := ObjectKey(prefix, backupType, metadataPath.Name());
      var (withDump, dumpResult) := GcsStorage.UploadFile(bucket, fs, backupPath, gcsKey, now, etagOf(gcsKey));
      if !dumpResult.success {
        return withDump, false;
      }
      var (withBoth, metadataResult) :=
        GcsStorage.UploadFile(withDump, fs, metadataPath, metadataKey, now, etagOf(metadataKey));
      if !metadataResult.success {
        return withBoth, false;
      }
      registry.MarkUploaded(backupType, filename, checksum, gcsKey, now.IsoFormat());
      return withBoth, true;
    }

    /** The body of the inner loop of `_sync_to_cloud`, for one listed backup. */
    method SyncBackup(fs: Fs, bucket: GcsStorage.Bucket, backupType: string, backupPath: Path,
                      now: Models.DateTime, etagOf: string -> string, synced: nat, errors: nat)
      returns (after: GcsStorage.Bucket, synced': nat, errors': nat)
      requires Valid() && CloudSync() && backupPath.Path? && backupPath.name != ""
      modifies registry
      ensures Valid()
      ensures Tally(after, Ledger(), synced', errors')
        == SyncItem(EnvAt(fs, now, etagOf), Tally(bucket, old(Ledger()), synced, errors), backupType, backupPath)
    {
      after, synced', errors' := bucket, synced, errors;
      var metadataPath := Sidecar(backupPath);
      if metadataPath !in fs.files {
        return;
      }
      var read := ReadChecksum(fs, metadataPath);
      if read.Unusable? {
        return;
      } else if read.Broken? {
        errors' := errors + 1;
        return;
      }
      var existing := registry.IsUploaded(backupType, backupPath.name, read.checksum);
      if existing.Some? && existing.value != "" {
        return;
      }
      var ok;
      after, ok := UploadBackup(fs, bucket, backupPath, metadataPath, backupType, now, etagOf);
      if ok {
        synced' := synced + 1;
      } else {
        errors' := errors + 1;
      }
    }

    /** The inner loop of `_sync_to_cloud`: one type's listed backups, in order. */
    method SyncDirectory(fs: Fs, bucket: GcsStorage.Bucket, backupType: string, paths: seq<Path>,
                         now: Models.DateTime, etagOf: string -> string, synced: nat, errors: nat)
      returns (after: GcsStorage.Bucket, synced': nat, errors': nat)
      requires Valid() && CloudSync() && Dumps(paths)
      modifies registry
      ensures Valid()
      ensures Tally(after, Ledger(), synced', errors')
        == SyncItems(EnvAt(fs, now, etagOf), Tally(bucket, old(Ledger()), synced, errors), backupType, paths)
    {
      ghost var env := EnvAt(fs, now, etagOf);
      ghost var final := SyncItems(env, Tally(bucket, Ledger(), synced, errors), backupType, paths);
      after, synced', errors' := bucket, synced, errors;
      for i := 0 to |paths|
        invariant Valid()
        invariant SyncItems(env, Tally(after, Ledger(), synced', errors'), backupType, paths[i..]) == final
      {
        assert paths[i..][1..] == paths[i + 1..];
        after, synced', errors' := SyncBackup(fs, after, backupType, paths[i], now, etagOf, synced', errors');
      }
    }

    /** `_sync_to_cloud`: without a cloud manager and a registry, nothing happens; otherwise
        the daily, weekly and manual backups are synced in that order, and a listing that
        raises ends the sweep (`completed` is then false and the counters are not reported). */
    method SyncToCloud(fs: Fs, bucket: GcsStorage.Bucket, now: Models.DateTime, etagOf: string -> string)
      returns (after: GcsStorage.Bucket, syncCount: nat, errorCount: nat, completed: bool)
      requires Valid()
      modifies registry
      ensures Valid()
      ensures !CloudSync() ==>
        after == bucket && syncCount == 0 && errorCount == 0 && !completed
        && (registry != null ==> unchanged(registry))
      ensures CloudSync() ==>
        Sweep(Tally(after, Ledger(), syncCount, errorCount), completed)
          == SweepFrom(EnvAt(fs, now, etagOf), BackupListing(manager, fs), Tally(bucket, old(Ledger()), 0, 0), SyncTypes)
    {
      after, syncCount, errorCount, completed := bucket, 0, 0, false;
      if !CloudSync() {
        return;
      }
      ghost var env := EnvAt(fs, now, etagOf);
      ghost var list := BackupListing(manager, fs);
      ghost var final := SweepFrom(env, list, Tally(bucket, Ledger(), 0, 0), SyncTypes);
      for i := 0 to |SyncTypes|
        invariant Valid()
        invariant SweepFrom(env, list, Tally(after, Ledger(), syncCount, errorCount), SyncTypes[i..]) == final
      {
        var backupType := SyncTypes[i];
        var listed := Backup.ListBackups(manager, fs, backupType);
        if listed.Err? {
          return;
        }
        assert SyncTypes[i..][1..] == SyncTypes[i + 1..];
        after, syncCount, errorCount := SyncDirectory(fs, after, backupType, listed.value, now, etagOf,
                                                      syncCount, errorCount);
      }
      completed := true;
    }

    /** `trigger_backup`: create the backup; when it succeeded and the cloud is configured,
        upload it and its sidecar. The answer is whether the backup succeeded, whatever the
        upload did; a failed backup uploads nothing. */
    method TriggerBackup(fs: Fs, bucket: GcsStorage.Bucket, db: Subprocess.Database,
                         dump: Subprocess.ProcessOutcome, output: Option<seq<bv8>>, backupType: string,
                         nameTime: Models.DateTime, now: Models.DateTime, etagOf: string -> string)
      returns (fsAfter: Fs, bucketAfter: GcsStorage.Bucket, result: Models.BackupResult, triggered: bool)
      requires Valid()
      modifies registry
      ensures Valid()
      ensures triggered == result.success
      ensures result.success ==>
        result.backupPath.Path? && result.backupPath.name != "" && result.metadataPath == Sidecar(result.backupPath)
      ensures !(result.success && CloudSync()) ==> bucketAfter == bucket && (registry != null ==> unchanged(registry))
      ensures result.success && CloudSync() ==>
        var u := UploadOutcome(EnvAt(fsAfter, now, etagOf), bucket, old(Ledger()),
                               result.backupPath, result.metadataPath, backupType);
        bucketAfter == u.bucket && Ledger() == u.ledger
    {
      ghost var saved;
      fsAfter, result, saved := Backup.CreateBackup(manager, fs, db, dump, output, backupType, nameTime, now);
      bucketAfter := bucket;
      if result.success {
        var (backupPath, metadataPath) := Backup.BackupPaths(manager, db, backupType, nameTime);
        assert result.backupPath == backupPath && result.metadataPath == metadataPath;
        if CloudSync() {
          var uploaded;
          bucketAfter, uploaded := UploadBackup(fsAfter, bucket, result.backupPath, result.metadataPath, backupType, now, etagOf);
        }
      }
      triggered := result.success;
    }

    /** `_daily_backup_with_upload`: the daily backup, then its upload. */
    method DailyBackupWithUpload(fs: Fs, bucket: GcsStorage.Bucket, db: Subprocess.Database,
                                 dump: Subprocess.ProcessOutcome, output: Option<seq<bv8>>,
                                 nameTime: Models.DateTime, now: Models.DateTime, etagOf: string -> string)
      returns (fsAfter: Fs, bucketAfter: GcsStorage.Bucket, result: Models.BackupResult)
      requires Valid()
      modifies registry
      ensures Valid()
      ensures !(result.success && CloudSync()) ==> bucketAfter == bucket && (registry != null ==> unchanged(registry))
      ensures result.success && CloudSync() ==>
        var u := UploadOutcome(EnvAt(fsAfter, now, etagOf), bucket, old(Ledger()),
                               result.backupPath, result.metadataPath, "daily");
        bucketAfter == u.bucket && Ledger() == u.ledger
    {
      var triggered;
      fsAfter, bucketAfter, result, triggered := TriggerBackup(fs, bucket, db, dump, output, "daily", nameTime, now, etagOf);
    }

    /** `_weekly_backup_with_upload`: the weekly backup, then its upload. */
    method WeeklyBackupWithUpload(fs: Fs, bucket: GcsStorage.Bucket, db: Subprocess.Database,
                                  dump: Subprocess.ProcessOutcome, output: Option<seq<bv8>>,
                                  nameTime: Models.DateTime, now: Models.DateTime, etagOf: string -> string)
      returns (fsAfter: Fs, bucketAfter: GcsStorage.Bucket, result: Models.BackupResult)
      requires Valid()
      modifies registry
      ensures Valid()
      ensures !(result.success && CloudSync()) ==> bucketAfter == bucket && (registry != null ==> unchanged(registry))
      ensures result.success && CloudSync() ==>
        var u := UploadOutcome(EnvAt(fsAfter, now, etagOf), bucket, old(Ledger()),
                               result.backupPath, result.metadataPath, "weekly");
        bucketAfter == u.bucket && Ledger() == u.ledger
    {
      var triggered;
      fsAfter, bucketAfter, result, triggered := TriggerBackup(fs, bucket, db, dump, output, "weekly", nameTime, now, etagOf);
    }
  }
}
