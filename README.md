# pgkeeper bookkeeping, modelled in Dafny

pgkeeper is a PostgreSQL backup service. It takes scheduled and manual `pg_dump` archives,
writes a JSON sidecar beside each archive (file name, size, checksum, migration version, row
counts of the main tables, enum types), keeps only the newest daily and weekly archives,
uploads archives and sidecars to a Google Cloud Storage bucket, remembers what it uploaded in a
ledger file, and restores an archive and then checks the restored database against its sidecar.

This project models that bookkeeping. Every call into the outside world becomes a value or a
parameter:

- **Files.** The local file system is a value `Files.Fs`. It holds the files, the directories,
  the paths whose removal or writing fails, and the directories that cannot be searched.
- **Database and tools.** The database is a function from the queries the service issues to
  what the process returned (`Subprocess.Database`). `pg_dump`, `pg_restore`, `psql` and
  `pg_restore -l` are modelled by what they returned.
- **Bucket.** The bucket is a value `GcsStorage.Bucket`. It holds the objects by key, whether
  listing works, and the keys an upload to fails.
- **Clocks, checksums and etags** are parameters.

Each module follows one source file:

| module | file |
|---|---|
| `Models` | `core/models.py` |
| `Metadata` | `core/metadata.py` |
| `Subprocess` | `utils/subprocess.py` |
| `Retention` | `core/retention.py` |
| `Backup` | `core/backup.py` |
| `Restore` | `core/restore.py` |
| `GcsStorage` | `cloud/gcs_storage.py` |
| `Registry` | `cloud/registry.py` |
| `Jobs` | `scheduler/jobs.py` |

The other modules are support:

- `Text`: Python string operations and `str` ordering;
- `Json`: JSON values;
- `Files`: paths and the file system;
- `Exceptions`: the error classes;
- `Wrappers`: `Option` and `Result`.

The form of each module follows the source:

- **Pure modules.** Pure code becomes functions and lemmas.
- **Loops.** Code that works by a loop becomes a method whose `ensures` ties its result to a
  specification function. Examples are the retention sweep (`_cleanup_directory`), the
  row-count probe, the bucket listing and the ledger sync.
- **Objects updated in place.** An object whose methods update its fields becomes a class.
  These are the upload ledger (`UploadRegistry`), the validation report (`ValidationReport`)
  and the scheduler (`JobScheduler`).

Where the repository's description and its code differ, the model follows the code:

- **A failed table or enum listing.** `_get_tables_list` and `_get_enums_list` end in
  `return []` on an error. That line is never reached, because `run_psql` raises. A failed
  listing therefore makes checks 3 and 4 report `Failed to check: ...`. It does not report
  every name missing.
- **Check 9.** Check 9 (orphans) fails on any count other than 0. An error reading that
  count passes it.
- **Row counts.** The row counts a backup records default to 0 for a table whose count
  cannot be read. The table is not left out.
- **Metadata existence check.** In `restore_backup` the sidecar's `exists()` call sits outside
  the error handling. A sidecar in a directory that cannot be searched therefore makes the
  whole restore raise.
- **Sidecar checksum.** `create_backup` writes the sidecar with an empty checksum.
  `save_metadata` does not fill it in.
- **Dirty flag.** A backup reads the dirty flag as dirty only for `t`. Check 2 of a restore
  reads `t`, `true` and `1` as dirty.

## Model

| member | source | states |
|---|---|---|
| Models.MigrationInfo.ToDict | src/backup_postgres/core/models.py:20-22 | the dictionary has exactly the keys `version` and `dirty`, in that order, holding the record's values |
| Models.TableCounts.With | src/backup_postgres/core/models.py:104-115 | setting one counted table's field changes that table's count to the new value and leaves every other table's count as it was |
| Models.TableCounts.ToDict | src/backup_postgres/core/models.py:117-129 | the keys are the nine counted tables in declaration order, and looking up each one gives that table's count |
| Models.ZeroCounts | src/backup_postgres/core/models.py:107-115 | a fresh `TableCounts` reports 0 for every table |
| Models.BackupInfo.ToDict | src/backup_postgres/core/models.py:35-43 | the five keys in order; the timestamp is rendered in ISO form with a `Z` appended |
| Models.BackupInfoHasNoChecksum | src/backup_postgres/core/models.py:35-43 | a backup's information dictionary has no `checksum_sha256` key |
| Models.BackupResult.ToDict | src/backup_postgres/core/models.py:57-66 | the six keys in order; the nested `backup_info` is the information's own dictionary; a missing error is null |
| Models.RestoreResult.ToDict | src/backup_postgres/core/models.py:80-89 | the six keys in order; the validation errors are listed as strings in their order |
| Models.BackupMetadata.ToDict | src/backup_postgres/core/models.py:142-149 | the four sections in order, each the nested record's own dictionary, with no checksum key at the top level |
| Models.CountedTablesDistinct | src/backup_postgres/core/models.py:117-129 | the nine counted table names are pairwise distinct, so the counts dictionary loses no key |
| Metadata.TimestampText | src/backup_postgres/core/metadata.py:48 | `%Y%m%d_%H%M%S` gives 15 characters, with the year padded to four digits |
| Metadata.GenerateBackupFilename | src/backup_postgres/core/metadata.py:23-51 | the dump name ends in `.dump` and the sidecar name in `.json`; they share the stem; the dump name starts with the base name and the timestamp; the sidecar name is what `with_suffix(".json")` makes of the dump name |
| Metadata.PadCompare | src/backup_postgres/core/metadata.py:48 | zero-padded numbers of one width compare as strings exactly as they compare as numbers |
| Metadata.TimestampTextOrder | src/backup_postgres/core/metadata.py:48 | for valid times, one timestamp text sorts before another exactly when its time is earlier, to the second |
| Metadata.DumpNameShape | src/backup_postgres/core/metadata.py:49-51 | the dump name is the base name, `_`, the timestamp text, then the version and type tail |
| Metadata.FilenameOrder | src/backup_postgres/core/metadata.py:48-51 | two backup names with one base name, taken in different seconds, sort by name exactly as they sort by time; this is what lets retention sort by name |
| Metadata.InfoSection | src/backup_postgres/core/metadata.py:75-82 | the `backup_info` section holds the six keys in order, with the checksum last |
| Metadata.GenerateMetadataDict | src/backup_postgres/core/metadata.py:54-96 | the sidecar has exactly the four sections `backup_info`, `migration_info`, `table_counts` and `enum_types` |
| Metadata.SidecarFields | src/backup_postgres/core/metadata.py:74-96 | each field of the sidecar reads back the value it was built from: checksum, file name, type, database, size, timestamp, version, dirty flag, the counts dictionary and the six enum types |
| Metadata.SidecarVersusRecord | src/backup_postgres/core/metadata.py:54-96 | the sidecar and `BackupMetadata.to_dict` agree on migration, counts and enum types; only the sidecar carries a checksum |
| Metadata.SaveMetadata | src/backup_postgres/core/metadata.py:99-117 | saving succeeds exactly when the parent directory is searchable and the path is writable; then the directory exists and the path holds the document, and nothing else changes |
| Metadata.LoadMetadata | src/backup_postgres/core/metadata.py:120-148 | asking whether the file exists raises in a directory that may not be searched, and "." cannot be opened; otherwise a missing file gives None, a JSON document gives itself, and a file that is not JSON raises a JSON decoding error |
| Metadata.SaveThenLoad | src/backup_postgres/core/metadata.py:99-148 | loading a sidecar that was just saved gives back the saved document |
| Metadata.CalculateFileSize | src/backup_postgres/core/metadata.py:151-168 | the size is returned exactly when the file exists, and it is that file's size |
| Metadata.CreateBackupMetadata | src/backup_postgres/core/metadata.py:171-216 | succeeds exactly when the archive exists; the record names the archive's file name, its digest, its size, the given migration and counts, and the six enum types |
| Subprocess.FromCompleted | src/backup_postgres/utils/subprocess.py:29-37 | success exactly when the return code is 0; the code and both outputs are kept |
| Subprocess.RunPgDump | src/backup_postgres/utils/subprocess.py:40-112 | returns exactly when pg_dump exited with 0; any other outcome is a BackupError, which for a nonzero exit carries the code and stderr |
| Subprocess.RunPgRestore | src/backup_postgres/utils/subprocess.py:114-191 | every failure is a RestoreError; a result is the completed process as recorded |
| Subprocess.PgRestoreClassification | src/backup_postgres/utils/subprocess.py:175-187 | exit 0 is a success; a nonzero exit whose lower-cased stderr mentions ignored errors is returned as a non-success result; any other nonzero exit raises with the code and stderr |
| Subprocess.PgRestoreIgnoresCase | src/backup_postgres/utils/subprocess.py:178 | whether pg_restore raises does not depend on the case of stderr |
| Subprocess.RunPsql | src/backup_postgres/utils/subprocess.py:194-246 | returns stdout exactly when psql exited with 0; a nonzero exit raises `psql query failed:` followed by stderr |
| Subprocess.VerifyBackupFormat | src/backup_postgres/utils/subprocess.py:301-332 | true exactly when `pg_restore -l` exited with 0; otherwise a RestoreError, never false |
| Subprocess.CheckedToolsReturnOnlySuccess | src/backup_postgres/utils/subprocess.py:40-112 | pg_dump and psql never return a result that is not a success |
| Files.SortedDumps | src/backup_postgres/core/retention.py:126 | the `.dump` names of a directory, strictly ascending in Python's string order, with no other name |
| Retention.RemoveBackupFiles | src/backup_postgres/core/retention.py:136-154 | one iteration of the removal loop, proved equal to the pair-removal function |
| Retention.RemovePairStep | src/backup_postgres/core/retention.py:136-154 | removing one backup never adds files; it reports exactly the files it removed; it removes nothing, the dump, or the dump then its sidecar; it removes something exactly when the dump exists and can be removed; it removes both exactly when both exist and can be removed |
| Retention.RemovePairsEffect | src/backup_postgres/core/retention.py:136-156 | the loop never adds files; the removed list is exactly the files that disappeared; every file that disappeared is a selected dump or its sidecar and could be removed |
| Retention.RemovePairsComplete | src/backup_postgres/core/retention.py:136-156 | every selected backup that could be removed is gone, and so is its sidecar when that could be removed; one failure does not stop the loop |
| Retention.RemovedShape | src/backup_postgres/core/retention.py:136-156 | the removed list is a sequence of the selected dumps in order, each optionally followed by its own sidecar |
| Retention.SidecarFollowsDump | src/backup_postgres/core/retention.py:143-148 | a removed dump whose sidecar existed and could be removed is immediately followed by that sidecar in the list |
| Retention.Selected | src/backup_postgres/core/retention.py:121-133 | for a searchable directory holding more dumps than the retention, as many names as the excess; otherwise none |
| Retention.SelectedPrefix | src/backup_postgres/core/retention.py:133 | the selected names are the oldest ones: a prefix of the sorted dumps |
| Retention.Cleanup | src/backup_postgres/core/retention.py:110-156 | raises exactly when the directory cannot be searched, and then changes nothing; with nothing selected it changes nothing and removes nothing |
| Retention.CleanupDirectory | src/backup_postgres/core/retention.py:110-156 | the loop over the oldest dumps is proved equal to the cleanup function |
| Retention.CleanupEffect | src/backup_postgres/core/retention.py:110-156 | a cleanup only removes selected dumps and their sidecars, only removable ones, and reports exactly what it removed |
| Retention.CleanupKeepsNewest | src/backup_postgres/core/retention.py:126-133 | every unselected dump survives unchanged, and every selected name sorts before every kept one |
| Retention.CleanupRemovesOldest | src/backup_postgres/core/retention.py:133-154 | every selected backup is swept away as far as removal permits |
| Retention.CleanupPairs | src/backup_postgres/core/retention.py:136-156 | the reported list has the dump-then-sidecar shape of the selected names |
| Retention.DumpsLeft | src/backup_postgres/core/retention.py:126-156 | when every removal succeeds, the dumps left are exactly the newest ones that were not selected |
| Retention.CountBackups | src/backup_postgres/core/retention.py:158-170 | the number of `.dump` files; 0 for a missing directory; raises only when the directory cannot be searched |
| Retention.Enforce | src/backup_postgres/core/retention.py:70-108 | every failure is reported as a RetentionError |
| Retention.SweepDirectory | src/backup_postgres/core/retention.py:88-105 | one directory's cleanup and recount, proved equal to the sweep function |
| Retention.EnforceRetention | src/backup_postgres/core/retention.py:70-108 | the daily sweep, then the weekly one, proved equal to the enforcement function |
| Retention.EnforceTouchesOnlySweptDirs | src/backup_postgres/core/retention.py:70-108 | enforcement never adds files, and removes only removable files in the daily and weekly directories; manual backups are never touched |
| Retention.DailyFailureSkipsWeekly | src/backup_postgres/core/retention.py:93-95 | a failing daily sweep raises `Daily cleanup failed:` with the cause, and no weekly file is removed |
| Retention.SidecarInjective | src/backup_postgres/core/retention.py:144 | two distinct dump names never share a sidecar |
| Retention.RemovePairsCount | src/backup_postgres/core/retention.py:136-156 | when every selected dump has a sidecar and nothing is locked, the loop reports two files per selected backup |
| Retention.CleanupLeavesRetention | src/backup_postgres/core/retention.py:126-156 | when nothing is locked, a directory over its limit keeps exactly `retention` dumps |
| Retention.CleanupRemovesPairs | src/backup_postgres/core/retention.py:133-156 | when every dump has a sidecar and nothing is locked, the removed list holds two files per backup over the limit |
| Retention.KeptUndercount | src/backup_postgres/core/retention.py:89-91 | in that case `kept_*` is reported as 2·retention − N for N dumps, not `retention`: the count is taken after the removal and the removed pairs are subtracted again |
| Retention.TypeDirectory | src/backup_postgres/core/retention.py:207-214 | the three backup types have a directory; any other type raises `Invalid backup type:` |
| Retention.GetBackupCount | src/backup_postgres/core/retention.py:172-192 | an unknown type raises ValueError; for daily, weekly and manual alike, a directory that may not be searched raises, a missing one counts 0, and an existing one gives its number of dumps |
| Retention.ListBackups | src/backup_postgres/core/retention.py:194-219 | an unknown type raises ValueError; a listing is strictly sorted by file name, holds exactly the type directory's `.dump` files, and has as many entries as `get_backup_count` reports |
| Registry.Table.Put | src/backup_postgres/cloud/registry.py:118-125 | storing an entry keeps the ledger well formed; a new key goes to the end of the insertion order and an existing key keeps its place |
| Registry.Table.Delete | src/backup_postgres/cloud/registry.py:196-197 | deleting removes the key from the entries and from the insertion order |
| Registry.Table.IsUploaded | src/backup_postgres/cloud/registry.py:89-100 | a key is returned exactly when the ledger holds the backup with the same checksum, and it is the stored object key |
| Registry.Without | src/backup_postgres/cloud/registry.py:197 | removing a key keeps every other key and keeps them distinct |
| Registry.CountIsKeys | src/backup_postgres/cloud/registry.py:205-207 | the entry count equals the length of the insertion order |
| Registry.MarkThenIsUploaded | src/backup_postgres/cloud/registry.py:102-128 | after marking, the backup reads as uploaded under the new key; no other entry changes; the count grows by one only for a new backup |
| Registry.MarkOverwrites | src/backup_postgres/cloud/registry.py:118-125 | marking again with another checksum replaces the entry: the old checksum no longer matches |
| Registry.RemoveEffect | src/backup_postgres/cloud/registry.py:183-203 | removal drops exactly that key; other entries are untouched; removing an absent key changes nothing |
| Registry.RemoveCount | src/backup_postgres/cloud/registry.py:183-207 | removal lowers the count by one exactly when the key was present |
| Registry.SyncKey | src/backup_postgres/cloud/registry.py:148-161 | a recognised object key is the prefix, a known type without a slash, `/`, then the file name |
| Registry.SyncKeyOfLayout | src/backup_postgres/cloud/registry.py:148-161 | a key laid out as prefix, type and name is recognised exactly when the type is daily, weekly or manual |
| Registry.SyncAll | src/backup_postgres/cloud/registry.py:150-175 | the sync keeps the ledger well formed |
| Registry.SyncOneEffect | src/backup_postgres/cloud/registry.py:150-175 | one object adds at most its own key, at the end, and never changes an existing entry |
| Registry.SyncAllAdditive | src/backup_postgres/cloud/registry.py:150-175 | a sync only appends keys, never changes an existing entry, and reports as many as it appended |
| Registry.SyncAllCount | src/backup_postgres/cloud/registry.py:174-181 | the reported number is how much the entry count grew |
| Registry.SyncAllComplete | src/backup_postgres/cloud/registry.py:150-175 | after a sync every recognised object's key is in the ledger |
| Registry.SyncAllOrigin | src/backup_postgres/cloud/registry.py:166-173 | every added entry comes from the first listed object with that key, built from its etag, time and key |
| Registry.SyncAllNoop | src/backup_postgres/cloud/registry.py:165-181 | a ledger already holding every recognised key is left as it is, with a count of 0 |
| Registry.SyncAllIdempotent | src/backup_postgres/cloud/registry.py:130-181 | syncing the same listing twice adds nothing the second time |
| Registry.EntryTypeOfKey | src/backup_postgres/cloud/registry.py:222 | the type read back from a ledger key is the type it was built from |
| Registry.ListedMembers | src/backup_postgres/cloud/registry.py:209-235 | an item is listed exactly when its key is in the ledger, matches the filter, and the item shows that key's entry |
| Registry.ListedAll | src/backup_postgres/cloud/registry.py:219-235 | without a filter every entry is listed, in insertion order |
| Registry.CountError | src/backup_postgres/cloud/registry.py:46 | counting the entries of a document that is not a dict raises a TypeError, of a dict without `uploaded` a KeyError, and of a value without a length a TypeError; only a dict holding `uploaded` can be counted |
| Registry.Load | src/backup_postgres/cloud/registry.py:39-54 | a stored ledger is taken as is; a missing, unreadable or non-JSON file gives an empty ledger with no time stamp; a document whose entries cannot be counted raises, since only JSON decoding and I/O errors are caught |
| Registry.UploadRegistry.constructor | src/backup_postgres/cloud/registry.py:28-54 | on a file that loads, the object holds the loaded ledger, keeps the file and its writability, and is well formed |
| Registry.UploadRegistry.Open | src/backup_postgres/cloud/registry.py:28-54 | creating the ledger object raises exactly when loading raises, with the same exception; otherwise a new object holds the loaded ledger |
| Registry.UploadRegistry.Save | src/backup_postgres/cloud/registry.py:56-70 | the time stamp is updated; the file holds the ledger when it can be written, and is kept as it was otherwise |
| Registry.UploadRegistry.IsUploaded | src/backup_postgres/cloud/registry.py:72-100 | answers from the ledger's current table |
| Registry.UploadRegistry.MarkUploaded | src/backup_postgres/cloud/registry.py:102-128 | the table gains or replaces the entry, the backup then reads as uploaded under that key, and the ledger is saved |
| Registry.UploadRegistry.SyncFromGcs | src/backup_postgres/cloud/registry.py:130-181 | the table and count are those of the sync; the ledger is saved only when something was added |
| Registry.UploadRegistry.AddMissing | src/backup_postgres/cloud/registry.py:150-175 | the loop is proved equal to the sync function and does not save |
| Registry.UploadRegistry.RemoveEntry | src/backup_postgres/cloud/registry.py:183-203 | true exactly when the key was present; the entry is then deleted and the ledger saved; otherwise nothing changes |
| Registry.UploadRegistry.GetUploadedCount | src/backup_postgres/cloud/registry.py:205-207 | the number of entries |
| Registry.UploadRegistry.ListUploaded | src/backup_postgres/cloud/registry.py:209-235 | the loop is proved equal to the listing function |
| Registry.UploadRegistry.Clear | src/backup_postgres/cloud/registry.py:237-241 | the ledger is emptied, counts 0, and is saved |
| GcsStorage.UploadFile | src/backup_postgres/cloud/gcs_storage.py:130-201 | succeeds exactly when the local file exists and the bucket accepts the key; on success the object holds the file's content, size, time and etag; on failure the bucket is unchanged and the result has size 0 and an error |
| GcsStorage.ListingPrefix | src/backup_postgres/cloud/gcs_storage.py:303-305 | `{prefix}/{type}/` for a non-empty type filter, `{prefix}/` otherwise |
| GcsStorage.ParseKey | src/backup_postgres/cloud/gcs_storage.py:318-320 | the file name never holds a slash |
| GcsStorage.ParseKeyOfLayout | src/backup_postgres/cloud/gcs_storage.py:318-320 | a key laid out as prefix, type and name gives back that type and name |
| GcsStorage.ParseKeyWithoutCategory | src/backup_postgres/cloud/gcs_storage.py:319 | a key with no type directory reports the type `unknown` |
| GcsStorage.FilteredListingHasItsType | src/backup_postgres/cloud/gcs_storage.py:303-320 | an object listed under a type filter reports that type |
| GcsStorage.ListedKeys | src/backup_postgres/cloud/gcs_storage.py:310 | the listing returns each key under the prefix exactly once, in key order |
| GcsStorage.Info | src/backup_postgres/cloud/gcs_storage.py:322-331 | the backup record carries the key, the parsed type and name, size 0 when the size is unknown, and the current time when the update time is unknown |
| GcsStorage.CollectedMembers | src/backup_postgres/cloud/gcs_storage.py:314-331 | exactly the listed `.dump` objects are collected, each with its own record |
| GcsStorage.CollectDumps | src/backup_postgres/cloud/gcs_storage.py:314-331 | the loop is proved equal to the collection function |
| GcsStorage.EarlierOrder | src/backup_postgres/cloud/gcs_storage.py:334 | comparing update times is a strict order: irreflexive, asymmetric, and its negation is transitive |
| GcsStorage.InsertNewestPermutes | src/backup_postgres/cloud/gcs_storage.py:334 | inserting into the sorted list loses and adds nothing |
| GcsStorage.InsertNewestSorted | src/backup_postgres/cloud/gcs_storage.py:334 | inserting into a newest-first list keeps it newest first |
| GcsStorage.InsertNewestStable | src/backup_postgres/cloud/gcs_storage.py:334 | insertion keeps the relative order of records with equal times |
| GcsStorage.InsertNewestDistinct | src/backup_postgres/cloud/gcs_storage.py:334 | inserting a new key keeps the keys distinct |
| GcsStorage.SortNewestFirstCorrect | src/backup_postgres/cloud/gcs_storage.py:334 | the sort is newest first and a permutation of its input |
| GcsStorage.SortNewestFirstStable | src/backup_postgres/cloud/gcs_storage.py:334 | the sort is stable, as Python's `list.sort` with `reverse=True` is |
| GcsStorage.SortNewestFirstDistinct | src/backup_postgres/cloud/gcs_storage.py:334 | the sort keeps distinct keys distinct |
| GcsStorage.ListBackups | src/backup_postgres/cloud/gcs_storage.py:283-342 | the listing method is proved equal to the listing function |
| GcsStorage.ListBackupsOutcome | src/backup_postgres/cloud/gcs_storage.py:283-342 | an unlistable bucket raises CloudStorageError; otherwise the listing fails, with a TypeError, exactly when it would compare times with and without a time zone |
| GcsStorage.ListBackupsContents | src/backup_postgres/cloud/gcs_storage.py:283-342 | a listing is newest first with distinct keys, holds exactly the `.dump` objects under the prefix with their records, and lists equal times in key order |
| GcsStorage.SameTimeInKeyOrder | src/backup_postgres/cloud/gcs_storage.py:310-334 | records with the same update time stay in the bucket's key order after the sort |
| GcsStorage.CollectedKeyOrder | src/backup_postgres/cloud/gcs_storage.py:314-331 | the collected records are in strictly increasing key order |
| GcsStorage.GetMetadata | src/backup_postgres/cloud/gcs_storage.py:344-372 | a document is returned exactly when the sidecar object exists and holds JSON, and it is that JSON |
| GcsStorage.MetadataKeyOfDump | src/backup_postgres/cloud/gcs_storage.py:357 | for a key with a single `.dump` at its end, the sidecar key swaps `.dump` for `.json` |
| GcsStorage.UploadThenGetMetadata | src/backup_postgres/cloud/gcs_storage.py:130-372 | a sidecar uploaded beside a dump is read back by `get_metadata` on the dump's key |
| GcsStorage.VerifyUpload | src/backup_postgres/cloud/gcs_storage.py:374-403 | true exactly when the object exists and its size, 0 when unknown, is the expected one |
| GcsStorage.UploadThenVerify | src/backup_postgres/cloud/gcs_storage.py:130-403 | a successful upload verifies against the local file's size |
| Backup.BackupManager.Policy | src/backup_postgres/core/backup.py:67-75 | the manager's retention policy is valid: its three directories are distinct and the limits are at least 1 |
| Backup.OutputDirIsListed | src/backup_postgres/core/backup.py:107-112 | the three known types write where retention and listing look; any other type writes to the manual directory, which listing then refuses |
| Backup.MigrationMeaning | src/backup_postgres/core/backup.py:198-213 | a missing psql or a nonzero exit gives version 0, not dirty; any other reading comes from a row of exactly two `\|`-separated fields, a nonzero version is the integer before the `\|`, and a dirty flag is `t` in either case after it |
| Backup.MigrationOfRow | src/backup_postgres/core/backup.py:198-213 | a row `version\|flag` is read back as that version, and dirty exactly when the flag is `t` |
| Backup.MigrationRoundTrip | src/backup_postgres/core/backup.py:198-213 | reading the row psql prints for a migration gives back that migration |
| Backup.OnlyTIsDirty | src/backup_postgres/core/backup.py:206 | the flags `true` and `1` are read as not dirty |
| Backup.Probe | src/backup_postgres/core/backup.py:239-249 | a failed or blank count reads as nothing; a count read is the integer psql printed |
| Backup.CountsOfTables | src/backup_postgres/core/backup.py:239-249 | each probed counted table records its probe, 0 when unreadable; a table not probed stays 0 |
| Backup.CountsOfCounted | src/backup_postgres/core/backup.py:215-251 | each counted table records its probe, and a query error records 0 |
| Backup.ProbeTables | src/backup_postgres/core/backup.py:239-249 | the loop is proved equal to the counts function |
| Backup.GetTableCounts | src/backup_postgres/core/backup.py:215-251 | the counts start at 0 and probe the nine counted tables |
| Backup.BackupPaths | src/backup_postgres/core/backup.py:101-116 | both paths lie in the type's output directory and carry the generated names; the sidecar path is the dump's `with_suffix(".json")` and differs from it |
| Backup.DumpError | src/backup_postgres/core/backup.py:114-132 | no error exactly when the directory is searchable, pg_dump succeeded and the archive exists; otherwise the OSError, pg_dump's error, or `Backup file was not created:` |
| Backup.DumpStep | src/backup_postgres/core/backup.py:114-132 | the step is proved equal to the dump functions |
| Backup.Describe | src/backup_postgres/core/backup.py:135-148 | the backup information names the archive and its size, and the sidecar is built from the migration and counts read before the dump |
| Backup.Retained | src/backup_postgres/core/backup.py:151-163 | the result succeeds exactly when retention succeeds; a success names both paths, the information and an empty checksum; a failure carries retention's message |
| Backup.SaveAndRetain | src/backup_postgres/core/backup.py:143-163 | a sidecar that cannot be written fails the backup and changes nothing; otherwise the sidecar is written, then retention runs |
| Backup.CreateBackup | src/backup_postgres/core/backup.py:78-180 | every failure carries its message with empty paths; a dump failure saves no sidecar; a success writes the sidecar with the archive's size beside the archive, then enforces retention |
| Backup.RetentionSparesManual | src/backup_postgres/core/backup.py:151-153 | retention after a backup never removes a manual backup |
| Backup.SidecarOfBackup | src/backup_postgres/core/backup.py:143-148 | a backup's sidecar records an empty checksum, the archive's name and size, and the version read before the dump |
| Backup.ListBackups | src/backup_postgres/core/backup.py:253-275 | an unknown type raises ValueError; a known type lists exactly its directory's `.dump` files, sorted by name, and fails only when that directory cannot be searched |
| Backup.ListBackupsAsPolicy | src/backup_postgres/core/backup.py:253-275 | the manager's listing equals the retention policy's listing |
| Backup.GetLatestBackup | src/backup_postgres/core/backup.py:277-288 | none for an empty listing; otherwise a listed backup whose name sorts after every other listed one |
| Restore.ExpectedNames | src/backup_postgres/core/restore.py:88-109 | the expected enum types are those every sidecar lists, and the expected tables are the migration table followed by the nine counted tables |
| Restore.ValidationReport.constructor | src/backup_postgres/core/restore.py:34-40 | an empty report with zero counters |
| Restore.ValidationReport.AddCheck | src/backup_postgres/core/restore.py:42-48 | the check is appended and counted as passed or failed; the counters stay equal to the passed and failed checks |
| Restore.ValidationReport.AllPassed | src/backup_postgres/core/restore.py:50-53 | `failed == 0` holds exactly when every check passed |
| Restore.ValidationReport.ToDict | src/backup_postgres/core/restore.py:55-74 | the summary's total is the number of checks, `passed` and `failed` count the checks that passed and failed, its verdict is whether every check passed, and `checks` lists each check's dictionary in the order added |
| Restore.PassedCountAll | src/backup_postgres/core/restore.py:42-53 | every check passed exactly when all of them are counted as passed |
| Restore.FailedDetails | src/backup_postgres/core/restore.py:185-187 | one detail per failed check |
| Restore.FailedDetailsAppend | src/backup_postgres/core/restore.py:185-187 | the failed details of two runs of checks are those of the first, then those of the second |
| Restore.NoErrorsIffAllPass | src/backup_postgres/core/restore.py:184-187 | a restore reports no validation error exactly when it reports that validation passed |
| Restore.CheckDict | src/backup_postgres/core/restore.py:58-67 | one check is shown with the five keys in order |
| Restore.ZeroVersionShownAsNull | src/backup_postgres/core/restore.py:63-64 | a matching migration version 0 is shown with null expected and actual values |
| Restore.ReportSummary | src/backup_postgres/core/restore.py:68-73 | the summary holds the total, the two counters and the verdict, and `checks` shows every check in order |
| Restore.ReadIntMeaning | src/backup_postgres/core/restore.py:273-318 | a query yields an integer exactly when psql succeeds and prints one, and nothing exactly when psql succeeds and prints only white space |
| Restore.ReadIntOfRendering | src/backup_postgres/core/restore.py:407-432 | an integer psql prints is read back |
| Restore.ProbeIsReadInt | src/backup_postgres/core/restore.py:466-503 | a backup's row-count probe and a restore's reading of the same query agree |
| Restore.HasSection | src/backup_postgres/core/restore.py:245 | without metadata the section is absent; for a dictionary it is present exactly when its key is |
| Restore.MigrationVersionCheck | src/backup_postgres/core/restore.py:273-318 | check 1 passes only on a version read; without a migration section it passes exactly then |
| Restore.SidecarSections | src/backup_postgres/core/restore.py:245 | a sidecar written by a backup has both sections the checks read, with the recorded version and counts |
| Restore.VersionCheckAgainstSidecar | src/backup_postgres/core/restore.py:273-318 | against a backup's sidecar, check 1 passes exactly when the live version equals the recorded one |
| Restore.VersionCheckAgainst | src/backup_postgres/core/restore.py:273-318 | against metadata recording a version, check 1 passes exactly when the live version equals it |
| Restore.DirtyCheck | src/backup_postgres/core/restore.py:320-353 | check 2 passes exactly when psql succeeds and prints a flag that is not blank and not `t`, `true` or `1` |
| Restore.DirtyReadingsDiffer | src/backup_postgres/core/restore.py:320-353 | a backup reads only `t` as dirty while check 2 reads `t`, `true` and `1` as dirty, so `true` and `1` are read differently by the two |
| Restore.NonBlankLines | src/backup_postgres/core/restore.py:540-566 | never more names than lines |
| Restore.NonBlankLinesMembers | src/backup_postgres/core/restore.py:540-566 | the listed names are exactly the stripped lines that are not blank |
| Restore.Listing | src/backup_postgres/core/restore.py:540-566 | a listing is returned exactly when psql succeeds |
| Restore.ListingOfNames | src/backup_postgres/core/restore.py:540-566 | names printed one per line are listed as they are, in order |
| Restore.Missing | src/backup_postgres/core/restore.py:355-405 | the missing names are exactly the expected ones not present |
| Restore.MissingAppend | src/backup_postgres/core/restore.py:355-405 | the missing names keep the declared order |
| Restore.PresenceCheck | src/backup_postgres/core/restore.py:355-405 | passes exactly when the listing worked and holds every expected name; a failed listing reports `Failed to check:`; otherwise it names the missing ones |
| Restore.TablesCheck | src/backup_postgres/core/restore.py:355-379 | check 3 passes exactly when the table listing worked and holds every expected table |
| Restore.EnumsCheck | src/backup_postgres/core/restore.py:381-405 | check 4 passes exactly when the enum listing worked and holds every expected type |
| Restore.FailedListingIsAnError | src/backup_postgres/core/restore.py:540-552 | a listing query that fails makes check 3 fail with `Failed to check:` and the error |
| Restore.IndexesCheck | src/backup_postgres/core/restore.py:407-432 | check 5 passes exactly when psql prints a positive count |
| Restore.ForeignKeysCheck | src/backup_postgres/core/restore.py:434-464 | check 6 passes exactly when psql prints a count that is not negative |
| Restore.OrphansCheck | src/backup_postgres/core/restore.py:505-538 | check 9 fails exactly when psql prints a count other than 0 |
| Restore.CountChecksOfRendering | src/backup_postgres/core/restore.py:407-538 | for printed counts, check 5 passes exactly when the index count is positive, check 6 always passes, and check 9 passes exactly when there are no orphans |
| Restore.MismatchMeaning | src/backup_postgres/core/restore.py:478-497 | a table shows a mismatch exactly when psql prints an integer for it that differs from the recorded value |
| Restore.NoMismatches | src/backup_postgres/core/restore.py:478-503 | there is no mismatch exactly when no table shows one |
| Restore.RowCountsCheck | src/backup_postgres/core/restore.py:466-503 | check 7 passes exactly when the recorded counts form a dictionary and no table shows a mismatch |
| Restore.CheckRowCounts | src/backup_postgres/core/restore.py:466-503 | the loop is proved equal to the check-7 function |
| Restore.RecordedCountsMatch | src/backup_postgres/core/restore.py:466-503 | the counts a backup records pass check 7 against the same database |
| Restore.ProbedCountsMatch | src/backup_postgres/core/restore.py:466-503 | any counts that agree with each table's probe pass check 7 |
| Restore.LeadingChecks | src/backup_postgres/core/restore.py:226-242 | checks 1 to 6 are always run |
| Restore.RowCountChecks | src/backup_postgres/core/restore.py:244-248 | check 7 is run exactly when the metadata has a `table_counts` section |
| Restore.ValidationOrder | src/backup_postgres/core/restore.py:224-256 | when eight checks run, the seventh is check 7 on the recorded counts |
| Restore.OrphansLast | src/backup_postgres/core/restore.py:253-256 | the orphan check always comes last |
| Restore.ValidationShape | src/backup_postgres/core/restore.py:203-256 | a validation runs 7 or 8 checks, 8 exactly when the counts section is present; without metadata it runs 7 and cannot raise; it raises only for metadata that is not a dictionary |
| Restore.RunLeadingChecks | src/backup_postgres/core/restore.py:226-242 | the six checks are appended in order |
| Restore.RunRowCountCheck | src/backup_postgres/core/restore.py:244-248 | check 7 is appended when the section is present; reading a non-dictionary raises and adds nothing |
| Restore.ValidateRestore | src/backup_postgres/core/restore.py:203-256 | a fresh report whose checks are the expected checks in order; it raises exactly when they do |
| Restore.BackupThenValidate | src/backup_postgres/core/restore.py:203-256 | a backup restored into a database that answers as the one it was taken from runs eight checks; check 1 passes exactly when the versions agree, and check 7 passes |
| Restore.ChecksAgainstRecord | src/backup_postgres/core/restore.py:224-256 | with a counts section eight checks run, the first and seventh against that metadata |
| Restore.ChecksWithCounts | src/backup_postgres/core/restore.py:224-256 | with a counts section the checks are 1 to 6, check 7 on those counts, then check 9 |
| Restore.LoadedMetadata | src/backup_postgres/core/restore.py:143-150 | raises exactly when the sidecar's directory cannot be searched; a document returned is the file's content |
| Restore.LoadRestoreMetadata | src/backup_postgres/core/restore.py:143-150 | the steps are proved equal to the loading function |
| Restore.RestoreOutcomes | src/backup_postgres/core/restore.py:152-201 | a restore succeeds exactly when the archive exists and lists, the server is ready, pg_restore does not raise and validation does not raise |
| Restore.RestoreReports | src/backup_postgres/core/restore.py:181-201 | a failed restore is not validated and reports its error as the one validation error; a successful one has no error and is validated exactly when no check failed |
| Restore.IgnoredErrorsStillRestore | src/backup_postgres/core/restore.py:170-176 | pg_restore finishing with ignored errors still counts as restored |
| Restore.UnreadableMetadataIgnored | src/backup_postgres/core/restore.py:145-150 | a sidecar that does not hold JSON is ignored: the restore goes on as if it had none |
| Restore.RestoreBackup | src/backup_postgres/core/restore.py:120-201 | the steps are proved equal to the restore function; the schema drop does not change the outcome |
| Jobs.ObjectKey | src/backup_postgres/scheduler/jobs.py:302-304 | the key is the prefix, `/`, the type, `/` and the name |
| Jobs.ReadChecksum | src/backup_postgres/scheduler/jobs.py:286-292 | a missing, empty or falsy sidecar in a searchable directory is unusable, and one in a directory that may not be searched is broken; a checksum is found exactly when the sidecar loads and holds a string at `backup_info.checksum_sha256`; anything else is broken |
| Jobs.Marked | src/backup_postgres/scheduler/jobs.py:328 | after marking, the backup reads as uploaded under its key, no other entry changes, and the ledger is saved when writable |
| Jobs.UploadOutcome | src/backup_postgres/scheduler/jobs.py:265-335 | an upload keeps the ledger well formed, never changes the refused keys, never changes another backup's entry, and leaves the ledger as it was when it fails |
| Jobs.UploadUnreadable | src/backup_postgres/scheduler/jobs.py:286-290 | without a readable checksum nothing is uploaded and the upload fails |
| Jobs.UploadWhenUploaded | src/backup_postgres/scheduler/jobs.py:295-299 | a backup the ledger holds with the same checksum is reported uploaded and nothing is sent |
| Jobs.UploadSucceedsIff | src/backup_postgres/scheduler/jobs.py:301-331 | a new backup uploads exactly when both files exist and the bucket accepts both keys |
| Jobs.UploadDumpRefused | src/backup_postgres/scheduler/jobs.py:308-315 | when the dump's upload fails, nothing is stored and nothing is marked |
| Jobs.UploadSidecarRefused | src/backup_postgres/scheduler/jobs.py:318-325 | when only the sidecar's upload fails, the dump stays in the bucket and nothing is marked |
| Jobs.UploadStoresBoth | src/backup_postgres/scheduler/jobs.py:308-325 | a successful new upload stores exactly the dump and the sidecar under their keys |
| Jobs.UploadMarks | src/backup_postgres/scheduler/jobs.py:327-331 | a successful new upload marks the backup with its checksum and the dump's key |
| Jobs.UploadIdempotent | src/backup_postgres/scheduler/jobs.py:265-335 | uploading a backup again after a success sends nothing and succeeds |
| Jobs.SyncItem | src/backup_postgres/scheduler/jobs.py:193-222 | one backup adds at most one upload or one error and changes no other backup's entry |
| Jobs.SyncItems | src/backup_postgres/scheduler/jobs.py:193-222 | a directory adds at most one upload or error per backup |
| Jobs.SweepFrom | src/backup_postgres/scheduler/jobs.py:185-230 | the sweep keeps the ledger well formed and the refused keys as they were |
| Jobs.SweepCompletes | src/backup_postgres/scheduler/jobs.py:185-230 | the sweep completes exactly when every type's listing succeeds |
| Jobs.BackupListing | src/backup_postgres/scheduler/jobs.py:191 | the sweep lists each type as the backup manager does |
| Jobs.ListedDumps | src/backup_postgres/scheduler/jobs.py:191-194 | every path the manager lists is a file with a non-empty name, and no two listed paths share a name |
| Jobs.InLedgerLocal | src/backup_postgres/scheduler/jobs.py:210-212 | whether a backup counts as uploaded depends only on its own entry |
| Jobs.SyncItemRecords | src/backup_postgres/scheduler/jobs.py:193-222 | an uploadable backup is in the ledger after its turn |
| Jobs.SyncItemsKeep | src/backup_postgres/scheduler/jobs.py:193-222 | a directory leaves the entries of other backups untouched |
| Jobs.SyncItemsRecord | src/backup_postgres/scheduler/jobs.py:193-222 | after a directory every uploadable backup in it is in the ledger |
| Jobs.SweepKeeps | src/backup_postgres/scheduler/jobs.py:190-222 | the sweep leaves the entries of other types untouched |
| Jobs.SweepRecords | src/backup_postgres/scheduler/jobs.py:177-230 | after a complete sweep every uploadable listed backup of every type is in the ledger |
| Jobs.SyncTypesDistinct | src/backup_postgres/scheduler/jobs.py:190 | the three swept types have distinct first letters, so their ledger keys never collide |
| Jobs.JobScheduler.constructor | src/backup_postgres/scheduler/jobs.py:30-55 | the scheduler keeps the manager, the bucket prefix, whether a cloud manager is configured, and the ledger |
| Jobs.JobScheduler.Ledger | src/backup_postgres/scheduler/jobs.py:296 | the ledger state reads the registry's table |
| Jobs.JobScheduler.UploadBackup | src/backup_postgres/scheduler/jobs.py:265-335 | without a cloud manager or a ledger nothing happens and the upload fails; otherwise the bucket, ledger and verdict are those of the upload function |
| Jobs.JobScheduler.Transfer | src/backup_postgres/scheduler/jobs.py:301-331 | the two uploads and the marking are proved equal to the upload function |
| Jobs.JobScheduler.SyncBackup | src/backup_postgres/scheduler/jobs.py:193-222 | one backup's turn is proved equal to the per-backup sync function |
| Jobs.JobScheduler.SyncDirectory | src/backup_postgres/scheduler/jobs.py:193-222 | one type's loop is proved equal to the directory sync function |
| Jobs.JobScheduler.SyncToCloud | src/backup_postgres/scheduler/jobs.py:177-230 | without cloud sync nothing changes; otherwise the bucket, ledger, counts and completion are those of the sweep |
| Jobs.JobScheduler.TriggerBackup | src/backup_postgres/scheduler/jobs.py:372-401 | reports true exactly when the backup succeeded; a successful backup with cloud sync is uploaded as the upload function says; otherwise bucket and ledger are unchanged |
| Jobs.JobScheduler.DailyBackupWithUpload | src/backup_postgres/scheduler/jobs.py:133-153 | a successful daily backup with cloud sync is uploaded as `daily`; otherwise bucket and ledger are unchanged |
| Jobs.JobScheduler.WeeklyBackupWithUpload | src/backup_postgres/scheduler/jobs.py:155-175 | a successful weekly backup with cloud sync is uploaded as `weekly`; otherwise bucket and ledger are unchanged |

## Left out

- Logging, the `log_execution_time` decorator and all log messages: they have no effect on state.
- JSON text encoding and decoding: a sidecar or ledger file holds a JSON value or is not JSON. Indentation is not modelled.
- SHA-256 (`utils/checksum.py`) is not modelled. It is an opaque parameter `digest` of `Metadata.CreateBackupMetadata`.
- Wall-clock times (`datetime.now`) and the duration of a restore are parameters.
- `check_pg_ready` is not modelled. Its polling loop sleeps on a clock, so readiness is a boolean parameter of a restore.
- The command lines built for pg_dump, pg_restore and psql are not modelled. Neither are their environment variables and timeouts. Each tool is modelled by its outcome.
- `run_psql` does not catch a missing psql binary. The resulting `FileNotFoundError` is modelled as an `OSError`.
- The `pg_dump` archive bytes are a parameter (`output`). Their format is not modelled.
- The Google Cloud client is modelled only as far as `upload_file`, `list_backups`, `get_metadata` and `verify_upload` use it. Left out:
  - `download_file`, `delete_file` and `test_connection` are not modelled;
  - retries;
  - `BackupInfo.to_dict` of the cloud module.
- GcsStorage.UploadFile: the etag is a parameter, and an upload of a missing local file is modelled as a failed upload.
- Jobs.UploadOutcome: the store uses one clock reading for both uploads, and each object's etag is a function of its key.
- Jobs.ReadChecksum: a checksum that is not a string is taken as a failed read. The source would instead pass it on to the ledger comparison.
- Jobs.SyncItem: the sidecar's `exists()` check assumes the backup directory is searchable. This holds for every path the listing returns.
- `RetentionReport.to_dict` and `UploadRegistry.to_dict` are not modelled. They only copy fields.
- Retention.Enforce: `RetentionConfig.Valid` asks for three distinct directories and limits of at least 1. The limits match the settings' bounds in `config/settings.py`. The distinct directories match how `BackupManager` builds them.
- The scheduler's APScheduler wiring is not modelled: `start`, `shutdown`, `get_next_run_time` and `list_jobs`. Only the job bodies are modelled.
- `_cloud_retention_cleanup` is not modelled. It calls `enforce_retention` on the cloud manager, which defines no such method. The call always raises and the job only logs that.
- Jobs.JobScheduler.SyncToCloud: the upload and error counts are returned, where the source only logs them.
- Restore.RestoreBackup: the schema drop runs `DROP SCHEMA` through psql, and its outcome is ignored. The model ignores whether it was asked for.
- Restore.ReadInt: `int()` is modelled for optional sign and decimal digits after stripping. Python's underscores and non-ASCII digits are not modelled.
- Restore.RowCountsCheck: recorded counts that are not a dictionary make `.items()` raise an AttributeError. The model carries it as a TypeError with the same message, so only the exception's class name differs.
- Python's `str.strip`, `str.lower` and `str.split` are modelled for ASCII white space and ASCII letters.
- Metadata.TimestampText: years below 1000 are zero-padded to four digits. Python's `strftime("%Y")` on Linux does not pad them, so such a name would be shorter.
- Json.Show: `str()` of a float, a list and a dict is shown as a placeholder (`<float>`, `[...]`, `{...}`), so check details and mismatch messages about such values are not the source's text. Integers, booleans, None and strings are shown as `str()` shows them.
- GcsStorage.ListBackups: the fallback time `now` may be naive or aware. The source's `datetime.now()` is always naive, so the model also covers fallback times the source never produces.
- Registry.Load: a JSON document whose `uploaded` value has a length but is not a ledger (a list, a string, or a dict of entries of another shape) is not represented. The source loads it and fails later, in whichever method first reads an entry.
- Concurrency between the scheduler's jobs is not modelled. Each job is one sequential call.
