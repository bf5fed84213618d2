/** How the outcome of a PostgreSQL client tool (pg_dump, pg_restore, psql) is classified.
    A tool run is an oracle: it either exits with a code and captured text, or its executable
    is not installed. */
module Subprocess {
  import opened Wrappers
  import opened Text
  import opened Exceptions

  datatype ProcessOutcome =
    | Exited(returncode: int, stdout: string, stderr: string)
    | NotInstalled

  datatype ProcessResult = ProcessResult(returncode: int, stdout: string, stderr: string, success: bool)

  /** The statements the core sends to psql. */
  datatype Query =
    | MigrationRow              // version and dirty flag, read before a backup
    | RowCount(table: string)   // SELECT COUNT(*) FROM <table>
    | MigrationVersion          // validation check 1
    | MigrationDirty            // validation check 2
    | TableList                 // tables of the public schema
    | EnumList                  // enum type names
    | IndexCount                // validation check 5
    | ForeignKeyCount           // validation check 6
    | OrphanCount               // validation check 9
    | DropSchema                // DROP SCHEMA public CASCADE; CREATE SCHEMA public

  /** The database as seen through psql: the outcome of each statement. */
  type Database = Query -> ProcessOutcome

  /** `ProcessResult.from_completed`: the text is kept and success means a zero exit code. */
  function FromCompleted(returncode: int, stdout: string, stderr: string): (r: ProcessResult)
    ensures r.success <==> returncode == 0
    ensures r.returncode == returncode && r.stdout == stdout && r.stderr == stderr
  {
    ProcessResult(returncode, stdout, stderr, returncode == 0)
  }

  const PgDumpMissing := "pg_dump command not found. Please ensure postgresql-client is installed."
  const PgRestoreMissing := "pg_restore command not found. Please ensure postgresql-client is installed."

  /** The marker pg_restore prints when it finished despite errors. */
  const IgnoredErrorsMarker := "errors ignored on restore"

  /** "<tool> failed with return code N", followed by ": <stderr>" when stderr is not empty. */
  function FailureMessage(tool: string, returncode: int, stderr: string): string {
    tool + " failed with return code " + IntToString(returncode) + (if stderr != "" then ": " + stderr else "")
  }

  /** `run_pg_dump` (run with `check=True`): any nonzero exit raises a BackupError. */
  function RunPgDump(o: ProcessOutcome): (r: Result<ProcessResult, Error>)
    ensures r.Ok? <==> o.Exited? && o.returncode == 0
    ensures r.Ok? ==> r.value.success && r.value.stdout == o.stdout
    ensures r.Err? ==> r.error.BackupError?
    ensures r.Err? && o.Exited? ==> r.error.msg == FailureMessage("pg_dump", o.returncode, o.stderr)
  {
    match o
    case NotInstalled => Err(BackupError(PgDumpMissing))
    case Exited(code, out, err) =>
      if code != 0 then Err(BackupError(FailureMessage("pg_dump", code, err)))
      else Ok(FromCompleted(code, out, err))
  }

  /** `run_pg_restore` (run with `check=False`): a nonzero exit is tolerated exactly when the
      lowercased stderr mentions the ignored-errors marker. */
  function RunPgRestore(o: ProcessOutcome): (r: Result<ProcessResult, Error>)
    ensures r.Err? ==> r.error.RestoreError?
    ensures r.Ok? ==> o.Exited? && r.value == FromCompleted(o.returncode, o.stdout, o.stderr)
  {
    match o
    case NotInstalled => Err(RestoreError(PgRestoreMissing))
    case Exited(code, out, err) =>
      if code != 0 && !Contains(Lower(err), IgnoredErrorsMarker) then
        Err(RestoreError(FailureMessage("pg_restore", code, err)))
      else
        Ok(FromCompleted(code, out, err))
  }

  /** `run_psql` (run with `check=True`): a nonzero exit raises a BackupError; a missing
      executable is not caught there and surfaces as the FileNotFoundError itself. */
  function RunPsql(o: ProcessOutcome): (r: Result<ProcessResult, Error>)
    ensures r.Ok? <==> o.Exited? && o.returncode == 0
    ensures r.Ok? ==> r.value.stdout == o.stdout
    ensures o.Exited? && o.returncode != 0 ==> r == Err(BackupError("psql query failed: " + o.stderr))
  {
    match o
    case NotInstalled => Err(OSError("[Errno 2] No such file or directory: 'psql'"))
    case Exited(code, out, err) =>
      if code != 0 then Err(BackupError("psql query failed: " + err))
      else Ok(FromCompleted(code, out, err))
  }

  /** `verify_backup_format`: `pg_restore -l` either lists the archive, or a RestoreError is raised. */
  function VerifyBackupFormat(o: ProcessOutcome): (r: Result<bool, Error>)
    ensures r.Ok? <==> o.Exited? && o.returncode == 0
    ensures r.Ok? ==> r.value
    ensures r.Err? ==> r.error.RestoreError?
  {
    match o
    case NotInstalled => Err(RestoreError(PgRestoreMissing))
    case Exited(code, _, err) =>
      if code != 0 then Err(RestoreError("Backup format verification failed: " + err))
      else Ok(true)
  }

  // ---------------------------------------------------------------------------
  // Properties of the classification
  // ---------------------------------------------------------------------------

  /** pg_dump and psql raise on every nonzero exit, so a result they return reports success. */
  lemma CheckedToolsReturnOnlySuccess(o: ProcessOutcome)
    ensures RunPgDump(o).Ok? ==> RunPgDump(o).value.success
    ensures RunPsql(o).Ok? ==> RunPsql(o).value.success
  {
  }

  /** pg_restore: a zero exit returns normally; a nonzero exit returns (with success false)
      exactly when the marker is present, whatever the case of its letters, and otherwise
      raises a RestoreError naming the exit code. */
  lemma {:induction false} PgRestoreClassification(code: int, out: string, err: string)
    ensures code == 0 ==> RunPgRestore(Exited(code, out, err)) == Ok(ProcessResult(0, out, err, true))
    ensures code != 0 && Contains(Lower(err), IgnoredErrorsMarker) ==>
      RunPgRestore(Exited(code, out, err)) == Ok(ProcessResult(code, out, err, false))
    ensures code != 0 && !Contains(Lower(err), IgnoredErrorsMarker) ==>
      RunPgRestore(Exited(code, out, err)) == Err(RestoreError(FailureMessage("pg_restore", code, err)))
  {
  }

  /** The marker is matched without regard to case: two stderr texts that differ only in the
      case of their ASCII letters are classified alike. */
  lemma {:induction false} PgRestoreIgnoresCase(code: int, out: string, err1: string, err2: string)
    requires Lower(err1) == Lower(err2)
    ensures RunPgRestore(Exited(code, out, err1)).Ok? == RunPgRestore(Exited(code, out, err2)).Ok?
  {
  }
}
