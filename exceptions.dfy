/** The exceptions the core raises or catches, as values. */
module Exceptions {

  datatype Error =
    | BackupError(msg: string)      // pg_dump and psql failures, a missing dump file
    | RetentionError(msg: string)   // a subclass of BackupError
    | RestoreError(msg: string)     // pg_restore failures, a missing backup file, a database not ready
    | OSError(msg: string)          // FileNotFoundError, PermissionError, IOError
    | ValueError(msg: string)       // an invalid backup type, text that is not an integer
    | KeyError(key: string)         // a missing dictionary key
    | TypeError(msg: string)        // indexing or `in` on a value that does not support it
    | JSONDecodeError(msg: string)  // a file that does not hold JSON
    | CloudStorageError(msg: string) // a cloud listing that failed
  {
    /** `str(e)`. */
    function Message(): string {
      match this
      case KeyError(k) => "'" + k + "'"
      case BackupError(m) => m
      case RetentionError(m) => m
      case RestoreError(m) => m
      case OSError(m) => m
      case ValueError(m) => m
      case TypeError(m) => m
      case JSONDecodeError(m) => m
      case CloudStorageError(m) => m
    }

    /** `isinstance(e, BackupError)`. */
    predicate IsBackupError() {
      BackupError? || RetentionError?
    }
  }
}
