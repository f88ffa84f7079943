/**
  Failure-compatible wrappers and the error taxonomy shared by the git adapter,
  the execution ledger, the validator and the migrator.
 */
module Common {

  datatype Option<+T> = None | Some(value: T) {
    function GetOr(default: T): T {
      if Some? then value else default
    }
  }

  /** A Go `(T, error)` pair: either a value or the error that replaced it. */
  datatype Result<+T> = Ok(value: T) | Err(error: Error) {
    predicate IsFailure() { Err? }

    function PropagateFailure<U>(): Result<U>
      requires Err?
    {
      Err(error)
    }

    function Extract(): T
      requires Ok?
    {
      value
    }
  }

  /** A bare Go `error` return: nil (Pass) or an error. */
  datatype Outcome = Pass | Fail(error: Error) {
    predicate IsFailure() { Fail? }

    function PropagateFailure(): Outcome
      requires Fail?
    {
      this
    }
  }

  datatype Error =
    | GitFailed(stderr: string)                             // a git sub-command exited with an error
    | NotARepository                                        // the scripts directory is not inside a git work tree
    | SchemaFailed                                          // CREATE TABLE IF NOT EXISTS failed
    | Tampered(modified: set<string>, deleted: set<string>) // previously executed scripts were changed
    | FailedBatch(scriptName: string)                       // the unfinished batch holds a failed row
    | ScriptUnreadable(name: string)                        // neither candidate path could be read
    | BeginFailed                                           // the database refused to open a transaction
    | ScriptFailed(name: string)                            // the statement batch itself errored
    | RecordFailed(name: string)                            // the success row could not be inserted
    | CommitFailed                                          // the script transaction did not commit
    | MissedFileUnreadable                                  // the missed-scripts list could not be opened
    | MissedScriptFailed(name: string, cause: Error)        // a listed missed script failed
    | MigrationFailedAt(name: string)                       // a discovered script failed; the run stops
    | SlicePanic                                            // a Go slice expression out of range
}
