/**
 * What the guarded session operations throw. `ResumeSessionError` and
 * `DeleteSessionError` carry one of the codes below and a message; anything
 * else that escapes (a `statSync` error, a `TypeError`) is a foreign value,
 * whose `errorMessage` is present when it is an `Error`.
 */
module SessionErrors {
  import opened Wrappers

  datatype ErrorCode =
    | InvalidId      // INVALID_ID
    | MissingMeta    // MISSING_META
    | IdMismatch     // ID_MISMATCH
    | CliNotFound    // CLI_NOT_FOUND
    | SpawnFailed    // SPAWN_FAILED
    | RemoveFailed   // REMOVE_FAILED

  datatype Thrown = Coded(code: ErrorCode, message: string) | Foreign(errorMessage: Option<string>)
}
