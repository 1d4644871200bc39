/**
 * The `resume-session` IPC handler: validates the renderer's payload, calls
 * `resumeSession`, and turns the outcome into a response object. Nothing
 * escapes: every thrown value becomes an error response.
 */
module ResumeHandler {
  import opened Wrappers
  import opened Json
  import opened FileSystem
  import opened SessionErrors
  import opened IpcRequest
  import opened CliPaths
  import opened ResumeSession

  /** `ResumeSessionResponse`: `success: true` with the result's fields, or `success: false` with an error. */
  datatype ResumeResponse =
    | ResumeSucceeded(sessionId: string, metaPath: string, command: string, cliPath: Option<string>, simulated: bool)
    | ResumeRejected(code: ErrorCode, message: string)

  const InvalidPayloadMessage: string := "Invalid resume-session payload"

  /** `createSuccessResponse(result)`. */
  function CreateSuccessResponse(result: ResumeResult): ResumeResponse {
    ResumeSucceeded(result.sessionId, result.metaPath, result.command, result.cliPath, result.simulated)
  }

  /** `createErrorResponse(error)`: a coded error keeps code and message, anything else is `SPAWN_FAILED`. */
  function CreateErrorResponse(error: Thrown): ResumeResponse {
    match error
    case Coded(code, message) => ResumeRejected(code, message)
    case Foreign(message) => ResumeRejected(SpawnFailed, message.GetOr("Unknown error resuming session"))
  }

  /** `validateAndResume(payload)`. */
  function ValidateAndResume(fs: Tree, rt: Runtime, host: Host, spawnFails: string -> bool, payload: Option<Json>)
    : Result<ResumeResult, Thrown>
  {
    match ValidateRequest(payload, InvalidPayloadMessage)
    case Failure(e) => Failure(e)
    case Success(req) =>
      ResumeOutcome(fs, rt, host, spawnFails, req.sessionId, req.sessionPath, Some(req.metaFileName), None)
  }

  /** The handler registered on the `resume-session` channel. */
  function HandleResume(fs: Tree, rt: Runtime, host: Host, spawnFails: string -> bool, payload: Option<Json>)
    : ResumeResponse
  {
    match ValidateAndResume(fs, rt, host, spawnFails, payload)
    case Success(result) => CreateSuccessResponse(result)
    case Failure(e) => CreateErrorResponse(e)
  }

  /**
   * A success response copies the resume result field for field; an error
   * response keeps a coded error's code and message and reports anything
   * else as `SPAWN_FAILED`.
   */
  lemma ResponseMirrorsOutcome(fs: Tree, rt: Runtime, host: Host, spawnFails: string -> bool, payload: Option<Json>)
    ensures var o := ValidateAndResume(fs, rt, host, spawnFails, payload);
      var resp := HandleResume(fs, rt, host, spawnFails, payload);
      && (resp.ResumeSucceeded? <==> o.Success?)
      && (o.Success? ==>
            && resp.sessionId == o.value.sessionId && resp.metaPath == o.value.metaPath
            && resp.command == o.value.command && resp.cliPath == o.value.cliPath
            && resp.simulated == o.value.simulated)
      && (o.Failure? && o.error.Coded? ==> resp == ResumeRejected(o.error.code, o.error.message))
      && (o.Failure? && o.error.Foreign? ==> resp.ResumeRejected? && resp.code == SpawnFailed)
  {
  }

  /** The id the handler forwards is already a trimmed UUIDv7, so `resumeSession` never rejects it. */
  lemma ForwardedIdIsValid(fs: Tree, rt: Runtime, host: Host, spawnFails: string -> bool, payload: Option<Json>)
    ensures var resp := HandleResume(fs, rt, host, spawnFails, payload);
      resp.ResumeRejected? && resp.code == ErrorCode.InvalidId ==>
        ValidateRequest(payload, InvalidPayloadMessage).Failure?
  {
    var v := ValidateRequest(payload, InvalidPayloadMessage);
    if v.Success? {
      AcceptedRequest(payload, InvalidPayloadMessage);
      var req := v.value;
      ResumeChecksIdFirst(fs, fs, rt, host, spawnFails, req.sessionId, req.sessionPath, Some(req.metaFileName), None);
    }
  }

  /** The handler's error codes: never `REMOVE_FAILED`, never `CLI_NOT_FOUND`. */
  lemma ResumeHandlerCodes(fs: Tree, rt: Runtime, host: Host, spawnFails: string -> bool, payload: Option<Json>)
    ensures var resp := HandleResume(fs, rt, host, spawnFails, payload);
      resp.ResumeRejected? ==> resp.code in {ErrorCode.InvalidId, MissingMeta, IdMismatch, SpawnFailed}
  {
    var v := ValidateRequest(payload, InvalidPayloadMessage);
    if v.Success? {
      var req := v.value;
      ResumeCodes(fs, rt, host, spawnFails, req.sessionId, req.sessionPath, Some(req.metaFileName), None);
    }
  }
}
