/**
 * The `delete-session` IPC handler: validates the renderer's payload, calls
 * `deleteSession`, and turns the outcome into a response object.
 */
module DeleteHandler {
  import opened Wrappers
  import opened Json
  import opened FileSystem
  import opened SessionErrors
  import opened IpcRequest
  import opened DeleteSession

  /** `DeleteSessionResponse`: a success carries exactly the id and the removed path. */
  datatype DeleteResponse =
    | DeleteSucceeded(sessionId: string, removedPath: string)
    | DeleteRejected(code: ErrorCode, message: string)

  const InvalidPayloadMessage: string := "Invalid delete-session payload"

  /** `createSuccessResponse(result)`. */
  function CreateSuccessResponse(result: DeleteResult): DeleteResponse {
    DeleteSucceeded(result.sessionId, result.removedPath)
  }

  /** `createErrorResponse(error)`: a coded error keeps code and message, anything else is `REMOVE_FAILED`. */
  function CreateErrorResponse(error: Thrown): DeleteResponse {
    match error
    case Coded(code, message) => DeleteRejected(code, message)
    case Foreign(message) => DeleteRejected(RemoveFailed, message.GetOr("Unknown error deleting session"))
  }

  /** `validateAndDelete(payload)`, with the removal outcome given by `removeFails`. */
  function ValidateAndDelete(fs: Tree, rt: Runtime, removeFails: string -> bool, payload: Option<Json>)
    : Result<DeleteResult, Thrown>
  {
    match ValidateRequest(payload, InvalidPayloadMessage)
    case Failure(e) => Failure(e)
    case Success(req) => DeleteOutcome(fs, rt, removeFails, req.sessionId, req.sessionPath, Some(req.metaFileName))
  }

  /** The handler registered on the `delete-session` channel. */
  function HandleDelete(fs: Tree, rt: Runtime, removeFails: string -> bool, payload: Option<Json>): DeleteResponse {
    match ValidateAndDelete(fs, rt, removeFails, payload)
    case Success(result) => CreateSuccessResponse(result)
    case Failure(e) => CreateErrorResponse(e)
  }

  /**
   * A success response carries the trimmed id and the removed path; an error
   * response keeps a coded error and reports anything else as `REMOVE_FAILED`.
   */
  lemma DeleteResponseMirrorsOutcome(fs: Tree, rt: Runtime, removeFails: string -> bool, payload: Option<Json>)
    ensures var o := ValidateAndDelete(fs, rt, removeFails, payload);
      var resp := HandleDelete(fs, rt, removeFails, payload);
      && (resp.DeleteSucceeded? <==> o.Success?)
      && (o.Success? ==> resp == DeleteSucceeded(o.value.sessionId, o.value.removedPath))
      && (o.Failure? && o.error.Coded? ==> resp == DeleteRejected(o.error.code, o.error.message))
      && (o.Failure? && o.error.Foreign? ==> resp.DeleteRejected? && resp.code == RemoveFailed)
  {
  }

  /**
   * A successful deletion through the handler removed the trimmed request
   * path and reports the trimmed id from the payload.
   */
  lemma HandlerDeletesRequestedPath(fs: Tree, rt: Runtime, removeFails: string -> bool, payload: Option<Json>)
    requires HandleDelete(fs, rt, removeFails, payload).DeleteSucceeded?
    ensures var resp := HandleDelete(fs, rt, removeFails, payload);
      var req := ValidateRequest(payload, InvalidPayloadMessage);
      && req.Success?
      && resp.sessionId == req.value.sessionId
      && resp.removedPath == req.value.sessionPath
      && Exists(fs, resp.removedPath)
      && !removeFails(resp.removedPath)
  {
    DeleteResponseMirrorsOutcome(fs, rt, removeFails, payload);
    var outcome := ValidateAndDelete(fs, rt, removeFails, payload);
    var v := ValidateRequest(payload, InvalidPayloadMessage);
    assert v.Success?;
    var req := v.value;
    assert outcome == DeleteOutcome(fs, rt, removeFails, req.sessionId, req.sessionPath, Some(req.metaFileName));
    AcceptedRequest(payload, InvalidPayloadMessage);
    SessionId.UuidV7IsTrimmed(req.sessionId);
    DeleteSuccess(fs, rt, removeFails, req.sessionId, req.sessionPath, Some(req.metaFileName));
  }

  /** The handler's error codes: never `SPAWN_FAILED` or `CLI_NOT_FOUND`. */
  lemma DeleteHandlerCodes(fs: Tree, rt: Runtime, removeFails: string -> bool, payload: Option<Json>)
    ensures var resp := HandleDelete(fs, rt, removeFails, payload);
      resp.DeleteRejected? ==> resp.code in {ErrorCode.InvalidId, MissingMeta, IdMismatch, RemoveFailed}
  {
    var v := ValidateRequest(payload, InvalidPayloadMessage);
    if v.Success? {
      var req := v.value;
      DeleteCodes(fs, rt, removeFails, req.sessionId, req.sessionPath, Some(req.metaFileName));
    }
  }
}
