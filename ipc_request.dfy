/**
 * The request check shared, line for line, by the `resume-session` and
 * `delete-session` handlers: the payload must be an object, the trimmed id a
 * UUIDv7 and the trimmed path non-empty; the metadata file name is trimmed and
 * defaults to `session_meta`.
 */
module IpcRequest {
  import opened Wrappers
  import opened Text
  import opened Json
  import opened SessionId
  import opened SessionMeta
  import opened SessionErrors

  /** The arguments the handler passes on. */
  datatype Request = Request(sessionId: string, sessionPath: string, metaFileName: string)

  /**
   * `v?.trim()` on a payload field: absent and `null` give `undefined`, a
   * string is trimmed, and any other value has no `trim` method, so the call
   * throws a `TypeError` naming the expression.
   */
  function OptionalTrim(v: Option<Json>, expression: string): (r: Result<Option<string>, Thrown>)
    ensures r.Failure? <==> !IsNullish(v) && !v.value.JStr?
    ensures r.Success? && r.value.Some? ==> v.Some? && v.value.JStr? && r.value.value == Trim(v.value.s)
    ensures r.Success? && r.value.None? ==> IsNullish(v)
  {
    if IsNullish(v) then Success(None)
    else if v.value.JStr? then Success(Some(Trim(v.value.s)))
    else Failure(Foreign(Some(expression + " is not a function")))
  }

  /** A field `OptionalTrim` accepts: absent, `null` or a string. */
  predicate Trimmable(v: Option<Json>) {
    IsNullish(v) || v.value.JStr?
  }

  /** The trimmed value of an accepted field, `""` when absent. */
  function TrimmedOrEmpty(v: Option<Json>): string {
    if v.Some? && v.value.JStr? then Trim(v.value.s) else ""
  }

  /** `validateAndResume` / `validateAndDelete` up to the call they make. */
  function ValidateRequest(payload: Option<Json>, invalidPayloadMessage: string): Result<Request, Thrown> {
    if !IsObject(payload) then Failure(Coded(ErrorCode.InvalidId, invalidPayloadMessage))
    else
      var body := payload.value;
      match OptionalTrim(Get(body, "sessionId"), "payload.sessionId?.trim")
      case Failure(e) => Failure(e)
      case Success(sessionId) =>
        match OptionalTrim(Get(body, "path"), "payload.path?.trim")
        case Failure(e) => Failure(e)
        case Success(sessionPath) =>
          if sessionId.None? || sessionId.value == "" || !MatchesSessionIdRegex(sessionId.value) then
            Failure(Coded(ErrorCode.InvalidId, "Session id \"" + sessionId.GetOr("") + "\" is not valid"))
          else if sessionPath.None? || sessionPath.value == "" then
            Failure(Coded(MissingMeta, "Session path is required"))
          else
            match OptionalTrim(Get(body, "metaFileName"), "payload.metaFileName?.trim")
            case Failure(e) => Failure(e)
            case Success(metaFile) =>
              Success(Request(sessionId.value, sessionPath.value,
                              if metaFile.None? || metaFile.value == "" then DefaultMetaFile else metaFile.value))
  }

  /** A `null` or non-object payload is `INVALID_ID` with the handler's own message. */
  lemma NonObjectPayloadRejected(payload: Option<Json>, invalidPayloadMessage: string)
    requires !IsObject(payload)
    ensures ValidateRequest(payload, invalidPayloadMessage) == Failure(Coded(ErrorCode.InvalidId, invalidPayloadMessage))
  {
  }

  /**
   * With string (or absent) fields, the id is checked before the path: an
   * empty or non-UUIDv7 trimmed id is `INVALID_ID` whatever the path, and
   * only a valid id with an empty trimmed path is `MISSING_META`.
   */
  lemma IdCheckedBeforePath(payload: Option<Json>, invalidPayloadMessage: string)
    requires IsObject(payload)
    requires Trimmable(Get(payload.value, "sessionId")) && Trimmable(Get(payload.value, "path"))
    ensures var r := ValidateRequest(payload, invalidPayloadMessage);
      var id := TrimmedOrEmpty(Get(payload.value, "sessionId"));
      var path := TrimmedOrEmpty(Get(payload.value, "path"));
      && (!IsUuidV7(id) ==> r == Failure(Coded(ErrorCode.InvalidId, "Session id \"" + id + "\" is not valid")))
      && (IsUuidV7(id) && path == "" ==> r == Failure(Coded(MissingMeta, "Session path is required")))
  {
    var id := TrimmedOrEmpty(Get(payload.value, "sessionId"));
    RegexIsUuidV7Layout(id);
  }

  /**
   * A request that passes carries the trimmed id, which is a UUIDv7, the
   * trimmed non-empty path, and the trimmed metadata file name or
   * `session_meta` when that is absent or blank.
   */
  lemma AcceptedRequest(payload: Option<Json>, invalidPayloadMessage: string)
    requires ValidateRequest(payload, invalidPayloadMessage).Success?
    ensures var req := ValidateRequest(payload, invalidPayloadMessage).value;
      var meta := Get(payload.value, "metaFileName");
      && IsObject(payload)
      && Get(payload.value, "sessionId").Some? && Get(payload.value, "sessionId").value.JStr?
      && req.sessionId == Trim(Get(payload.value, "sessionId").value.s) && IsUuidV7(req.sessionId)
      && Get(payload.value, "path").Some? && Get(payload.value, "path").value.JStr?
      && req.sessionPath == Trim(Get(payload.value, "path").value.s) && req.sessionPath != ""
      && Trimmable(meta)
      && req.metaFileName == (if TrimmedOrEmpty(meta) == "" then DefaultMetaFile else TrimmedOrEmpty(meta))
  {
    var id := TrimmedOrEmpty(Get(payload.value, "sessionId"));
    RegexIsUuidV7Layout(id);
  }

  /** A field of the wrong type escapes as a `TypeError`, before the id check when it is the id or the path. */
  lemma WrongFieldTypeThrows(payload: Option<Json>, invalidPayloadMessage: string)
    requires IsObject(payload)
    requires !Trimmable(Get(payload.value, "sessionId")) || !Trimmable(Get(payload.value, "path"))
    ensures var r := ValidateRequest(payload, invalidPayloadMessage);
      r.Failure? && r.error.Foreign?
  {
  }
}
