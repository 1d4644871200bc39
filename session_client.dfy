/**
 * The renderer's client for the session bridge: it checks and trims the
 * arguments of resume and delete requests before they reach the bridge, and
 * fills the defaults of the records the bridge returns.
 */
module SessionClient {
  import opened Wrappers
  import opened Text
  import opened Json
  import opened SessionMeta

  /** `RawSessionListItem`: what the bridge sends; absent and `null` fields are `None`. */
  datatype RawSessionListItem = RawSessionListItem(
    id: string, createdAtIso: Option<string>, cwd: Option<string>, originator: Option<string>,
    cliVersion: Option<string>, instructions: Option<Json>, status: Option<Status>, sessionPath: string)

  /** `RawSessionDetail`. */
  datatype RawSessionDetail = RawSessionDetail(item: RawSessionListItem, metadataPath: Option<string>, notes: Option<string>)

  /** `SessionListItem`; `createdAt` is the time in milliseconds. */
  datatype SessionListItem = SessionListItem(
    id: string, createdAtIso: string, createdAt: int, cwd: string, originator: string,
    cliVersion: string, instructions: Json, status: Status, sessionPath: string)

  /** `SessionDetail`: the list fields plus the metadata path and the notes. */
  datatype SessionDetail = SessionDetail(item: SessionListItem, metadataPath: Option<string>, notes: Option<string>)

  /** The wall clock as `new Date()` reads it, in both renderings the client uses. */
  datatype Clock = Clock(nowIso: string, nowMs: int)

  /** `DEFAULT_STATUS`. */
  const DefaultStatus: Status := Ok

  /** `safeDate(iso)`: the parsed time, or the clock when the text is not a date. */
  function SafeDate(rt: Runtime, clock: Clock, iso: string): int {
    rt.time(JStr(iso)).GetOr(clock.nowMs)
  }

  /** `normalizeSessionListItem(raw)`. */
  function NormalizeSessionListItem(rt: Runtime, clock: Clock, raw: RawSessionListItem): SessionListItem {
    var createdAtIso := raw.createdAtIso.GetOr(clock.nowIso);
    SessionListItem(
      raw.id, createdAtIso, SafeDate(rt, clock, createdAtIso), raw.cwd.GetOr(raw.sessionPath),
      raw.originator.GetOr("unknown"), raw.cliVersion.GetOr("unknown"), Coalesce(raw.instructions, JNull),
      raw.status.GetOr(DefaultStatus), raw.sessionPath)
  }

  /**
   * Normalisation keeps what the bridge sent and fills the rest: the working
   * directory from the session path, originator and version with `unknown`,
   * instructions with `null`, the status with `ok`, the creation text with the clock,
   * and the creation time with the clock whenever the text is not a date.
   */
  lemma NormalizeListDefaults(rt: Runtime, clock: Clock, raw: RawSessionListItem)
    ensures var n := NormalizeSessionListItem(rt, clock, raw);
      && n.id == raw.id && n.sessionPath == raw.sessionPath
      && (raw.cwd.Some? ==> n.cwd == raw.cwd.value) && (raw.cwd.None? ==> n.cwd == raw.sessionPath)
      && (raw.originator.Some? ==> n.originator == raw.originator.value) && (raw.originator.None? ==> n.originator == "unknown")
      && (raw.cliVersion.Some? ==> n.cliVersion == raw.cliVersion.value) && (raw.cliVersion.None? ==> n.cliVersion == "unknown")
      && (IsNullish(raw.instructions) ==> n.instructions == JNull)
      && (!IsNullish(raw.instructions) ==> n.instructions == raw.instructions.value)
      && (raw.status.Some? ==> n.status == raw.status.value) && (raw.status.None? ==> n.status == Ok)
      && (raw.createdAtIso.Some? ==> n.createdAtIso == raw.createdAtIso.value)
      && (raw.createdAtIso.None? ==> n.createdAtIso == clock.nowIso)
      && (rt.time(JStr(n.createdAtIso)).Some? ==> n.createdAt == rt.time(JStr(n.createdAtIso)).value)
      && (rt.time(JStr(n.createdAtIso)).None? ==> n.createdAt == clock.nowMs)
  {
  }

  /** A normalised item with every field present, as the bridge could send it again. */
  function Denormalize(n: SessionListItem): RawSessionListItem {
    RawSessionListItem(n.id, Some(n.createdAtIso), Some(n.cwd), Some(n.originator), Some(n.cliVersion),
                       Some(n.instructions), Some(n.status), n.sessionPath)
  }

  /** A normalised item sent back through the normaliser comes out unchanged. */
  lemma NormalizeIdempotent(rt: Runtime, clock: Clock, raw: RawSessionListItem)
    ensures var n := NormalizeSessionListItem(rt, clock, raw);
      NormalizeSessionListItem(rt, clock, Denormalize(n)) == n
  {
  }

  /** `normalizeSessionDetail(raw)`: the list normalisation, the metadata path as sent, notes defaulting to `null`. */
  function NormalizeSessionDetail(rt: Runtime, clock: Clock, raw: RawSessionDetail): (r: SessionDetail)
    ensures r.item == NormalizeSessionListItem(rt, clock, raw.item)
    ensures r.metadataPath == raw.metadataPath && r.notes == raw.notes
  {
    SessionDetail(NormalizeSessionListItem(rt, clock, raw.item), raw.metadataPath, raw.notes)
  }

  /**
   * `fetchSessions()`: `bridge` is `None` when there is no `getSessions`
   * bridge, and otherwise the response's `sessions`, `None` when absent.
   */
  function FetchSessions(rt: Runtime, clock: Clock, bridge: Option<Option<seq<RawSessionListItem>>>)
    : (r: seq<SessionListItem>)
    ensures bridge.None? ==> r == []
    ensures bridge.Some? && bridge.value.None? ==> r == []
    ensures bridge.Some? && bridge.value.Some? ==>
              |r| == |bridge.value.value| &&
              forall i | 0 <= i < |r| :: r[i] == NormalizeSessionListItem(rt, clock, bridge.value.value[i])
  {
    if bridge.None? then []
    else
      var raws := bridge.value.GetOr([]);
      seq(|raws|, i requires 0 <= i < |raws| => NormalizeSessionListItem(rt, clock, raws[i]))
  }

  /** The response list keeps the bridge's order: ids and paths match position by position. */
  lemma FetchKeepsOrder(rt: Runtime, clock: Clock, raws: seq<RawSessionListItem>)
    ensures var r := FetchSessions(rt, clock, Some(Some(raws)));
      |r| == |raws| && forall i | 0 <= i < |r| :: r[i].id == raws[i].id && r[i].sessionPath == raws[i].sessionPath
  {
  }

  /**
   * `fetchSessionDetail(id, path)`: `bridge` is `None` without a
   * `getSessionDetail` bridge, else the response's `session`.
   */
  function FetchSessionDetail(rt: Runtime, clock: Clock, bridge: Option<Option<RawSessionDetail>>)
    : (r: Option<SessionDetail>)
    ensures r.Some? <==> bridge.Some? && bridge.value.Some?
    ensures r.Some? ==> r.value == NormalizeSessionDetail(rt, clock, bridge.value.value)
  {
    if bridge.None? || bridge.value.None? then None
    else Some(NormalizeSessionDetail(rt, clock, bridge.value.value))
  }

  /** What a request function returns: its own error response, or whatever the bridge answered. */
  datatype ClientResponse<R> = ClientError(code: string, message: string) | Bridged(response: R)

  /**
   * `requestResumeSession` / `requestDeleteSession`: `verb` is `resume` or
   * `delete`; `bridge` is the bridge method, `None` when it is unavailable.
   */
  function RequestSession<R>(id: Option<string>, path: Option<string>, verb: string,
                             bridge: Option<(string, string) -> R>): ClientResponse<R>
  {
    var sessionId := if id.Some? then Trim(id.value) else "";
    var sessionPath := if path.Some? then Trim(path.value) else "";
    if sessionId == "" then ClientError("INVALID_ID", "A session id is required to " + verb + ".")
    else if sessionPath == "" then ClientError("INVALID_PATH", "Session path is required to " + verb + ".")
    else if bridge.None? then ClientError("bridge_unavailable", "Codex session bridge is not available in this environment.")
    else Bridged(bridge.value(sessionId, sessionPath))
  }

  function RequestResumeSession<R>(id: Option<string>, path: Option<string>, bridge: Option<(string, string) -> R>)
    : ClientResponse<R>
  {
    RequestSession(id, path, "resume", bridge)
  }

  function RequestDeleteSession<R>(id: Option<string>, path: Option<string>, bridge: Option<(string, string) -> R>)
    : ClientResponse<R>
  {
    RequestSession(id, path, "delete", bridge)
  }

  /**
   * The checks run in order, id, then path, then bridge, and a request that
   * passes them reaches the bridge with the trimmed id and path.
   */
  lemma RequestCheckOrder<R>(id: Option<string>, path: Option<string>, verb: string, bridge: Option<(string, string) -> R>)
    ensures var r := RequestSession(id, path, verb, bridge);
      && (r.ClientError? && r.code == "INVALID_ID" <==> id.None? || IsBlank(id.value))
      && (r.ClientError? && r.code == "INVALID_PATH" <==>
            (id.Some? && !IsBlank(id.value)) && (path.None? || IsBlank(path.value)))
      && (r.ClientError? && r.code == "bridge_unavailable" <==>
            (id.Some? && !IsBlank(id.value)) && (path.Some? && !IsBlank(path.value)) && bridge.None?)
      && (r.Bridged? <==> (id.Some? && !IsBlank(id.value)) && (path.Some? && !IsBlank(path.value)) && bridge.Some?)
      && (r.Bridged? ==> r.response == bridge.value(Trim(id.value), Trim(path.value)))
  {
    if id.Some? { TrimEmptyIffBlank(id.value); }
    if path.Some? { TrimEmptyIffBlank(path.value); }
  }

  /** Resume and delete requests are checked alike; only the wording of the messages differs. */
  lemma ResumeAndDeleteAgree<R>(id: Option<string>, path: Option<string>, bridge: Option<(string, string) -> R>)
    ensures var a := RequestResumeSession(id, path, bridge);
      var b := RequestDeleteSession(id, path, bridge);
      && (a.ClientError? <==> b.ClientError?)
      && (a.ClientError? ==> a.code == b.code)
      && (a.Bridged? ==> a == b)
  {
  }
}
