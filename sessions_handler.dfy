/**
 * The `get-sessions` IPC handler: scans the session root and maps each scanned
 * session, in order, to the flat record the renderer lists, filling absent
 * fields from the raw record, the path, or a fixed default.
 */
module SessionsHandler {
  import opened Wrappers
  import opened Text
  import opened Json
  import opened FileSystem
  import opened SessionMeta
  import opened SessionScanner

  /** `SessionSummaryForRenderer`; the fields taken from the metadata keep their JSON value. */
  datatype SessionForRenderer = SessionForRenderer(
    id: Json, createdAtIso: Json, cwd: Json, originator: Json, cliVersion: Json, instructions: Json,
    status: Status, sessionPath: string, metadataPath: Option<string>)

  /**
   * The session path relative to the root: the root prefix and at most one
   * separator after it removed, or the path unchanged when it is not under the root.
   */
  function RelativePath(sessionPath: string, rootPath: string): (r: string)
    ensures |r| <= |sessionPath|
  {
    if StartsWith(sessionPath, rootPath) then
      var rest := sessionPath[|rootPath|..];
      if rest != [] && IsSep(rest[0]) then rest[1..] else rest
    else sessionPath
  }

  /** The root, one optional separator and the relative path give back the session path. */
  lemma RelativePathRebuilds(sessionPath: string, rootPath: string)
    ensures var rel := RelativePath(sessionPath, rootPath);
      && (!StartsWith(sessionPath, rootPath) ==> rel == sessionPath)
      && (StartsWith(sessionPath, rootPath) ==>
            sessionPath == rootPath + rel ||
            (|sessionPath| > |rootPath| && IsSep(sessionPath[|rootPath|]) && sessionPath == rootPath + [sessionPath[|rootPath|]] + rel))
  {
    if StartsWith(sessionPath, rootPath) {
      var rest := sessionPath[|rootPath|..];
      assert sessionPath == rootPath + rest;
      if rest != [] && IsSep(rest[0]) {
        assert rest == [rest[0]] + rest[1..];
      }
    }
  }

  /** `summary?.[field]`. */
  function SummaryField(summary: Option<Summary>, field: Summary -> Json): Option<Json> {
    if summary.Some? then Some(field(summary.value)) else None
  }

  /**
   * `mapSessionForRenderer(meta, sessionPath, rootPath, stats)`. The fallback
   * creation time, an ISO rendering of the path's times or of the clock, is
   * the opaque `fallbackIso`.
   */
  function MapSessionForRenderer(meta: NormalizedMeta, sessionPath: string, rootPath: string, fallbackIso: string)
    : SessionForRenderer
  {
    var summary := meta.summary;
    var relativePath := RelativePath(sessionPath, rootPath);
    var createdAtIso := Coalesce(SummaryField(summary, (s: Summary) => s.createdAtIso), JStr(fallbackIso));
    var rawPayload := RawPayload(meta);
    var fallbackId := Coalesce(SummaryField(summary, (s: Summary) => s.id), Coalesce(GetOpt(rawPayload, "id"), JStr(relativePath)));
    SessionForRenderer(
      fallbackId,
      createdAtIso,
      Coalesce(SummaryField(summary, (s: Summary) => s.cwd), Coalesce(GetOpt(rawPayload, "cwd"), JStr(sessionPath))),
      Coalesce(SummaryField(summary, (s: Summary) => s.originator), Coalesce(GetOpt(rawPayload, "originator"), JStr("unknown"))),
      Coalesce(SummaryField(summary, (s: Summary) => s.cliVersion), Coalesce(GetOpt(rawPayload, "cli_version"), JStr("unknown"))),
      Coalesce(SummaryField(summary, (s: Summary) => s.instructions), Coalesce(GetOpt(rawPayload, "instructions"), JNull)),
      meta.status,
      sessionPath,
      meta.metaPath)
  }

  /** The raw record's payload as the mapper reads it (`meta.raw?.payload`). */
  function RawPayload(meta: NormalizedMeta): Option<Json> {
    GetOpt(if meta.raw.JNull? then None else Some(meta.raw), "payload")
  }

  /**
   * Without a summary every field falls back: the id to the raw payload's id,
   * then the relative path; the working directory to the payload's, then the
   * session path; originator and version to the payload's, then `unknown`;
   * instructions to the payload's, then `null`; the creation time to the fallback.
   */
  lemma MapWithoutSummary(meta: NormalizedMeta, sessionPath: string, rootPath: string, fallbackIso: string)
    requires meta.summary.None?
    ensures var r := MapSessionForRenderer(meta, sessionPath, rootPath, fallbackIso);
      var p := RawPayload(meta);
      && r.id == (if !IsNullish(GetOpt(p, "id")) then GetOpt(p, "id").value else JStr(RelativePath(sessionPath, rootPath)))
      && r.cwd == (if !IsNullish(GetOpt(p, "cwd")) then GetOpt(p, "cwd").value else JStr(sessionPath))
      && r.originator == (if !IsNullish(GetOpt(p, "originator")) then GetOpt(p, "originator").value else JStr("unknown"))
      && r.cliVersion == (if !IsNullish(GetOpt(p, "cli_version")) then GetOpt(p, "cli_version").value else JStr("unknown"))
      && r.instructions == (if !IsNullish(GetOpt(p, "instructions")) then GetOpt(p, "instructions").value else JNull)
      && r.createdAtIso == JStr(fallbackIso)
      && r.status == meta.status && r.sessionPath == sessionPath && r.metadataPath == meta.metaPath
  {
  }

  /** A summary whose fields are all present is copied as is, the creation time verbatim. */
  lemma MapWithSummary(meta: NormalizedMeta, sessionPath: string, rootPath: string, fallbackIso: string)
    requires meta.summary.Some?
    requires var s := meta.summary.value;
      !s.id.JNull? && !s.createdAtIso.JNull? && !s.cwd.JNull? && !s.originator.JNull? && !s.cliVersion.JNull?
    ensures var r := MapSessionForRenderer(meta, sessionPath, rootPath, fallbackIso);
      var s := meta.summary.value;
      && r.id == s.id && r.createdAtIso == s.createdAtIso && r.cwd == s.cwd
      && r.originator == s.originator && r.cliVersion == s.cliVersion
      && (!s.instructions.JNull? ==> r.instructions == s.instructions)
      && r.status == meta.status && r.sessionPath == sessionPath && r.metadataPath == meta.metaPath
  {
  }

  /** The summary of an `ok` record has every field the renderer copies. */
  lemma OkSummaryFieldsPresent(rt: Runtime, pathname: string, parsed: Json, etag: string)
    requires NormalizeParsedMeta(rt, pathname, parsed, etag).status == Ok
    ensures var s := NormalizeParsedMeta(rt, pathname, parsed, etag).summary.value;
      !s.id.JNull? && !s.createdAtIso.JNull? && !s.cwd.JNull? && !s.originator.JNull? && !s.cliVersion.JNull?
  {
    NormalizeCheckOrder(rt, pathname, parsed, etag);
    NormalizeOkSummary(rt, pathname, parsed, etag);
    var payload := Get(parsed, "payload");
    assert forall f | f in RequiredFields :: !IsNullish(GetOpt(payload, f));
  }

  /** The response list: one entry per scanned session, in scan order. */
  function MapSessions(sessions: seq<ScannedSession>, rootPath: string, fallbackIso: ScannedSession -> string)
    : (r: seq<SessionForRenderer>)
    ensures |r| == |sessions|
    ensures forall i | 0 <= i < |r| :: r[i].sessionPath == sessions[i].sessionPath && r[i].status == sessions[i].meta.status
  {
    seq(|sessions|, i requires 0 <= i < |sessions| =>
      MapSessionForRenderer(sessions[i].meta, sessions[i].sessionPath, rootPath, fallbackIso(sessions[i])))
  }

  /**
   * The handler body: the rendered list names every session the walk finds,
   * once each, newest first, each mapped from the metadata `loadSessionMeta` gives it.
   */
  method GetSessions(fs: Tree, rt: Runtime, rootPath: string, fallbackIso: ScannedSession -> string)
    returns (r: seq<SessionForRenderer>)
    ensures multiset(seq(|r|, i requires 0 <= i < |r| => r[i].sessionPath)) == Found(fs, rootPath)
    ensures forall i | 0 <= i < |r| :: IsCandidate(fs, r[i].sessionPath) &&
              var s := SessionAt(fs, rt, r[i].sessionPath);
              r[i] == MapSessionForRenderer(s.meta, s.sessionPath, rootPath, fallbackIso(s))
    ensures forall i, j | 0 <= i < j < |r| ::
              SortKeyOf(SessionAt(fs, rt, r[i].sessionPath)) >= SortKeyOf(SessionAt(fs, rt, r[j].sessionPath))
  {
    var sessions := ScanSessions(fs, rt, rootPath);
    r := MapSessions(sessions, rootPath, fallbackIso);
    assert seq(|r|, i requires 0 <= i < |r| => r[i].sessionPath) == PathsOf(sessions);
  }
}
