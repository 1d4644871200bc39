/**
 * The `get-session-detail` IPC handler: loads one session's metadata and
 * returns its summary in the renderer's shape, or `null` when there is no
 * summary. A loader error rejects the handler's promise.
 */
module DetailHandler {
  import opened Wrappers
  import opened Json
  import opened FileSystem
  import opened SessionMeta

  /** The `session` object of `GetSessionDetailResponse`; `notes` is always `null` here. */
  datatype SessionDetailView = SessionDetailView(
    id: Json, createdAtIso: Json, cwd: Json, originator: Json, cliVersion: Json, instructions: Json,
    status: Status, sessionPath: string, metadataPath: Option<string>, notes: Option<string>)

  /** `mapSummary(summary, sessionPath, meta)`. */
  function MapSummary(summary: Summary, sessionPath: string, meta: NormalizedMeta): SessionDetailView {
    SessionDetailView(
      summary.id, summary.createdAtIso, summary.cwd, summary.originator, summary.cliVersion,
      Coalesce(Some(summary.instructions), JNull), meta.status, sessionPath, meta.metaPath, None)
  }

  /**
   * The handler body for `{ path, metaFileName }`: the metadata file name
   * defaults only when absent (an empty name is kept); `Failure` carries the
   * message of an error the loader lets escape.
   */
  function HandleDetail(fs: Tree, rt: Runtime, path: string, metaFileName: Option<string>)
    : Result<Option<SessionDetailView>, string>
  {
    var sessionPath := path;
    match MetaOf(fs, rt, sessionPath, metaFileName.GetOr(DefaultMetaFile))
    case Threw(message) => Failure(message)
    case Returned(meta) =>
      if meta.status != Ok || meta.summary.None? then
        Success(if meta.summary.Some? then Some(MapSummary(meta.summary.value, sessionPath, meta)) else None)
      else
        Success(Some(MapSummary(meta.summary.value, sessionPath, meta)))
  }

  /**
   * The response is `null` exactly when the loader gives no summary; otherwise
   * it copies the summary, reports the loader's status and metadata path, the
   * request path, and no notes.
   */
  lemma DetailMirrorsSummary(fs: Tree, rt: Runtime, path: string, metaFileName: Option<string>)
    requires MetaOf(fs, rt, path, metaFileName.GetOr(DefaultMetaFile)).Returned?
    ensures var meta := MetaOf(fs, rt, path, metaFileName.GetOr(DefaultMetaFile)).meta;
      var r := HandleDetail(fs, rt, path, metaFileName);
      && r.Success?
      && (r.value.None? <==> meta.summary.None?)
      && (r.value.Some? ==>
            var v := r.value.value;
            var s := meta.summary.value;
            && v.id == s.id && v.createdAtIso == s.createdAtIso && v.cwd == s.cwd
            && v.originator == s.originator && v.cliVersion == s.cliVersion && v.instructions == s.instructions
            && v.status == meta.status && v.sessionPath == path && v.metadataPath == meta.metaPath
            && v.notes.None?)
  {
  }

  /** Since the loader only gives a summary with `ok`, every non-null response has status `ok`. */
  lemma DetailIsOk(fs: Tree, rt: Runtime, path: string, metaFileName: Option<string>)
    ensures var r := HandleDetail(fs, rt, path, metaFileName);
      r.Success? && r.value.Some? ==> r.value.value.status == Ok
  {
  }

  /** The handler fails only when the session path cannot be stat-ed. */
  lemma DetailFailsOnlyOnStatError(fs: Tree, rt: Runtime, path: string, metaFileName: Option<string>)
    ensures HandleDetail(fs, rt, path, metaFileName).Failure? <==> path in fs && fs[path].Unstatable?
  {
    MetaThrowsOnlyOnStatError(fs, rt, path, metaFileName.GetOr(DefaultMetaFile));
  }
}
