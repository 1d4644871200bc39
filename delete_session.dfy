/**
 * Deleting a session: the trimmed id must be a UUIDv7 and the path must
 * exist; the metadata must be `ok` and carry the same id, unless the path
 * itself mentions the id; only then is the path removed, recursively.
 */
module DeleteSession {
  import opened Wrappers
  import opened Text
  import opened Json
  import opened FileSystem
  import opened SessionId
  import opened SessionMeta
  import opened SessionErrors

  /** `DeleteSessionResult`. */
  datatype DeleteResult = DeleteResult(sessionId: string, removedPath: string)

  /** `pathLikelyMatchesSession(pathname, sessionId)`: the id occurs in the path or its last component, ignoring case. */
  predicate PathLikelyMatchesSession(pathname: string, sessionId: string) {
    var lowerId := Lower(sessionId);
    var lowerPath := Lower(pathname);
    Contains(lowerPath, lowerId) || Contains(Basename(lowerPath), lowerId)
  }

  /** The test on the last component adds nothing: the match is a case-insensitive substring test. */
  lemma PathMatchIsSubstring(pathname: string, sessionId: string)
    ensures PathLikelyMatchesSession(pathname, sessionId) <==> Contains(Lower(pathname), Lower(sessionId))
  {
    var lowerPath := Lower(pathname);
    var lowerId := Lower(sessionId);
    if Contains(Basename(lowerPath), lowerId) {
      var i, j :| 0 <= i <= j <= |lowerPath| && Basename(lowerPath) == lowerPath[i..j];
      ContainsInSlice(lowerPath, i, j, lowerId);
    }
  }

  /**
   * The tree a deletion works on. `removeFails` says for which paths
   * `rmSync(p, { recursive: true, force: true })` throws.
   */
  class Disk {
    var tree: Tree
    const removeFails: string -> bool

    constructor(tree: Tree, removeFails: string -> bool)
      ensures this.tree == tree && this.removeFails == removeFails
    {
      this.tree := tree;
      this.removeFails := removeFails;
    }

    /** `rmSync(p, { recursive: true, force: true, maxRetries: 2 })`. */
    method Remove(p: string) returns (ok: bool)
      modifies this
      ensures ok == !removeFails(p)
      ensures tree == (if ok then RemoveTree(old(tree), p) else old(tree))
    {
      ok := !removeFails(p);
      if ok {
        tree := RemoveTree(tree, p);
      }
    }
  }

  /**
   * The metadata check after the path is known to exist: `None` lets the
   * deletion proceed. A path that mentions the id overrides both failures.
   */
  function MetaGate(meta: NormalizedMeta, normalizedId: string, resolvedPath: string): (g: Option<Thrown>)
    ensures g.Some? ==> g.value.Coded? && g.value.code in {MissingMeta, IdMismatch}
  {
    var matchesPath := PathLikelyMatchesSession(resolvedPath, normalizedId);
    if meta.status != Ok || meta.summary.None? then
      if matchesPath then None
      else Some(Coded(MissingMeta, if meta.error.Some? then meta.error.value.message
                                   else "Unable to read session metadata for \"" + resolvedPath + "\""))
    else if meta.summary.value.id != JStr(normalizedId) then
      if matchesPath then None
      else Some(Coded(IdMismatch, "Session id mismatch: UI(" + normalizedId + ") vs meta("
                                  + ToText(meta.summary.value.id) + ")"))
    else None
  }

  /** `deleteSession(options)` as a function of the tree and of the removal outcome. */
  function DeleteOutcome(fs: Tree, rt: Runtime, removeFails: string -> bool, sessionId: string,
                         sessionPath: string, metaFileName: Option<string>): Result<DeleteResult, Thrown>
  {
    var normalizedId := Trim(sessionId);
    if !MatchesSessionIdRegex(normalizedId) then
      Failure(Coded(ErrorCode.InvalidId, "Session id \"" + sessionId + "\" is not a valid UUIDv7"))
    else if !Exists(fs, sessionPath) then
      Failure(Coded(MissingMeta, "Session path \"" + sessionPath + "\" does not exist"))
    else AfterLoad(MetaOf(fs, rt, sessionPath, metaFileName.GetOr(DefaultMetaFile)), removeFails,
                   normalizedId, sessionPath)
  }

  /** The part of `deleteSession` after `loadSessionMeta` returned or threw. */
  function AfterLoad(loaded: Loaded, removeFails: string -> bool, normalizedId: string, sessionPath: string)
    : (r: Result<DeleteResult, Thrown>)
    ensures r.Failure? && r.error.Coded? ==> r.error.code in {MissingMeta, IdMismatch, RemoveFailed}
    ensures r.Failure? && r.error.Foreign? ==> loaded.Threw?
  {
    match loaded
    case Threw(reason) => Failure(Foreign(Some(reason)))
    case Returned(meta) =>
      var gate := MetaGate(meta, normalizedId, sessionPath);
      if gate.Some? then Failure(gate.value)
      else if removeFails(sessionPath) then
        Failure(Coded(RemoveFailed, "Failed to delete session at \"" + sessionPath + "\""))
      else Success(DeleteResult(normalizedId, sessionPath))
  }

  /** The trimmed id is checked first: the result is `INVALID_ID` exactly when it is not a UUIDv7. */
  lemma DeleteChecksIdFirst(fs: Tree, rt: Runtime, removeFails: string -> bool, sessionId: string,
                            sessionPath: string, metaFileName: Option<string>)
    ensures var r := DeleteOutcome(fs, rt, removeFails, sessionId, sessionPath, metaFileName);
      (r.Failure? && r.error.Coded? && r.error.code == ErrorCode.InvalidId) <==> !IsUuidV7(Trim(sessionId))
  {
    RegexIsUuidV7Layout(Trim(sessionId));
  }

  /** A path that cannot be stat-ed gives `MISSING_META`. */
  lemma DeleteNeedsExistingPath(fs: Tree, rt: Runtime, removeFails: string -> bool, sessionId: string,
                                sessionPath: string, metaFileName: Option<string>)
    requires IsUuidV7(Trim(sessionId)) && !Exists(fs, sessionPath)
    ensures DeleteOutcome(fs, rt, removeFails, sessionId, sessionPath, metaFileName) ==
              Failure(Coded(MissingMeta, "Session path \"" + sessionPath + "\" does not exist"))
  {
    RegexIsUuidV7Layout(Trim(sessionId));
  }

  /** Once the path exists the loader cannot throw: its own `statSync` succeeds. */
  lemma DeleteLoaderReturns(fs: Tree, rt: Runtime, sessionPath: string, metaFileName: string)
    requires Exists(fs, sessionPath)
    ensures MetaOf(fs, rt, sessionPath, metaFileName).Returned?
  {
    MetaThrowsOnlyOnStatError(fs, rt, sessionPath, metaFileName);
  }

  /**
   * Without a path match, metadata that is not `ok` gives `MISSING_META` and
   * an `ok` summary with another id gives `ID_MISMATCH`; with a path match
   * neither stops the deletion.
   */
  lemma MetaGateDecision(meta: NormalizedMeta, normalizedId: string, resolvedPath: string)
    ensures var g := MetaGate(meta, normalizedId, resolvedPath);
      && (PathLikelyMatchesSession(resolvedPath, normalizedId) ==> g.None?)
      && (!PathLikelyMatchesSession(resolvedPath, normalizedId) && (meta.status != Ok || meta.summary.None?) ==>
            g.Some? && g.value.Coded? && g.value.code == MissingMeta)
      && (!PathLikelyMatchesSession(resolvedPath, normalizedId) && meta.status == Ok && meta.summary.Some? &&
          meta.summary.value.id != JStr(normalizedId) ==>
            g.Some? && g.value.Coded? && g.value.code == IdMismatch)
      && (g.None? <==> PathLikelyMatchesSession(resolvedPath, normalizedId) ||
                       (meta.status == Ok && meta.summary.Some? && meta.summary.value.id == JStr(normalizedId)))
  {
  }

  /**
   * A deletion succeeds only when every check passed and the removal did not
   * fail; it reports the trimmed id and the path that was removed.
   */
  lemma DeleteSuccess(fs: Tree, rt: Runtime, removeFails: string -> bool, sessionId: string,
                      sessionPath: string, metaFileName: Option<string>)
    requires DeleteOutcome(fs, rt, removeFails, sessionId, sessionPath, metaFileName).Success?
    ensures var res := DeleteOutcome(fs, rt, removeFails, sessionId, sessionPath, metaFileName).value;
      var l := MetaOf(fs, rt, sessionPath, metaFileName.GetOr(DefaultMetaFile));
      && IsUuidV7(Trim(sessionId))
      && Exists(fs, sessionPath)
      && l.Returned?
      && (PathLikelyMatchesSession(sessionPath, Trim(sessionId)) ||
          (l.meta.status == Ok && l.meta.summary.Some? && l.meta.summary.value.id == JStr(Trim(sessionId))))
      && !removeFails(sessionPath)
      && res == DeleteResult(Trim(sessionId), sessionPath)
  {
    RegexIsUuidV7Layout(Trim(sessionId));
    var l := MetaOf(fs, rt, sessionPath, metaFileName.GetOr(DefaultMetaFile));
    MetaGateDecision(l.meta, Trim(sessionId), sessionPath);
  }

  /** A path that mentions the id is removed whatever its metadata says, unless the removal fails. */
  lemma PathMatchBypassesMeta(fs: Tree, rt: Runtime, removeFails: string -> bool, sessionId: string,
                              sessionPath: string, metaFileName: Option<string>)
    requires IsUuidV7(Trim(sessionId)) && Exists(fs, sessionPath)
    requires Contains(Lower(sessionPath), Lower(Trim(sessionId)))
    ensures var r := DeleteOutcome(fs, rt, removeFails, sessionId, sessionPath, metaFileName);
      r == (if removeFails(sessionPath)
            then Failure(Coded(RemoveFailed, "Failed to delete session at \"" + sessionPath + "\""))
            else Success(DeleteResult(Trim(sessionId), sessionPath)))
  {
    RegexIsUuidV7Layout(Trim(sessionId));
    PathMatchIsSubstring(sessionPath, Trim(sessionId));
    DeleteLoaderReturns(fs, rt, sessionPath, metaFileName.GetOr(DefaultMetaFile));
  }

  /** `deleteSession` throws only its own four codes, never a foreign error. */
  lemma DeleteCodes(fs: Tree, rt: Runtime, removeFails: string -> bool, sessionId: string,
                    sessionPath: string, metaFileName: Option<string>)
    ensures var r := DeleteOutcome(fs, rt, removeFails, sessionId, sessionPath, metaFileName);
      r.Failure? ==> r.error.Coded? && r.error.code in {ErrorCode.InvalidId, MissingMeta, IdMismatch, RemoveFailed}
  {
    var r := DeleteOutcome(fs, rt, removeFails, sessionId, sessionPath, metaFileName);
    if MatchesSessionIdRegex(Trim(sessionId)) && Exists(fs, sessionPath) {
      var l := MetaOf(fs, rt, sessionPath, metaFileName.GetOr(DefaultMetaFile));
      DeleteLoaderReturns(fs, rt, sessionPath, metaFileName.GetOr(DefaultMetaFile));
      assert r == AfterLoad(l, removeFails, Trim(sessionId), sessionPath);
      assert !(r.Failure? && r.error.Foreign?);
    }
  }

  /**
   * `deleteSession`: the guard sequence, then the removal. Every rejection
   * leaves the tree as it was; a success removes the path and everything below it.
   */
  method Delete(disk: Disk, rt: Runtime, sessionId: string, sessionPath: string, metaFileName: Option<string>)
    returns (r: Result<DeleteResult, Thrown>)
    modifies disk
    ensures r == DeleteOutcome(old(disk.tree), rt, disk.removeFails, sessionId, sessionPath, metaFileName)
    ensures disk.tree == (if r.Success? then RemoveTree(old(disk.tree), sessionPath) else old(disk.tree))
    ensures r.Success? ==> !Exists(disk.tree, r.value.removedPath)
  {
    var normalizedId := Trim(sessionId);
    if !MatchesSessionIdRegex(normalizedId) {
      return Failure(Coded(ErrorCode.InvalidId, "Session id \"" + sessionId + "\" is not a valid UUIDv7"));
    }
    if !Exists(disk.tree, sessionPath) {
      return Failure(Coded(MissingMeta, "Session path \"" + sessionPath + "\" does not exist"));
    }
    var loaded := LoadSessionMeta(disk.tree, rt, sessionPath, metaFileName.GetOr(DefaultMetaFile));
    if loaded.Threw? {
      return Failure(Foreign(Some(loaded.message)));
    }
    var gate := MetaGate(loaded.meta, normalizedId, sessionPath);
    if gate.Some? {
      return Failure(gate.value);
    }
    var ok := disk.Remove(sessionPath);
    if !ok {
      return Failure(Coded(RemoveFailed, "Failed to delete session at \"" + sessionPath + "\""));
    }
    return Success(DeleteResult(normalizedId, sessionPath));
  }
}
