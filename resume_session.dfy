/**
 * Resuming a session: the id is checked, the session's metadata is loaded and
 * must be `ok` with the same id, the Codex executable is located, and a
 * command opening a new console window is spawned, either the real
 * `codex resume <id>` or an `echo` standing in for it when no executable is
 * found.
 */
module ResumeSession {
  import opened Wrappers
  import opened Text
  import opened Json
  import opened FileSystem
  import opened SessionId
  import opened SessionMeta
  import opened CliPaths
  import opened SessionErrors

  /** `ResumeSessionResult`. */
  datatype ResumeResult = ResumeResult(
    sessionId: string, metaPath: string, cliPath: Option<string>, command: string, simulated: bool)

  const CommandPrefix: string := "start cmd /k "

  /** The executable path, in double quotes when it contains a space. */
  function QuoteIfSpaced(cliPath: string): (r: string)
    ensures ' ' !in cliPath ==> r == cliPath
    ensures ' ' in cliPath ==> |r| == |cliPath| + 2 && r[0] == '"' && r[|r| - 1] == '"' && r[1..|r| - 1] == cliPath
  {
    if ' ' in cliPath then "\"" + cliPath + "\"" else cliPath
  }

  /** `buildResumeCommand(cliPath, sessionId)`. */
  function BuildResumeCommand(cliPath: string, sessionId: string): string {
    CommandPrefix + QuoteIfSpaced(cliPath) + " resume " + sessionId
  }

  /** `buildSimulatedCommand(sessionId)`. */
  function BuildSimulatedCommand(sessionId: string): string {
    CommandPrefix + "echo " + "[Simulated] Codex resume " + sessionId
  }

  /** Both command forms open a console and end with ` resume <id>`, so both contain the id. */
  lemma CommandsEndWithId(cliPath: string, sessionId: string)
    ensures StartsWith(BuildResumeCommand(cliPath, sessionId), CommandPrefix)
    ensures StartsWith(BuildSimulatedCommand(sessionId), CommandPrefix)
    ensures EndsWith(BuildResumeCommand(cliPath, sessionId), " resume " + sessionId)
    ensures EndsWith(BuildSimulatedCommand(sessionId), " resume " + sessionId)
    ensures Contains(BuildResumeCommand(cliPath, sessionId), sessionId)
    ensures Contains(BuildSimulatedCommand(sessionId), sessionId)
  {
    var cmd := BuildResumeCommand(cliPath, sessionId);
    var sim := BuildSimulatedCommand(sessionId);
    assert OccursAt(cmd, sessionId, |cmd| - |sessionId|);
    assert OccursAt(sim, sessionId, |sim| - |sessionId|);
  }

  /** The text between the prefix and ` resume <id>` of a real command is the quoted path. */
  lemma ResumeCommandMiddle(cliPath: string, sessionId: string)
    ensures var c := BuildResumeCommand(cliPath, sessionId);
      |c| == |CommandPrefix| + |QuoteIfSpaced(cliPath)| + 8 + |sessionId| &&
      c[|CommandPrefix|..|CommandPrefix| + |QuoteIfSpaced(cliPath)|] == QuoteIfSpaced(cliPath) &&
      c[|c| - |sessionId|..] == sessionId
  {
    var c := BuildResumeCommand(cliPath, sessionId);
    var q := QuoteIfSpaced(cliPath);
    assert c == CommandPrefix + q + (" resume " + sessionId);
  }

  /** For a fixed executable, the real command determines the session id. */
  lemma ResumeCommandInjective(cliPath: string, a: string, b: string)
    ensures BuildResumeCommand(cliPath, a) == BuildResumeCommand(cliPath, b) <==> a == b
  {
    if BuildResumeCommand(cliPath, a) == BuildResumeCommand(cliPath, b) {
      ResumeCommandMiddle(cliPath, a);
      ResumeCommandMiddle(cliPath, b);
    }
  }

  /** A real command is never mistaken for the simulated one, whatever the executable path. */
  lemma CommandsDistinguishMode(cliPath: string, sessionId: string)
    ensures BuildResumeCommand(cliPath, sessionId) != BuildSimulatedCommand(sessionId)
  {
    var cmd := BuildResumeCommand(cliPath, sessionId);
    var sim := BuildSimulatedCommand(sessionId);
    var q := QuoteIfSpaced(cliPath);
    var middle := "echo [Simulated] Codex";
    assert sim == CommandPrefix + middle + (" resume " + sessionId);
    assert sim[|CommandPrefix|..|CommandPrefix| + |middle|] == middle;
    ResumeCommandMiddle(cliPath, sessionId);
    if ' ' in cliPath {
      assert q[0] != middle[0];
    } else {
      assert middle[4] == ' ';
    }
    assert q != middle;
  }

  /**
   * The console the commands are spawned into: every command that was
   * launched, in order; `spawnFails` says which commands `spawn` throws on.
   */
  class Launcher {
    var launched: seq<string>
    const spawnFails: string -> bool

    constructor(spawnFails: string -> bool)
      ensures this.spawnFails == spawnFails && launched == []
    {
      this.spawnFails := spawnFails;
      launched := [];
    }

    /** `spawn('cmd.exe', ['/c', command], { detached: true })`. */
    method Spawn(command: string) returns (ok: bool)
      modifies this
      ensures ok == !spawnFails(command)
      ensures launched == old(launched) + (if ok then [command] else [])
    {
      ok := !spawnFails(command);
      if ok {
        launched := launched + [command];
      }
    }
  }

  /** The message of a `MISSING_META` error: the loader's own message when it has one. */
  function MetaMessage(meta: NormalizedMeta, fallback: string): string {
    if meta.error.Some? then meta.error.value.message else fallback
  }

  /** `resumeSession(options)` as a function of the file system, the host and the spawn outcome. */
  function ResumeOutcome(fs: Tree, rt: Runtime, host: Host, spawnFails: string -> bool, sessionId: string,
                         sessionPath: string, metaFileName: Option<string>, cliPathOverride: Option<string>)
    : Result<ResumeResult, Thrown>
  {
    var metaFile := metaFileName.GetOr(DefaultMetaFile);
    if !MatchesSessionIdRegex(sessionId) then
      Failure(Coded(ErrorCode.InvalidId, "Session id \"" + sessionId + "\" is not a valid UUIDv7"))
    else ResumeAfterLoad(MetaOf(fs, rt, sessionPath, metaFile), fs, host, spawnFails, sessionId, sessionPath,
                         metaFile, cliPathOverride)
  }

  /** The part of `resumeSession` after `loadSessionMeta` returned or threw. */
  function ResumeAfterLoad(loaded: Loaded, fs: Tree, host: Host, spawnFails: string -> bool, sessionId: string,
                           sessionPath: string, metaFile: string, cliPathOverride: Option<string>)
    : (r: Result<ResumeResult, Thrown>)
    ensures r.Failure? && r.error.Coded? ==> r.error.code in {MissingMeta, IdMismatch, SpawnFailed}
    ensures r.Failure? && r.error.Foreign? <==> loaded.Threw?
  {
    match loaded
    case Threw(reason) => Failure(Foreign(Some(reason)))
    case Returned(meta) =>
      var metaPath := meta.metaPath.GetOr(Join(sessionPath, metaFile));
      if meta.status == Missing then
        Failure(Coded(MissingMeta, MetaMessage(meta, "Missing session metadata at \"" + metaPath + "\"")))
      else if meta.status == Corrupted then
        Failure(Coded(MissingMeta, MetaMessage(meta, "Corrupted session metadata at \"" + metaPath + "\"")))
      else if meta.summary.None? then
        Failure(Coded(MissingMeta, "Unable to read session metadata at \"" + metaPath + "\""))
      else if meta.summary.value.id != JStr(sessionId) then
        Failure(Coded(IdMismatch, "Session id mismatch: UI(" + sessionId + ") vs meta("
                                  + ToText(meta.summary.value.id) + ")"))
      else
        var cliPath := ResolveExecutable(fs, host, cliPathOverride);
        var simulated := !Truthy(cliPath);
        var command := if simulated then BuildSimulatedCommand(sessionId)
                       else BuildResumeCommand(cliPath.value, sessionId);
        if spawnFails(command) then
          Failure(Coded(SpawnFailed, "Failed to launch Codex CLI session command"))
        else
          Success(ResumeResult(sessionId, metaPath, cliPath, command, simulated))
  }

  /** The id is checked first: an id of the wrong shape is rejected whatever the file system holds. */
  lemma ResumeChecksIdFirst(fs: Tree, fs': Tree, rt: Runtime, host: Host, spawnFails: string -> bool,
                            sessionId: string, sessionPath: string, metaFileName: Option<string>,
                            cliPathOverride: Option<string>)
    ensures var r := ResumeOutcome(fs, rt, host, spawnFails, sessionId, sessionPath, metaFileName, cliPathOverride);
      (r.Failure? && r.error.Coded? && r.error.code == ErrorCode.InvalidId) <==> !IsUuidV7(sessionId)
    ensures !IsUuidV7(sessionId) ==>
      ResumeOutcome(fs, rt, host, spawnFails, sessionId, sessionPath, metaFileName, cliPathOverride) ==
      ResumeOutcome(fs', rt, host, spawnFails, sessionId, sessionPath, metaFileName, cliPathOverride)
  {
    RegexIsUuidV7Layout(sessionId);
  }

  /** Metadata that is missing, corrupted or without a summary stops the resume with `MISSING_META`. */
  lemma ResumeNeedsOkMeta(fs: Tree, rt: Runtime, host: Host, spawnFails: string -> bool, sessionId: string,
                          sessionPath: string, metaFileName: Option<string>, cliPathOverride: Option<string>)
    requires IsUuidV7(sessionId)
    requires var l := MetaOf(fs, rt, sessionPath, metaFileName.GetOr(DefaultMetaFile));
      l.Returned? && (l.meta.status != Ok || l.meta.summary.None?)
    ensures var r := ResumeOutcome(fs, rt, host, spawnFails, sessionId, sessionPath, metaFileName, cliPathOverride);
      r.Failure? && r.error.Coded? && r.error.code == MissingMeta
  {
    RegexIsUuidV7Layout(sessionId);
  }

  /** A summary whose id differs from the requested one, even only in letter case, gives `ID_MISMATCH`. */
  lemma ResumeNeedsExactId(fs: Tree, rt: Runtime, host: Host, spawnFails: string -> bool, sessionId: string,
                           sessionPath: string, metaFileName: Option<string>, cliPathOverride: Option<string>)
    requires IsUuidV7(sessionId)
    requires var l := MetaOf(fs, rt, sessionPath, metaFileName.GetOr(DefaultMetaFile));
      l.Returned? && l.meta.status == Ok && l.meta.summary.Some? && l.meta.summary.value.id != JStr(sessionId)
    ensures var r := ResumeOutcome(fs, rt, host, spawnFails, sessionId, sessionPath, metaFileName, cliPathOverride);
      r.Failure? && r.error == Coded(IdMismatch, r.error.message)
  {
    RegexIsUuidV7Layout(sessionId);
  }

  /**
   * A successful resume passed every check, in the cmd mode exactly when an
   * executable was found, and returns the command that was spawned; its
   * metadata path is the loader's, else the metadata file under the session.
   */
  lemma ResumeSuccess(fs: Tree, rt: Runtime, host: Host, spawnFails: string -> bool, sessionId: string,
                      sessionPath: string, metaFileName: Option<string>, cliPathOverride: Option<string>)
    requires ResumeOutcome(fs, rt, host, spawnFails, sessionId, sessionPath, metaFileName, cliPathOverride).Success?
    ensures var res := ResumeOutcome(fs, rt, host, spawnFails, sessionId, sessionPath, metaFileName, cliPathOverride).value;
      var metaFile := metaFileName.GetOr(DefaultMetaFile);
      var l := MetaOf(fs, rt, sessionPath, metaFile);
      && IsUuidV7(sessionId)
      && l.Returned? && l.meta.status == Ok && l.meta.summary.Some? && l.meta.summary.value.id == JStr(sessionId)
      && res.sessionId == sessionId
      && res.metaPath == l.meta.metaPath.GetOr(Join(sessionPath, metaFile))
      && res.cliPath == ResolveExecutable(fs, host, cliPathOverride)
      && (res.simulated <==> res.cliPath.None?)
      && (res.simulated ==> res.command == BuildSimulatedCommand(sessionId))
      && (!res.simulated ==> res.command == BuildResumeCommand(res.cliPath.value, sessionId))
      && Contains(res.command, sessionId)
      && !spawnFails(res.command)
  {
    RegexIsUuidV7Layout(sessionId);
    NullOnlyWhenAllFail(fs, host, cliPathOverride);
    var metaFile := metaFileName.GetOr(DefaultMetaFile);
    var l := MetaOf(fs, rt, sessionPath, metaFile);
    var r := ResumeOutcome(fs, rt, host, spawnFails, sessionId, sessionPath, metaFileName, cliPathOverride);
    assert r == ResumeAfterLoad(l, fs, host, spawnFails, sessionId, sessionPath, metaFile, cliPathOverride);
    var res := r.value;
    CommandsEndWithId(if res.cliPath.Some? then res.cliPath.value else "", sessionId);
  }

  /** `resumeSession` never throws `REMOVE_FAILED`, nor the declared but unused `CLI_NOT_FOUND`. */
  lemma ResumeCodes(fs: Tree, rt: Runtime, host: Host, spawnFails: string -> bool, sessionId: string,
                    sessionPath: string, metaFileName: Option<string>, cliPathOverride: Option<string>)
    ensures var r := ResumeOutcome(fs, rt, host, spawnFails, sessionId, sessionPath, metaFileName, cliPathOverride);
      r.Failure? && r.error.Coded? ==> r.error.code in {ErrorCode.InvalidId, MissingMeta, IdMismatch, SpawnFailed}
  {
  }

  /** Only a session path that cannot be stat-ed lets a foreign error escape. */
  lemma ResumeForeignOnlyOnStatError(fs: Tree, rt: Runtime, host: Host, spawnFails: string -> bool, sessionId: string,
                                     sessionPath: string, metaFileName: Option<string>, cliPathOverride: Option<string>)
    ensures var r := ResumeOutcome(fs, rt, host, spawnFails, sessionId, sessionPath, metaFileName, cliPathOverride);
      r.Failure? && r.error.Foreign? <==>
        IsUuidV7(sessionId) && sessionPath in fs && fs[sessionPath].Unstatable?
  {
    RegexIsUuidV7Layout(sessionId);
    MetaThrowsOnlyOnStatError(fs, rt, sessionPath, metaFileName.GetOr(DefaultMetaFile));
  }

  /** `resumeSession`: the guard sequence, then the spawn, which is the only effect. */
  method Resume(launcher: Launcher, fs: Tree, rt: Runtime, host: Host, sessionId: string, sessionPath: string,
                metaFileName: Option<string>, cliPathOverride: Option<string>) returns (r: Result<ResumeResult, Thrown>)
    modifies launcher
    ensures r == ResumeOutcome(fs, rt, host, launcher.spawnFails, sessionId, sessionPath, metaFileName, cliPathOverride)
    ensures launcher.launched == old(launcher.launched) + (if r.Success? then [r.value.command] else [])
  {
    var metaFile := metaFileName.GetOr(DefaultMetaFile);
    if !MatchesSessionIdRegex(sessionId) {
      return Failure(Coded(ErrorCode.InvalidId, "Session id \"" + sessionId + "\" is not a valid UUIDv7"));
    }
    var loaded := LoadSessionMeta(fs, rt, sessionPath, metaFile);
    assert ResumeOutcome(fs, rt, host, launcher.spawnFails, sessionId, sessionPath, metaFileName, cliPathOverride) ==
           ResumeAfterLoad(loaded, fs, host, launcher.spawnFails, sessionId, sessionPath, metaFile, cliPathOverride);
    if loaded.Threw? {
      return Failure(Foreign(Some(loaded.message)));
    }
    var meta := loaded.meta;
    var metaPath := meta.metaPath.GetOr(Join(sessionPath, metaFile));
    if meta.status == Missing {
      return Failure(Coded(MissingMeta, MetaMessage(meta, "Missing session metadata at \"" + metaPath + "\"")));
    }
    if meta.status == Corrupted {
      return Failure(Coded(MissingMeta, MetaMessage(meta, "Corrupted session metadata at \"" + metaPath + "\"")));
    }
    if meta.summary.None? {
      return Failure(Coded(MissingMeta, "Unable to read session metadata at \"" + metaPath + "\""));
    }
    if meta.summary.value.id != JStr(sessionId) {
      return Failure(Coded(IdMismatch, "Session id mismatch: UI(" + sessionId + ") vs meta("
                                       + ToText(meta.summary.value.id) + ")"));
    }
    var cliPath := ResolveCodexExecutable(fs, host, cliPathOverride);
    var simulated := !Truthy(cliPath);
    var command := if simulated then BuildSimulatedCommand(sessionId) else BuildResumeCommand(cliPath.value, sessionId);
    var ok := launcher.Spawn(command);
    if !ok {
      return Failure(Coded(SpawnFailed, "Failed to launch Codex CLI session command"));
    }
    return Success(ResumeResult(sessionId, metaPath, cliPath, command, simulated));
  }
}
