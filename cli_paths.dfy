/**
 * Locating the Codex command-line executable: an explicit path, the
 * `CODEX_CLI_PATH` environment variable and the per-user install location are
 * tried in that order against the file system, and only when none of them
 * exists is the `PATH` searched with `where` (Windows) or `which`.
 */
module CliPaths {
  import opened Wrappers
  import opened Text
  import opened FileSystem

  datatype Platform = Win32 | OtherPlatform

  /** What `spawnSync(cmd, [arg], { encoding: 'utf-8' })` reports: exit status and standard output. */
  datatype SpawnResult = SpawnResult(status: Option<int>, stdout: Option<string>)

  /**
   * The process environment the resolver reads: `process.platform`,
   * `os.homedir()`, `process.env.CODEX_CLI_PATH`, and the synchronous child
   * process runner, called as `spawn(command, argument)`.
   */
  datatype Host = Host(
    platform: Platform,
    home: string,
    envCliPath: Option<string>,
    spawn: (string, string) -> SpawnResult)

  /** JavaScript truthiness of a `string | null`. */
  predicate Truthy(v: Option<string>) {
    v.Some? && v.value != ""
  }

  /** `normalizePath`: absent, empty and whitespace-only values are dropped. */
  function NormalizePath(p: Option<string>): Option<string> {
    if p.None? || p.value == "" || |Trim(p.value)| == 0 then None else Some(p.value)
  }

  /** A value survives normalisation unchanged exactly when it is present and not blank. */
  lemma NormalizePathKeepsNonBlank(p: Option<string>)
    ensures NormalizePath(p).Some? <==> p.Some? && !IsBlank(p.value)
    ensures NormalizePath(p).Some? ==> NormalizePath(p).value == p.value && p.value != ""
  {
    if p.Some? {
      TrimEmptyIffBlank(p.value);
    }
  }

  /** `resolve(homedir(), '.codex', 'bin', 'codex.exe')`. */
  function DefaultCodexPath(home: string): (r: string)
    ensures StartsWith(r, home) && EndsWith(r, "/.codex/bin/codex.exe")
  {
    home + "/.codex/bin/codex.exe"
  }

  /** The candidate list after `.filter(Boolean)`. */
  function Candidates(host: Host, explicit: Option<string>): (r: seq<string>)
  {
    var e := NormalizePath(explicit);
    var v := NormalizePath(host.envCliPath);
    (if e.Some? then [e.value] else []) + (if v.Some? then [v.value] else []) + [DefaultCodexPath(host.home)]
  }

  /** A present, non-blank path as a one-element list, anything else as none. */
  function NonBlank(p: Option<string>): seq<string> {
    if p.Some? && !IsBlank(p.value) then [p.value] else []
  }

  /**
   * The candidates are the explicit path unless it is absent or blank, then
   * the environment value on the same terms, then the default location.
   */
  lemma CandidatesInOrder(host: Host, explicit: Option<string>)
    ensures Candidates(host, explicit) == NonBlank(explicit) + NonBlank(host.envCliPath) + [DefaultCodexPath(host.home)]
  {
    NormalizePathKeepsNonBlank(explicit);
    NormalizePathKeepsNonBlank(host.envCliPath);
  }

  /** No candidate is the empty string, so `.filter(Boolean)` drops exactly the normalised-away entries. */
  lemma CandidatesNotEmpty(host: Host, explicit: Option<string>)
    ensures forall i | 0 <= i < |Candidates(host, explicit)| :: Candidates(host, explicit)[i] != ""
  {
    CandidatesInOrder(host, explicit);
    var r := Candidates(host, explicit);
    forall i | 0 <= i < |r| ensures r[i] != "" {
      if i == |r| - 1 {
        assert r[i] == DefaultCodexPath(host.home);
      } else {
        assert IsBlank("");
      }
    }
  }

  /** The first element of `lines` that is not empty (`lines.find(Boolean)`). */
  function FirstNonEmpty(lines: seq<string>): (r: Option<string>)
    ensures r.None? <==> forall i | 0 <= i < |lines| :: lines[i] == ""
    ensures r.Some? ==> exists i | 0 <= i < |lines| ::
              lines[i] == r.value && r.value != "" && forall j | 0 <= j < i :: lines[j] == ""
    decreases |lines|
  {
    if lines == [] then None
    else if lines[0] != "" then Some(lines[0])
    else
      var r := FirstNonEmpty(lines[1..]);
      assert forall i | 1 <= i < |lines| :: lines[i] == lines[1..][i - 1];
      r
  }

  /**
   * The shared tail of `tryWhere` and the `which` branch: `null` unless the
   * process exited with status 0, else its first non-empty output line, trimmed.
   */
  function Lookup(res: SpawnResult): Option<string> {
    if res.status != Some(0) || res.stdout.None? then None
    else
      match FirstNonEmpty(SplitLines(res.stdout.value))
      case None => None
      case Some(line) => Some(Trim(line))
  }

  /** A lookup succeeds exactly on exit status 0 with a non-empty line, and yields that line trimmed. */
  lemma LookupFirstLine(res: SpawnResult)
    ensures Lookup(res).Some? <==>
              res.status == Some(0) && res.stdout.Some? &&
              exists i | 0 <= i < |SplitLines(res.stdout.value)| :: SplitLines(res.stdout.value)[i] != ""
    ensures Lookup(res).Some? ==>
              var lines := SplitLines(res.stdout.value);
              exists i | 0 <= i < |lines| ::
                lines[i] != "" && Lookup(res).value == Trim(lines[i]) && forall j | 0 <= j < i :: lines[j] == ""
  {
  }

  /** `tryWhere(target)`. */
  function TryWhere(host: Host, target: string): Option<string> {
    Lookup(host.spawn("where", target))
  }

  /** `discoverFromPath()`. */
  function Discover(host: Host): Option<string> {
    if host.platform == Win32 then
      var viaWhereExe := TryWhere(host, "codex.exe");
      if Truthy(viaWhereExe) then viaWhereExe else TryWhere(host, "codex")
    else
      Lookup(host.spawn("which", "codex"))
  }

  /**
   * On Windows only `where` is asked, `codex.exe` before `codex`; elsewhere
   * only `which codex`.
   */
  lemma DiscoverOrder(host: Host)
    ensures host.platform == Win32 && Truthy(TryWhere(host, "codex.exe")) ==>
              Discover(host) == Lookup(host.spawn("where", "codex.exe"))
    ensures host.platform == Win32 && !Truthy(TryWhere(host, "codex.exe")) ==>
              Discover(host) == Lookup(host.spawn("where", "codex"))
    ensures host.platform != Win32 ==> Discover(host) == Lookup(host.spawn("which", "codex"))
  {
  }

  /** The first candidate that exists. */
  function FirstExisting(fs: Tree, candidates: seq<string>): (r: Option<string>)
    ensures r.None? <==> forall i | 0 <= i < |candidates| :: !Exists(fs, candidates[i])
    ensures r.Some? ==> exists i | 0 <= i < |candidates| ::
              candidates[i] == r.value && Exists(fs, r.value) &&
              forall j | 0 <= j < i :: !Exists(fs, candidates[j])
    decreases |candidates|
  {
    if candidates == [] then None
    else if Exists(fs, candidates[0]) then Some(candidates[0])
    else
      var r := FirstExisting(fs, candidates[1..]);
      assert forall i | 1 <= i < |candidates| :: candidates[i] == candidates[1..][i - 1];
      r
  }

  /** `resolveCodexExecutable({ explicitPath })`, as a function of its inputs. */
  function ResolveExecutable(fs: Tree, host: Host, explicit: Option<string>): Option<string> {
    var found := FirstExisting(fs, Candidates(host, explicit));
    if found.Some? then found
    else
      var discovered := Discover(host);
      if Truthy(discovered) then discovered else None
  }

  /** The first existing candidate is the answer, and `PATH` is not consulted. */
  lemma FirstExistingCandidateWins(fs: Tree, host: Host, explicit: Option<string>, i: int)
    requires var c := Candidates(host, explicit);
      0 <= i < |c| && Exists(fs, c[i]) && forall j | 0 <= j < i :: !Exists(fs, c[j])
    ensures ResolveExecutable(fs, host, explicit) == Some(Candidates(host, explicit)[i])
  {
    var c := Candidates(host, explicit);
    var r := FirstExisting(fs, c);
    var k :| 0 <= k < |c| && c[k] == r.value && Exists(fs, r.value) && forall j | 0 <= j < k :: !Exists(fs, c[j]);
    assert k == i;
  }

  /** Discovery decides the answer exactly when no candidate exists. */
  lemma DiscoveryOnlyWithoutCandidate(fs: Tree, host: Host, explicit: Option<string>)
    ensures var c := Candidates(host, explicit);
      (forall i | 0 <= i < |c| :: !Exists(fs, c[i])) ==>
        ResolveExecutable(fs, host, explicit) == (if Truthy(Discover(host)) then Discover(host) else None)
    ensures var c := Candidates(host, explicit);
      (exists i | 0 <= i < |c| :: Exists(fs, c[i])) ==>
        var r := ResolveExecutable(fs, host, explicit);
        r.Some? && r.value in c && Exists(fs, r.value)
  {
  }

  /** The result is `null` only when every candidate and the `PATH` search fail; it is never empty. */
  lemma NullOnlyWhenAllFail(fs: Tree, host: Host, explicit: Option<string>)
    ensures var c := Candidates(host, explicit);
      ResolveExecutable(fs, host, explicit).None? <==>
        (forall i | 0 <= i < |c| :: !Exists(fs, c[i])) && !Truthy(Discover(host))
    ensures ResolveExecutable(fs, host, explicit).Some? ==> Truthy(ResolveExecutable(fs, host, explicit))
  {
    var c := Candidates(host, explicit);
    CandidatesNotEmpty(host, explicit);
    var r := FirstExisting(fs, c);
    if r.Some? {
      var k :| 0 <= k < |c| && c[k] == r.value;
    }
  }

  /** `resolveCodexExecutable`: the loop over the candidates with early return. */
  method ResolveCodexExecutable(fs: Tree, host: Host, explicit: Option<string>) returns (r: Option<string>)
    ensures r == ResolveExecutable(fs, host, explicit)
  {
    var candidates := Candidates(host, explicit);
    var i := 0;
    while i < |candidates|
      invariant 0 <= i <= |candidates|
      invariant FirstExisting(fs, candidates[i..]) == FirstExisting(fs, candidates)
    {
      if Exists(fs, candidates[i]) {
        return Some(candidates[i]);
      }
      assert candidates[i..][1..] == candidates[i + 1..];
      i := i + 1;
    }
    var discovered := Discover(host);
    if Truthy(discovered) {
      return discovered;
    }
    return None;
  }
}
