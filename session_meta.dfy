/**
 * The metadata loader: classifies a session path (missing, a directory with a
 * `session_meta` file, a `.jsonl` log, anything else), reads the metadata
 * record and validates it in a fixed order, producing a normalised result
 * with a status, a summary or an error, an etag and the path that was read.
 */
module SessionMeta {
  import opened Wrappers
  import opened Text
  import opened Json
  import opened FileSystem
  import opened SessionId

  datatype Status = Ok | Missing | Corrupted

  datatype MetaErrorCode =
    | MissingFile | InvalidFile | InvalidJson | MissingFields | InvalidId | InvalidTimestamp

  /** `cause` is not modelled; `missingFields` is set only for `MISSING_FIELDS`. */
  datatype MetaError = MetaError(code: MetaErrorCode, message: string, missingFields: Option<seq<string>>)

  /** `SessionSummary`; the fields copied from the payload keep their parsed JSON value. */
  datatype Summary = Summary(
    id: Json, createdAt: int, createdAtIso: Json, cwd: Json,
    originator: Json, cliVersion: Json, instructions: Json, source: Json)

  /** `NormalizedSessionMeta`; `raw` is `JNull` where the source stores `null`. */
  datatype NormalizedMeta = NormalizedMeta(
    status: Status, etag: Option<string>, summary: Option<Summary>, raw: Json,
    error: Option<MetaError>, metaPath: Option<string>)

  /** The loader either returns a result or lets a `statSync` error escape. */
  datatype Loaded = Returned(meta: NormalizedMeta) | Threw(message: string)

  const DefaultMetaFile: string := "session_meta"
  const MetaType: Json := JStr("session_meta")
  const RequiredFields: seq<string> := ["id", "timestamp", "cwd", "originator", "cli_version", "source"]

  /** The result invariant: a summary exactly when `ok`, an error exactly when not. */
  predicate WellFormed(m: NormalizedMeta) {
    && (m.status == Ok <==> m.summary.Some?)
    && (m.status == Ok <==> m.error.None?)
    && (m.error.Some? ==> (m.error.value.missingFields.Some? <==> m.error.value.code == MissingFields))
  }

  /** `corruptedResult(code, message, cause, etag, raw, missingFields, metaPath)`. */
  function CorruptedResult(code: MetaErrorCode, message: string, etag: Option<string>, raw: Json,
                     missing: Option<seq<string>>, metaPath: Option<string>): (r: NormalizedMeta)
    requires missing.Some? <==> code == MissingFields
    ensures WellFormed(r) && r.status == Corrupted && r.error.Some? && r.error.value.code == code
  {
    NormalizedMeta(Corrupted, etag, None, raw, Some(MetaError(code, message, missing)), metaPath)
  }

  /** The `missing` results built inline by `loadSessionMeta`. */
  function MissingResult(message: string, metaPath: Option<string>): (r: NormalizedMeta)
    ensures WellFormed(r) && r.status == Missing && r.etag.None? && r.error.value.code == MissingFile
  {
    NormalizedMeta(Missing, None, None, JNull, Some(MetaError(MissingFile, message, None)), metaPath)
  }

  /** `createEtag(path, stats)`: `path:mtimeMs:size`, or `path:0:0` without stats. */
  function CreateEtag(path: string, stat: Option<Stat>): (r: string)
    ensures StartsWith(r, path + ":")
  {
    match stat
    case Some(s) => path + ":" + IntToString(s.mtimeMs) + ":" + NatToString(s.size)
    case None => path + ":0:0"
  }

  /** `${a}:${b}` splits back into `a` and `b` when `a` has no colon. */
  lemma ColonSplit(a: string, b: string, c: string, d: string)
    requires ':' !in a && ':' !in c && a + ":" + b == c + ":" + d
    ensures a == c && b == d
  {
    var x := a + ":" + b;
    assert forall k | 0 <= k < |a| :: x[k] == a[k];
    assert forall k | 0 <= k < |c| :: x[k] == c[k];
    assert x[|a|] == ':' && x[|c|] == ':';
    assert a == x[..|a|] == c;
    assert b == x[|a| + 1..] == d;
  }

  /** Two etags of the same path agree exactly when the modification time and size agree. */
  lemma EtagInjective(path: string, s1: Stat, s2: Stat)
    ensures CreateEtag(path, Some(s1)) == CreateEtag(path, Some(s2)) <==>
              s1.mtimeMs == s2.mtimeMs && s1.size == s2.size
  {
    var e1 := CreateEtag(path, Some(s1));
    var e2 := CreateEtag(path, Some(s2));
    if e1 == e2 {
      var n := |path| + 1;
      var t1 := IntToString(s1.mtimeMs) + ":" + NatToString(s1.size);
      var t2 := IntToString(s2.mtimeMs) + ":" + NatToString(s2.size);
      assert e1[n..] == t1 && e2[n..] == t2;
      ColonSplit(IntToString(s1.mtimeMs), NatToString(s1.size), IntToString(s2.mtimeMs), NatToString(s2.size));
      IntToStringInjective(s1.mtimeMs, s2.mtimeMs);
      NatToStringInjective(s1.size, s2.size);
    }
  }

  /** `REQUIRED_FIELDS.filter(field => payload?.[field] is undefined or null)`, over any field list. */
  function MissingFrom(fields: seq<string>, payload: Option<Json>): (r: seq<string>)
    ensures forall f :: f in r <==> f in fields && IsNullish(GetOpt(payload, f))
    ensures IsSubsequence(r, fields)
    decreases |fields|
  {
    if fields == [] then []
    else
      var rest := MissingFrom(fields[1..], payload);
      if IsNullish(GetOpt(payload, fields[0])) then [fields[0]] + rest else rest
  }

  /** The required fields the payload lacks, in the order of `RequiredFields`. */
  function MissingFieldsOf(payload: Option<Json>): (r: seq<string>)
    ensures forall f :: f in r <==> f in RequiredFields && IsNullish(GetOpt(payload, f))
    ensures IsSubsequence(r, RequiredFields)
    ensures "instructions" !in r
  {
    MissingFrom(RequiredFields, payload)
  }

  /** The value of a payload field, `JNull` standing in for a missing one. */
  function Field(payload: Option<Json>, f: string): Json {
    GetOpt(payload, f).GetOr(JNull)
  }

  /** The record is tagged `session_meta`: `parsed.type === 'session_meta'`. */
  predicate IsMetaRecord(parsed: Json) {
    Get(parsed, "type") == Some(MetaType)
  }

  /**
   * `normalizeParsedMeta`, with a record that parsed to `null` read as one
   * whose `type` is `undefined` (see README, Findings): tag, then required
   * fields, then id shape, then timestamp.
   */
  function NormalizeParsedMeta(rt: Runtime, pathname: string, parsed: Json, etag: string): (r: NormalizedMeta)
    ensures WellFormed(r)
    ensures r.etag == Some(etag) && r.metaPath == Some(pathname) && r.raw == parsed
    ensures r.status != Missing
  {
    var ty := Get(parsed, "type");
    if ty != Some(MetaType) then
      CorruptedResult(InvalidFile, "Unexpected meta type \"" + Stringify(ty) + "\"", Some(etag), parsed, None, Some(pathname))
    else
      var payload := Get(parsed, "payload");
      var missing := MissingFieldsOf(payload);
      if |missing| > 0 then
        CorruptedResult(MissingFields, "session_meta is missing required fields: " + JoinWith(missing, ", "),
                  Some(etag), parsed, Some(missing), Some(pathname))
      else
        var id := Field(payload, "id");
        var timestamp := Field(payload, "timestamp");
        if !MatchesSessionIdRegex(ToText(id)) then
          CorruptedResult(InvalidId, "Invalid session id \"" + ToText(id) + "\"", Some(etag), parsed, None, Some(pathname))
        else match rt.time(timestamp)
          case None =>
            CorruptedResult(InvalidTimestamp, "Invalid timestamp \"" + ToText(timestamp) + "\"",
                      Some(etag), parsed, None, Some(pathname))
          case Some(createdAt) =>
            var summary := Summary(
              id, createdAt, timestamp, Field(payload, "cwd"), Field(payload, "originator"),
              Field(payload, "cli_version"), Coalesce(GetOpt(payload, "instructions"), JNull),
              Field(payload, "source"));
            NormalizedMeta(Ok, Some(etag), Some(summary), parsed, None, Some(pathname))
  }

  /** The payload's id has the UUIDv7 layout. */
  predicate HasValidId(parsed: Json) {
    IsUuidV7(ToText(Field(Get(parsed, "payload"), "id")))
  }

  /** The payload's timestamp is a date `new Date` accepts. */
  predicate HasValidTime(rt: Runtime, parsed: Json) {
    rt.time(Field(Get(parsed, "payload"), "timestamp")).Some?
  }

  /** The checks run in a fixed order and the first one that fails decides the error code. */
  lemma NormalizeCheckOrder(rt: Runtime, pathname: string, parsed: Json, etag: string)
    ensures var r := NormalizeParsedMeta(rt, pathname, parsed, etag);
      var missing := MissingFieldsOf(Get(parsed, "payload"));
      && (r.status == Ok <==> IsMetaRecord(parsed) && missing == [] && HasValidId(parsed) && HasValidTime(rt, parsed))
      && (r.status != Ok ==> r.status == Corrupted)
      && (r.status != Ok && r.error.value.code == InvalidFile <==> !IsMetaRecord(parsed))
      && (r.status != Ok && r.error.value.code == MissingFields <==> IsMetaRecord(parsed) && missing != [])
      && (r.status != Ok && r.error.value.code == InvalidId <==>
            IsMetaRecord(parsed) && missing == [] && !HasValidId(parsed))
      && (r.status != Ok && r.error.value.code == InvalidTimestamp <==>
            IsMetaRecord(parsed) && missing == [] && HasValidId(parsed) && !HasValidTime(rt, parsed))
      && (r.status != Ok && r.error.value.code == MissingFields ==> r.error.value.missingFields == Some(missing))
  {
    RegexIsUuidV7Layout(ToText(Field(Get(parsed, "payload"), "id")));
  }

  /** An `ok` result carries the payload's fields, the parsed date and the record itself. */
  lemma NormalizeOkSummary(rt: Runtime, pathname: string, parsed: Json, etag: string)
    requires NormalizeParsedMeta(rt, pathname, parsed, etag).status == Ok
    ensures var r := NormalizeParsedMeta(rt, pathname, parsed, etag);
      var payload := Get(parsed, "payload");
      var s := r.summary.value;
      && r.raw == parsed && r.metaPath == Some(pathname) && r.etag == Some(etag)
      && GetOpt(payload, "id") == Some(s.id) && GetOpt(payload, "cwd") == Some(s.cwd)
      && GetOpt(payload, "originator") == Some(s.originator) && GetOpt(payload, "source") == Some(s.source)
      && GetOpt(payload, "cli_version") == Some(s.cliVersion)
      && GetOpt(payload, "timestamp") == Some(s.createdAtIso)
      && rt.time(s.createdAtIso) == Some(s.createdAt)
      && IsUuidV7(ToText(s.id))
      && (IsNullish(GetOpt(payload, "instructions")) ==> s.instructions == JNull)
      && (!IsNullish(GetOpt(payload, "instructions")) ==> GetOpt(payload, "instructions") == Some(s.instructions))
  {
    var payload := Get(parsed, "payload");
    assert MissingFieldsOf(payload) == [];
    RequiredPresent(payload);
    RegexIsUuidV7Layout(ToText(Field(payload, "id")));
  }

  /** With no required field missing, each of them is present and not `null`. */
  lemma RequiredPresent(payload: Option<Json>)
    requires MissingFieldsOf(payload) == []
    ensures forall f | f in RequiredFields :: GetOpt(payload, f).Some? && GetOpt(payload, f) == Some(Field(payload, f))
  {
    forall f | f in RequiredFields
      ensures GetOpt(payload, f).Some? && GetOpt(payload, f) == Some(Field(payload, f))
    {
      assert f !in MissingFieldsOf(payload);
    }
  }

  /**
   * `normalizeParsedMeta` exactly as written: reading `parsed.type` on a
   * record that parsed to `null` raises a `TypeError`.
   */
  function NormalizeParsedMetaAsWritten(rt: Runtime, pathname: string, parsed: Json, etag: string): (r: Loaded)
    ensures r.Returned? ==> r.meta == NormalizeParsedMeta(rt, pathname, parsed, etag)
  {
    if parsed.JNull? then Threw("TypeError: Cannot read properties of null (reading 'type')")
    else Returned(NormalizeParsedMeta(rt, pathname, parsed, etag))
  }

  /** As written, a meta file holding the JSON text `null` makes the loader throw instead of reporting it. */
  lemma NullRecordThrowsAsWritten(rt: Runtime, pathname: string, etag: string)
    ensures NormalizeParsedMetaAsWritten(rt, pathname, JNull, etag).Threw?
  {
  }

  /** Corrected, such a file is reported as corrupted with `INVALID_FILE`, type `undefined`. */
  lemma NullRecordIsInvalidFile(rt: Runtime, pathname: string, etag: string)
    ensures var r := NormalizeParsedMeta(rt, pathname, JNull, etag);
      && r.status == Corrupted && r.error.value.code == InvalidFile
      && r.error.value.message == "Unexpected meta type \"undefined\""
  {
  }

  /** The content `readFileSync` returns for a file, `None` when the read fails. */
  function ReadFile(fs: Tree, p: string): Option<string> {
    if IsFile(fs, p) then fs[p].content else None
  }

  /** `loadAndNormalizeMeta`: a read or parse failure is `INVALID_JSON`. */
  function LoadAndNormalize(fs: Tree, rt: Runtime, pathname: string, etag: string): (r: NormalizedMeta)
    ensures WellFormed(r) && r.status != Missing
    ensures r.etag == Some(etag) && r.metaPath == Some(pathname)
    ensures (ReadFile(fs, pathname).None? || rt.parse(ReadFile(fs, pathname).value).None?) <==>
              r.status == Corrupted && r.error.value.code == InvalidJson
  {
    match ReadFile(fs, pathname)
    case None =>
      CorruptedResult(InvalidJson, "Unable to parse session_meta JSON at " + pathname, Some(etag), JNull, None, Some(pathname))
    case Some(text) =>
      match rt.parse(text)
      case None =>
        CorruptedResult(InvalidJson, "Unable to parse session_meta JSON at " + pathname, Some(etag), JNull, None, Some(pathname))
      case Some(parsed) => NormalizeParsedMeta(rt, pathname, parsed, etag)
  }

  /** A line of a log that holds the metadata record: non-blank, parseable and tagged. */
  predicate IsRecordLine(rt: Runtime, line: string) {
    !IsBlank(line) && rt.parse(line).Some? && IsMetaRecord(rt.parse(line).value)
  }

  /** The record on the first metadata line of a log, if any. */
  function FirstMetaRecord(rt: Runtime, lines: seq<string>): (r: Option<Json>)
    ensures r.Some? ==> IsMetaRecord(r.value)
    decreases |lines|
  {
    if lines == [] then None
    else if IsRecordLine(rt, lines[0]) then rt.parse(lines[0])
    else FirstMetaRecord(rt, lines[1..])
  }

  /** No record is found exactly when no line holds one; otherwise it is the first such line's. */
  lemma {:induction false} FirstMetaRecordIsFirst(rt: Runtime, lines: seq<string>)
    ensures var r := FirstMetaRecord(rt, lines);
      && (r.None? <==> forall i | 0 <= i < |lines| :: !IsRecordLine(rt, lines[i]))
      && (r.Some? ==> exists i | 0 <= i < |lines| ::
            && IsRecordLine(rt, lines[i]) && rt.parse(lines[i]) == r
            && forall j | 0 <= j < i :: !IsRecordLine(rt, lines[j]))
    decreases |lines|
  {
    if lines != [] && !IsRecordLine(rt, lines[0]) {
      var tail := lines[1..];
      FirstMetaRecordIsFirst(rt, tail);
      assert forall i | 1 <= i < |lines| :: lines[i] == tail[i - 1];
      var r := FirstMetaRecord(rt, tail);
      if r.Some? {
        var i :| 0 <= i < |tail| && IsRecordLine(rt, tail[i]) && rt.parse(tail[i]) == r
                 && forall j | 0 <= j < i :: !IsRecordLine(rt, tail[j]);
        assert IsRecordLine(rt, lines[i + 1]) && rt.parse(lines[i + 1]) == r;
      }
    } else if lines != [] {
      assert IsRecordLine(rt, lines[0]);
    }
  }

  /** Lines before the first metadata line do not influence which record is found. */
  lemma {:induction false} FirstMetaRecordSkipsPrefix(rt: Runtime, prefix: seq<string>, rest: seq<string>)
    requires forall i | 0 <= i < |prefix| :: !IsRecordLine(rt, prefix[i])
    ensures FirstMetaRecord(rt, prefix + rest) == FirstMetaRecord(rt, rest)
    decreases |prefix|
  {
    if prefix != [] {
      assert !IsRecordLine(rt, prefix[0]) && (prefix + rest)[0] == prefix[0];
      assert forall i | 0 <= i < |prefix[1..]| :: prefix[1..][i] == prefix[i + 1];
      assert (prefix + rest)[1..] == prefix[1..] + rest;
      FirstMetaRecordSkipsPrefix(rt, prefix[1..], rest);
      assert FirstMetaRecord(rt, prefix + rest) == FirstMetaRecord(rt, (prefix + rest)[1..]);
    } else {
      assert prefix + rest == rest;
    }
  }

  /** A metadata line decides the result even when later lines hold other records. */
  lemma FirstMetaRecordWins(rt: Runtime, line: string, rest: seq<string>)
    requires IsRecordLine(rt, line)
    ensures FirstMetaRecord(rt, [line] + rest) == rt.parse(line)
  {
  }

  /** `loadMetaFromJsonl`, as a function of the tree. */
  function FromJsonl(fs: Tree, rt: Runtime, pathname: string, etag: string): (r: NormalizedMeta)
    ensures WellFormed(r) && r.status != Missing
    ensures r.etag == Some(etag) && r.metaPath == Some(pathname)
  {
    match ReadFile(fs, pathname)
    case None =>
      CorruptedResult(InvalidFile, "Unable to read session log at " + pathname, Some(etag), JNull, None, Some(pathname))
    case Some(text) =>
      match FirstMetaRecord(rt, SplitLines(text))
      case Some(record) => NormalizeParsedMeta(rt, pathname, record, etag)
      case None =>
        CorruptedResult(InvalidFile, "Unable to locate session_meta entry inside " + pathname,
                  Some(etag), JNull, None, Some(pathname))
  }

  /** The first metadata line of a log alone decides which record is used. */
  lemma FirstMetaRecordAt(rt: Runtime, lines: seq<string>, i: int)
    requires 0 <= i < |lines| && IsRecordLine(rt, lines[i])
    requires forall j | 0 <= j < i :: !IsRecordLine(rt, lines[j])
    ensures FirstMetaRecord(rt, lines) == rt.parse(lines[i])
  {
    assert lines == lines[..i] + ([lines[i]] + lines[i + 1..]);
    assert forall j | 0 <= j < i :: lines[..i][j] == lines[j];
    FirstMetaRecordSkipsPrefix(rt, lines[..i], [lines[i]] + lines[i + 1..]);
  }

  /** `loadMetaFromFile`: a `.jsonl` log or a plain metadata file, etag from the file's stats. */
  function FromFile(fs: Tree, rt: Runtime, pathname: string, stat: Stat): NormalizedMeta {
    var etag := CreateEtag(pathname, Some(stat));
    if EndsWith(pathname, ".jsonl") then FromJsonl(fs, rt, pathname, etag)
    else LoadAndNormalize(fs, rt, pathname, etag)
  }

  /** `loadSessionMeta({ sessionPath, metaFileName })` as a function of the tree. */
  function MetaOf(fs: Tree, rt: Runtime, sessionPath: string, metaFileName: string): (r: Loaded)
    ensures r.Returned? ==> WellFormed(r.meta)
  {
    if sessionPath !in fs then
      Returned(MissingResult("Missing session resource at " + sessionPath, None))
    else match fs[sessionPath]
      case Unstatable(reason) => Threw(reason)
      case File(stat, _) => Returned(FromFile(fs, rt, sessionPath, stat))
      case Special(stat) =>
        Returned(CorruptedResult(InvalidFile, "Unsupported session resource at " + sessionPath,
                           Some(CreateEtag(sessionPath, Some(stat))), JNull, None, Some(sessionPath)))
      case Dir(_, _) =>
        var metaPath := Join(sessionPath, metaFileName);
        if !Exists(fs, metaPath) then
          Returned(MissingResult("Missing session_meta at " + metaPath, Some(metaPath)))
        else if fs[metaPath].File? then
          Returned(LoadAndNormalize(fs, rt, metaPath, CreateEtag(metaPath, Some(fs[metaPath].stat))))
        else
          Returned(CorruptedResult(InvalidFile, "session_meta is not a file",
                             Some(CreateEtag(metaPath, Some(fs[metaPath].stat))), JNull, None, Some(metaPath)))
  }

  /** Only a session path whose `statSync` fails with something other than `ENOENT` throws. */
  lemma MetaThrowsOnlyOnStatError(fs: Tree, rt: Runtime, sessionPath: string, metaFileName: string)
    ensures MetaOf(fs, rt, sessionPath, metaFileName).Threw? <==>
              sessionPath in fs && fs[sessionPath].Unstatable?
  {
  }

  /** A path that does not exist is `missing` with neither a metadata path nor an etag. */
  lemma MissingPathIsMissing(fs: Tree, rt: Runtime, sessionPath: string, metaFileName: string)
    requires sessionPath !in fs
    ensures var r := MetaOf(fs, rt, sessionPath, metaFileName);
      && r.Returned? && r.meta.status == Missing && r.meta.error.value.code == MissingFile
      && r.meta.metaPath.None? && r.meta.etag.None?
  {
  }

  /** A directory without its metadata file is `missing`, pointing at where the file should be. */
  lemma DirWithoutMetaIsMissing(fs: Tree, rt: Runtime, sessionPath: string, metaFileName: string)
    requires IsDir(fs, sessionPath) && !Exists(fs, Join(sessionPath, metaFileName))
    ensures var r := MetaOf(fs, rt, sessionPath, metaFileName);
      && r.Returned? && r.meta.status == Missing && r.meta.error.value.code == MissingFile
      && r.meta.metaPath == Some(Join(sessionPath, metaFileName)) && r.meta.etag.None?
  {
  }

  /**
   * `missing` means nothing was read; every other result names the path it
   * read and carries that path's etag.
   */
  lemma EtagOfPathRead(fs: Tree, rt: Runtime, sessionPath: string, metaFileName: string)
    requires MetaOf(fs, rt, sessionPath, metaFileName).Returned?
    ensures var m := MetaOf(fs, rt, sessionPath, metaFileName).meta;
      && (m.etag.None? <==> m.status == Missing)
      && (m.status != Missing ==>
            && m.metaPath.Some? && Exists(fs, m.metaPath.value)
            && m.etag == Some(CreateEtag(m.metaPath.value, Some(fs[m.metaPath.value].stat)))
            && (m.metaPath.value == sessionPath || m.metaPath.value == Join(sessionPath, metaFileName)))
  {
  }

  /** A session directory's metadata is read from the file named `metaFileName` inside it. */
  lemma DirMetaReadsMetaFile(fs: Tree, rt: Runtime, sessionPath: string, metaFileName: string)
    requires IsDir(fs, sessionPath) && IsFile(fs, Join(sessionPath, metaFileName))
    ensures var metaPath := Join(sessionPath, metaFileName);
      MetaOf(fs, rt, sessionPath, metaFileName) ==
        Returned(LoadAndNormalize(fs, rt, metaPath, CreateEtag(metaPath, Some(fs[metaPath].stat))))
  {
  }

  /**
   * `loadAndNormalizeMeta` exactly as written: the `try` covers only the read
   * and `JSON.parse`, so a file holding `null` reaches `parsed.type` outside it.
   */
  function LoadAndNormalizeAsWritten(fs: Tree, rt: Runtime, pathname: string, etag: string): (r: Loaded)
    ensures r.Returned? ==> r.meta == LoadAndNormalize(fs, rt, pathname, etag)
  {
    match ReadFile(fs, pathname)
    case None =>
      Returned(CorruptedResult(InvalidJson, "Unable to parse session_meta JSON at " + pathname, Some(etag), JNull, None, Some(pathname)))
    case Some(text) =>
      match rt.parse(text)
      case None =>
        Returned(CorruptedResult(InvalidJson, "Unable to parse session_meta JSON at " + pathname, Some(etag), JNull, None, Some(pathname)))
      case Some(parsed) => NormalizeParsedMetaAsWritten(rt, pathname, parsed, etag)
  }

  /** `loadSessionMeta` exactly as written, with `loadAndNormalizeMeta` as written. */
  function MetaOfAsWritten(fs: Tree, rt: Runtime, sessionPath: string, metaFileName: string): Loaded {
    if sessionPath !in fs then
      Returned(MissingResult("Missing session resource at " + sessionPath, None))
    else match fs[sessionPath]
      case Unstatable(reason) => Threw(reason)
      case File(stat, _) =>
        var etag := CreateEtag(sessionPath, Some(stat));
        if EndsWith(sessionPath, ".jsonl") then Returned(FromJsonl(fs, rt, sessionPath, etag))
        else LoadAndNormalizeAsWritten(fs, rt, sessionPath, etag)
      case Special(stat) =>
        Returned(CorruptedResult(InvalidFile, "Unsupported session resource at " + sessionPath,
                           Some(CreateEtag(sessionPath, Some(stat))), JNull, None, Some(sessionPath)))
      case Dir(_, _) =>
        var metaPath := Join(sessionPath, metaFileName);
        if !Exists(fs, metaPath) then
          Returned(MissingResult("Missing session_meta at " + metaPath, Some(metaPath)))
        else if fs[metaPath].File? then
          LoadAndNormalizeAsWritten(fs, rt, metaPath, CreateEtag(metaPath, Some(fs[metaPath].stat)))
        else
          Returned(CorruptedResult(InvalidFile, "session_meta is not a file",
                             Some(CreateEtag(metaPath, Some(fs[metaPath].stat))), JNull, None, Some(metaPath)))
  }

  /**
   * The file `loadSessionMeta` parses as one JSON document, if any: the
   * session path itself when it is a file not ending in `.jsonl`, or the
   * metadata file inside a session directory.
   */
  function WholeFileRead(fs: Tree, sessionPath: string, metaFileName: string): (r: Option<string>)
    ensures r.Some? ==> IsFile(fs, r.value)
  {
    if IsFile(fs, sessionPath) && !EndsWith(sessionPath, ".jsonl") then Some(sessionPath)
    else if IsDir(fs, sessionPath) && IsFile(fs, Join(sessionPath, metaFileName)) then Some(Join(sessionPath, metaFileName))
    else None
  }

  /** The file at `p` reads and parses to the JSON value `null`. */
  predicate HoldsNull(fs: Tree, rt: Runtime, p: string) {
    ReadFile(fs, p).Some? && rt.parse(ReadFile(fs, p).value) == Some(JNull)
  }

  /**
   * As written, the loader throws on a failing `statSync` and also when the
   * file it parses whole holds `null`; a `.jsonl` line holding `null` is
   * caught and skipped. Whenever it returns, it returns the corrected result.
   */
  lemma MetaThrowsAsWritten(fs: Tree, rt: Runtime, sessionPath: string, metaFileName: string)
    ensures var w := WholeFileRead(fs, sessionPath, metaFileName);
      MetaOfAsWritten(fs, rt, sessionPath, metaFileName).Threw? <==>
        (sessionPath in fs && fs[sessionPath].Unstatable?) || (w.Some? && HoldsNull(fs, rt, w.value))
    ensures MetaOfAsWritten(fs, rt, sessionPath, metaFileName).Returned? ==>
              MetaOfAsWritten(fs, rt, sessionPath, metaFileName) == MetaOf(fs, rt, sessionPath, metaFileName)
  {
    if sessionPath in fs && fs[sessionPath].File? && !EndsWith(sessionPath, ".jsonl") {
      assert WholeFileRead(fs, sessionPath, metaFileName) == Some(sessionPath);
    } else if sessionPath in fs && fs[sessionPath].Dir? {
      var metaPath := Join(sessionPath, metaFileName);
      if IsFile(fs, metaPath) {
        assert WholeFileRead(fs, sessionPath, metaFileName) == Some(metaPath);
      }
    }
  }

  /** `loadMetaFromJsonl`: scans the lines in order and returns on the first metadata record. */
  method LoadMetaFromJsonl(fs: Tree, rt: Runtime, pathname: string, etag: string) returns (r: NormalizedMeta)
    ensures r == FromJsonl(fs, rt, pathname, etag)
  {
    var content := ReadFile(fs, pathname);
    if content.None? {
      return CorruptedResult(InvalidFile, "Unable to read session log at " + pathname, Some(etag), JNull, None, Some(pathname));
    }
    var lines := SplitLines(content.value);
    var i := 0;
    while i < |lines|
      invariant 0 <= i <= |lines|
      invariant FirstMetaRecord(rt, lines[i..]) == FirstMetaRecord(rt, lines)
    {
      var line := lines[i];
      assert lines[i..] == [line] + lines[i + 1..];
      TrimEmptyIffBlank(line);
      if Trim(line) != [] {
        var parsed := rt.parse(line);
        if parsed.Some? && Get(parsed.value, "type") == Some(MetaType) {
          return NormalizeParsedMeta(rt, pathname, parsed.value, etag);
        }
      }
      i := i + 1;
    }
    return CorruptedResult(InvalidFile, "Unable to locate session_meta entry inside " + pathname,
                     Some(etag), JNull, None, Some(pathname));
  }

  /** `loadSessionMeta`: branches on what `statSync` reports at the path. */
  method LoadSessionMeta(fs: Tree, rt: Runtime, sessionPath: string, metaFileName: string) returns (r: Loaded)
    ensures r == MetaOf(fs, rt, sessionPath, metaFileName)
  {
    if sessionPath !in fs {
      return Returned(MissingResult("Missing session resource at " + sessionPath, None));
    }
    var node := fs[sessionPath];
    if node.Unstatable? {
      return Threw(node.reason);
    }
    if node.File? {
      var etag := CreateEtag(sessionPath, Some(node.stat));
      if EndsWith(sessionPath, ".jsonl") {
        var m := LoadMetaFromJsonl(fs, rt, sessionPath, etag);
        return Returned(m);
      }
      return Returned(LoadAndNormalize(fs, rt, sessionPath, etag));
    }
    if node.Dir? {
      var metaPath := Join(sessionPath, metaFileName);
      if !Exists(fs, metaPath) {
        return Returned(MissingResult("Missing session_meta at " + metaPath, Some(metaPath)));
      }
      var metaEtag := CreateEtag(metaPath, Some(fs[metaPath].stat));
      if !fs[metaPath].File? {
        return Returned(CorruptedResult(InvalidFile, "session_meta is not a file", Some(metaEtag), JNull, None, Some(metaPath)));
      }
      return Returned(LoadAndNormalize(fs, rt, metaPath, metaEtag));
    }
    return Returned(CorruptedResult(InvalidFile, "Unsupported session resource at " + sessionPath,
                              Some(CreateEtag(sessionPath, Some(node.stat))), JNull, None, Some(sessionPath)));
  }
}
