# Codex session manager: a verified model of the session engine

The session manager is a desktop application for the sessions that the
Codex command-line tool leaves on disk. Each session is either a directory
holding a `session_meta` file or a `.jsonl` log whose lines are JSON records.
The Electron main process finds these sessions and validates their metadata.
It resumes a session in a new console, or deletes it. The renderer keeps a
store of the listed sessions and the selected one, and the web API shows a
session's log as a conversation of turns.

This project models that core in Dafny:

- the metadata loader (`SessionMeta`) and the UUIDv7 session-id check (`SessionId`);
- the depth-first session scanner (`SessionScanner`);
- the executable resolver (`CliPaths`);
- the guarded resume and delete operations (`ResumeSession`, `DeleteSession`);
- the four IPC handlers (`IpcRequest`, `ResumeHandler`, `DeleteHandler`, `SessionsHandler`, `DetailHandler`);
- the renderer's client (`SessionClient`) and session store (`SessionStore`);
- the conversation route (`Conversation`).

Some helper modules stand in for the platform:

- `Wrappers` provides `Option` and `Result`.
- `Text` covers `trim`, lower-casing, `split(/\r?\n/)` and decimal rendering.
- `Json` covers parsed values, property reads, `??` and `String(v)`.
- `FileSystem` models the file tree as a finite map from absolute path to node: a file, a directory, a special node or a path whose `statSync` fails.
- `Sorting` is an insertion sort that stands in for `Array.prototype.sort` with a comparator; it is proved to permute its input and to order it.

The model follows the form of each source file.

- **Pure functions:** decision chains and record builders are Dafny functions, with lemmas about them.
- **Loops become methods:**
  - the `.jsonl` scan in the loader;
  - the candidate loop in the resolver;
  - the scanner's stack walk;
  - the conversation route's extraction and grouping loops.

  Each of these is a method with loop invariants, proved equal to a specification function.
- **Operations with effects become classes:**
  - resume's spawn uses the `ResumeSession.Launcher` class;
  - delete's recursive removal uses the `DeleteSession.Disk` class;
  - the session store is `SessionStore.Store`.

  Their methods state their whole new state.

Host facilities are parameters:

- **`Json.Runtime`** bundles `JSON.parse` and `new Date(v).getTime()`:
  - `JSON.parse` is `None` when it throws;
  - `getTime()` is `None` when it is NaN.
- **`CliPaths.Host`** holds the platform, the home directory, `CODEX_CLI_PATH` and `spawnSync`.
- **Failure predicates** say when `spawn` or `rmSync` throws.

## Model

| member | source | states |
|---|---|---|
| SessionId.RegexIsUuidV7Layout | electron/scanner/session-meta.ts:21-22 | `SESSION_ID_REGEX` accepts a string exactly when it has the UUIDv7 layout: 36 characters, `-` at 8/13/18/23, `7` at 14, one of `89abAB` at 19, hex digits of either case elsewhere |
| SessionId.UuidV7IsTrimmed | electron/scanner/session-meta.ts:21-22 | an accepted id has no surrounding whitespace, so trimming it changes nothing |
| SessionMeta.CorruptedResult | electron/scanner/session-meta.ts:285-307 | a corrupted result has no summary, carries the given error code and lists missing fields only for `MISSING_FIELDS` |
| SessionMeta.MissingResult | electron/scanner/session-meta.ts:46-56 | a missing result is `MISSING_FILE` with no etag and no summary |
| SessionMeta.CreateEtag | electron/scanner/session-meta.ts:278-283 | the etag begins with the path and a colon |
| SessionMeta.EtagInjective | electron/scanner/session-meta.ts:278-283 | two etags of one path are equal exactly when modification time and size are equal |
| SessionMeta.MissingFieldsOf | electron/scanner/session-meta.ts:12-19 | the reported fields are exactly the required ones whose value is undefined or null, in `REQUIRED_FIELDS` order; `instructions` is never among them |
| SessionMeta.NormalizeParsedMeta | electron/scanner/session-meta.ts:203-276 | the result is well formed (summary exactly when `ok`, error exactly when not), never `missing`, and carries the etag, the path read and the raw record |
| SessionMeta.NormalizeCheckOrder | electron/scanner/session-meta.ts:203-256 | checks run type tag, required fields, id shape, timestamp; each error code occurs exactly when its check is the first to fail, and `ok` exactly when all pass |
| SessionMeta.NormalizeOkSummary | electron/scanner/session-meta.ts:258-275 | an `ok` summary copies id, cwd, originator, source, `cli_version` and the timestamp verbatim, holds the parsed date, defaults instructions to null, and has a UUIDv7 id |
| SessionMeta.NormalizeParsedMetaAsWritten | electron/scanner/session-meta.ts:203-214 | whenever the code as written returns, it returns the corrected normalisation |
| SessionMeta.NullRecordThrowsAsWritten | electron/scanner/session-meta.ts:204 | as written, a record that parses to `null` throws at `parsed.type` |
| SessionMeta.NullRecordIsInvalidFile | electron/scanner/session-meta.ts:204-214 | corrected, such a record is corrupted with `INVALID_FILE` and type `undefined` |
| SessionMeta.LoadAndNormalize | electron/scanner/session-meta.ts:183-201 | a read or parse failure, and only that, gives `INVALID_JSON`; the result is well formed with the given etag and path |
| SessionMeta.LoadAndNormalizeAsWritten | electron/scanner/session-meta.ts:183-201 | as written, whenever `loadAndNormalizeMeta` returns, it returns the corrected result |
| SessionMeta.FirstMetaRecord | electron/scanner/session-meta.ts:156-170 | a found record is tagged `session_meta` |
| SessionMeta.FirstMetaRecordIsFirst | electron/scanner/session-meta.ts:156-170 | no record is found exactly when no line is non-blank, parseable and tagged; otherwise it is the first such line's record |
| SessionMeta.FirstMetaRecordSkipsPrefix | electron/scanner/session-meta.ts:157-169 | lines before the first metadata line do not affect the result |
| SessionMeta.FirstMetaRecordAt | electron/scanner/session-meta.ts:157-166 | the first metadata line alone decides the record, whatever follows |
| SessionMeta.FirstMetaRecordWins | electron/scanner/session-meta.ts:164-165 | a metadata line at the head wins over any later records |
| SessionMeta.FromJsonl | electron/scanner/session-meta.ts:140-181 | the log result is well formed, never `missing`, and carries the etag and the log path |
| SessionMeta.MetaOf | electron/scanner/session-meta.ts:35-128 | every returned result is well formed |
| SessionMeta.MetaThrowsOnlyOnStatError | electron/scanner/session-meta.ts:42-60 | with the corrected normaliser, the loader throws exactly when `statSync` of the session path fails with something other than `ENOENT` (as written, see `MetaThrowsAsWritten`) |
| SessionMeta.MissingPathIsMissing | electron/scanner/session-meta.ts:45-56 | a nonexistent path is `missing`/`MISSING_FILE` with null metaPath and null etag |
| SessionMeta.DirWithoutMetaIsMissing | electron/scanner/session-meta.ts:66-80 | a directory without the metadata file is `missing`/`MISSING_FILE` with metaPath `dir/metaFileName` and null etag |
| SessionMeta.EtagOfPathRead | electron/scanner/session-meta.ts:62-138 | the etag is null exactly for `missing`; otherwise it is `path:mtimeMs:size` of the existing path recorded as metaPath, which is the session path or its metadata file |
| SessionMeta.DirMetaReadsMetaFile | electron/scanner/session-meta.ts:66-117 | a session directory's result is the one read from its metadata file, with that file's etag |
| SessionMeta.MetaThrowsAsWritten | electron/scanner/session-meta.ts:35-128 | as written, and for records whose fields convert to text and dates without throwing, the loader throws exactly on a non-`ENOENT` `statSync` failure or when the file it parses whole (a non-`.jsonl` session file, or a directory's metadata file) holds `null`; a `.jsonl` line holding `null` is skipped; whenever it returns, it returns the corrected result |
| SessionMeta.LoadMetaFromJsonl | electron/scanner/session-meta.ts:140-181 | the line loop with early return computes `FromJsonl` |
| SessionMeta.LoadSessionMeta | electron/scanner/session-meta.ts:35-128 | the branching on `statSync` computes `MetaOf` |
| SessionScanner.ComputeSortKey | electron/scanner/session-scanner.ts:89-107 | the key is the summary's creation time, else mtime, else ctime, else 0 |
| SessionScanner.ChildPaths | electron/scanner/session-scanner.ts:59-61 | one pushed path per directory entry, in listing order |
| SessionScanner.FoundAreCandidates | electron/scanner/session-scanner.ts:37-40 | everything the walk records is a directory with `session_meta` or a `.jsonl` file, at or below the root |
| SessionScanner.SkippedPaths | electron/scanner/session-scanner.ts:30-35 | a path that cannot be stat-ed yields nothing; a directory that cannot be listed yields at most itself |
| SessionScanner.DirWithoutMetaNotRecorded | electron/scanner/session-scanner.ts:37-64 | a directory without `session_meta` is not recorded, but its contents still are |
| SessionScanner.NestedSessionsFound | electron/scanner/session-scanner.ts:52-61 | what is found below a listed child is found from the parent; a recorded session directory is still descended |
| SessionScanner.SessionAt | electron/scanner/session-scanner.ts:40-49 | a recorded session carries the corrected loader's result for its path with the default file name, and the path's mtime and ctime |
| SessionScanner.NewerFirstIsStrict | electron/scanner/session-scanner.ts:81 | the comparator `b.sortKey - a.sortKey` is a strict order |
| SessionScanner.PushChildren | electron/scanner/session-scanner.ts:59-61 | the stack grows by the entries' joined paths, in order |
| SessionScanner.Visit | electron/scanner/session-scanner.ts:25-77 | one pop records the path exactly when it is a candidate, with its metadata and key, and pushes exactly a listable directory's children |
| SessionScanner.WalkStep | electron/scanner/session-scanner.ts:24-78 | each iteration keeps "recorded + still to find = all found from the root" and reduces the remaining work |
| SessionScanner.SortedPaths | electron/scanner/session-scanner.ts:80-86 | sorting and stripping the key neither drops nor duplicates a path |
| SessionScanner.SortedNewestFirst | electron/scanner/session-scanner.ts:80-81 | the sorted list is non-increasing by sort key |
| SessionScanner.ScanSessions | electron/scanner/session-scanner.ts:20-87 | the result lists every path the walk finds exactly once; each entry carries its metadata from the corrected loader, and the list is newest first |
| Sorting.Sort | electron/scanner/session-scanner.ts:80-81 | the sort is a permutation of its input |
| Sorting.SortSorted | electron/scanner/session-scanner.ts:80-81 | with a strict-order comparator, no element is placed after one it must precede |
| CliPaths.NormalizePathKeepsNonBlank | electron/cli/paths.ts:40-46 | a value survives normalisation, unchanged, exactly when present and not blank |
| CliPaths.DefaultCodexPath | electron/cli/paths.ts:36-38 | the default is the home directory followed by `/.codex/bin/codex.exe` |
| CliPaths.CandidatesInOrder | electron/cli/paths.ts:15-20 | the candidates are the explicit path, then `CODEX_CLI_PATH`, each dropped when absent or blank, then the default |
| CliPaths.CandidatesNotEmpty | electron/cli/paths.ts:20 | no candidate is empty, so `filter(Boolean)` drops only the normalised-away values |
| CliPaths.FirstNonEmpty | electron/cli/paths.ts:59 | `find(Boolean)` gives the first non-empty line, and none only when every line is empty |
| CliPaths.LookupFirstLine | electron/cli/paths.ts:57-73 | a lookup succeeds exactly on exit status 0 with some non-empty line, and yields the first such line, trimmed |
| CliPaths.DiscoverOrder | electron/cli/paths.ts:48-64 | on win32 `where codex.exe` is asked before `where codex`; elsewhere only `which codex` |
| CliPaths.FirstExisting | electron/cli/paths.ts:22-26 | the first existing candidate, and none exactly when none exists |
| CliPaths.FirstExistingCandidateWins | electron/cli/paths.ts:22-26 | the first existing candidate is the result |
| CliPaths.DiscoveryOnlyWithoutCandidate | electron/cli/paths.ts:22-31 | `PATH` discovery decides only when no candidate exists; otherwise the result is an existing candidate |
| CliPaths.NullOnlyWhenAllFail | electron/cli/paths.ts:28-33 | the result is null exactly when no candidate exists and discovery fails; a result is never empty |
| CliPaths.ResolveCodexExecutable | electron/cli/paths.ts:12-34 | the loop with early return computes `ResolveExecutable` |
| ResumeSession.QuoteIfSpaced | electron/cli/resume-session.ts:103 | the path is wrapped in double quotes exactly when it contains a space |
| ResumeSession.CommandsEndWithId | electron/cli/resume-session.ts:102-112 | both command forms start with `start cmd /k `, end with ` resume <id>` and contain the id |
| ResumeSession.ResumeCommandMiddle | electron/cli/resume-session.ts:102-106 | the real command is the prefix, the quoted path, ` resume ` and the id, in that layout |
| ResumeSession.ResumeCommandInjective | electron/cli/resume-session.ts:102-106 | for one executable, equal commands mean equal ids |
| ResumeSession.CommandsDistinguishMode | electron/cli/resume-session.ts:102-112 | a real command never equals the simulated one |
| ResumeSession.Launcher.Spawn | electron/cli/resume-session.ts:79-84 | a spawn that does not throw launches exactly that command |
| ResumeSession.ResumeAfterLoad | electron/cli/resume-session.ts:39-99 | after loading, the coded errors are `MISSING_META`, `ID_MISMATCH`, `SPAWN_FAILED`; a foreign error escapes exactly when the loader threw |
| ResumeSession.ResumeChecksIdFirst | electron/cli/resume-session.ts:32-37 | `INVALID_ID` exactly when the untrimmed id is not a UUIDv7, whatever the file system holds |
| ResumeSession.ResumeNeedsOkMeta | electron/cli/resume-session.ts:43-64 | missing or corrupted metadata, or no summary, gives `MISSING_META` |
| ResumeSession.ResumeNeedsExactId | electron/cli/resume-session.ts:66-71 | a summary id not exactly equal to the requested id gives `ID_MISMATCH` |
| ResumeSession.ResumeSuccess | electron/cli/resume-session.ts:39-99 | a success passed every check; `simulated` exactly when no executable was found; the command is the real or simulated form accordingly, contains the id, and did not fail to spawn; metaPath is the loader's or `sessionPath/metaFile` |
| ResumeSession.ResumeCodes | electron/cli/resume-session.ts:27-100 | coded errors are only `INVALID_ID`, `MISSING_META`, `ID_MISMATCH`, `SPAWN_FAILED` |
| ResumeSession.ResumeForeignOnlyOnStatError | electron/cli/resume-session.ts:39-40 | with the corrected loader, a foreign error escapes exactly for a valid id whose session path cannot be stat-ed |
| ResumeSession.Resume | electron/cli/resume-session.ts:27-100 | the guard sequence computes `ResumeOutcome`, and launches exactly the returned command on success and nothing otherwise |
| DeleteSession.PathMatchIsSubstring | electron/cli/delete-session.ts:81-90 | the path match holds exactly when the lower-cased id occurs in the lower-cased path; the basename test is subsumed |
| DeleteSession.Disk.Remove | electron/cli/delete-session.ts:65-73 | a removal that does not throw deletes the path and everything below it; a failing one leaves the tree |
| DeleteSession.MetaGate | electron/cli/delete-session.ts:45-61 | the metadata gate can only raise `MISSING_META` or `ID_MISMATCH` |
| DeleteSession.MetaGateDecision | electron/cli/delete-session.ts:43-61 | without a path match, non-ok metadata gives `MISSING_META` and another id `ID_MISMATCH`; the gate passes exactly with a path match or an `ok` summary with the same id |
| DeleteSession.AfterLoad | electron/cli/delete-session.ts:41-79 | after loading, coded errors are `MISSING_META`, `ID_MISMATCH`, `REMOVE_FAILED` |
| DeleteSession.DeleteChecksIdFirst | electron/cli/delete-session.ts:21-27 | `INVALID_ID` exactly when the trimmed id is not a UUIDv7 |
| DeleteSession.DeleteNeedsExistingPath | electron/cli/delete-session.ts:29-39 | a path that cannot be stat-ed gives `MISSING_META` |
| DeleteSession.DeleteLoaderReturns | electron/cli/delete-session.ts:29-41 | once the path exists, the corrected loader cannot throw |
| DeleteSession.DeleteSuccess | electron/cli/delete-session.ts:16-79 | a success passed every check, its removal did not fail, and it reports the trimmed id and the path |
| DeleteSession.PathMatchBypassesMeta | electron/cli/delete-session.ts:43-78 | a path containing the id, ignoring case, is removed whatever its metadata, unless the removal fails |
| DeleteSession.DeleteCodes | electron/cli/delete-session.ts:16-79 | with the corrected loader, only the four coded errors, never a foreign one |
| DeleteSession.Delete | electron/cli/delete-session.ts:16-79 | the guard sequence computes `DeleteOutcome`; the tree changes only on success, by removing the path, which then no longer exists |
| IpcRequest.OptionalTrim | electron/ipc/resume-session-handler.ts:52-53 | `v?.trim()` is undefined for absent or null, the trimmed string for a string, and throws for any other value |
| IpcRequest.NonObjectPayloadRejected | electron/ipc/resume-session-handler.ts:45-50 | a null or non-object payload is `INVALID_ID` with the handler's message |
| IpcRequest.IdCheckedBeforePath | electron/ipc/resume-session-handler.ts:52-67 | an empty or non-UUIDv7 trimmed id is `INVALID_ID` whatever the path; only then does an empty trimmed path give `MISSING_META` |
| IpcRequest.AcceptedRequest | electron/ipc/resume-session-handler.ts:52-76 | a forwarded request holds the trimmed UUIDv7 id, the trimmed non-empty path and the trimmed metadata file name or `session_meta` |
| IpcRequest.WrongFieldTypeThrows | electron/ipc/delete-session-handler.ts:49-50 | a non-string id or path escapes as a foreign `TypeError` |
| ResumeHandler.ResponseMirrorsOutcome | electron/ipc/resume-session-handler.ts:79-108 | success copies sessionId, metaPath, command, cliPath, simulated; a coded error keeps code and message; anything else is `SPAWN_FAILED` |
| ResumeHandler.ForwardedIdIsValid | electron/ipc/resume-session-handler.ts:52-76 | `INVALID_ID` comes only from the handler's own validation |
| ResumeHandler.ResumeHandlerCodes | electron/ipc/resume-session-handler.ts:33-108 | the response codes are only `INVALID_ID`, `MISSING_META`, `ID_MISMATCH`, `SPAWN_FAILED` |
| DeleteHandler.DeleteResponseMirrorsOutcome | electron/ipc/delete-session-handler.ts:76-102 | success carries exactly id and removed path; a coded error keeps code and message; anything else is `REMOVE_FAILED` |
| DeleteHandler.HandlerDeletesRequestedPath | electron/ipc/delete-session-handler.ts:41-82 | a success reports the trimmed payload id and removes the trimmed payload path, which existed |
| DeleteHandler.DeleteHandlerCodes | electron/ipc/delete-session-handler.ts:30-102 | the response codes are only `INVALID_ID`, `MISSING_META`, `ID_MISMATCH`, `REMOVE_FAILED` |
| SessionsHandler.RelativePath | electron/ipc/get-sessions-handler.ts:49-51 | the relative path is never longer than the session path |
| SessionsHandler.RelativePathRebuilds | electron/ipc/get-sessions-handler.ts:49-51 | under the root, root + at most one separator + relative path is the session path; elsewhere the path is unchanged |
| SessionsHandler.MapWithoutSummary | electron/ipc/get-sessions-handler.ts:52-67 | without a summary: id from the raw payload, then the relative path; cwd from the payload, then the session path; originator and version from the payload, then `unknown`; instructions from the payload, then null; time the fallback |
| SessionsHandler.MapWithSummary | electron/ipc/get-sessions-handler.ts:52-67 | with a complete summary every field, the ISO time included, is copied verbatim; status, path and metadata path are copied |
| SessionsHandler.OkSummaryFieldsPresent | electron/scanner/session-meta.ts:216-267 | an `ok` summary has every field the renderer mapping copies |
| SessionsHandler.MapSessions | electron/ipc/get-sessions-handler.ts:35-37 | one response entry per scanned session, in scan order |
| SessionsHandler.GetSessions | electron/ipc/get-sessions-handler.ts:29-40 | the response names every found session once, mapped from its metadata, newest first |
| DetailHandler.DetailMirrorsSummary | electron/ipc/get-session-detail-handler.ts:33-68 | the response is null exactly without a summary; otherwise it copies the summary's fields, the loader's status and metadata path, the request path, and null notes |
| DetailHandler.DetailIsOk | electron/ipc/get-session-detail-handler.ts:37-47 | every non-null response has status `ok` |
| DetailHandler.DetailFailsOnlyOnStatError | electron/ipc/get-session-detail-handler.ts:35 | for a string path and the corrected loader, the handler rejects exactly when the session path cannot be stat-ed |
| SessionClient.NormalizeListDefaults | src/lib/session-client.ts:144-175 | id and path copied; cwd falls back to the path, originator and version to `unknown`, instructions to null, status to `ok`, the ISO text to the clock; the time is the parsed ISO time, or the clock's time when the text does not parse (`safeDate`) |
| SessionClient.NormalizeIdempotent | src/lib/session-client.ts:144-159 | a normalised item sent through normalisation again is unchanged |
| SessionClient.NormalizeSessionDetail | src/lib/session-client.ts:161-168 | the detail is the list normalisation plus the metadata path and notes as sent |
| SessionClient.FetchSessions | src/lib/session-client.ts:33-43 | no bridge or no list gives `[]`; otherwise one normalised item per raw item, in order |
| SessionClient.FetchKeepsOrder | src/lib/session-client.ts:42 | ids and paths match the bridge's list position by position |
| SessionClient.FetchSessionDetail | src/lib/session-client.ts:45-60 | a detail exactly when the bridge exists and returns a session, and then it is that session normalised by `normalizeSessionDetail` |
| SessionClient.RequestCheckOrder | src/lib/session-client.ts:62-101 | `INVALID_ID` exactly for a missing or blank id, `INVALID_PATH` exactly for a good id and missing or blank path, `bridge_unavailable` exactly when both are good and no bridge; otherwise the bridge gets the trimmed id and path |
| SessionClient.ResumeAndDeleteAgree | src/lib/session-client.ts:103-142 | delete requests are checked like resume requests, with the same codes and bridge call |
| SessionStore.SelectionFor | src/lib/stores/session-store.ts:34-43 | an empty list clears the selection; otherwise it is a listed id, kept when it was listed and truthy, else the first id |
| SessionStore.DetailFor | src/lib/stores/session-store.ts:44-49 | the detail is kept exactly when the new id is truthy and equals the detail's id |
| SessionStore.FindIndex | src/lib/stores/session-store.ts:61 | the first index with the id, and -1 exactly when the id is not listed |
| SessionStore.UpsertPlacement | src/lib/stores/session-store.ts:59-70 | an unknown id is prepended and nothing else moves; a known id replaces its first occurrence and every other position is unchanged |
| SessionStore.Without | src/lib/stores/session-store.ts:73 | no element with the id remains; every other element is kept with its multiplicity, in its order |
| SessionStore.SelectionAfterRemove | src/lib/stores/session-store.ts:74-79 | the selection moves to the first remaining id, or null, only when the selected session was removed |
| SessionStore.UpsertKeepsSelectionListed | src/lib/stores/session-store.ts:59-70 | a selection that names a listed session still does after an upsert |
| SessionStore.RemoveKeepsSelectionListed | src/lib/stores/session-store.ts:71-86 | a selection that names a listed session still names one (or is cleared) after a removal |
| SessionStore.Store.constructor | src/lib/stores/session-store.ts:26-33 | nothing listed, selected or loaded |
| SessionStore.Store.SetSessions | src/lib/stores/session-store.ts:34-43 | replaces the list, repairs the selection by `SelectionFor`, leaves detail and its error |
| SessionStore.Store.SetSelectedId | src/lib/stores/session-store.ts:44-49 | selects the id, keeps the detail by `DetailFor`, clears the error, leaves the list |
| SessionStore.Store.SetDetail | src/lib/stores/session-store.ts:50-54 | stores the detail, clears the error, leaves list and selection |
| SessionStore.Store.UpsertSession | src/lib/stores/session-store.ts:59-70 | the list becomes `Upserted`; nothing else changes |
| SessionStore.Store.RemoveSession | src/lib/stores/session-store.ts:71-86 | the list loses the id, the selection follows `SelectionAfterRemove`, the detail is dropped only with the selected session, the error is cleared |
| Conversation.EntryOf | src/app/api/session-conversation/route.ts:61-92 | an entry exists exactly when the record is an `event_msg` whose payload type is `user_message`, `agent_message` or `agent_reasoning` and whose text field (`message`, or `text` for a reasoning) is a string; the entry's kind is that payload type, its text that string, and its timestamp the record's string timestamp or `''` |
| Conversation.EventOf | src/app/api/session-conversation/route.ts:48-93 | an entry comes only from a non-blank line that parses, and is that record's entry |
| Conversation.LineOutcomesAgree | src/app/api/session-conversation/route.ts:54-63 | as written a line throws exactly when it parses to `null`; on every other line it agrees with the corrected loop, which skips `null` |
| Conversation.ExtractAsWrittenThrowsOnNull | src/app/api/session-conversation/route.ts:48-93 | the loop as written throws exactly when some line parses to `null`, and otherwise yields the corrected entries |
| Conversation.ExtractAppend | src/app/api/session-conversation/route.ts:48-93 | each line contributes independently: extraction distributes over concatenation |
| Conversation.NullLineSkipped | src/app/api/session-conversation/route.ts:54-63 | corrected, a `null` line contributes nothing |
| Conversation.ExtractFromLines | src/app/api/session-conversation/route.ts:45-93 | at most one entry per line, and each entry comes from a line of the file |
| Conversation.ExtractEvents | src/app/api/session-conversation/route.ts:45-93 | the extraction loop computes `Extract` of the split lines |
| Conversation.BeforeIsStrictOrder | src/app/api/session-conversation/route.ts:97-116 | the comparator is a strict order |
| Conversation.WithIndex | src/app/api/session-conversation/route.ts:96 | each entry paired with its file position |
| Conversation.Entries | src/app/api/session-conversation/route.ts:117 | the entries of the indexed list, in its order |
| Conversation.ChronologicalOrder | src/app/api/session-conversation/route.ts:95-117 | the sort permutes the indexed entries; unparsable times never precede parsable ones, times never decrease, and ties and unparsable entries keep file order |
| Conversation.ChronologicalIsPermutation | src/app/api/session-conversation/route.ts:95-117 | every entry is kept exactly once |
| Conversation.Step | src/app/api/session-conversation/route.ts:121-150 | one event adds at most one turn |
| Conversation.StepShape | src/app/api/session-conversation/route.ts:121-150 | an event either appends a turn and leaves the others, or rewrites only the last turn |
| Conversation.StepKeepsEntries | src/app/api/session-conversation/route.ts:121-150 | one event adds itself once to the turns' entries and keeps every other |
| Conversation.ReasoningKeepsInvariant | src/app/api/session-conversation/route.ts:130-137 | a reasoning opens the first turn when there is none; otherwise it is appended to the last turn's reasonings, which keeps its user and agent, and every earlier turn is unchanged; the turn invariant is kept |
| Conversation.ReplyKeepsInvariant | src/app/api/session-conversation/route.ts:140-150 | a reply fills the last turn exactly when that turn exists and has no agent yet, leaving earlier turns unchanged; otherwise it opens a turn of its own; the turn invariant is kept |
| Conversation.StepKeepsInvariant | src/app/api/session-conversation/route.ts:121-150 | one event keeps every turn well formed, each after the first having a user or an agent |
| Conversation.StepCountsUsers | src/app/api/session-conversation/route.ts:122-128 | one event opens a user turn exactly when it is a user message |
| Conversation.GroupKeepsEntries | src/app/api/session-conversation/route.ts:119-151 | every event lands in exactly one turn |
| Conversation.GroupKeepsInvariant | src/app/api/session-conversation/route.ts:119-151 | every turn is well formed and every turn after the first has a user or an agent |
| Conversation.GroupCountsUsers | src/app/api/session-conversation/route.ts:122-128 | the turns with a user message are exactly as many as the user events |
| Conversation.GroupTurns | src/app/api/session-conversation/route.ts:119-151 | the grouping loop computes `Group` |
| Conversation.ConversationOf | src/app/api/session-conversation/route.ts:17-158 | an error response has status 400, 404 or 500 |
| Conversation.NullRecordFailsConversationAsWritten | src/app/api/session-conversation/route.ts:54-63 | as written, a readable file answers 500 exactly when some line parses to `null`, and otherwise as the corrected handler |
| Conversation.ConversationResponses | src/app/api/session-conversation/route.ts:28-43 | 400 exactly without a trimmed path, 404 exactly when nothing is at it, turns exactly when it reads; the turns hold each kept entry once, keep the turn invariant, and count the user messages |
| Conversation.HandleConversation | src/app/api/session-conversation/route.ts:17-158 | the handler computes `ConversationOf` |

## Left out

- I/O framing is not modelled:
  - the `ipcMain.handle` registration and promise wrapping;
  - request-body parsing in the conversation route, modelled as an optional parsed body where `None` is a missing or unparsable body;
  - the `NextResponse` JSON framing;
  - `console.error`.
- File-system calls are queries on a fixed tree: `statSync`, `existsSync`, `readFileSync`, `readdirSync` and `readFile`. Nothing changes the tree between two queries, and symbolic links are not modelled, so the walk always ends.
- `path.resolve` returns its argument, and `join`/`resolve(dir, name)` is `dir + "/" + name`. Drive letters and `..` segments are not modelled. A metadata file name is taken to be relative.
- `JSON.parse` and `new Date(v).getTime()` / `Date.parse` are uninterpreted functions. Numbers are integers, and NaN is an absent time.
- The stat fields `mtimeMs`, `ctimeMs` and `size` are integers, so a fractional `mtimeMs` is not modelled, neither in the etag text (`path:mtimeMs:size`) nor as a scanner sort key.
- The scanner, the resume and delete operations and the IPC handlers call the corrected loader. The difference from the loader as written (a whole-file metadata document holding `null` throws) is stated once, at the loader, by `SessionMeta.MetaThrowsAsWritten`.
- SessionMeta.MetaThrowsAsWritten: `String()` and `new Date()` on a parsed object with its own `toString` key (for example `{"type":{"toString":0}}`, or an array holding such an object) throw a `TypeError` in the source. This happens at the messages and the date built at electron/scanner/session-meta.ts:207, 233, 236, 245 and 248. The model's `Json.ToText` and the date oracle never throw, so `NormalizeParsedMetaAsWritten` returns a corrupted result where the source throws. For a whole-file document, that error escapes the loader and the scan. In a `.jsonl` log, `LoadMetaFromJsonl` and `FirstMetaRecordAt` use the first tagged line, while the source's try at lines 162-169 catches the error and moves on to the next tagged line.
- SessionScanner.ScanSessions: sessions with equal sort keys stay in walk order, because `Array.prototype.sort` is stable, but no lemma states that order. The contract says only that the list is a permutation of the found sessions, newest first.
- DetailHandler.HandleDetail: the request's `path` is taken to be a string, as its request type declares; a non-string path, which makes `resolve` throw and the handler reject, is not modelled.
- `spawn`, `spawnSync` and `rmSync` are oracles. `rmSync` either removes the whole subtree or throws and leaves the tree unchanged; a partial removal is not modelled. The `detached`/`unref` process handling is not modelled.
- Errors carry codes and messages only. The `cause` fields are not modelled. The text of a `TypeError` is an approximation of the engine's message.
- `CLI_NOT_FOUND` is declared by the error type but never raised by `resumeSession`, so no path produces it.
- The wall clock is a parameter: `SessionClient.Clock` for `new Date()` in the client, and `fallbackIso` for the mtime/ctime/now ISO fallback in the sessions handler.
- The store's `loadingSessions`, `loadingDetail` and `error` fields and their setters (src/lib/stores/session-store.ts:55-58) only assign a field. They are not modelled. Store subscribers and the `set` merge are not modelled either.
- `toLowerCase` is modelled for ASCII letters only. `trim` removes the ECMAScript whitespace and line terminators.
- The session watcher, the React components, the toast queue and the Electron window plumbing are outside this model.
- The detail handler uses a present `metaFileName` without trimming, as the source does (only an absent one defaults to `session_meta`); the model keeps that behaviour rather than the trimming the other handlers apply.

## Findings

| source | as written | input that shows it | evidently intended | confidence | as-written member | corrected member |
|---|---|---|---|---|---|---|
| electron/scanner/session-meta.ts:204 | `normalizeParsedMeta` reads `parsed.type` without checking for `null` | a `session_meta` file whose content is the JSON text `null`: `JSON.parse` succeeds, `parsed.type` throws a `TypeError`, and `loadSessionMeta` (and the whole scan) throws | report the file as corrupted with `INVALID_FILE` | high, not executed | SessionMeta.MetaThrowsAsWritten | SessionMeta.NullRecordIsInvalidFile |
| src/app/api/session-conversation/route.ts:61 | the extraction loop reads `parsed.type` on every parsed line, including one that parsed to `null` | a session log containing a line `null`: the `TypeError` reaches the outer catch, and the whole conversation answers 500 | skip that line like any other non-event record | high, not executed | Conversation.NullRecordFailsConversationAsWritten | Conversation.NullLineSkipped |
