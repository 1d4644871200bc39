/**
 * `scanSessions`: a depth-first walk of the session root with an explicit
 * stack, recording session directories (those holding a `session_meta`
 * entry) and `.jsonl` logs, then ordering them newest first.
 */
module SessionScanner {
  import opened Wrappers
  import opened Text
  import opened FileSystem
  import opened SessionMeta
  import opened Sorting
  import opened Json

  /** `ScannedSession`: the path, its metadata and the path's own times. */
  datatype ScannedSession = ScannedSession(sessionPath: string, meta: NormalizedMeta, mtimeMs: int, ctimeMs: int)

  /** An entry of the `sessions` array before the key is stripped. */
  datatype Keyed = Keyed(session: ScannedSession, sortKey: int)

  /**
   * `computeSortKey`: the summary's creation time, else the modification
   * time, else the change time, else 0 (`None` is a time that is not a number).
   */
  function ComputeSortKey(meta: NormalizedMeta, mtimeMs: Option<int>, ctimeMs: Option<int>): (r: int)
    ensures meta.summary.Some? ==> r == meta.summary.value.createdAt
    ensures meta.summary.None? && mtimeMs.Some? ==> r == mtimeMs.value
    ensures meta.summary.None? && mtimeMs.None? && ctimeMs.Some? ==> r == ctimeMs.value
    ensures meta.summary.None? && mtimeMs.None? && ctimeMs.None? ==> r == 0
  {
    if meta.summary.Some? then meta.summary.value.createdAt
    else if mtimeMs.Some? then mtimeMs.value
    else if ctimeMs.Some? then ctimeMs.value
    else 0
  }

  /** The key the sort uses for a recorded session. */
  function SortKeyOf(s: ScannedSession): int {
    ComputeSortKey(s.meta, Some(s.mtimeMs), Some(s.ctimeMs))
  }

  /** `join(dir, entry)` for an entry `readdirSync` returned (never empty). */
  function ChildPath(dir: string, entry: string): (r: string)
    ensures |r| > |dir| && StartsWith(r, dir + "/")
  {
    dir + "/" + entry
  }

  function ChildPaths(dir: string, entries: seq<string>): (r: seq<string>)
    ensures |r| == |entries| && forall i | 0 <= i < |r| :: r[i] == ChildPath(dir, entries[i])
  {
    seq(|entries|, i requires 0 <= i < |entries| => ChildPath(dir, entries[i]))
  }

  /** A directory with a `session_meta` entry that `existsSync` sees. */
  predicate IsSessionDir(fs: Tree, p: string) {
    IsDir(fs, p) && Exists(fs, Join(p, DefaultMetaFile))
  }

  /** A regular file whose path ends in `.jsonl`. */
  predicate IsSessionLog(fs: Tree, p: string) {
    IsFile(fs, p) && EndsWith(p, ".jsonl")
  }

  /** The walk records `p`. */
  predicate IsCandidate(fs: Tree, p: string) {
    p != [] && (IsSessionDir(fs, p) || IsSessionLog(fs, p))
  }

  /** The walk lists `p` and pushes its entries. */
  predicate Descends(fs: Tree, p: string) {
    p != [] && IsDir(fs, p) && fs[p].listing.Some?
  }

  /** The number of paths in the tree longer than `p`: what a step into a child reduces. */
  ghost function Rank(fs: Tree, p: string): nat {
    var longer := set k | k in fs && |k| > |p|;
    |longer|
  }

  lemma RankDecreases(fs: Tree, p: string, c: string)
    requires c in fs && |c| > |p|
    ensures Rank(fs, c) < Rank(fs, p)
  {
    var below := set k | k in fs && |k| > |c|;
    var above := set k | k in fs && |k| > |p|;
    assert below <= above;
    assert c in above - below;
    assert above == below + (above - below);
  }

  /** The paths the walk records below (and at) `p`, as a multiset. */
  ghost function Found(fs: Tree, p: string): multiset<string>
    decreases Rank(fs, p), 1
  {
    (if IsCandidate(fs, p) then multiset{p} else multiset{})
    + (if Descends(fs, p) then FoundAll(fs, p, fs[p].listing.value) else multiset{})
  }

  ghost function FoundAll(fs: Tree, parent: string, entries: seq<string>): multiset<string>
    decreases Rank(fs, parent), 0, |entries|
  {
    if entries == [] then multiset{}
    else
      var c := ChildPath(parent, entries[0]);
      (if c in fs then RankDecreases(fs, parent, c); Found(fs, c) else multiset{})
      + FoundAll(fs, parent, entries[1..])
  }

  /** The number of paths the walk pops below (and at) `p`. */
  ghost function Visits(fs: Tree, p: string): nat
    decreases Rank(fs, p), 1
  {
    1 + (if Descends(fs, p) then VisitsAll(fs, p, fs[p].listing.value) else 0)
  }

  ghost function VisitsAll(fs: Tree, parent: string, entries: seq<string>): nat
    decreases Rank(fs, parent), 0, |entries|
  {
    if entries == [] then 0
    else
      var c := ChildPath(parent, entries[0]);
      (if c in fs then RankDecreases(fs, parent, c); Visits(fs, c) else 1)
      + VisitsAll(fs, parent, entries[1..])
  }

  ghost function StackFound(fs: Tree, stack: seq<string>): multiset<string>
    decreases |stack|
  {
    if stack == [] then multiset{} else Found(fs, stack[0]) + StackFound(fs, stack[1..])
  }

  ghost function StackVisits(fs: Tree, stack: seq<string>): nat
    decreases |stack|
  {
    if stack == [] then 0 else Visits(fs, stack[0]) + StackVisits(fs, stack[1..])
  }

  lemma {:induction false} StackAppend(fs: Tree, a: seq<string>, b: seq<string>)
    ensures StackFound(fs, a + b) == StackFound(fs, a) + StackFound(fs, b)
    ensures StackVisits(fs, a + b) == StackVisits(fs, a) + StackVisits(fs, b)
    decreases |a|
  {
    if a == [] {
      assert a + b == b;
    } else {
      assert (a + b)[0] == a[0] && (a + b)[1..] == a[1..] + b;
      StackAppend(fs, a[1..], b);
    }
  }

  lemma {:induction false} StackOfChildren(fs: Tree, parent: string, entries: seq<string>)
    ensures StackFound(fs, ChildPaths(parent, entries)) == FoundAll(fs, parent, entries)
    decreases |entries|
  {
    if entries != [] {
      var cs := ChildPaths(parent, entries);
      var c := ChildPath(parent, entries[0]);
      assert cs[0] == c && cs[1..] == ChildPaths(parent, entries[1..]);
      StackOfChildren(fs, parent, entries[1..]);
      assert StackFound(fs, cs) == Found(fs, c) + StackFound(fs, cs[1..]);
      var own := if c in fs then Found(fs, c) else multiset{};
      assert FoundAll(fs, parent, entries) == own + FoundAll(fs, parent, entries[1..]);
      if c !in fs {
        assert Found(fs, c) == multiset{};
      }
    }
  }

  lemma {:induction false} StackVisitsOfChildren(fs: Tree, parent: string, entries: seq<string>)
    ensures StackVisits(fs, ChildPaths(parent, entries)) == VisitsAll(fs, parent, entries)
    decreases |entries|
  {
    if entries != [] {
      var cs := ChildPaths(parent, entries);
      var c := ChildPath(parent, entries[0]);
      assert cs[0] == c && cs[1..] == ChildPaths(parent, entries[1..]);
      StackVisitsOfChildren(fs, parent, entries[1..]);
      assert StackVisits(fs, cs) == Visits(fs, c) + StackVisits(fs, cs[1..]);
      if c !in fs {
        assert Visits(fs, c) == 1;
      }
    }
  }

  /** What the walk pushes after popping `p`. */
  function Pushed(fs: Tree, p: string): seq<string> {
    if Descends(fs, p) then ChildPaths(p, fs[p].listing.value) else []
  }

  /** What the walk records when it pops `p`. */
  ghost function Own(fs: Tree, p: string): multiset<string> {
    if IsCandidate(fs, p) then multiset{p} else multiset{}
  }

  /** Popping `p` and pushing its children moves `p`'s own record out of what is still to be found. */
  lemma PopStep(fs: Tree, rest: seq<string>, p: string)
    ensures StackFound(fs, rest + [p]) == StackFound(fs, rest + Pushed(fs, p)) + Own(fs, p)
    ensures StackVisits(fs, rest + [p]) == StackVisits(fs, rest + Pushed(fs, p)) + 1
  {
    StackAppend(fs, rest, [p]);
    StackAppend(fs, rest, Pushed(fs, p));
    assert StackFound(fs, [p]) == Found(fs, p);
    assert StackVisits(fs, [p]) == Visits(fs, p);
    if Descends(fs, p) {
      StackOfChildren(fs, p, fs[p].listing.value);
      StackVisitsOfChildren(fs, p, fs[p].listing.value);
    }
  }

  /** Everything the walk records from `p` is a candidate at or below `p`. */
  lemma {:induction false} FoundAreCandidates(fs: Tree, p: string)
    ensures forall q | q in Found(fs, p) :: IsCandidate(fs, q) && Within(q, p)
    decreases Rank(fs, p), 1
  {
    if Descends(fs, p) {
      FoundAllAreCandidates(fs, p, fs[p].listing.value);
    }
  }

  lemma {:induction false} FoundAllAreCandidates(fs: Tree, parent: string, entries: seq<string>)
    ensures forall q | q in FoundAll(fs, parent, entries) :: IsCandidate(fs, q) && StartsWith(q, parent + "/")
    decreases Rank(fs, parent), 0, |entries|
  {
    if entries != [] {
      var c := ChildPath(parent, entries[0]);
      FoundAllAreCandidates(fs, parent, entries[1..]);
      if c in fs {
        RankDecreases(fs, parent, c);
        FoundAreCandidates(fs, c);
        forall q | q in Found(fs, c) ensures StartsWith(q, parent + "/") {
          if q != c {
            assert q[..|c| + 1] == c + "/";
            assert q[..|parent| + 1] == q[..|c| + 1][..|parent| + 1] == (c + "/")[..|parent| + 1];
          }
        }
      }
    }
  }

  /** A path that cannot be stat-ed, or a directory that cannot be listed, contributes at most itself. */
  lemma SkippedPaths(fs: Tree, p: string)
    ensures !Exists(fs, p) ==> Found(fs, p) == multiset{}
    ensures IsDir(fs, p) && fs[p].listing.None? ==> Found(fs, p) == (if IsCandidate(fs, p) then multiset{p} else multiset{})
  {
  }

  /** A directory without a `session_meta` entry is not recorded itself, yet is still searched. */
  lemma DirWithoutMetaNotRecorded(fs: Tree, p: string)
    requires IsDir(fs, p) && !Exists(fs, Join(p, DefaultMetaFile))
    ensures Found(fs, p) == FoundBelow(fs, p)
  {
  }

  /** What the walk records strictly below `p`. */
  ghost function FoundBelow(fs: Tree, p: string): multiset<string> {
    if Descends(fs, p) then FoundAll(fs, p, fs[p].listing.value) else multiset{}
  }

  lemma {:induction false} FoundAllHasChild(fs: Tree, parent: string, entries: seq<string>, i: int)
    requires 0 <= i < |entries| && ChildPath(parent, entries[i]) in fs
    ensures Found(fs, ChildPath(parent, entries[i])) <= FoundAll(fs, parent, entries)
    decreases |entries|
  {
    if i > 0 {
      FoundAllHasChild(fs, parent, entries[1..], i - 1);
    }
  }

  /**
   * A session directory is recorded and still descended into: whatever an
   * entry of a listable directory records is recorded for the directory too.
   */
  lemma NestedSessionsFound(fs: Tree, p: string, i: int)
    requires Descends(fs, p) && 0 <= i < |fs[p].listing.value|
    requires ChildPath(p, fs[p].listing.value[i]) in fs
    ensures Found(fs, ChildPath(p, fs[p].listing.value[i])) <= Found(fs, p)
    ensures IsSessionDir(fs, p) ==> p in Found(fs, p)
  {
    FoundAllHasChild(fs, p, fs[p].listing.value, i);
  }

  /** The record the walk makes for a candidate path. */
  function SessionAt(fs: Tree, rt: Runtime, p: string): (r: ScannedSession)
    requires IsCandidate(fs, p)
    ensures r.sessionPath == p && Returned(r.meta) == MetaOf(fs, rt, p, DefaultMetaFile)
    ensures r.mtimeMs == fs[p].stat.mtimeMs && r.ctimeMs == fs[p].stat.ctimeMs
  {
    MetaThrowsOnlyOnStatError(fs, rt, p, DefaultMetaFile);
    ScannedSession(p, MetaOf(fs, rt, p, DefaultMetaFile).meta, fs[p].stat.mtimeMs, fs[p].stat.ctimeMs)
  }

  /** The comparator `(a, b) => b.sortKey - a.sortKey` puts `a` first. */
  function NewerFirst(a: Keyed, b: Keyed): bool {
    a.sortKey > b.sortKey
  }

  lemma NewerFirstIsStrict()
    ensures StrictOrder(NewerFirst)
  {
  }

  function Unkeyed(s: seq<Keyed>): (r: seq<ScannedSession>)
    ensures |r| == |s| && forall i | 0 <= i < |s| :: r[i] == s[i].session
  {
    seq(|s|, i requires 0 <= i < |s| => s[i].session)
  }

  function PathsOf(s: seq<ScannedSession>): (r: seq<string>)
    ensures |r| == |s| && forall i | 0 <= i < |s| :: r[i] == s[i].sessionPath
  {
    seq(|s|, i requires 0 <= i < |s| => s[i].sessionPath)
  }

  /** Every entry is a well keyed record of a candidate path. */
  ghost predicate AllRecorded(fs: Tree, rt: Runtime, sessions: seq<Keyed>) {
    forall i | 0 <= i < |sessions| :: Recorded(fs, rt, sessions[i])
  }

  /** Recorded entries are well keyed records of candidate paths. */
  ghost predicate Recorded(fs: Tree, rt: Runtime, k: Keyed) {
    && IsCandidate(fs, k.session.sessionPath)
    && k.session == SessionAt(fs, rt, k.session.sessionPath)
    && k.sortKey == SortKeyOf(k.session)
  }

  /** Records a candidate the walk reached: its metadata and its sort key. */
  method Record(fs: Tree, rt: Runtime, current: string) returns (k: Keyed)
    requires IsCandidate(fs, current)
    ensures Recorded(fs, rt, k) && k.session.sessionPath == current
  {
    var loaded := LoadSessionMeta(fs, rt, current, DefaultMetaFile);
    MetaThrowsOnlyOnStatError(fs, rt, current, DefaultMetaFile);
    var stat := fs[current].stat;
    var s := ScannedSession(current, loaded.meta, stat.mtimeMs, stat.ctimeMs);
    k := Keyed(s, ComputeSortKey(s.meta, Some(s.mtimeMs), Some(s.ctimeMs)));
  }

  /** `for (const entry of entries) queue.push(join(currentPath, entry))`. */
  method PushChildren(queue: seq<string>, current: string, entries: seq<string>) returns (q: seq<string>)
    ensures q == queue + ChildPaths(current, entries)
  {
    q := queue;
    var k := 0;
    while k < |entries|
      invariant 0 <= k <= |entries|
      invariant q == queue + ChildPaths(current, entries[..k])
    {
      assert ChildPaths(current, entries[..k + 1]) == ChildPaths(current, entries[..k]) + [ChildPath(current, entries[k])];
      q := q + [ChildPath(current, entries[k])];
      k := k + 1;
    }
    assert entries[..k] == entries;
  }

  /**
   * One pass of the loop body for a popped path: stat it, record it when it
   * is a candidate, and push its entries when it is a listable directory.
   */
  method Visit(fs: Tree, rt: Runtime, current: string, queue: seq<string>)
    returns (recorded: Option<Keyed>, queue': seq<string>)
    ensures recorded.Some? <==> IsCandidate(fs, current)
    ensures recorded.Some? ==> Recorded(fs, rt, recorded.value) && recorded.value.session.sessionPath == current
    ensures queue' == queue + Pushed(fs, current)
  {
    recorded, queue' := None, queue;
    assert queue + [] == queue;
    if current == [] || current !in fs || fs[current].Unstatable? {
      return;
    }
    var node := fs[current];
    if node.Dir? {
      if Exists(fs, Join(current, DefaultMetaFile)) {
        var k := Record(fs, rt, current);
        recorded := Some(k);
      }
      if node.listing.None? {
        return;
      }
      queue' := PushChildren(queue, current, node.listing.value);
      return;
    }
    if node.File? && EndsWith(current, ".jsonl") {
      var k := Record(fs, rt, current);
      recorded := Some(k);
    }
  }

  /** Appending what a visit records adds its path to the recorded paths. */
  lemma RecordStep(fs: Tree, rt: Runtime, sessions: seq<Keyed>, recorded: Option<Keyed>, p: string)
    requires AllRecorded(fs, rt, sessions)
    requires recorded.Some? <==> IsCandidate(fs, p)
    requires recorded.Some? ==> Recorded(fs, rt, recorded.value) && recorded.value.session.sessionPath == p
    ensures var next := sessions + (if recorded.Some? then [recorded.value] else []);
      && multiset(PathsOf(Unkeyed(next))) == multiset(PathsOf(Unkeyed(sessions))) + Own(fs, p)
      && AllRecorded(fs, rt, next)
  {
    if recorded.Some? {
      assert PathsOf(Unkeyed(sessions + [recorded.value])) == PathsOf(Unkeyed(sessions)) + [p];
    } else {
      assert sessions + [] == sessions;
    }
  }

  /** The sort of the recorded entries keeps their paths. */
  lemma SortedPaths(sessions: seq<Keyed>)
    ensures multiset(PathsOf(Unkeyed(Sort(sessions, NewerFirst)))) == multiset(PathsOf(Unkeyed(sessions)))
  {
    SortKeepsPaths(sessions);
    KeyedPathsOf(sessions);
    KeyedPathsOf(Sort(sessions, NewerFirst));
  }

  /** The sort of recorded entries holds recorded entries only. */
  lemma SortedRecorded(fs: Tree, rt: Runtime, sessions: seq<Keyed>)
    requires AllRecorded(fs, rt, sessions)
    ensures var r := Unkeyed(Sort(sessions, NewerFirst));
      forall i | 0 <= i < |r| :: IsCandidate(fs, r[i].sessionPath) && r[i] == SessionAt(fs, rt, r[i].sessionPath)
  {
    var sorted := Sort(sessions, NewerFirst);
    forall i | 0 <= i < |sorted| ensures Recorded(fs, rt, sorted[i]) {
      assert sorted[i] in multiset(sessions);
      var j :| 0 <= j < |sessions| && sessions[j] == sorted[i];
    }
  }

  /** The sort of recorded entries is newest first. */
  lemma SortedNewestFirst(fs: Tree, rt: Runtime, sessions: seq<Keyed>)
    requires AllRecorded(fs, rt, sessions)
    ensures var r := Unkeyed(Sort(sessions, NewerFirst));
      forall i, j | 0 <= i < j < |r| :: SortKeyOf(r[i]) >= SortKeyOf(r[j])
  {
    var sorted := Sort(sessions, NewerFirst);
    NewerFirstIsStrict();
    SortSorted(sessions, NewerFirst);
    forall i | 0 <= i < |sorted| ensures sorted[i].sortKey == SortKeyOf(sorted[i].session) {
      assert sorted[i] in multiset(sessions);
      var j :| 0 <= j < |sessions| && sessions[j] == sorted[i];
      assert Recorded(fs, rt, sessions[j]);
    }
    assert forall i, j | 0 <= i < j < |sorted| :: !NewerFirst(sorted[j], sorted[i]);
  }

  /** What the loop keeps: the recorded paths and those still to be found make up the whole walk. */
  ghost predicate WalkInvariant(fs: Tree, rt: Runtime, root: string, sessions: seq<Keyed>, queue: seq<string>) {
    && multiset(PathsOf(Unkeyed(sessions))) + StackFound(fs, queue) == Found(fs, root)
    && AllRecorded(fs, rt, sessions)
  }

  /** One iteration of the loop keeps the invariant and shrinks the work left. */
  lemma WalkStep(fs: Tree, rt: Runtime, root: string, sessions: seq<Keyed>, rest: seq<string>, current: string,
                 recorded: Option<Keyed>, queue': seq<string>)
    requires WalkInvariant(fs, rt, root, sessions, rest + [current])
    requires recorded.Some? <==> IsCandidate(fs, current)
    requires recorded.Some? ==> Recorded(fs, rt, recorded.value) && recorded.value.session.sessionPath == current
    requires queue' == rest + Pushed(fs, current)
    ensures WalkInvariant(fs, rt, root, sessions + (if recorded.Some? then [recorded.value] else []), queue')
    ensures StackVisits(fs, queue') < StackVisits(fs, rest + [current])
  {
    PopStep(fs, rest, current);
    RecordStep(fs, rt, sessions, recorded, current);
  }

  /**
   * `scanSessions({ rootPath })`: every path the walk finds, each with the
   * metadata `loadSessionMeta` gives it, newest first.
   */
  method ScanSessions(fs: Tree, rt: Runtime, root: string) returns (r: seq<ScannedSession>)
    ensures multiset(PathsOf(r)) == Found(fs, root)
    ensures forall i | 0 <= i < |r| :: IsCandidate(fs, r[i].sessionPath) && r[i] == SessionAt(fs, rt, r[i].sessionPath)
    ensures forall i, j | 0 <= i < j < |r| :: SortKeyOf(r[i]) >= SortKeyOf(r[j])
  {
    var sessions: seq<Keyed> := [];
    var queue := [root];
    assert StackFound(fs, queue) == Found(fs, root) + StackFound(fs, []);
    while |queue| > 0
      invariant WalkInvariant(fs, rt, root, sessions, queue)
      decreases StackVisits(fs, queue)
    {
      var current := queue[|queue| - 1];
      var rest := queue[..|queue| - 1];
      assert queue == rest + [current];
      var recorded, queue' := Visit(fs, rt, current, rest);
      WalkStep(fs, rt, root, sessions, rest, current, recorded, queue');
      sessions := sessions + (if recorded.Some? then [recorded.value] else []);
      queue := queue';
    }
    SortedPaths(sessions);
    SortedRecorded(fs, rt, sessions);
    SortedNewestFirst(fs, rt, sessions);
    r := Unkeyed(Sort(sessions, NewerFirst));
  }

  /** The paths of keyed entries, one by one. */
  function KeyedPaths(s: seq<Keyed>): seq<string>
    decreases |s|
  {
    if s == [] then [] else [s[0].session.sessionPath] + KeyedPaths(s[1..])
  }

  lemma {:induction false} KeyedPathsOf(s: seq<Keyed>)
    ensures KeyedPaths(s) == PathsOf(Unkeyed(s))
    decreases |s|
  {
    if s != [] {
      KeyedPathsOf(s[1..]);
    }
  }

  lemma {:induction false} InsertKeepsPaths(x: Keyed, s: seq<Keyed>)
    ensures multiset(KeyedPaths(Insert(x, s, NewerFirst))) == multiset(KeyedPaths(s)) + multiset{x.session.sessionPath}
    decreases |s|
  {
    if s != [] && !NewerFirst(x, s[0]) {
      InsertKeepsPaths(x, s[1..]);
    }
  }

  /** Sorting moves entries around but keeps the multiset of their paths. */
  lemma {:induction false} SortKeepsPaths(s: seq<Keyed>)
    ensures multiset(KeyedPaths(Sort(s, NewerFirst))) == multiset(KeyedPaths(s))
    decreases |s|
  {
    if s != [] {
      var init, last := s[..|s| - 1], s[|s| - 1];
      assert s == init + [last];
      KeyedPathsAppend(init, [last]);
      assert KeyedPaths(s) == KeyedPaths(init) + [last.session.sessionPath];
      SortKeepsPaths(init);
      InsertKeepsPaths(last, Sort(init, NewerFirst));
    }
  }

  lemma {:induction false} KeyedPathsAppend(x: seq<Keyed>, y: seq<Keyed>)
    ensures KeyedPaths(x + y) == KeyedPaths(x) + KeyedPaths(y)
    decreases |x|
  {
    if x == [] {
      assert x + y == y;
    } else {
      assert (x + y)[1..] == x[1..] + y;
      KeyedPathsAppend(x[1..], y);
    }
  }
}
