/**
 * The file system as the session engine sees it: a finite map from absolute
 * path to what `statSync`, `readFileSync` and `readdirSync` report there.
 * Paths are strings whose components are joined by `/`; `path.resolve` and
 * `path.join` are taken to return their argument already normalised.
 */
module FileSystem {
  import opened Wrappers
  import opened Text

  /** The fields of an `fs.Stats` the source reads. */
  datatype Stat = Stat(mtimeMs: int, ctimeMs: int, size: nat)

  /**
   * What lives at a path. `content == None` means `readFileSync` fails,
   * `listing == None` means `readdirSync` fails, `Special` is neither a file
   * nor a directory, and `Unstatable` makes `statSync` throw with an error
   * other than `ENOENT`. A path that is not a key of the tree does not exist.
   */
  datatype Node =
    | File(stat: Stat, content: Option<string>)
    | Dir(stat: Stat, listing: Option<seq<string>>)
    | Special(stat: Stat)
    | Unstatable(reason: string)

  type Tree = map<string, Node>

  /** `existsSync(p)`: `statSync(p)` would succeed. */
  predicate Exists(fs: Tree, p: string) {
    p in fs && !fs[p].Unstatable?
  }

  predicate IsFile(fs: Tree, p: string) {
    p in fs && fs[p].File?
  }

  predicate IsDir(fs: Tree, p: string) {
    p in fs && fs[p].Dir?
  }

  /** `path.resolve(dir, name)` / `path.join(dir, name)` for a relative `name`. */
  function Join(dir: string, name: string): (r: string)
    ensures name != [] ==> |r| > |dir| && StartsWith(r, dir)
    ensures name == [] ==> r == dir
  {
    if name == [] then dir else dir + "/" + name
  }

  /** `/` or `\`, the separators `path.basename` accepts on Windows. */
  predicate IsSep(c: char) {
    c == '/' || c == '\\'
  }

  /** The index just after the last separator of `s` (0 when there is none). */
  function LastSepEnd(s: string): (r: nat)
    ensures r <= |s|
    ensures r > 0 ==> IsSep(s[r - 1])
    ensures forall k | r <= k < |s| :: !IsSep(s[k])
    decreases |s|
  {
    if s == [] then 0
    else if IsSep(s[|s| - 1]) then |s|
    else LastSepEnd(s[..|s| - 1])
  }

  /** `s` without its trailing separators. */
  function StripTrailingSeps(s: string): (r: string)
    ensures |r| <= |s| && r == s[..|r|]
    ensures r == [] || !IsSep(r[|r| - 1])
    decreases |s|
  {
    if s != [] && IsSep(s[|s| - 1]) then StripTrailingSeps(s[..|s| - 1]) else s
  }

  /** `path.basename(p)`: the last component, ignoring trailing separators. */
  function Basename(p: string): (r: string)
    ensures exists i, j | 0 <= i <= j <= |p| :: r == p[i..j]
    ensures forall k | 0 <= k < |r| :: !IsSep(r[k])
  {
    var t := StripTrailingSeps(p);
    var i := LastSepEnd(t);
    assert t[i..] == p[i..|t|];
    t[i..]
  }

  /** `p` itself or anything below it. */
  predicate Within(k: string, p: string) {
    k == p || StartsWith(k, p + "/")
  }

  /** The tree after `rmSync(p, { recursive: true, force: true })` succeeds. */
  function RemoveTree(fs: Tree, p: string): (r: Tree)
    ensures p !in r && !Exists(r, p)
    ensures forall k | k in r :: k in fs && r[k] == fs[k] && !Within(k, p)
    ensures forall k | k in fs && !Within(k, p) :: k in r
  {
    map k | k in fs && !Within(k, p) :: fs[k]
  }
}
