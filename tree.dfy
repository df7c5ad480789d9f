/** An abstract filesystem: a map from a path (the sequence of its parts,
    relative to the working directory) to the kind of the entry there. The
    working directory itself is the empty path and is always a directory. */
module Tree {

  type Path = seq<string>

  datatype Node = File(size: nat) | Dir

  type Fs = map<Path, Node>

  /** `a` is `b` or one of its ancestors. */
  predicate IsPrefix(a: Path, b: Path) {
    |a| <= |b| && b[..|a|] == a
  }

  /** `b` lies strictly below `a`. */
  predicate Below(a: Path, b: Path) {
    |a| < |b| && b[..|a|] == a
  }

  function ParentOf(p: Path): Path
    requires p != []
  {
    p[..|p| - 1]
  }

  /** A well-formed tree: the working directory is a directory and every
      other entry sits in a directory. */
  ghost predicate Wf(fs: Fs) {
    [] in fs && fs[[]] == Dir &&
    forall p {:trigger ParentOf(p)} | p in fs && p != [] :: IsDir(fs, ParentOf(p))
  }

  predicate IsDir(fs: Fs, p: Path) {
    p in fs && fs[p] == Dir
  }

  predicate IsFile(fs: Fs, p: Path) {
    p in fs && fs[p].File?
  }

  // ---------------------------------------------------------------------
  // Enumeration: iterdir() and rglob("*")
  // ---------------------------------------------------------------------

  /** The entries `iterdir()` yields. */
  function Children(fs: Fs, p: Path): set<Path> {
    set q | q in fs && |q| == |p| + 1 && q[..|p|] == p
  }

  /** The entries `rglob("*")` yields. */
  function Descendants(fs: Fs, p: Path): set<Path> {
    set q | q in fs && Below(p, q)
  }

  function Scope(fs: Fs, p: Path, recursive: bool): set<Path> {
    if recursive then Descendants(fs, p) else Children(fs, p)
  }

  /** Which entries a count keeps: `is_file()`, `is_dir()` or all. */
  datatype Kind = Files | Folders | Entries

  predicate Matches(n: Node, k: Kind) {
    match k
    case Files => n.File?
    case Folders => n.Dir?
    case Entries => true
  }

  function Select(fs: Fs, s: set<Path>, k: Kind): set<Path> {
    set q | q in s && q in fs && Matches(fs[q], k)
  }

  function SizeAt(fs: Fs, q: Path): nat {
    if q in fs && fs[q].File? then fs[q].size else 0
  }

  /** The sum of the sizes of the files in `s`. */
  ghost function TotalSize(fs: Fs, s: set<Path>): nat
    decreases s
  {
    if s == {} then 0 else var q :| q in s; SizeAt(fs, q) + TotalSize(fs, s - {q})
  }

  // ---------------------------------------------------------------------
  // Changes
  // ---------------------------------------------------------------------

  /** `p` and everything below it removed. */
  function Without(fs: Fs, p: Path): Fs {
    map q | q in fs && !IsPrefix(p, q) :: fs[q]
  }

  /** Everything below `p` removed; `p` itself kept. */
  function Emptied(fs: Fs, p: Path): Fs {
    map q | q in fs && !Below(p, q) :: fs[q]
  }

  /** Everything at or below one of the paths in `done` removed. */
  function StripAll(fs: Fs, done: set<Path>): Fs {
    map q | q in fs && !(exists d :: d in done && IsPrefix(d, q)) :: fs[q]
  }

  /** Some ancestor of `p` is a file, so no directory can be made at `p`. */
  predicate AncestorIsFile(fs: Fs, p: Path) {
    exists k :: 0 <= k < |p| && IsFile(fs, p[..k])
  }

  function StrictPrefixes(p: Path): set<Path> {
    set k | 0 <= k < |p| :: p[..k]
  }

  /** The missing ancestors of `p` created as directories (`makedirs`). */
  function WithAncestors(fs: Fs, p: Path): Fs {
    fs + map a | a in StrictPrefixes(p) && a !in fs :: Dir
  }

  /** `mkdir(parents=True)`: the missing ancestors and `p` created. */
  function MkdirParents(fs: Fs, p: Path): Fs {
    WithAncestors(fs, p)[p := Dir]
  }

  /** The subtree at `src`, placed at `dst`. */
  function Image(fs: Fs, src: Path, dst: Path): Fs {
    var keys := set q | q in fs && IsPrefix(src, q) :: dst + q[|src|..];
    map k | k in keys :: if |dst| <= |k| && src + k[|dst|..] in fs then fs[src + k[|dst|..]] else Dir
  }

  /** The subtree at `src` renamed to `dst`. */
  function Relocated(fs: Fs, src: Path, dst: Path): Fs {
    Without(fs, src) + Image(fs, src, dst)
  }

  /** A recursive copy of `src` merged into `dst` (`copytree`). */
  function Copied(fs: Fs, src: Path, dst: Path): Fs {
    WithAncestors(fs, dst) + Image(fs, src, dst)
  }

  /** Copying the entry `q` onto `t` fails: a directory meets a file, or a
      file would be copied onto itself. */
  predicate Clash(fs: Fs, q: Path, t: Path)
    requires q in fs
  {
    t in fs && (fs[t].Dir? != fs[q].Dir? || (t == q && fs[q].File?))
  }

  predicate CopyConflict(fs: Fs, src: Path, dst: Path) {
    exists q :: q in fs && IsPrefix(src, q) && Clash(fs, q, dst + q[|src|..])
  }
}
