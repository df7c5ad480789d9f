/** Pure path and extension helpers of easypath, over a model of POSIX
    `pathlib.PurePath`: a root ("", "/" or "//") and a sequence of parts. */
module PathNames {

  /** `pathlib` raises ValueError for an invalid suffix or an empty name. */
  datatype Result<T> = Ok(value: T) | ValueError

  /** A parsed path, as `pathlib` keeps it: its root and its parts. */
  datatype PurePath = PurePath(root: string, parts: seq<string>)

  /** A part as `pathlib` keeps it: non-empty, not ".", with no separator. */
  predicate ValidPart(s: string) {
    s != "" && s != "." && '/' !in s
  }

  predicate ValidPath(p: PurePath) {
    (p.root == "" || p.root == "/" || p.root == "//") &&
    forall i :: 0 <= i < |p.parts| ==> ValidPart(p.parts[i])
  }

  // ---------------------------------------------------------------------
  // Parsing and printing
  // ---------------------------------------------------------------------

  /** `s.split("/")`. */
  function Split(s: string): (r: seq<string>)
    ensures |r| >= 1
    ensures forall i :: 0 <= i < |r| ==> '/' !in r[i]
    decreases |s|
  {
    if s == [] then [""]
    else if s[0] == '/' then [""] + Split(s[1..])
    else
      var t := Split(s[1..]);
      [[s[0]] + t[0]] + t[1..]
  }

  /** `"/".join(parts)`. */
  function Join(parts: seq<string>): string
    decreases |parts|
  {
    if parts == [] then ""
    else if |parts| == 1 then parts[0]
    else parts[0] + "/" + Join(parts[1..])
  }

  /** The parts `pathlib` keeps after splitting: empty and "." parts are dropped. */
  function KeepParts(xs: seq<string>): (r: seq<string>)
    requires forall i :: 0 <= i < |xs| ==> '/' !in xs[i]
    ensures forall i :: 0 <= i < |r| ==> ValidPart(r[i])
    decreases |xs|
  {
    if xs == [] then []
    else if xs[0] == "" || xs[0] == "." then KeepParts(xs[1..])
    else [xs[0]] + KeepParts(xs[1..])
  }

  /** POSIX `splitroot`: exactly two leading slashes are kept as a root of
      their own, one or three and more collapse to "/". */
  function SplitRoot(s: string): (string, string)
  {
    if |s| == 0 || s[0] != '/' then ("", s)
    else if |s| >= 2 && s[1] == '/' && (|s| == 2 || s[2] != '/') then ("//", s[2..])
    else ("/", s[1..])
  }

  /** `Path(s)`: the parsed form of a path string. */
  function Parse(s: string): (p: PurePath)
    ensures ValidPath(p)
  {
    var (root, rel) := SplitRoot(s);
    PurePath(root, KeepParts(Split(rel)))
  }

  /** `str(p)`: root followed by the parts joined with "/", or "." when both are empty. */
  function Str(p: PurePath): string {
    if p.root == "" && p.parts == [] then "." else p.root + Join(p.parts)
  }

  /** `p.name`: the final part, or "" when there is none. */
  function Name(p: PurePath): string {
    if p.parts == [] then "" else p.parts[|p.parts| - 1]
  }

  /** `p.parent`: the path without its final part; a path without parts is its own parent. */
  function Parent(p: PurePath): PurePath {
    if p.parts == [] then p else PurePath(p.root, p.parts[..|p.parts| - 1])
  }

  /** `a / b`: a rooted right operand replaces the left one. */
  function Div(a: PurePath, b: PurePath): PurePath {
    if b.root != "" then b else PurePath(a.root, a.parts + b.parts)
  }

  // ---------------------------------------------------------------------
  // The suffix rule of pathlib
  // ---------------------------------------------------------------------

  /** `name.rfind(".")`. */
  function LastDot(name: string): (i: int)
    ensures -1 <= i < |name|
    ensures i >= 0 ==> name[i] == '.'
    ensures forall j :: i < j < |name| ==> name[j] != '.'
    decreases |name|
  {
    if name == [] then -1
    else if name[|name| - 1] == '.' then |name| - 1
    else LastDot(name[..|name| - 1])
  }

  /** `PurePath.suffix` of a name: from the last dot on, unless that dot is
      the first or the last character. */
  function Suffix(name: string): string {
    var i := LastDot(name);
    if 0 < i < |name| - 1 then name[i..] else ""
  }

  /** `PurePath.stem` of a name: the name without its suffix. */
  function Stem(name: string): string {
    var i := LastDot(name);
    if 0 < i < |name| - 1 then name[..i] else name
  }

  /** `PurePath.with_suffix(suffix)`. */
  function WithSuffix(p: PurePath, suffix: string): Result<PurePath> {
    var name := Name(p);
    if name == "" then ValueError
    else if suffix != "" && (suffix[0] != '.' || suffix == ".") then ValueError
    else
      var newName := Stem(name) + suffix;
      if !ValidPart(newName) then ValueError
      else Ok(PurePath(p.root, p.parts[..|p.parts| - 1] + [newName]))
  }

  /** An extension made of a dot and at least one further character, none
      of them a dot or a separator: the only shape `suffix` can return. */
  predicate SimpleExtension(e: string) {
    |e| >= 2 && e[0] == '.' && '.' !in e[1..] && '/' !in e
  }

  // ---------------------------------------------------------------------
  // easypath's helpers (easypath/main.py:592-649, 270-272)
  // ---------------------------------------------------------------------

  /** The leading-dot normalisation shared by change_extension,
      ensure_extension and find_files_by_extension. */
  function NormalizeExtension(e: string): (r: string)
    ensures |r| >= 1 && r[0] == '.'
    ensures |e| > 0 && e[0] == '.' ==> r == e
    ensures !(|e| > 0 && e[0] == '.') ==> r[1..] == e
  {
    if |e| > 0 && e[0] == '.' then e else "." + e
  }

  function GetExtension(path: string): string {
    Suffix(Name(Parse(path)))
  }

  function GetStem(path: string): string {
    Stem(Name(Parse(path)))
  }

  function GetName(path: string): string {
    Name(Parse(path))
  }

  function GetParent(path: string): string {
    Str(Parent(Parse(path)))
  }

  function StripExtension(path: string): Result<string> {
    match WithSuffix(Parse(path), "")
    case Ok(q) => Ok(Name(q))
    case ValueError => ValueError
  }

  function ChangeExtension(path: string, newExtension: string): Result<string> {
    match WithSuffix(Parse(path), NormalizeExtension(newExtension))
    case Ok(q) => Ok(Str(q))
    case ValueError => ValueError
  }

  /** ensure_extension as written: the current suffix is compared with the
      whole extension. */
  function EnsureExtension(path: string, extension: string): Result<string> {
    var ext := NormalizeExtension(extension);
    var p := Parse(path);
    if Suffix(Name(p)) != ext then
      match WithSuffix(p, ext)
      case Ok(q) => Ok(Str(q))
      case ValueError => ValueError
    else Ok(Str(p))
  }

  /** ensure_extension as evidently intended: a name that already ends with
      the extension is left as it is. */
  function EnsureExtensionFixed(path: string, extension: string): Result<string> {
    var ext := NormalizeExtension(extension);
    var p := Parse(path);
    var name := Name(p);
    if !(|ext| <= |name| && name[|name| - |ext|..] == ext) then
      match WithSuffix(p, ext)
      case Ok(q) => Ok(Str(q))
      case ValueError => ValueError
    else Ok(Str(p))
  }

  function SplitExt(path: string): (string, string) {
    (GetStem(path), GetExtension(path))
  }

  function PathSplit(path: string): (string, string) {
    (GetParent(path), GetName(path))
  }

  /** `PurePath.parts`: the root (if any) followed by the parts. */
  function PathParts(path: string): seq<string> {
    var p := Parse(path);
    (if p.root != "" then [p.root] else []) + p.parts
  }

  /** Folds `/` over the parsed segments, from the left. */
  function DivAll(acc: PurePath, rest: seq<string>): PurePath
    decreases |rest|
  {
    if rest == [] then acc else DivAll(Div(acc, Parse(rest[0])), rest[1..])
  }

  function PathJoin(parts: seq<string>): string {
    if parts == [] then "" else Str(DivAll(Parse(parts[0]), parts[1..]))
  }
}
