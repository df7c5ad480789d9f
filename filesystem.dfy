/** The folder and file operations of easypath (easypath/main.py:134-512
    and 739-751) over an abstract tree. A `Disk` holds the tree; paths are
    sequences of parts relative to the working directory, which is the
    empty path. Console output is dropped, and the answer typed at the
    confirmation prompt of remove_folder is a parameter. */
module FileSystem {
  import opened Tree
  import opened TreeLaws
  import opened PathNames
  import opened PathLaws
  import opened Prompt

  /** Why an operation returned without touching the tree. */
  datatype Reason = NotFound | DestinationExists | AlreadyExists | Cancelled | DryRun

  /** `Failed` stands for an exception escaping the operation. */
  datatype Outcome = Done | Skipped(reason: Reason) | Failed

  /** The record get_file_info returns; `present` is its `exists` field. */
  datatype FileInfo = FileInfo(name: string, path: string, size: nat, present: bool, extension: string, stem: string)

  /** The record get_folder_info returns; `present` is its `exists` field. */
  datatype FolderInfo = FolderInfo(name: string, path: string, size: nat, present: bool, fileCount: nat, folderCount: nat)

  /** The string `str(path)` gives for a path relative to the working
      directory. */
  function PathStr(p: Path): string {
    Str(PurePath("", p))
  }

  /** `path.name`: the last part, or "" for the working directory. */
  function PathName(p: Path): string {
    Name(PurePath("", p))
  }

  /** The entries a listing keeps: files when `files`, folders when `dirs`. */
  function Listed(fs: Fs, s: set<Path>, files: bool, dirs: bool): set<Path> {
    set q | q in s && q in fs && ((files && fs[q].File?) || (dirs && fs[q].Dir?))
  }

  /** The files below `p` whose name ends with `ext`: what `rglob("*" + ext)`
      keeps after `is_file()`. */
  function EndingWith(fs: Fs, p: Path, ext: string): set<Path> {
    set q | q in Descendants(fs, p) && fs[q].File? && |PathName(q)| >= |ext| &&
      PathName(q)[|PathName(q)| - |ext|..] == ext
  }

  /** The entries `read_dir_tree` keeps: at most `maxDepth` levels down. */
  function UpToDepth(fs: Fs, p: Path, maxDepth: int): set<Path> {
    set q | q in Descendants(fs, p) && |q| - |p| <= maxDepth
  }

  /** A folder move that gets past the guards: what remove_folder leaves at
      the destination when overwriting. A file there is left alone. */
  function ClearedFolder(fs: Fs, dst: Path): Fs {
    if IsDir(fs, dst) then Without(fs, dst) else fs
  }

  /** `shutil.move` of a folder succeeds: by `os.rename`, or by `copytree`
      (which makes the missing ancestors of `dst`) followed by `rmtree`. */
  predicate FolderMovable(fs: Fs, src: Path, dst: Path) {
    IsDir(fs, src) && dst !in fs && !IsPrefix(src, dst) && !AncestorIsFile(fs, dst)
  }

  /** `Path.touch(exist_ok)` without making parents: an existing entry is
      left alone when `existOk` and makes it raise otherwise; a missing one
      is created as an empty file when its parent is a folder. */
  function Touched(fs: Fs, p: Path, existOk: bool): (r: (Outcome, Fs))
    ensures r.0 != Failed ==> p in r.1
    ensures r.0 == Failed ==> r.1 == fs
    ensures p in fs ==> r.1 == fs
  {
    if p in fs then (if existOk then Done else Failed, fs)
    else if p != [] && IsDir(fs, p[..|p| - 1]) then (Done, fs[p := File(0)])
    else (Failed, fs)
  }

  /** Every entry of `a` is in `b`, unchanged. */
  ghost predicate SubTree(a: Fs, b: Fs) {
    forall q :: q in a ==> q in b && a[q] == b[q]
  }

  /** What create_folders reports for `p` holds in `fs`: a folder it made
      is a folder, and a path it skipped exists. */
  predicate Reported(fs: Fs, p: Path, o: Outcome) {
    (o == Done ==> IsDir(fs, p)) && (o == Skipped(AlreadyExists) ==> p in fs)
  }

  /** Neither `p` nor anything below it exists. */
  ghost predicate NothingAt(fs: Fs, p: Path) {
    forall q :: q in fs ==> !IsPrefix(p, q)
  }

  /** What create_folder does to `fs`: its outcome and the new tree. */
  function CreateStep(fs: Fs, p: Path): (Outcome, Fs) {
    if p in fs then (Skipped(AlreadyExists), fs)
    else if AncestorIsFile(fs, p) then (Failed, fs)
    else (Done, MkdirParents(fs, p))
  }

  /** What create_folders does: create_folder on each path in turn, until
      one raises; the exception ends the loop, so the outcomes stop at the
      first `Failed`. */
  function CreateAll(fs: Fs, ps: seq<Path>): (seq<Outcome>, Fs)
    decreases |ps|
  {
    if ps == [] then ([], fs)
    else
      var st := CreateStep(fs, ps[0]);
      if st.0 == Failed then ([Failed], st.1)
      else
        var rest := CreateAll(st.1, ps[1..]);
        ([st.0] + rest.0, rest.1)
  }

  /** What remove_folder without a dry run does to `fs`, `answer` being
      what the prompt reads. */
  function RemoveStep(fs: Fs, p: Path, confirm: bool, force: bool, answer: string): (Outcome, Fs) {
    if !IsDir(fs, p) then (Skipped(NotFound), fs)
    else if confirm && !force && !Confirmed(answer) then (Skipped(Cancelled), fs)
    else if p == [] then (Failed, Emptied(fs, p))
    else (Done, Without(fs, p))
  }

  /** What remove_folders does: remove_folder on each path in turn, until
      one raises (only `rmdir` of the working directory does). */
  function RemoveAll(fs: Fs, ps: seq<Path>, confirm: bool, force: bool, answers: seq<string>): (seq<Outcome>, Fs)
    requires |answers| == |ps|
    decreases |ps|
  {
    if ps == [] then ([], fs)
    else
      var st := RemoveStep(fs, ps[0], confirm, force, answers[0]);
      if st.0 == Failed then ([Failed], st.1)
      else
        var rest := RemoveAll(st.1, ps[1..], confirm, force, answers[1..]);
        ([st.0] + rest.0, rest.1)
  }

  /** What remove_folders' `j`-th outcome says, in the final tree `r.1`:
      a folder reported removed is gone with everything below it, a raise
      comes from the working directory and leaves it empty, a missing
      folder is still missing, a cancel came from the prompt, and only the
      last outcome can be a raise. */
  ghost predicate RemoveOutcome(r: (seq<Outcome>, Fs), ps: seq<Path>, confirm: bool, force: bool, answers: seq<string>, j: int)
    requires 0 <= j < |r.0| <= |ps| == |answers|
  {
    (r.0[j] == Done ==> NothingAt(r.1, ps[j])) &&
    (r.0[j] == Failed ==> ps[j] == [] && r.1 == map[[] := Dir] && j == |r.0| - 1) &&
    (r.0[j] == Skipped(NotFound) ==> !IsDir(r.1, ps[j])) &&
    (r.0[j] == Skipped(Cancelled) ==> confirm && !force && !Confirmed(answers[j])) &&
    r.0[j] in {Done, Failed, Skipped(NotFound), Skipped(Cancelled)}
  }

  /** A file renamed, keeping its content. */
  function MovedFile(fs: Fs, src: Path, dst: Path): Fs
    requires src in fs
  {
    (fs - {src})[dst := fs[src]]
  }

  class Disk {
    var fs: Fs

    ghost predicate Valid()
      reads this
    {
      Wf(fs)
    }

    /** An empty working directory. */
    constructor ()
      ensures Valid() && fs == map[[] := Dir]
    {
      fs := map[[] := Dir];
    }

    /** A disk holding a given well-formed tree. */
    constructor FromTree(t: Fs)
      requires Wf(t)
      ensures Valid() && fs == t
    {
      fs := t;
    }

    // -------------------------------------------------------------------
    // Queries
    // -------------------------------------------------------------------

    /** folder_exists: the path exists and is a directory. */
    function FolderExists(p: Path): (b: bool)
      reads this
      ensures b <==> p in fs && fs[p] == Dir
      ensures b ==> !FileExists(p)
    {
      IsDir(fs, p)
    }

    /** file_exists: the path exists and is a file. */
    function FileExists(p: Path): (b: bool)
      reads this
      ensures b <==> p in fs && fs[p].File?
    {
      IsFile(fs, p)
    }

    /** is_empty_dir: a directory with no entry, so nothing at all below it. */
    function IsEmptyDir(p: Path): (b: bool)
      requires Valid()
      reads this
      ensures b <==> IsDir(fs, p) && Descendants(fs, p) == {}
      ensures b <==> IsDir(fs, p) && Children(fs, p) == {}
    {
      EmptyIffNoDescendants(fs, p);
      IsDir(fs, p) && Children(fs, p) == {}
    }

    /** getfilesize: the size of a file, and 0 for anything else. */
    function GetFileSize(p: Path): (n: nat)
      reads this
      ensures IsFile(fs, p) ==> n == fs[p].size
      ensures !IsFile(fs, p) ==> n == 0
    {
      if IsFile(fs, p) then fs[p].size else 0
    }

    /** get_file_info: the record of a file, whose stem and extension split
        its name; an empty record for anything else. */
    function GetFileInfo(p: Path): (info: FileInfo)
      reads this
      ensures info.present <==> IsFile(fs, p)
      ensures !info.present ==> info == FileInfo("", PathStr(p), 0, false, "", "")
      ensures info.present ==>
        info.name == PathName(p) && info.path == PathStr(p) && info.size == fs[p].size &&
        info.extension == Suffix(info.name) && info.stem == Stem(info.name) &&
        info.stem + info.extension == info.name &&
        (info.extension == "" || (info.extension[0] == '.' && '.' !in info.extension[1..]))
      ensures info.present && p != [] ==> info.name == p[|p| - 1]
    {
      if !IsFile(fs, p) then FileInfo("", PathStr(p), 0, false, "", "")
      else
        var name := PathName(p);
        SuffixShape(name);
        FileInfo(name, PathStr(p), GetFileSize(p), true, Suffix(name), Stem(name))
    }

    /** The number of entries of `s` of kind `k`, counted one by one. */
    method Tally(s: set<Path>, k: Kind) returns (n: nat)
      ensures n == |Select(fs, s, k)|
    {
      n := 0;
      var rest := s;
      ghost var seen: set<Path> := {};
      while rest != {}
        invariant rest + seen == s && rest !! seen
        invariant n == |Select(fs, seen, k)|
        decreases |rest|
      {
        var q :| q in rest;
        SelectStep(fs, seen, q, k);
        if q in fs && Matches(fs[q], k) {
          n := n + 1;
        }
        rest := rest - {q};
        seen := seen + {q};
      }
      assert seen == s;
    }

    /** count_files: the files among the entries (or all the descendants),
        and 0 when the path is no directory. */
    method CountFiles(p: Path, recursive: bool) returns (n: nat)
      ensures !IsDir(fs, p) ==> n == 0
      ensures IsDir(fs, p) ==> n == |Select(fs, Scope(fs, p, recursive), Files)|
    {
      if !IsDir(fs, p) {
        return 0;
      }
      n := Tally(Scope(fs, p, recursive), Files);
    }

    /** count_folders: the directories among the entries (or descendants). */
    method CountFolders(p: Path, recursive: bool) returns (n: nat)
      ensures !IsDir(fs, p) ==> n == 0
      ensures IsDir(fs, p) ==> n == |Select(fs, Scope(fs, p, recursive), Folders)|
    {
      if !IsDir(fs, p) {
        return 0;
      }
      n := Tally(Scope(fs, p, recursive), Folders);
    }

    /** count_entries: every entry (or descendant). As every entry is a file
        or a folder, this is the sum of the two counts above. */
    method CountEntries(p: Path, recursive: bool) returns (n: nat)
      ensures !IsDir(fs, p) ==> n == 0
      ensures IsDir(fs, p) ==> n == |Scope(fs, p, recursive)|
      ensures IsDir(fs, p) ==>
        n == |Select(fs, Scope(fs, p, recursive), Files)| + |Select(fs, Scope(fs, p, recursive), Folders)|
    {
      if !IsDir(fs, p) {
        return 0;
      }
      var s := Scope(fs, p, recursive);
      n := Tally(s, Entries);
      assert Select(fs, s, Entries) == s;
      Partition(fs, s);
    }

    /** get_folder_size: the sum of the sizes of the files below the path,
        and 0 when the path is no directory. */
    method GetFolderSize(p: Path) returns (total: nat)
      ensures !IsDir(fs, p) ==> total == 0
      ensures IsDir(fs, p) ==> total == TotalSize(fs, Select(fs, Descendants(fs, p), Files))
    {
      if !IsDir(fs, p) {
        return 0;
      }
      total := 0;
      var rest := Descendants(fs, p);
      ghost var all := rest;
      ghost var seen: set<Path> := {};
      while rest != {}
        invariant rest + seen == all && rest !! seen
        invariant total == TotalSize(fs, seen)
        decreases |rest|
      {
        var q :| q in rest;
        TotalSizeAdd(fs, seen, q);
        assert (rest - {q}) + (seen + {q}) == all && (rest - {q}) !! (seen + {q});
        if fs[q].File? {
          total := total + fs[q].size;
        }
        rest := rest - {q};
        seen := seen + {q};
      }
      assert seen == all;
      TotalSizeFiles(fs, seen);
    }

    /** Walks `s` in some order (the order of `iterdir` and `rglob` is not
        specified), keeping the entries a listing keeps. */
    method Walk(s: set<Path>, files: bool, dirs: bool) returns (order: seq<Path>)
      ensures multiset(order) == multiset(Listed(fs, s, files, dirs))
    {
      order := [];
      var rest := s;
      ghost var seen: set<Path> := {};
      while rest != {}
        invariant rest + seen == s && rest !! seen
        invariant multiset(order) == multiset(Listed(fs, seen, files, dirs))
        decreases |rest|
      {
        var q :| q in rest;
        ListedStep(fs, seen, q, files, dirs);
        if q in fs && ((files && fs[q].File?) || (dirs && fs[q].Dir?)) {
          order := order + [q];
        }
        rest := rest - {q};
        seen := seen + {q};
      }
      assert seen == s;
    }

    /** list_paths: the names of the files (when `includeFiles`) and folders
        (when `includeDirs`) among the entries or descendants, each entry
        once; nothing when the path is no directory. */
    method ListPaths(p: Path, recursive: bool, includeFiles: bool, includeDirs: bool)
      returns (names: seq<string>, visited: seq<Path>)
      ensures !IsDir(fs, p) ==> names == [] && visited == []
      ensures IsDir(fs, p) ==>
        multiset(visited) == multiset(Listed(fs, Scope(fs, p, recursive), includeFiles, includeDirs))
      ensures |names| == |visited|
      ensures forall i :: 0 <= i < |visited| ==> visited[i] != [] && names[i] == visited[i][|visited[i]| - 1]
    {
      if !IsDir(fs, p) {
        return [], [];
      }
      var order := Walk(Scope(fs, p, recursive), includeFiles, includeDirs);
      visited := order;
      names := [];
      var i := 0;
      while i < |order|
        invariant 0 <= i <= |order| && |names| == i
        invariant forall j :: 0 <= j < i ==> order[j] != [] && names[j] == order[j][|order[j]| - 1]
      {
        assert order[i] in multiset(order);
        var item := order[i];
        names := names + [item[|item| - 1]];
        i := i + 1;
      }
    }

    /** list_folders: the names of the folders among the entries (or the
        descendants); nothing when the path is no directory. */
    method ListFolders(p: Path, recursive: bool) returns (names: seq<string>, visited: seq<Path>)
      ensures !IsDir(fs, p) ==> names == [] && visited == []
      ensures IsDir(fs, p) ==> multiset(visited) == multiset(Select(fs, Scope(fs, p, recursive), Folders))
      ensures |names| == |visited|
      ensures forall i :: 0 <= i < |visited| ==> visited[i] != [] && names[i] == visited[i][|visited[i]| - 1]
    {
      names, visited := ListPaths(p, recursive, false, true);
      assert Listed(fs, Scope(fs, p, recursive), false, true) == Select(fs, Scope(fs, p, recursive), Folders);
    }

    /** list_files: the names of the files among the entries (or the
        descendants); nothing when the path is no directory. */
    method ListFiles(p: Path, recursive: bool) returns (names: seq<string>, visited: seq<Path>)
      ensures !IsDir(fs, p) ==> names == [] && visited == []
      ensures IsDir(fs, p) ==> multiset(visited) == multiset(Select(fs, Scope(fs, p, recursive), Files))
      ensures |names| == |visited|
      ensures forall i :: 0 <= i < |visited| ==> visited[i] != [] && names[i] == visited[i][|visited[i]| - 1]
    {
      names, visited := ListPaths(p, recursive, true, false);
      assert Listed(fs, Scope(fs, p, recursive), true, false) == Select(fs, Scope(fs, p, recursive), Files);
    }

    /** read_dir_tree: `str(item)` for every descendant at most `maxDepth`
        levels below the path, each once; nothing when it is no directory. */
    method ReadDirTree(p: Path, maxDepth: int) returns (results: seq<string>, visited: seq<Path>)
      ensures !IsDir(fs, p) ==> results == [] && visited == []
      ensures IsDir(fs, p) ==> multiset(visited) == multiset(UpToDepth(fs, p, maxDepth))
      ensures |results| == |visited|
      ensures forall i :: 0 <= i < |visited| ==> results[i] == PathStr(visited[i])
    {
      if !IsDir(fs, p) {
        return [], [];
      }
      var s := UpToDepth(fs, p, maxDepth);
      var order := Walk(s, true, true);
      assert Listed(fs, s, true, true) == s;
      visited := order;
      results := [];
      var i := 0;
      while i < |order|
        invariant 0 <= i <= |order| && |results| == i
        invariant forall j :: 0 <= j < i ==> results[j] == PathStr(order[j])
      {
        results := results + [PathStr(order[i])];
        i := i + 1;
      }
    }

    /** find_files_by_extension: the names of the files below the path whose
        name ends with the extension, a dot added in front when missing. */
    method FindFilesByExtension(p: Path, extension: string) returns (names: seq<string>, visited: seq<Path>)
      ensures multiset(visited) == multiset(EndingWith(fs, p, NormalizeExtension(extension)))
      ensures |names| == |visited|
      ensures forall i :: 0 <= i < |visited| ==> names[i] == PathName(visited[i])
    {
      var ext := NormalizeExtension(extension);
      var s := EndingWith(fs, p, ext);
      var order := Walk(s, true, false);
      assert Listed(fs, s, true, false) == s;
      visited := order;
      names := [];
      var i := 0;
      while i < |order|
        invariant 0 <= i <= |order| && |names| == i
        invariant forall j :: 0 <= j < i ==> names[j] == PathName(order[j])
      {
        names := names + [PathName(order[i])];
        i := i + 1;
      }
    }

    /** get_folder_info: the recursive counts and size of a folder; for
        anything else the record with empty name, size and counts. */
    method GetFolderInfo(p: Path) returns (info: FolderInfo)
      ensures !IsDir(fs, p) ==> info == FolderInfo("", PathStr(p), 0, false, 0, 0)
      ensures IsDir(fs, p) ==>
        info.present && info.name == PathName(p) && info.path == PathStr(p) &&
        info.size == TotalSize(fs, Select(fs, Descendants(fs, p), Files)) &&
        info.fileCount == |Select(fs, Descendants(fs, p), Files)| &&
        info.folderCount == |Select(fs, Descendants(fs, p), Folders)|
    {
      if !IsDir(fs, p) {
        return FolderInfo("", PathStr(p), 0, false, 0, 0);
      }
      var size := GetFolderSize(p);
      var files := CountFiles(p, true);
      var folders := CountFolders(p, true);
      info := FolderInfo(PathName(p), PathStr(p), size, true, files, folders);
    }

    // -------------------------------------------------------------------
    // Creating folders
    // -------------------------------------------------------------------

    /** create_folder: a missing path is made with its missing ancestors; an
        existing one is left alone; a file on the way makes mkdir raise. */
    method CreateFolder(p: Path) returns (o: Outcome)
      requires Valid()
      modifies this
      ensures Valid()
      ensures p in old(fs) ==> o == Skipped(AlreadyExists) && fs == old(fs)
      ensures p !in old(fs) && AncestorIsFile(old(fs), p) ==> o == Failed && fs == old(fs)
      ensures p !in old(fs) && !AncestorIsFile(old(fs), p) ==> o == Done && fs == MkdirParents(old(fs), p)
      ensures o == Done ==> IsDir(fs, p)
      ensures o == Skipped(AlreadyExists) ==> p in fs
      ensures SubTree(old(fs), fs)
      ensures (o, fs) == CreateStep(old(fs), p)
    {
      if p in fs {
        return Skipped(AlreadyExists);
      }
      if AncestorIsFile(fs, p) {
        return Failed;
      }
      WfWithAncestors(fs, p);
      WfMkdirParents(fs, p);
      fs := MkdirParents(fs, p);
      o := Done;
    }

    /** create_folders: create_folder on each path in turn, until one
        raises. */
    method CreateFolders(ps: seq<Path>) returns (outcomes: seq<Outcome>)
      requires Valid()
      modifies this
      ensures Valid()
      ensures (outcomes, fs) == CreateAll(old(fs), ps)
    {
      outcomes := [];
      var i := 0;
      assert ps[i..] == ps && [] + CreateAll(fs, ps).0 == CreateAll(fs, ps).0;
      while i < |ps|
        invariant Valid() && 0 <= i <= |ps|
        invariant CreateAll(old(fs), ps) == (outcomes + CreateAll(fs, ps[i..]).0, CreateAll(fs, ps[i..]).1)
      {
        assert ps[i..][0] == ps[i] && ps[i..][1..] == ps[i + 1..];
        ghost var before := fs;
        var o := CreateFolder(ps[i]);
        assert CreateAll(before, ps[i..]) ==
          if o == Failed then ([Failed], fs) else ([o] + CreateAll(fs, ps[i + 1..]).0, CreateAll(fs, ps[i + 1..]).1);
        assert outcomes + ([o] + CreateAll(fs, ps[i + 1..]).0) == (outcomes + [o]) + CreateAll(fs, ps[i + 1..]).0;
        outcomes := outcomes + [o];
        if o == Failed {
          return;
        }
        i := i + 1;
      }
      assert ps[i..] == [];
      assert outcomes + [] == outcomes;
    }

    /** ensure_dir, that is `Path.mkdir(parents, exist_ok)`. */
    method EnsureDir(p: Path, parents: bool, existOk: bool) returns (o: Outcome)
      requires Valid()
      modifies this
      ensures Valid()
      ensures p in old(fs) ==> fs == old(fs) && (if existOk && old(fs)[p] == Dir then o == Done else o == Failed)
      ensures p !in old(fs) && (AncestorIsFile(old(fs), p) || (!parents && !IsDir(old(fs), p[..|p| - 1]))) ==>
        o == Failed && fs == old(fs)
      ensures p !in old(fs) && !AncestorIsFile(old(fs), p) && (parents || IsDir(old(fs), p[..|p| - 1])) ==>
        o == Done && fs == MkdirParents(old(fs), p)
      ensures o == Done ==> IsDir(fs, p)
    {
      if p in fs {
        if existOk && fs[p] == Dir {
          return Done;
        }
        return Failed;
      }
      if AncestorIsFile(fs, p) {
        return Failed;
      }
      if !parents && !IsDir(fs, p[..|p| - 1]) {
        return Failed;
      }
      WfMkdirParents(fs, p);
      fs := MkdirParents(fs, p);
      o := Done;
    }

    // -------------------------------------------------------------------
    // Removing
    // -------------------------------------------------------------------

    /** remove_folder. The guards leave the tree alone; a proceeding call
        removes the folder and exactly what lies below it. The working
        directory itself is emptied, and then `rmdir(".")` raises. */
    method RemoveFolder(p: Path, confirm: bool, force: bool, dryRun: bool, answer: string) returns (o: Outcome)
      requires Valid()
      modifies this
      ensures Valid()
      ensures IsDir(old(fs), p) && !(confirm && !force && !Confirmed(answer)) && dryRun ==>
        o == Skipped(DryRun) && fs == old(fs)
      ensures !(IsDir(old(fs), p) && !(confirm && !force && !Confirmed(answer)) && dryRun) ==>
        (o, fs) == RemoveStep(old(fs), p, confirm, force, answer)
      ensures o == Done ==> p !in fs && fs.Keys == old(fs).Keys - {p} - Descendants(old(fs), p)
    {
      if !IsDir(fs, p) {
        return Skipped(NotFound);
      }
      if confirm && !force {
        if !Confirmed(answer) {
          return Skipped(Cancelled);
        }
      }
      if dryRun {
        return Skipped(DryRun);
      }
      if p == [] {
        RemoveChildren(p);
        return Failed;
      }
      ghost var fs0 := fs;
      RemoveTree(p);
      RemovalCount(fs0, p);
      o := Done;
    }

    /** remove_folder(p, confirm=False, force=True) on a folder other than
        the working directory, the call the removal loop makes for each
        subfolder: its contents go, then `rmdir` removes the folder. */
    method RemoveTree(p: Path)
      requires Valid() && IsDir(fs, p) && p != []
      modifies this
      ensures Valid()
      ensures fs == Without(old(fs), p)
      decreases |Descendants(fs, p)|, 1
    {
      ghost var fs0 := fs;
      RemoveChildren(p);
      EmptiedMinus(fs0, p);
      WfWithout(fs0, p);
      fs := fs - {p};
    }

    /** remove_folders: remove_folder on each path in turn, `answers[i]`
        being what the prompt reads for `ps[i]`, until one raises. */
    method RemoveFolders(ps: seq<Path>, confirm: bool, force: bool, answers: seq<string>) returns (outcomes: seq<Outcome>)
      requires Valid() && |answers| == |ps|
      modifies this
      ensures Valid()
      ensures (outcomes, fs) == RemoveAll(old(fs), ps, confirm, force, answers)
    {
      outcomes := [];
      var i := 0;
      assert ps[i..] == ps && answers[i..] == answers;
      assert [] + RemoveAll(fs, ps, confirm, force, answers).0 == RemoveAll(fs, ps, confirm, force, answers).0;
      while i < |ps|
        invariant Valid() && 0 <= i <= |ps|
        invariant RemoveAll(old(fs), ps, confirm, force, answers) ==
          (outcomes + RemoveAll(fs, ps[i..], confirm, force, answers[i..]).0,
           RemoveAll(fs, ps[i..], confirm, force, answers[i..]).1)
      {
        assert ps[i..][0] == ps[i] && ps[i..][1..] == ps[i + 1..];
        assert answers[i..][0] == answers[i] && answers[i..][1..] == answers[i + 1..];
        ghost var before := fs;
        var o := RemoveFolder(ps[i], confirm, force, false, answers[i]);
        ghost var rest := RemoveAll(fs, ps[i + 1..], confirm, force, answers[i + 1..]);
        assert RemoveAll(before, ps[i..], confirm, force, answers[i..]) ==
          if o == Failed then ([Failed], fs) else ([o] + rest.0, rest.1);
        assert outcomes + ([o] + rest.0) == (outcomes + [o]) + rest.0;
        outcomes := outcomes + [o];
        if o == Failed {
          return;
        }
        i := i + 1;
      }
      assert ps[i..] == [];
      assert outcomes + [] == outcomes;
    }

    /** The loop over `iterdir()` shared by remove_folder and empty_folder:
        each folder entry is removed by a recursive remove_folder and each
        file is unlinked, so everything below `p` goes and `p` stays. */
    method RemoveChildren(p: Path)
      requires Valid() && IsDir(fs, p)
      modifies this
      ensures Valid()
      ensures fs == Emptied(old(fs), p)
      decreases |Descendants(fs, p)|, 0
    {
      ghost var fs0 := fs;
      var items := Children(fs, p);
      ghost var kids := items;
      ghost var done: set<Path> := {};
      StripNone(fs0);
      while items != {}
        invariant Valid()
        invariant items + done == kids && items !! done
        invariant fs == StripAll(fs0, done)
        decreases |items|
      {
        var c :| c in items;
        ChildStep(fs0, p, done, c);
        assert (items - {c}) + (done + {c}) == kids && (items - {c}) !! (done + {c});
        if fs[c] == Dir {
          RemoveTree(c);
        } else {
          FileIsLeaf(fs, c);
          WfRemoveFile(fs, c);
          fs := fs - {c};
        }
        items := items - {c};
        done := done + {c};
      }
      StripChildren(fs0, p);
    }

    /** empty_folder: everything below the folder goes, the folder stays and
        is then empty. */
    method EmptyFolder(p: Path) returns (o: Outcome)
      requires Valid()
      modifies this
      ensures Valid()
      ensures !IsDir(old(fs), p) ==> o == Skipped(NotFound) && fs == old(fs)
      ensures IsDir(old(fs), p) ==> o == Done && fs == Emptied(old(fs), p)
      ensures o == Done ==> IsEmptyDir(p)
    {
      if !IsDir(fs, p) {
        return Skipped(NotFound);
      }
      ghost var fs0 := fs;
      RemoveChildren(p);
      EmptiedShape(fs0, p);
      o := Done;
    }

    /** touch_file: with `parents` the parent folder is made first
        (ensure_parent_dir, which fails when a file is in the way); then
        the entry is touched. */
    method TouchFile(p: Path, existOk: bool, parents: bool) returns (o: Outcome)
      requires Valid()
      modifies this
      ensures Valid()
      ensures !parents || p == [] ==> (o, fs) == Touched(old(fs), p, existOk)
      ensures parents && p != [] ==>
        var par := p[..|p| - 1];
        if AncestorIsFile(old(fs), par) || IsFile(old(fs), par) then o == Failed && fs == old(fs)
        else (o, fs) == Touched(if par in old(fs) then old(fs) else MkdirParents(old(fs), par), p, existOk)
      ensures o == Done ==> p in fs && (p !in old(fs) ==> fs[p] == File(0))
    {
      if parents && p != [] {
        NoEntryBelowFile(fs, p[..|p| - 1]);
        var r := EnsureDir(p[..|p| - 1], true, true);
        if r == Failed {
          return Failed;
        }
      }
      if p in fs {
        if existOk {
          return Done;
        }
        return Failed;
      }
      if p == [] || !IsDir(fs, p[..|p| - 1]) {
        return Failed;
      }
      WfPutFile(fs, p, File(0));
      fs := fs[p := File(0)];
      o := Done;
    }

    /** remove_file: a file is unlinked; anything else is left alone
        (`missingOk` only silences the message). */
    method RemoveFile(p: Path, missingOk: bool) returns (o: Outcome)
      requires Valid()
      modifies this
      ensures Valid()
      ensures IsFile(old(fs), p) ==> o == Done && fs == old(fs) - {p}
      ensures !IsFile(old(fs), p) ==> o == Skipped(NotFound) && fs == old(fs)
    {
      if !IsFile(fs, p) {
        return Skipped(NotFound);
      }
      WfRemoveFile(fs, p);
      fs := fs - {p};
      o := Done;
    }

    // -------------------------------------------------------------------
    // Renaming, moving and copying
    // -------------------------------------------------------------------

    /** rename_folder: `os.rename` of a folder onto a free path, which fails
        when the new path lies inside the folder or has no parent folder. */
    method RenameFolder(src: Path, dst: Path) returns (o: Outcome)
      requires Valid()
      modifies this
      ensures Valid()
      ensures !IsDir(old(fs), src) ==> o == Skipped(NotFound) && fs == old(fs)
      ensures IsDir(old(fs), src) && dst in old(fs) ==> o == Skipped(DestinationExists) && fs == old(fs)
      ensures IsDir(old(fs), src) && dst !in old(fs) ==>
        if !IsPrefix(src, dst) && IsDir(old(fs), dst[..|dst| - 1])
        then o == Done && fs == Relocated(old(fs), src, dst)
        else o == Failed && fs == old(fs)
    {
      if !IsDir(fs, src) {
        return Skipped(NotFound);
      }
      if dst in fs {
        return Skipped(DestinationExists);
      }
      if IsPrefix(src, dst) || !IsDir(fs, dst[..|dst| - 1]) {
        return Failed;
      }
      WfRelocated(fs, src, dst);
      fs := Relocated(fs, src, dst);
      o := Done;
    }

    /** rename_file: `os.rename` of a file onto a free path, which fails when
        the new path has no parent folder. */
    method RenameFile(src: Path, dst: Path) returns (o: Outcome)
      requires Valid()
      modifies this
      ensures Valid()
      ensures !IsFile(old(fs), src) ==> o == Skipped(NotFound) && fs == old(fs)
      ensures IsFile(old(fs), src) && dst in old(fs) ==> o == Skipped(DestinationExists) && fs == old(fs)
      ensures IsFile(old(fs), src) && dst !in old(fs) ==>
        if IsDir(old(fs), dst[..|dst| - 1]) then o == Done && fs == MovedFile(old(fs), src, dst)
        else o == Failed && fs == old(fs)
    {
      if !IsFile(fs, src) {
        return Skipped(NotFound);
      }
      if dst in fs {
        return Skipped(DestinationExists);
      }
      if !IsDir(fs, dst[..|dst| - 1]) {
        return Failed;
      }
      PutMovedFile(fs, src, dst);
      fs := MovedFile(fs, src, dst);
      o := Done;
    }

    /** move_file: with `overwrite` an existing destination is unlinked first
        (a folder there makes `unlink` raise), then `shutil.move` renames the
        file. Moving a file onto itself with `overwrite` unlinks it, and the
        move then raises. */
    method MoveFile(src: Path, dst: Path, overwrite: bool) returns (o: Outcome)
      requires Valid()
      modifies this
      ensures Valid()
      ensures !IsFile(old(fs), src) ==> o == Skipped(NotFound) && fs == old(fs)
      ensures IsFile(old(fs), src) && dst in old(fs) && !overwrite ==>
        o == Skipped(DestinationExists) && fs == old(fs)
      ensures IsFile(old(fs), src) && dst in old(fs) && overwrite && old(fs)[dst] == Dir ==>
        o == Failed && fs == old(fs)
      ensures IsFile(old(fs), src) && dst == src && overwrite ==> o == Failed && fs == old(fs) - {src}
      ensures IsFile(old(fs), src) && dst != src && (dst !in old(fs) || (overwrite && old(fs)[dst].File?)) ==>
        if IsDir(old(fs), dst[..|dst| - 1]) then o == Done && fs == MovedFile(old(fs) - {dst}, src, dst)
        else o == Failed && fs == old(fs) - {dst}
    {
      if !IsFile(fs, src) {
        return Skipped(NotFound);
      }
      if dst in fs && !overwrite {
        return Skipped(DestinationExists);
      }
      if dst in fs && overwrite {
        if fs[dst] == Dir {
          return Failed;
        }
        WfRemoveFile(fs, dst);
        fs := fs - {dst};
      }
      if !IsFile(fs, src) || !IsDir(fs, dst[..|dst| - 1]) {
        return Failed;
      }
      PutMovedFile(fs, src, dst);
      fs := MovedFile(fs, src, dst);
      o := Done;
    }

    /** copy_file: like move_file, but `shutil.copy2` leaves the source. */
    method CopyFile(src: Path, dst: Path, overwrite: bool) returns (o: Outcome)
      requires Valid()
      modifies this
      ensures Valid()
      ensures !IsFile(old(fs), src) ==> o == Skipped(NotFound) && fs == old(fs)
      ensures IsFile(old(fs), src) && dst in old(fs) && !overwrite ==>
        o == Skipped(DestinationExists) && fs == old(fs)
      ensures IsFile(old(fs), src) && dst in old(fs) && overwrite && old(fs)[dst] == Dir ==>
        o == Failed && fs == old(fs)
      ensures IsFile(old(fs), src) && dst == src && overwrite ==> o == Failed && fs == old(fs) - {src}
      ensures IsFile(old(fs), src) && dst != src && (dst !in old(fs) || (overwrite && old(fs)[dst].File?)) ==>
        if IsDir(old(fs), dst[..|dst| - 1]) then o == Done && fs == old(fs)[dst := old(fs)[src]]
        else o == Failed && fs == old(fs) - {dst}
    {
      if !IsFile(fs, src) {
        return Skipped(NotFound);
      }
      if dst in fs && !overwrite {
        return Skipped(DestinationExists);
      }
      if dst in fs && overwrite {
        if fs[dst] == Dir {
          return Failed;
        }
        WfRemoveFile(fs, dst);
        fs := fs - {dst};
      }
      if !IsFile(fs, src) || !IsDir(fs, dst[..|dst| - 1]) {
        return Failed;
      }
      WfPutFile(fs, dst, fs[src]);
      fs := fs[dst := fs[src]];
      o := Done;
    }

    /** move_folder: with `overwrite` an existing folder at the destination
        is removed first (remove_folder, which leaves a file alone), then
        `shutil.move` relocates the folder, making the missing ancestors of
        the destination when `os.rename` cannot. */
    method MoveFolder(src: Path, dst: Path, overwrite: bool) returns (o: Outcome)
      requires Valid()
      modifies this
      ensures Valid()
      ensures !IsDir(old(fs), src) ==> o == Skipped(NotFound) && fs == old(fs)
      ensures IsDir(old(fs), src) && dst in old(fs) && !overwrite ==>
        o == Skipped(DestinationExists) && fs == old(fs)
      ensures IsDir(old(fs), src) && dst == [] && overwrite ==> o == Failed && fs == Emptied(old(fs), [])
      ensures IsDir(old(fs), src) && dst != [] && (dst !in old(fs) || overwrite) ==>
        var fs1 := ClearedFolder(old(fs), dst);
        if FolderMovable(fs1, src, dst) then o == Done && fs == Relocated(WithAncestors(fs1, dst), src, dst)
        else o == Failed && fs == fs1
    {
      if !IsDir(fs, src) {
        return Skipped(NotFound);
      }
      if dst in fs && !overwrite {
        return Skipped(DestinationExists);
      }
      if dst in fs && overwrite {
        var r := RemoveFolder(dst, false, true, false, "");
        if r == Failed {
          return Failed;
        }
      }
      if !FolderMovable(fs, src, dst) {
        return Failed;
      }
      MovableFolder(fs, src, dst);
      fs := Relocated(WithAncestors(fs, dst), src, dst);
      o := Done;
    }

    /** copy_folder: `copytree`, merging into an existing folder when
        `overwrite`; a file meeting a folder, or a file copied onto itself,
        makes it raise. */
    method CopyFolder(src: Path, dst: Path, overwrite: bool) returns (o: Outcome)
      requires Valid()
      modifies this
      ensures Valid()
      ensures !IsDir(old(fs), src) ==> o == Skipped(NotFound) && fs == old(fs)
      ensures IsDir(old(fs), src) && dst in old(fs) && !overwrite ==>
        o == Skipped(DestinationExists) && fs == old(fs)
      ensures IsDir(old(fs), src) && (dst !in old(fs) || overwrite) ==>
        if !AncestorIsFile(old(fs), dst) && !CopyConflict(old(fs), src, dst)
        then o == Done && fs == Copied(old(fs), src, dst)
        else o == Failed && fs == old(fs)
    {
      if !IsDir(fs, src) {
        return Skipped(NotFound);
      }
      if dst in fs && !overwrite {
        return Skipped(DestinationExists);
      }
      if AncestorIsFile(fs, dst) || CopyConflict(fs, src, dst) {
        return Failed;
      }
      WfCopied(fs, src, dst);
      fs := Copied(fs, src, dst);
      o := Done;
    }
  }

  /** Renaming a file onto a free path inside a folder keeps the tree well
      formed. */
  lemma PutMovedFile(fs: Fs, src: Path, dst: Path)
    requires Wf(fs) && IsFile(fs, src) && dst !in fs && dst != [] && IsDir(fs, dst[..|dst| - 1])
    ensures Wf(MovedFile(fs, src, dst))
  {
    WfRemoveFile(fs, src);
    WfPutFile(fs - {src}, dst, fs[src]);
  }

  /** A movable folder can be relocated into the tree with the missing
      ancestors of the destination made. */
  lemma MovableFolder(fs: Fs, src: Path, dst: Path)
    requires Wf(fs) && FolderMovable(fs, src, dst) && dst != []
    ensures Wf(Relocated(WithAncestors(fs, dst), src, dst))
  {
    WfWithAncestors(fs, dst);
    var a := WithAncestors(fs, dst);
    assert dst !in StrictPrefixes(dst);
    WfRelocated(a, src, dst);
  }

  /** One more entry walked: the listing grows by it exactly when it is kept. */
  lemma ListedStep(fs: Fs, seen: set<Path>, q: Path, files: bool, dirs: bool)
    requires q !in seen
    ensures q in fs && ((files && fs[q].File?) || (dirs && fs[q].Dir?)) ==>
      multiset(Listed(fs, seen + {q}, files, dirs)) == multiset(Listed(fs, seen, files, dirs)) + multiset{q}
    ensures !(q in fs && ((files && fs[q].File?) || (dirs && fs[q].Dir?))) ==>
      Listed(fs, seen + {q}, files, dirs) == Listed(fs, seen, files, dirs)
  {
    if q in fs && ((files && fs[q].File?) || (dirs && fs[q].Dir?)) {
      assert Listed(fs, seen + {q}, files, dirs) == Listed(fs, seen, files, dirs) + {q};
      assert q !in Listed(fs, seen, files, dirs);
    }
  }

  /** What renaming a file does: the destination holds what the source
      held, the source is gone, every other entry is kept, and renaming onto
      a free path keeps the number of entries. */
  lemma MovedFileShape(fs: Fs, src: Path, dst: Path, q: Path)
    requires src in fs && src != dst
    ensures dst in MovedFile(fs, src, dst) && MovedFile(fs, src, dst)[dst] == fs[src]
    ensures src !in MovedFile(fs, src, dst)
    ensures q != src && q != dst ==>
      (q in MovedFile(fs, src, dst) <==> q in fs) && (q in fs ==> MovedFile(fs, src, dst)[q] == fs[q])
    ensures dst !in fs ==> |MovedFile(fs, src, dst).Keys| == |fs.Keys|
  {
    if dst !in fs {
      assert MovedFile(fs, src, dst).Keys == fs.Keys - {src} + {dst};
    }
  }

  /** One create_folder: the tree stays well formed, keeps every entry, and
      gains only folders on the way to `p`. */
  lemma CreateStepLaws(fs: Fs, p: Path)
    requires Wf(fs)
    ensures Wf(CreateStep(fs, p).1) && SubTree(fs, CreateStep(fs, p).1)
    ensures Reported(CreateStep(fs, p).1, p, CreateStep(fs, p).0)
    ensures CreateStep(fs, p).0 == Failed ==> AncestorIsFile(fs, p) && CreateStep(fs, p).1 == fs
    ensures forall q :: q in CreateStep(fs, p).1 && q !in fs ==> CreateStep(fs, p).1[q] == Dir && IsPrefix(q, p)
  {
    if p !in fs && !AncestorIsFile(fs, p) {
      WfWithAncestors(fs, p);
      WfMkdirParents(fs, p);
    }
  }

  /** create_folders stops at the first path that raises, every folder it
      reports made is a folder at the end and every path it skipped exists,
      nothing that existed changes, and each new entry is a folder at or
      above one of the paths handled. */
  lemma {:induction false} CreateAllLaws(fs: Fs, ps: seq<Path>)
    requires Wf(fs)
    ensures Wf(CreateAll(fs, ps).1)
    ensures |CreateAll(fs, ps).0| <= |ps|
    ensures |CreateAll(fs, ps).0| < |ps| ==> CreateAll(fs, ps).0 != [] && CreateAll(fs, ps).0[|CreateAll(fs, ps).0| - 1] == Failed
    ensures forall j :: 0 <= j < |CreateAll(fs, ps).0| - 1 ==> CreateAll(fs, ps).0[j] != Failed
    ensures forall j :: 0 <= j < |CreateAll(fs, ps).0| ==> Reported(CreateAll(fs, ps).1, ps[j], CreateAll(fs, ps).0[j])
    ensures SubTree(fs, CreateAll(fs, ps).1)
    ensures forall q :: q in CreateAll(fs, ps).1 && q !in fs ==>
      CreateAll(fs, ps).1[q] == Dir && exists j :: 0 <= j < |CreateAll(fs, ps).0| && IsPrefix(q, ps[j])
    decreases |ps|
  {
    if ps != [] {
      var st := CreateStep(fs, ps[0]);
      CreateStepLaws(fs, ps[0]);
      if st.0 != Failed {
        var rest := CreateAll(st.1, ps[1..]);
        CreateAllLaws(st.1, ps[1..]);
        var os := CreateAll(fs, ps).0;
        var last := CreateAll(fs, ps).1;
        assert os == [st.0] + rest.0 && last == rest.1;
        forall j | 0 <= j < |os| ensures Reported(last, ps[j], os[j]) {
          if j == 0 {
            assert Reported(st.1, ps[0], st.0);
          } else {
            assert ps[1..][j - 1] == ps[j];
          }
        }
        forall q | q in last && q !in fs
          ensures last[q] == Dir && exists j :: 0 <= j < |os| && IsPrefix(q, ps[j])
        {
          if q in st.1 {
            assert IsPrefix(q, ps[0]);
          } else {
            var j :| 0 <= j < |rest.0| && IsPrefix(q, ps[1..][j]);
            assert ps[1..][j] == ps[j + 1];
          }
        }
      }
    }
  }

  /** One remove_folder: the outcome follows the guards, and the tree
      loses exactly what lies at or below `p` (below it for the working
      directory). */
  lemma RemoveStepLaws(fs: Fs, p: Path, confirm: bool, force: bool, answer: string)
    requires Wf(fs)
    ensures Wf(RemoveStep(fs, p, confirm, force, answer).1)
    ensures SubTree(RemoveStep(fs, p, confirm, force, answer).1, fs)
    ensures RemoveStep(fs, p, confirm, force, answer).0 == Done ==> NothingAt(RemoveStep(fs, p, confirm, force, answer).1, p)
    ensures RemoveStep(fs, p, confirm, force, answer).0 == Failed ==>
      p == [] && RemoveStep(fs, p, confirm, force, answer).1 == map[[] := Dir]
    ensures RemoveStep(fs, p, confirm, force, answer).0 == Skipped(NotFound) ==> !IsDir(fs, p)
    ensures RemoveStep(fs, p, confirm, force, answer).0 == Skipped(Cancelled) ==> confirm && !force && !Confirmed(answer)
    ensures RemoveStep(fs, p, confirm, force, answer).0 in {Done, Failed, Skipped(NotFound), Skipped(Cancelled)}
    ensures forall q :: q in fs && q !in RemoveStep(fs, p, confirm, force, answer).1 ==>
      (RemoveStep(fs, p, confirm, force, answer).0 == Done || RemoveStep(fs, p, confirm, force, answer).0 == Failed) && IsPrefix(p, q)
  {
    var st := RemoveStep(fs, p, confirm, force, answer);
    if IsDir(fs, p) && !(confirm && !force && !Confirmed(answer)) {
      if p == [] {
        WfEmptied(fs, p);
        EmptiedPart(fs, p);
        assert st.1.Keys == {[]};
      } else {
        WfWithout(fs, p);
        WithoutPart(fs, p);
      }
    }
  }

  /** remove_folders stops at the first path that raises; each outcome
      follows remove_folder's guards; every folder reported removed is gone
      with everything below it; and every entry left was there before,
      unchanged, while every entry gone lay at or below a path handled. */
  lemma {:induction false} RemoveAllLaws(fs: Fs, ps: seq<Path>, confirm: bool, force: bool, answers: seq<string>)
    requires Wf(fs) && |answers| == |ps|
    ensures Wf(RemoveAll(fs, ps, confirm, force, answers).1)
    ensures |RemoveAll(fs, ps, confirm, force, answers).0| <= |ps|
    ensures |RemoveAll(fs, ps, confirm, force, answers).0| < |ps| ==>
      RemoveAll(fs, ps, confirm, force, answers).0 != [] &&
      RemoveAll(fs, ps, confirm, force, answers).0[|RemoveAll(fs, ps, confirm, force, answers).0| - 1] == Failed
    ensures forall j :: 0 <= j < |RemoveAll(fs, ps, confirm, force, answers).0| ==>
      RemoveOutcome(RemoveAll(fs, ps, confirm, force, answers), ps, confirm, force, answers, j)
    ensures SubTree(RemoveAll(fs, ps, confirm, force, answers).1, fs)
    ensures forall q :: q in fs && q !in RemoveAll(fs, ps, confirm, force, answers).1 ==>
      exists j :: 0 <= j < |RemoveAll(fs, ps, confirm, force, answers).0| &&
        (RemoveAll(fs, ps, confirm, force, answers).0[j] == Done || RemoveAll(fs, ps, confirm, force, answers).0[j] == Failed) &&
        IsPrefix(ps[j], q)
    decreases |ps|
  {
    if ps != [] {
      var st := RemoveStep(fs, ps[0], confirm, force, answers[0]);
      RemoveStepLaws(fs, ps[0], confirm, force, answers[0]);
      var r := RemoveAll(fs, ps, confirm, force, answers);
      if st.0 == Failed {
        assert RemoveOutcome(r, ps, confirm, force, answers, 0);
      } else {
        var rest := RemoveAll(st.1, ps[1..], confirm, force, answers[1..]);
        RemoveAllLaws(st.1, ps[1..], confirm, force, answers[1..]);
        assert r.0 == [st.0] + rest.0 && r.1 == rest.1;
        forall j | 0 <= j < |r.0| ensures RemoveOutcome(r, ps, confirm, force, answers, j) {
          if j == 0 {
            assert SubTree(r.1, st.1);
          } else {
            assert ps[1..][j - 1] == ps[j] && answers[1..][j - 1] == answers[j];
            assert RemoveOutcome(rest, ps[1..], confirm, force, answers[1..], j - 1);
          }
        }
        forall q | q in fs && q !in r.1
          ensures exists j :: 0 <= j < |r.0| && (r.0[j] == Done || r.0[j] == Failed) && IsPrefix(ps[j], q)
        {
          if q !in st.1 {
            assert r.0[0] == st.0 && IsPrefix(ps[0], q);
          } else {
            var j :| 0 <= j < |rest.0| && (rest.0[j] == Done || rest.0[j] == Failed) && IsPrefix(ps[1..][j], q);
            assert ps[1..][j] == ps[j + 1] && r.0[j + 1] == rest.0[j];
          }
        }
      }
    }
  }
}
