# easypath, modelled in Dafny

easypath is one flat Python module of file and folder helpers
(`easypath/main.py`). This project models the parts of it whose logic can be
stated without real I/O, and proves properties of them:

- **Path and extension helpers** (`get_extension`, `get_stem`, `get_name`,
  `get_parent`, `strip_extension`, `change_extension`, `ensure_extension`,
  `split_ext`, `path_split`, `path_join`, `path_parts`, and the dot
  normalisation of `find_files_by_extension`). Module `PathNames`
  (`paths.dfy`) and its lemmas in `PathLaws` (`path_laws.dfy`).
  - `pathlib` itself is written out as a model of POSIX pure paths, following Python 3.13 throughout:
    - parsing splits on `/` and drops empty and `.` parts;
    - the root `/` is kept as is, and exactly two leading slashes stay a root `//` of their own;
    - `str()` prints the root and the parts joined by `/`, or `.` when there is neither;
    - `suffix` is the text from the last dot of the name, unless that dot is its first or last character;
    - `with_suffix` raises `ValueError` for an empty name, for a non-empty suffix without a leading dot, and for the suffix `.`;
    - `with_suffix` also raises when the new name would contain a separator or be `.`.
  - A raised `ValueError` is the `ValueError` case of a `Result`.
- **`write_lines`** (module `Lines`): the written text is every line followed
  by the terminator, concatenated.
- **`set_perms`** (module `Perms`):
  - the POSIX mode word, built one flag at a time;
  - the Windows mapping onto one `icacls` deny or grant level, and the command lines it runs.
- **The folder and file operations** over an abstract tree (modules `Tree`,
  `TreeLaws`, `Prompt`, `FileSystem`):
  - The tree is a map from a path (a sequence of parts, relative to the working directory) to `File(size)` or `Dir`.
  - The working directory is the empty path and is always a folder. Every other entry sits in a folder (`Tree.Wf`, the invariant `Disk.Valid` of the class `FileSystem.Disk`).
  - Each operation is a method of `Disk` that updates the field `fs`. It returns an `Outcome`:
    - `Done`;
    - `Skipped(reason)`, where easypath prints a message and returns;
    - `Failed`, where an exception escapes.
  - The contracts give the new tree for every branch, including the ones that leave it unchanged. `create_folders` and `remove_folders` are specified as folds of one call over the list (`FileSystem.CreateAll`, `FileSystem.RemoveAll`) that stop at the first call that raises, as the exception ends the loop.
  - The lemmas of `TreeLaws` say what those new trees are: exactly which entries go, what stays, and that the tree stays well formed.

Enumeration order of `iterdir` and `rglob` is not specified, so listings are
stated as multisets of entries.

Where a move or copy has the same source and destination and `overwrite` is
set, the model says what the code does:
- `move_file`, `copy_file` and `move_folder` first delete the destination, which is the source.
- The call then fails, and the source is gone.

The contracts of `Disk.MoveFile`, `Disk.CopyFile` and `Disk.MoveFolder` state this.

## Model

| member | source | states |
|---|---|---|
| PathNames.Parse | easypath/main.py:17-18 | `Path(s)` gives a root that is "", "/" or "//", and parts that are non-empty, not "." and slash-free |
| PathLaws.ParseStr | easypath/main.py:17-18 | for every parsed path, parsing its `str()` gives the same path back |
| PathLaws.NormalFormIdempotent | easypath/main.py:17-18 | `str(Path(s))` is a normal form: normalising it again changes nothing |
| PathLaws.ParseDropsEmptyParts | easypath/main.py:17-18 | `Path(s)` drops `.` pieces, doubled separators and a trailing separator: `a/./b`, `a//b` and `a/b` parse alike, `a/` parses as `a`, and `.` parses as the empty path |
| PathNames.Str | easypath/main.py:17-18 | `str()` of a pure path; `PathLaws.ParseStr` proves that parsing it gives the path back |
| PathNames.Suffix | easypath/main.py:592-593 | `PurePath.suffix`; `PathLaws.SuffixShape` states its shape |
| PathNames.Stem | easypath/main.py:613-614 | `PurePath.stem`; `PathLaws.SuffixShape` proves stem + suffix is the name |
| PathNames.WithSuffix | easypath/main.py:597 | `PurePath.with_suffix`, with its `ValueError` cases; `PathLaws.WithSuffixShape` states what a success gives |
| PathNames.GetExtension | easypath/main.py:592-593 | `get_extension` is the suffix of the name; characterised by `PathLaws.SuffixShape` |
| PathNames.GetStem | easypath/main.py:613-614 | `get_stem` is the stem of the name; characterised by `PathLaws.SuffixShape` and `PathLaws.SplitExtConcat` |
| PathNames.GetName | easypath/main.py:617-618 | `get_name` is the last part; characterised by `PathLaws.NameValid` |
| PathNames.GetParent | easypath/main.py:621-622 | `get_parent` is `str()` of the parent; characterised by `PathLaws.PathSplitJoin` |
| PathNames.StripExtension | easypath/main.py:596-597 | `strip_extension`, `ValueError` included; characterised by `PathLaws.StripExtensionIsStem` |
| PathNames.ChangeExtension | easypath/main.py:600-602 | `change_extension`; characterised by `PathLaws.ChangeExtensionFails` and `PathLaws.ChangeExtensionSuffix` |
| PathNames.EnsureExtension | easypath/main.py:605-610 | `ensure_extension` as written; characterised by `PathLaws.EnsureExtensionOk`, `PathLaws.EnsureExtensionIdempotent`, `PathLaws.EnsureExtensionReplaces` and `PathLaws.EnsureExtensionDoubleDot` |
| PathNames.EnsureExtensionFixed | easypath/main.py:605-610 | `ensure_extension` as evidently intended; characterised by `PathLaws.EnsureExtensionFixedIdempotent` |
| PathNames.SplitExt | easypath/main.py:643-645 | `split_ext` is the stem and the suffix; characterised by `PathLaws.SplitExtConcat` |
| PathNames.PathSplit | easypath/main.py:638-640 | `path_split` is the parent and the name; characterised by `PathLaws.PathSplitJoin` |
| PathNames.PathParts | easypath/main.py:648-649 | `path_parts` is the root, if any, then the parts; characterised by `PathLaws.PathPartsJoin` |
| PathNames.PathJoin | easypath/main.py:629-635 | `path_join`, folding `/` from the left and "" for no parts; characterised by `PathLaws.DivAllParts` and `PathLaws.PathPartsJoin` |
| PathNames.NormalizeExtension | easypath/main.py:270-272 | the normalised extension starts with a dot; an extension that has one is kept, otherwise a dot is put in front |
| PathLaws.NormalizeExtensionIdempotent | easypath/main.py:606 | normalising twice is normalising once |
| PathNames.LastDot | easypath/main.py:592-593 | the position of the last dot (`rfind`): a dot there, none after it, -1 when there is none |
| PathLaws.SuffixShape | easypath/main.py:592-593 | a non-empty suffix is a dot and at least one more character, none of them a dot; a non-empty name has a non-empty stem; stem + suffix is the name |
| PathLaws.SplitExtConcat | easypath/main.py:643-645 | the two halves of `split_ext` concatenate to the name, and the extension is empty or starts with a dot |
| PathLaws.StripExtensionIsStem | easypath/main.py:596-597 | `strip_extension` is `get_stem` when the name is non-empty and the stem is not "."; otherwise it raises `ValueError` |
| PathLaws.NameValid | easypath/main.py:617-618 | `get_name` is empty or a valid part |
| PathLaws.SuffixOfAppended | easypath/main.py:600-602 | a simple extension put after a stem becomes its suffix, and the stem is kept |
| PathLaws.WithSuffixShape | easypath/main.py:600-602 | a successful `with_suffix` keeps the root and the parent, and names the result stem + new suffix |
| PathLaws.ChangeExtensionFails | easypath/main.py:600-602 | `change_extension` raises exactly when the name is empty, or the normalised extension is "." or holds a "/" |
| PathLaws.ChangeExtensionSuffix | easypath/main.py:600-602 | with a simple extension, the result has that extension as its suffix, and keeps the stem and the parent |
| PathLaws.EnsureExtensionOk | easypath/main.py:605-610 | with a simple extension, `ensure_extension` raises `ValueError` exactly when the path has no name |
| PathLaws.EnsureExtensionIdempotent | easypath/main.py:605-610 | with a simple extension and a path with a name, `ensure_extension` succeeds, the result has that suffix, and a second call returns the same path |
| PathLaws.EnsureExtensionReplaces | easypath/main.py:605-610 | a name made of a stem and a simple extension other than the wanted one gets the wanted extension in its place |
| PathLaws.EnsureExtensionDoubleDot | easypath/main.py:605-610 | as written, "a.tar.gz" with "tar.gz" becomes "a.tar.tar.gz", and that becomes "a.tar.tar.tar.gz" |
| PathLaws.EnsureExtensionFixedIdempotent | easypath/main.py:605-610 | the corrected `ensure_extension` ends the name with the normalised extension, for every extension, and a second call returns the same |
| PathLaws.PathSplitJoin | easypath/main.py:638-640 | joining the parent and the name from `path_split` gives back the normalised path |
| PathLaws.DivAllParts | easypath/main.py:629-635 | joining relative valid parts onto a path appends them to its parts |
| PathLaws.PathPartsJoin | easypath/main.py:648-649 | `path_join` of a non-empty `path_parts` gives back the normalised path |
| Lines.JoinTerminatedAppend | easypath/main.py:130 | the text of `a + b` is the text of `a` followed by the text of `b` |
| Lines.SplitJoinTerminated | easypath/main.py:130 | with a one-character terminator that no line contains, splitting the text at that character (a reader of this model, not `str.splitlines()`) gives the lines back |
| Lines.WriteLinesFixedReadBack | easypath/main.py:122-131 | with the corrected terminator, the text of `newline=None` or `"\n"` for lines without a "\n" splits back at "\n" into the lines; `read_lines` uses `str.splitlines()`, which also splits at "\r" and other line breaks, and is not modelled |
| Lines.WriteLinesNone | easypath/main.py:130 | as written, `newline=None` writes "aNonebNone" for ["a", "b"], which reads back as one line |
| Lines.WriteLinesData | easypath/main.py:130 | the text `write_lines` builds, as written; characterised by `Lines.JoinTerminatedAppend` and `Lines.WriteLinesNone` |
| Lines.WriteLinesDataFixed | easypath/main.py:122-131 | the text with `None` read as "\n"; characterised by `Lines.WriteLinesFixedReadBack` |
| Perms.PosixMode | easypath/main.py:565-571 | the mode built flag by flag is the OR of 0o444, 0o222 and 0o111 for the flags set; each group is present exactly when its flag is set; the mode is at most 0o777 |
| Perms.ModeLossless | easypath/main.py:565-571 | the mode is at most 0o777, is 0 exactly when no flag is set, and determines the three flags |
| Perms.ModeOf | easypath/main.py:565-571 | the POSIX mode of three flags; `Perms.PosixMode` and `Perms.ModeLossless` state what it is |
| Perms.AclPlanOf | easypath/main.py:543-555 | deny exactly when no flag is set; F for r, w and x; M for r and w without x; R for r without w, or x alone; W for w without r |
| Perms.AclLossy | easypath/main.py:546-555 | read alone and execute alone give the same grant; without read, execute is dropped |
| Perms.IcaclsCommands | easypath/main.py:543-559 | every command line is `icacls <target> ..`; a deny is one command; a grant first removes the deny entry, then grants the level's code |
| Perms.SetPerms | easypath/main.py:532-573 | nothing for a missing target; on Windows the `icacls` commands of the mapping; elsewhere `chmod` with the mode |
| Prompt.StripStart | easypath/main.py:161 | the result is a suffix of the input, does not start with whitespace, and everything dropped is whitespace |
| Prompt.StripEnd | easypath/main.py:161 | the result is a prefix of the input, does not end with whitespace, and everything dropped is whitespace |
| Prompt.Strip | easypath/main.py:161 | `str.strip()` over the whitespace class `IsSpace`; characterised by `Prompt.StripStart` and `Prompt.StripEnd` |
| Prompt.Confirmed | easypath/main.py:161-162 | the prompt test `choice == "y"`; characterised by `Prompt.ConfirmedMeans` |
| Prompt.ConfirmedMeans | easypath/main.py:155-164 | the prompt accepts an answer exactly when it is one "y" or "Y" (`LoneY`) with only whitespace around it, both directions |
| TreeLaws.PrefixCases | easypath/main.py:170-176 | a path is at or below another exactly when it is that path or lies strictly below it |
| Tree.Without | easypath/main.py:170-176 | what `remove_folder` leaves; characterised by `TreeLaws.WithoutPart` and `TreeLaws.WfWithout` |
| Tree.Emptied | easypath/main.py:185-195 | what `empty_folder` leaves; characterised by `TreeLaws.EmptiedShape`, `TreeLaws.EmptiedPart` and `TreeLaws.WfEmptied` |
| Tree.MkdirParents | easypath/main.py:137 | `mkdir(parents=True)`; characterised by `TreeLaws.WfMkdirParents` and `TreeLaws.WfWithAncestors` |
| Tree.Image | easypath/main.py:341 | the subtree placed at a new path; characterised by `TreeLaws.ImageAt`, `TreeLaws.ImageKey` and `TreeLaws.ImageShape` |
| Tree.Relocated | easypath/main.py:376 | the tree after a folder rename; characterised by `TreeLaws.RelocatedShape` and `TreeLaws.WfRelocated` |
| Tree.Copied | easypath/main.py:341 | the tree after `copytree`; characterised by `TreeLaws.CopiedShape` and `TreeLaws.WfCopied` |
| TreeLaws.AncestorIsDir | easypath/main.py:170-176 | in a well-formed tree, every ancestor of an entry is a folder |
| TreeLaws.FileIsLeaf | easypath/main.py:170-174 | nothing lies below a file, so unlinking it removes just that entry |
| TreeLaws.NoEntryBelowFile | easypath/main.py:134-140 | no entry exists below a file |
| TreeLaws.EmptyIffNoDescendants | easypath/main.py:286-291 | a folder has no entry exactly when nothing lies below it |
| TreeLaws.WfWithout | easypath/main.py:170-176 | removing a subtree other than the working directory keeps the tree well formed |
| TreeLaws.WfEmptied | easypath/main.py:185-195 | emptying a folder keeps the tree well formed |
| TreeLaws.WithoutPart | easypath/main.py:148-177 | after removing a subtree, every entry left was there before, unchanged, and none is at or below the removed path |
| TreeLaws.EmptiedPart | easypath/main.py:185-195 | after emptying a folder, every entry left was there before, unchanged, and none lies below it |
| TreeLaws.EmptiedMinus | easypath/main.py:176 | removing a subtree is emptying the folder, then removing the folder itself |
| TreeLaws.EmptiedShape | easypath/main.py:185-195 | an emptied folder has no entry and nothing below it, and every entry not below it is kept |
| TreeLaws.StripStep | easypath/main.py:170-174 | removing one more entry's subtree is removing it from what is left |
| TreeLaws.StripNone | easypath/main.py:170 | removing no subtree changes nothing |
| TreeLaws.StripChildren | easypath/main.py:170-176 | removing the subtree of every entry of a folder empties that folder |
| TreeLaws.SiblingKept | easypath/main.py:170-174 | an entry not yet handled is untouched by the removal of its siblings |
| TreeLaws.DescendantsShrink | easypath/main.py:172 | an entry below a folder has fewer entries below it than the folder, so the recursion ends |
| TreeLaws.Partition | easypath/main.py:310-315 | the entries counted are the files counted plus the folders counted |
| TreeLaws.TotalSizeRemove | easypath/main.py:324 | the total size is the size of one entry plus the total of the rest |
| TreeLaws.TotalSizeAdd | easypath/main.py:324 | adding an entry adds its size to the total |
| TreeLaws.TotalSizeFiles | easypath/main.py:324 | summing over the files alone gives the same total as summing over every entry |
| TreeLaws.RemovalCount | easypath/main.py:155-176 | a proceeding removal removes the folder and exactly the files and folders the prompt counts |
| TreeLaws.WfWithAncestors | easypath/main.py:137 | making the missing ancestors in a tree with no file on the way keeps it well formed, makes every ancestor a folder, and keeps every entry |
| TreeLaws.WfMkdirParents | easypath/main.py:137 | `mkdir(parents=True)` of a missing path with no file on the way keeps the tree well formed and makes the path a folder |
| TreeLaws.WfRemoveFile | easypath/main.py:409-416 | unlinking a file keeps the tree well formed |
| TreeLaws.WfPutFile | easypath/main.py:495-512 | putting a file in a folder, where no folder is, keeps the tree well formed |
| TreeLaws.ImageAt | easypath/main.py:376 | every entry of the moved subtree lands at the new place with the same kind |
| TreeLaws.ImageKey | easypath/main.py:376 | every entry at the new place comes from the moved subtree |
| TreeLaws.ImageShape | easypath/main.py:376 | below the new place there is an entry exactly where the old subtree had one, of the same kind |
| TreeLaws.SubtreeParent | easypath/main.py:376 | the parent of an entry below a folder is a folder at the same relative place |
| TreeLaws.ParentInImage | easypath/main.py:376 | inside the moved subtree, every parent is a folder |
| TreeLaws.NothingBelowFresh | easypath/main.py:372-376 | nothing lies below a path that does not exist |
| TreeLaws.RelocatedParentOfImage | easypath/main.py:376 | after a rename, every parent inside the renamed subtree is a folder |
| TreeLaws.RelocatedParentOfKept | easypath/main.py:376 | after a rename, every parent outside the renamed subtree is still a folder |
| TreeLaws.WfRelocated | easypath/main.py:376 | renaming a folder onto a free path in a folder, not inside itself, keeps the tree well formed |
| TreeLaws.RelocatedShape | easypath/main.py:376 | after a rename, the new place holds what the old place held, the old subtree is gone, and every other entry is kept |
| TreeLaws.WfCopied | easypath/main.py:341 | a copy with no clash and no file on the way keeps the tree well formed |
| TreeLaws.CopiedShape | easypath/main.py:341 | after a copy, the destination holds the source's entries, entries of the destination the source lacks are kept, and everything outside the destination is kept |
| FileSystem.MovedFileShape | easypath/main.py:438 | after a file rename, the destination holds the file, the source is gone, all else is kept, and the number of entries is unchanged |
| FileSystem.PutMovedFile | easypath/main.py:438 | renaming a file onto a free path in a folder keeps the tree well formed |
| FileSystem.MovableFolder | easypath/main.py:360 | a movable folder can be relocated, with the destination's missing ancestors made, keeping the tree well formed |
| FileSystem.Touched | easypath/main.py:405 | a touch that does not fail leaves an entry at the path; a failing one and one on an existing entry change nothing |
| FileSystem.Disk.FolderExists | easypath/main.py:279-283 | true exactly for a folder, and never for a file |
| FileSystem.Disk.FileExists | easypath/main.py:419-423 | true exactly for a file |
| FileSystem.Disk.IsEmptyDir | easypath/main.py:286-291 | true exactly for a folder with no entry, that is with nothing below it |
| FileSystem.Disk.GetFileSize | easypath/main.py:463-472 | the size of a file, and 0 for anything else |
| FileSystem.Disk.GetFileInfo | easypath/main.py:475-492 | for a file: its name, path and size, with the extension the `suffix` and the stem the `stem` of the name, stem + extension the name, and the extension empty or a dot followed by no dot; otherwise the empty record |
| FileSystem.Disk.Tally | easypath/main.py:299 | counting one by one gives the number of entries of the kind |
| FileSystem.Disk.CountFiles | easypath/main.py:294-299 | the number of files among the entries (recursive: descendants), and 0 for a path that is no folder |
| FileSystem.Disk.CountFolders | easypath/main.py:302-307 | the number of folders among the entries (recursive: descendants), and 0 for a path that is no folder |
| FileSystem.Disk.CountEntries | easypath/main.py:310-315 | the number of entries (recursive: descendants), which is the file count plus the folder count; 0 for a path that is no folder |
| FileSystem.Disk.GetFolderSize | easypath/main.py:318-326 | the sum of the sizes of the files below the folder, and 0 for a path that is no folder |
| FileSystem.Disk.Walk | easypath/main.py:243-250 | the walk visits each entry a listing keeps exactly once |
| FileSystem.Disk.ListPaths | easypath/main.py:231-251 | the names of exactly the files (when included) and folders (when included), each entry once; nothing for a path that is no folder |
| FileSystem.Disk.ListFolders | easypath/main.py:198-205 | the names of exactly the folders among the entries (recursive: descendants), each once |
| FileSystem.Disk.ListFiles | easypath/main.py:212-224 | the names of exactly the files among the entries (recursive: descendants), each once |
| FileSystem.Disk.ReadDirTree | easypath/main.py:739-751 | `str()` of exactly the entries at most `max_depth` levels below, each once; nothing for a path that is no folder |
| FileSystem.Disk.FindFilesByExtension | easypath/main.py:270-272 | the names of exactly the files below the path whose name ends with the normalised extension, each once |
| FileSystem.Disk.GetFolderInfo | easypath/main.py:381-398 | for a folder: its name, path, total file size and recursive counts; otherwise `FolderInfo("", path, 0, False, 0, 0)` |
| FileSystem.CreateStep | easypath/main.py:134-140 | one `create_folder` on the tree: skipped when the path exists, a raise when a file is on the way, else `mkdir(parents=True)`; characterised by `FileSystem.CreateStepLaws` |
| FileSystem.CreateAll | easypath/main.py:143-145 | `create_folders` as a fold of `FileSystem.CreateStep` that ends at the first raise; characterised by `FileSystem.CreateAllLaws` |
| FileSystem.RemoveStep | easypath/main.py:148-177 | one `remove_folder` on the tree past the dry run: not found, cancelled, the working directory emptied then a raise, or the subtree removed; characterised by `FileSystem.RemoveStepLaws` |
| FileSystem.RemoveAll | easypath/main.py:180-182 | `remove_folders` as a fold of `FileSystem.RemoveStep` that ends at the first raise; characterised by `FileSystem.RemoveAllLaws` |
| FileSystem.Disk.CreateFolder | easypath/main.py:134-140 | the step `FileSystem.CreateStep`: an existing path is skipped and nothing changes; a missing one is made with its missing ancestors, unless a file is on the way (raises, nothing changes); existing entries are kept |
| FileSystem.Disk.CreateFolders | easypath/main.py:143-145 | the outcomes and the new tree are `FileSystem.CreateAll`: one `create_folder` after another, stopping after the first that raises |
| FileSystem.CreateStepLaws | easypath/main.py:134-140 | one `create_folder` keeps the tree well formed and every entry; a raise means a file is on the way and nothing changed; every new entry is a folder at or above the path |
| FileSystem.CreateAllLaws | easypath/main.py:143-145 | `create_folders` reports at most one outcome per path, stops only right after a raise and never continues past one, keeps the tree well formed and every entry, reports each made or skipped path truthfully, and adds only folders at or above a path it handled |
| FileSystem.Disk.EnsureDir | easypath/main.py:42-45 | an existing folder is accepted when `exist_ok`; anything else existing raises; a missing path is made unless a file is on the way, or its parent is missing and `parents` is false |
| FileSystem.Disk.RemoveFolder | easypath/main.py:148-177 | a dry run that passed the guards changes nothing; otherwise the step `FileSystem.RemoveStep`: no change for a missing path or a cancelled prompt; the working directory is emptied and then `rmdir` raises; otherwise the folder and exactly what lies below it go, all else unchanged |
| FileSystem.Disk.RemoveFolders | easypath/main.py:180-182 | the outcomes and the new tree are `FileSystem.RemoveAll`: one `remove_folder` after another, each with its own prompt answer, stopping after the first that raises |
| FileSystem.RemoveStepLaws | easypath/main.py:148-177 | one `remove_folder` keeps the tree well formed and removes only entries; "removed" leaves nothing at or below the path, "not found" means no folder there, "cancelled" means a prompt that was refused, and only the working directory raises, leaving just itself |
| FileSystem.RemoveAllLaws | easypath/main.py:180-182 | `remove_folders` reports at most one outcome per path and stops only right after a raise; each outcome matches its guard as for one call; the tree stays well formed, entries are only removed, and each removed entry lies at or below a path that was removed or raised |
| FileSystem.Disk.RemoveTree | easypath/main.py:170-176 | the recursive `remove_folder(item, confirm=False, force=True)` on a folder other than the working directory: the folder and exactly what lies below it go, all else unchanged |
| FileSystem.Disk.RemoveChildren | easypath/main.py:170-174 | everything below the folder goes; the folder and everything else stay |
| FileSystem.Disk.EmptyFolder | easypath/main.py:185-195 | no change for a path that is no folder; otherwise everything below goes, the folder stays, and it is then empty |
| FileSystem.Disk.TouchFile | easypath/main.py:401-406 | with `parents`, the parent is made first (raises when a file is in the way); an existing entry is kept when `exist_ok`, else raises; a missing one becomes an empty file in a folder |
| FileSystem.Disk.RemoveFile | easypath/main.py:409-416 | a file is unlinked and nothing else changes; anything else is left alone |
| FileSystem.Disk.RenameFolder | easypath/main.py:364-378 | no change for a missing source or an existing destination; raises for a destination inside the folder or without a parent folder; otherwise the subtree is renamed |
| FileSystem.Disk.RenameFile | easypath/main.py:426-440 | no change for a missing source or an existing destination; raises without a parent folder; otherwise the file is renamed |
| FileSystem.Disk.MoveFile | easypath/main.py:443-460 | guards leave the tree alone; with `overwrite`, a file at the destination is unlinked first and a folder there raises; a file moved onto itself is lost; otherwise the file is renamed |
| FileSystem.Disk.CopyFile | easypath/main.py:495-512 | as move_file, except the source stays and the destination gets its content |
| FileSystem.Disk.MoveFolder | easypath/main.py:345-361 | guards leave the tree alone; with `overwrite`, a folder at the destination is removed first; the move succeeds exactly when no entry is left at the destination, the destination is not inside the source and no file is in its way; it makes the missing ancestors |
| FileSystem.Disk.CopyFolder | easypath/main.py:329-342 | guards leave the tree alone; the merge succeeds exactly when no file is in the destination's way and no entry clashes; then the destination holds the source's entries |

## Left out

- Byte and text I/O are not modelled: `read_text`, `write_text`, `append_text`, the `*_bytes` functions, `read_lines`, and the JSON and CSV functions. They rest on codecs and on the `json`/`csv` libraries. `write_lines` is modelled only as the text it hands to `write_text`.
- Lines.WriteLinesFixedReadBack and Lines.SplitJoinTerminated read the text back with `Lines.SplitTerminated`, a split at the terminator character, not with `str.splitlines()` as `read_lines` does; `splitlines()` also splits at "\r", "\x0b", "\x0c", "\x1c"-"\x1e", "\x85" and "\u2028"/"\u2029", so the read-back holds for `read_lines` only for lines free of those characters.
- Console output is dropped, and `input()` is the `answer` parameter of `Disk.RemoveFolder` (one answer per folder for `Disk.RemoveFolders`). The `EOFError` that `input()` raises at the end of its input is not modelled. The file and folder counts printed with the prompt appear only in `TreeLaws.RemovalCount`.
- Running `icacls` and `chmod`, `get_perms` (`os.access`) and `get_disk_usage` are operating-system calls. Only the decisions that feed them are modelled. The `PermissionError` handling of `set_perms` only prints. `platform.system()` is the `system` parameter of `Perms.SetPerms`, and the existence test is the `targetExists` parameter.
- Some functions depend on the process environment: `absolute_path`, `resolve_path`, `expand_path`, `relative_path`, `as_posix_path`, `as_uri`, `currentdir`, `list_all` and `get_drive`. They need the working directory, the home directory, symlink resolution or Windows drive rules.
- `glob_paths`, `rglob_paths` and `find_files_by_name` are left out. Their meaning is `fnmatch` pattern matching.
- FileSystem.Disk.FindFilesByExtension matches the extension literally against a file's name. Glob metacharacters (`*`, `?`, `[`) in it are not interpreted, and an extension holding a `/` matches no name, where the `rglob` pattern would match across path components.
- `ensure_file`, `ensure_parent_dir`, `write_*` with `parents`, `create_symlink` and symlinks in general are left out. Folder creation before a write is `Disk.EnsureDir`, and `Disk.TouchFile` uses it.
- `list_folders_recursive` and `list_files_recursive` are `Disk.ListFolders` and `Disk.ListFiles` with `recursive` set.
- Only paths relative to the working directory are modelled: the tree's paths are sequences of parts from there. `PathNames` handles rooted strings, the disk does not.
- `PathNames` follows POSIX paths. Windows drives and backslashes are not modelled.
- `PathNames.WithSuffix` follows Python 3.13, the one version the model follows: it raises `ValueError` for the suffix `.` and when the new name would be `.` (for example "..x" with its suffix stripped). Python 3.12 instead returns a path named `.` in the second case, and Python 3.14 accepts the suffix `.`.
- FileSystem.Disk.CopyFolder leaves the tree unchanged when some entry clashes. `shutil.copytree` copies the other entries before it raises.
- FileSystem.Disk.CopyFolder also treats a file meeting a folder at the destination as a clash. There, `shutil.copy2` would copy the file into that folder.
- FileSystem.Disk.CopyFolder reads the source as it is before the copy starts. A destination inside the source, one level below a folder that already exists there, would make `copytree` read its own output.
- FileSystem.Disk.MoveFolder and FileSystem.Disk.RenameFolder do not model moves across filesystems beyond their effect. Metadata kept by `copy2`/`copystat` is not modelled, and file contents are only sizes.
- Partial effects of a failing operating-system call are not modelled, beyond the unlink and the folder removal that happen before the failing `shutil` call.

## Findings

| source | as written | input that shows it | evidently intended | confidence | as-written member | corrected member |
|---|---|---|---|---|---|---|
| easypath/main.py:605-610 | ensure_extension compares `path.suffix`, which is only the text after the last dot, with the whole extension | "a.tar.gz" with "tar.gz" gives "a.tar.tar.gz"; ensuring again gives "a.tar.tar.tar.gz" | a name already ending with the extension is left as it is, so ensuring twice is ensuring once | not executed | PathLaws.EnsureExtensionDoubleDot | PathLaws.EnsureExtensionFixedIdempotent |
| easypath/main.py:122-131 | write_lines formats each line as `f"{line}{newline}"`, so `newline=None` writes the word "None" after each line | ["a", "b"] with `newline=None` writes "aNonebNone" | `None` means the default line ending, so the text reads back as the lines | not executed | Lines.WriteLinesNone | Lines.WriteLinesFixedReadBack |
