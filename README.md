# Arrangify: the folder registry and the file-arranging pass

Arrangify is a small Tk desktop tool (`main.py`). It sorts the files of a
source directory into sub-folders of a destination directory by file type.
This project models its core in Dafny and proves properties of that model:

- **Folder registry.** The module-level `folders` list starts as `['None']`.
  `add_folder` appends a name unless that exact name is already listed.
  `Registry.FolderRegistry` is a class over a `seq<string>`.
  It keeps the invariant that the list starts with the sentinel and has no
  duplicates.
- **Category table.** `file_types` has six categories. Each has an ordered
  tuple of extensions, iterated in declaration order. `Categories` holds the
  literal table and proves that no extension is listed under two categories, that the
  category names are distinct, and that every extension is a '.' followed by
  one or more characters that are neither '.' nor '/', and that every
  extension is spelled in lower case.
- **Path text.** `PathText` models the string operations `arrange_files`
  uses:
  - `str.rfind`;
  - the slice `s[s.rfind('.'):]`, including its behaviour when the path has
    no '.' (it yields the last character);
  - the base name a moved file keeps.
- **The pass, as values.** `Plans` states the pass declaratively:
  - the routing table (`types_and_folders`);
  - the moves of one file against the table (`CategoryMoves`; the inner loop
    has no `break`);
  - the moves of a pass over a snapshot of the source (`Plan`);
  - the effect of moves on an abstract filesystem (`Step`, `Run`).

  The lemmas about these are the properties the tool promises. A directory is
  never moved. A file leaves the source exactly when a routed category claims
  its extension, and then sits in that category's folder. Each file moves at
  most once. Only routed folders are created. All-sentinel selections change
  nothing. Matching is exact and case-sensitive.
- **The pass, as a procedure.** `Arranger` models `arrange_files` in the
  source's own imperative form:
  - a `Disk` class whose `source` and `dirs` fields are updated by
    `MakeDirs` (`os.makedirs`) and `MoveInto` (`shutil.move`);
  - nested loops over the snapshot and the category table.

  `Arranger.Arrange` is proved to leave the disk exactly as
  `Run(old state, Plan(old source, …))` says. The `Plans` lemmas then apply
  to `Arranger.Arrange`.

The abstract filesystem `Plans.Fs` has two parts:
- the entries of the source directory (path and "is a regular file");
- a map from every existing folder path, written as the string `os.path.exists`
  receives, to the names of the files placed in it.

Paths are plain strings with '/' as separator.

The sentinel is the exact string `'None'`, and extensions are compared
exactly, case included.

## Model

| member | source | states |
|---|---|---|
| Registry.FolderRegistry.constructor | main.py:12 | The registry starts as the one-element list holding the sentinel `'None'`, and satisfies its invariant (sentinel first, no duplicates). |
| Registry.FolderRegistry.Add | main.py:74-84 | Succeeds exactly when the name is not already listed (exact comparison, sentinel included). On success the name is appended at the end; on failure the list is unchanged. Afterwards the name is listed. The no-duplicates invariant is preserved. |
| Registry.RegisterTwice | main.py:74-80 | On a fresh registry the first registration succeeds unless the name is the sentinel. A second registration of the same name is always refused. The name is then listed exactly once. |
| PathText.LastIndexOf | main.py:110 | `str.rfind`: the result is -1 exactly when the character is absent. Otherwise it is an index holding the character, with no occurrence after it. |
| PathText.Extension | main.py:110 | The slice `s[s.rfind('.'):]` is a suffix of the path. With a '.' present it starts at the last '.' and holds no other '.'. Without a '.' it is one character long, or empty for the empty path. |
| PathText.DotlessExtension | main.py:110 | For a non-empty path with no '.', the "extension" is the path's last character. |
| PathText.ExtensionOfSplit | main.py:110 | A path ending in '.' + a dot-free tail has exactly that '.'-tail as its extension, whatever precedes it. |
| PathText.BaseNameSpec | main.py:119 | The name a moved file keeps is the part of its path after the last '/': a '/'-free suffix, preceded by a '/' whenever it is shorter than the path, and the whole path when the path has no '/'. |
| PathText.DotlessBaseName | main.py:110 | When the file's own name has no '.', the sliced extension either contains a '/' (the last '.' is in a directory name) or is at most one character. |
| Categories.FileTypesDisjoint | main.py:14-21 | No extension appears under two categories of the table. |
| Categories.FileTypesWellFormed | main.py:14-21 | Every listed extension is '.' followed by one or more characters, with no further '.' and no '/'. |
| Categories.FileTypesNamesDistinct | main.py:14-21 | The six category names are pairwise distinct. |
| Categories.CategoryLowerCase | main.py:14-21 | No category lists a string holding an upper-case letter: the table is spelled in lower case. |
| Plans.Routes | main.py:104 | The routing table holds exactly the selections whose folder is not `'None'`, with their folder names unchanged. |
| Plans.TargetFolderInjective | main.py:114 | Under one destination, `f"{destination}/{name}/"` gives equal folders exactly for equal names. |
| Plans.RemoveSpec | main.py:119 | Moving a path away keeps exactly the entries with other paths, and keeps paths distinct. |
| Plans.CategoryMovesSound | main.py:112-119 | Every move the inner loop makes is of the file itself, into the folder of a routed category that claims its extension. |
| Plans.CategoryMovesComplete | main.py:112-119 | Every routed category that claims the extension produces a move of the file into that category's folder. |
| Plans.CategoryMovesAtMostOne | main.py:112-119 | Over pairwise-disjoint categories the inner loop, which has no `break`, makes at most one move. |
| Plans.EarlierCategoriesSilent | main.py:112-113 | When a category claims the extension, the categories before it in a disjoint table make no move. So the file is still in place when its category is reached. |
| Plans.EntryMovesSpec | main.py:108-119 | An entry gets at most one move, under its own path. It is moved into a folder exactly when it is a regular file whose extension a routed category claims, with that category's folder as the target. It gets no move exactly when it is not matched. |
| Plans.DotlessNameNeverMatched | main.py:110-113 | A file whose own name has no '.' is never moved. This holds even though the sliced "extension" is then a stray character or crosses a '/'. |
| Plans.PdfMatchedWhenDocumentsRouted | main.py:110-113 | A regular file whose path ends in ".pdf" is matched exactly when "documents" is routed. |
| Plans.UpperCaseExtensionNeverMatched | main.py:110-113 | Any file whose sliced extension holds an upper-case letter is never matched, because comparison is exact and case-sensitive. |
| Plans.UpperCasePdfNeverMatched | main.py:110-113 | A regular file whose path ends in ".PDF" is never matched, whatever precedes it. |
| Plans.PlanMembership | main.py:108-119 | A move belongs to the pass exactly when it belongs to the moves of some entry of the snapshot. |
| Plans.NoRoutesNoMoves | main.py:104-113 | With an empty routing table the pass plans no moves. |
| Plans.AllSentinelIsNoop | main.py:104 | When every selection is `'None'`, the routing table is empty and the pass leaves the filesystem exactly as it was. |
| Plans.PlanMovesEachFileOnce | main.py:108-119 | In a pass over a snapshot with distinct paths, no two moves are of the same path. |
| Plans.RunSource | main.py:119 | After a run of moves an entry is still in the source exactly when it was there and no move names its path. Distinct paths stay distinct. |
| Plans.StepDirs | main.py:116-119 | One move adds its target to the existing folders, creating it empty when absent. It appends the moved file's base name to that folder and to no other. |
| Plans.RunFolders | main.py:116-117 | After a run a folder exists exactly when it existed before or some move targets it. |
| Plans.UntouchedFolder | main.py:116-119 | A folder absent after a run was absent before and received no file. |
| Plans.RunContents | main.py:116-119 | After a run a folder holds its earlier contents (none if created) followed by the base names moved into it, in move order. |
| Plans.NamesIntoHolds | main.py:119 | Each move leaves the moved file's base name among the names its target folder receives. |
| Plans.PassMovesExactlyRoutedFiles | main.py:106-119 | After a pass an entry of the source is gone exactly when it is a matched regular file, so directories always stay. A routed file then sits, under its base name, in its category's folder. |
| Plans.PassCreatesOnlyRoutedFolders | main.py:114-117 | After a pass a folder exists exactly when it existed before or is the target of some routed file of the source. |
| Plans.PendingEntryPresent | main.py:108-119 | Part way through a pass, the entry reached next has not been moved by the earlier entries' moves. |
| Plans.PassStep | main.py:108-119 | Performing the next entry's moves after the first `i` entries' moves is the pass over the first `i + 1` entries. |
| Arranger.Disk.MakeDirs | main.py:116-117 | `os.makedirs` of a missing folder adds it, empty, and changes nothing else. |
| Arranger.Disk.MoveInto | main.py:119 | `shutil.move` of a present entry into an existing folder performs one `Step`: the entry leaves the source and its base name joins the folder. |
| Arranger.Place | main.py:114-119 | Creating the folder when `os.path.exists` says it is missing, then moving, amounts to one `Step`. |
| Arranger.VisitCategory | main.py:112-119 | One turn of the inner loop extends the disk state from the moves of the first `k` categories to the moves of the first `k + 1`. |
| Arranger.RouteFile | main.py:110-119 | The inner loop over the table leaves the disk exactly as the file's `CategoryMoves` say. |
| Arranger.ArrangeEntry | main.py:108-119 | One turn of the outer loop leaves the disk as the entry's moves say; a non-file is left alone. |
| Arranger.Arrange | main.py:99-119 | The pass is refused, with the disk unchanged, exactly when the source or destination path is empty. Otherwise the disk ends exactly as the planned moves over the source as it was at the start leave it. |

## Left out

- The Tk user interface is left out: widgets, colours, dialogs that choose directories, and `update_combo_boxes`. The refresh of the selectors after `add_folder` is not modelled.
- Error dialogs (`messagebox.showerror`) are modelled as results: `false` from `Add`, `InvalidInput` from `Arrange`. Clearing the entry box after `add_folder` is a widget effect and is left out.
- The order of `iterdir()` and the answer of `is_file()` come from the filesystem. The model takes them as the entries of `Disk.source`. The loop walks a copy of the source as it was at the start; a lazy iterator that sees the pass's own moves is not modelled.
- Arranger.Arrange requires that the source lists no path twice. This is true of any real directory listing; the source code demands nothing of its callers here.
- Arranger.Disk.MoveInto: errors from `shutil.move` are not modelled, such as a file of the same name already in the target folder, or a move across devices. Nor is overwriting: the folder's contents are the list of names moved in, repeats included.
- Arranger.Disk.MakeDirs: `os.makedirs` also creates missing parent directories, and fails when a non-directory has the path. The model records only the target folder. Each folder is identified by the exact string the code builds, with no path normalisation, so "d//x/" and "d/x/" count as different folders.
- Plans.Fs keeps the source listing and the destination folders apart. When the destination is the source directory or lies inside it, every folder `os.makedirs` creates there also becomes a new directory entry of the source; the model's `source` never gains such an entry, so `Arranger.Arrange`'s final state does not list those folders among the source entries. The pass's decisions are unaffected, because the loop walks the listing taken at the start.
- Permission errors, a source that does not exist or is not a directory, and every other failure of the filesystem are left out.
- Path semantics beyond the strings: the extension is taken from the full path string as the code does, with '/' as the only separator. Windows separators are not modelled.
