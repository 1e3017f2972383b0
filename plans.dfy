/** The decision logic of `arrange_files` as values: the routing table built from
    the selections, the moves one pass performs over a snapshot of the source
    directory, and the effect of those moves on an abstract filesystem. */
module Plans {
  import opened PathText
  import opened Categories
  import Registry

  /** One immediate entry of the source directory: its full path as `str(path)`
      gives it, and whether `is_file()` holds of it. */
  datatype Entry = Entry(path: string, isFile: bool)

  /** One `shutil.move(path, folder)`. */
  datatype Move = Move(path: string, folder: string)

  /** The part of the filesystem one pass touches: the source directory's
      entries, and every existing folder (as the string `os.path.exists` is
      asked about) with the names of the files placed in it. */
  datatype Fs = Fs(source: seq<Entry>, dirs: map<string, seq<string>>)

  /** A directory never lists the same path twice. */
  predicate DistinctPaths(entries: seq<Entry>) {
    forall i, j :: 0 <= i < j < |entries| ==> entries[i].path != entries[j].path
  }

  /** The routing table `types_and_folders`: the selections whose folder is not
      the sentinel, with keys and values unchanged. */
  function Routes(selections: map<string, string>): (r: map<string, string>)
    ensures forall k :: k in r <==> k in selections && selections[k] != Registry.Sentinel
    ensures forall k :: k in r ==> r[k] == selections[k]
  {
    map k | k in selections && selections[k] != Registry.Sentinel :: selections[k]
  }

  /** The f-string `f"{destination}/{name}/"`. */
  function TargetFolder(destination: string, name: string): string {
    destination + "/" + name + "/"
  }

  /** Different routed names never share a target folder under one destination. */
  lemma TargetFolderInjective(destination: string, a: string, b: string)
    ensures TargetFolder(destination, a) == TargetFolder(destination, b) <==> a == b
  {
    if TargetFolder(destination, a) == TargetFolder(destination, b) {
      var n := |destination| + 1;
      assert |a| == |b|;
      assert a == TargetFolder(destination, a)[n..n + |a|];
      assert b == TargetFolder(destination, b)[n..n + |b|];
    }
  }

  /** Category `cats[k]` claims the file at `path` and is a key of the routing table. */
  ghost predicate Hits(path: string, cats: seq<Category>, k: int, routes: map<string, string>) {
    0 <= k < |cats| && Extension(path) in cats[k].exts && cats[k].name in routes
  }

  /** The inner loop over `file_types.items()` for one file, which has no
      `break`: one move per category that claims the extension and is routed. */
  function CategoryMoves(path: string, cats: seq<Category>, destination: string,
                         routes: map<string, string>): seq<Move>
  {
    if cats == [] then []
    else
      var c := cats[|cats| - 1];
      CategoryMoves(path, cats[..|cats| - 1], destination, routes)
      + (if Extension(path) in c.exts && c.name in routes
         then [Move(path, TargetFolder(destination, routes[c.name]))]
         else [])
  }

  /** The moves made for one entry: none unless it is a regular file. */
  function EntryMoves(e: Entry, destination: string, routes: map<string, string>): seq<Move> {
    if e.isFile then CategoryMoves(e.path, FileTypes, destination, routes) else []
  }

  /** The moves of a whole pass over a snapshot, in the snapshot's order. */
  function Plan(entries: seq<Entry>, destination: string, routes: map<string, string>): seq<Move> {
    if entries == [] then []
    else Plan(entries[..|entries| - 1], destination, routes)
         + EntryMoves(entries[|entries| - 1], destination, routes)
  }

  /** The source directory after the entry at `path` has been moved away. */
  function Remove(entries: seq<Entry>, path: string): seq<Entry> {
    if entries == [] then []
    else (if entries[0].path == path then [] else [entries[0]]) + Remove(entries[1..], path)
  }

  /** Moving `path` away keeps exactly the other entries, and a source without
      repeated paths stays so. */
  lemma {:induction false} RemoveSpec(entries: seq<Entry>, path: string)
    ensures forall e :: e in Remove(entries, path) <==> e in entries && e.path != path
    ensures DistinctPaths(entries) ==> DistinctPaths(Remove(entries, path))
  {
    if entries != [] {
      RemoveSpec(entries[1..], path);
      assert entries == [entries[0]] + entries[1..];
    }
  }

  /** One move: the target folder is created (empty) when absent, the entry
      leaves the source, and its base name is added to the folder. */
  function Step(fs: Fs, m: Move): Fs {
    var held := if m.folder in fs.dirs then fs.dirs[m.folder] else [];
    Fs(Remove(fs.source, m.path), fs.dirs[m.folder := held + [BaseName(m.path)]])
  }

  /** The filesystem after performing `plan` in order. */
  function Run(fs: Fs, plan: seq<Move>): Fs {
    if plan == [] then fs else Step(Run(fs, plan[..|plan| - 1]), plan[|plan| - 1])
  }

  lemma RunSnoc(fs: Fs, plan: seq<Move>, m: Move)
    ensures Run(fs, plan + [m]) == Step(Run(fs, plan), m)
  {
    assert (plan + [m])[..|plan|] == plan;
  }

  /** Creating the target folder empty first does not change what a move does. */
  lemma StepAfterCreate(fs: Fs, m: Move)
    requires m.folder !in fs.dirs
    ensures Step(Fs(fs.source, fs.dirs[m.folder := []]), m) == Step(fs, m)
  {
    assert fs.dirs[m.folder := []][m.folder := [BaseName(m.path)]] == fs.dirs[m.folder := [BaseName(m.path)]];
  }

  lemma PlanSnoc(entries: seq<Entry>, i: nat, destination: string, routes: map<string, string>)
    requires i < |entries|
    ensures Plan(entries[..i + 1], destination, routes) ==
            Plan(entries[..i], destination, routes) + EntryMoves(entries[i], destination, routes)
  {
    assert entries[..i + 1][..i] == entries[..i];
  }

  lemma CategoryMovesSnoc(path: string, cats: seq<Category>, k: nat, destination: string,
                           routes: map<string, string>)
    requires k < |cats|
    ensures CategoryMoves(path, cats[..k + 1], destination, routes) ==
            CategoryMoves(path, cats[..k], destination, routes) +
            (if Extension(path) in cats[k].exts && cats[k].name in routes
             then [Move(path, TargetFolder(destination, routes[cats[k].name]))]
             else [])
  {
    assert cats[..k + 1][..k] == cats[..k];
  }

  /** The file `e` is moved by the pass into `folder`. */
  ghost predicate Routed(e: Entry, destination: string, routes: map<string, string>, folder: string) {
    e.isFile &&
    exists k :: Hits(e.path, FileTypes, k, routes) &&
                folder == TargetFolder(destination, routes[FileTypes[k].name])
  }

  /** Some routed category claims the file `e`. */
  ghost predicate Matched(e: Entry, routes: map<string, string>) {
    e.isFile && exists k :: Hits(e.path, FileTypes, k, routes)
  }

  /** The names `plan` adds to `folder`, in the order they arrive. */
  function NamesInto(plan: seq<Move>, folder: string): seq<string> {
    if plan == [] then []
    else NamesInto(plan[..|plan| - 1], folder)
         + (if plan[|plan| - 1].folder == folder then [BaseName(plan[|plan| - 1].path)] else [])
  }

  // ---------------------------------------------------------------------------
  // One file against the category table

  /** Every move the inner loop makes is of the file itself, into the folder
      of a routed category that claims its extension. */
  lemma {:induction false} CategoryMovesSound(path: string, cats: seq<Category>, destination: string,
                                              routes: map<string, string>, m: Move)
    requires m in CategoryMoves(path, cats, destination, routes)
    ensures m.path == path
    ensures exists k :: Hits(path, cats, k, routes) &&
                        m.folder == TargetFolder(destination, routes[cats[k].name])
    decreases |cats|
  {
    var n := |cats| - 1;
    var init := cats[..n];
    if m in CategoryMoves(path, init, destination, routes) {
      CategoryMovesSound(path, init, destination, routes, m);
      var k :| Hits(path, init, k, routes) &&
               m.folder == TargetFolder(destination, routes[init[k].name]);
      assert init[k] == cats[k];
    } else {
      assert Hits(path, cats, n, routes);
    }
  }

  /** Every routed category that claims the extension makes the inner loop
      move the file into that category's folder. */
  lemma {:induction false} CategoryMovesComplete(path: string, cats: seq<Category>, destination: string,
                                                 routes: map<string, string>, k: int)
    requires Hits(path, cats, k, routes)
    ensures Move(path, TargetFolder(destination, routes[cats[k].name]))
              in CategoryMoves(path, cats, destination, routes)
    decreases |cats|
  {
    var n := |cats| - 1;
    if k < n {
      var init := cats[..n];
      assert init[k] == cats[k];
      CategoryMovesComplete(path, init, destination, routes, k);
    }
  }

  /** Over pairwise disjoint categories, although the inner loop has no
      `break`, it moves a file at most once. */
  lemma {:induction false} CategoryMovesAtMostOne(path: string, cats: seq<Category>, destination: string,
                                                  routes: map<string, string>)
    requires Disjoint(cats)
    ensures |CategoryMoves(path, cats, destination, routes)| <= 1
    decreases |cats|
  {
    if cats != [] {
      var n := |cats| - 1;
      var init := cats[..n];
      assert Disjoint(init) by {
        forall i, j, x | 0 <= i < j < |init| && x in init[i].exts ensures x !in init[j].exts {
          assert init[i] == cats[i] && init[j] == cats[j];
        }
      }
      CategoryMovesAtMostOne(path, init, destination, routes);
      var earlier := CategoryMoves(path, init, destination, routes);
      if Extension(path) in cats[n].exts && cats[n].name in routes && earlier != [] {
        CategoryMovesSound(path, init, destination, routes, earlier[0]);
        assert false;
      }
    }
  }

  /** When category `k` claims the extension, no category before it does, so
      the inner loop has not moved the file before reaching `k`. */
  lemma EarlierCategoriesSilent(path: string, cats: seq<Category>, k: nat, destination: string,
                                 routes: map<string, string>)
    requires Disjoint(cats) && k < |cats| && Extension(path) in cats[k].exts
    ensures CategoryMoves(path, cats[..k], destination, routes) == []
  {
    var earlier := CategoryMoves(path, cats[..k], destination, routes);
    if earlier != [] {
      CategoryMovesSound(path, cats[..k], destination, routes, earlier[0]);
      assert false;
    }
  }

  /** An entry is moved at most once, only under its own path, and into
      `folder` exactly when it is a regular file routed there. */
  lemma EntryMovesSpec(e: Entry, destination: string, routes: map<string, string>)
    ensures |EntryMoves(e, destination, routes)| <= 1
    ensures forall m :: m in EntryMoves(e, destination, routes) ==> m.path == e.path
    ensures forall folder :: Move(e.path, folder) in EntryMoves(e, destination, routes) <==>
              Routed(e, destination, routes, folder)
    ensures EntryMoves(e, destination, routes) == [] <==> !Matched(e, routes)
  {
    if e.isFile {
      FileTypesDisjoint();
      CategoryMovesAtMostOne(e.path, FileTypes, destination, routes);
      var moves := EntryMoves(e, destination, routes);
      forall m | m in moves ensures m.path == e.path && Routed(e, destination, routes, m.folder) {
        CategoryMovesSound(e.path, FileTypes, destination, routes, m);
      }
      forall folder | Routed(e, destination, routes, folder) ensures Move(e.path, folder) in moves {
        var k :| Hits(e.path, FileTypes, k, routes) &&
                 folder == TargetFolder(destination, routes[FileTypes[k].name]);
        CategoryMovesComplete(e.path, FileTypes, destination, routes, k);
      }
      if Matched(e, routes) {
        var k :| Hits(e.path, FileTypes, k, routes);
        CategoryMovesComplete(e.path, FileTypes, destination, routes, k);
      }
      if moves != [] {
        CategoryMovesSound(e.path, FileTypes, destination, routes, moves[0]);
      }
    }
  }

  /** A file whose base name has no '.' is never moved: its extension then
      either runs across a '/' or is one character, and every listed extension
      is a '.' and at least one more character, without '/'. */
  lemma DotlessNameNeverMatched(e: Entry, routes: map<string, string>)
    requires '.' !in BaseName(e.path)
    ensures !Matched(e, routes)
  {
    DotlessBaseName(e.path);
    if k :| Hits(e.path, FileTypes, k, routes) {
      CategoryWellFormed(k);
    }
  }

  /** Any file named "....pdf" is claimed by "documents", and moved exactly
      when that category is routed. */
  lemma PdfMatchedWhenDocumentsRouted(stem: string, routes: map<string, string>)
    ensures Matched(Entry(stem + ".pdf", true), routes) <==> "documents" in routes
  {
    ExtensionOfSplit(stem, ".pdf");
    assert FileTypes[0].exts[1] == ".pdf";
    if "documents" in routes {
      assert Hits(stem + ".pdf", FileTypes, 0, routes);
    }
    if k :| Hits(stem + ".pdf", FileTypes, k, routes) && k != 0 {
      CategoriesApart(0, k);
    }
  }

  /** Extensions are compared exactly, case included: a file whose sliced
      extension holds an upper-case letter is never moved. */
  lemma UpperCaseExtensionNeverMatched(e: Entry, routes: map<string, string>)
    requires HasUpperCase(Extension(e.path))
    ensures !Matched(e, routes)
  {
    if k :| Hits(e.path, FileTypes, k, routes) {
      CategoryLowerCase(k, Extension(e.path));
    }
  }

  /** So a file named "....PDF" is never moved, while "....pdf" is when
      "documents" is routed. */
  lemma UpperCasePdfNeverMatched(stem: string, routes: map<string, string>)
    ensures !Matched(Entry(stem + ".PDF", true), routes)
  {
    ExtensionOfSplit(stem, ".PDF");
    assert ".PDF"[1] == 'P';
    UpperCaseExtensionNeverMatched(Entry(stem + ".PDF", true), routes);
  }

  // ---------------------------------------------------------------------------
  // A whole pass

  /** A move belongs to the pass exactly when it belongs to one entry's moves. */
  lemma {:induction false} PlanMembership(entries: seq<Entry>, destination: string,
                                          routes: map<string, string>, m: Move)
    ensures m in Plan(entries, destination, routes) <==>
            exists j :: 0 <= j < |entries| && m in EntryMoves(entries[j], destination, routes)
    decreases |entries|
  {
    if entries != [] {
      var n := |entries| - 1;
      PlanMembership(entries[..n], destination, routes, m);
      assert forall j :: 0 <= j < n ==> entries[..n][j] == entries[j];
    }
  }

  /** With no category routed, the pass plans no move at all. */
  lemma {:induction false} NoRoutesNoMoves(entries: seq<Entry>, destination: string)
    ensures Plan(entries, destination, map[]) == []
    decreases |entries|
  {
    if entries != [] {
      NoRoutesNoMoves(entries[..|entries| - 1], destination);
      var e := entries[|entries| - 1];
      EntryMovesSpec(e, destination, map[]);
    }
  }

  /** Every file of the snapshot is moved at most once in a pass. */
  lemma {:induction false} PlanMovesEachFileOnce(entries: seq<Entry>, destination: string,
                                                 routes: map<string, string>)
    requires DistinctPaths(entries)
    ensures forall i, j :: 0 <= i < j < |Plan(entries, destination, routes)| ==>
              Plan(entries, destination, routes)[i].path != Plan(entries, destination, routes)[j].path
    decreases |entries|
  {
    if entries != [] {
      var n := |entries| - 1;
      var init := entries[..n];
      var last := entries[n];
      PlanMovesEachFileOnce(init, destination, routes);
      var before := Plan(init, destination, routes);
      var after := Plan(entries, destination, routes);
      EntryMovesSpec(last, destination, routes);
      forall i, j | 0 <= i < j < |after| ensures after[i].path != after[j].path {
        if j >= |before| {
          assert i < |before|;
          assert after[i] in before;
          PlanMembership(init, destination, routes, after[i]);
          var k :| 0 <= k < n && after[i] in EntryMoves(init[k], destination, routes);
          EntryMovesSpec(init[k], destination, routes);
          assert after[j] in EntryMoves(last, destination, routes);
        }
      }
    }
  }

  // ---------------------------------------------------------------------------
  // The filesystem after a run of moves

  /** An entry is still in the source after a run exactly when it was there and
      no move of the run names its path; the source never lists a path twice. */
  lemma {:induction false} RunSource(fs: Fs, plan: seq<Move>, e: Entry)
    ensures e in Run(fs, plan).source <==> e in fs.source && forall m :: m in plan ==> m.path != e.path
    ensures DistinctPaths(fs.source) ==> DistinctPaths(Run(fs, plan).source)
    decreases |plan|
  {
    if plan != [] {
      var init := plan[..|plan| - 1];
      RunSource(fs, init, e);
      RemoveSpec(Run(fs, init).source, plan[|plan| - 1].path);
      assert plan == init + [plan[|plan| - 1]];
    }
  }

  /** What one move does to the folders: it adds its target to the folder
      names and appends the moved file's name to that folder only. */
  lemma StepDirs(fs: Fs, m: Move, f: string)
    ensures f in Step(fs, m).dirs <==> f in fs.dirs || f == m.folder
    ensures f in Step(fs, m).dirs ==>
              Step(fs, m).dirs[f] == (if f in fs.dirs then fs.dirs[f] else [])
                                     + (if m.folder == f then [BaseName(m.path)] else [])
  {
  }

  /** A run creates exactly the folders it moves into and keeps every
      existing one. */
  lemma {:induction false} RunFolders(fs: Fs, plan: seq<Move>, f: string)
    ensures f in Run(fs, plan).dirs <==> f in fs.dirs || exists m :: m in plan && m.folder == f
    decreases |plan|
  {
    if plan != [] {
      var init := plan[..|plan| - 1];
      var last := plan[|plan| - 1];
      RunFolders(fs, init, f);
      StepDirs(Run(fs, init), last, f);
      assert forall m :: m in plan <==> m in init || m == last by {
        assert plan == init + [last];
      }
    }
  }

  /** A folder absent after a run was absent before and received no name. */
  lemma {:induction false} UntouchedFolder(fs: Fs, plan: seq<Move>, f: string)
    requires f !in Run(fs, plan).dirs
    ensures f !in fs.dirs && NamesInto(plan, f) == []
    decreases |plan|
  {
    if plan != [] {
      UntouchedFolder(fs, plan[..|plan| - 1], f);
    }
  }

  /** After a run each folder holds what it held before (nothing, if the run
      created it) followed by the names moved into it, in order. */
  lemma {:induction false} RunContents(fs: Fs, plan: seq<Move>, f: string)
    requires f in Run(fs, plan).dirs
    ensures Run(fs, plan).dirs[f] == (if f in fs.dirs then fs.dirs[f] else []) + NamesInto(plan, f)
    decreases |plan|
  {
    if plan != [] {
      var init := plan[..|plan| - 1];
      var m := plan[|plan| - 1];
      var before := Run(fs, init);
      StepDirs(before, m, f);
      if f in before.dirs {
        RunContents(fs, init, f);
      } else {
        UntouchedFolder(fs, init, f);
      }
    }
  }

  /** Each move of a run leaves the moved file's name in its target folder. */
  lemma {:induction false} NamesIntoHolds(plan: seq<Move>, m: Move)
    requires m in plan
    ensures BaseName(m.path) in NamesInto(plan, m.folder)
    decreases |plan|
  {
    var init := plan[..|plan| - 1];
    if m != plan[|plan| - 1] {
      assert plan == init + [plan[|plan| - 1]];
      NamesIntoHolds(init, m);
    }
  }

  /** With every selection the sentinel, the pass leaves the filesystem as it was. */
  lemma AllSentinelIsNoop(fs: Fs, entries: seq<Entry>, destination: string,
                          selections: map<string, string>)
    requires forall k :: k in selections ==> selections[k] == Registry.Sentinel
    ensures Routes(selections) == map[]
    ensures Run(fs, Plan(entries, destination, Routes(selections))) == fs
  {
    assert Routes(selections).Keys == {};
    NoRoutesNoMoves(entries, destination);
  }

  /** The fate of one entry of the source after a pass over it: it leaves the
      source exactly when it is a regular file claimed by a routed category
      (so directories always stay), and it then sits, under its base name, in
      the folder it is routed to. */
  lemma PassMovesExactlyRoutedFiles(fs: Fs, destination: string, routes: map<string, string>, e: Entry)
    requires DistinctPaths(fs.source) && e in fs.source
    ensures e in Run(fs, Plan(fs.source, destination, routes)).source <==> !Matched(e, routes)
    ensures !e.isFile ==> e in Run(fs, Plan(fs.source, destination, routes)).source
    ensures forall folder :: Routed(e, destination, routes, folder) ==>
              folder in Run(fs, Plan(fs.source, destination, routes)).dirs &&
              BaseName(e.path) in Run(fs, Plan(fs.source, destination, routes)).dirs[folder]
  {
    var plan := Plan(fs.source, destination, routes);
    var after := Run(fs, plan);
    var i :| 0 <= i < |fs.source| && fs.source[i] == e;
    RunSource(fs, plan, e);
    EntryMovesSpec(e, destination, routes);
    if Matched(e, routes) {
      var m := EntryMoves(e, destination, routes)[0];
      PlanMembership(fs.source, destination, routes, m);
      assert m in plan;
    } else {
      forall m | m in plan ensures m.path != e.path {
        PlanMembership(fs.source, destination, routes, m);
        var j :| 0 <= j < |fs.source| && m in EntryMoves(fs.source[j], destination, routes);
        EntryMovesSpec(fs.source[j], destination, routes);
      }
    }
    forall folder | Routed(e, destination, routes, folder)
      ensures folder in after.dirs && BaseName(e.path) in after.dirs[folder]
    {
      var m := Move(e.path, folder);
      PlanMembership(fs.source, destination, routes, m);
      RunFolders(fs, plan, folder);
      NamesIntoHolds(plan, m);
      RunContents(fs, plan, folder);
    }
  }

  /** A pass creates exactly the target folders of the files it routes; every
      folder that existed before still exists. */
  lemma PassCreatesOnlyRoutedFolders(fs: Fs, destination: string, routes: map<string, string>, f: string)
    ensures f in Run(fs, Plan(fs.source, destination, routes)).dirs <==>
            f in fs.dirs || exists e :: e in fs.source && Routed(e, destination, routes, f)
  {
    var plan := Plan(fs.source, destination, routes);
    RunFolders(fs, plan, f);
    if f !in fs.dirs && f in Run(fs, plan).dirs {
      var m :| m in plan && m.folder == f;
      PlanMembership(fs.source, destination, routes, m);
      var j :| 0 <= j < |fs.source| && m in EntryMoves(fs.source[j], destination, routes);
      EntryMovesSpec(fs.source[j], destination, routes);
      assert Routed(fs.source[j], destination, routes, f);
    }
    if e :| e in fs.source && Routed(e, destination, routes, f) {
      EntryMovesSpec(e, destination, routes);
      var i :| 0 <= i < |fs.source| && fs.source[i] == e;
      PlanMembership(fs.source, destination, routes, Move(e.path, f));
    }
  }

  /** Part way through a pass, the entry the pass reaches next is still in
      the source: the moves so far are of other paths. */
  lemma PendingEntryPresent(fs: Fs, i: nat, destination: string, routes: map<string, string>)
    requires DistinctPaths(fs.source) && i < |fs.source|
    ensures fs.source[i] in Run(fs, Plan(fs.source[..i], destination, routes)).source
  {
    var e := fs.source[i];
    var plan := Plan(fs.source[..i], destination, routes);
    forall m | m in plan ensures m.path != e.path {
      PlanMembership(fs.source[..i], destination, routes, m);
      var j :| 0 <= j < i && m in EntryMoves(fs.source[..i][j], destination, routes);
      EntryMovesSpec(fs.source[..i][j], destination, routes);
      assert fs.source[..i][j] == fs.source[j];
    }
    RunSource(fs, plan, e);
  }

  /** Performing one more entry's moves extends the pass by that entry. */
  lemma PassStep(fs: Fs, i: nat, destination: string, routes: map<string, string>, before: Fs, after: Fs)
    requires i < |fs.source|
    requires before == Run(fs, Plan(fs.source[..i], destination, routes))
    requires after == Run(before, EntryMoves(fs.source[i], destination, routes))
    ensures after == Run(fs, Plan(fs.source[..i + 1], destination, routes))
  {
    PlanSnoc(fs.source, i, destination, routes);
    var prefix := Plan(fs.source[..i], destination, routes);
    var moves := EntryMoves(fs.source[i], destination, routes);
    if fs.source[i].isFile {
      FileTypesDisjoint();
      CategoryMovesAtMostOne(fs.source[i].path, FileTypes, destination, routes);
    }
    if |moves| == 0 {
      assert prefix + moves == prefix;
    } else {
      assert moves == [moves[0]];
      RunSnoc(fs, prefix, moves[0]);
    }
  }
}
