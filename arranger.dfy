/** `arrange_files` as a pass that changes an abstract filesystem step by step:
    a folder is created when missing, then the file is moved into it. */
module Arranger {
  import opened PathText
  import opened Categories
  import opened Plans

  /** How a pass ends: it ran, or it was refused because a path was empty
      (the error dialog of main.py). */
  datatype Outcome = Arranged | InvalidInput

  /** The filesystem as the pass sees it: the entries of the source directory
      and the existing folders with the names of the files they hold. */
  class Disk {
    var source: seq<Entry>
    var dirs: map<string, seq<string>>

    ghost predicate Valid()
      reads this
    {
      DistinctPaths(source)
    }

    function State(): Fs
      reads this
    {
      Fs(source, dirs)
    }

    constructor (source: seq<Entry>, dirs: map<string, seq<string>>)
      requires DistinctPaths(source)
      ensures Valid()
      ensures State() == Fs(source, dirs)
    {
      this.source := source;
      this.dirs := dirs;
    }

    /** `os.makedirs(folder)` for a folder that does not exist yet. */
    method MakeDirs(folder: string)
      requires Valid() && folder !in dirs
      modifies this
      ensures Valid()
      ensures source == old(source) && dirs == old(dirs)[folder := []]
    {
      dirs := dirs[folder := []];
    }

    /** `shutil.move(path, folder)` into an existing folder: the entry leaves the
        source and its base name joins the folder. The entry must still be in
        the source, as moving a path that is gone fails. */
    method MoveInto(path: string, folder: string)
      requires Valid() && folder in dirs
      requires exists e :: e in source && e.path == path
      modifies this
      ensures Valid()
      ensures State() == Step(old(State()), Move(path, folder))
    {
      RemoveSpec(source, path);
      source := Remove(source, path);
      dirs := dirs[folder := dirs[folder] + [BaseName(path)]];
    }
  }

  /** The body of one routed match: the target folder is created when
      `os.path.exists` says it is missing, then the file is moved into it. */
  method Place(disk: Disk, path: string, folder: string)
    requires disk.Valid() && exists e :: e in disk.source && e.path == path
    modifies disk
    ensures disk.Valid()
    ensures disk.State() == Step(old(disk.State()), Move(path, folder))
  {
    if folder !in disk.dirs {
      disk.MakeDirs(folder);
      StepAfterCreate(old(disk.State()), Move(path, folder));
    }
    disk.MoveInto(path, folder);
  }

  /** One turn of the inner loop, for category `table[k]`: when it claims the
      file's extension and is routed, the file is placed in its folder. As the
      table is disjoint, no earlier category has moved the file, so it is
      still in the source at that point. */
  method VisitCategory(disk: Disk, table: seq<Category>, k: nat, entry: Entry, destination: string,
                       routes: map<string, string>, ghost start: Fs)
    requires disk.Valid() && Disjoint(table) && k < |table| && entry in start.source
    requires disk.State() == Run(start, CategoryMoves(entry.path, table[..k], destination, routes))
    modifies disk
    ensures disk.Valid()
    ensures disk.State() == Run(start, CategoryMoves(entry.path, table[..k + 1], destination, routes))
  {
    CategoryMovesSnoc(entry.path, table, k, destination, routes);
    var category := table[k];
    if Extension(entry.path) in category.exts && category.name in routes {
      EarlierCategoriesSilent(entry.path, table, k, destination, routes);
      var folder := TargetFolder(destination, routes[category.name]);
      Place(disk, entry.path, folder);
      RunSnoc(start, [], Move(entry.path, folder));
    } else {
      assert CategoryMoves(entry.path, table[..k + 1], destination, routes) ==
             CategoryMoves(entry.path, table[..k], destination, routes);
    }
  }

  /** The walk over the category table for one regular file, in the table's
      declared order and without `break`: every routed category that claims
      the file's extension gets its move. */
  method RouteFile(disk: Disk, table: seq<Category>, entry: Entry, destination: string,
                   routes: map<string, string>)
    requires disk.Valid() && entry in disk.source && Disjoint(table)
    modifies disk
    ensures disk.Valid()
    ensures disk.State() == Run(old(disk.State()), CategoryMoves(entry.path, table, destination, routes))
  {
    ghost var start := disk.State();
    var k := 0;
    assert table[..k] == [];
    while k < |table|
      invariant 0 <= k <= |table|
      invariant disk.Valid()
      invariant disk.State() == Run(start, CategoryMoves(entry.path, table[..k], destination, routes))
    {
      VisitCategory(disk, table, k, entry, destination, routes, start);
      k := k + 1;
    }
    assert table[..k] == table;
  }

  /** The body of the loop over the snapshot: only a regular file is routed. */
  method ArrangeEntry(disk: Disk, entry: Entry, destination: string, routes: map<string, string>)
    requires disk.Valid() && entry in disk.source
    modifies disk
    ensures disk.Valid()
    ensures disk.State() == Run(old(disk.State()), EntryMoves(entry, destination, routes))
  {
    if entry.isFile {
      FileTypesDisjoint();
      RouteFile(disk, FileTypes, entry, destination, routes);
    } else {
      assert disk.State() == Run(old(disk.State()), []);
    }
  }

  /** One arrangement pass. An empty source or destination refuses the pass and
      changes nothing; otherwise the routing table is built, the source is
      walked as it was when the pass began, and the filesystem ends exactly as
      the planned moves leave it. */
  method Arrange(disk: Disk, source: string, destination: string, selections: map<string, string>)
    returns (outcome: Outcome)
    requires disk.Valid()
    modifies disk
    ensures disk.Valid()
    ensures outcome == InvalidInput <==> source == "" || destination == ""
    ensures outcome == InvalidInput ==> disk.State() == old(disk.State())
    ensures outcome == Arranged ==>
              disk.State() == Run(old(disk.State()), Plan(old(disk.source), destination, Routes(selections)))
  {
    if source == "" || destination == "" {
      return InvalidInput;
    }
    var routes := Routes(selections);
    var snapshot := disk.source;
    ghost var start := disk.State();
    var i := 0;
    while i < |snapshot|
      invariant 0 <= i <= |snapshot|
      invariant disk.Valid()
      invariant disk.State() == Run(start, Plan(snapshot[..i], destination, routes))
    {
      ghost var before := disk.State();
      PendingEntryPresent(start, i, destination, routes);
      ArrangeEntry(disk, snapshot[i], destination, routes);
      PassStep(start, i, destination, routes, before, disk.State());
      i := i + 1;
    }
    assert snapshot[..i] == snapshot;
    return Arranged;
  }
}
