/** Empty directories are deleted from the SIP once the structMap lists them, and made again
    from the structMap later. */
module EmptyDirectories {
  import opened StructMap
  import opened StructMapTree

  /** `os.rmdir` on every directory, deepest first: it succeeds on the empty ones. */
  function Pruned(dirs: Dirs): Dirs {
    match dirs
    case NoDirs => NoDirs
    case Dirs(name, folder, rest) =>
      var left := Folder(folder.files, Pruned(folder.dirs));
      if IsEmpty(left) then Pruned(rest) else Dirs(name, left, Pruned(rest))
  }

  function AllDirs(dirs: Dirs, parent: Path): set<Path>
    decreases dirs
  {
    match dirs
    case NoDirs => {}
    case Dirs(name, folder, rest) =>
      {Join(parent, name)} + AllDirs(folder.dirs, Join(parent, name)) + AllDirs(rest, parent)
  }

  function FilesHere(path: Path, files: seq<string>): set<Path> {
    set f | f in files :: Join(path, f)
  }

  function AllFiles(dirs: Dirs, parent: Path): set<Path>
    decreases dirs
  {
    match dirs
    case NoDirs => {}
    case Dirs(name, folder, rest) =>
      FilesHere(Join(parent, name), folder.files) + AllFiles(folder.dirs, Join(parent, name))
      + AllFiles(rest, parent)
  }

  ghost predicate Below(p: Path, q: Path) {
    |p| < |q| && q[..|p|] == p
  }

  lemma BelowJoin(p: Path, name: string)
    ensures Below(p, Join(p, name))
  {
  }

  lemma BelowBelow(p: Path, q: Path, r: Path)
    requires Below(p, q) && Below(q, r)
    ensures Below(p, r)
  {
    assert r[..|p|] == r[..|q|][..|p|];
  }

  lemma {:induction false} DirsAreBelow(dirs: Dirs, parent: Path, q: Path)
    requires q in AllDirs(dirs, parent)
    ensures Below(parent, q)
    decreases dirs
  {
    var name, folder, rest := dirs.name, dirs.folder, dirs.rest;
    BelowJoin(parent, name);
    if q in AllDirs(folder.dirs, Join(parent, name)) {
      DirsAreBelow(folder.dirs, Join(parent, name), q);
      BelowBelow(parent, Join(parent, name), q);
    } else if q in AllDirs(rest, parent) {
      DirsAreBelow(rest, parent, q);
    }
  }

  /** Deleting empty directories deletes no file. */
  lemma {:induction false} PruningKeepsFiles(dirs: Dirs, parent: Path)
    ensures AllFiles(Pruned(dirs), parent) == AllFiles(dirs, parent)
    ensures AllDirs(Pruned(dirs), parent) <= AllDirs(dirs, parent)
    decreases dirs
  {
    match dirs
    case NoDirs =>
    case Dirs(name, folder, rest) =>
      PruningKeepsFiles(folder.dirs, Join(parent, name));
      PruningKeepsFiles(rest, parent);
  }

  ghost predicate FileBelow(dirs: Dirs, parent: Path, q: Path) {
    exists f :: f in AllFiles(dirs, parent) && Below(q, f)
  }

  lemma {:induction false} FilesAreBelow(dirs: Dirs, parent: Path, f: Path)
    requires f in AllFiles(dirs, parent)
    ensures Below(parent, f)
    decreases dirs
  {
    var name, folder, rest := dirs.name, dirs.folder, dirs.rest;
    BelowJoin(parent, name);
    if f in AllFiles(folder.dirs, Join(parent, name)) {
      FilesAreBelow(folder.dirs, Join(parent, name), f);
      BelowBelow(parent, Join(parent, name), f);
    } else if f in AllFiles(rest, parent) {
      FilesAreBelow(rest, parent, f);
    } else {
      var x :| x in folder.files && f == Join(Join(parent, name), x);
      BelowJoin(Join(parent, name), x);
      BelowBelow(parent, Join(parent, name), f);
    }
  }

  /** Something is left after pruning only if there is a file. */
  lemma {:induction false} LeftHasFile(dirs: Dirs, parent: Path)
    requires Pruned(dirs).Dirs?
    ensures AllFiles(dirs, parent) != {}
    decreases dirs
  {
    var name, folder, rest := dirs.name, dirs.folder, dirs.rest;
    if folder.files != [] {
      assert Join(Join(parent, name), folder.files[0]) in AllFiles(dirs, parent);
    } else if Pruned(folder.dirs).Dirs? {
      LeftHasFile(folder.dirs, Join(parent, name));
    } else {
      LeftHasFile(rest, parent);
    }
  }

  lemma {:induction false} PrunedHasFileBelow(dirs: Dirs, parent: Path, q: Path)
    requires q in AllDirs(Pruned(dirs), parent)
    ensures FileBelow(dirs, parent, q)
    decreases dirs
  {
    var name, folder, rest := dirs.name, dirs.folder, dirs.rest;
    var sub := Join(parent, name);
    if q in AllDirs(Pruned(rest), parent) {
      PrunedHasFileBelow(rest, parent, q);
      var f :| f in AllFiles(rest, parent) && Below(q, f);
      assert f in AllFiles(dirs, parent);
    } else if q in AllDirs(Pruned(folder.dirs), sub) {
      PrunedHasFileBelow(folder.dirs, sub, q);
      var f :| f in AllFiles(folder.dirs, sub) && Below(q, f);
      assert f in AllFiles(dirs, parent);
    } else if folder.files != [] {
      BelowJoin(sub, folder.files[0]);
      assert Join(sub, folder.files[0]) in AllFiles(dirs, parent);
    } else {
      LeftHasFile(folder.dirs, sub);
      var f :| f in AllFiles(folder.dirs, sub);
      FilesAreBelow(folder.dirs, sub, f);
      assert f in AllFiles(dirs, parent);
    }
  }

  lemma {:induction false} AboveFileIsDir(dirs: Dirs, parent: Path, f: Path, q: Path)
    requires f in AllFiles(dirs, parent) && Below(q, f) && |parent| < |q|
    ensures q in AllDirs(dirs, parent)
    decreases dirs
  {
    var name, folder, rest := dirs.name, dirs.folder, dirs.rest;
    var sub := Join(parent, name);
    if f in AllFiles(rest, parent) {
      AboveFileIsDir(rest, parent, f, q);
    } else if f in AllFiles(folder.dirs, sub) {
      FilesAreBelow(folder.dirs, sub, f);
      if |sub| < |q| {
        AboveFileIsDir(folder.dirs, sub, f, q);
      } else {
        assert q == f[..|q|] == sub;
      }
    } else {
      assert q == f[..|q|] == sub;
    }
  }

  /** The deletion leaves exactly the directories with a file somewhere below them. */
  lemma PrunedIff(dirs: Dirs, parent: Path, q: Path)
    ensures q in AllDirs(Pruned(dirs), parent) <==> Below(parent, q) && FileBelow(dirs, parent, q)
  {
    if q in AllDirs(Pruned(dirs), parent) {
      PrunedHasFileBelow(dirs, parent, q);
      DirsAreBelow(Pruned(dirs), parent, q);
    }
    if Below(parent, q) && FileBelow(dirs, parent, q) {
      var f :| f in AllFiles(dirs, parent) && Below(q, f);
      PruningKeepsFiles(dirs, parent);
      AboveFileIsDir(Pruned(dirs), parent, f, q);
    }
  }

  /** Does the `objects` directory itself outlive the deletion? */
  predicate Survives(objects: Folder) {
    !IsEmpty(Folder(objects.files, Pruned(objects.dirs)))
  }

  lemma SurvivesIff(objects: Folder, parent: Path)
    ensures Survives(objects) <==> objects.files != [] || AllFiles(objects.dirs, parent) != {}
  {
    PruningKeepsFiles(objects.dirs, parent);
    if Pruned(objects.dirs).Dirs? {
      LeftHasFile(objects.dirs, parent);
    }
  }

  /* ----- reconstruct_empty_directories ----- */

  ghost predicate AtOrAbove(q: Path, path: Path) {
    q != [] && q <= path
  }

  lemma AboveStep(q: Path, path: Path, i: nat)
    requires i < |path|
    ensures AtOrAbove(q, path[..i + 1]) <==> AtOrAbove(q, path[..i]) || q == path[..i + 1]
  {
    if q <= path[..i + 1] && |q| <= i {
      assert path[..i + 1][..|q|] == path[..i][..|q|];
    }
    if q <= path[..i] {
      assert path[..i + 1][..|q|] == path[..i][..|q|];
    }
  }

  /** Every directory above one of the disk is on the disk. */
  ghost predicate Closed(dirs: set<Path>) {
    forall p, q :: p in dirs && AtOrAbove(q, p) ==> q in dirs
  }

  /** The directories a disk has once the listed ones were made. */
  ghost predicate Restored(before: set<Path>, paths: seq<Path>, q: Path) {
    q in before || exists p :: p in paths && AtOrAbove(q, p)
  }

  lemma RestoredStep(before: set<Path>, paths: seq<Path>, i: nat, q: Path)
    requires i < |paths|
    ensures Restored(before, paths[..i + 1], q) <==> Restored(before, paths[..i], q) || AtOrAbove(q, paths[i])
  {
    assert paths[..i + 1] == paths[..i] + [paths[i]];
  }

  /** The directories below `objects`, by relative path, and whether `objects` is there. */
  class Disk {
    var dirs: set<Path>
    var objects: bool

    constructor (dirs: set<Path>, objects: bool)
      ensures this.dirs == dirs && this.objects == objects
    {
      this.dirs, this.objects := dirs, objects;
    }

    /** `os.makedirs`: the directory and every missing one above it. */
    method MakeDirs(path: Path)
      modifies this`dirs
      ensures forall q :: q in dirs <==> q in old(dirs) || AtOrAbove(q, path)
    {
      for i := 0 to |path|
        invariant forall q :: q in dirs <==> q in old(dirs) || AtOrAbove(q, path[..i])
      {
        forall q: Path ensures AtOrAbove(q, path[..i + 1]) <==> AtOrAbove(q, path[..i]) || q == path[..i + 1] {
          AboveStep(q, path, i);
        }
        dirs := dirs + {path[..i + 1]};
      }
      assert path[..|path|] == path;
    }

    method ReconstructEmptyDirectories(paths: seq<Path>)
      requires Closed(dirs)
      modifies this`dirs
      ensures objects ==> forall q :: q in dirs <==> Restored(old(dirs), paths, q)
      ensures !objects ==> dirs == old(dirs)
    {
      if !objects {
        return;
      }
      for i := 0 to |paths|
        invariant Closed(dirs)
        invariant forall q :: q in dirs <==> Restored(old(dirs), paths[..i], q)
      {
        forall q ensures Restored(old(dirs), paths[..i + 1], q) <==>
                         Restored(old(dirs), paths[..i], q) || AtOrAbove(q, paths[i]) {
          RestoredStep(old(dirs), paths, i, q);
        }
        ghost var before := dirs;
        if paths[i] !in dirs {
          MakeDirs(paths[i]);
          StaysClosed(before, dirs, paths[i]);
        } else {
          assert forall q :: AtOrAbove(q, paths[i]) ==> q in dirs;
        }
      }
      assert paths[..|paths|] == paths;
    }
  }

  lemma StaysClosed(before: set<Path>, after: set<Path>, path: Path)
    requires Closed(before) && forall q :: q in after <==> q in before || AtOrAbove(q, path)
    ensures Closed(after)
  {
    forall p, q | p in after && AtOrAbove(q, p) ensures q in after {
      if p !in before {
        assert q == p[..|q|] == path[..|q|];
      }
    }
  }

  /** The path lies outside the top-level metadata and submissionDocumentation directories. */
  predicate Outside(q: Path) {
    q != [] && q[0] !in APART
  }

  /** A path list holds exactly the directories of the tree outside the excluded ones. */
  lemma {:induction false} DirPathsAreDirs(dirs: Dirs, parent: Path, q: Path)
    requires parent == [] || Outside(parent)
    ensures q in DirPaths(dirs, parent) <==> q in AllDirs(dirs, parent) && Outside(q)
    decreases dirs
  {
    match dirs
    case NoDirs =>
    case Dirs(name, folder, rest) =>
      DirPathsAreDirs(rest, parent, q);
      var sub := Join(parent, name);
      if q in AllDirs(folder.dirs, sub) {
        DirsAreBelow(folder.dirs, sub, q);
        assert sub[0] == q[0];
      }
      if !(parent == [] && name in APART) {
        DirPathsAreDirs(folder.dirs, sub, q);
      }
  }

  lemma {:induction false} AllDirsClosed(dirs: Dirs, parent: Path, p: Path, q: Path)
    requires p in AllDirs(dirs, parent) && q <= p && |parent| < |q|
    ensures q in AllDirs(dirs, parent)
    decreases dirs
  {
    var name, folder, rest := dirs.name, dirs.folder, dirs.rest;
    var sub := Join(parent, name);
    if p in AllDirs(rest, parent) {
      AllDirsClosed(rest, parent, p, q);
    } else if p in AllDirs(folder.dirs, sub) {
      DirsAreBelow(folder.dirs, sub, p);
      if |sub| < |q| {
        AllDirsClosed(folder.dirs, sub, p, q);
      } else {
        assert q == p[..|q|] == sub;
      }
    } else {
      assert q == sub;
    }
  }

  /** A disk left by the deletion of empty directories is one `ReconstructEmptyDirectories` takes. */
  lemma DisksAreClosed(dirs: Dirs)
    ensures Closed(AllDirs(dirs, []))
  {
    forall p, q | p in AllDirs(dirs, []) && AtOrAbove(q, p) ensures q in AllDirs(dirs, []) {
      AllDirsClosed(dirs, [], p, q);
    }
  }

  /** The directories once the structMap was built, the empty directories deleted, and those the
      structMap lists made again. */
  ghost predicate RoundTrip(objects: Folder, counter: nat, q: Path) {
    var left := AllDirs(Pruned(objects.dirs), []);
    if Survives(objects)
    then Restored(left, DivElToDirPaths(DirDiv(["objects"], objects, counter), [], false), q)
    else q in left
  }

  /** Outside the two excluded subtrees the round trip gives every directory of the original
      tree and no other, inside them only those with a file somewhere below remain; and it does
      nothing at all when there is no file in the whole tree, as `objects` is gone then. */
  lemma EmptyDirectoriesRestored(objects: Folder, counter: nat, q: Path)
    ensures Survives(objects) && Outside(q) ==> (RoundTrip(objects, counter, q) <==> q in AllDirs(objects.dirs, []))
    ensures Survives(objects) && !Outside(q) ==>
              (RoundTrip(objects, counter, q) <==> q in AllDirs(Pruned(objects.dirs), []))
    ensures !Survives(objects) ==> !RoundTrip(objects, counter, q)
  {
    var listed := DivElToDirPaths(DirDiv(["objects"], objects, counter), [], false);
    var left := AllDirs(Pruned(objects.dirs), []);
    StructMapRoundTrip(objects, counter);
    PruningKeepsFiles(objects.dirs, []);
    DirPathsAreDirs(objects.dirs, [], q);
    if Restored(left, listed, q) && q !in left {
      var p :| p in listed && AtOrAbove(q, p);
      DirPathsAreDirs(objects.dirs, [], p);
      AllDirsClosed(objects.dirs, [], p, q);
      assert p[0] == q[0];
    }
    if Outside(q) && q in AllDirs(objects.dirs, []) {
      assert q in listed && AtOrAbove(q, q);
    }
  }

  /** The structMap is built from the whole tree, the empty directories are deleted, and those it
      lists are made again on what is left. */
  method DeleteAndRestore(objects: Folder, counter: nat) returns (disk: Disk)
    ensures forall q :: q in disk.dirs <==> RoundTrip(objects, counter, q)
  {
    var div := DirDiv(["objects"], objects, counter);
    var left := Pruned(objects.dirs);
    disk := new Disk(AllDirs(left, []), Survives(objects));
    DisksAreClosed(left);
    disk.ReconstructEmptyDirectories(DivElToDirPaths(div, [], false));
  }

  /** Of a tree that holds a directory but no file, nothing is restored. */
  lemma LoneDirectoryIsLost()
    ensures var objects := Folder([], Dirs("a", Folder([], NoDirs), NoDirs));
            ["a"] in AllDirs(objects.dirs, []) && Outside(["a"]) && !Survives(objects)
            && forall counter: nat :: !RoundTrip(objects, counter, ["a"])
  {
    var objects := Folder([], Dirs("a", Folder([], NoDirs), NoDirs));
    assert Join([], "a") == ["a"];
    forall counter: nat ensures !RoundTrip(objects, counter, ["a"]) {
      EmptyDirectoriesRestored(objects, counter, ["a"]);
    }
  }
}
