/** The sorted listings `createFileSec` works on, from the tree on disk once its empty
    directories are gone. */
module Listings {
  import EmptyDirectories
  import opened FileSec
  import opened FileSecFiles
  import opened Results
  import opened Sequences
  import SortedKeys
  import StructMap
  import StructMapTree

  /** One entry in front of a listing: a file, or a directory with its own listing. */
  function Entry(name: string, sub: Option<Listing>, rest: Listing): Listing {
    if sub.None? then OnFile(name, rest) else OnDir(name, sub.value, rest)
  }

  function Inserted(name: string, sub: Option<Listing>, l: Listing): Listing {
    match l
    case End => Entry(name, sub, End)
    case OnFile(other, rest) =>
      if SortedKeys.Before(name, other) then Entry(name, sub, l) else OnFile(other, Inserted(name, sub, rest))
    case OnDir(other, dir, rest) =>
      if SortedKeys.Before(name, other) then Entry(name, sub, l) else OnDir(other, dir, Inserted(name, sub, rest))
  }

  function WithFiles(files: seq<string>, l: Listing): Listing {
    if files == [] then l else Inserted(files[0], None, WithFiles(files[1..], l))
  }

  /** `sorted(os.listdir(...))` of a directory and everything below it. */
  function ListingOf(folder: StructMap.Folder): Listing
    decreases folder
  {
    WithFiles(folder.files, DirsListing(folder.dirs))
  }

  function DirsListing(dirs: StructMap.Dirs): Listing
    decreases dirs
  {
    match dirs
    case NoDirs => End
    case Dirs(name, folder, rest) => Inserted(name, Some(ListingOf(folder)), DirsListing(rest))
  }

  /** What is left of a top directory, if anything. */
  function LeftOf(folder: Option<StructMap.Folder>): Option<Listing> {
    if folder.Some? && EmptyDirectories.Survives(folder.value) then
      Some(ListingOf(StructMap.Folder(folder.value.files, EmptyDirectories.Pruned(folder.value.dirs))))
    else None
  }

  /* ----- order ----- */

  predicate Ascending(l: Listing) {
    match l
    case End => true
    case OnFile(name, rest) => (forall n :: n in Names(rest) ==> SortedKeys.Before(name, n)) && Ascending(rest)
    case OnDir(name, sub, rest) =>
      (forall n :: n in Names(rest) ==> SortedKeys.Before(name, n)) && Ascending(sub) && Ascending(rest)
  }

  lemma {:induction false} InsertedNames(name: string, sub: Option<Listing>, l: Listing)
    ensures Names(Inserted(name, sub, l)) == Names(l) + {name}
  {
    match l
    case End =>
    case OnFile(other, rest) => InsertedNames(name, sub, rest);
    case OnDir(other, _, rest) => InsertedNames(name, sub, rest);
  }

  /** A name that comes before the first one comes before all. */
  lemma FirstOfAll(name: string, other: string, names: set<string>)
    requires SortedKeys.Before(name, other) && forall n :: n in names ==> SortedKeys.Before(other, n)
    ensures forall n :: n in names + {other} ==> SortedKeys.Before(name, n)
  {
    forall n | n in names + {other} ensures SortedKeys.Before(name, n) {
      if n != other {
        SortedKeys.BeforeTransitive(name, other, n);
      }
    }
  }

  lemma {:induction false} InsertedAscending(name: string, sub: Option<Listing>, l: Listing)
    requires Ascending(l) && (sub.Some? ==> Ascending(sub.value))
    ensures Ascending(Inserted(name, sub, l))
  {
    match l
    case End =>
    case OnFile(other, rest) =>
      SortedKeys.BeforeTotal(name, other);
      if SortedKeys.Before(name, other) {
        FirstOfAll(name, other, Names(rest));
      } else {
        InsertedAscending(name, sub, rest);
        InsertedNames(name, sub, rest);
      }
    case OnDir(other, _, rest) =>
      SortedKeys.BeforeTotal(name, other);
      if SortedKeys.Before(name, other) {
        FirstOfAll(name, other, Names(rest));
      } else {
        InsertedAscending(name, sub, rest);
        InsertedNames(name, sub, rest);
      }
  }

  lemma {:induction false} WithFilesAscending(files: seq<string>, l: Listing)
    requires Ascending(l)
    ensures Ascending(WithFiles(files, l))
  {
    if files != [] {
      WithFilesAscending(files[1..], l);
      InsertedAscending(files[0], None, WithFiles(files[1..], l));
    }
  }

  /** Every directory is listed in the order of names. */
  lemma {:induction false} ListingAscending(folder: StructMap.Folder)
    ensures Ascending(ListingOf(folder))
    decreases folder
  {
    DirsListingAscending(folder.dirs);
    WithFilesAscending(folder.files, DirsListing(folder.dirs));
  }

  lemma {:induction false} DirsListingAscending(dirs: StructMap.Dirs)
    ensures Ascending(DirsListing(dirs))
    decreases dirs
  {
    match dirs
    case NoDirs =>
    case Dirs(name, folder, rest) =>
      ListingAscending(folder);
      DirsListingAscending(rest);
      InsertedAscending(name, Some(ListingOf(folder)), DirsListing(rest));
  }

  /* ----- contents ----- */

  function DirNameSet(dirs: StructMap.Dirs): set<string> {
    match dirs
    case NoDirs => {}
    case Dirs(name, _, rest) => {name} + DirNameSet(rest)
  }

  /** What a file system guarantees: the names in a directory are distinct. */
  ghost predicate ValidFolder(folder: StructMap.Folder)
    decreases folder
  {
    && Distinct(folder.files) && (forall f :: f in folder.files ==> f !in DirNameSet(folder.dirs))
    && ValidDirs(folder.dirs)
  }

  ghost predicate ValidDirs(dirs: StructMap.Dirs)
    decreases dirs
  {
    match dirs
    case NoDirs => true
    case Dirs(name, folder, rest) => name !in DirNameSet(rest) && ValidFolder(folder) && ValidDirs(rest)
  }

  lemma {:induction false} InsertedValid(name: string, sub: Option<Listing>, l: Listing)
    requires Valid(l) && name !in Names(l) && (sub.Some? ==> Valid(sub.value))
    ensures Valid(Inserted(name, sub, l))
  {
    match l
    case End =>
    case OnFile(other, rest) =>
      InsertedValid(name, sub, rest);
      InsertedNames(name, sub, rest);
    case OnDir(other, _, rest) =>
      InsertedValid(name, sub, rest);
      InsertedNames(name, sub, rest);
  }

  lemma {:induction false} WithFilesNames(files: seq<string>, l: Listing)
    ensures Names(WithFiles(files, l)) == (set f | f in files) + Names(l)
  {
    if files != [] {
      WithFilesNames(files[1..], l);
      InsertedNames(files[0], None, WithFiles(files[1..], l));
      assert files == [files[0]] + files[1..];
    }
  }

  lemma {:induction false} WithFilesValid(files: seq<string>, l: Listing)
    requires Valid(l) && Distinct(files) && forall f :: f in files ==> f !in Names(l)
    ensures Valid(WithFiles(files, l))
  {
    if files != [] {
      WithFilesValid(files[1..], l);
      WithFilesNames(files[1..], l);
      InsertedValid(files[0], None, WithFiles(files[1..], l));
    }
  }

  lemma {:induction false} DirsListingNames(dirs: StructMap.Dirs)
    ensures Names(DirsListing(dirs)) == DirNameSet(dirs)
  {
    match dirs
    case NoDirs =>
    case Dirs(name, folder, rest) =>
      DirsListingNames(rest);
      InsertedNames(name, Some(ListingOf(folder)), DirsListing(rest));
  }

  lemma {:induction false} ListingValid(folder: StructMap.Folder)
    requires ValidFolder(folder)
    ensures Valid(ListingOf(folder))
    decreases folder
  {
    DirsListingValid(folder.dirs);
    DirsListingNames(folder.dirs);
    WithFilesValid(folder.files, DirsListing(folder.dirs));
  }

  lemma {:induction false} DirsListingValid(dirs: StructMap.Dirs)
    requires ValidDirs(dirs)
    ensures Valid(DirsListing(dirs))
    decreases dirs
  {
    match dirs
    case NoDirs =>
    case Dirs(name, folder, rest) =>
      ListingValid(folder);
      DirsListingValid(rest);
      DirsListingNames(rest);
      InsertedValid(name, Some(ListingOf(folder)), DirsListing(rest));
  }

  lemma {:induction false} PrunedValid(dirs: StructMap.Dirs)
    requires ValidDirs(dirs)
    ensures ValidDirs(EmptyDirectories.Pruned(dirs)) && DirNameSet(EmptyDirectories.Pruned(dirs)) <= DirNameSet(dirs)
  {
    match dirs
    case NoDirs =>
    case Dirs(name, folder, rest) =>
      PrunedValid(folder.dirs);
      PrunedValid(rest);
  }

  /** The directories of a listing. */
  function DirsIn(path: Path, l: Listing): set<Path>
    decreases l
  {
    match l
    case End => {}
    case OnFile(_, rest) => DirsIn(path, rest)
    case OnDir(name, sub, rest) => {path + [name]} + DirsIn(path + [name], sub) + DirsIn(path, rest)
  }

  /** The files and the directories an entry brings. */
  function FilesOf(path: Path, name: string, sub: Option<Listing>): set<Path> {
    if sub.None? then {path + [name]} else FilePaths(path + [name], sub.value)
  }

  function DirsOf(path: Path, name: string, sub: Option<Listing>): set<Path> {
    if sub.None? then {} else {path + [name]} + DirsIn(path + [name], sub.value)
  }

  lemma {:induction false} InsertedHolds(path: Path, name: string, sub: Option<Listing>, l: Listing)
    ensures FilePaths(path, Inserted(name, sub, l)) == FilesOf(path, name, sub) + FilePaths(path, l)
    ensures DirsIn(path, Inserted(name, sub, l)) == DirsOf(path, name, sub) + DirsIn(path, l)
  {
    match l
    case End =>
    case OnFile(other, rest) => InsertedHolds(path, name, sub, rest);
    case OnDir(other, _, rest) => InsertedHolds(path, name, sub, rest);
  }

  lemma FirstFile(path: Path, name: string, rest: seq<string>)
    ensures EmptyDirectories.FilesHere(path, [name] + rest)
         == {path + [name]} + EmptyDirectories.FilesHere(path, rest)
  {
    var all, later := EmptyDirectories.FilesHere(path, [name] + rest), EmptyDirectories.FilesHere(path, rest);
    forall p | p in all ensures p in {path + [name]} + later {
      var f :| f in [name] + rest && p == StructMapTree.Join(path, f);
      assert f == name || f in rest;
    }
    forall p | p in later ensures p in all {
      var f :| f in rest && p == StructMapTree.Join(path, f);
      assert f in [name] + rest;
    }
    assert name in [name] + rest && StructMapTree.Join(path, name) in all;
  }

  lemma {:induction false} WithFilesHolds(path: Path, files: seq<string>, l: Listing)
    ensures FilePaths(path, WithFiles(files, l)) == EmptyDirectories.FilesHere(path, files) + FilePaths(path, l)
    ensures DirsIn(path, WithFiles(files, l)) == DirsIn(path, l)
  {
    if files != [] {
      WithFilesHolds(path, files[1..], l);
      InsertedHolds(path, files[0], None, WithFiles(files[1..], l));
      FirstFile(path, files[0], files[1..]);
      assert files == [files[0]] + files[1..];
    }
  }

  /** A listing holds the files and the directories of its directory. */
  lemma {:induction false} ListingHolds(path: Path, folder: StructMap.Folder)
    ensures FilePaths(path, ListingOf(folder)) ==
            EmptyDirectories.FilesHere(path, folder.files) + EmptyDirectories.AllFiles(folder.dirs, path)
    ensures DirsIn(path, ListingOf(folder)) == EmptyDirectories.AllDirs(folder.dirs, path)
    decreases folder
  {
    DirsListingHolds(path, folder.dirs);
    WithFilesHolds(path, folder.files, DirsListing(folder.dirs));
  }

  lemma {:induction false} DirsListingHolds(path: Path, dirs: StructMap.Dirs)
    ensures FilePaths(path, DirsListing(dirs)) == EmptyDirectories.AllFiles(dirs, path)
    ensures DirsIn(path, DirsListing(dirs)) == EmptyDirectories.AllDirs(dirs, path)
    decreases dirs
  {
    match dirs
    case NoDirs =>
    case Dirs(name, folder, rest) =>
      ListingHolds(path + [name], folder);
      DirsListingHolds(path, rest);
      InsertedHolds(path, name, Some(ListingOf(folder)), DirsListing(rest));
  }

  /** The files of a top directory as it was, and its directories. */
  function FilesOn(name: string, folder: Option<StructMap.Folder>): set<Path> {
    if folder.None? then {} else
      EmptyDirectories.FilesHere([name], folder.value.files) + EmptyDirectories.AllFiles(folder.value.dirs, [name])
  }

  function DirsOn(name: string, folder: Option<StructMap.Folder>): set<Path> {
    if folder.None? then {} else {[name]} + EmptyDirectories.AllDirs(folder.value.dirs, [name])
  }

  lemma NothingLeft(name: string, folder: StructMap.Folder)
    requires !EmptyDirectories.Survives(folder)
    ensures FilesOn(name, Some(folder)) == {}
  {
    EmptyDirectories.PruningKeepsFiles(folder.dirs, [name]);
    assert EmptyDirectories.AllFiles(EmptyDirectories.Pruned(folder.dirs), [name]) == {};
  }

  /** Sorting and deleting empty directories keep the files; what is left is a valid listing. */
  lemma LeftHolds(name: string, folder: Option<StructMap.Folder>)
    ensures LeftOf(folder).None? ==> FilesOn(name, folder) == {}
    ensures LeftOf(folder).Some? ==> folder.Some?
    ensures LeftOf(folder).Some? ==> FilePaths([name], LeftOf(folder).value) == FilesOn(name, folder)
    ensures LeftOf(folder).Some? ==> {[name]} + DirsIn([name], LeftOf(folder).value) <= DirsOn(name, folder)
    ensures LeftOf(folder).Some? && ValidFolder(folder.value) ==> Valid(LeftOf(folder).value)
    ensures LeftOf(folder).Some? ==> Ascending(LeftOf(folder).value)
  {
    if folder.Some? {
      var left := StructMap.Folder(folder.value.files, EmptyDirectories.Pruned(folder.value.dirs));
      EmptyDirectories.PruningKeepsFiles(folder.value.dirs, [name]);
      if EmptyDirectories.Survives(folder.value) {
        ListingHolds([name], left);
        ListingAscending(left);
        if ValidFolder(folder.value) {
          PrunedValid(folder.value.dirs);
          ListingValid(left);
        }
      } else {
        NothingLeft(name, folder.value);
      }
    }
  }

  /** Something is left of a top directory exactly if it has a file, and of the directories in it exactly
      those with a file somewhere below. */
  lemma LeftIff(name: string, folder: Option<StructMap.Folder>)
    ensures LeftOf(folder).Some? <==> FilesOn(name, folder) != {}
    ensures LeftOf(folder).Some? ==>
              forall q :: q in DirsIn([name], LeftOf(folder).value) <==>
                EmptyDirectories.Below([name], q)
                && exists f :: f in FilesOn(name, folder) && EmptyDirectories.Below(q, f)
  {
    if folder.Some? {
      LeftWithFiles(name, folder.value);
      if LeftOf(folder).Some? {
        ListingHolds([name], StructMap.Folder(folder.value.files, EmptyDirectories.Pruned(folder.value.dirs)));
        forall q
          ensures q in DirsIn([name], LeftOf(folder).value) <==>
                  EmptyDirectories.Below([name], q)
                  && exists f :: f in FilesOn(name, folder) && EmptyDirectories.Below(q, f)
        {
          EmptyDirectories.PrunedIff(folder.value.dirs, [name], q);
          if EmptyDirectories.Below([name], q) {
            FilesBelow(name, folder.value, q);
          }
        }
      }
    }
  }

  lemma LeftWithFiles(name: string, folder: StructMap.Folder)
    ensures EmptyDirectories.Survives(folder) <==> FilesOn(name, Some(folder)) != {}
  {
    EmptyDirectories.SurvivesIff(folder, [name]);
    if folder.files != [] {
      assert StructMapTree.Join([name], folder.files[0]) in EmptyDirectories.FilesHere([name], folder.files);
    } else {
      assert EmptyDirectories.FilesHere([name], folder.files) == {};
    }
  }

  /** A file right in the top directory is below none of its directories. */
  lemma FilesBelow(name: string, folder: StructMap.Folder, q: Path)
    requires EmptyDirectories.Below([name], q)
    ensures EmptyDirectories.FileBelow(folder.dirs, [name], q) <==>
            exists f :: f in FilesOn(name, Some(folder)) && EmptyDirectories.Below(q, f)
  {
    forall f | f in EmptyDirectories.FilesHere([name], folder.files) ensures |f| == 2 {
      var x :| x in folder.files && f == StructMapTree.Join([name], x);
    }
    if EmptyDirectories.FileBelow(folder.dirs, [name], q) {
      var f :| f in EmptyDirectories.AllFiles(folder.dirs, [name]) && EmptyDirectories.Below(q, f);
      assert f in FilesOn(name, Some(folder));
    }
  }
}
