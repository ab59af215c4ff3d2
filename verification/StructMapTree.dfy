/** The tree the structMap loop builds is the directory tree, and reading its directories back
    gives them all. */
module StructMapTree {
  import opened MetsDiv
  import opened Numbering
  import opened Results
  import opened StructMap
  import opened Sequences

  function FileDivs(files: seq<string>): seq<Div> {
    if files == [] then [] else FileDivs(files[..|files| - 1]) + [Div(false, files[|files| - 1], [], None, [])]
  }

  /** Does this directory get a dmdSec? */
  predicate Described(path: Path, folder: Folder) {
    IsEmpty(folder) && !InTransfers(path)
  }

  /** The div of a directory: its files, then its directories. */
  function DirDiv(path: Path, folder: Folder, counter: nat): Div
    decreases folder
  {
    var c := if Described(path, folder) then counter + 1 else counter;
    Div(true, Basename(path), if Described(path, folder) then [c] else [], None,
        FileDivs(folder.files) + SubDivs(path, folder.dirs, c))
  }

  function SubDivs(path: Path, dirs: Dirs, counter: nat): seq<Div>
    decreases dirs
  {
    match dirs
    case NoDirs => []
    case Dirs(name, folder, rest) =>
      [DirDiv(path + [name], folder, counter)] + SubDivs(path, rest, counter + Count(path + [name], folder))
  }

  /** How many dmdSecs a directory accounts for. */
  function Count(path: Path, folder: Folder): nat
    decreases folder
  {
    (if Described(path, folder) then 1 else 0) + SubCount(path, folder.dirs)
  }

  function SubCount(path: Path, dirs: Dirs): nat
    decreases dirs
  {
    match dirs
    case NoDirs => 0
    case Dirs(name, folder, rest) => Count(path + [name], folder) + SubCount(path, rest)
  }

  /** Index entries for paths no longer than `depth` survive. */
  ghost predicate Keeps(s: State, t: State, depth: nat) {
    forall q :: q in s.pathToEl && |q| <= depth ==> q in t.pathToEl && t.pathToEl[q] == s.pathToEl[q]
  }

  /** From s to t, the element at `a` has got the given children and `count` dmdSecs were made. */
  ghost predicate Grown(s: State, t: State, a: Address, children: seq<Div>, count: nat, p: Path) {
    && Indexed(t) && Has(s.root, a)
    && t.root == AppendAt(s.root, a, children)
    && t.dmdCounter == s.dmdCounter + count
    && Keeps(s, t, |p|)
  }

  lemma GrownTwice(s: State, t: State, u: State, a: Address, x: seq<Div>, y: seq<Div>, m: nat, n: nat, p: Path)
    requires Grown(s, t, a, x, m, p) && Grown(t, u, a, y, n, p)
    ensures Grown(s, u, a, x + y, m + n, p)
  {
    AppendTwice(s.root, a, x, y);
  }

  lemma GrownNothing(s: State, a: Address, p: Path)
    requires Indexed(s) && Has(s.root, a)
    ensures Grown(s, s, a, [], 0, p)
  {
    AppendNothing(s.root, a);
  }

  /** Adding the items succeeds, and gives the element at `a` the children. */
  ghost predicate Built(s: State, items: seq<FSItem>, a: Address, children: seq<Div>, count: nat, p: Path) {
    Indexed(s) && AddItems(s, items).Success? && Grown(s, AddItems(s, items).value, a, children, count, p)
  }

  lemma NothingBuilt(s: State, a: Address, p: Path)
    requires Indexed(s) && Has(s.root, a)
    ensures Built(s, [], a, [], 0, p)
  {
    AddNothing(s);
    GrownNothing(s, a, p);
  }

  lemma BuiltTwice(s: State, x: seq<FSItem>, y: seq<FSItem>, a: Address, ds: seq<Div>, es: seq<Div>, m: nat, n: nat,
                   p: Path)
    requires Built(s, x, a, ds, m, p) && Built(AddItems(s, x).value, y, a, es, n, p)
    ensures Built(s, x + y, a, ds + es, m + n, p)
  {
    AddItemsConcat(s, x, y);
    var t := AddItems(s, x).value;
    GrownTwice(s, t, AddItems(t, y).value, a, ds, es, m, n, p);
  }

  lemma BuiltKeeps(s: State, items: seq<FSItem>, a: Address, children: seq<Div>, count: nat, p: Path)
    requires Built(s, items, a, children, count, p) && p in s.pathToEl
    ensures AddItems(s, items).Success? && AddItems(s, items).value.dmdCounter == s.dmdCounter + count
    ensures p in AddItems(s, items).value.pathToEl && AddItems(s, items).value.pathToEl[p] == s.pathToEl[p]
  {
  }

  lemma ChildPath(p: Path, name: string)
    ensures p + [name] != [] && Dirname(p + [name]) == p && Basename(p + [name]) == name
  {
  }

  lemma FileItemsSnoc(p: Path, files: seq<string>)
    requires files != []
    ensures FileItems(p, files) ==
            FileItems(p, files[..|files| - 1]) + [FSItem(false, p + [files[|files| - 1]], false)]
  {
  }

  lemma FileBuilds(s: State, p: Path, name: string)
    requires Indexed(s) && p in s.pathToEl
    ensures Built(s, [FSItem(false, p + [name], false)], s.pathToEl[p], [Div(false, name, [], None, [])], 0, p)
  {
    ChildPath(p, name);
    var item := FSItem(false, p + [name], false);
    AddItemsOne(s, item);
    AddItemIndexed(s, item);
  }

  /** The files of a directory become items of its element. */
  lemma {:induction false} FilesBuild(s: State, p: Path, files: seq<string>)
    requires Indexed(s) && p in s.pathToEl
    ensures Built(s, FileItems(p, files), s.pathToEl[p], FileDivs(files), 0, p)
  {
    if files == [] {
      NothingBuilt(s, s.pathToEl[p], p);
    } else {
      var n := |files| - 1;
      FilesBuild(s, p, files[..n]);
      FileItemsSnoc(p, files);
      FileBuilds(AddItems(s, FileItems(p, files[..n])).value, p, files[n]);
      BuiltTwice(s, FileItems(p, files[..n]), [FSItem(false, p + [files[n]], false)], s.pathToEl[p],
                 FileDivs(files[..n]), [Div(false, files[n], [], None, [])], 0, 0, p);
    }
  }

  /** The element of a directory and what is below it, given that its own item was added. */
  lemma DirComplete(s: State, t: State, u: State, a: Address, d: Div, children: seq<Div>, n: nat, p: Path)
    requires p != [] && Indexed(s) && Has(s.root, a) && Grown(s, t, a, [d], 0, Dirname(p)) && d.children == []
    requires Grown(t, u, Child(a, |At(s.root, a).children|), children, n, p)
    ensures Grown(s, u, a, [d.(children := children)], n, Dirname(p))
  {
    AppendedIsThere(s.root, a, d, children);
    assert d.children + children == children;
  }

  lemma EmptyDirBuilds(s: State, p: Path, folder: Folder)
    requires Indexed(s) && p != [] && Dirname(p) in s.pathToEl && IsEmpty(folder)
    ensures Built(s, Items(p, folder), s.pathToEl[Dirname(p)], [DirDiv(p, folder, s.dmdCounter)], Count(p, folder),
                  Dirname(p))
  {
    var item := FSItem(true, p, true);
    assert Items(p, folder) == [item];
    assert DirDiv(p, folder, s.dmdCounter).children == [];
    AddItemsOne(s, item);
    AddItemIndexed(s, item);
  }

  /** The item of a directory that is not empty makes its element. */
  lemma DirItem(s: State, p: Path)
    requires Indexed(s) && p != [] && Dirname(p) in s.pathToEl
    ensures var item := FSItem(true, p, false);
            var a := s.pathToEl[Dirname(p)];
            && Has(s.root, a) && Built(s, [item], a, [Div(true, Basename(p), [], None, [])], 0, Dirname(p))
            && p in AddItems(s, [item]).value.pathToEl
            && AddItems(s, [item]).value.pathToEl[p] == Child(a, |At(s.root, a).children|)
            && AddItems(s, [item]).value.dmdCounter == s.dmdCounter
  {
    var item := FSItem(true, p, false);
    AddItemsOne(s, item);
    AddItemIndexed(s, item);
  }

  lemma InsideBuilt(s: State, p: Path, x: seq<FSItem>, children: seq<Div>, n: nat)
    requires Indexed(s) && p != [] && Dirname(p) in s.pathToEl
    requires AddItems(s, [FSItem(true, p, false)]).Success?
    requires var t := AddItems(s, [FSItem(true, p, false)]).value;
             p in t.pathToEl && Built(t, x, t.pathToEl[p], children, n, p)
    ensures Built(s, [FSItem(true, p, false)] + x, s.pathToEl[Dirname(p)], [Div(true, Basename(p), [], None, children)], n,
                  Dirname(p))
  {
    DirItem(s, p);
    var item := FSItem(true, p, false);
    var t := AddItems(s, [item]).value;
    AddItemsConcat(s, [item], x);
    DirComplete(s, t, AddItems(t, x).value, s.pathToEl[Dirname(p)], Div(true, Basename(p), [], None, []), children, n, p);
  }

  /** A directory becomes the last child of the element of its parent. */
  lemma {:induction false} DirBuilds(s: State, p: Path, folder: Folder)
    requires Indexed(s) && p != [] && Dirname(p) in s.pathToEl
    ensures Built(s, Items(p, folder), s.pathToEl[Dirname(p)], [DirDiv(p, folder, s.dmdCounter)], Count(p, folder),
                  Dirname(p))
    decreases folder
  {
    if IsEmpty(folder) {
      EmptyDirBuilds(s, p, folder);
    } else {
      var item := FSItem(true, p, false);
      DirItem(s, p);
      var t := AddItems(s, [item]).value;
      FilesBuild(t, p, folder.files);
      SubsBuild(AddItems(t, FileItems(p, folder.files)).value, p, folder.dirs);
      BuiltTwice(t, FileItems(p, folder.files), SubItems(p, folder.dirs), t.pathToEl[p], FileDivs(folder.files),
                 SubDivs(p, folder.dirs, s.dmdCounter), 0, SubCount(p, folder.dirs), p);
      InsideBuilt(s, p, FileItems(p, folder.files) + SubItems(p, folder.dirs),
                  FileDivs(folder.files) + SubDivs(p, folder.dirs, s.dmdCounter), SubCount(p, folder.dirs));
      Associative([item], FileItems(p, folder.files), SubItems(p, folder.dirs));
    }
  }

  lemma {:induction false} SubsBuild(s: State, p: Path, dirs: Dirs)
    requires Indexed(s) && p in s.pathToEl
    ensures Built(s, SubItems(p, dirs), s.pathToEl[p], SubDivs(p, dirs, s.dmdCounter), SubCount(p, dirs), p)
    decreases dirs
  {
    hide Built;
    hide AddItems;
    match dirs
    case NoDirs =>
      NothingBuilt(s, s.pathToEl[p], p);
    case Dirs(name, folder, rest) =>
      var sub := p + [name];
      ChildPath(p, name);
      DirBuilds(s, sub, folder);
      var t := AddItems(s, Items(sub, folder)).value;
      BuiltKeeps(s, Items(sub, folder), s.pathToEl[p], [DirDiv(sub, folder, s.dmdCounter)], Count(sub, folder), p);
      SubsBuild(t, p, rest);
      BuiltTwice(s, Items(sub, folder), SubItems(p, rest), s.pathToEl[p], [DirDiv(sub, folder, s.dmdCounter)],
                 SubDivs(p, rest, t.dmdCounter), Count(sub, folder), SubCount(p, rest), p);
  }

  /** The dmdSecs made are numbered consecutively. */
  lemma {:induction false} DmdSecsNumbered(s: State, items: seq<FSItem>)
    requires Indexed(s)
    ensures AddItems(s, items).Success? ==>
              var t := AddItems(s, items).value;
              t.dmdCounter >= s.dmdCounter && t.dmdSecs == s.dmdSecs + Numbers(s.dmdCounter, t.dmdCounter)
  {
    if items != [] && AddItems(s, items).Success? {
      var n := |items| - 1;
      DmdSecsNumbered(s, items[..n]);
      var t := AddItems(s, items[..n]).value;
      NumbersNext(s.dmdCounter, t.dmdCounter);
    }
  }

  /** Building the structMap of any directory tree never misses a parent; the result is the
      tree itself, and every dmdSec number made is new. */
  lemma StructMapIsTree(sip: string, folder: Folder, counter: nat, dmdSecs: seq<nat>)
    ensures var start := State(Div(true, sip, [], None, []), map[[] := Root], counter, dmdSecs);
            var objects := ["objects"];
            var end := AddItems(start, AllItems(Walk(objects, folder)));
            && end.Success?
            && end.value.root == Div(true, sip, [], None, [DirDiv(objects, folder, counter)])
            && end.value.dmdSecs == dmdSecs + Numbers(counter, counter + Count(objects, folder))
            && end.value.dmdCounter == counter + Count(objects, folder)
  {
    var start := State(Div(true, sip, [], None, []), map[[] := Root], counter, dmdSecs);
    var objects := ["objects"];
    WalkItems(objects, folder);
    assert Dirname(objects) == [];
    DirBuilds(start, objects, folder);
    DmdSecsNumbered(start, Items(objects, folder));
    BuiltAtRoot(start, Items(objects, folder), DirDiv(objects, folder, counter), Count(objects, folder));
    hide Built;
    hide AddItems;
    hide DirDiv;
    hide Count;
    hide Items;
    hide Numbers;
  }

  lemma BuiltAtRoot(s: State, items: seq<FSItem>, d: Div, count: nat)
    requires Built(s, items, Root, [d], count, [])
    ensures AddItems(s, items).Success?
    ensures var t := AddItems(s, items).value;
            t.root == s.root.(children := s.root.children + [d]) && t.dmdCounter == s.dmdCounter + count
  {
    hide AddItems;
  }

  lemma {:induction false} FilesUndescribed(files: seq<string>)
    ensures DmdRefs(FileDivs(files)) == []
  {
    if files != [] {
      var n := |files| - 1;
      FilesUndescribed(files[..n]);
      RefsSnoc(FileDivs(files[..n]), Div(false, files[n], [], None, []));
    }
  }

  lemma DirDivIs(p: Path, folder: Folder, counter: nat)
    ensures var c := if Described(p, folder) then counter + 1 else counter;
            DirDiv(p, folder, counter) == Div(true, Basename(p), Numbers(counter, c), None,
                                              FileDivs(folder.files) + SubDivs(p, folder.dirs, c))
  {
  }

  /** The references in a directory's div are, in order, exactly the dmdSecs made for it. */
  lemma {:induction false} ReferencesResolve(p: Path, folder: Folder, counter: nat)
    ensures DmdRefs([DirDiv(p, folder, counter)]) == Numbers(counter, counter + Count(p, folder))
    decreases folder
  {
    hide DmdRefs;
    hide Numbers;
    hide DirDiv;
    DirDivIs(p, folder, counter);
    var c := if Described(p, folder) then counter + 1 else counter;
    SubReferencesResolve(p, folder.dirs, c);
    FilesUndescribed(folder.files);
    RefsConcat(FileDivs(folder.files), SubDivs(p, folder.dirs, c));
    NothingBefore(DmdRefs(SubDivs(p, folder.dirs, c)));
    RefsOfOne(DirDiv(p, folder, counter));
    NumbersJoin(counter, c, c + SubCount(p, folder.dirs));
  }

  lemma {:induction false} SubReferencesResolve(p: Path, dirs: Dirs, counter: nat)
    ensures DmdRefs(SubDivs(p, dirs, counter)) == Numbers(counter, counter + SubCount(p, dirs))
    decreases dirs
  {
    hide DmdRefs;
    hide DirDiv;
    match dirs
    case NoDirs =>
      NoRefs();
    case Dirs(name, folder, rest) =>
      var sub := p + [name];
      var c := counter + Count(sub, folder);
      ReferencesResolve(sub, folder, counter);
      SubReferencesResolve(p, rest, c);
      RefsConcat([DirDiv(sub, folder, counter)], SubDivs(p, rest, c));
      NumbersJoin(counter, c, c + SubCount(p, rest));
  }

  /* ----- div_el_to_dir_paths ----- */

  function Join(parent: Path, name: string): Path {
    parent + [name]
  }

  predicate Excluded(name: string) {
    name == "metadata" || name == "submissionDocumentation"
  }

  function DivElToDirPaths(div: Div, parent: Path, included: bool): seq<Path>
    decreases div
  {
    if parent == [] && Excluded(div.title) then [] else
      var path := if included then Join(parent, div.title) else parent;
      (if included then [path] else []) + SubDirPaths(div.children, path)
  }

  function SubDirPaths(children: seq<Div>, parent: Path): seq<Path>
    decreases children
  {
    if children == [] then [] else
      (if children[0].isDir then DivElToDirPaths(children[0], parent, true) else [])
      + SubDirPaths(children[1..], parent)
  }

  /** The two directories whose contents are left out. */
  const APART: set<string> := {"metadata", "submissionDocumentation"}

  /** All directories below one, in walk order; directly below the top, two are left out. */
  function DirPaths(dirs: Dirs, parent: Path): seq<Path>
    decreases dirs
  {
    match dirs
    case NoDirs => []
    case Dirs(name, folder, rest) =>
      (if parent == [] && name in APART then [] else [Join(parent, name)] + DirPaths(folder.dirs, Join(parent, name)))
      + DirPaths(rest, parent)
  }

  lemma {:induction false} SubDirPathsConcat(a: seq<Div>, b: seq<Div>, parent: Path)
    ensures SubDirPaths(a + b, parent) == SubDirPaths(a, parent) + SubDirPaths(b, parent)
  {
    if a == [] {
      assert a + b == b;
    } else {
      assert (a + b)[1..] == a[1..] + b;
      SubDirPathsConcat(a[1..], b, parent);
    }
  }

  lemma {:induction false} FilesAreNoDirs(files: seq<string>, parent: Path)
    ensures SubDirPaths(FileDivs(files), parent) == []
  {
    if files != [] {
      var n := |files| - 1;
      FilesAreNoDirs(files[..n], parent);
      SubDirPathsConcat(FileDivs(files[..n]), [Div(false, files[n], [], None, [])], parent);
    }
  }

  lemma SubDirPathsCons(d: Div, ds: seq<Div>, parent: Path)
    ensures SubDirPaths([d] + ds, parent) ==
            (if d.isDir then DivElToDirPaths(d, parent, true) else []) + SubDirPaths(ds, parent)
  {
    assert ([d] + ds)[1..] == ds;
  }

  lemma NamedDir(p: Path, name: string, folder: Folder, counter: nat)
    ensures DirDiv(p + [name], folder, counter).isDir && DirDiv(p + [name], folder, counter).title == name
  {
  }

  /** The directories below an element are read back in walk order. */
  lemma {:induction false} SubDivsReadBack(p: Path, dirs: Dirs, counter: nat, parent: Path)
    ensures SubDirPaths(SubDivs(p, dirs, counter), parent) == DirPaths(dirs, parent)
    decreases dirs
  {
    match dirs
    case NoDirs =>
    case Dirs(name, folder, rest) =>
      var d, c := DirDiv(p + [name], folder, counter), counter + Count(p + [name], folder);
      NamedDir(p, name, folder, counter);
      SubDivsReadBack(p, rest, c, parent);
      DirDivReadBack(p + [name], folder, counter, Join(parent, name));
      SubDirPathsCons(d, SubDivs(p, rest, c), parent);
  }

  lemma {:induction false} DirDivReadBack(p: Path, folder: Folder, counter: nat, path: Path)
    ensures SubDirPaths(DirDiv(p, folder, counter).children, path) == DirPaths(folder.dirs, path)
    decreases folder
  {
    var c := if Described(p, folder) then counter + 1 else counter;
    SubDivsReadBack(p, folder.dirs, c, path);
    FilesAreNoDirs(folder.files, path);
    SubDirPathsConcat(FileDivs(folder.files), SubDivs(p, folder.dirs, c), path);
  }

  /** Path list to tree to path list: every directory below objects outside the two excluded
      subtrees, once, in walk order. */
  lemma StructMapRoundTrip(folder: Folder, counter: nat)
    ensures DivElToDirPaths(DirDiv(["objects"], folder, counter), [], false) == DirPaths(folder.dirs, [])
  {
    DirDivReadBack(["objects"], folder, counter, []);
  }

  /* ----- the tree, told from the directory ----- */

  /** A directory has a dmdSec here if nothing is in it, unless it is below the transfers' metadata. */
  predicate IsDescribed(p: Path, folder: Folder) {
    folder.files == [] && folder.dirs == NoDirs && !(|p| > 3 && p[..3] == ["objects", "metadata", "transfers"])
  }

  /** The div is the directory's: its name, a div for each file and then one for each directory, in the order
      they are listed, and a DMDID if it has a dmdSec. */
  ghost predicate IsDivOf(p: Path, folder: Folder, d: Div)
    decreases folder
  {
    && d.isDir && p != [] && d.title == p[|p| - 1] && d.fptr == None
    && |d.dmdids| == (if IsDescribed(p, folder) then 1 else 0)
    && |d.children| >= |folder.files|
    && (forall i :: 0 <= i < |folder.files| ==> d.children[i] == Div(false, folder.files[i], [], None, []))
    && AreDivsOf(p, folder.dirs, d.children[|folder.files|..])
  }

  ghost predicate AreDivsOf(p: Path, dirs: Dirs, ds: seq<Div>)
    decreases dirs
  {
    match dirs
    case NoDirs => ds == []
    case Dirs(name, folder, rest) => ds != [] && IsDivOf(p + [name], folder, ds[0]) && AreDivsOf(p, rest, ds[1..])
  }

  lemma {:induction false} FileDivsAre(files: seq<string>)
    ensures |FileDivs(files)| == |files|
    ensures forall i :: 0 <= i < |files| ==> FileDivs(files)[i] == Div(false, files[i], [], None, [])
  {
    if files != [] {
      FileDivsAre(files[..|files| - 1]);
    }
  }

  lemma {:induction false} DirDivIsOf(p: Path, folder: Folder, counter: nat)
    requires p != []
    ensures IsDivOf(p, folder, DirDiv(p, folder, counter))
    decreases folder
  {
    var c := if Described(p, folder) then counter + 1 else counter;
    FileDivsAre(folder.files);
    SubDivsAreOf(p, folder.dirs, c);
    assert (FileDivs(folder.files) + SubDivs(p, folder.dirs, c))[|folder.files|..] == SubDivs(p, folder.dirs, c);
  }

  lemma {:induction false} SubDivsAreOf(p: Path, dirs: Dirs, counter: nat)
    ensures AreDivsOf(p, dirs, SubDivs(p, dirs, counter))
    decreases dirs
  {
    match dirs
    case NoDirs =>
    case Dirs(name, folder, rest) =>
      DirDivIsOf(p + [name], folder, counter);
      SubDivsAreOf(p, rest, counter + Count(p + [name], folder));
  }

  /** Building the structMap from the flat list of a walk succeeds, and the div of the objects directory,
      the only one below the SIP's, is that directory's; the DMDIDs in it are those of the dmdSecs made,
      in document order. */
  lemma StructMapShowsDirectory(sip: string, folder: Folder, counter: nat, dmdSecs: seq<nat>) returns (d: Div)
    ensures var start := State(Div(true, sip, [], None, []), map[[] := Root], counter, dmdSecs);
            var end := AddItems(start, AllItems(Walk(["objects"], folder)));
            && end.Success? && end.value.root == Div(true, sip, [], None, [d])
            && IsDivOf(["objects"], folder, d) && end.value.dmdSecs == dmdSecs + DmdRefs([d])
  {
    hide DirDiv;
    hide IsDivOf;
    hide AddItems;
    hide AllItems;
    hide Walk;
    hide DmdRefs;
    hide Count;
    hide Numbers;
    StructMapIsTree(sip, folder, counter, dmdSecs);
    d := DirDiv(["objects"], folder, counter);
    DirDivIsOf(["objects"], folder, counter);
    ReferencesResolve(["objects"], folder, counter);
  }
}
