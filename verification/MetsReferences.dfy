/** How often each dmdSec of the document is referred to, once the DMDIDs of the physical
    structMap were copied to the normative one. */
module MetsReferences {
  import EmptyDirectories
  import opened FileSec
  import opened FileSecFiles
  import opened FileSecNumbers
  import Listings
  import opened MetsDiv
  import opened MetsDocument
  import MetsIds
  import MetsIntegrity
  import opened NormativeDmdIds
  import opened Numbering
  import opened Results
  import opened Sequences
  import StructMap
  import StructMapTree

  /* ----- the elements of the normative structMap ----- */

  /** The elements have the LABELs and TYPEs of the items, in the same order. */
  ghost predicate Labelled(es: seq<Element>, items: seq<StructMap.FSItem>, sip: string) {
    |es| == |items|
    && forall i :: 0 <= i < |es| ==> es[i].labels == [sip] + items[i].path && es[i].isDir == items[i].isDir
  }

  lemma LabelledTwice(a: seq<Element>, b: seq<Element>, x: seq<StructMap.FSItem>, y: seq<StructMap.FSItem>,
                      sip: string)
    requires Labelled(a, x, sip) && Labelled(b, y, sip)
    ensures Labelled(a + b, x + y, sip)
  {
  }

  lemma LabelledOne(title: string, isDir: bool, ids: seq<nat>, p: Path, isEmpty: bool, sip: string)
    ensures Labelled([Element([sip] + p + [title], isDir, ids)], [StructMap.FSItem(isDir, p + [title], isEmpty)], sip)
  {
    Associative([sip], p, [title]);
  }

  lemma {:induction false} FilesLabelled(p: Path, files: seq<string>, sip: string)
    ensures Labelled(Elements(StructMapTree.FileDivs(files), [sip] + p), StructMap.FileItems(p, files), sip)
  {
    if files != [] {
      var n := |files| - 1;
      var e, item := Element([sip] + p + [files[n]], false, []), StructMap.FSItem(false, p + [files[n]], false);
      FilesLabelled(p, files[..n], sip);
      ElementsSnoc(StructMapTree.FileDivs(files[..n]), Div(false, files[n], [], None, []), [sip] + p);
      assert Elements([], [sip] + p + [files[n]]) == [] && [e] + [] == [e];
      LabelledOne(files[n], false, [], p, false, sip);
      LabelledTwice(Elements(StructMapTree.FileDivs(files[..n]), [sip] + p), [e], StructMap.FileItems(p, files[..n]),
                    [item], sip);
    }
  }

  /** The elements of a directory, in document order, are made in the order of its items. */
  lemma {:induction false} DirLabelled(p: Path, name: string, folder: StructMap.Folder, counter: nat, sip: string)
    ensures Labelled(Elements([StructMapTree.DirDiv(p + [name], folder, counter)], [sip] + p),
                     StructMap.Items(p + [name], folder), sip)
    decreases folder
  {
    hide Labelled;
    hide Elements;
    hide StructMapTree.DirDiv;
    hide StructMap.Items;
    var q := p + [name];
    var c := if StructMapTree.Described(q, folder) then counter + 1 else counter;
    var d := StructMapTree.DirDiv(q, folder, counter);
    var files, dirs := StructMapTree.FileDivs(folder.files), StructMapTree.SubDivs(q, folder.dirs, c);
    StructMapTree.DirDivIs(q, folder, counter);
    ElementsOfOne(d, [sip] + p);
    Associative([sip], p, [name]);
    ElementsConcat(files, dirs, [sip] + q);
    FilesLabelled(q, folder.files, sip);
    SubsLabelled(q, folder.dirs, c, sip);
    LabelledTwice(Elements(files, [sip] + q), Elements(dirs, [sip] + q), StructMap.FileItems(q, folder.files),
                  StructMap.SubItems(q, folder.dirs), sip);
    LabelledOne(name, true, d.dmdids, p, StructMap.IsEmpty(folder), sip);
    LabelledTwice([Element([sip] + p + [name], true, d.dmdids)], Elements(files, [sip] + q) + Elements(dirs, [sip] + q),
                  [StructMap.FSItem(true, q, StructMap.IsEmpty(folder))],
                  StructMap.FileItems(q, folder.files) + StructMap.SubItems(q, folder.dirs), sip);
    ItemsAre(q, folder);
  }

  lemma ItemsAre(p: Path, folder: StructMap.Folder)
    ensures StructMap.Items(p, folder) == [StructMap.FSItem(true, p, StructMap.IsEmpty(folder))]
                                          + (StructMap.FileItems(p, folder.files) + StructMap.SubItems(p, folder.dirs))
  {
    Associative([StructMap.FSItem(true, p, StructMap.IsEmpty(folder))], StructMap.FileItems(p, folder.files),
                StructMap.SubItems(p, folder.dirs));
  }

  lemma {:induction false} SubsLabelled(p: Path, dirs: StructMap.Dirs, counter: nat, sip: string)
    ensures Labelled(Elements(StructMapTree.SubDivs(p, dirs, counter), [sip] + p), StructMap.SubItems(p, dirs), sip)
    decreases dirs
  {
    match dirs
    case NoDirs =>
    case Dirs(name, folder, rest) =>
      hide Labelled;
      hide Elements;
      hide StructMapTree.DirDiv;
      hide StructMap.Items;
      var c := counter + StructMapTree.Count(p + [name], folder);
      var d, others := StructMapTree.DirDiv(p + [name], folder, counter), StructMapTree.SubDivs(p, rest, c);
      DirLabelled(p, name, folder, counter, sip);
      SubsLabelled(p, rest, c, sip);
      ElementsConcat([d], others, [sip] + p);
      LabelledTwice(Elements([d], [sip] + p), Elements(others, [sip] + p), StructMap.Items(p + [name], folder),
                    StructMap.SubItems(p, rest), sip);
  }

  /** The normative structMap has one element for the SIP and one for each item, in that order. */
  lemma NormativeElements(sip: Sip, n: StructMap.State)
    requires Normative(sip) == Success(n) && sip.createNormative
    ensures Labelled(Elements([n.root], []), [StructMap.FSItem(true, [], false)] + Items(sip), sip.name)
  {
    MetsIntegrity.NormativeBuilt(sip);
    ElementsOfOne(n.root, []);
    assert [] + [sip.name] == [sip.name] == [sip.name] + [];
    var top := Element([sip.name], true, []);
    if sip.objects.Some? {
      StructMap.WalkItems(["objects"], sip.objects.value);
      assert [] + ["objects"] == ["objects"] && [sip.name] + [] == [sip.name];
      DirLabelled([], "objects", sip.objects.value, 0, sip.name);
    } else {
      assert Items(sip) == [] && Elements([], [sip.name]) == [];
    }
    LabelledTwice([top], Elements(n.root.children, [sip.name]), [StructMap.FSItem(true, [], false)], Items(sip),
                  sip.name);
  }

  /** Does the normative structMap have an element with the path of these LABELs? */
  ghost predicate PathExists(sip: Sip, labels: seq<string>) {
    Key(labels) == Key([sip.name])
    || exists i :: 0 <= i < |Items(sip)| && Key([sip.name] + Items(sip)[i].path) == Key(labels)
  }

  lemma PathExistsIff(sip: Sip, n: StructMap.State, labels: seq<string>)
    requires Normative(sip) == Success(n) && sip.createNormative
    ensures Hit(Elements([n.root], []), labels) <==> PathExists(sip, labels)
  {
    hide Key;
    hide Index;
    hide Items;
    var es, items := Elements([n.root], []), Items(sip);
    NormativeElements(sip, n);
    HitIff(es, labels);
    var all := [StructMap.FSItem(true, [], false)] + items;
    assert [sip.name] + [] == [sip.name];
    if i :| 0 <= i < |es| && Key(es[i].labels) == Key(labels) {
      if i > 0 {
        assert all[i] == items[i - 1];
      }
    }
    if Key(labels) == Key([sip.name]) {
      assert es[0].labels == [sip.name] + all[0].path;
    }
    if i :| 0 <= i < |items| && Key([sip.name] + items[i].path) == Key(labels) {
      assert all[i + 1] == items[i] && es[i + 1].labels == [sip.name] + all[i + 1].path;
    }
  }

  /* ----- which paths exist ----- */

  ghost predicate IsItem(items: seq<StructMap.FSItem>, path: Path) {
    exists i :: 0 <= i < |items| && items[i].path == path
  }

  lemma IsItemConcat(a: seq<StructMap.FSItem>, b: seq<StructMap.FSItem>, path: Path)
    ensures IsItem(a + b, path) <==> IsItem(a, path) || IsItem(b, path)
  {
    if i :| 0 <= i < |a + b| && (a + b)[i].path == path {
      assert i < |a| ==> a[i].path == path;
      assert i >= |a| ==> b[i - |a|].path == path;
    }
    if i :| 0 <= i < |a| && a[i].path == path {
      assert (a + b)[i].path == path;
    }
    if i :| 0 <= i < |b| && b[i].path == path {
      assert (a + b)[|a| + i].path == path;
    }
  }

  lemma {:induction false} FilesAreItems(p: Path, files: seq<string>, path: Path)
    ensures IsItem(StructMap.FileItems(p, files), path) <==> path in EmptyDirectories.FilesHere(p, files)
  {
    if files == [] {
      assert EmptyDirectories.FilesHere(p, files) == {};
    } else {
      var n := |files| - 1;
      FilesAreItems(p, files[..n], path);
      var last := [StructMap.FSItem(false, p + [files[n]], false)];
      IsItemConcat(StructMap.FileItems(p, files[..n]), last, path);
      assert IsItem(last, path) <==> path == p + [files[n]] by {
        assert last[0].path == p + [files[n]];
      }
      assert files == files[..n] + [files[n]];
      LastFile(p, files[..n], files[n], path);
    }
  }

  lemma LastFile(p: Path, files: seq<string>, name: string, path: Path)
    ensures path in EmptyDirectories.FilesHere(p, files + [name]) <==>
            path in EmptyDirectories.FilesHere(p, files) || path == p + [name]
  {
    assert name in files + [name];
    assert StructMapTree.Join(p, name) in EmptyDirectories.FilesHere(p, files + [name]);
    if path in EmptyDirectories.FilesHere(p, files) {
      var f :| f in files && path == StructMapTree.Join(p, f);
      assert f in files + [name];
    }
  }

  /** The items of a directory are itself, its files and its directories. */
  lemma {:induction false} ItemsAreEntries(p: Path, folder: StructMap.Folder, path: Path)
    ensures IsItem(StructMap.Items(p, folder), path) <==>
            path == p || path in EmptyDirectories.FilesHere(p, folder.files)
            || path in EmptyDirectories.AllFiles(folder.dirs, p) || path in EmptyDirectories.AllDirs(folder.dirs, p)
    decreases folder
  {
    hide IsItem;
    hide StructMap.Items;
    ItemsAre(p, folder);
    var top := [StructMap.FSItem(true, p, StructMap.IsEmpty(folder))];
    assert IsItem(top, path) <==> path == p by {
      OneItem(top[0], path);
    }
    FilesAreItems(p, folder.files, path);
    SubItemsAreEntries(p, folder.dirs, path);
    IsItemConcat(top, StructMap.FileItems(p, folder.files) + StructMap.SubItems(p, folder.dirs), path);
    IsItemConcat(StructMap.FileItems(p, folder.files), StructMap.SubItems(p, folder.dirs), path);
  }

  lemma OneItem(item: StructMap.FSItem, path: Path)
    ensures IsItem([item], path) <==> path == item.path
  {
    assert [item][0].path == item.path;
  }

  lemma {:induction false} SubItemsAreEntries(p: Path, dirs: StructMap.Dirs, path: Path)
    ensures IsItem(StructMap.SubItems(p, dirs), path) <==>
            path in EmptyDirectories.AllFiles(dirs, p) || path in EmptyDirectories.AllDirs(dirs, p)
    decreases dirs
  {
    match dirs
    case NoDirs =>
    case Dirs(name, folder, rest) =>
      hide IsItem;
      hide StructMap.Items;
      ItemsAreEntries(p + [name], folder, path);
      SubItemsAreEntries(p, rest, path);
      IsItemConcat(StructMap.Items(p + [name], folder), StructMap.SubItems(p, rest), path);
  }

  lemma EntriesAreItems(sip: Sip, path: Path)
    ensures IsItem(Items(sip), path) <==>
            path in Listings.DirsOn("objects", sip.objects) || path in Listings.FilesOn("objects", sip.objects)
  {
    if sip.objects.Some? {
      StructMap.WalkItems(["objects"], sip.objects.value);
      ItemsAreEntries(["objects"], sip.objects.value, path);
    }
  }

  /** Every directory and every file of the objects directory has an element of its path. */
  lemma EntryExists(sip: Sip, path: Path)
    requires path in Listings.DirsOn("objects", sip.objects) || path in Listings.FilesOn("objects", sip.objects)
    ensures PathExists(sip, [sip.name] + path)
  {
    EntriesAreItems(sip, path);
    var i :| 0 <= i < |Items(sip)| && Items(sip)[i].path == path;
    assert Key([sip.name] + Items(sip)[i].path) == Key([sip.name] + path);
  }

  lemma BelowTop(name: string, folder: Option<StructMap.Folder>, path: Path)
    requires path in Listings.DirsOn(name, folder) || path in Listings.FilesOn(name, folder)
    ensures path != [] && path[0] == name
    ensures path in Listings.FilesOn(name, folder) ==> |path| >= 2
  {
    var top := [name];
    if path in EmptyDirectories.AllDirs(folder.value.dirs, top) {
      EmptyDirectories.DirsAreBelow(folder.value.dirs, top, path);
      assert path[0] == path[..1][0];
    } else if path in EmptyDirectories.AllFiles(folder.value.dirs, top) {
      EmptyDirectories.FilesAreBelow(folder.value.dirs, top, path);
      assert path[0] == path[..1][0];
    } else if path != top {
      var f :| f in folder.value.files && path == StructMapTree.Join(top, f);
    }
  }

  lemma JoinedBelow(top: string, rest: seq<string>)
    requires top != OMITTED && top != ""
    ensures Joined([top] + rest) == top + (if Joined(rest) != "" then "/" + Joined(rest) else "")
    ensures Joined([top] + rest) != "" && Joined([top] + rest)[0] == top[0]
  {
    assert ([top] + rest)[1..] == rest;
  }

  /** The first LABEL does not hide a difference behind it. */
  lemma SameTop(top: string, x: seq<string>, y: seq<string>)
    requires Joined(x) != "" && Joined(y) != "" && Key([top] + x) == Key([top] + y)
    ensures Joined(x) == Joined(y)
  {
    assert ([top] + x)[1..] == x && ([top] + y)[1..] == y;
    SameRest("/", Joined([top] + x), Joined([top] + y));
    if top != OMITTED {
      SameRest(top, "/" + Joined(x), "/" + Joined(y));
      SameRest("/", Joined(x), Joined(y));
    }
  }

  lemma SameRest(p: string, s: string, t: string)
    requires p + s == p + t
    ensures s == t
  {
    assert (p + s)[|p|..] == s && (p + t)[|p|..] == t;
  }

  lemma TopIsNotBelow(top: string, x: seq<string>)
    requires Joined(x) != ""
    ensures Key([top] + x) != Key([top])
  {
    assert ([top] + x)[1..] == x;
    assert [top][1..] == [] && Joined([]) == "";
    if Key([top] + x) == Key([top]) {
      SameRest("/", Joined([top] + x), Joined([top]));
    }
  }

  /** Nothing in the top-level metadata directory has a path of the normative structMap. */
  lemma MetadataIsApart(sip: Sip, rest: seq<string>)
    ensures !PathExists(sip, [sip.name] + (["metadata"] + rest))
  {
    hide Joined;
    hide Key;
    var x := ["metadata"] + rest;
    JoinedBelow("metadata", rest);
    TopIsNotBelow(sip.name, x);
    forall i | 0 <= i < |Items(sip)| ensures Key([sip.name] + Items(sip)[i].path) != Key([sip.name] + x) {
      var path := Items(sip)[i].path;
      assert IsItem(Items(sip), path);
      EntriesAreItems(sip, path);
      BelowTop("objects", sip.objects, path);
      assert path == ["objects"] + path[1..];
      JoinedBelow("objects", path[1..]);
      if Key([sip.name] + path) == Key([sip.name] + x) {
        SameTop(sip.name, path, x);
      }
    }
  }

  /* ----- the elements of the physical structMap ----- */

  /** The element of a directory, or of a file with its LABEL in place of its name. */
  ghost predicate IsFor(sip: Sip, e: Element, p: Path, files: set<Path>, dirs: set<Path>) {
    if e.isDir then p in dirs && e.labels == [sip.name] + p
    else p in files && p != [] && Find(sip.db.rows, p).One?
         && e.labels == [sip.name] + (p[..|p| - 1] + [Title(p, Find(sip.db.rows, p).row)])
  }

  lemma MoreEntries(sip: Sip, e: Element, p: Path, files: set<Path>, dirs: set<Path>, moreFiles: set<Path>,
                    moreDirs: set<Path>)
    requires IsFor(sip, e, p, files, dirs) && files <= moreFiles && dirs <= moreDirs
    ensures IsFor(sip, e, p, moreFiles, moreDirs)
  {
  }

  /** A walk adds elements for the entries it meets only. */
  lemma {:induction false} WalkPlaces(sip: Sip, path: Path, l: Listing, s: Walked, e: Element) returns (p: Path)
    requires AddItems(sip.db, sip.amdSecs, path, l, s).Success?
    requires e in Elements(AddItems(sip.db, sip.amdSecs, path, l, s).value.divs, [sip.name] + path)
    requires e !in Elements(s.divs, [sip.name] + path)
    ensures IsFor(sip, e, p, FilePaths(path, l), Listings.DirsIn(path, l))
    decreases l, 0
  {
    match l
    case OnFile(name, rest) =>
      var t := AddFile(sip.db, sip.amdSecs, path + [name], s).value;
      if e in Elements(t.divs, [sip.name] + path) {
        p := path + [name];
        FilePlaced(sip, path, name, s, e);
      } else {
        p := WalkPlaces(sip, path, rest, t, e);
      }
      MoreEntries(sip, e, p, if p == path + [name] then {p} else FilePaths(path, rest), Listings.DirsIn(path, rest),
                  FilePaths(path, l), Listings.DirsIn(path, l));
    case OnDir(name, sub, rest) =>
      var t := AddDir(sip.db, sip.amdSecs, path + [name], sub, s).value;
      if e in Elements(t.divs, [sip.name] + path) {
        p := DirPlaces(sip, path, name, sub, s, e);
      } else {
        p := WalkPlaces(sip, path, rest, t, e);
      }
  }

  lemma FilePlaced(sip: Sip, path: Path, name: string, s: Walked, e: Element)
    requires AddFile(sip.db, sip.amdSecs, path + [name], s).Success?
    requires e in Elements(AddFile(sip.db, sip.amdSecs, path + [name], s).value.divs, [sip.name] + path)
    requires e !in Elements(s.divs, [sip.name] + path)
    ensures IsFor(sip, e, path + [name], {path + [name]}, {})
  {
    var p := path + [name];
    var row := Find(sip.db.rows, p).row;
    var d := FileDiv(sip.db, p, row, GroupOf(sip.db, row, p).value, s.mets);
    ElementsSnoc(s.divs, d, [sip.name] + path);
    assert Elements(d.children, [sip.name] + path + [d.title]) == [];
    assert p[..|p| - 1] == path;
    Associative([sip.name], path, [d.title]);
  }

  lemma {:induction false} DirPlaces(sip: Sip, path: Path, name: string, sub: Listing, s: Walked, e: Element)
    returns (p: Path)
    requires AddDir(sip.db, sip.amdSecs, path + [name], sub, s).Success?
    requires e in Elements(AddDir(sip.db, sip.amdSecs, path + [name], sub, s).value.divs, [sip.name] + path)
    requires e !in Elements(s.divs, [sip.name] + path)
    ensures IsFor(sip, e, p, FilePaths(path + [name], sub), {path + [name]} + Listings.DirsIn(path + [name], sub))
    decreases sub, 1
  {
    var q := path + [name];
    var mid := Walked(AddDmdSecs(s.mets, DirDmdSecs(sip.db, q)), []);
    var t := AddItems(sip.db, sip.amdSecs, q, sub, mid).value;
    var d := DirDiv(sip.db, q, s.mets, t.divs);
    ElementsSnoc(s.divs, d, [sip.name] + path);
    Associative([sip.name], path, [name]);
    if e in Elements(t.divs, [sip.name] + q) {
      assert Elements(mid.divs, [sip.name] + q) == [];
      p := WalkPlaces(sip, q, sub, mid, e);
      MoreEntries(sip, e, p, FilePaths(q, sub), Listings.DirsIn(q, sub), FilePaths(q, sub),
                  {q} + Listings.DirsIn(q, sub));
    } else {
      p := q;
    }
  }

  lemma TopPlaces(sip: Sip, name: string, folder: Option<StructMap.Folder>, s: Walked, e: Element) returns (p: Path)
    requires AddTop(sip, name, Listings.LeftOf(folder), s).Success?
    requires e in Elements(AddTop(sip, name, Listings.LeftOf(folder), s).value.divs, [sip.name])
    requires e !in Elements(s.divs, [sip.name])
    ensures IsFor(sip, e, p, Listings.FilesOn(name, folder), Listings.DirsOn(name, folder))
  {
    var l := Listings.LeftOf(folder);
    Listings.LeftHolds(name, folder);
    if l.Some? {
      assert [sip.name] + [] == [sip.name] && [] + [name] == [name];
      p := DirPlaces(sip, [], name, l.value, s, e);
      MoreEntries(sip, e, p, FilePaths([name], l.value), {[name]} + Listings.DirsIn([name], l.value),
                  Listings.FilesOn(name, folder), Listings.DirsOn(name, folder));
    }
  }

  /** The elements of the walks are for entries of the two top directories. */
  lemma WalkedElement(sip: Sip, n: StructMap.State, u: Walked, w: Walked, e: Element) returns (p: Path)
    requires MetsIntegrity.Ran(sip, n, u, w) && e in Elements(w.divs, [sip.name])
    ensures IsFor(sip, e, p, Listings.FilesOn("objects", sip.objects), Listings.DirsOn("objects", sip.objects))
            || IsFor(sip, e, p, Listings.FilesOn("metadata", sip.metadata), Listings.DirsOn("metadata", sip.metadata))
  {
    hide IsFor;
    hide AddTop;
    var v := u.(mets := AddObjectMetadata(u.mets, sip.sources));
    if e in Elements(u.divs, [sip.name]) {
      assert Elements([], [sip.name]) == [];
      p := TopPlaces(sip, "objects", sip.objects,
                     Walked(if sip.hasRow then AddDmdSecs(Begin(n), 1) else Begin(n), []), e);
    } else {
      p := TopPlaces(sip, "metadata", sip.metadata, v, e);
    }
  }

  lemma {:induction false} ReplacedElement(divs: seq<Div>, ids: seq<nat>, above: seq<string>, e: Element)
    returns (f: Element)
    requires divs != [] && e in Elements(divs[0 := divs[0].(dmdids := ids)], above)
    ensures f in Elements(divs, above) && f.labels == e.labels && f.isDir == e.isDir
  {
    var n := |divs| - 1;
    var after := divs[0 := divs[0].(dmdids := ids)];
    if n == 0 {
      ElementsOfOne(divs[0], above);
      ElementsOfOne(after[0], above);
      assert divs == [divs[0]] && after == [after[0]];
      f := if e == Element(above + [after[0].title], after[0].isDir, ids) then e.(dmdids := divs[0].dmdids) else e;
    } else {
      assert after[..n] == divs[..n][0 := divs[0].(dmdids := ids)] && after[n] == divs[n];
      if e in Elements(after[..n], above) {
        f := ReplacedElement(divs[..n], ids, above, e);
      } else {
        f := e;
      }
    }
  }

  /** Every element of the physical structMap: the SIP's, a directory's or a file's. */
  lemma PhysicalElement(sip: Sip, e: Element) returns (p: Path)
    requires Main(sip).Success? && e in Elements([Main(sip).value.root], [])
    ensures (e.isDir && e.labels == [sip.name])
            || IsFor(sip, e, p, Listings.FilesOn("objects", sip.objects), Listings.DirsOn("objects", sip.objects))
            || IsFor(sip, e, p, Listings.FilesOn("metadata", sip.metadata), Listings.DirsOn("metadata", sip.metadata))
  {
    var n, u, w := MetsIntegrity.MainRan(sip);
    var root := RootDiv(sip, n, w);
    ElementsOfOne(root, []);
    assert [] + [sip.name] == [sip.name];
    p := [];
    if e in Elements(root.children, [sip.name]) {
      var f := e;
      if sip.dublinCore && ObjectsLeft(sip).Some? {
        f := ReplacedElement(w.divs, [w.mets.dmd + 1], [sip.name], e);
      }
      p := WalkedElement(sip, n, u, w, f);
    }
  }

  /* ----- the references of the physical structMap ----- */

  /** The dmdSecs of the empty directories come first, then that of the SIP. */
  function Empties(sip: Sip): nat {
    if sip.createNormative && sip.objects.Some? then StructMapTree.Count(["objects"], sip.objects.value) else 0
  }

  function Before(sip: Sip): nat {
    Empties(sip) + (if sip.hasRow then 1 else 0)
  }

  /** The dmdSecs whose only DMDID the SIP's Dublin Core replaces. */
  function Replaced(sip: Sip): seq<nat> {
    if !sip.dublinCore then []
    else if ObjectsLeft(sip).Some? then Numbers(Before(sip), Before(sip) + DirDmdSecs(sip.db, ["objects"]))
    else Numbers(Empties(sip), Before(sip))
  }

  lemma EmptiesFirst(sip: Sip, n: StructMap.State)
    requires Normative(sip) == Success(n)
    ensures n.dmdCounter == Empties(sip)
  {
    if sip.createNormative && sip.objects.Some? {
      StructMapTree.StructMapIsTree(sip.name, sip.objects.value, 0, []);
    }
  }

  lemma FirstDiv(sip: Sip, l: Listing, s: Mets, v: Walked)
    requires AddDir(sip.db, sip.amdSecs, ["objects"], l, Walked(s, [])) == Success(v)
    ensures v.divs != [] && v.divs[0].dmdids == Numbers(s.dmd, s.dmd + DirDmdSecs(sip.db, ["objects"]))
  {
  }

  lemma StillFirst(sip: Sip, s: Walked, v: Walked)
    requires AddTop(sip, "metadata", MetadataLeft(sip), s) == Success(v) && s.divs != []
    ensures v.divs != [] && v.divs[0] == s.divs[0]
  {
  }

  lemma ObjectsFirst(sip: Sip, n: StructMap.State, u: Walked, w: Walked)
    requires Normative(sip) == Success(n) && MetsIntegrity.Ran(sip, n, u, w) && ObjectsLeft(sip).Some?
    ensures w.divs != []
    ensures w.divs[0].dmdids == Numbers(Before(sip), Before(sip) + DirDmdSecs(sip.db, ["objects"]))
  {
    hide Numbers;
    hide Empties;
    hide Normative;
    hide ObjectsLeft;
    hide MetadataLeft;
    hide DirDmdSecs;
    EmptiesFirst(sip, n);
    FirstDiv(sip, ObjectsLeft(sip).value, if sip.hasRow then AddDmdSecs(Begin(n), 1) else Begin(n), u);
    hide AddDir;
    StillFirst(sip, u.(mets := AddObjectMetadata(u.mets, sip.sources)), w);
  }

  /** The DMDIDs of the SIP's own div, then those of its children. */
  lemma RootRefs(sip: Sip, n: StructMap.State, w: Walked)
    requires Normative(sip) == Success(n) && (ObjectsLeft(sip).Some? ==> w.divs != [])
    ensures !sip.dublinCore || ObjectsLeft(sip).Some? ==>
              DmdRefs([RootDiv(sip, n, w)]) ==
              Numbers(Empties(sip), Before(sip)) + DmdRefs(RootDiv(sip, n, w).children)
  {
    hide Empties;
    hide ObjectsLeft;
    hide DmdRefs;
    hide Normative;
    EmptiesFirst(sip, n);
    RefsOfOne(RootDiv(sip, n, w));
    FirstNumbers(Empties(sip), sip.hasRow);
  }

  lemma FirstNumbers(a: nat, one: bool)
    ensures Numbers(a, a + if one then 1 else 0) == if one then [a + 1] else []
  {
  }

  lemma PlainRefs(sip: Sip, n: StructMap.State, u: Walked, w: Walked)
    requires Normative(sip) == Success(n) && MetsIntegrity.Ran(sip, n, u, w) && !sip.dublinCore
    requires ObjectsLeft(sip).Some? ==> w.divs != []
    ensures Before(sip) <= w.mets.dmd && DmdRefs([RootDiv(sip, n, w)]) == Numbers(Empties(sip), w.mets.dmd)
  {
    hide Empties;
    hide DmdRefs;
    hide WellNumbered;
    hide ObjectsLeft;
    hide Normative;
    hide MetsIntegrity.Ran;
    EmptiesFirst(sip, n);
    MetsIntegrity.WalksEmit(sip, n, u, w);
    RootRefs(sip, n, w);
    NumbersJoin(Empties(sip), Before(sip), w.mets.dmd);
  }

  lemma DublinCoreRefs(sip: Sip, n: StructMap.State, u: Walked, w: Walked)
    requires Normative(sip) == Success(n) && MetsIntegrity.Ran(sip, n, u, w) && sip.dublinCore
    requires ObjectsLeft(sip).Some?
    ensures w.divs != [] && Before(sip) + DirDmdSecs(sip.db, ["objects"]) <= w.mets.dmd
    ensures DmdRefs([RootDiv(sip, n, w)]) ==
            Numbers(Empties(sip), Before(sip))
            + ([w.mets.dmd + 1] + Numbers(Before(sip) + DirDmdSecs(sip.db, ["objects"]), w.mets.dmd))
  {
    hide Empties;
    hide DmdRefs;
    hide DirDmdSecs;
    hide Numbers;
    hide WellNumbered;
    hide ObjectsLeft;
    hide Normative;
    hide MetsIntegrity.Ran;
    EmptiesFirst(sip, n);
    ObjectsFirst(sip, n, u, w);
    MetsIntegrity.WalksEmit(sip, n, u, w);
    RootRefs(sip, n, w);
    var others := MetsIntegrity.ReplacedRefs(w.divs, [w.mets.dmd + 1]);
    CutNumbers(Before(sip), Before(sip) + DirDmdSecs(sip.db, ["objects"]), w.mets.dmd, others);
  }

  /** What is left of a run of numbers without its beginning. */
  lemma CutNumbers(a: nat, b: nat, c: nat, others: seq<nat>)
    requires a <= b && a <= c && Numbers(a, b) + others == Numbers(a, c)
    ensures b <= c && others == Numbers(b, c)
  {
    assert |Numbers(a, b)| + |others| == c - a;
    assert others == (Numbers(a, b) + others)[b - a..];
  }

  lemma RootWithoutObjects(sip: Sip, n: StructMap.State, w: Walked)
    requires sip.dublinCore && ObjectsLeft(sip).None?
    ensures RootDiv(sip, n, w) == Div(true, sip.name, [w.mets.dmd + 1], None, w.divs)
  {
  }

  lemma NoObjectsRefs(sip: Sip, n: StructMap.State, u: Walked, w: Walked)
    requires Normative(sip) == Success(n) && MetsIntegrity.Ran(sip, n, u, w) && sip.dublinCore
    requires ObjectsLeft(sip).None?
    ensures Before(sip) <= w.mets.dmd
    ensures DmdRefs([RootDiv(sip, n, w)]) == [w.mets.dmd + 1] + Numbers(Before(sip), w.mets.dmd)
  {
    EmptiesFirst(sip, n);
    RootWithoutObjects(sip, n, w);
    hide Empties;
    hide DmdRefs;
    hide Numbers;
    hide WellNumbered;
    hide ObjectsLeft;
    hide Normative;
    hide RootDiv;
    hide MetsIntegrity.Ran;
    MetsIntegrity.WalksEmit(sip, n, u, w);
    RefsOfOne(Div(true, sip.name, [w.mets.dmd + 1], None, w.divs));
  }

  /** Each number between two runs, with or without one more number, is there once. */
  lemma RunsCount(a: nat, b: nat, c: nat, d: nat, r: nat)
    requires a <= b <= c <= d
    ensures var s: seq<nat> := Numbers(a, b) + ([d + 1] + Numbers(c, d));
            Distinct(s) && (r in s <==> a < r <= b || c < r <= d || r == d + 1)
  {
    MetsIntegrity.InNumbers(r, a, b);
    MetsIntegrity.InNumbers(r, c, d);
  }

  lemma NumbersCount(a: nat, b: nat, r: nat)
    requires a <= b
    ensures Distinct(Numbers(a, b)) && (r in Numbers(a, b) <==> a < r <= b)
  {
    MetsIntegrity.InNumbers(r, a, b);
  }

  lemma PhysicalRefs(sip: Sip, n: StructMap.State, u: Walked, w: Walked, r: nat)
    requires Normative(sip) == Success(n) && MetsIntegrity.Ran(sip, n, u, w)
    requires ObjectsLeft(sip).Some? ==> w.divs != []
    ensures Distinct(DmdRefs([RootDiv(sip, n, w)])) && Empties(sip) <= w.mets.dmd
    ensures r in DmdRefs([RootDiv(sip, n, w)]) <==>
            (Empties(sip) < r <= w.mets.dmd && r !in Replaced(sip)) || (sip.dublinCore && r == w.mets.dmd + 1)
  {
    hide DmdRefs;
    hide RootDiv;
    hide ObjectsLeft;
    hide Empties;
    hide DirDmdSecs;
    hide Normative;
    hide MetsIntegrity.Ran;
    hide Numbers;
    hide Distinct;
    if !sip.dublinCore {
      PlainRefs(sip, n, u, w);
      NumbersCount(Empties(sip), w.mets.dmd, r);
    } else if ObjectsLeft(sip).Some? {
      DublinCoreRefs(sip, n, u, w);
      ObjectsReplaced(Empties(sip), Before(sip), Before(sip) + DirDmdSecs(sip.db, ["objects"]), w.mets.dmd, r);
    } else {
      NoObjectsRefs(sip, n, u, w);
      RootReplaced(Empties(sip), Before(sip), w.mets.dmd, r);
    }
  }

  lemma ObjectsReplaced(a: nat, b: nat, c: nat, d: nat, r: nat)
    requires a <= b <= c <= d
    ensures var s: seq<nat> := Numbers(a, b) + ([d + 1] + Numbers(c, d));
            Distinct(s) && (r in s <==> (a < r <= d && r !in Numbers(b, c)) || r == d + 1)
  {
    RunsCount(a, b, c, d, r);
    NumbersCount(b, c, r);
  }

  lemma RootReplaced(a: nat, b: nat, d: nat, r: nat)
    requires a <= b <= d
    ensures var s: seq<nat> := [d + 1] + Numbers(b, d);
            Distinct(s) && (r in s <==> (a < r <= d && r !in Numbers(a, b)) || r == d + 1)
  {
    RunsCount(a, a, b, d, r);
    assert Numbers(a, a) == [];
    NothingBefore([d + 1] + Numbers(b, d));
    NumbersCount(a, b, r);
  }

  /* ----- the references of the document ----- */

  /** All DMDIDs of the document. */
  function AllRefs(d: Document): seq<nat> {
    DmdRefs([d.root]) + (if d.normative.Some? then RefsOf(d.normative.value) else [])
  }

  lemma RefCount(sip: Sip, n: StructMap.State, u: Walked, w: Walked, r: nat)
    requires Normative(sip) == Success(n) && MetsIntegrity.Ran(sip, n, u, w)
    requires ObjectsLeft(sip).Some? ==> w.divs != []
    ensures var root := RootDiv(sip, n, w);
            var made, physical := Elements([n.root], []), Elements([root], []);
            multiset(AllRefs(Assemble(sip, n, u, w)))[r]
            == multiset(RefsOf(physical))[r]
               + (if sip.createNormative then multiset(RefsOf(made))[r] + multiset(RefsOf(Hits(made, physical)))[r]
                  else 0)
  {
    hide RootDiv;
    hide RefsOf;
    hide Hits;
    hide CopyAll;
    var root := RootDiv(sip, n, w);
    ElementsRefer([root], []);
    CopyCounts(Elements([n.root], []), Elements([root], []), r);
  }

  lemma Counted(s: seq<nat>, r: nat)
    requires Distinct(s)
    ensures multiset(s)[r] == if r in s then 1 else 0
  {
    OnceOnly(s, r);
  }

  /** What the two structMaps refer to before anything is copied. */
  lemma MadeRefs(sip: Sip, n: StructMap.State, r: nat)
    requires Normative(sip) == Success(n)
    ensures multiset(RefsOf(Elements([n.root], [])))[r] == if 1 <= r <= Empties(sip) then 1 else 0
  {
    MetsIntegrity.NormativeBuilt(sip);
    ElementsRefer([n.root], []);
    EmptiesFirst(sip, n);
    NumbersCount(0, Empties(sip), r);
    Counted(Numbers(0, Empties(sip)), r);
  }

  /** An empty directory's dmdSec is referred to once, from the normative structMap. */
  lemma EmptyDirectoryUsedOnce(sip: Sip, r: nat)
    requires Main(sip).Success? && 1 <= r <= Empties(sip)
    ensures multiset(AllRefs(Main(sip).value))[r] == 1
  {
    var n, u, w := MetsIntegrity.MainRan(sip);
    var made, physical := Elements([n.root], []), Elements([RootDiv(sip, n, w)], []);
    RefCount(sip, n, u, w, r);
    MadeRefs(sip, n, r);
    PhysicalRefs(sip, n, u, w, r);
    ElementsRefer([RootDiv(sip, n, w)], []);
    Counted(RefsOf(physical), r);
    if r in RefsOf(Hits(made, physical)) {
      HitsAreIn(made, physical, r);
    }
  }

  /** A dmdSec of the physical structMap is referred to twice if a normative structMap is made and
      has the path of LABELs of its element, and once otherwise. */
  lemma PhysicalUsed(sip: Sip, e: Element, r: nat)
    requires Main(sip).Success? && e in Elements([Main(sip).value.root], []) && r in e.dmdids
    ensures multiset(AllRefs(Main(sip).value))[r] == if sip.createNormative && PathExists(sip, e.labels) then 2 else 1
  {
    var n, u, w := MetsIntegrity.MainRan(sip);
    var made, physical := Elements([n.root], []), Elements([RootDiv(sip, n, w)], []);
    RefCount(sip, n, u, w, r);
    MadeRefs(sip, n, r);
    PhysicalRefs(sip, n, u, w, r);
    ElementsRefer([RootDiv(sip, n, w)], []);
    RefsHold(physical, e, r);
    Counted(RefsOf(physical), r);
    if sip.createNormative {
      HitOnce(made, physical, e, r);
      PathExistsIff(sip, n, e.labels);
    }
  }

  /** The DMDID of a physical element is copied to the last normative element with its path, and to no
      other. */
  lemma ReferenceLands(sip: Sip, e: Element, r: nat, i: nat)
    requires Main(sip).Success? && sip.createNormative
    requires e in Elements([Main(sip).value.root], []) && r in e.dmdids
    requires Main(sip).value.normative.Some? && i < |Main(sip).value.normative.value|
    ensures var es := Main(sip).value.normative.value;
            r in es[i].dmdids <==> Key(es[i].labels) == Key(e.labels) && IsLast(es, i)
  {
    var n, u, w := MetsIntegrity.MainRan(sip);
    var made, physical := Elements([n.root], []), Elements([RootDiv(sip, n, w)], []);
    assert Main(sip).value.normative.value == CopyAll(made, physical);
    MadeRefs(sip, n, r);
    PhysicalRefs(sip, n, u, w, r);
    ElementsRefer([RootDiv(sip, n, w)], []);
    hide Main;
    hide RootDiv;
    hide Elements;
    hide RefsOf;
    hide CopyAll;
    hide Key;
    hide Index;
    RefsHold(physical, e, r);
    LandsOn(made, physical, e, r, i);
  }

  lemma LandsOn(made: seq<Element>, physical: seq<Element>, e: Element, r: nat, i: nat)
    requires Distinct(RefsOf(physical)) && e in physical && r in e.dmdids
    requires multiset(RefsOf(made))[r] == 0 && i < |CopyAll(made, physical)|
    ensures var es := CopyAll(made, physical);
            r in es[i].dmdids <==> Key(es[i].labels) == Key(e.labels) && IsLast(es, i)
  {
    hide Key;
    hide IsLast;
    hide Index;
    CopiedSame(made, physical);
    CopiedFrom(made, physical, i, r);
    SameLast(made, CopyAll(made, physical), i);
    hide CopyAll;
    if r in made[i].dmdids {
      RefsHold(made, made[i], r);
      Present(RefsOf(made), r);
    }
    forall f | f in physical && r in f.dmdids ensures f == e {
      OneHolder(physical, e, f, r);
    }
  }

  /** Of the dmdSecs made, only those whose DMDID the Dublin Core of the SIP replaces are referred
      to by nothing. */
  lemma UnusedIff(sip: Sip, r: nat)
    requires Main(sip).Success? && r in Main(sip).value.dmdSecs
    ensures r !in AllRefs(Main(sip).value) <==> r in Replaced(sip)
  {
    var n, u, w := MetsIntegrity.MainRan(sip);
    MadeIs(sip, n, u, w, r);
    PhysicalRefs(sip, n, u, w, r);
    UsedIff(sip, n, u, w, r);
    if r in Replaced(sip) {
      ReplacedLater(sip, n, u, w, r);
    }
  }

  lemma MadeIs(sip: Sip, n: StructMap.State, u: Walked, w: Walked, r: nat)
    requires Normative(sip) == Success(n) && MetsIntegrity.Ran(sip, n, u, w)
    requires ObjectsLeft(sip).Some? ==> w.divs != []
    ensures r in Assemble(sip, n, u, w).dmdSecs <==> 1 <= r <= w.mets.dmd || (sip.dublinCore && r == w.mets.dmd + 1)
  {
    hide RootDiv;
    hide Grouped;
    hide CopiedNormative;
    MetsIntegrity.WalksEmit(sip, n, u, w);
    NumbersCount(0, w.mets.dmd, r);
  }

  /** A number is used if it is an empty directory's or used by the physical structMap. */
  lemma UsedIff(sip: Sip, n: StructMap.State, u: Walked, w: Walked, r: nat)
    requires Normative(sip) == Success(n) && MetsIntegrity.Ran(sip, n, u, w)
    requires ObjectsLeft(sip).Some? ==> w.divs != []
    ensures r in AllRefs(Assemble(sip, n, u, w)) <==> 1 <= r <= Empties(sip) || r in DmdRefs([RootDiv(sip, n, w)])
  {
    hide RootDiv;
    hide RefsOf;
    hide Elements;
    hide Assemble;
    hide AllRefs;
    hide Empties;
    hide DmdRefs;
    var made, physical := Elements([n.root], []), Elements([RootDiv(sip, n, w)], []);
    RefCount(sip, n, u, w, r);
    MadeRefs(sip, n, r);
    ElementsRefer([RootDiv(sip, n, w)], []);
    NoEmpties(sip);
    if r in RefsOf(Hits(made, physical)) {
      HitsAreIn(made, physical, r);
    }
    Present(AllRefs(Assemble(sip, n, u, w)), r);
    Present(RefsOf(physical), r);
    Present(RefsOf(Hits(made, physical)), r);
  }

  lemma NoEmpties(sip: Sip)
    ensures !sip.createNormative ==> Empties(sip) == 0
  {
  }

  lemma Present(s: seq<nat>, r: nat)
    ensures r in s <==> multiset(s)[r] > 0
  {
    if r in s {
      assert r in multiset(s);
    }
  }

  lemma ReplacedLater(sip: Sip, n: StructMap.State, u: Walked, w: Walked, r: nat)
    requires Normative(sip) == Success(n) && MetsIntegrity.Ran(sip, n, u, w) && r in Replaced(sip)
    ensures Empties(sip) < r <= w.mets.dmd
  {
    if ObjectsLeft(sip).Some? {
      DublinCoreRefs(sip, n, u, w);
      NumbersCount(Before(sip), Before(sip) + DirDmdSecs(sip.db, ["objects"]), r);
    } else {
      NoObjectsRefs(sip, n, u, w);
      NumbersCount(Empties(sip), Before(sip), r);
    }
  }

  /** Every DMDID, in the physical and in the normative structMap, names a dmdSec. */
  lemma DmdIdsResolve(sip: Sip, r: nat)
    requires Main(sip).Success? && r in AllRefs(Main(sip).value)
    ensures MetsIds.Numbered(MetsIds.DmdSecs, r) in Ids(Main(sip).value)
  {
    hide AllRefs;
    hide Assemble;
    var n, u, w := MetsIntegrity.MainRan(sip);
    UsedIff(sip, n, u, w, r);
    PhysicalRefs(sip, n, u, w, r);
    MadeIs(sip, n, u, w, r);
    IdsHold(Main(sip).value);
    assert r in NumbersOf(Main(sip).value, MetsIds.DmdSecs);
  }

  /** The dmdSecs of the SIP itself and of each directory from objects downwards are referred to
      from both structMaps. */
  lemma DirectoryUsedTwice(sip: Sip, e: Element, r: nat)
    requires Main(sip).Success? && sip.createNormative
    requires e in Elements([Main(sip).value.root], []) && r in e.dmdids
    requires e.isDir && (|e.labels| == 1 || (|e.labels| >= 2 && e.labels[1] == "objects"))
    ensures multiset(AllRefs(Main(sip).value))[r] == 2
  {
    hide Key;
    hide Elements;
    hide AllRefs;
    hide Listings.DirsOn;
    hide Listings.FilesOn;
    PhysicalUsed(sip, e, r);
    var p := PhysicalElement(sip, e);
    if e.labels != [sip.name] {
      if p in Listings.DirsOn("objects", sip.objects) {
        EntryExists(sip, p);
      } else {
        BelowTop("metadata", sip.metadata, p);
      }
    }
  }

  /** Those of the top-level metadata directory are referred to from the physical one alone. */
  lemma MetadataUsedOnce(sip: Sip, e: Element, r: nat)
    requires Main(sip).Success?
    requires e in Elements([Main(sip).value.root], []) && r in e.dmdids
    requires |e.labels| >= 2 && e.labels[1] == "metadata"
    ensures multiset(AllRefs(Main(sip).value))[r] == 1
  {
    hide Elements;
    hide AllRefs;
    PhysicalUsed(sip, e, r);
    var p := PhysicalElement(sip, e);
    assert e.labels[0] == sip.name;
    assert e.labels == [sip.name] + (["metadata"] + e.labels[2..]);
    MetadataIsApart(sip, e.labels[2..]);
  }

  /** Those of a file below objects are referred to twice if its label is its name; with another
      label, if and only if an entry of the objects directory has the path of LABELs. */
  lemma FileUsed(sip: Sip, e: Element, r: nat) returns (p: Path)
    requires Main(sip).Success? && sip.createNormative
    requires e in Elements([Main(sip).value.root], []) && r in e.dmdids
    requires !e.isDir && |e.labels| >= 2 && e.labels[1] == "objects"
    ensures p in Listings.FilesOn("objects", sip.objects) && p != [] && Find(sip.db.rows, p).One?
    ensures e.labels == [sip.name] + (p[..|p| - 1] + [Title(p, Find(sip.db.rows, p).row)])
    ensures multiset(AllRefs(Main(sip).value))[r] == if PathExists(sip, e.labels) then 2 else 1
    ensures Title(p, Find(sip.db.rows, p).row) == Name(p) ==> multiset(AllRefs(Main(sip).value))[r] == 2
  {
    hide Elements;
    hide AllRefs;
    hide PathExists;
    hide Main;
    hide Find;
    hide Listings.FilesOn;
    hide Listings.DirsOn;
    PhysicalUsed(sip, e, r);
    p := PhysicalElement(sip, e);
    if p in Listings.FilesOn("metadata", sip.metadata) {
      BelowTop("metadata", sip.metadata, p);
    }
    if p in Listings.FilesOn("objects", sip.objects) {
      EntryExists(sip, p);
      assert p == p[..|p| - 1] + [Name(p)];
    }
  }
}
