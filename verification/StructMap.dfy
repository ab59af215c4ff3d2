/** The normative structMap: every path of the SIP as a flat list, a tree of divs built from
    that list, and the directories read back out of the tree. */
module StructMap {
  import FileTree
  import opened MetsDiv
  import opened Results
  import opened Sequences

  type Path = FileTree.Path

  /** A directory as `os.walk` reports it: its files and its sub-directories, in order. */
  datatype Folder = Folder(files: seq<string>, dirs: Dirs)
  datatype Dirs = NoDirs | Dirs(name: string, folder: Folder, rest: Dirs)

  predicate IsEmpty(folder: Folder) {
    folder.files == [] && folder.dirs.NoDirs?
  }

  /* ----- get_paths_as_fsitems ----- */

  datatype FSItem = FSItem(isDir: bool, path: Path, isEmpty: bool)

  /** One step of `os.walk`, top down. */
  datatype Visit = Visit(root: Path, dirs: seq<string>, files: seq<string>)

  function DirNames(dirs: Dirs): seq<string> {
    match dirs
    case NoDirs => []
    case Dirs(name, _, rest) => [name] + DirNames(rest)
  }

  function Walk(root: Path, folder: Folder): seq<Visit>
    decreases folder
  {
    [Visit(root, DirNames(folder.dirs), folder.files)] + WalkDirs(root, folder.dirs)
  }

  function WalkDirs(root: Path, dirs: Dirs): seq<Visit>
    decreases dirs
  {
    match dirs
    case NoDirs => []
    case Dirs(name, folder, rest) => Walk(root + [name], folder) + WalkDirs(root, rest)
  }

  function FileItems(root: Path, files: seq<string>): seq<FSItem> {
    if files == [] then [] else
      FileItems(root, files[..|files| - 1]) + [FSItem(false, root + [files[|files| - 1]], false)]
  }

  function ItemsOf(v: Visit): seq<FSItem> {
    [FSItem(true, v.root, v.dirs == [] && v.files == [])] + FileItems(v.root, v.files)
  }

  function AllItems(visits: seq<Visit>): seq<FSItem> {
    if visits == [] then [] else AllItems(visits[..|visits| - 1]) + ItemsOf(visits[|visits| - 1])
  }

  method GetPathsAsFsItems(visits: seq<Visit>) returns (items: seq<FSItem>)
    ensures items == AllItems(visits)
  {
    items := [];
    for i := 0 to |visits|
      invariant items == AllItems(visits[..i])
    {
      var v := visits[i];
      assert visits[..i + 1][..i] == visits[..i];
      if v.files != [] || v.dirs != [] {
        items := items + [FSItem(true, v.root, false)];
      } else {
        items := items + [FSItem(true, v.root, true)];
      }
      ghost var before := items;
      for j := 0 to |v.files|
        invariant items == before + FileItems(v.root, v.files[..j])
      {
        assert v.files[..j + 1][..j] == v.files[..j];
        items := items + [FSItem(false, v.root + [v.files[j]], false)];
      }
      assert v.files[..|v.files|] == v.files;
    }
    assert visits[..|visits|] == visits;
  }

  /** The same list by recursion on the tree. */
  function Items(root: Path, folder: Folder): seq<FSItem>
    decreases folder
  {
    [FSItem(true, root, IsEmpty(folder))] + FileItems(root, folder.files) + SubItems(root, folder.dirs)
  }

  function SubItems(root: Path, dirs: Dirs): seq<FSItem>
    decreases dirs
  {
    match dirs
    case NoDirs => []
    case Dirs(name, folder, rest) => Items(root + [name], folder) + SubItems(root, rest)
  }

  lemma AllItemsSnoc(a: seq<Visit>, v: Visit)
    ensures AllItems(a + [v]) == AllItems(a) + ItemsOf(v)
  {
    assert (a + [v])[..|a|] == a;
  }

  lemma {:induction false} AllItemsConcat(a: seq<Visit>, b: seq<Visit>)
    ensures AllItems(a + b) == AllItems(a) + AllItems(b)
  {
    if b == [] {
      assert a + b == a;
    } else {
      var n := |b| - 1;
      var c, v := b[..n], b[n];
      AllItemsConcat(a, c);
      assert a + b == a + c + [v] && b == c + [v];
      AllItemsSnoc(a + c, v);
      AllItemsSnoc(c, v);
      Associative(AllItems(a), AllItems(c), ItemsOf(v));
    }
  }

  lemma {:induction false} WalkItems(root: Path, folder: Folder)
    ensures AllItems(Walk(root, folder)) == Items(root, folder)
    decreases folder
  {
    var v := Visit(root, DirNames(folder.dirs), folder.files);
    AllItemsConcat([v], WalkDirs(root, folder.dirs));
    assert [v][..0] == [] && AllItems([v]) == ItemsOf(v);
    WalkDirsItems(root, folder.dirs);
  }

  lemma {:induction false} WalkDirsItems(root: Path, dirs: Dirs)
    ensures AllItems(WalkDirs(root, dirs)) == SubItems(root, dirs)
    decreases dirs
  {
    match dirs
    case NoDirs =>
    case Dirs(name, folder, rest) =>
      WalkItems(root + [name], folder);
      WalkDirsItems(root, rest);
      AllItemsConcat(Walk(root + [name], folder), WalkDirs(root, rest));
  }

  /* ----- add_normative_structmap_div ----- */

  /** Which element of the tree: the root, or the n-th child of another element. */
  datatype Address = Root | Child(parent: Address, n: nat)

  predicate Has(root: Div, a: Address)
    decreases a, 0
  {
    match a
    case Root => true
    case Child(parent, n) => Has(root, parent) && n < |At(root, parent).children|
  }

  function At(root: Div, a: Address): Div
    requires Has(root, a)
    decreases a, 1
  {
    match a
    case Root => root
    case Child(parent, n) => At(root, parent).children[n]
  }

  /** The tree with the element at `a` replaced. */
  function ReplaceAt(root: Div, a: Address, d: Div): Div
    requires Has(root, a)
  {
    match a
    case Root => d
    case Child(parent, n) =>
      var p := At(root, parent);
      ReplaceAt(root, parent, p.(children := p.children[n := d]))
  }

  /** `etree.SubElement(parent, ...)`, once or several times. */
  function AppendAt(root: Div, a: Address, children: seq<Div>): Div
    requires Has(root, a)
  {
    var d := At(root, a);
    ReplaceAt(root, a, d.(children := d.children + children))
  }

  datatype State = State(root: Div, pathToEl: map<Path, Address>, dmdCounter: nat, dmdSecs: seq<nat>)

  /** Every indexed element exists. */
  ghost predicate Indexed(s: State) {
    forall p :: p in s.pathToEl ==> Has(s.root, s.pathToEl[p])
  }

  predicate InTransfers(path: Path) {
    |path| > 3 && path[..3] == ["objects", "metadata", "transfers"]
  }

  function Dirname(path: Path): Path {
    if path == [] then [] else path[..|path| - 1]
  }

  function Basename(path: Path): string {
    if path == [] then "" else path[|path| - 1]
  }

  /** One round of the loop: the element for one item, with a dmdSec if it is an empty directory. */
  function AddItem(s: State, item: FSItem): Result<State>
    requires Indexed(s)
  {
    if Dirname(item.path) !in s.pathToEl then Failure("Unable to find parent path") else
      var a := s.pathToEl[Dirname(item.path)];
      var el := Child(a, |At(s.root, a).children|);
      if item.isEmpty && InTransfers(item.path) then
        Success(s.(root := AppendAt(s.root, a, [Div(item.isDir, Basename(item.path), [], None, [])])))
      else if item.isEmpty then
        var id := s.dmdCounter + 1;
        Success(State(AppendAt(s.root, a, [Div(item.isDir, Basename(item.path), [id], None, [])]),
                      s.pathToEl[item.path := el], id, s.dmdSecs + [id]))
      else
        Success(s.(root := AppendAt(s.root, a, [Div(item.isDir, Basename(item.path), [], None, [])]),
                   pathToEl := s.pathToEl[item.path := el]))
  }

  lemma {:induction false} ReplacedIsThere(root: Div, a: Address, d: Div)
    requires Has(root, a)
    ensures Has(ReplaceAt(root, a, d), a) && At(ReplaceAt(root, a, d), a) == d
  {
    if a.Child? {
      var p := At(root, a.parent);
      ReplacedIsThere(root, a.parent, p.(children := p.children[a.n := d]));
    }
  }

  lemma {:induction false} ReplaceTwice(root: Div, a: Address, d: Div, e: Div)
    requires Has(root, a)
    ensures Has(ReplaceAt(root, a, d), a)
    ensures ReplaceAt(ReplaceAt(root, a, d), a, e) == ReplaceAt(root, a, e)
  {
    ReplacedIsThere(root, a, d);
    if a.Child? {
      var p := At(root, a.parent);
      var q := p.(children := p.children[a.n := d]);
      ReplacedIsThere(root, a.parent, q);
      ReplaceTwice(root, a.parent, q, p.(children := p.children[a.n := e]));
      assert q.children[a.n := e] == p.children[a.n := e];
    }
  }

  lemma {:induction false} ReplaceSame(root: Div, a: Address)
    requires Has(root, a)
    ensures ReplaceAt(root, a, At(root, a)) == root
  {
    if a.Child? {
      var p := At(root, a.parent);
      assert p.children[a.n := p.children[a.n]] == p.children;
      ReplaceSame(root, a.parent);
    }
  }

  /** e has all the elements of d, possibly with more children. */
  ghost predicate Extends(d: Div, e: Div) {
    |d.children| <= |e.children| && forall i :: 0 <= i < |d.children| ==> Extends(d.children[i], e.children[i])
  }

  lemma {:induction false} ExtendsItself(d: Div)
    ensures Extends(d, d)
  {
    forall i | 0 <= i < |d.children| ensures Extends(d.children[i], d.children[i]) {
      ExtendsItself(d.children[i]);
    }
  }

  lemma {:induction false} ReplaceExtends(root: Div, a: Address, d: Div)
    requires Has(root, a) && Extends(At(root, a), d)
    ensures Extends(root, ReplaceAt(root, a, d))
  {
    if a.Child? {
      var p := At(root, a.parent);
      ExtendsItself(p);
      ReplaceExtends(root, a.parent, p.(children := p.children[a.n := d]));
    }
  }

  lemma {:induction false} ExtendsKeeps(d: Div, e: Div, b: Address)
    requires Extends(d, e) && Has(d, b)
    ensures Has(e, b) && Extends(At(d, b), At(e, b))
  {
    if b.Child? {
      ExtendsKeeps(d, e, b.parent);
    }
  }

  /** Elements stay where they are. */
  lemma AppendKeeps(root: Div, a: Address, children: seq<Div>, b: Address)
    requires Has(root, a) && Has(root, b)
    ensures Has(AppendAt(root, a, children), b)
  {
    var d := At(root, a);
    ExtendsItself(d);
    ReplaceExtends(root, a, d.(children := d.children + children));
    ExtendsKeeps(root, AppendAt(root, a, children), b);
  }

  /** The appended element is the last child, and appending to it builds it further. */
  lemma AppendedIsThere(root: Div, a: Address, child: Div, children: seq<Div>)
    requires Has(root, a)
    ensures var b := Child(a, |At(root, a).children|);
            var after := AppendAt(root, a, [child]);
            && Has(after, b) && At(after, b) == child
            && AppendAt(after, b, children) == AppendAt(root, a, [child.(children := child.children + children)])
  {
    var d, n := At(root, a), |At(root, a).children|;
    var once := d.(children := d.children + [child]);
    ReplacedIsThere(root, a, once);
    var grown := child.(children := child.children + children);
    assert once.children[n := grown] == d.children + [grown];
    ReplaceTwice(root, a, once, d.(children := d.children + [grown]));
  }

  /** Two appends to one element. */
  lemma AppendTwice(root: Div, a: Address, x: seq<Div>, y: seq<Div>)
    requires Has(root, a)
    ensures Has(AppendAt(root, a, x), a)
    ensures At(AppendAt(root, a, x), a).children == At(root, a).children + x
    ensures AppendAt(AppendAt(root, a, x), a, y) == AppendAt(root, a, x + y)
  {
    var d := At(root, a);
    ReplacedIsThere(root, a, d.(children := d.children + x));
    ReplaceTwice(root, a, d.(children := d.children + x), d.(children := d.children + x + y));
    assert d.children + x + y == d.children + (x + y);
  }

  lemma AppendNothing(root: Div, a: Address)
    requires Has(root, a)
    ensures AppendAt(root, a, []) == root
  {
    assert At(root, a).children + [] == At(root, a).children;
    ReplaceSame(root, a);
  }

  lemma AddItemIndexed(s: State, item: FSItem)
    requires Indexed(s)
    ensures AddItem(s, item).Success? ==> Indexed(AddItem(s, item).value)
  {
    if Dirname(item.path) in s.pathToEl {
      var a, t := s.pathToEl[Dirname(item.path)], AddItem(s, item).value;
      var el := Child(a, |At(s.root, a).children|);
      var child := Div(item.isDir, Basename(item.path),
                       if item.isEmpty && !InTransfers(item.path) then [s.dmdCounter + 1] else [], None, []);
      AppendedIsThere(s.root, a, child, []);
      forall p | p in t.pathToEl ensures Has(t.root, t.pathToEl[p]) {
        if p in s.pathToEl && t.pathToEl[p] != el {
          AppendKeeps(s.root, a, [child], s.pathToEl[p]);
        }
      }
    }
  }

  /** All rounds of the loop. */
  function AddItems(s: State, items: seq<FSItem>): (r: Result<State>)
    requires Indexed(s)
    ensures r.Success? ==> Indexed(r.value)
  {
    if items == [] then Success(s) else
      var n := |items| - 1;
      match AddItems(s, items[..n])
      case Failure(message) => Failure(message)
      case Success(t) =>
        AddItemIndexed(t, items[n]);
        AddItem(t, items[n])
  }

  /** `add_normative_structmap_div`, which raises KeyError for an item without a parent. */
  class Builder {
    var root: Div
    var pathToEl: map<Path, Address>
    var dmdCounter: nat
    var dmdSecs: seq<nat>

    constructor (root: Div, dmdCounter: nat, dmdSecs: seq<nat>)
      ensures Now() == State(root, map[[] := Root], dmdCounter, dmdSecs)
    {
      this.root, this.dmdCounter, this.dmdSecs := root, dmdCounter, dmdSecs;
      this.pathToEl := map[[] := Root];
    }

    function Now(): State
      reads this
    {
      State(root, pathToEl, dmdCounter, dmdSecs)
    }

    method AddOne(item: FSItem) returns (ok: bool)
      requires Indexed(Now())
      modifies this
      ensures ok <==> AddItem(old(Now()), item).Success?
      ensures ok ==> Now() == AddItem(old(Now()), item).value
    {
      ok := Dirname(item.path) in pathToEl;
      if ok {
        var parent := pathToEl[Dirname(item.path)];
        var el := Child(parent, |At(root, parent).children|);
        if !item.isEmpty {
          root := AppendAt(root, parent, [Div(item.isDir, Basename(item.path), [], None, [])]);
          pathToEl := pathToEl[item.path := el];
        } else if InTransfers(item.path) {
          root := AppendAt(root, parent, [Div(item.isDir, Basename(item.path), [], None, [])]);
        } else {
          dmdCounter := dmdCounter + 1;
          dmdSecs := dmdSecs + [dmdCounter];
          root := AppendAt(root, parent, [Div(item.isDir, Basename(item.path), [dmdCounter], None, [])]);
          pathToEl := pathToEl[item.path := el];
        }
      }
    }

    method AddNormativeDivs(items: seq<FSItem>) returns (ok: bool)
      requires Indexed(Now())
      modifies this
      ensures ok <==> AddItems(old(Now()), items).Success?
      ensures ok ==> Now() == AddItems(old(Now()), items).value
    {
      ghost var before := Now();
      for i := 0 to |items|
        invariant AddItems(before, items[..i]) == Success(Now())
      {
        assert items[..i + 1][..i] == items[..i];
        ok := AddOne(items[i]);
        if !ok {
          FailureStays(before, items, i + 1);
          return;
        }
      }
      assert items[..|items|] == items;
      ok := true;
    }
  }

  lemma {:induction false} FailureStays(s: State, items: seq<FSItem>, n: nat)
    requires Indexed(s) && n <= |items| && AddItems(s, items[..n]).Failure?
    ensures AddItems(s, items).Failure?
    decreases |items| - n
  {
    if n < |items| {
      assert items[..n + 1][..n] == items[..n];
      FailureStays(s, items, n + 1);
    } else {
      assert items[..n] == items;
    }
  }

  lemma {:induction false} AddItemsConcat(s: State, a: seq<FSItem>, b: seq<FSItem>)
    requires Indexed(s) && AddItems(s, a).Success?
    ensures AddItems(s, a + b) == AddItems(AddItems(s, a).value, b)
  {
    if b == [] {
      assert a + b == a;
    } else {
      var n := |b| - 1;
      assert (a + b)[..|a + b| - 1] == a + b[..n];
      AddItemsConcat(s, a, b[..n]);
    }
  }

  lemma AddNothing(s: State)
    requires Indexed(s)
    ensures AddItems(s, []) == Success(s)
  {
  }

  lemma AddItemsOne(s: State, item: FSItem)
    requires Indexed(s)
    ensures AddItems(s, [item]) == AddItem(s, item)
  {
    assert [item][..0] == [];
  }
}
