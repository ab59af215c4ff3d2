/** `FSEntriesTree`: the tree of METS entries of a transfer, with an index by path. */
module FsEntries {
  import opened FileSec
  import opened FileSecFiles
  import Listings
  import opened Results
  import opened Sequences

  /** The children of an entry, in the order they were added. Entries are named by their paths. */
  datatype Entries = NoEntries | Item(path: Path, rest: Entries) | Directory(path: Path, children: Entries, rest: Entries)

  /** The tree for a directory on disk. */
  function TreeOf(path: Path, listing: Listing): Entries
    decreases listing
  {
    match listing
    case End => NoEntries
    case OnFile(name, rest) => Item(path + [name], TreeOf(path, rest))
    case OnDir(name, sub, rest) => Directory(path + [name], TreeOf(path + [name], sub), TreeOf(path, rest))
  }

  function Leaves(es: Entries): seq<Path> {
    match es
    case NoEntries => []
    case Item(p, rest) => [p] + Leaves(rest)
    case Directory(_, children, rest) => Leaves(children) + Leaves(rest)
  }

  function Dirs(es: Entries): seq<Path> {
    match es
    case NoEntries => []
    case Item(_, rest) => Dirs(rest)
    case Directory(p, children, rest) => [p] + Dirs(children) + Dirs(rest)
  }

  /** `fsentry.parent.remove_child(fsentry)` for an item. */
  function Without(es: Entries, p: Path): Entries {
    match es
    case NoEntries => NoEntries
    case Item(q, rest) => if q == p then rest else Item(q, Without(rest, p))
    case Directory(q, children, rest) =>
      if p in Leaves(children) then Directory(q, Without(children, p), rest)
      else Directory(q, children, Without(rest, p))
  }

  /** Joining two lists of children. */
  function Append(a: Entries, b: Entries): Entries {
    match a
    case NoEntries => b
    case Item(p, rest) => Item(p, Append(rest, b))
    case Directory(p, children, rest) => Directory(p, children, Append(rest, b))
  }

  lemma {:induction false} AppendAssociative(a: Entries, b: Entries, c: Entries)
    ensures Append(Append(a, b), c) == Append(a, Append(b, c))
  {
    match a
    case NoEntries =>
    case Item(_, rest) => AppendAssociative(rest, b, c);
    case Directory(_, _, rest) => AppendAssociative(rest, b, c);
  }

  lemma {:induction false} AppendNothing(a: Entries)
    ensures Append(a, NoEntries) == a
  {
    match a
    case NoEntries =>
    case Item(_, rest) => AppendNothing(rest);
    case Directory(_, _, rest) => AppendNothing(rest);
  }

  lemma {:induction false} LeavesAreFiles(path: Path, listing: Listing, p: Path)
    ensures p in Leaves(TreeOf(path, listing)) <==> p in FilePaths(path, listing)
    decreases listing
  {
    match listing
    case End =>
    case OnFile(_, rest) => LeavesAreFiles(path, rest, p);
    case OnDir(name, sub, rest) =>
      LeavesAreFiles(path + [name], sub, p);
      LeavesAreFiles(path, rest, p);
  }

  /** No file has two entries. */
  lemma {:induction false} LeavesDistinct(path: Path, listing: Listing)
    requires Valid(listing)
    ensures Distinct(Leaves(TreeOf(path, listing)))
    decreases listing
  {
    match listing
    case End =>
    case OnFile(name, rest) =>
      LeavesDistinct(path, rest);
      forall p | p in Leaves(TreeOf(path, rest)) ensures p != path + [name] {
        LeavesAreFiles(path, rest, p);
        PathsUnder(path, rest, p);
      }
      DistinctConcat([path + [name]], Leaves(TreeOf(path, rest)));
    case OnDir(name, sub, rest) =>
      LeavesDistinct(path + [name], sub);
      LeavesDistinct(path, rest);
      forall p | p in Leaves(TreeOf(path + [name], sub)) ensures p !in Leaves(TreeOf(path, rest)) {
        LeavesAreFiles(path, rest, p);
        LeavesAreFiles(path + [name], sub, p);
        PathsUnder(path + [name], sub, p);
        UnderChild(path, name, Names(sub), p, Names(rest));
        if p in FilePaths(path, rest) {
          PathsUnder(path, rest, p);
        }
      }
      DistinctConcat(Leaves(TreeOf(path + [name], sub)), Leaves(TreeOf(path, rest)));
  }

  lemma DistinctParts<T>(a: seq<T>, b: seq<T>)
    requires Distinct(a + b)
    ensures Distinct(a) && Distinct(b) && forall x :: x in a ==> x !in b
  {
    forall i, j | 0 <= i < j < |a| ensures a[i] != a[j] {
      assert (a + b)[i] == a[i] && (a + b)[j] == a[j];
    }
    forall i, j | 0 <= i < j < |b| ensures b[i] != b[j] {
      assert (a + b)[|a| + i] == b[i] && (a + b)[|a| + j] == b[j];
    }
    forall x | x in a ensures x !in b {
      var i :| 0 <= i < |a| && a[i] == x;
      forall j | 0 <= j < |b| ensures b[j] != x {
        assert (a + b)[i] == x && (a + b)[|a| + j] == b[j];
      }
    }
  }

  /** Removing an item removes exactly that one leaf, keeps the leaves distinct, and keeps every
      directory. */
  lemma {:induction false} WithoutRemoves(es: Entries, p: Path)
    requires Distinct(Leaves(es))
    ensures Distinct(Leaves(Without(es, p))) && Dirs(Without(es, p)) == Dirs(es)
    ensures forall q :: q in Leaves(Without(es, p)) <==> q in Leaves(es) && q != p
  {
    match es
    case NoEntries =>
    case Item(q, rest) =>
      DistinctParts([q], Leaves(rest));
      if q != p {
        WithoutRemoves(rest, p);
        DistinctConcat([q], Leaves(Without(rest, p)));
      }
    case Directory(q, children, rest) =>
      DistinctParts(Leaves(children), Leaves(rest));
      if p in Leaves(children) {
        WithoutRemoves(children, p);
        DistinctConcat(Leaves(Without(children, p)), Leaves(rest));
      } else {
        WithoutRemoves(rest, p);
        DistinctConcat(Leaves(children), Leaves(Without(rest, p)));
      }
  }

  /** Every entry is one name below the directory it belongs to. */
  ghost predicate Nested(path: Path, es: Entries)
    decreases es
  {
    match es
    case NoEntries => true
    case Item(p, rest) => IsChild(path, p) && Nested(path, rest)
    case Directory(p, children, rest) => IsChild(path, p) && Nested(p, children) && Nested(path, rest)
  }

  predicate IsChild(path: Path, p: Path) {
    |p| == |path| + 1 && p[..|path|] == path
  }

  lemma {:induction false} TreeIsNested(path: Path, listing: Listing)
    ensures Nested(path, TreeOf(path, listing))
    decreases listing
  {
    match listing
    case End =>
    case OnFile(_, rest) => TreeIsNested(path, rest);
    case OnDir(name, sub, rest) =>
      TreeIsNested(path + [name], sub);
      TreeIsNested(path, rest);
  }

  lemma {:induction false} WithoutIsNested(path: Path, es: Entries, p: Path)
    requires Nested(path, es)
    ensures Nested(path, Without(es, p))
    decreases es
  {
    match es
    case NoEntries =>
    case Item(_, rest) => WithoutIsNested(path, rest, p);
    case Directory(q, children, rest) =>
      WithoutIsNested(q, children, p);
      WithoutIsNested(path, rest, p);
  }

  /** The entries of directories are those on disk. */
  lemma {:induction false} DirsAreDirectories(path: Path, listing: Listing, q: Path)
    ensures q in Dirs(TreeOf(path, listing)) <==> q in Listings.DirsIn(path, listing)
    decreases listing
  {
    match listing
    case End =>
    case OnFile(_, rest) => DirsAreDirectories(path, rest, q);
    case OnDir(name, sub, rest) =>
      DirsAreDirectories(path + [name], sub, q);
      DirsAreDirectories(path, rest, q);
  }

  /* ----- _batch_query ----- */

  function Least(a: nat, b: nat): nat {
    if a < b then a else b
  }

  /** Slices of a positive size, one after another, give every row once and in order. */
  method BatchQuery<T>(rows: seq<T>, batchSize: nat) returns (all: seq<T>)
    requires batchSize > 0
    ensures all == rows
  {
    all := [];
    var offset, limit := 0, batchSize;
    while offset < |rows|
      invariant limit == offset + batchSize
      invariant all == rows[..Least(offset, |rows|)]
      decreases |rows| - offset
    {
      all := all + rows[offset..Least(limit, |rows|)];
      offset := offset + batchSize;
      limit := limit + batchSize;
    }
  }

  /* ----- scan ----- */

  /** A live row of the transfer, as the query returns it. */
  datatype Row = Row(uuid: string, location: Path)

  /** The UUID an entry has after all rows were seen: that of the last row for its path. */
  function UuidOf(rows: seq<Row>, p: Path): Option<string> {
    if rows == [] then None
    else if rows[|rows| - 1].location == p then Some(rows[|rows| - 1].uuid)
    else UuidOf(rows[..|rows| - 1], p)
  }

  /** Row i is the last one for the path. */
  ghost predicate IsLastFor(rows: seq<Row>, p: Path, i: int) {
    0 <= i < |rows| && rows[i].location == p && forall j :: i < j < |rows| ==> rows[j].location != p
  }

  /** No row is for the path. */
  ghost predicate NoneFor(rows: seq<Row>, p: Path) {
    forall j :: 0 <= j < |rows| ==> rows[j].location != p
  }

  lemma {:induction false} LastRow(rows: seq<Row>, p: Path) returns (i: int)
    ensures UuidOf(rows, p).None? ==> NoneFor(rows, p)
    ensures UuidOf(rows, p).Some? ==> IsLastFor(rows, p, i) && UuidOf(rows, p) == Some(rows[i].uuid)
  {
    i := -1;
    if rows != [] {
      var n := |rows| - 1;
      if rows[n].location == p {
        i := n;
      } else {
        i := LastRow(rows[..n], p);
        LastOfMore(rows, p, i);
      }
    }
  }

  lemma LastOfMore(rows: seq<Row>, p: Path, i: int)
    requires rows != [] && rows[|rows| - 1].location != p
    ensures IsLastFor(rows[..|rows| - 1], p, i) ==> IsLastFor(rows, p, i) && rows[..|rows| - 1][i] == rows[i]
    ensures NoneFor(rows[..|rows| - 1], p) ==> NoneFor(rows, p)
  {
    assert forall j :: 0 <= j < |rows| - 1 ==> rows[..|rows| - 1][j] == rows[j];
  }

  /** The UUID found for a path is that of the last row for it. */
  lemma UuidOfIs(rows: seq<Row>, p: Path)
    ensures UuidOf(rows, p).Some? <==> exists i :: IsLastFor(rows, p, i)
    ensures forall i :: IsLastFor(rows, p, i) ==> UuidOf(rows, p) == Some(rows[i].uuid)
  {
    var i := LastRow(rows, p);
    hide UuidOf;
    forall j | IsLastFor(rows, p, j) ensures UuidOf(rows, p) == Some(rows[j].uuid) {
      assert i == j;
    }
  }

  /** The index entries of files without a UUID yet. */
  function Fresh(path: Path, listing: Listing): map<Path, Option<string>> {
    map p | p in FilePaths(path, listing) :: None
  }

  lemma FreshFirst(m: map<Path, Option<string>>, path: Path, listing: Listing)
    ensures listing.OnFile? ==>
              m[path + [listing.name] := None] + Fresh(path, listing.rest) == m + Fresh(path, listing)
    ensures listing.OnDir? ==>
              m + Fresh(path + [listing.name], listing.sub) + Fresh(path, listing.rest) == m + Fresh(path, listing)
  {
  }

  /** An index without the entries that have no UUID, except those in `missing`. */
  function Remaining(index: map<Path, Option<string>>, missing: set<Path>): map<Path, Option<string>> {
    map p | p in index && (index[p].Some? || p in missing) :: index[p]
  }

  lemma RemainingStep(index: map<Path, Option<string>>, missing: set<Path>, p: Path)
    requires p in missing && p in index && index[p].None?
    ensures Remaining(index, missing) - {p} == Remaining(index, missing - {p})
  {
  }

  /** `fileIndex` maps paths to the `file_uuid` of their entries. */
  class FsEntriesTree {
    var children: Entries
    var fileIndex: map<Path, Option<string>>

    constructor ()
      ensures children == NoEntries && fileIndex == map[]
    {
      children, fileIndex := NoEntries, map[];
    }

    /** The entries below one directory, and their places in the index. */
    method BuildTree(path: Path, listing: Listing) returns (built: Entries)
      modifies this`fileIndex
      ensures built == TreeOf(path, listing)
      ensures fileIndex == old(fileIndex) + Fresh(path, listing)
      decreases listing
    {
      built := NoEntries;
      var items := listing;
      while !items.End?
        invariant Append(built, TreeOf(path, items)) == TreeOf(path, listing)
        invariant items == listing || items < listing
        invariant fileIndex + Fresh(path, items) == old(fileIndex) + Fresh(path, listing)
        decreases items
      {
        var p := path + [items.name];
        FreshFirst(fileIndex, path, items);
        if items.OnDir? {
          var sub := BuildTree(p, items.sub);
          AppendAssociative(built, Directory(p, sub, NoEntries), TreeOf(path, items.rest));
          built := Append(built, Directory(p, sub, NoEntries));
        } else {
          fileIndex := fileIndex[p := None];
          AppendAssociative(built, Item(p, NoEntries), TreeOf(path, items.rest));
          built := Append(built, Item(p, NoEntries));
        }
        items := items.rest;
      }
      AppendNothing(built);
      assert Fresh(path, End) == map[];
    }

    method LoadFileData(rows: seq<Row>, batchSize: nat)
      requires batchSize > 0
      modifies this`fileIndex
      ensures fileIndex == map p | p in old(fileIndex) ::
                             if UuidOf(rows, p).Some? then UuidOf(rows, p) else old(fileIndex)[p]
    {
      var all := BatchQuery(rows, batchSize);
      for i := 0 to |all|
        invariant fileIndex == map p | p in old(fileIndex) ::
                                 if UuidOf(rows[..i], p).Some? then UuidOf(rows[..i], p) else old(fileIndex)[p]
      {
        assert rows[..i + 1][..i] == rows[..i];
        if all[i].location in fileIndex {
          fileIndex := fileIndex[all[i].location := Some(all[i].uuid)];
        }
      }
      assert rows[..|rows|] == rows;
    }

    method Drop(p: Path, ghost root: Path)
      requires Distinct(Leaves(children)) && forall q :: q in Leaves(children) <==> q in fileIndex
      requires Nested(root, children)
      modifies this
      ensures fileIndex == old(fileIndex) - {p} && Nested(root, children)
      ensures Distinct(Leaves(children)) && Dirs(children) == Dirs(old(children))
      ensures forall q :: q in Leaves(children) <==> q in fileIndex
    {
      WithoutRemoves(children, p);
      WithoutIsNested(root, children, p);
      children := Without(children, p);
      fileIndex := fileIndex - {p};
    }

    /** Entries without a UUID leave the tree and the index. */
    method CheckForMissingFileUuids(ghost root: Path)
      requires Distinct(Leaves(children)) && forall p :: p in Leaves(children) <==> p in fileIndex
      requires Nested(root, children)
      modifies this
      ensures fileIndex == Remaining(old(fileIndex), {}) && Nested(root, children)
      ensures Distinct(Leaves(children)) && Dirs(children) == Dirs(old(children))
      ensures forall p :: p in Leaves(children) <==> p in fileIndex
    {
      var missing := set p | p in fileIndex && fileIndex[p].None?;
      assert fileIndex == Remaining(fileIndex, missing);
      while missing != {}
        invariant Distinct(Leaves(children)) && Dirs(children) == Dirs(old(children)) && Nested(root, children)
        invariant forall p :: p in Leaves(children) <==> p in fileIndex
        invariant fileIndex == Remaining(old(fileIndex), missing)
        invariant forall p :: p in missing ==> p in old(fileIndex) && old(fileIndex)[p].None?
        decreases |missing|
      {
        var p :| p in missing;
        RemainingStep(old(fileIndex), missing, p);
        missing := missing - {p};
        Drop(p, root);
      }
    }

    /** After `scan`, the leaves of the tree and the keys of the index are the files on disk with a
        live row, each with the UUID of its last row; every directory is there, and every entry is below its
        own directory. */
    method Scan(path: Path, listing: Listing, rows: seq<Row>, batchSize: nat)
      requires Valid(listing) && batchSize > 0 && fileIndex == map[]
      modifies this
      ensures forall p :: p in Leaves(children) <==> p in fileIndex
      ensures forall p :: p in fileIndex <==>
                p in FilePaths(path, listing) && exists i :: IsLastFor(rows, p, i)
      ensures forall p, i :: p in fileIndex && IsLastFor(rows, p, i) ==> fileIndex[p] == Some(rows[i].uuid)
      ensures Distinct(Leaves(children)) && Nested(path, children)
      ensures forall q :: q in Dirs(children) <==> q in Listings.DirsIn(path, listing)
    {
      children := BuildTree(path, listing);
      forall p ensures p in Leaves(children) <==> p in FilePaths(path, listing) {
        LeavesAreFiles(path, listing, p);
      }
      LeavesDistinct(path, listing);
      LoadFileData(rows, batchSize);
      TreeIsNested(path, listing);
      CheckForMissingFileUuids(path);
      forall p
        ensures UuidOf(rows, p).Some? <==> exists i :: IsLastFor(rows, p, i)
        ensures forall i :: IsLastFor(rows, p, i) ==> UuidOf(rows, p) == Some(rows[i].uuid)
      {
        UuidOfIs(rows, p);
      }
      forall q ensures q in Dirs(children) <==> q in Listings.DirsIn(path, listing) {
        DirsAreDirectories(path, listing, q);
      }
    }
  }
}
