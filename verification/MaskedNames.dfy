/** When a later entry's normalised old path is an earlier entry's new path: on the list of changes
    that is the condition under which rows are renamed twice; here it is told from the trees. */
module MaskedNames {
  import opened FileTree
  import opened ChangeNames
  import opened CleanTree
  import opened Unicode

  /** Entry b is looked up where entry a went. */
  ghost predicate Meet(nfc: Nfc, isDir: bool, a: Change, b: Change) {
    a.isDir == isDir && b.isDir == isDir && MapPath(nfc, b.oldPath) == a.newPath
  }

  ghost predicate Clash(nfc: Nfc, isDir: bool, changes: seq<Change>) {
    exists i, j :: 0 <= i < j < |changes| && Meet(nfc, isDir, changes[i], changes[j])
  }

  ghost predicate Across(nfc: Nfc, isDir: bool, x: seq<Change>, y: seq<Change>) {
    exists i, j :: 0 <= i < |x| && 0 <= j < |y| && Meet(nfc, isDir, x[i], y[j])
  }

  /** Something below, or at, the old node is looked up where something below, or at, the new
      node is. */
  ghost predicate NodesMeet(nfc: Nfc, isDir: bool, after: Node, before: Node)
    decreases before
  {
    (after.Dir? == isDir && before.Dir? == isDir)
    || (after.Dir? && before.Dir? && ListsMeet(nfc, isDir, after.entries, before.entries))
  }

  ghost predicate ListsMeet(nfc: Nfc, isDir: bool, after: seq<Entry>, before: seq<Entry>)
    decreases before
  {
    exists i, j :: 0 <= i < |after| && 0 <= j < |before| && EntriesMeet(nfc, isDir, after[i], before[j])
  }

  ghost predicate EntriesMeet(nfc: Nfc, isDir: bool, after: Entry, before: Entry)
    decreases before
  {
    after.name == nfc(before.name) && NodesMeet(nfc, isDir, after.node, before.node)
  }

  /** Somewhere in the tree, reached by directories whose normalised names are their new ones, an
      entry takes the normalised name of a later sibling, and the two meet. */
  ghost predicate Masked(nfc: Nfc, isDir: bool, before: seq<Entry>, after: seq<Entry>)
    decreases before
  {
    |before| == |after|
    && ((exists i, j :: 0 <= i < j < |before| && EntriesMeet(nfc, isDir, after[i], before[j]))
        || exists i :: 0 <= i < |before| && MaskedBelow(nfc, isDir, before[i], after[i]))
  }

  ghost predicate MaskedBelow(nfc: Nfc, isDir: bool, before: Entry, after: Entry)
    decreases before
  {
    before.node.Dir? && after.node.Dir? && after.name == nfc(before.name)
    && Masked(nfc, isDir, before.node.entries, after.node.entries)
  }

  /* ----- lists ----- */

  lemma ClashConcat(nfc: Nfc, isDir: bool, x: seq<Change>, y: seq<Change>)
    ensures Clash(nfc, isDir, x + y) <==> Clash(nfc, isDir, x) || Clash(nfc, isDir, y) || Across(nfc, isDir, x, y)
  {
    hide Meet;
    var z := x + y;
    if i, j :| 0 <= i < j < |z| && Meet(nfc, isDir, z[i], z[j]) {
      if j < |x| {
        assert Meet(nfc, isDir, x[i], x[j]);
      } else if i >= |x| {
        assert Meet(nfc, isDir, y[i - |x|], y[j - |x|]);
      } else {
        assert Meet(nfc, isDir, x[i], y[j - |x|]);
      }
    }
    if i, j :| 0 <= i < j < |x| && Meet(nfc, isDir, x[i], x[j]) {
      assert Meet(nfc, isDir, z[i], z[j]);
    }
    if i, j :| 0 <= i < j < |y| && Meet(nfc, isDir, y[i], y[j]) {
      assert Meet(nfc, isDir, z[|x| + i], z[|x| + j]);
    }
    if i, j :| 0 <= i < |x| && 0 <= j < |y| && Meet(nfc, isDir, x[i], y[j]) {
      assert Meet(nfc, isDir, z[i], z[|x| + j]);
    }
  }

  lemma AcrossLeft(nfc: Nfc, isDir: bool, x: seq<Change>, y: seq<Change>, z: seq<Change>)
    ensures Across(nfc, isDir, x + y, z) <==> Across(nfc, isDir, x, z) || Across(nfc, isDir, y, z)
  {
    hide Meet;
    if i, j :| 0 <= i < |x + y| && 0 <= j < |z| && Meet(nfc, isDir, (x + y)[i], z[j]) {
      if i < |x| {
        assert Meet(nfc, isDir, x[i], z[j]);
      } else {
        assert Meet(nfc, isDir, y[i - |x|], z[j]);
      }
    }
    if i, j :| 0 <= i < |x| && 0 <= j < |z| && Meet(nfc, isDir, x[i], z[j]) {
      assert Meet(nfc, isDir, (x + y)[i], z[j]);
    }
    if i, j :| 0 <= i < |y| && 0 <= j < |z| && Meet(nfc, isDir, y[i], z[j]) {
      assert Meet(nfc, isDir, (x + y)[|x| + i], z[j]);
    }
  }

  lemma AcrossRight(nfc: Nfc, isDir: bool, x: seq<Change>, y: seq<Change>, z: seq<Change>)
    ensures Across(nfc, isDir, x, y + z) <==> Across(nfc, isDir, x, y) || Across(nfc, isDir, x, z)
  {
    hide Meet;
    if i, j :| 0 <= i < |x| && 0 <= j < |y + z| && Meet(nfc, isDir, x[i], (y + z)[j]) {
      if j < |y| {
        assert Meet(nfc, isDir, x[i], y[j]);
      } else {
        assert Meet(nfc, isDir, x[i], z[j - |y|]);
      }
    }
    if i, j :| 0 <= i < |x| && 0 <= j < |y| && Meet(nfc, isDir, x[i], y[j]) {
      assert Meet(nfc, isDir, x[i], (y + z)[j]);
    }
    if i, j :| 0 <= i < |x| && 0 <= j < |z| && Meet(nfc, isDir, x[i], z[j]) {
      assert Meet(nfc, isDir, x[i], (y + z)[|y| + j]);
    }
  }

  /* ----- where the changes of an entry lie ----- */

  ghost predicate Deeper(changes: seq<Change>, oldStart: Path, start: Path) {
    forall c :: c in changes ==> |oldStart| < |c.oldPath| && c.oldPath[..|oldStart|] == oldStart
                                 && |start| < |c.newPath| && c.newPath[..|start|] == start
  }

  lemma {:induction false} ChangesAreDeeper(before: seq<Entry>, after: seq<Entry>, oldStart: Path, start: Path)
    ensures Deeper(Changes(before, after, oldStart, start), oldStart, start)
    decreases before, 0
  {
    if before != [] && after != [] {
      ChangesOfAreDeeper(before[0], after[0], oldStart, start);
      ChangesAreDeeper(before[1..], after[1..], oldStart, start);
    }
  }

  lemma {:induction false} ChangesOfAreDeeper(before: Entry, after: Entry, oldStart: Path, start: Path)
    ensures Deeper(ChangesOf(before, after, oldStart, start), oldStart, start)
    decreases before, 1
  {
    var oldPath, newPath := oldStart + [before.name], start + [after.name];
    if before.node.Dir? && after.node.Dir? {
      ChangesAreDeeper(before.node.entries, after.node.entries, oldPath, newPath);
      forall c | c in Changes(before.node.entries, after.node.entries, oldPath, newPath)
        ensures c.oldPath[..|oldStart|] == oldStart && c.newPath[..|start|] == start
      {
        assert c.oldPath[..|oldPath|][..|oldStart|] == oldStart;
        assert c.newPath[..|newPath|][..|start|] == start;
      }
    }
  }

  /** Changes below different places never meet. */
  lemma MeetBelow(nfc: Nfc, isDir: bool, a: Change, b: Change, start: Path, oldStart: Path)
    requires Meet(nfc, isDir, a, b) && |start| == |oldStart|
    requires |start| < |a.newPath| && a.newPath[..|start|] == start
    requires |oldStart| < |b.oldPath| && b.oldPath[..|oldStart|] == oldStart
    ensures start == MapPath(nfc, oldStart)
  {
    forall k | 0 <= k < |start| ensures start[k] == nfc(oldStart[k]) {
      assert a.newPath[..|start|][k] == a.newPath[k] && b.oldPath[..|oldStart|][k] == b.oldPath[k];
      assert MapPath(nfc, b.oldPath)[k] == nfc(b.oldPath[k]);
    }
  }

  lemma ListsMeetBelow(nfc: Nfc, isDir: bool, x: seq<Change>, y: seq<Change>,
                       oldX: Path, newX: Path, oldY: Path, newY: Path)
    requires Deeper(x, oldX, newX) && Deeper(y, oldY, newY) && |newX| == |oldY|
    requires Across(nfc, isDir, x, y)
    ensures newX == MapPath(nfc, oldY)
  {
    var i, j :| 0 <= i < |x| && 0 <= j < |y| && Meet(nfc, isDir, x[i], y[j]);
    assert x[i] in x && y[j] in y;
    MeetBelow(nfc, isDir, x[i], y[j], newX, oldY);
  }

  lemma ClashMeetsBelow(nfc: Nfc, isDir: bool, x: seq<Change>, oldX: Path, newX: Path)
    requires Deeper(x, oldX, newX) && |newX| == |oldX| && Clash(nfc, isDir, x)
    ensures newX == MapPath(nfc, oldX)
  {
    var i, j :| 0 <= i < j < |x| && Meet(nfc, isDir, x[i], x[j]);
    assert Across(nfc, isDir, x, x);
    ListsMeetBelow(nfc, isDir, x, x, oldX, newX, oldX, newX);
  }

  lemma OneMeetsOne(nfc: Nfc, isDir: bool, a: Change, b: Change)
    ensures Across(nfc, isDir, [a], [b]) <==> Meet(nfc, isDir, a, b)
  {
    if Meet(nfc, isDir, a, b) {
      assert Meet(nfc, isDir, [a][0], [b][0]);
    }
  }

  /** An entry does not meet what is deeper in the tree. */
  lemma OneMeetsNoneDeeper(nfc: Nfc, isDir: bool, a: Change, x: seq<Change>, oldX: Path, newX: Path)
    requires Deeper(x, oldX, newX)
    ensures |a.newPath| <= |oldX| ==> !Across(nfc, isDir, [a], x)
    ensures |a.oldPath| <= |newX| ==> !Across(nfc, isDir, x, [a])
  {
  }

  lemma OneDoesNotClash(nfc: Nfc, isDir: bool, a: Change)
    ensures !Clash(nfc, isDir, [a])
  {
  }

  /* ----- different subtrees ----- */

  lemma MapSnoc(f: string -> string, path: Path, name: string)
    ensures MapPath(f, path + [name]) == MapPath(f, path) + [f(name)]
  {
  }

  lemma SnocSame(x: Path, m: string, y: Path, n: string)
    ensures x + [m] == y + [n] <==> x == y && m == n
  {
    if x + [m] == y + [n] {
      assert (x + [m])[..|x|] == x && (y + [n])[..|y|] == y;
      assert (x + [m])[|x|] == m && (y + [n])[|y|] == n;
    }
  }

  /** Changes of two entries meet if and only if the places are the same, and the entries meet. */
  lemma {:induction false} EntriesMeetIff(nfc: Nfc, isDir: bool, xb: Entry, xa: Entry, yb: Entry, ya: Entry,
                                          oldX: Path, newX: Path, oldY: Path, newY: Path)
    requires AlignedEntry(xb, xa) && AlignedEntry(yb, ya) && |oldX| == |newX| == |oldY| == |newY|
    ensures Across(nfc, isDir, ChangesOf(xb, xa, oldX, newX), ChangesOf(yb, ya, oldY, newY))
            <==> newX == MapPath(nfc, oldY) && EntriesMeet(nfc, isDir, xa, yb)
    decreases xb, 0
  {
    var ox, nx, oy, ny := oldX + [xb.name], newX + [xa.name], oldY + [yb.name], newY + [ya.name];
    var x, y := Change(ox, nx, xb.node.Dir?, nx != ox), Change(oy, ny, yb.node.Dir?, ny != oy);
    var xs := if xb.node.Dir? then Changes(xb.node.entries, xa.node.entries, ox, nx) else [];
    var ys := if yb.node.Dir? then Changes(yb.node.entries, ya.node.entries, oy, ny) else [];
    if xb.node.Dir? {
      ChangesAreDeeper(xb.node.entries, xa.node.entries, ox, nx);
    }
    if yb.node.Dir? {
      ChangesAreDeeper(yb.node.entries, ya.node.entries, oy, ny);
    }
    assert Across(nfc, isDir, xs, ys) <==>
           (xb.node.Dir? && yb.node.Dir? && nx == MapPath(nfc, oy)
            && ListsMeet(nfc, isDir, xa.node.entries, yb.node.entries)) by {
      if xb.node.Dir? && yb.node.Dir? {
        ListsMeetIff(nfc, isDir, xb.node.entries, xa.node.entries, yb.node.entries, ya.node.entries, ox, nx, oy, ny);
      }
    }
    MapSnoc(nfc, oldY, yb.name);
    SnocSame(newX, xa.name, MapPath(nfc, oldY), nfc(yb.name));
    OneMeetsOne(nfc, isDir, x, y);
    OneMeetsNoneDeeper(nfc, isDir, x, ys, oy, ny);
    OneMeetsNoneDeeper(nfc, isDir, y, xs, ox, nx);
    FourWays(nfc, isDir, x, xs, y, ys);
    hide Across;
    assert ChangesOf(xb, xa, oldX, newX) == [x] + xs && ChangesOf(yb, ya, oldY, newY) == [y] + ys;
  }

  lemma FourWays(nfc: Nfc, isDir: bool, x: Change, xs: seq<Change>, y: Change, ys: seq<Change>)
    ensures Across(nfc, isDir, [x] + xs, [y] + ys) <==>
            Across(nfc, isDir, [x], [y]) || Across(nfc, isDir, [x], ys) || Across(nfc, isDir, xs, [y])
            || Across(nfc, isDir, xs, ys)
  {
    hide Across;
    AcrossLeft(nfc, isDir, [x], xs, [y] + ys);
    AcrossRight(nfc, isDir, [x], [y], ys);
    AcrossRight(nfc, isDir, xs, [y], ys);
  }

  ghost predicate EntryMeets(nfc: Nfc, isDir: bool, xa: Entry, yb: seq<Entry>) {
    exists j :: 0 <= j < |yb| && EntriesMeet(nfc, isDir, xa, yb[j])
  }

  lemma EntryMeetsCons(nfc: Nfc, isDir: bool, xa: Entry, yb: seq<Entry>)
    requires yb != []
    ensures EntryMeets(nfc, isDir, xa, yb) <==>
            EntriesMeet(nfc, isDir, xa, yb[0]) || EntryMeets(nfc, isDir, xa, yb[1..])
  {
    hide EntriesMeet;
    if j :| 0 <= j < |yb| && EntriesMeet(nfc, isDir, xa, yb[j]) {
      if j > 0 {
        assert EntriesMeet(nfc, isDir, xa, yb[1..][j - 1]);
      }
    }
    if j :| 0 <= j < |yb[1..]| && EntriesMeet(nfc, isDir, xa, yb[1..][j]) {
      assert EntriesMeet(nfc, isDir, xa, yb[j + 1]);
    }
  }

  lemma ListsMeetCons(nfc: Nfc, isDir: bool, xa: seq<Entry>, yb: seq<Entry>)
    requires xa != []
    ensures ListsMeet(nfc, isDir, xa, yb) <==> EntryMeets(nfc, isDir, xa[0], yb) || ListsMeet(nfc, isDir, xa[1..], yb)
  {
    hide EntriesMeet;
    if i, j :| 0 <= i < |xa| && 0 <= j < |yb| && EntriesMeet(nfc, isDir, xa[i], yb[j]) {
      if i > 0 {
        assert EntriesMeet(nfc, isDir, xa[1..][i - 1], yb[j]);
      }
    }
    if i, j :| 0 <= i < |xa[1..]| && 0 <= j < |yb| && EntriesMeet(nfc, isDir, xa[1..][i], yb[j]) {
      assert EntriesMeet(nfc, isDir, xa[i + 1], yb[j]);
    }
  }

  lemma AlignedTail(before: seq<Entry>, after: seq<Entry>)
    requires Aligned(before, after) && before != []
    ensures AlignedEntry(before[0], after[0]) && Aligned(before[1..], after[1..])
  {
    forall i | 0 <= i < |before[1..]| ensures AlignedEntry(before[1..][i], after[1..][i]) {
      assert AlignedEntry(before[i + 1], after[i + 1]);
    }
  }

  lemma {:induction false} EntryMeetsIff(nfc: Nfc, isDir: bool, xb: Entry, xa: Entry, yb: seq<Entry>, ya: seq<Entry>,
                                         oldX: Path, newX: Path, oldY: Path, newY: Path)
    requires AlignedEntry(xb, xa) && Aligned(yb, ya) && |oldX| == |newX| == |oldY| == |newY|
    ensures Across(nfc, isDir, ChangesOf(xb, xa, oldX, newX), Changes(yb, ya, oldY, newY))
            <==> newX == MapPath(nfc, oldY) && EntryMeets(nfc, isDir, xa, yb)
    decreases xb, 1 + |yb|
  {
    hide Across;
    hide EntriesMeet;
    if yb == [] {
      NothingAcross(nfc, isDir, ChangesOf(xb, xa, oldX, newX));
    } else {
      AlignedTail(yb, ya);
      hide AlignedEntry;
      hide Aligned;
      EntriesMeetIff(nfc, isDir, xb, xa, yb[0], ya[0], oldX, newX, oldY, newY);
      EntryMeetsIff(nfc, isDir, xb, xa, yb[1..], ya[1..], oldX, newX, oldY, newY);
      AcrossRight(nfc, isDir, ChangesOf(xb, xa, oldX, newX), ChangesOf(yb[0], ya[0], oldY, newY),
                  Changes(yb[1..], ya[1..], oldY, newY));
      EntryMeetsCons(nfc, isDir, xa, yb);
    }
  }

  lemma NothingAcross(nfc: Nfc, isDir: bool, x: seq<Change>)
    ensures !Across(nfc, isDir, x, []) && !Across(nfc, isDir, [], x) && !Clash(nfc, isDir, [])
  {
  }

  lemma {:induction false} ListsMeetIff(nfc: Nfc, isDir: bool, xb: seq<Entry>, xa: seq<Entry>, yb: seq<Entry>,
                                        ya: seq<Entry>, oldX: Path, newX: Path, oldY: Path, newY: Path)
    requires Aligned(xb, xa) && Aligned(yb, ya) && |oldX| == |newX| == |oldY| == |newY|
    ensures Across(nfc, isDir, Changes(xb, xa, oldX, newX), Changes(yb, ya, oldY, newY))
            <==> newX == MapPath(nfc, oldY) && ListsMeet(nfc, isDir, xa, yb)
    decreases xb, 0
  {
    hide Across;
    hide EntryMeets;
    if xb == [] {
      NothingAcross(nfc, isDir, Changes(yb, ya, oldY, newY));
    } else {
      AlignedTail(xb, xa);
      hide AlignedEntry;
      hide Aligned;
      EntryMeetsIff(nfc, isDir, xb[0], xa[0], yb, ya, oldX, newX, oldY, newY);
      ListsMeetIff(nfc, isDir, xb[1..], xa[1..], yb, ya, oldX, newX, oldY, newY);
      AcrossLeft(nfc, isDir, ChangesOf(xb[0], xa[0], oldX, newX), Changes(xb[1..], xa[1..], oldX, newX),
                 Changes(yb, ya, oldY, newY));
      ListsMeetCons(nfc, isDir, xa, yb);
    }
  }

  /* ----- the whole tree ----- */

  lemma MaskedCons(nfc: Nfc, isDir: bool, before: seq<Entry>, after: seq<Entry>)
    requires before != [] && |before| == |after|
    ensures Masked(nfc, isDir, before, after) <==>
            MaskedBelow(nfc, isDir, before[0], after[0]) || EntryMeets(nfc, isDir, after[0], before[1..])
            || Masked(nfc, isDir, before[1..], after[1..])
  {
    hide EntriesMeet;
    hide MaskedBelow;
    var bs, as_ := before[1..], after[1..];
    if i, j :| 0 <= i < j < |before| && EntriesMeet(nfc, isDir, after[i], before[j]) {
      if i == 0 {
        assert EntriesMeet(nfc, isDir, after[0], bs[j - 1]);
      } else {
        assert EntriesMeet(nfc, isDir, as_[i - 1], bs[j - 1]);
      }
    }
    if i :| 0 <= i < |before| && MaskedBelow(nfc, isDir, before[i], after[i]) {
      if i > 0 {
        assert MaskedBelow(nfc, isDir, bs[i - 1], as_[i - 1]);
      }
    }
    if j :| 0 <= j < |bs| && EntriesMeet(nfc, isDir, after[0], bs[j]) {
      assert EntriesMeet(nfc, isDir, after[0], before[j + 1]);
    }
    if i, j :| 0 <= i < j < |bs| && EntriesMeet(nfc, isDir, as_[i], bs[j]) {
      assert EntriesMeet(nfc, isDir, after[i + 1], before[j + 1]);
    }
    if i :| 0 <= i < |bs| && MaskedBelow(nfc, isDir, bs[i], as_[i]) {
      assert MaskedBelow(nfc, isDir, before[i + 1], after[i + 1]);
    }
  }

  /** A later change is looked up where an earlier one went if and only if the tree has masked
      names. */
  lemma {:induction false} ClashIff(nfc: Nfc, isDir: bool, before: seq<Entry>, after: seq<Entry>,
                                    oldStart: Path, start: Path)
    requires Aligned(before, after) && start == MapPath(nfc, oldStart)
    ensures Clash(nfc, isDir, Changes(before, after, oldStart, start)) <==> Masked(nfc, isDir, before, after)
    decreases before, 0
  {
    hide Clash;
    hide Across;
    hide EntryMeets;
    hide MaskedBelow;
    if before == [] {
      NothingAcross(nfc, isDir, []);
    } else {
      AlignedTail(before, after);
      hide AlignedEntry;
      hide Aligned;
      EntryClashIff(nfc, isDir, before[0], after[0], oldStart, start);
      ClashIff(nfc, isDir, before[1..], after[1..], oldStart, start);
      EntryMeetsIff(nfc, isDir, before[0], after[0], before[1..], after[1..], oldStart, start, oldStart, start);
      ClashConcat(nfc, isDir, ChangesOf(before[0], after[0], oldStart, start),
                  Changes(before[1..], after[1..], oldStart, start));
      MaskedCons(nfc, isDir, before, after);
      hide Masked;
    }
  }

  lemma {:induction false} EntryClashIff(nfc: Nfc, isDir: bool, before: Entry, after: Entry,
                                         oldStart: Path, start: Path)
    requires AlignedEntry(before, after) && start == MapPath(nfc, oldStart)
    ensures Clash(nfc, isDir, ChangesOf(before, after, oldStart, start)) <==> MaskedBelow(nfc, isDir, before, after)
    decreases before, 1
  {
    var oldPath, newPath := oldStart + [before.name], start + [after.name];
    var top := Change(oldPath, newPath, before.node.Dir?, newPath != oldPath);
    OneDoesNotClash(nfc, isDir, top);
    if before.node.Dir? {
      var below := Changes(before.node.entries, after.node.entries, oldPath, newPath);
      ChangesAreDeeper(before.node.entries, after.node.entries, oldPath, newPath);
      OneMeetsNoneDeeper(nfc, isDir, top, below, oldPath, newPath);
      ClashConcat(nfc, isDir, [top], below);
      MapSnoc(nfc, oldStart, before.name);
      SnocSame(start, after.name, MapPath(nfc, oldStart), nfc(before.name));
      if after.name == nfc(before.name) {
        ClashIff(nfc, isDir, before.node.entries, after.node.entries, oldPath, newPath);
      } else if Clash(nfc, isDir, below) {
        ClashMeetsBelow(nfc, isDir, below, oldPath, newPath);
      }
    }
  }

  /* ----- normalised paths that coincide ----- */

  /** The tree with every name normalised. */
  function Normalised(f: string -> string, entries: seq<Entry>): (r: seq<Entry>)
    ensures |r| == |entries|
    decreases entries
  {
    if entries == [] then [] else [NormalisedEntry(f, entries[0])] + Normalised(f, entries[1..])
  }

  function NormalisedEntry(f: string -> string, e: Entry): Entry
    decreases e
  {
    Entry(f(e.name), if e.node.Dir? then Dir(Normalised(f, e.node.entries)) else e.node)
  }

  /** Two entries of the kind have the same normalised path. */
  ghost predicate Twins(nfc: Nfc, isDir: bool, entries: seq<Entry>) {
    Masked(nfc, isDir, entries, Normalised(nfc, entries))
  }

  ghost predicate KeysApart(nfc: Nfc, isDir: bool, changes: seq<Change>) {
    forall i, j :: 0 <= i < j < |changes| && changes[i].isDir == isDir && changes[j].isDir == isDir ==>
      MapPath(nfc, changes[i].oldPath) != MapPath(nfc, changes[j].oldPath)
  }

  lemma AlignedCons(before: seq<Entry>, after: seq<Entry>)
    requires before != [] && |before| == |after|
    requires AlignedEntry(before[0], after[0]) && Aligned(before[1..], after[1..])
    ensures Aligned(before, after)
  {
    forall i | 0 <= i < |before| ensures AlignedEntry(before[i], after[i]) {
      if i > 0 {
        assert AlignedEntry(before[1..][i - 1], after[1..][i - 1]);
      }
    }
  }

  lemma {:induction false} NormalisedIsAligned(f: string -> string, entries: seq<Entry>)
    ensures Aligned(entries, Normalised(f, entries))
    decreases entries
  {
    if entries != [] {
      var after := Normalised(f, entries);
      assert after[0] == NormalisedEntry(f, entries[0]) && after[1..] == Normalised(f, entries[1..]);
      if entries[0].node.Dir? {
        NormalisedIsAligned(f, entries[0].node.entries);
      }
      NormalisedIsAligned(f, entries[1..]);
      AlignedCons(entries, after);
    }
  }

  /** The changes have the old paths of the tree, whatever the new names. */
  ghost predicate SameSources(x: seq<Change>, y: seq<Change>) {
    |x| == |y| && forall i :: 0 <= i < |x| ==> x[i].oldPath == y[i].oldPath && x[i].isDir == y[i].isDir
  }

  lemma {:induction false} SourcesAlike(before: seq<Entry>, a: seq<Entry>, b: seq<Entry>, oldStart: Path,
                                        s: Path, t: Path)
    requires Aligned(before, a) && Aligned(before, b)
    ensures SameSources(Changes(before, a, oldStart, s), Changes(before, b, oldStart, t))
    decreases before, 0
  {
    if before != [] {
      AlignedTail(before, a);
      AlignedTail(before, b);
      EntrySourcesAlike(before[0], a[0], b[0], oldStart, s, t);
      SourcesAlike(before[1..], a[1..], b[1..], oldStart, s, t);
    }
  }

  lemma {:induction false} EntrySourcesAlike(before: Entry, a: Entry, b: Entry, oldStart: Path, s: Path, t: Path)
    requires AlignedEntry(before, a) && AlignedEntry(before, b)
    ensures SameSources(ChangesOf(before, a, oldStart, s), ChangesOf(before, b, oldStart, t))
    decreases before, 1
  {
    if before.node.Dir? {
      SourcesAlike(before.node.entries, a.node.entries, b.node.entries, oldStart + [before.name], s + [a.name],
                   t + [b.name]);
    }
  }

  lemma {:induction false} NormalisedPaths(f: string -> string, before: seq<Entry>, oldStart: Path)
    ensures forall c :: c in Changes(before, Normalised(f, before), oldStart, MapPath(f, oldStart)) ==>
              c.newPath == MapPath(f, c.oldPath)
    decreases before, 0
  {
    if before != [] {
      var after := Normalised(f, before);
      assert after[0] == NormalisedEntry(f, before[0]) && after[1..] == Normalised(f, before[1..]);
      NormalisedEntryPaths(f, before[0], oldStart);
      NormalisedPaths(f, before[1..], oldStart);
    }
  }

  lemma {:induction false} NormalisedEntryPaths(f: string -> string, e: Entry, oldStart: Path)
    ensures forall c :: c in ChangesOf(e, NormalisedEntry(f, e), oldStart, MapPath(f, oldStart)) ==>
              c.newPath == MapPath(f, c.oldPath)
    decreases e, 1
  {
    MapSnoc(f, oldStart, e.name);
    if e.node.Dir? {
      NormalisedPaths(f, e.node.entries, oldStart + [e.name]);
    }
  }

  /** The normalised paths of a kind are apart if and only if the tree has no twins. */
  lemma TwinsIff(nfc: Nfc, isDir: bool, before: seq<Entry>, after: seq<Entry>, start: Path)
    requires Aligned(before, after)
    ensures KeysApart(nfc, isDir, Changes(before, after, [], start)) <==> !Twins(nfc, isDir, before)
  {
    var keyed := Normalised(nfc, before);
    var x, y := Changes(before, after, [], start), Changes(before, keyed, [], []);
    NormalisedIsAligned(nfc, before);
    assert MapPath(nfc, []) == [];
    ClashIff(nfc, isDir, before, keyed, [], []);
    SourcesAlike(before, after, keyed, [], start, []);
    NormalisedPaths(nfc, before, []);
    forall i, j | 0 <= i < j < |x|
      ensures Meet(nfc, isDir, y[i], y[j]) <==>
              (x[i].isDir == isDir && x[j].isDir == isDir && MapPath(nfc, x[i].oldPath) == MapPath(nfc, x[j].oldPath))
    {
      assert y[i] in y;
    }
  }
}
