/** What `change_tree` guarantees of every directory tree, and of the paths it reports. */
module CleanTree {
  import opened FileTree
  import opened ChangeNames
  import opened Sequences

  /** One renamed entry: its name and everything below it are clean, only names changed, and
      an allowed name is kept. */
  ghost predicate Renamed(before: Entry, after: Entry)
    decreases before
  {
    && AllAllowed(after.name) && after.name != ""
    && (after.name == before.name <==> AllAllowed(before.name))
    && match (before.node, after.node)
       case (File(c), File(d)) => c == d
       case (Dir(s), Dir(t)) => DistinctNames(t) && AllRenamed(s, t)
       case _ => false
  }

  ghost predicate AllRenamed(before: seq<Entry>, after: seq<Entry>)
    decreases before
  {
    |before| == |after| && forall i :: 0 <= i < |before| ==> Renamed(before[i], after[i])
  }

  lemma {:induction false} CleanedNodeIsRenamed(rename: Renamer, names: set<string>, e: Entry)
    requires Tidy(rename) && e.name != "" && ValidNode(e.node)
    ensures Renamed(e, CleanedEntry(rename, names, e))
    decreases e.node, 0
  {
    assert TidyName(names, e.name, rename(names, e.name));
    if e.node.Dir? {
      assert [] + e.node.entries == e.node.entries;
      CleanedIsRenamed(rename, [], e.node.entries);
    }
  }

  /** `change_tree` keeps every file, changes no clean name, leaves only clean names, and never
      lets two siblings collide. */
  lemma {:induction false} CleanedIsRenamed(rename: Renamer, done: seq<Entry>, todo: seq<Entry>)
    requires Tidy(rename) && DistinctNames(done + todo)
    requires forall i :: 0 <= i < |todo| ==> todo[i].name != "" && ValidNode(todo[i].node)
    ensures done <= Cleaned(rename, done, todo)
    ensures AllRenamed(todo, Cleaned(rename, done, todo)[|done|..])
    ensures DistinctNames(Cleaned(rename, done, todo))
    decreases todo, 1
  {
    if todo == [] {
      assert done + todo == done;
    } else {
      var names := Names(done + todo);
      var e := CleanedEntry(rename, names, todo[0]);
      CleanedNodeIsRenamed(rename, names, todo[0]);
      StepKeepsDistinct(rename, done, todo);
      CleanedIsRenamed(rename, done + [e], todo[1..]);
      RenamedCons(done, e, todo, Cleaned(rename, done, todo));
    }
  }

  lemma RenamedCons(done: seq<Entry>, e: Entry, todo: seq<Entry>, after: seq<Entry>)
    requires todo != [] && Renamed(todo[0], e)
    requires done + [e] <= after && AllRenamed(todo[1..], after[|done| + 1..])
    ensures done <= after && AllRenamed(todo, after[|done|..])
  {
    assert after[|done|] == (done + [e])[|done|] == e;
    forall i | 0 <= i < |todo| ensures Renamed(todo[i], after[|done|..][i]) {
      if i > 0 {
        assert after[|done|..][i] == after[|done| + 1..][i - 1] && todo[i] == todo[1..][i - 1];
      }
    }
  }

  lemma StepKeepsDistinct(rename: Renamer, done: seq<Entry>, todo: seq<Entry>)
    requires Tidy(rename) && todo != [] && todo[0].name != "" && DistinctNames(done + todo)
    ensures DistinctNames(done + [CleanedEntry(rename, Names(done + todo), todo[0])] + todo[1..])
  {
    var all := done + todo;
    var e := CleanedEntry(rename, Names(all), todo[0]);
    assert TidyName(Names(all), todo[0].name, e.name);
    var next := done + [e] + todo[1..];
    assert next == all[|done| := e];
    forall i, j | 0 <= i < j < |next| ensures next[i].name != next[j].name {
      assert all[i].name in Names(all) && all[j].name in Names(all);
    }
  }

  /** The second list is the first one with other names. */
  predicate Aligned(before: seq<Entry>, after: seq<Entry>)
    decreases before
  {
    |before| == |after| && forall i :: 0 <= i < |before| ==> AlignedEntry(before[i], after[i])
  }

  predicate AlignedEntry(before: Entry, after: Entry)
    decreases before
  {
    before.node.Dir? == after.node.Dir? && (before.node.Dir? ==> Aligned(before.node.entries, after.node.entries))
  }

  lemma {:induction false} RenamedAligned(before: seq<Entry>, after: seq<Entry>)
    requires AllRenamed(before, after)
    ensures Aligned(before, after)
    decreases before
  {
    forall i | 0 <= i < |before| ensures AlignedEntry(before[i], after[i]) {
      assert Renamed(before[i], after[i]);
      if before[i].node.Dir? {
        RenamedAligned(before[i].node.entries, after[i].node.entries);
      }
    }
  }

  /* ----- does the walk come to its end? ----- */

  /** The file system takes every new name. */
  predicate AllFit(before: seq<Entry>, after: seq<Entry>, max: nat)
    decreases before
  {
    |before| == |after| && forall i :: 0 <= i < |before| ==> Fits(before[i], after[i], max)
  }

  predicate Fits(before: Entry, after: Entry, max: nat)
    decreases before
  {
    CanRename(before.name, after.name, max)
    && (before.node.Dir? ==> after.node.Dir? && AllFit(before.node.entries, after.node.entries, max))
  }

  lemma AllFitCons(todo: seq<Entry>, c: seq<Entry>, n: nat, max: nat)
    requires todo != [] && |c| == n + |todo|
    ensures AllFit(todo, c[n..], max) <==> Fits(todo[0], c[n], max) && AllFit(todo[1..], c[n + 1..], max)
  {
    assert c[n..][1..] == c[n + 1..];
    if Fits(todo[0], c[n], max) && AllFit(todo[1..], c[n + 1..], max) {
      forall i | 0 <= i < |todo| ensures Fits(todo[i], c[n..][i], max) {
        if i > 0 {
          assert Fits(todo[1..][i - 1], c[n + 1..][i - 1], max);
        }
      }
    }
    if AllFit(todo, c[n..], max) {
      forall i | 0 <= i < |todo[1..]| ensures Fits(todo[1..][i], c[n + 1..][i], max) {
        assert Fits(todo[i + 1], c[n..][i + 1], max);
      }
    }
  }

  /** The walk comes to its end if and only if the file system takes every name chosen; then it
      leaves the cleaned tree and has yielded every entry. */
  lemma {:induction false} WalkSucceedsIff(rename: Renamer, max: nat, done: seq<Entry>, todo: seq<Entry>,
                                           oldStart: Path, start: Path)
    ensures var c := Cleaned(rename, done, todo);
            var a := Attempted(rename, max, done, todo, oldStart, start);
            && done <= c && |c| == |done| + |todo|
            && (a.ok <==> AllFit(todo, c[|done|..], max))
            && (a.ok ==> a.entries == c && a.changes == Changes(todo, c[|done|..], oldStart, start))
    decreases todo, 1
  {
    if todo != [] {
      var n, names := |done|, Names(done + todo);
      var one := AttemptedEntry(rename, max, names, todo[0], oldStart, start);
      var e := CleanedEntry(rename, names, todo[0]);
      EntrySucceedsIff(rename, max, names, todo[0], oldStart, start);
      WalkSucceedsIff(rename, max, done + [e], todo[1..], oldStart, start);
      var c := Cleaned(rename, done, todo);
      assert c == Cleaned(rename, done + [e], todo[1..]);
      assert (done + [e])[n] == e == c[n] && c[n..][0] == e && c[n..][1..] == c[n + 1..];
      AllFitCons(todo, c, n, max);
    }
  }

  lemma {:induction false} EntrySucceedsIff(rename: Renamer, max: nat, names: set<string>, e: Entry,
                                            oldStart: Path, start: Path)
    ensures var c := CleanedEntry(rename, names, e);
            var a := AttemptedEntry(rename, max, names, e, oldStart, start);
            && (a.ok <==> Fits(e, c, max))
            && (a.ok ==> a.entry == c && a.changes == ChangesOf(e, c, oldStart, start))
    decreases e, 0
  {
    if e.node.Dir? {
      var name := rename(names, e.name);
      WalkSucceedsIff(rename, max, [], e.node.entries, oldStart + [e.name], start + [name]);
      var c := Cleaned(rename, [], e.node.entries);
      assert c[0..] == c;
    }
  }

  /** What an aborted walk has yielded is where the complete one would have begun. */
  lemma {:induction false} AttemptIsPrefix(rename: Renamer, max: nat, done: seq<Entry>, todo: seq<Entry>,
                                           oldStart: Path, start: Path)
    ensures var c := Cleaned(rename, done, todo);
            && |c| == |done| + |todo|
            && Attempted(rename, max, done, todo, oldStart, start).changes
               <= Changes(todo, c[|done|..], oldStart, start)
    decreases todo, 1
  {
    WalkSucceedsIff(rename, max, done, todo, oldStart, start);
    if todo != [] {
      var n, names := |done|, Names(done + todo);
      var one := AttemptedEntry(rename, max, names, todo[0], oldStart, start);
      var e := CleanedEntry(rename, names, todo[0]);
      EntryIsPrefix(rename, max, names, todo[0], oldStart, start);
      EntrySucceedsIff(rename, max, names, todo[0], oldStart, start);
      AttemptIsPrefix(rename, max, done + [e], todo[1..], oldStart, start);
      WalkSucceedsIff(rename, max, done + [e], todo[1..], oldStart, start);
      var c := Cleaned(rename, done, todo);
      assert (done + [e])[n] == e == c[n] && c[n..][0] == e && c[n..][1..] == c[n + 1..];
      if one.ok {
        PrefixAfter(one.changes, Attempted(rename, max, done + [e], todo[1..], oldStart, start).changes,
                    Changes(todo[1..], c[n + 1..], oldStart, start));
      }
    }
  }

  lemma {:induction false} EntryIsPrefix(rename: Renamer, max: nat, names: set<string>, e: Entry,
                                         oldStart: Path, start: Path)
    ensures AttemptedEntry(rename, max, names, e, oldStart, start).changes
            <= ChangesOf(e, CleanedEntry(rename, names, e), oldStart, start)
    decreases e, 0
  {
    if e.node.Dir? {
      var name := rename(names, e.name);
      AttemptIsPrefix(rename, max, [], e.node.entries, oldStart + [e.name], start + [name]);
      var c := Cleaned(rename, [], e.node.entries);
      assert c[0..] == c;
    }
  }

  lemma PrefixAfter<T>(a: seq<T>, b: seq<T>, c: seq<T>)
    requires b <= c
    ensures a + b <= a + c
  {
  }

  /** The contents of all files, in walk order. */
  function Contents(entries: seq<Entry>): seq<nat>
    decreases entries
  {
    if entries == [] then [] else Contents(entries[..|entries| - 1]) + ContentsOf(entries[|entries| - 1])
  }

  function ContentsOf(e: Entry): seq<nat>
    decreases e
  {
    if e.node.File? then [e.node.content] else Contents(e.node.entries)
  }

  lemma ContentsSnoc(a: seq<Entry>, e: Entry)
    ensures Contents(a + [e]) == Contents(a) + ContentsOf(e)
  {
    assert (a + [e])[..|a|] == a;
  }

  lemma {:induction false} ContentsReplaced(a: seq<Entry>, e: Entry, f: Entry, b: seq<Entry>)
    requires ContentsOf(e) == ContentsOf(f)
    ensures Contents(a + [e] + b) == Contents(a + [f] + b)
    decreases |b|
  {
    if b == [] {
      assert a + [e] + b == a + [e] && a + [f] + b == a + [f];
      ContentsSnoc(a, e);
      ContentsSnoc(a, f);
    } else {
      var n := |b| - 1;
      ContentsReplaced(a, e, f, b[..n]);
      assert a + [e] + b == a + [e] + b[..n] + [b[n]] && a + [f] + b == a + [f] + b[..n] + [b[n]];
      ContentsSnoc(a + [e] + b[..n], b[n]);
      ContentsSnoc(a + [f] + b[..n], b[n]);
    }
  }

  /** Even a walk that is aborted leaves every file in its place, and siblings apart. */
  lemma {:induction false} AttemptKeepsFiles(rename: Renamer, max: nat, done: seq<Entry>, todo: seq<Entry>,
                                             oldStart: Path, start: Path)
    requires Tidy(rename) && ValidDir(done + todo)
    ensures var a := Attempted(rename, max, done, todo, oldStart, start);
            ValidDir(a.entries) && Contents(a.entries) == Contents(done + todo)
    decreases todo, 1
  {
    if todo == [] {
      assert done + todo == done;
    } else {
      var all, names := done + todo, Names(done + todo);
      var one := AttemptedEntry(rename, max, names, todo[0], oldStart, start);
      assert all[|done|] == todo[0];
      EntryKeepsFiles(rename, max, names, todo[0], oldStart, start);
      assert all == done + [todo[0]] + todo[1..];
      ContentsReplaced(done, todo[0], one.entry, todo[1..]);
      ReplacedValid(done, todo[0], one.entry, todo[1..]);
      if one.ok {
        AttemptKeepsFiles(rename, max, done + [one.entry], todo[1..], oldStart, start);
      }
    }
  }

  lemma ReplacedValid(a: seq<Entry>, e: Entry, f: Entry, b: seq<Entry>)
    requires ValidDir(a + [e] + b) && f.name != "" && ValidNode(f.node)
    requires f.name == e.name || f.name !in Names(a + [e] + b)
    ensures ValidDir(a + [f] + b)
  {
    var all, next := a + [e] + b, a + [f] + b;
    assert next == all[|a| := f];
    forall i, j | 0 <= i < j < |next| ensures next[i].name != next[j].name {
      assert all[i].name in Names(all) && all[j].name in Names(all);
    }
  }

  lemma {:induction false} EntryKeepsFiles(rename: Renamer, max: nat, names: set<string>, e: Entry,
                                           oldStart: Path, start: Path)
    requires Tidy(rename) && e.name != "" && ValidNode(e.node)
    ensures var f := AttemptedEntry(rename, max, names, e, oldStart, start).entry;
            && f.name != "" && ValidNode(f.node) && ContentsOf(f) == ContentsOf(e)
            && (f.name == e.name || f.name !in names)
    decreases e, 0
  {
    var name := rename(names, e.name);
    assert TidyName(names, e.name, name);
    if e.node.Dir? {
      assert [] + e.node.entries == e.node.entries;
      AttemptKeepsFiles(rename, max, [], e.node.entries, oldStart + [e.name], start + [name]);
    }
  }

  predicate CleanPath(path: Path) {
    forall i :: 0 <= i < |path| ==> AllAllowed(path[i])
  }

  lemma CleanPathSnoc(path: Path, name: string)
    ensures CleanPath(path + [name]) <==> CleanPath(path) && AllAllowed(name)
  {
    if CleanPath(path + [name]) {
      assert forall i :: 0 <= i < |path| ==> path[i] == (path + [name])[i];
      assert (path + [name])[|path|] == name;
    }
  }

  /** Every reported new path is clean, and an entry is reported as changed exactly when its
      old path, from the starting directory down, has a prohibited character somewhere. */
  lemma {:induction false} ChangedIffUnclean(before: seq<Entry>, after: seq<Entry>, oldStart: Path, start: Path)
    requires AllRenamed(before, after)
    requires CleanPath(start) && (oldStart == start <==> CleanPath(oldStart))
    ensures forall c :: c in Changes(before, after, oldStart, start) ==>
              && CleanPath(c.newPath)
              && (c.wasChanged <==> c.newPath != c.oldPath) && (c.wasChanged <==> !CleanPath(c.oldPath))
    decreases before, 0
  {
    if before != [] {
      assert Renamed(before[0], after[0]);
      assert forall i :: 0 <= i < |before[1..]| ==> Renamed(before[1..][i], after[1..][i]);
      EntryChangedIffUnclean(before[0], after[0], oldStart, start);
      ChangedIffUnclean(before[1..], after[1..], oldStart, start);
    }
  }

  lemma {:induction false} EntryChangedIffUnclean(before: Entry, after: Entry, oldStart: Path, start: Path)
    requires Renamed(before, after)
    requires CleanPath(start) && (oldStart == start <==> CleanPath(oldStart))
    ensures forall c :: c in ChangesOf(before, after, oldStart, start) ==>
              && CleanPath(c.newPath)
              && (c.wasChanged <==> c.newPath != c.oldPath) && (c.wasChanged <==> !CleanPath(c.oldPath))
    decreases before, 1
  {
    var oldPath, newPath := oldStart + [before.name], start + [after.name];
    CleanPathSnoc(start, after.name);
    CleanPathSnoc(oldStart, before.name);
    assert oldPath == newPath ==> oldPath[..|oldStart|] == newPath[..|start|];
    if before.node.Dir? {
      ChangedIffUnclean(before.node.entries, after.node.entries, oldPath, newPath);
    }
  }

  /** A path with every name passed through `f`. */
  function MapPath(f: string -> string, path: Path): (r: Path)
    ensures |r| == |path|
  {
    seq(|path|, i requires 0 <= i < |path| => f(path[i]))
  }

  /** All paths below a directory, in walk order, with every name passed through `f`. */
  function Walk(f: string -> string, entries: seq<Entry>, start: Path): seq<Path>
    decreases entries
  {
    if entries == [] then [] else WalkOf(f, entries[0], start) + Walk(f, entries[1..], start)
  }

  function WalkOf(f: string -> string, e: Entry, start: Path): seq<Path>
    decreases e
  {
    [start + [f(e.name)]] + (if e.node.Dir? then Walk(f, e.node.entries, start + [f(e.name)]) else [])
  }

  function Plain(name: string): string { name }

  function OldPaths(f: string -> string, changes: seq<Change>): (r: seq<Path>)
    ensures |r| == |changes|
  {
    seq(|changes|, i requires 0 <= i < |changes| => MapPath(f, changes[i].oldPath))
  }

  function NewPaths(changes: seq<Change>): (r: seq<Path>)
    ensures |r| == |changes|
  {
    seq(|changes|, i requires 0 <= i < |changes| => changes[i].newPath)
  }

  /** The reported old and new paths are the walks of the tree before and after. */
  lemma {:induction false} ChangesAreWalks(f: string -> string, before: seq<Entry>, after: seq<Entry>,
                                           oldStart: Path, start: Path)
    requires AllRenamed(before, after)
    ensures OldPaths(f, Changes(before, after, oldStart, start)) == Walk(f, before, MapPath(f, oldStart))
    ensures NewPaths(Changes(before, after, oldStart, start)) == Walk(Plain, after, start)
    decreases before, 0
  {
    if before != [] {
      assert Renamed(before[0], after[0]);
      assert forall i :: 0 <= i < |before[1..]| ==> Renamed(before[1..][i], after[1..][i]);
      EntryChangesAreWalks(f, before[0], after[0], oldStart, start);
      ChangesAreWalks(f, before[1..], after[1..], oldStart, start);
      PathsConcat(f, ChangesOf(before[0], after[0], oldStart, start),
                  Changes(before[1..], after[1..], oldStart, start));
    }
  }

  lemma {:induction false} EntryChangesAreWalks(f: string -> string, before: Entry, after: Entry,
                                                oldStart: Path, start: Path)
    requires Renamed(before, after)
    ensures OldPaths(f, ChangesOf(before, after, oldStart, start)) == WalkOf(f, before, MapPath(f, oldStart))
    ensures NewPaths(ChangesOf(before, after, oldStart, start)) == WalkOf(Plain, after, start)
    decreases before, 1
  {
    var oldPath, newPath := oldStart + [before.name], start + [after.name];
    var first := [Change(oldPath, newPath, before.node.Dir?, newPath != oldPath)];
    assert MapPath(f, oldPath) == MapPath(f, oldStart) + [f(before.name)];
    assert OldPaths(f, first) == [MapPath(f, oldPath)] && NewPaths(first) == [newPath];
    if before.node.Dir? {
      ChangesAreWalks(f, before.node.entries, after.node.entries, oldPath, newPath);
      PathsConcat(f, first, Changes(before.node.entries, after.node.entries, oldPath, newPath));
    }
  }

  lemma PathsConcat(f: string -> string, a: seq<Change>, b: seq<Change>)
    ensures OldPaths(f, a + b) == OldPaths(f, a) + OldPaths(f, b)
    ensures NewPaths(a + b) == NewPaths(a) + NewPaths(b)
  {
  }

  /** `f` keeps siblings apart, all the way down. */
  predicate Separates(f: string -> string, entries: seq<Entry>)
    decreases entries, 1
  {
    (forall i, j :: 0 <= i < j < |entries| ==> f(entries[i].name) != f(entries[j].name))
    && forall i :: 0 <= i < |entries| ==> SeparatesBelow(f, entries[i].node)
  }

  predicate SeparatesBelow(f: string -> string, node: Node)
    decreases node, 0
  {
    match node
    case File(_) => true
    case Dir(entries) => Separates(f, entries)
  }

  /** p lies below `start` in the entry whose (mapped) name is `name`. */
  predicate Below(p: Path, start: Path, name: string) {
    |start| < |p| && p[..|start|] == start && p[|start|] == name
  }

  lemma {:induction false} WalkIsBelow(f: string -> string, entries: seq<Entry>, start: Path, p: Path)
    returns (i: nat)
    requires p in Walk(f, entries, start)
    ensures i < |entries| && Below(p, start, f(entries[i].name))
    decreases entries, 0
  {
    if p in WalkOf(f, entries[0], start) {
      i := 0;
      WalkOfIsBelow(f, entries[0], start, p);
    } else {
      i := WalkIsBelow(f, entries[1..], start, p);
      i := i + 1;
    }
  }

  lemma {:induction false} WalkOfIsBelow(f: string -> string, e: Entry, start: Path, p: Path)
    requires p in WalkOf(f, e, start)
    ensures Below(p, start, f(e.name))
    decreases e, 1
  {
    var sub := start + [f(e.name)];
    if p != sub {
      var i := WalkIsBelow(f, e.node.entries, sub, p);
      assert p[..|start|] == p[..|sub|][..|start|] == start;
      assert p[|start|] == p[..|sub|][|start|] == f(e.name);
    }
  }

  /** No two entries of a tree share a path. */
  lemma {:induction false} WalkDistinct(f: string -> string, entries: seq<Entry>, start: Path)
    requires Separates(f, entries)
    ensures Distinct(Walk(f, entries, start))
    decreases entries, 0
  {
    if entries != [] {
      WalkOfDistinct(f, entries[0], start);
      assert forall i :: 0 <= i < |entries[1..]| ==> entries[1..][i] == entries[i + 1];
      WalkDistinct(f, entries[1..], start);
      forall p | p in WalkOf(f, entries[0], start) ensures p !in Walk(f, entries[1..], start) {
        WalkOfIsBelow(f, entries[0], start, p);
        if p in Walk(f, entries[1..], start) {
          var i := WalkIsBelow(f, entries[1..], start, p);
          assert false;
        }
      }
      DistinctConcat(WalkOf(f, entries[0], start), Walk(f, entries[1..], start));
    }
  }

  lemma {:induction false} WalkOfDistinct(f: string -> string, e: Entry, start: Path)
    requires SeparatesBelow(f, e.node)
    ensures Distinct(WalkOf(f, e, start))
    decreases e, 1
  {
    if e.node.Dir? {
      var sub := start + [f(e.name)];
      WalkDistinct(f, e.node.entries, sub);
      forall p | p in Walk(f, e.node.entries, sub) ensures p != sub {
        var i := WalkIsBelow(f, e.node.entries, sub, p);
      }
      DistinctConcat([sub], Walk(f, e.node.entries, sub));
    }
  }

  lemma {:induction false} RenamedSeparates(before: seq<Entry>, after: seq<Entry>)
    requires AllRenamed(before, after) && DistinctNames(after)
    ensures Separates(Plain, after)
    decreases before
  {
    forall i | 0 <= i < |after| ensures SeparatesBelow(Plain, after[i].node) {
      assert Renamed(before[i], after[i]);
      if after[i].node.Dir? {
        RenamedSeparates(before[i].node.entries, after[i].node.entries);
      }
    }
  }
}
