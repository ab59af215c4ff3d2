/** Disk and database after clean-up: for exactly which trees they agree, whatever the batch size. */
module DiskAndDatabase {
  import opened AbortedWalks
  import opened FileTree
  import opened ChangeNames
  import opened CleanTree
  import opened MaskedNames
  import opened NameChanging
  import opened ObjectNames
  import opened Sequences
  import opened Unicode

  /** Normalisation never turns a name with a prohibited character into an allowed one. */
  predicate KeepsUnclean(f: string -> string, entries: seq<Entry>)
    decreases entries, 1
  {
    forall i :: 0 <= i < |entries| ==>
      (AllAllowed(f(entries[i].name)) ==> AllAllowed(entries[i].name)) && KeepsUncleanBelow(f, entries[i].node)
  }

  predicate KeepsUncleanBelow(f: string -> string, node: Node)
    decreases node, 0
  {
    match node
    case File(_) => true
    case Dir(entries) => KeepsUnclean(f, entries)
  }

  lemma CleanPathIsNormal(nfc: Nfc, path: Path)
    requires CleanPath(path)
    ensures MapPath(nfc, path) == path
  {
    forall i | 0 <= i < |path| ensures nfc(path[i]) == path[i] {
      assert AllAllowed(path[i]) && Ascii(path[i]);
    }
  }

  lemma {:induction false} KeysStayUnclean(f: string -> string, before: seq<Entry>, after: seq<Entry>,
                                           oldStart: Path, start: Path)
    requires KeepsUnclean(f, before) && (CleanPath(MapPath(f, oldStart)) ==> CleanPath(oldStart))
    ensures forall c :: c in Changes(before, after, oldStart, start) ==>
              (CleanPath(MapPath(f, c.oldPath)) ==> CleanPath(c.oldPath))
    decreases before, 0
  {
    if before != [] && after != [] {
      EntryKeysStayUnclean(f, before[0], after[0], oldStart, start);
      assert forall i :: 0 <= i < |before[1..]| ==> before[1..][i] == before[i + 1];
      KeysStayUnclean(f, before[1..], after[1..], oldStart, start);
    }
  }

  lemma {:induction false} EntryKeysStayUnclean(f: string -> string, before: Entry, after: Entry,
                                                oldStart: Path, start: Path)
    requires KeepsUncleanBelow(f, before.node) && (AllAllowed(f(before.name)) ==> AllAllowed(before.name))
    requires CleanPath(MapPath(f, oldStart)) ==> CleanPath(oldStart)
    ensures forall c :: c in ChangesOf(before, after, oldStart, start) ==>
              (CleanPath(MapPath(f, c.oldPath)) ==> CleanPath(c.oldPath))
    decreases before, 1
  {
    var oldPath, newPath := oldStart + [before.name], start + [after.name];
    assert MapPath(f, oldPath) == MapPath(f, oldStart) + [f(before.name)];
    CleanPathSnoc(MapPath(f, oldStart), f(before.name));
    CleanPathSnoc(oldStart, before.name);
    if before.node.Dir? && after.node.Dir? {
      KeysStayUnclean(f, before.node.entries, after.node.entries, oldPath, newPath);
    }
  }

  /** Everything `change_tree` reports for a unit's objects directory. */
  ghost function DiskChanges(rename: Renamer, disk: seq<Entry>): seq<Change> {
    Changes(disk, Cleaned(rename, [], disk), [], [])
  }

  /** What the walk establishes about its list of changes, on any disk. */
  ghost predicate Orderly(changes: seq<Change>) {
    && (forall c :: c in changes ==>
          && CleanPath(c.newPath)
          && (c.wasChanged <==> c.newPath != c.oldPath) && (c.wasChanged <==> !CleanPath(c.oldPath)))
    && Distinct(NewPaths(changes))
  }

  lemma DiskChangesOrderly(rename: Renamer, disk: seq<Entry>)
    requires Tidy(rename) && ValidDir(disk)
    ensures Orderly(DiskChanges(rename, disk))
  {
    var after := Cleaned(rename, [], disk);
    assert [] + disk == disk;
    CleanedIsRenamed(rename, [], disk);
    assert after[0..] == after;
    ChangedIffUnclean(disk, after, [], []);
    ChangesAreWalks(Plain, disk, after, [], []);
    RenamedSeparates(disk, after);
    WalkDistinct(Plain, after, []);
  }

  lemma DiskKeysApart(nfc: Nfc, rename: Renamer, disk: seq<Entry>, isDir: bool)
    requires Tidy(rename) && ValidDir(disk)
    ensures KeysApart(nfc, isDir, DiskChanges(rename, disk)) <==> !Twins(nfc, isDir, disk)
  {
    var after := Cleaned(rename, [], disk);
    DiskAligned(rename, disk);
    TwinsIff(nfc, isDir, disk, after, []);
  }

  lemma DiskAligned(rename: Renamer, disk: seq<Entry>)
    requires Tidy(rename) && ValidDir(disk)
    ensures AllRenamed(disk, Cleaned(rename, [], disk)) && Aligned(disk, Cleaned(rename, [], disk))
  {
    var after := Cleaned(rename, [], disk);
    assert [] + disk == disk;
    CleanedIsRenamed(rename, [], disk);
    assert after[0..] == after;
    RenamedAligned(disk, after);
  }

  /** Every indexed rename comes from a change. */
  lemma {:induction false} RenameSource(nfc: Nfc, changes: seq<Change>, isDir: bool, i: nat) returns (k: nat)
    requires i < |RenamesOf(nfc, changes, isDir)|
    ensures k < |changes| && changes[k].wasChanged && changes[k].isDir == isDir
    ensures RenamesOf(nfc, changes, isDir)[i]
            == Rename(MapPath(nfc, changes[k].oldPath), MapPath(nfc, changes[k].newPath))
  {
    var n := |changes| - 1;
    if i < |RenamesOf(nfc, changes[..n], isDir)| {
      k := RenameSource(nfc, changes[..n], isDir, i);
    } else {
      k := n;
    }
  }

  lemma InitOrderly(nfc: Nfc, isDir: bool, changes: seq<Change>, n: nat)
    requires n <= |changes|
    ensures Orderly(changes) ==> Orderly(changes[..n])
    ensures KeysApart(nfc, isDir, changes) ==> KeysApart(nfc, isDir, changes[..n])
  {
    assert NewPaths(changes[..n]) == NewPaths(changes)[..n];
  }

  lemma {:induction false} RenamesNormalized(nfc: Nfc, changes: seq<Change>, isDir: bool)
    requires Orderly(changes)
    ensures Normalized(nfc, RenamesOf(nfc, changes, isDir))
    ensures forall k, l :: 0 <= k < l < |RenamesOf(nfc, changes, isDir)| ==>
              RenamesOf(nfc, changes, isDir)[k].newPath != RenamesOf(nfc, changes, isDir)[l].newPath
  {
    if changes != [] {
      var n := |changes| - 1;
      var c, renames := changes[n], RenamesOf(nfc, changes[..n], isDir);
      InitOrderly(nfc, isDir, changes, n);
      RenamesNormalized(nfc, changes[..n], isDir);
      CleanPathIsNormal(nfc, c.newPath);
      assert MapPath(nfc, MapPath(nfc, c.oldPath)) == MapPath(nfc, c.oldPath);
      forall i | 0 <= i < |renames| ensures renames[i].newPath != c.newPath {
        var k := RenameSource(nfc, changes[..n], isDir, i);
        CleanPathIsNormal(nfc, changes[k].newPath);
        assert NewPaths(changes)[k] != NewPaths(changes)[n];
      }
    }
  }

  /** Two changes of which one is looked up where the other went were both changed. */
  lemma MeetingsAreChanges(nfc: Nfc, isDir: bool, changes: seq<Change>, i: nat, j: nat)
    requires Orderly(changes) && KeysApart(nfc, isDir, changes) && i < j < |changes|
    requires Meet(nfc, isDir, changes[i], changes[j])
    ensures changes[i].wasChanged && changes[j].wasChanged
  {
    var a, b := changes[i], changes[j];
    assert a in changes && b in changes;
    if !b.wasChanged {
      CleanPathIsNormal(nfc, b.oldPath);
      DistinctAt(NewPaths(changes), i, j);
    } else if !a.wasChanged {
      CleanPathIsNormal(nfc, a.oldPath);
      KeysDiffer(nfc, isDir, changes, i, j);
    }
  }

  lemma KeysDiffer(nfc: Nfc, isDir: bool, changes: seq<Change>, i: nat, j: nat)
    requires KeysApart(nfc, isDir, changes) && i < j < |changes|
    requires changes[i].isDir == isDir && changes[j].isDir == isDir
    ensures MapPath(nfc, changes[i].oldPath) != MapPath(nfc, changes[j].oldPath)
  {
  }

  lemma DistinctAt<T>(s: seq<T>, i: nat, j: nat)
    requires Distinct(s) && i < j < |s|
    ensures s[i] != s[j]
  {
  }

  lemma {:induction false} ChangeHasRename(nfc: Nfc, changes: seq<Change>, isDir: bool, k: nat) returns (i: nat)
    requires k < |changes| && changes[k].wasChanged && changes[k].isDir == isDir
    ensures i < |RenamesOf(nfc, changes, isDir)|
    ensures RenamesOf(nfc, changes, isDir)[i]
            == Rename(MapPath(nfc, changes[k].oldPath), MapPath(nfc, changes[k].newPath))
    decreases |changes|
  {
    var n := |changes| - 1;
    if k < n {
      i := ChangeHasRename(nfc, changes[..n], isDir, k);
    } else {
      i := |RenamesOf(nfc, changes[..n], isDir)|;
    }
  }

  lemma IndependentSnoc(renames: seq<Rename>, r: Rename)
    ensures Independent(renames + [r]) <==>
            Independent(renames)
            && forall i :: 0 <= i < |renames| ==> r.oldPath != renames[i].oldPath && r.oldPath != renames[i].newPath
  {
    var all := renames + [r];
    if Independent(all) {
      forall i, j | 0 <= i < j < |renames|
        ensures renames[j].oldPath != renames[i].oldPath && renames[j].oldPath != renames[i].newPath
      {
        assert all[i] == renames[i] && all[j] == renames[j];
      }
      forall i | 0 <= i < |renames| ensures r.oldPath != renames[i].oldPath && r.oldPath != renames[i].newPath {
        assert all[i] == renames[i] && all[|renames|] == r;
      }
    }
  }

  lemma ClashSnoc(nfc: Nfc, isDir: bool, changes: seq<Change>, c: Change)
    ensures Clash(nfc, isDir, changes + [c]) <==>
            Clash(nfc, isDir, changes) || exists i :: 0 <= i < |changes| && Meet(nfc, isDir, changes[i], c)
  {
    hide Meet;
    OneDoesNotClash(nfc, isDir, c);
    ClashConcat(nfc, isDir, changes, [c]);
    if i :| 0 <= i < |changes| && Meet(nfc, isDir, changes[i], c) {
      assert Meet(nfc, isDir, changes[i], [c][0]);
    }
  }

  /** With normalised old paths apart, the renames are independent if and only if no entry is
      looked up where an earlier one went. */
  lemma {:induction false} IndependentIff(nfc: Nfc, changes: seq<Change>, isDir: bool)
    requires Orderly(changes) && KeysApart(nfc, isDir, changes)
    ensures Independent(RenamesOf(nfc, changes, isDir)) <==> !Clash(nfc, isDir, changes)
  {
    if changes != [] {
      var n := |changes| - 1;
      var c, init := changes[n], changes[..n];
      assert changes == init + [c];
      InitOrderly(nfc, isDir, changes, n);
      IndependentIff(nfc, init, isDir);
      ClashSnoc(nfc, isDir, init, c);
      if i :| 0 <= i < n && Meet(nfc, isDir, init[i], c) {
        MeetingsAreChanges(nfc, isDir, changes, i, n);
        LastMeets(nfc, changes, isDir, i);
      } else {
        LastMeetsNone(nfc, changes, isDir);
      }
    }
  }

  lemma LastMeets(nfc: Nfc, changes: seq<Change>, isDir: bool, i: nat)
    requires Orderly(changes) && i < |changes| - 1
    requires changes[i].wasChanged && changes[|changes| - 1].wasChanged
    requires Meet(nfc, isDir, changes[i], changes[|changes| - 1])
    ensures !Independent(RenamesOf(nfc, changes, isDir))
  {
    var n := |changes| - 1;
    var c, renames := changes[n], RenamesOf(nfc, changes[..n], isDir);
    var r := Rename(MapPath(nfc, c.oldPath), MapPath(nfc, c.newPath));
    var k := ChangeHasRename(nfc, changes[..n], isDir, i);
    CleanPathIsNormal(nfc, changes[i].newPath);
    IndependentSnoc(renames, r);
    assert r.oldPath == renames[k].newPath;
  }

  lemma LastMeetsNone(nfc: Nfc, changes: seq<Change>, isDir: bool)
    requires changes != [] && Orderly(changes) && KeysApart(nfc, isDir, changes)
    requires forall i :: 0 <= i < |changes| - 1 ==> !Meet(nfc, isDir, changes[i], changes[|changes| - 1])
    ensures Independent(RenamesOf(nfc, changes, isDir)) <==>
            Independent(RenamesOf(nfc, changes[..|changes| - 1], isDir))
  {
    var n := |changes| - 1;
    var c, renames := changes[n], RenamesOf(nfc, changes[..n], isDir);
    if c.wasChanged && c.isDir == isDir {
      var r := Rename(MapPath(nfc, c.oldPath), MapPath(nfc, c.newPath));
      IndependentSnoc(renames, r);
      forall i | 0 <= i < |renames| ensures r.oldPath != renames[i].oldPath && r.oldPath != renames[i].newPath {
        var k := RenameSource(nfc, changes[..n], isDir, i);
        CleanPathIsNormal(nfc, changes[k].newPath);
        KeysDiffer(nfc, isDir, changes, k, n);
        assert !Meet(nfc, isDir, changes[k], c);
      }
    } else {
      assert renames + [] == renames;
    }
  }

  /** On any disk, batches are harmless exactly when no indexed rename starts at a path where
      an earlier one started or ended. */
  lemma DiskBatchesIff(nfc: Nfc, rename: Renamer, disk: seq<Entry>, isDir: bool)
    requires Tidy(rename) && ValidDir(disk)
    ensures var renames := RenamesOf(nfc, DiskChanges(rename, disk), isDir);
            BatchIndependent(nfc, renames) <==> Independent(renames)
  {
    DiskChangesOrderly(rename, disk);
    RenamesNormalized(nfc, DiskChanges(rename, disk), isDir);
    BatchIndependentIff(nfc, RenamesOf(nfc, DiskChanges(rename, disk), isDir));
  }

  lemma {:induction false} ChangeIsIndexed(nfc: Nfc, changes: seq<Change>, isDir: bool, k: nat)
    requires KeysApart(nfc, isDir, changes)
    requires k < |changes| && changes[k].wasChanged && changes[k].isDir == isDir
    ensures var key := MapPath(nfc, changes[k].oldPath);
            var index := ToIndex(RenamesOf(nfc, changes, isDir));
            key in index && index[key] == MapPath(nfc, changes[k].newPath)
    decreases |changes|
  {
    var n := |changes| - 1;
    var c, renames := changes[n], RenamesOf(nfc, changes[..n], isDir);
    var last := Rename(MapPath(nfc, c.oldPath), MapPath(nfc, c.newPath));
    assert (renames + [last])[..|renames|] == renames == renames + [];
    if k < n {
      ChangeIsIndexed(nfc, changes[..n], isDir, k);
    }
  }

  /** The index of all renames knows every changed entry and no other. */
  lemma {:induction false} IndexedChange(nfc: Nfc, changes: seq<Change>, isDir: bool, k: nat)
    requires Orderly(changes) && KeysApart(nfc, isDir, changes) && k < |changes| && changes[k].isDir == isDir
    ensures var c, index := changes[k], ToIndex(RenamesOf(nfc, changes, isDir));
            var key := MapPath(nfc, c.oldPath);
            if c.wasChanged then key in index && index[key] == c.newPath
            else key !in index && key == c.oldPath == c.newPath
  {
    var c, renames := changes[k], RenamesOf(nfc, changes, isDir);
    var key := MapPath(nfc, c.oldPath);
    CleanPathIsNormal(nfc, c.newPath);
    if c.wasChanged {
      ChangeIsIndexed(nfc, changes, isDir, k);
    } else {
      CleanPathIsNormal(nfc, c.oldPath);
      if key in ToIndex(renames) {
        var i := ToIndexEntry(renames, key);
        var l := RenameSource(nfc, changes, isDir, i);
      }
    }
  }

  lemma {:induction false} RowAt(nfc: Nfc, index: map<Path, Path>, rows: seq<Row>, i: nat)
    requires i < |rows|
    ensures |UpdatedRows(nfc, index, rows)| == |rows|
    ensures UpdatedRows(nfc, index, rows)[i] == Updated(nfc, index, rows[i])
  {
    UpdatedLength(nfc, index, rows);
    if i > 0 {
      RowAt(nfc, index, rows[1..], i - 1);
    }
  }

  /** The row now holds the path of the disk entry it described, and that entry's index
      record writes one event if the path changed, none otherwise. */
  ghost predicate Agrees(nfc: Nfc, index: map<Path, Path>, c: Change, before: Row, after: Row) {
    var key := MapPath(nfc, c.oldPath);
    && MapPath(nfc, after.location) == c.newPath && after.uuid == before.uuid
    && EventOf(nfc, index, before) == if c.wasChanged then [Event(before.uuid, key, c.newPath)] else []
  }

  lemma RowsFollowDisk(nfc: Nfc, rename: Renamer, disk: seq<Entry>, isDir: bool,
                       batchSize: nat, rows: seq<Row>)
    requires Tidy(rename) && ValidDir(disk) && !Twins(nfc, isDir, disk)
    requires Independent(RenamesOf(nfc, DiskChanges(rename, disk), isDir))
    ensures var changes := DiskChanges(rename, disk);
            var renames := RenamesOf(nfc, changes, isDir);
            var after := Batched(nfc, batchSize, rows, renames);
            && SameResult(after, Simultaneous(nfc, rows, renames)) && |after.rows| == |rows|
            && (forall i, c :: 0 <= i < |rows| && c in changes && c.isDir == isDir
                               && MapPath(nfc, rows[i].location) == MapPath(nfc, c.oldPath)
                  ==> Agrees(nfc, ToIndex(renames), c, rows[i], after.rows[i]))
  {
    var changes := DiskChanges(rename, disk);
    var renames := RenamesOf(nfc, changes, isDir);
    DiskChangesOrderly(rename, disk);
    DiskKeysApart(nfc, rename, disk, isDir);
    RenamesNormalized(nfc, changes, isDir);
    BatchedIsSimultaneous(nfc, batchSize, rows, renames);
    UpdatedLength(nfc, ToIndex(renames), rows);
    forall i, c | 0 <= i < |rows| && c in changes && c.isDir == isDir
                  && MapPath(nfc, rows[i].location) == MapPath(nfc, c.oldPath)
      ensures Agrees(nfc, ToIndex(renames), c, rows[i], UpdatedRows(nfc, ToIndex(renames), rows)[i])
    {
      var k :| 0 <= k < |changes| && changes[k] == c;
      IndexedChange(nfc, changes, isDir, k);
      CleanPathIsNormal(nfc, c.newPath);
      RowAt(nfc, ToIndex(renames), rows, i);
    }
  }

  /* ----- walks that end and walks that raise ----- */

  /** The walk over a unit's objects directory on a file system with names up to `max` long. */
  ghost function DiskRun(rename: Renamer, max: nat, disk: seq<Entry>): Attempt {
    Attempted(rename, max, [], disk, [], [])
  }

  /** The walk comes to its end if and only if every name chosen fits. */
  lemma DiskRunIs(rename: Renamer, max: nat, disk: seq<Entry>)
    ensures var run, after := DiskRun(rename, max, disk), Cleaned(rename, [], disk);
            && (run.ok <==> AllFit(disk, after, max))
            && (run.ok ==> run.entries == after && run.changes == DiskChanges(rename, disk))
            && run.changes <= DiskChanges(rename, disk)
  {
    WalkSucceedsIff(rename, max, [], disk, [], []);
    AttemptIsPrefix(rename, max, [], disk, [], []);
    assert Cleaned(rename, [], disk)[0..] == Cleaned(rename, [], disk);
  }

  /** Siblings with normalised names apart, all the way down, have no twins. */
  lemma SeparateNamesHaveNoTwins(nfc: Nfc, rename: Renamer, disk: seq<Entry>, isDir: bool)
    requires Tidy(rename) && ValidDir(disk) && Separates(nfc, disk)
    ensures !Twins(nfc, isDir, disk)
  {
    var changes := DiskChanges(rename, disk);
    DiskAligned(rename, disk);
    ChangesAreWalks(nfc, disk, Cleaned(rename, [], disk), [], []);
    WalkDistinct(nfc, disk, MapPath(nfc, []));
    forall i, j | 0 <= i < j < |changes| ensures MapPath(nfc, changes[i].oldPath) != MapPath(nfc, changes[j].oldPath) {
      DistinctAt(OldPaths(nfc, changes), i, j);
    }
    DiskKeysApart(nfc, rename, disk, isDir);
  }

  /** The renames are independent if and only if the tree has no masked names. */
  lemma UnmaskedIff(nfc: Nfc, rename: Renamer, disk: seq<Entry>, isDir: bool)
    requires Tidy(rename) && ValidDir(disk) && !Twins(nfc, isDir, disk)
    ensures Independent(RenamesOf(nfc, DiskChanges(rename, disk), isDir))
            <==> !Masked(nfc, isDir, disk, Cleaned(rename, [], disk))
  {
    DiskChangesOrderly(rename, disk);
    DiskKeysApart(nfc, rename, disk, isDir);
    IndependentIff(nfc, DiskChanges(rename, disk), isDir);
    DiskAligned(rename, disk);
    assert MapPath(nfc, []) == [];
    ClashIff(nfc, isDir, disk, Cleaned(rename, [], disk), [], []);
  }

  lemma UncleanDoNotMeet(nfc: Nfc, isDir: bool, changes: seq<Change>, i: nat, j: nat)
    requires Orderly(changes) && KeysApart(nfc, isDir, changes) && i < j < |changes|
    requires forall c :: c in changes ==> (CleanPath(MapPath(nfc, c.oldPath)) ==> CleanPath(c.oldPath))
    ensures !Meet(nfc, isDir, changes[i], changes[j])
  {
    assert changes[i] in changes && changes[j] in changes;
    if Meet(nfc, isDir, changes[i], changes[j]) {
      MeetingsAreChanges(nfc, isDir, changes, i, j);
    }
  }

  /** Names that stay unclean under normalisation mask nothing. */
  lemma UncleanIsUnmasked(nfc: Nfc, rename: Renamer, disk: seq<Entry>, isDir: bool)
    requires Tidy(rename) && ValidDir(disk) && !Twins(nfc, isDir, disk) && KeepsUnclean(nfc, disk)
    ensures !Masked(nfc, isDir, disk, Cleaned(rename, [], disk))
  {
    var changes := DiskChanges(rename, disk);
    DiskChangesOrderly(rename, disk);
    DiskKeysApart(nfc, rename, disk, isDir);
    KeysStayUnclean(nfc, disk, Cleaned(rename, [], disk), [], []);
    forall i, j | 0 <= i < j < |changes| ensures !Meet(nfc, isDir, changes[i], changes[j]) {
      UncleanDoNotMeet(nfc, isDir, changes, i, j);
    }
    IndependentIff(nfc, changes, isDir);
    UnmaskedIff(nfc, rename, disk, isDir);
  }

  /** On every tree without twins and masked names, and if every name chosen fits, whatever the batch
      size: every row whose location was a file (or directory) on disk ends up with the path that
      file has now, with one event if the path changed and none otherwise; all rows and events are
      those of one simultaneous update. */
  lemma DiskAndDatabaseAgree(nfc: Nfc, decode: Unidecode, max: nat, disk: seq<Entry>, isDir: bool,
                             batchSize: nat, rows: seq<Row>)
    requires ValidDir(disk) && !Twins(nfc, isDir, disk)
    requires var after := Cleaned(ChangePathRule(decode, max), [], disk);
             AllFit(disk, after, max) && !Masked(nfc, isDir, disk, after)
    ensures var run := DiskRun(ChangePathRule(decode, max), max, disk);
            var renames := RenamesOf(nfc, run.changes, isDir);
            var after := Outcome(nfc, batchSize, rows, renames, run.ok);
            && SameResult(after, Simultaneous(nfc, rows, renames)) && |after.rows| == |rows|
            && (forall i, c :: 0 <= i < |rows| && c in run.changes && c.isDir == isDir
                               && MapPath(nfc, rows[i].location) == MapPath(nfc, c.oldPath)
                  ==> Agrees(nfc, ToIndex(renames), c, rows[i], after.rows[i]))
  {
    var rename := ChangePathRule(decode, max);
    ChangePathIsTidy(decode, max);
    DiskRunIs(rename, max, disk);
    UnmaskedIff(nfc, rename, disk, isDir);
    RowsFollowDisk(nfc, rename, disk, isDir, batchSize, rows);
  }

  /* ----- exactly when ----- */

  /** Every row that described an entry of the old disk describes that entry where it is now. */
  ghost predicate RowsOnDisk(nfc: Nfc, changes: seq<Change>, isDir: bool, rows: seq<Row>, after: seq<Row>) {
    |after| == |rows|
    && forall i, c :: 0 <= i < |rows| && c in changes && c.isDir == isDir
                      && MapPath(nfc, rows[i].location) == MapPath(nfc, c.oldPath)
         ==> MapPath(nfc, after[i].location) == MapPath(nfc, c.newPath) && after[i].uuid == rows[i].uuid
  }

  /** Every entry of the old disk and where it is after the walk, also if the walk did not get there. */
  ghost function WholeDisk(disk: seq<Entry>, run: Attempt): seq<Change> {
    Changes(disk, run.entries, [], [])
  }

  /** Disk and database agree, whatever rows the unit has and whatever the batch size. */
  ghost predicate AlwaysAgree(nfc: Nfc, isDir: bool, disk: seq<Entry>, run: Attempt) {
    forall batchSize: nat, rows: seq<Row> :: batchSize >= 1 ==>
      RowsOnDisk(nfc, WholeDisk(disk, run), isDir, rows,
                 Outcome(nfc, batchSize, rows, RenamesOf(nfc, run.changes, isDir), run.ok).rows)
  }

  lemma AgreeIfUnmasked(nfc: Nfc, rename: Renamer, disk: seq<Entry>, isDir: bool, batchSize: nat, rows: seq<Row>)
    requires Tidy(rename) && ValidDir(disk) && !Twins(nfc, isDir, disk)
    requires Independent(RenamesOf(nfc, DiskChanges(rename, disk), isDir))
    ensures var changes := DiskChanges(rename, disk);
            RowsOnDisk(nfc, changes, isDir, rows, Batched(nfc, batchSize, rows, RenamesOf(nfc, changes, isDir)).rows)
  {
    RowsFollowDisk(nfc, rename, disk, isDir, batchSize, rows);
    DiskChangesOrderly(rename, disk);
    forall c | c in DiskChanges(rename, disk) ensures MapPath(nfc, c.newPath) == c.newPath {
      CleanPathIsNormal(nfc, c.newPath);
    }
  }

  /** An entry looked up where an earlier one went: some batch size leaves the earlier one's row at
      the path of a later one. */
  lemma MaskedDisagrees(nfc: Nfc, changes: seq<Change>, isDir: bool)
    requires Orderly(changes) && KeysApart(nfc, isDir, changes)
    requires !Independent(RenamesOf(nfc, changes, isDir))
    ensures exists rows: seq<Row> ::
              !RowsOnDisk(nfc, changes, isDir, rows, Batched(nfc, 1, rows, RenamesOf(nfc, changes, isDir)).rows)
  {
    hide RowsOnDisk;
    hide Batched;
    var renames := RenamesOf(nfc, changes, isDir);
    RenamesNormalized(nfc, changes, isDir);
    KeysDistinct(nfc, changes, isDir);
    var i, j :| 0 <= i < j < |renames|
                && (renames[j].oldPath == renames[i].oldPath || renames[j].oldPath == renames[i].newPath);
    var m := WrongPath(nfc, renames, i, j);
    var k := RenameSource(nfc, changes, isDir, i);
    assert changes[k] in changes;
    CleanPathIsNormal(nfc, changes[k].newPath);
    assert renames[m] in renames;
    WrongRow(nfc, changes, isDir, changes[k], renames[i].oldPath, renames[m].newPath);
    assert !RowsOnDisk(nfc, changes, isDir, [Row(0, renames[i].oldPath)],
                       Batched(nfc, 1, [Row(0, renames[i].oldPath)], renames).rows);
  }

  lemma WrongRow(nfc: Nfc, changes: seq<Change>, isDir: bool, c: Change, location: Path, wrong: Path)
    requires c in changes && c.isDir == isDir && MapPath(nfc, location) == MapPath(nfc, c.oldPath)
    requires MapPath(nfc, wrong) != MapPath(nfc, c.newPath)
    ensures !RowsOnDisk(nfc, changes, isDir, [Row(0, location)], [Row(0, wrong)])
  {
    assert [Row(0, location)][0].location == location && [Row(0, wrong)][0].location == wrong;
  }

  /** One row cannot be at the new paths of two entries. */
  lemma TwinsDisagree(nfc: Nfc, changes: seq<Change>, isDir: bool, i: nat, j: nat, after: seq<Row>)
    requires Orderly(changes) && i < j < |changes| && changes[i].isDir == isDir && changes[j].isDir == isDir
    requires MapPath(nfc, changes[i].oldPath) == MapPath(nfc, changes[j].oldPath)
    ensures !RowsOnDisk(nfc, changes, isDir, [Row(0, changes[i].oldPath)], after)
  {
    assert changes[i] in changes && changes[j] in changes;
    CleanPathIsNormal(nfc, changes[i].newPath);
    CleanPathIsNormal(nfc, changes[j].newPath);
    DistinctAt(NewPaths(changes), i, j);
    assert [Row(0, changes[i].oldPath)][0].location == changes[i].oldPath;
  }

  lemma {:induction false} KeysDistinct(nfc: Nfc, changes: seq<Change>, isDir: bool)
    requires KeysApart(nfc, isDir, changes)
    ensures forall k, l :: 0 <= k < l < |RenamesOf(nfc, changes, isDir)| ==>
              RenamesOf(nfc, changes, isDir)[k].oldPath != RenamesOf(nfc, changes, isDir)[l].oldPath
  {
    if changes != [] {
      var n := |changes| - 1;
      InitOrderly(nfc, isDir, changes, n);
      KeysDistinct(nfc, changes[..n], isDir);
      var renames := RenamesOf(nfc, changes[..n], isDir);
      if changes[n].wasChanged && changes[n].isDir == isDir {
        forall i | 0 <= i < |renames| ensures renames[i].oldPath != MapPath(nfc, changes[n].oldPath) {
          var k := RenameSource(nfc, changes[..n], isDir, i);
          KeysDiffer(nfc, isDir, changes, k, n);
        }
      }
    }
  }

  /** Indexing renames of normalised paths to themselves moves no row. */
  lemma {:induction false} SettledRows(nfc: Nfc, batchSize: nat, rows: seq<Row>, renames: seq<Rename>)
    requires Normalized(nfc, renames) && forall r :: r in renames ==> r.oldPath == r.newPath
    ensures var t := AddedAll(nfc, batchSize, Table(rows, [], map[]), renames);
            && SameKeys(nfc, rows, t.rows)
            && forall k :: k in t.index ==> t.index[k] == k && MapPath(nfc, k) == k
  {
    if renames != [] {
      var n := |renames| - 1;
      SettledRows(nfc, batchSize, rows, renames[..n]);
      var t := AddedAll(nfc, batchSize, Table(rows, [], map[]), renames[..n]);
      assert renames[n] in renames;
      var u := t.(index := t.index[renames[n].oldPath := renames[n].newPath]);
      UpdatedSame(nfc, u.index, rows, t.rows);
    }
  }

  ghost predicate SameKeys(nfc: Nfc, rows: seq<Row>, after: seq<Row>) {
    |after| == |rows|
    && forall i :: 0 <= i < |rows| ==> after[i].uuid == rows[i].uuid
                                       && MapPath(nfc, after[i].location) == MapPath(nfc, rows[i].location)
  }

  lemma UpdatedSame(nfc: Nfc, index: map<Path, Path>, rows: seq<Row>, now: seq<Row>)
    requires SameKeys(nfc, rows, now) && forall k :: k in index ==> index[k] == k && MapPath(nfc, k) == k
    ensures SameKeys(nfc, rows, UpdatedRows(nfc, index, now))
  {
    UpdatedLength(nfc, index, now);
    forall i | 0 <= i < |rows|
      ensures UpdatedRows(nfc, index, now)[i].uuid == rows[i].uuid
           && MapPath(nfc, UpdatedRows(nfc, index, now)[i].location) == MapPath(nfc, rows[i].location)
    {
      RowAt(nfc, index, now, i);
    }
  }

  /** A walk that raised leaves the last batch unapplied: with batches that are not full by then,
      no row was touched. */
  lemma AbortedAgreesIff(nfc: Nfc, isDir: bool, disk: seq<Entry>, run: Attempt)
    requires !run.ok && Orderly(run.changes) && forall c :: c in run.changes ==> c in WholeDisk(disk, run)
    ensures AlwaysAgree(nfc, isDir, disk, run) <==> Settled(nfc, isDir, WholeDisk(disk, run))
  {
    var renames, all := RenamesOf(nfc, run.changes, isDir), WholeDisk(disk, run);
    RenamesNormalized(nfc, run.changes, isDir);
    if c :| c in all && c.isDir == isDir && MapPath(nfc, c.oldPath) != MapPath(nfc, c.newPath) {
      var rows := [Row(0, c.oldPath)];
      NothingApplied(nfc, |renames| + 1, rows, renames);
      WrongRow(nfc, all, isDir, c, c.oldPath, c.oldPath);
      assert !RowsOnDisk(nfc, all, isDir, rows, Outcome(nfc, |renames| + 1, rows, renames, run.ok).rows);
    } else {
      forall r | r in renames ensures r.oldPath == r.newPath {
        var i :| 0 <= i < |renames| && renames[i] == r;
        var k := RenameSource(nfc, run.changes, isDir, i);
        assert run.changes[k] in run.changes;
      }
      forall batchSize: nat, rows: seq<Row> | batchSize >= 1
        ensures RowsOnDisk(nfc, all, isDir, rows, Outcome(nfc, batchSize, rows, renames, run.ok).rows)
      {
        SettledRows(nfc, batchSize, rows, renames);
      }
    }
  }

  /** The names chosen before the first one that does not fit say whether a walk that raised has
      moved anything. */
  lemma DiskSettledIff(nfc: Nfc, rename: Renamer, max: nat, disk: seq<Entry>, isDir: bool)
    requires Tidy(rename) && ValidDir(disk)
    ensures var run := DiskRun(rename, max, disk);
            Settled(nfc, isDir, WholeDisk(disk, run))
            <==> QuietUntil(nfc, isDir, max, disk, Cleaned(rename, [], disk))
  {
    var run, after := DiskRun(rename, max, disk), Cleaned(rename, [], disk);
    ValidIsNamed(disk);
    AttemptAligned(rename, max, [], disk, [], []);
    UnmovedIff(nfc, isDir, rename, max, [], disk, [], []);
    assert run.entries[0..] == run.entries && after[0..] == after;
    SettledIff(nfc, isDir, disk, run.entries, [], []);
  }

  /** The whole disk after a complete walk is what the walk yielded. */
  lemma WholeDiskIs(rename: Renamer, max: nat, disk: seq<Entry>)
    ensures var run := DiskRun(rename, max, disk);
            && (run.ok ==> WholeDisk(disk, run) == DiskChanges(rename, disk))
            && forall c :: c in run.changes ==> c in WholeDisk(disk, run)
  {
    DiskRunIs(rename, max, disk);
    YieldedOnDisk(rename, max, [], disk, [], []);
    assert DiskRun(rename, max, disk).entries[0..] == DiskRun(rename, max, disk).entries;
  }

  /** Disk and database agree after clean-up, for every batch size and all rows, if and only if either
      every name chosen fits, no two entries of the kind share a normalised path and no name is
      masked; or one name does not fit, and of those chosen before it none differs from the
      normalised old name if there is an entry of the kind at or below it. */
  lemma AgreementIff(nfc: Nfc, rename: Renamer, max: nat, disk: seq<Entry>, isDir: bool)
    requires Tidy(rename) && ValidDir(disk)
    ensures var after := Cleaned(rename, [], disk);
            AlwaysAgree(nfc, isDir, disk, DiskRun(rename, max, disk)) <==>
            if AllFit(disk, after, max) then !Twins(nfc, isDir, disk) && !Masked(nfc, isDir, disk, after)
            else QuietUntil(nfc, isDir, max, disk, after)
  {
    var run, changes := DiskRun(rename, max, disk), DiskChanges(rename, disk);
    DiskRunIs(rename, max, disk);
    WholeDiskIs(rename, max, disk);
    DiskChangesOrderly(rename, disk);
    if run.ok {
      CompleteAgreesIff(nfc, rename, max, disk, isDir);
    } else {
      InitOrderly(nfc, isDir, changes, |run.changes|);
      assert changes[..|run.changes|] == run.changes;
      AbortedAgreesIff(nfc, isDir, disk, run);
      DiskSettledIff(nfc, rename, max, disk, isDir);
    }
  }

  lemma CompleteAgreesIff(nfc: Nfc, rename: Renamer, max: nat, disk: seq<Entry>, isDir: bool)
    requires Tidy(rename) && ValidDir(disk) && DiskRun(rename, max, disk).ok
    ensures AlwaysAgree(nfc, isDir, disk, DiskRun(rename, max, disk)) <==>
            !Twins(nfc, isDir, disk) && !Masked(nfc, isDir, disk, Cleaned(rename, [], disk))
  {
    hide RowsOnDisk;
    var run, changes := DiskRun(rename, max, disk), DiskChanges(rename, disk);
    var renames := RenamesOf(nfc, changes, isDir);
    DiskRunIs(rename, max, disk);
    WholeDiskIs(rename, max, disk);
    DiskChangesOrderly(rename, disk);
    DiskKeysApart(nfc, rename, disk, isDir);
    if Twins(nfc, isDir, disk) {
      var i, j :| 0 <= i < j < |changes| && changes[i].isDir == isDir && changes[j].isDir == isDir
                  && MapPath(nfc, changes[i].oldPath) == MapPath(nfc, changes[j].oldPath);
      var rows := [Row(0, changes[i].oldPath)];
      TwinsDisagree(nfc, changes, isDir, i, j, Outcome(nfc, 1, rows, renames, run.ok).rows);
    } else {
      UnmaskedIff(nfc, rename, disk, isDir);
      if Independent(renames) {
        forall batchSize: nat, rows: seq<Row> | batchSize >= 1
          ensures RowsOnDisk(nfc, WholeDisk(disk, run), isDir, rows, Outcome(nfc, batchSize, rows, renames, run.ok).rows)
        {
          AgreeIfUnmasked(nfc, rename, disk, isDir, batchSize, rows);
        }
      } else {
        MaskedDisagrees(nfc, changes, isDir);
        var rows :| !RowsOnDisk(nfc, changes, isDir, rows, Batched(nfc, 1, rows, renames).rows);
        assert !RowsOnDisk(nfc, WholeDisk(disk, run), isDir, rows, Outcome(nfc, 1, rows, renames, run.ok).rows);
      }
    }
  }
}
