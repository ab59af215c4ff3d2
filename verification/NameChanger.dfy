/** The whole clean-up of a unit: rename everything on disk, then bring the rows up to date. */
module NameChanging {
  import opened FileTree
  import opened ChangeNames
  import opened CleanTree
  import opened ObjectNames
  import opened Unicode

  /** The renames indexed for files (or for directories), both paths normalised. */
  function RenamesOf(nfc: Nfc, changes: seq<Change>, isDir: bool): seq<Rename> {
    if changes == [] then [] else
      var n := |changes| - 1;
      var c := changes[n];
      RenamesOf(nfc, changes[..n], isDir)
      + if c.wasChanged && c.isDir == isDir then [Rename(MapPath(nfc, c.oldPath), MapPath(nfc, c.newPath))] else []
  }

  /** Directory updates are file updates without the events. */
  function Unlogged(t: Table): Table {
    t.(events := [])
  }

  lemma UnloggedAdd(nfc: Nfc, batchSize: nat, t: Table, r: Rename)
    ensures Unlogged(Added(nfc, batchSize, Unlogged(t), r)) == Unlogged(Added(nfc, batchSize, t, r))
  {
  }

  lemma {:induction false} SplitUpdate(nfc: Nfc, index: map<Path, Path>, rows: seq<Row>, i: nat)
    requires i < |rows|
    ensures UpdatedRows(nfc, index, rows[..i + 1])
            == UpdatedRows(nfc, index, rows[..i]) + [Updated(nfc, index, rows[i])]
    ensures EventsOf(nfc, index, rows[..i + 1])
            == EventsOf(nfc, index, rows[..i]) + EventOf(nfc, index, rows[i])
    decreases i
  {
    if i == 0 {
      assert rows[..1] == [rows[0]] && [rows[0]][1..] == [];
    } else {
      SplitUpdate(nfc, index, rows[1..], i - 1);
      assert rows[..i + 1][1..] == rows[1..][..i] && rows[..i][1..] == rows[1..][..i - 1];
    }
  }

  /** Overwriting row i of a table whose first i rows are done. */
  lemma OverwriteRow(done: seq<Row>, before: seq<Row>, i: nat, row: Row)
    requires |done| == i < |before|
    ensures (done + before[i..])[i] == before[i]
    ensures (done + before[i..])[i := row] == done + [row] + before[i + 1..]
    ensures done + before[i..] == done + [before[i]] + before[i + 1..]
  {
  }

  function FilesOf(events: seq<Event>): set<nat> {
    set e | e in events :: e.fileUuid
  }

  lemma OneMoreFile(events: seq<Event>, e: Event)
    ensures FilesOf(events + [e]) == FilesOf(events) + {e.fileUuid}
  {
    assert forall x :: x in events + [e] <==> x in events || x == e;
    assert e in events + [e];
  }

  class NameChanger {
    const nfc: Nfc
    const batchSize: nat
    const dirUuids: bool
    var filesIndex: map<Path, Path>
    var dirsIndex: map<Path, Path>
    var fileRows: seq<Row>
    var dirRows: seq<Row>
    var events: seq<Event>
    /** The files whose events, all of them, are linked to the unit's agents. */
    var credited: set<nat>

    constructor (nfc: Nfc, batchSize: nat, dirUuids: bool, fileRows: seq<Row>, dirRows: seq<Row>)
      ensures this.nfc == nfc && this.batchSize == batchSize && this.dirUuids == dirUuids
      ensures Files() == Table(fileRows, [], map[]) && Dirs() == Table(dirRows, [], map[]) && Credited()
    {
      this.nfc, this.batchSize, this.dirUuids := nfc, batchSize, dirUuids;
      this.filesIndex, this.dirsIndex := map[], map[];
      this.fileRows, this.dirRows, this.events, this.credited := fileRows, dirRows, [], {};
    }

    function Files(): Table
      reads this
    {
      Table(fileRows, events, filesIndex)
    }

    function Dirs(): Table
      reads this
    {
      Table(dirRows, [], dirsIndex)
    }

    /** Every event written is linked to the agents. */
    ghost predicate Credited()
      reads this
    {
      credited == FilesOf(events)
    }

    method ApplyFileUpdates()
      requires Credited()
      modifies this`filesIndex, this`fileRows, this`events, this`credited
      ensures Files() == Flushed(nfc, old(Files())) && Credited()
    {
      ghost var before, done := fileRows, [];
      var written: seq<Event> := [];
      for i := 0 to |fileRows|
        invariant |done| == i && |before| == |fileRows| && filesIndex == old(filesIndex)
        invariant fileRows == done + before[i..] && done == UpdatedRows(nfc, filesIndex, before[..i])
        invariant written == EventsOf(nfc, filesIndex, before[..i])
        invariant events == old(events) && credited == old(credited)
      {
        SplitUpdate(nfc, filesIndex, before, i);
        OverwriteRow(done, before, i, Updated(nfc, filesIndex, before[i]));
        var row := fileRows[i];
        var oldLocation := MapPath(nfc, row.location);
        if oldLocation in filesIndex {
          var changedLocation := filesIndex[oldLocation];
          fileRows := fileRows[i := row.(location := changedLocation)];
          written := written + [Event(row.uuid, oldLocation, changedLocation)];
        }
        done := done + [Updated(nfc, filesIndex, before[i])];
      }
      assert before[..|before|] == before;
      WriteEvents(written);
      filesIndex := map[];
    }

    /** The events are created; then all events of their files are linked to the agents. */
    method WriteEvents(written: seq<Event>)
      requires Credited()
      modifies this`events, this`credited
      ensures events == old(events) + written && Credited()
    {
      ghost var before := events;
      events := events + written;
      assert before + written[..0] == before;
      for i := 0 to |written|
        invariant events == before + written && credited == FilesOf(before + written[..i])
      {
        OneMoreFile(before + written[..i], written[i]);
        assert before + written[..i + 1] == before + written[..i] + [written[i]];
        credited := credited + {written[i].fileUuid};
      }
      assert written[..|written|] == written;
    }

    /** Does nothing, and keeps the index, for a unit without directory UUIDs. */
    method ApplyDirUpdates()
      modifies this`dirsIndex, this`dirRows
      ensures Dirs() == if dirUuids then Unlogged(Flushed(nfc, old(Dirs()))) else old(Dirs())
    {
      if !dirUuids {
        return;
      }
      ghost var before, done := dirRows, [];
      for i := 0 to |dirRows|
        invariant |done| == i && |before| == |dirRows| && dirsIndex == old(dirsIndex)
        invariant dirRows == done + before[i..] && done == UpdatedRows(nfc, dirsIndex, before[..i])
      {
        SplitUpdate(nfc, dirsIndex, before, i);
        OverwriteRow(done, before, i, Updated(nfc, dirsIndex, before[i]));
        var row := dirRows[i];
        var oldLocation := MapPath(nfc, row.location);
        if oldLocation in dirsIndex {
          dirRows := dirRows[i := row.(location := dirsIndex[oldLocation])];
        }
        done := done + [Updated(nfc, dirsIndex, before[i])];
      }
      assert before[..|before|] == before;
      dirsIndex := map[];
    }

    method AddFileToBatch(oldPath: Path, newPath: Path)
      requires Credited()
      modifies this`filesIndex, this`fileRows, this`events, this`credited
      ensures Credited()
      ensures Files() == Added(nfc, batchSize, old(Files()), Rename(MapPath(nfc, oldPath), MapPath(nfc, newPath)))
    {
      filesIndex := filesIndex[MapPath(nfc, oldPath) := MapPath(nfc, newPath)];
      if |filesIndex| >= batchSize {
        ApplyFileUpdates();
      }
    }

    method AddDirToBatch(oldPath: Path, newPath: Path)
      modifies this`dirsIndex, this`dirRows
      ensures dirUuids ==>
                Dirs() == Unlogged(Added(nfc, batchSize, old(Dirs()),
                                         Rename(MapPath(nfc, oldPath), MapPath(nfc, newPath))))
      ensures !dirUuids ==> dirRows == old(dirRows)
    {
      dirsIndex := dirsIndex[MapPath(nfc, oldPath) := MapPath(nfc, newPath)];
      if |dirsIndex| >= batchSize {
        ApplyDirUpdates();
      }
    }

    method AddToBatch(c: Change)
      requires Credited()
      modifies this`filesIndex, this`fileRows, this`events, this`credited, this`dirsIndex, this`dirRows
      ensures Credited()
      ensures var r := Rename(MapPath(nfc, c.oldPath), MapPath(nfc, c.newPath));
              && (Files() == if c.wasChanged && !c.isDir then Added(nfc, batchSize, old(Files()), r) else old(Files()))
              && (dirUuids ==> Dirs() == if c.wasChanged && c.isDir
                                         then Unlogged(Added(nfc, batchSize, old(Dirs()), r)) else old(Dirs()))
              && (!dirUuids ==> dirRows == old(dirRows))
    {
      if c.wasChanged {
        if c.isDir {
          AddDirToBatch(c.oldPath, c.newPath);
        } else {
          AddFileToBatch(c.oldPath, c.newPath);
        }
      }
    }

    /** The loop of `change_objects`. */
    method AddAllToBatch(changes: seq<Change>)
      requires Credited()
      modifies this`filesIndex, this`fileRows, this`events, this`credited, this`dirsIndex, this`dirRows
      ensures Credited()
      ensures Files() == AddedAll(nfc, batchSize, old(Files()), RenamesOf(nfc, changes, false))
      ensures dirUuids ==>
                Dirs() == Unlogged(AddedAll(nfc, batchSize, old(Dirs()), RenamesOf(nfc, changes, true)))
      ensures !dirUuids ==> dirRows == old(dirRows)
    {
      ghost var files0, dirs0 := Files(), Dirs();
      for i := 0 to |changes|
        invariant Credited()
        invariant Files() == AddedAll(nfc, batchSize, files0, RenamesOf(nfc, changes[..i], false))
        invariant dirUuids ==>
                    Dirs() == Unlogged(AddedAll(nfc, batchSize, dirs0, RenamesOf(nfc, changes[..i], true)))
        invariant !dirUuids ==> dirRows == old(dirRows)
      {
        var c := changes[i];
        IndexOneMore(nfc, batchSize, files0, changes, i, false);
        IndexOneMore(nfc, batchSize, dirs0, changes, i, true);
        UnloggedAdd(nfc, batchSize, AddedAll(nfc, batchSize, dirs0, RenamesOf(nfc, changes[..i], true)),
                    Rename(MapPath(nfc, c.oldPath), MapPath(nfc, c.newPath)));
        AddToBatch(c);
      }
      assert changes[..|changes|] == changes;
    }

    /** `change_objects`, for a fresh NameChanger. If a rename raises, what was yielded before is
        indexed, and the last batches are not applied. */
    method ChangeObjects(disk: Directory, decode: Unidecode, max: nat) returns (ok: bool)
      requires filesIndex == map[] && dirsIndex == map[] && events == [] && Credited()
      modifies this, disk
      ensures Credited()
      ensures var run := Attempted(ChangePathRule(decode, max), max, [], old(disk.entries), [], []);
              && disk.entries == run.entries && ok == run.ok
              && Files() == Outcome(nfc, batchSize, old(fileRows), RenamesOf(nfc, run.changes, false), ok)
              && dirRows == if dirUuids
                            then Outcome(nfc, batchSize, old(dirRows), RenamesOf(nfc, run.changes, true), ok).rows
                            else old(dirRows)
    {
      var changes;
      changes, ok := disk.ChangeTree(decode, max, [], []);
      AddAllToBatch(changes);
      if !ok {
        return;
      }
      ApplyFileUpdates();
      ApplyDirUpdates();
    }
  }

  lemma IndexOneMore(nfc: Nfc, batchSize: nat, t: Table, changes: seq<Change>, i: nat, isDir: bool)
    requires i < |changes|
    ensures var c := changes[i];
            var done := AddedAll(nfc, batchSize, t, RenamesOf(nfc, changes[..i], isDir));
            AddedAll(nfc, batchSize, t, RenamesOf(nfc, changes[..i + 1], isDir))
            == if c.wasChanged && c.isDir == isDir
               then Added(nfc, batchSize, done, Rename(MapPath(nfc, c.oldPath), MapPath(nfc, c.newPath)))
               else done
  {
    var c := changes[i];
    assert changes[..i + 1][..i] == changes[..i];
    var r := Rename(MapPath(nfc, c.oldPath), MapPath(nfc, c.newPath));
    var renames := RenamesOf(nfc, changes[..i], isDir);
    assert (renames + [r])[..|renames|] == renames;
    assert renames + [] == renames;
  }
}
