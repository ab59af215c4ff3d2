/** The rows and events of a unit after clean-up, told from the disk alone. */
module RenameEvents {
  import opened ChangeNames
  import opened CleanTree
  import opened DiskAndDatabase
  import opened FileTree
  import opened MaskedNames
  import opened NameChanging
  import opened ObjectNames
  import opened Unicode

  /** The entry of this kind that the path describes is at another path now. */
  ghost predicate MovedTo(nfc: Nfc, changes: seq<Change>, isDir: bool, path: Path, now: Path) {
    exists c :: c in changes && c.isDir == isDir && c.oldPath != c.newPath
                && MapPath(nfc, c.oldPath) == MapPath(nfc, path) && c.newPath == now
  }

  /** The row has the path its entry is at now; without an entry, or with one that is where it was, it
      is unchanged. */
  ghost predicate RowIs(nfc: Nfc, changes: seq<Change>, isDir: bool, before: Row, after: Row) {
    && after.uuid == before.uuid
    && (forall now: Path :: MovedTo(nfc, changes, isDir, before.location, now) ==> after.location == now)
    && ((forall now: Path :: !MovedTo(nfc, changes, isDir, before.location, now)) ==> after.location == before.location)
  }

  /** The events of a row: one with the old path and the new if its entry is at another path now. */
  ghost predicate EventsAre(nfc: Nfc, changes: seq<Change>, isDir: bool, row: Row, events: seq<Event>) {
    forall was: Path, now: Path ::
      multiset(events)[Event(row.uuid, was, now)]
      == if was == MapPath(nfc, row.location) && MovedTo(nfc, changes, isDir, row.location, now) then 1 else 0
  }

  ghost predicate OwnUuids(rows: seq<Row>) {
    forall i, j :: 0 <= i < j < |rows| ==> rows[i].uuid != rows[j].uuid
  }

  lemma IndexIs(nfc: Nfc, changes: seq<Change>, isDir: bool, path: Path, now: Path)
    requires Orderly(changes) && KeysApart(nfc, isDir, changes)
    ensures var key, index := MapPath(nfc, path), ToIndex(RenamesOf(nfc, changes, isDir));
            key in index && index[key] == now <==> MovedTo(nfc, changes, isDir, path, now)
  {
    var key, index := MapPath(nfc, path), ToIndex(RenamesOf(nfc, changes, isDir));
    if key in index && index[key] == now {
      var i := ToIndexEntry(RenamesOf(nfc, changes, isDir), key);
      var k := RenameSource(nfc, changes, isDir, i);
      assert changes[k] in changes;
      CleanPathIsNormal(nfc, changes[k].newPath);
    }
    if c :| c in changes && c.isDir == isDir && c.oldPath != c.newPath && MapPath(nfc, c.oldPath) == key
            && c.newPath == now {
      var k :| 0 <= k < |changes| && changes[k] == c;
      IndexedChange(nfc, changes, isDir, k);
    }
  }

  /** An event of a batch is that of a row. */
  lemma {:induction false} EventHasRow(nfc: Nfc, index: map<Path, Path>, rows: seq<Row>, e: Event)
    requires e in EventsOf(nfc, index, rows)
    ensures exists i :: 0 <= i < |rows| && rows[i].uuid == e.fileUuid
  {
    if e in EventOf(nfc, index, rows[0]) {
      assert rows[0].uuid == e.fileUuid;
    } else {
      EventHasRow(nfc, index, rows[1..], e);
      var i :| 0 <= i < |rows[1..]| && rows[1..][i].uuid == e.fileUuid;
      assert rows[i + 1].uuid == e.fileUuid;
    }
  }

  lemma {:induction false} EventCount(nfc: Nfc, index: map<Path, Path>, rows: seq<Row>, i: nat, e: Event)
    requires OwnUuids(rows) && i < |rows| && rows[i].uuid == e.fileUuid
    ensures multiset(EventsOf(nfc, index, rows))[e]
            == if e.oldLocation == MapPath(nfc, rows[i].location) && e.oldLocation in index
                  && index[e.oldLocation] == e.newLocation then 1 else 0
  {
    var rest := rows[1..];
    assert multiset(EventsOf(nfc, index, rows))
           == multiset(EventOf(nfc, index, rows[0])) + multiset(EventsOf(nfc, index, rest));
    assert forall j :: 0 <= j < |rest| ==> rest[j] == rows[j + 1];
    if i == 0 {
      if e in EventsOf(nfc, index, rest) {
        EventHasRow(nfc, index, rest, e);
      }
    } else {
      EventCount(nfc, index, rest, i - 1, e);
    }
  }

  /** On every tree without twins and masked names, and if every name chosen fits, whatever the batch
      size: rows and events are those of what has moved on disk. */
  lemma OneEventForEachMove(nfc: Nfc, decode: Unidecode, max: nat, disk: seq<Entry>, isDir: bool,
                            batchSize: nat, rows: seq<Row>)
    requires ValidDir(disk) && !Twins(nfc, isDir, disk) && OwnUuids(rows)
    requires var after := Cleaned(ChangePathRule(decode, max), [], disk);
             AllFit(disk, after, max) && !Masked(nfc, isDir, disk, after)
    ensures var run := DiskRun(ChangePathRule(decode, max), max, disk);
            var after := Outcome(nfc, batchSize, rows, RenamesOf(nfc, run.changes, isDir), run.ok);
            && |after.rows| == |rows|
            && (forall i :: 0 <= i < |rows| ==> RowIs(nfc, run.changes, isDir, rows[i], after.rows[i]))
            && (forall i :: 0 <= i < |rows| ==> EventsAre(nfc, run.changes, isDir, rows[i], after.events))
            && (forall e :: e in after.events ==> exists i :: 0 <= i < |rows| && rows[i].uuid == e.fileUuid)
  {
    var rename := ChangePathRule(decode, max);
    var run := DiskRun(rename, max, disk);
    var renames := RenamesOf(nfc, run.changes, isDir);
    var after, index := Outcome(nfc, batchSize, rows, renames, run.ok), ToIndex(renames);
    ChangePathIsTidy(decode, max);
    DiskRunIs(rename, max, disk);
    DiskChangesOrderly(rename, disk);
    DiskKeysApart(nfc, rename, disk, isDir);
    DiskAndDatabaseAgree(nfc, decode, max, disk, isDir, batchSize, rows);
    hide Outcome;
    hide DiskRun;
    hide RenamesOf;
    hide Masked;
    hide Twins;
    hide AllFit;
    hide Cleaned;
    forall i | 0 <= i < |rows|
      ensures RowIs(nfc, run.changes, isDir, rows[i], after.rows[i])
      ensures EventsAre(nfc, run.changes, isDir, rows[i], after.events)
    {
      RowAt(nfc, index, rows, i);
      RowOfMove(nfc, run.changes, isDir, rows[i]);
      EventsOfMove(nfc, run.changes, isDir, rows, i, after.events);
    }
    forall e | e in after.events ensures exists i :: 0 <= i < |rows| && rows[i].uuid == e.fileUuid {
      assert multiset(after.events)[e] > 0;
      EventHasRow(nfc, index, rows, e);
    }
  }

  lemma RowOfMove(nfc: Nfc, changes: seq<Change>, isDir: bool, row: Row)
    requires Orderly(changes) && KeysApart(nfc, isDir, changes)
    ensures RowIs(nfc, changes, isDir, row, Updated(nfc, ToIndex(RenamesOf(nfc, changes, isDir)), row))
  {
    var key, index := MapPath(nfc, row.location), ToIndex(RenamesOf(nfc, changes, isDir));
    forall now ensures key in index && index[key] == now <==> MovedTo(nfc, changes, isDir, row.location, now) {
      IndexIs(nfc, changes, isDir, row.location, now);
    }
    if key in index {
      assert MovedTo(nfc, changes, isDir, row.location, index[key]);
    }
  }

  lemma EventsOfMove(nfc: Nfc, changes: seq<Change>, isDir: bool, rows: seq<Row>, i: nat, events: seq<Event>)
    requires Orderly(changes) && KeysApart(nfc, isDir, changes) && OwnUuids(rows) && i < |rows|
    requires multiset(events) == multiset(EventsOf(nfc, ToIndex(RenamesOf(nfc, changes, isDir)), rows))
    ensures EventsAre(nfc, changes, isDir, rows[i], events)
  {
    var index := ToIndex(RenamesOf(nfc, changes, isDir));
    forall was: Path, now: Path
      ensures multiset(events)[Event(rows[i].uuid, was, now)]
              == if was == MapPath(nfc, rows[i].location) && MovedTo(nfc, changes, isDir, rows[i].location, now)
                 then 1 else 0
    {
      EventCount(nfc, index, rows, i, Event(rows[i].uuid, was, now));
      IndexIs(nfc, changes, isDir, rows[i].location, now);
    }
  }
}
