/** Batched database updates after filename clean-up: `NameChanger`. Locations are paths below the
    objects directory, without the constant prefix `normalize_path_for_db` swaps for a placeholder. */
module ObjectNames {
  import opened FileTree
  import opened CleanTree
  import opened Unicode

  /** A File or Directory row. */
  datatype Row = Row(uuid: nat, location: Path)

  /** A "filename change" event. */
  datatype Event = Event(fileUuid: nat, oldLocation: Path, newLocation: Path)

  /** One key and value of an index: both normalised for the database. */
  datatype Rename = Rename(oldPath: Path, newPath: Path)

  /** The database rows of a unit, the events written so far and the pending index.
      Directory changes write no events. */
  datatype Table = Table(rows: seq<Row>, events: seq<Event>, index: map<Path, Path>)

  function Updated(nfc: string -> string, index: map<Path, Path>, row: Row): Row {
    var key := MapPath(nfc, row.location);
    if key in index then row.(location := index[key]) else row
  }

  function UpdatedRows(nfc: string -> string, index: map<Path, Path>, rows: seq<Row>): seq<Row> {
    if rows == [] then [] else [Updated(nfc, index, rows[0])] + UpdatedRows(nfc, index, rows[1..])
  }

  lemma {:induction false} UpdatedLength(nfc: Nfc, index: map<Path, Path>, rows: seq<Row>)
    ensures |UpdatedRows(nfc, index, rows)| == |rows|
  {
    if rows != [] {
      UpdatedLength(nfc, index, rows[1..]);
    }
  }

  function EventOf(nfc: Nfc, index: map<Path, Path>, row: Row): seq<Event> {
    var key := MapPath(nfc, row.location);
    if key in index then [Event(row.uuid, key, index[key])] else []
  }

  function EventsOf(nfc: Nfc, index: map<Path, Path>, rows: seq<Row>): seq<Event> {
    if rows == [] then [] else EventOf(nfc, index, rows[0]) + EventsOf(nfc, index, rows[1..])
  }

  /** Apply one batch and empty the index. */
  function Flushed(nfc: Nfc, t: Table): Table {
    Table(UpdatedRows(nfc, t.index, t.rows), t.events + EventsOf(nfc, t.index, t.rows), map[])
  }

  /** Index one rename; apply the batch once it is full. */
  function Added(nfc: Nfc, batchSize: nat, t: Table, r: Rename): Table {
    var u := t.(index := t.index[r.oldPath := r.newPath]);
    if |u.index| >= batchSize then Flushed(nfc, u) else u
  }

  /** Index all renames, in order. */
  function AddedAll(nfc: Nfc, batchSize: nat, t: Table, renames: seq<Rename>): Table
    decreases renames
  {
    if renames == [] then t else
      var n := |renames| - 1;
      Added(nfc, batchSize, AddedAll(nfc, batchSize, t, renames[..n]), renames[n])
  }

  /** The whole run: batches as they fill up, then the remainder. */
  function Batched(nfc: Nfc, batchSize: nat, rows: seq<Row>, renames: seq<Rename>): Table {
    Flushed(nfc, AddedAll(nfc, batchSize, Table(rows, [], map[]), renames))
  }

  /** The run after a walk that came to its end or, without the last batch, one that raised. */
  function Outcome(nfc: Nfc, batchSize: nat, rows: seq<Row>, renames: seq<Rename>, ok: bool): Table {
    if ok then Batched(nfc, batchSize, rows, renames)
    else AddedAll(nfc, batchSize, Table(rows, [], map[]), renames)
  }

  function ToIndex(renames: seq<Rename>): map<Path, Path> {
    if renames == [] then map[] else
      var r := renames[|renames| - 1];
      ToIndex(renames[..|renames| - 1])[r.oldPath := r.newPath]
  }

  /** The reference: every rename applied at once. */
  function Simultaneous(nfc: Nfc, rows: seq<Row>, renames: seq<Rename>): Table {
    Flushed(nfc, Table(rows, [], ToIndex(renames)))
  }

  /** Same rows and the same events, in whatever order these were written. */
  ghost predicate SameResult(t: Table, u: Table) {
    t.rows == u.rows && multiset(t.events) == multiset(u.events)
  }

  /** No rename starts at a path where an earlier one started or ended. */
  ghost predicate Independent(renames: seq<Rename>) {
    forall i, j :: 0 <= i < j < |renames| ==>
      renames[j].oldPath != renames[i].oldPath && renames[j].oldPath != renames[i].newPath
  }

  ghost predicate Normalized(nfc: Nfc, renames: seq<Rename>) {
    forall r :: r in renames ==> MapPath(nfc, r.oldPath) == r.oldPath && MapPath(nfc, r.newPath) == r.newPath
  }

  /** `first` sends nothing to a key of `second`, and they share no key. */
  ghost predicate Separate(nfc: Nfc, first: map<Path, Path>, second: map<Path, Path>) {
    forall k :: k in first ==> k !in second && MapPath(nfc, first[k]) !in second
  }

  lemma RowTwice(nfc: Nfc, first: map<Path, Path>, second: map<Path, Path>, row: Row)
    requires Separate(nfc, first, second)
    ensures Updated(nfc, second, Updated(nfc, first, row)) == Updated(nfc, first + second, row)
    ensures EventOf(nfc, first, row) + EventOf(nfc, second, Updated(nfc, first, row))
            == EventOf(nfc, first + second, row)
  {
    var key := MapPath(nfc, row.location);
    if key in first {
      assert key !in second && MapPath(nfc, first[key]) !in second;
    }
  }

  lemma {:induction false} RowsTwice(nfc: Nfc, first: map<Path, Path>, second: map<Path, Path>, rows: seq<Row>)
    requires Separate(nfc, first, second)
    ensures UpdatedRows(nfc, second, UpdatedRows(nfc, first, rows)) == UpdatedRows(nfc, first + second, rows)
  {
    if rows != [] {
      RowTwice(nfc, first, second, rows[0]);
      RowsTwice(nfc, first, second, rows[1..]);
    }
  }

  lemma MergeEvents(a: seq<Event>, b: seq<Event>, ab: seq<Event>, as_: seq<Event>, bs: seq<Event>, abs: seq<Event>)
    requires a + b == ab && multiset(as_) + multiset(bs) == multiset(abs)
    ensures multiset(a + as_) + multiset(b + bs) == multiset(ab + abs)
  {
  }

  lemma {:induction false} EventsTwice(nfc: Nfc, first: map<Path, Path>, second: map<Path, Path>, rows: seq<Row>)
    requires Separate(nfc, first, second)
    ensures multiset(EventsOf(nfc, first, rows)) + multiset(EventsOf(nfc, second, UpdatedRows(nfc, first, rows)))
            == multiset(EventsOf(nfc, first + second, rows))
  {
    if rows != [] {
      RowTwice(nfc, first, second, rows[0]);
      EventsTwice(nfc, first, second, rows[1..]);
      var row, once := Updated(nfc, first, rows[0]), UpdatedRows(nfc, first, rows[1..]);
      assert EventsOf(nfc, second, [row] + once) == EventOf(nfc, second, row) + EventsOf(nfc, second, once);
      MergeEvents(EventOf(nfc, first, rows[0]), EventOf(nfc, second, row), EventOf(nfc, first + second, rows[0]),
                  EventsOf(nfc, first, rows[1..]), EventsOf(nfc, second, once),
                  EventsOf(nfc, first + second, rows[1..]));
    }
  }

  lemma {:induction false} ToIndexEntry(renames: seq<Rename>, k: Path) returns (i: nat)
    requires k in ToIndex(renames)
    ensures i < |renames| && renames[i] == Rename(k, ToIndex(renames)[k])
  {
    var n := |renames| - 1;
    if renames[n].oldPath == k {
      i := n;
    } else {
      i := ToIndexEntry(renames[..n], k);
    }
  }

  /** The part of the run up to rename n, `flushed` of which has reached the rows. */
  ghost predicate Progress(nfc: Nfc, rows: seq<Row>, renames: seq<Rename>, flushed: map<Path, Path>, t: Table) {
    && t.rows == UpdatedRows(nfc, flushed, rows)
    && multiset(t.events) == multiset(EventsOf(nfc, flushed, rows))
    && flushed + t.index == ToIndex(renames)
    && Separate(nfc, flushed, t.index)
  }

  lemma FlushProgress(nfc: Nfc, rows: seq<Row>, renames: seq<Rename>, flushed: map<Path, Path>, t: Table)
    requires Progress(nfc, rows, renames, flushed, t)
    ensures Progress(nfc, rows, renames, flushed + t.index, Flushed(nfc, t))
  {
    RowsTwice(nfc, flushed, t.index, rows);
    EventsTwice(nfc, flushed, t.index, rows);
  }

  lemma NextIsSeparate(nfc: Nfc, renames: seq<Rename>, r: Rename, k: Path)
    requires Independent(renames + [r]) && Normalized(nfc, renames + [r]) && k in ToIndex(renames)
    ensures k != r.oldPath && MapPath(nfc, ToIndex(renames)[k]) != r.oldPath
  {
    var i := ToIndexEntry(renames, k);
    assert (renames + [r])[i] == renames[i] && (renames + [r])[|renames|] == r;
    assert renames[i] in renames + [r];
  }

  lemma AddProgress(nfc: Nfc, rows: seq<Row>, renames: seq<Rename>, r: Rename, flushed: map<Path, Path>, t: Table)
    requires Progress(nfc, rows, renames, flushed, t)
    requires Independent(renames + [r]) && Normalized(nfc, renames + [r])
    ensures Progress(nfc, rows, renames + [r], flushed, t.(index := t.index[r.oldPath := r.newPath]))
  {
    var index := t.index[r.oldPath := r.newPath];
    forall k | k in flushed ensures k !in index && MapPath(nfc, flushed[k]) !in index {
      assert k in flushed + t.index && (flushed + t.index)[k] == flushed[k];
      NextIsSeparate(nfc, renames, r, k);
    }
    assert (renames + [r])[..|renames|] == renames;
    assert flushed + index == (flushed + t.index)[r.oldPath := r.newPath];
  }

  lemma IndependentBefore(nfc: Nfc, before: seq<Rename>, r: Rename)
    requires Independent(before + [r]) && Normalized(nfc, before + [r])
    ensures Independent(before) && Normalized(nfc, before)
  {
    assert forall i :: 0 <= i < |before| ==> (before + [r])[i] == before[i];
    assert forall x :: x in before ==> x in before + [r];
  }

  lemma StepProgress(nfc: Nfc, batchSize: nat, rows: seq<Row>, before: seq<Rename>, r: Rename,
                     flushed: map<Path, Path>, t: Table) returns (after: map<Path, Path>)
    requires Progress(nfc, rows, before, flushed, t)
    requires Independent(before + [r]) && Normalized(nfc, before + [r])
    ensures Progress(nfc, rows, before + [r], after, Added(nfc, batchSize, t, r))
  {
    AddProgress(nfc, rows, before, r, flushed, t);
    hide Progress;
    hide Independent;
    hide Normalized;
    var u := t.(index := t.index[r.oldPath := r.newPath]);
    after := flushed;
    if |u.index| >= batchSize {
      FlushProgress(nfc, rows, before + [r], flushed, u);
      after := flushed + u.index;
    }
  }

  lemma {:induction false} RunProgress(nfc: Nfc, batchSize: nat, rows: seq<Row>, renames: seq<Rename>)
    returns (flushed: map<Path, Path>)
    requires Independent(renames) && Normalized(nfc, renames)
    ensures Progress(nfc, rows, renames, flushed, AddedAll(nfc, batchSize, Table(rows, [], map[]), renames))
  {
    if renames == [] {
      flushed := map[];
      EmptyIndex(nfc, rows);
    } else {
      var before, r := renames[..|renames| - 1], renames[|renames| - 1];
      assert renames == before + [r];
      IndependentBefore(nfc, before, r);
      hide Independent;
      hide Normalized;
      hide Progress;
      hide Added;
      flushed := RunProgress(nfc, batchSize, rows, before);
      flushed := StepProgress(nfc, batchSize, rows, before, r, flushed,
                              AddedAll(nfc, batchSize, Table(rows, [], map[]), before));
    }
  }

  lemma {:induction false} EmptyIndex(nfc: Nfc, rows: seq<Row>)
    ensures UpdatedRows(nfc, map[], rows) == rows && EventsOf(nfc, map[], rows) == []
  {
    if rows != [] {
      EmptyIndex(nfc, rows[1..]);
    }
  }

  /** Independent renames: any batch size gives the simultaneous update, with one event per
      renamed row. */
  lemma BatchedIsSimultaneous(nfc: Nfc, batchSize: nat, rows: seq<Row>, renames: seq<Rename>)
    requires Independent(renames) && Normalized(nfc, renames)
    ensures SameResult(Batched(nfc, batchSize, rows, renames), Simultaneous(nfc, rows, renames))
  {
    var t := AddedAll(nfc, batchSize, Table(rows, [], map[]), renames);
    var flushed := RunProgress(nfc, batchSize, rows, renames);
    FlushProgress(nfc, rows, renames, flushed, t);
    assert flushed + t.index == ToIndex(renames);
  }

  /** The outcome does not depend on the batch size, whatever rows the unit has. */
  ghost predicate BatchIndependent(nfc: Nfc, renames: seq<Rename>) {
    forall batchSize: nat, rows: seq<Row> :: batchSize >= 1 ==>
      SameResult(Batched(nfc, batchSize, rows, renames), Simultaneous(nfc, rows, renames))
  }

  /** One row, batches of one: the table after n renames. */
  function OneByOne(nfc: Nfc, location: Path, renames: seq<Rename>, n: nat): Table
    requires n <= |renames|
  {
    AddedAll(nfc, 1, Table([Row(0, location)], [], map[]), renames[..n])
  }

  lemma {:induction false} OneByOneStep(nfc: Nfc, location: Path, renames: seq<Rename>, n: nat)
    requires n < |renames|
    ensures var t, r := OneByOne(nfc, location, renames, n), renames[n];
            && t.index == map[] && |t.rows| == 1
            && OneByOne(nfc, location, renames, n + 1) == Flushed(nfc, t.(index := map[r.oldPath := r.newPath]))
    decreases n
  {
    if n > 0 {
      OneByOneStep(nfc, location, renames, n - 1);
      var t, r := OneByOne(nfc, location, renames, n - 1), renames[n - 1];
      UpdatedLength(nfc, map[r.oldPath := r.newPath], t.rows);
    }
    assert renames[..n + 1][..n] == renames[..n];
  }

  lemma FlushOne(nfc: Nfc, t: Table, row: Row)
    requires t.rows == [row]
    ensures Flushed(nfc, t) == Table([Updated(nfc, t.index, row)], t.events + EventOf(nfc, t.index, row), map[])
  {
    assert t.rows[1..] == [];
    assert UpdatedRows(nfc, t.index, t.rows) == [Updated(nfc, t.index, row)] + [];
    assert EventsOf(nfc, t.index, t.rows) == EventOf(nfc, t.index, row);
  }

  /** A row no rename starts at stays put. */
  lemma {:induction false} Idle(nfc: Nfc, location: Path, renames: seq<Rename>, row: Row, a: nat, b: nat)
    requires a <= b <= |renames| && OneByOne(nfc, location, renames, a).rows == [row]
    requires forall k :: a <= k < b ==> renames[k].oldPath != MapPath(nfc, row.location)
    ensures OneByOne(nfc, location, renames, b).rows == [row]
    ensures OneByOne(nfc, location, renames, b).events == OneByOne(nfc, location, renames, a).events
    decreases b - a
  {
    if a < b {
      Idle(nfc, location, renames, row, a, b - 1);
      OneByOneStep(nfc, location, renames, b - 1);
      var r := renames[b - 1];
      FlushOne(nfc, OneByOne(nfc, location, renames, b - 1).(index := map[r.oldPath := r.newPath]), row);
    }
  }

  lemma FlushAppends(nfc: Nfc, t: Table)
    ensures t.events <= Flushed(nfc, t).events
  {
  }

  lemma PrefixPrefix<T>(a: seq<T>, b: seq<T>, c: seq<T>)
    requires a <= b && b <= c
    ensures a <= c
  {
  }

  lemma {:induction false} EventsGrow(nfc: Nfc, location: Path, renames: seq<Rename>, a: nat, b: nat)
    requires a <= b <= |renames|
    ensures OneByOne(nfc, location, renames, a).events <= OneByOne(nfc, location, renames, b).events
    decreases b - a
  {
    hide OneByOne;
    if a < b {
      EventsGrow(nfc, location, renames, a, b - 1);
      OneByOneStep(nfc, location, renames, b - 1);
      var t, r := OneByOne(nfc, location, renames, b - 1), renames[b - 1];
      FlushAppends(nfc, t.(index := map[r.oldPath := r.newPath]));
      hide Flushed;
      PrefixPrefix(OneByOne(nfc, location, renames, a).events, t.events, OneByOne(nfc, location, renames, b).events);
    }
  }

  /** A rename that starts where the row is moves it and writes an event. */
  lemma Fires(nfc: Nfc, location: Path, renames: seq<Rename>, row: Row, n: nat)
    requires n < |renames| && OneByOne(nfc, location, renames, n).rows == [row]
    requires MapPath(nfc, row.location) == renames[n].oldPath
    ensures var t, r := OneByOne(nfc, location, renames, n + 1), renames[n];
            && t.rows == [row.(location := r.newPath)]
            && t.events == OneByOne(nfc, location, renames, n).events + [Event(row.uuid, r.oldPath, r.newPath)]
  {
    OneByOneStep(nfc, location, renames, n);
    var r := renames[n];
    FlushOne(nfc, OneByOne(nfc, location, renames, n).(index := map[r.oldPath := r.newPath]), row);
  }

  /** The row at the start of rename i, the first of its name, gets that rename's event. */
  lemma FirstEvent(nfc: Nfc, renames: seq<Rename>, i: nat)
    requires Normalized(nfc, renames) && i < |renames|
    requires forall k :: 0 <= k < i ==> renames[k].oldPath != renames[i].oldPath
    ensures var t, r := OneByOne(nfc, renames[i].oldPath, renames, i + 1), renames[i];
            t.rows == [Row(0, r.newPath)] && t.events == [Event(0, r.oldPath, r.newPath)]
  {
    var r := renames[i];
    assert r in renames;
    assert OneByOne(nfc, r.oldPath, renames, 0) == Table([Row(0, r.oldPath)], [], map[]);
    Idle(nfc, r.oldPath, renames, Row(0, r.oldPath), 0, i);
    Fires(nfc, r.oldPath, renames, Row(0, r.oldPath), i);
  }

  lemma BatchesOfOne(nfc: Nfc, location: Path, renames: seq<Rename>)
    requires renames != []
    ensures Batched(nfc, 1, [Row(0, location)], renames) == OneByOne(nfc, location, renames, |renames|)
  {
    assert renames[..|renames|] == renames;
    OneByOneStep(nfc, location, renames, |renames| - 1);
    var t := OneByOne(nfc, location, renames, |renames|);
    EmptyIndex(nfc, t.rows);
  }

  /** Two renames of the same path: the first one wins in batches of one, not in one batch. */
  lemma SamePathTwice(nfc: Nfc, renames: seq<Rename>, i: nat, j: nat)
    requires Normalized(nfc, renames) && i < j < |renames| && renames[i].oldPath == renames[j].oldPath
    requires forall k :: 0 <= k < i ==> renames[k].oldPath != renames[i].oldPath
    requires forall k, l :: 0 <= k < l < |renames| ==> renames[k].newPath != renames[l].newPath
    ensures !BatchIndependent(nfc, renames)
  {
    var r, rows := renames[i], [Row(0, renames[i].oldPath)];
    assert r in renames;
    FirstEvent(nfc, renames, i);
    EventsGrow(nfc, r.oldPath, renames, i + 1, |renames|);
    BatchesOfOne(nfc, r.oldPath, renames);
    LastWins(renames, i, j);
    FlushOne(nfc, Table(rows, [], ToIndex(renames)), rows[0]);
    hide Batched;
    hide OneByOne;
    hide ToIndex;
    hide Normalized;
    var one, all := Batched(nfc, 1, rows, renames).events, Simultaneous(nfc, rows, renames).events;
    DifferentEvents(one, all, Event(0, r.oldPath, r.newPath));
    assert !SameResult(Batched(nfc, 1, rows, renames), Simultaneous(nfc, rows, renames));
  }

  lemma DifferentEvents(a: seq<Event>, b: seq<Event>, e: Event)
    requires [e] <= a && |b| == 1 && b[0] != e
    ensures multiset(a) != multiset(b)
  {
    assert e == a[0] && e in multiset(a) && e !in multiset(b);
  }

  lemma LastWins(renames: seq<Rename>, i: nat, j: nat)
    requires i < j < |renames| && renames[i].oldPath == renames[j].oldPath
    requires forall k :: 0 <= k < i ==> renames[k].oldPath != renames[i].oldPath
    requires forall k, l :: 0 <= k < l < |renames| ==> renames[k].newPath != renames[l].newPath
    ensures renames[i].oldPath in ToIndex(renames)
    ensures ToIndex(renames)[renames[i].oldPath] != renames[i].newPath
    decreases |renames|
  {
    var n := |renames| - 1;
    if renames[n].oldPath != renames[i].oldPath {
      var init := renames[..n];
      assert init[i] == renames[i] && init[j] == renames[j];
      LastWins(init, i, j);
    }
  }

  lemma OneMoreEvent(nfc: Nfc, location: Path, renames: seq<Rename>, row: Row, n: nat, j: nat)
    requires n <= j < |renames| && OneByOne(nfc, location, renames, n).rows == [row]
    requires MapPath(nfc, row.location) == renames[j].oldPath
    requires forall k :: n <= k < j ==> renames[k].oldPath != renames[j].oldPath
    ensures |OneByOne(nfc, location, renames, |renames|).events| > |OneByOne(nfc, location, renames, n).events|
  {
    hide OneByOne;
    Idle(nfc, location, renames, row, n, j);
    Fires(nfc, location, renames, row, j);
    EventsGrow(nfc, location, renames, j + 1, |renames|);
  }

  lemma TwoEvents(nfc: Nfc, renames: seq<Rename>, i: nat, j: nat)
    requires Normalized(nfc, renames) && i < j < |renames| && renames[j].oldPath == renames[i].newPath
    requires forall k, l :: 0 <= k < l < |renames| ==> renames[k].oldPath != renames[l].oldPath
    ensures |OneByOne(nfc, renames[i].oldPath, renames, |renames|).events| >= 2
  {
    FirstEvent(nfc, renames, i);
    assert renames[i] in renames;
    OneMoreEvent(nfc, renames[i].oldPath, renames, Row(0, renames[i].newPath), i + 1, j);
  }

  /** A rename starting where an earlier one ended: batches of one move the row twice. */
  lemma Chain(nfc: Nfc, renames: seq<Rename>, i: nat, j: nat)
    requires Normalized(nfc, renames) && i < j < |renames| && renames[j].oldPath == renames[i].newPath
    requires forall k, l :: 0 <= k < l < |renames| ==> renames[k].oldPath != renames[l].oldPath
    ensures !BatchIndependent(nfc, renames)
  {
    var location := renames[i].oldPath;
    var rows := [Row(0, location)];
    TwoEvents(nfc, renames, i, j);
    BatchesOfOne(nfc, location, renames);
    FlushOne(nfc, Table(rows, [], ToIndex(renames)), rows[0]);
    assert |Simultaneous(nfc, rows, renames).events| <= 1;
    assert |multiset(Batched(nfc, 1, rows, renames).events)| != |multiset(Simultaneous(nfc, rows, renames).events)|;
    assert !SameResult(Batched(nfc, 1, rows, renames), Simultaneous(nfc, rows, renames));
  }

  /** With distinct new paths, batching is harmless if and only if no rename starts where an
      earlier one started or ended. */
  lemma BatchIndependentIff(nfc: Nfc, renames: seq<Rename>)
    requires Normalized(nfc, renames)
    requires forall k, l :: 0 <= k < l < |renames| ==> renames[k].newPath != renames[l].newPath
    ensures BatchIndependent(nfc, renames) <==> Independent(renames)
  {
    if Independent(renames) {
      forall batchSize: nat, rows: seq<Row> | batchSize >= 1
        ensures SameResult(Batched(nfc, batchSize, rows, renames), Simultaneous(nfc, rows, renames))
      {
        BatchedIsSimultaneous(nfc, batchSize, rows, renames);
      }
    } else if i, j :| 0 <= i < j < |renames| && renames[j].oldPath == renames[i].oldPath {
      var first := FirstOccurrence(renames, i);
      SamePathTwice(nfc, renames, first, j);
    } else {
      var i, j :| 0 <= i < j < |renames| && renames[j].oldPath == renames[i].newPath;
      Chain(nfc, renames, i, j);
    }
  }

  lemma {:induction false} FirstOccurrence(renames: seq<Rename>, i: nat) returns (first: nat)
    requires i < |renames|
    ensures first <= i && renames[first].oldPath == renames[i].oldPath
    ensures forall k :: 0 <= k < first ==> renames[k].oldPath != renames[i].oldPath
  {
    first := 0;
    while renames[first].oldPath != renames[i].oldPath
      invariant first <= i
      invariant forall k :: 0 <= k < first ==> renames[k].oldPath != renames[i].oldPath
      decreases i - first
    {
      first := first + 1;
    }
  }

  lemma MoveStep(nfc: Nfc, location: Path, renames: seq<Rename>, m: nat, b: nat) returns (l: nat)
    requires Normalized(nfc, renames) && m < b < |renames|
    requires OneByOne(nfc, location, renames, b).rows == [Row(0, renames[m].newPath)]
    ensures m <= l <= b && OneByOne(nfc, location, renames, b + 1).rows == [Row(0, renames[l].newPath)]
  {
    OneByOneStep(nfc, location, renames, b);
    hide OneByOne;
    var r := renames[b];
    assert renames[m] in renames;
    FlushOne(nfc, OneByOne(nfc, location, renames, b).(index := map[r.oldPath := r.newPath]),
             Row(0, renames[m].newPath));
    l := if renames[m].newPath == r.oldPath then b else m;
  }

  /** Once a row was moved on from where rename i took it, it never comes back there. */
  lemma {:induction false} MovesOn(nfc: Nfc, location: Path, renames: seq<Rename>, j: nat, b: nat) returns (m: nat)
    requires Normalized(nfc, renames) && j < b <= |renames|
    requires OneByOne(nfc, location, renames, j + 1).rows == [Row(0, renames[j].newPath)]
    ensures j <= m < b && OneByOne(nfc, location, renames, b).rows == [Row(0, renames[m].newPath)]
    decreases b
  {
    hide OneByOne;
    hide Normalized;
    if b == j + 1 {
      m := j;
    } else {
      m := MovesOn(nfc, location, renames, j, b - 1);
      m := MoveStep(nfc, location, renames, m, b - 1);
    }
  }

  /** A rename starting where an earlier one ended: batches of one leave the row of the earlier
      one at the new path of a later one. */
  lemma WrongPath(nfc: Nfc, renames: seq<Rename>, i: nat, j: nat) returns (m: nat)
    requires Normalized(nfc, renames) && i < j < |renames| && renames[j].oldPath == renames[i].newPath
    requires forall k, l :: 0 <= k < l < |renames| ==> renames[k].oldPath != renames[l].oldPath
    ensures i < m < |renames|
    ensures Batched(nfc, 1, [Row(0, renames[i].oldPath)], renames).rows == [Row(0, renames[m].newPath)]
  {
    var location := renames[i].oldPath;
    FirstEvent(nfc, renames, i);
    assert renames[i] in renames;
    Idle(nfc, location, renames, Row(0, renames[i].newPath), i + 1, j);
    Fires(nfc, location, renames, Row(0, renames[i].newPath), j);
    m := MovesOn(nfc, location, renames, j, |renames|);
    BatchesOfOne(nfc, location, renames);
  }

  /** Batches that never fill up. */
  lemma {:induction false} NothingApplied(nfc: Nfc, batchSize: nat, rows: seq<Row>, renames: seq<Rename>)
    requires |renames| < batchSize
    ensures AddedAll(nfc, batchSize, Table(rows, [], map[]), renames) == Table(rows, [], ToIndex(renames))
    ensures |ToIndex(renames)| <= |renames|
  {
    if renames != [] {
      var n := |renames| - 1;
      NothingApplied(nfc, batchSize, rows, renames[..n]);
      OneMoreKey(ToIndex(renames[..n]), renames[n]);
    }
  }

  lemma OneMoreKey(index: map<Path, Path>, r: Rename)
    ensures |index[r.oldPath := r.newPath]| <= |index| + 1
  {
    assert index[r.oldPath := r.newPath].Keys == index.Keys + {r.oldPath};
  }
}
