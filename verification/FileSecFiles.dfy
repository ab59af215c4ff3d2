/** Each file on disk against the UUIDs the walk of `createFileSec` emits. */
module FileSecFiles {
  import opened FileSec
  import opened FileSecNumbers
  import opened Numbering
  import opened Sequences

  function Names(listing: Listing): set<string> {
    match listing
    case End => {}
    case OnFile(name, rest) => {name} + Names(rest)
    case OnDir(name, _, rest) => {name} + Names(rest)
  }

  /** What a file system guarantees: the names in a directory are distinct. */
  predicate Valid(listing: Listing) {
    match listing
    case End => true
    case OnFile(name, rest) => name !in Names(rest) && Valid(rest)
    case OnDir(name, sub, rest) => name !in Names(rest) && Valid(sub) && Valid(rest)
  }

  /** The files on disk. */
  function FilePaths(path: Path, listing: Listing): set<Path>
    decreases listing
  {
    match listing
    case End => {}
    case OnFile(name, rest) => {path + [name]} + FilePaths(path, rest)
    case OnDir(name, sub, rest) => FilePaths(path + [name], sub) + FilePaths(path, rest)
  }

  /** The primary key of the File table. */
  ghost predicate DistinctUuids(rows: seq<FileRow>) {
    forall i, j :: 0 <= i < j < |rows| ==> rows[i].uuid != rows[j].uuid
  }

  ghost predicate Under(path: Path, names: set<string>, p: Path) {
    |path| < |p| && p[..|path|] == path && p[|path|] in names
  }

  lemma {:induction false} PathsUnder(path: Path, listing: Listing, p: Path)
    requires p in FilePaths(path, listing)
    ensures Under(path, Names(listing), p)
    decreases listing
  {
    match listing
    case OnFile(name, rest) =>
      if p in FilePaths(path, rest) {
        PathsUnder(path, rest, p);
      }
    case OnDir(name, sub, rest) =>
      if p in FilePaths(path, rest) {
        PathsUnder(path, rest, p);
      } else {
        PathsUnder(path + [name], sub, p);
        UnderChild(path, name, Names(sub), p, Names(rest));
      }
  }

  lemma UnderChild(path: Path, name: string, names: set<string>, p: Path, others: set<string>)
    requires Under(path + [name], names, p)
    ensures Under(path, {name} + others, p) && p[|path|] == name
  {
    var q := p[..|path + [name]|];
    assert q[..|path|] == p[..|path|] && q[|path|] == p[|path|];
  }

  /** Two files never find the same row, hence never the same UUID. */
  lemma UuidsDiffer(db: Db, p: Path, q: Path, u: string)
    requires DistinctUuids(db.rows) && u in UuidAt(db, p) && u in UuidAt(db, q)
    ensures p == q
  {
    var r, s := Find(db.rows, p).row, Find(db.rows, q).row;
    var i :| 0 <= i < |db.rows| && db.rows[i] == r;
    var j :| 0 <= j < |db.rows| && db.rows[j] == s;
    assert r.uuid == u == s.uuid;
    if i < j || j < i {
      assert false;
    }
  }

  lemma {:induction false} UuidHasPath(db: Db, path: Path, listing: Listing, u: string) returns (p: Path)
    requires u in RowUuids(db, path, listing)
    ensures p in FilePaths(path, listing) && u in UuidAt(db, p)
    decreases listing
  {
    match listing
    case OnFile(name, rest) =>
      if u in UuidAt(db, path + [name]) {
        p := path + [name];
      } else {
        p := UuidHasPath(db, path, rest, u);
      }
    case OnDir(name, sub, rest) =>
      if u in RowUuids(db, path + [name], sub) {
        p := UuidHasPath(db, path + [name], sub, u);
      } else {
        p := UuidHasPath(db, path, rest, u);
      }
  }

  lemma {:induction false} PathHasUuid(db: Db, path: Path, listing: Listing, p: Path)
    requires p in FilePaths(path, listing)
    ensures forall u :: u in UuidAt(db, p) ==> u in RowUuids(db, path, listing)
    decreases listing
  {
    match listing
    case OnFile(name, rest) =>
      if p in FilePaths(path, rest) {
        PathHasUuid(db, path, rest, p);
      }
    case OnDir(name, sub, rest) =>
      if p in FilePaths(path, rest) {
        PathHasUuid(db, path, rest, p);
      } else {
        PathHasUuid(db, path + [name], sub, p);
      }
  }


  /** No UUID is emitted twice. */
  lemma {:induction false} RowUuidsDistinct(db: Db, path: Path, listing: Listing)
    requires Valid(listing) && DistinctUuids(db.rows)
    ensures Distinct(RowUuids(db, path, listing))
    decreases listing
  {
    match listing
    case End =>
    case OnFile(name, rest) =>
      RowUuidsDistinct(db, path, rest);
      forall u | u in UuidAt(db, path + [name]) ensures u !in RowUuids(db, path, rest) {
        if u in RowUuids(db, path, rest) {
          var p := UuidHasPath(db, path, rest, u);
          UuidsDiffer(db, p, path + [name], u);
          PathsUnder(path, rest, p);
        }
      }
      DistinctConcat(UuidAt(db, path + [name]), RowUuids(db, path, rest));
    case OnDir(name, sub, rest) =>
      RowUuidsDistinct(db, path + [name], sub);
      RowUuidsDistinct(db, path, rest);
      forall u | u in RowUuids(db, path + [name], sub) ensures u !in RowUuids(db, path, rest) {
        if u in RowUuids(db, path, rest) {
          var p := UuidHasPath(db, path, rest, u);
          var q := UuidHasPath(db, path + [name], sub, u);
          UuidsDiffer(db, p, q, u);
          PathsUnder(path, rest, p);
          PathsUnder(path + [name], sub, q);
          UnderChild(path, name, Names(sub), q, Names(rest));
        }
      }
      DistinctConcat(RowUuids(db, path + [name], sub), RowUuids(db, path, rest));
  }

  /** The run raised nothing and counted no error: every file has exactly one live row. */
  lemma {:induction false} SoundFilesHaveRows(db: Db, amdSecs: bool, path: Path, listing: Listing, s: Walked, p: Path)
    requires AddItems(db, amdSecs, path, listing, s).Success? && Problems(db, path, listing) == 0
    requires p in FilePaths(path, listing)
    ensures Find(db.rows, p).One?
    decreases listing
  {
    match listing
    case OnFile(name, rest) =>
      var t := AddFile(db, amdSecs, path + [name], s).value;
      if p in FilePaths(path, rest) {
        SoundFilesHaveRows(db, amdSecs, path, rest, t, p);
      } else {
        assert ProblemsAt(db, p) == 0;
      }
    case OnDir(name, sub, rest) =>
      var t := AddDir(db, amdSecs, path + [name], sub, s).value;
      if p in FilePaths(path, rest) {
        SoundFilesHaveRows(db, amdSecs, path, rest, t, p);
      } else {
        var mid := Walked(AddDmdSecs(s.mets, DirDmdSecs(db, path + [name])), []);
        SoundFilesHaveRows(db, amdSecs, path + [name], sub, mid, p);
      }
  }

  /* ----- fileNameToFileID ----- */

  function FileIdsOf(db: Db, path: Path, listing: Listing): map<Path, string>
    decreases listing
  {
    match listing
    case End => map[]
    case OnFile(name, rest) => FileIdAt(db, path + [name]) + FileIdsOf(db, path, rest)
    case OnDir(name, sub, rest) => FileIdsOf(db, path + [name], sub) + FileIdsOf(db, path, rest)
  }

  function FileIdAt(db: Db, p: Path): map<Path, string> {
    var found := Find(db.rows, p);
    if found.One? then map[p := found.row.uuid] else map[]
  }

  lemma MapsAssociative<K, V>(a: map<K, V>, b: map<K, V>, c: map<K, V>)
    ensures a + b + c == a + (b + c)
  {
  }

  lemma NoMore<K, V>(a: map<K, V>)
    ensures a + map[] == a
  {
  }

  lemma RowFileId(db: Db, amdSecs: bool, path: Path, row: FileRow, g: Grouping, s: Mets)
    ensures AddRow(db, amdSecs, path, row, g, s).fileIds == s.fileIds[path := row.uuid]
  {
    hide DescribedBy;
    hide HasGroup;
    hide Numbers;
  }

  lemma FileIdKnown(db: Db, amdSecs: bool, path: Path, s: Walked)
    requires AddFile(db, amdSecs, path, s).Success?
    ensures AddFile(db, amdSecs, path, s).value.mets.fileIds == s.mets.fileIds + FileIdAt(db, path)
  {
    if Find(db.rows, path).One? {
      var row := Find(db.rows, path).row;
      RowFileId(db, amdSecs, path, row, GroupOf(db, row, path).value, s.mets);
    }
    hide GroupOf;
    hide AddRow;
  }

  /** What custom structMaps look their FILEIDs up in: every file by its path. */
  lemma {:induction false} FileIdsKnown(db: Db, amdSecs: bool, path: Path, listing: Listing, s: Walked)
    requires AddItems(db, amdSecs, path, listing, s).Success?
    ensures AddItems(db, amdSecs, path, listing, s).value.mets.fileIds == s.mets.fileIds + FileIdsOf(db, path, listing)
    decreases listing
  {
    match listing
    case End =>
      NoMore(s.mets.fileIds);
    case OnFile(name, rest) =>
      FileIdKnown(db, amdSecs, path + [name], s);
      FileIdsKnown(db, amdSecs, path, rest, AddFile(db, amdSecs, path + [name], s).value);
      MapsAssociative(s.mets.fileIds, FileIdAt(db, path + [name]), FileIdsOf(db, path, rest));
    case OnDir(name, sub, rest) =>
      var mid := Walked(AddDmdSecs(s.mets, DirDmdSecs(db, path + [name])), []);
      FileIdsKnown(db, amdSecs, path + [name], sub, mid);
      FileIdsKnown(db, amdSecs, path, rest, AddDir(db, amdSecs, path + [name], sub, s).value);
      MapsAssociative(s.mets.fileIds, FileIdsOf(db, path + [name], sub), FileIdsOf(db, path, rest));
  }

  lemma {:induction false} FileIdsAreUuids(db: Db, path: Path, listing: Listing, p: Path)
    requires p in FileIdsOf(db, path, listing)
    ensures FileIdsOf(db, path, listing)[p] in RowUuids(db, path, listing)
    ensures p in FilePaths(path, listing) && UuidAt(db, p) == [FileIdsOf(db, path, listing)[p]]
    decreases listing
  {
    match listing
    case OnFile(name, rest) =>
      if p in FileIdsOf(db, path, rest) {
        FileIdsAreUuids(db, path, rest, p);
      }
    case OnDir(name, sub, rest) =>
      if p in FileIdsOf(db, path, rest) {
        FileIdsAreUuids(db, path, rest, p);
      } else {
        FileIdsAreUuids(db, path + [name], sub, p);
      }
  }
}
