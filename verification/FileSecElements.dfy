/** What the walk of `createFileSec` writes for each file and directory on disk, told from the rows of
    the database. */
module FileSecElements {
  import opened FileSec
  import opened FileSecFiles
  import opened FileSecNumbers
  import opened MetsDiv
  import opened Results
  import opened Sequences

  /* ----- rows ----- */

  /** Row i is a live one for the path. */
  predicate IsLive(rows: seq<FileRow>, path: Path, i: int) {
    0 <= i < |rows| && rows[i].live && rows[i].location == path
  }

  /** The row is live and the only such one for the path. */
  ghost predicate SoleRow(rows: seq<FileRow>, path: Path, row: FileRow) {
    exists i :: IsLive(rows, path, i) && rows[i] == row && forall j :: IsLive(rows, path, j) ==> j == i
  }

  ghost predicate NoRow(rows: seq<FileRow>, path: Path) {
    forall i :: !IsLive(rows, path, i)
  }

  lemma {:induction false} MissingIff(rows: seq<FileRow>, path: Path)
    ensures Find(rows, path).Missing? <==> NoRow(rows, path)
  {
    if rows != [] {
      var n := |rows| - 1;
      MissingIff(rows[..n], path);
      assert forall i :: i < n ==> (IsLive(rows, path, i) <==> IsLive(rows[..n], path, i));
      assert Matches(rows[n], path) <==> IsLive(rows, path, n);
      if NoRow(rows, path) {
        assert forall i :: IsLive(rows[..n], path, i) ==> i < n;
      }
    }
  }

  /** The query returns a row exactly if it is the only one. */
  lemma {:induction false} OneIff(rows: seq<FileRow>, path: Path, row: FileRow)
    ensures Find(rows, path) == One(row) <==> SoleRow(rows, path, row)
  {
    if rows != [] {
      var n := |rows| - 1;
      var before := rows[..n];
      OneIff(before, path, row);
      MissingIff(before, path);
      assert forall i :: i < n ==> (IsLive(rows, path, i) <==> IsLive(before, path, i));
      assert forall i :: IsLive(before, path, i) ==> i < n;
      assert Matches(rows[n], path) <==> IsLive(rows, path, n);
      if IsLive(rows, path, n) {
        if SoleRow(rows, path, row) {
          assert rows[n] == row && NoRow(before, path);
        }
        if NoRow(before, path) && rows[n] == row {
          assert SoleRow(rows, path, row);
        }
      } else {
        if i :| IsLive(rows, path, i) && rows[i] == row && forall j :: IsLive(rows, path, j) ==> j == i {
          assert IsLive(before, path, i) && before[i] == row;
        }
        if i :| IsLive(before, path, i) && before[i] == row && forall j :: IsLive(before, path, j) ==> j == i {
          assert IsLive(rows, path, i) && rows[i] == row;
        }
      }
    }
  }

  /* ----- a file's mets:file ----- */

  /** The UUID a file's group is named after: that of its file group if it has one; its own; that of the
      file it was derived from; or that of the file it serves. */
  ghost predicate Heads(db: Db, path: Path, row: FileRow, uuid: string) {
    if row.groupUuid != "" then uuid == row.groupUuid
    else if row.use in OWN then uuid == row.uuid
    else if row.use in DERIVED then row.uuid in db.derivations && uuid == db.derivations[row.uuid]
    else row.use == "service" && path in db.service && uuid == db.service[path]
  }

  const OWN := {"original", "maildirFile", "submissionDocumentation", "metadata", "TRIM container metadata"}
  const DERIVED := {"preservation", "text/ocr", "derivative"}

  /** The fileGrp of a file. */
  function GroupUse(row: FileRow): string {
    if row.groupUuid != "" then (if row.use == "TRIM file metadata" then "metadata" else row.use)
    else if row.use == "maildirFile" then "original"
    else if row.use == "TRIM container metadata" then "metadata"
    else row.use
  }

  lemma GroupIs(db: Db, row: FileRow, path: Path)
    requires GroupOf(db, row, path).Success?
    ensures var g := GroupOf(db, row, path).value;
            && g.use == GroupUse(row)
            && (if g.group == "" then forall uuid :: !Heads(db, path, row, uuid)
                else exists uuid :: Heads(db, path, row, uuid) && g.group == "Group-" + uuid)
  {
  }

  /** A file's amdSec: one techMD, the rights of an original, and its events and agents. */
  ghost predicate AmdSecOf(db: Db, f: FileElem, a: AmdSec) {
    && f.admid == Some(a.id) && |a.tech| == 1 && a.source == []
    && |a.rights| == (if f.use == "original" then db.rights(f.uuid) else 0) && |a.digiprov| == db.digiprov(f.uuid)
  }

  /** The mets:file of the file at `f.href`. */
  ghost predicate Describes(db: Db, amdSecs: bool, f: FileElem, secs: seq<AmdSec>) {
    && (exists row :: SoleRow(db.rows, f.href, row) && IsFileOf(db, f, row))
    && if amdSecs then exists a :: a in secs && AmdSecOf(db, f, a) else f.admid == None
  }

  ghost predicate IsFileOf(db: Db, f: FileElem, row: FileRow) {
    && f.uuid == row.uuid && f.use == GroupUse(row)
    && if f.group == "" then forall uuid :: !Heads(db, f.href, row, uuid)
       else exists uuid :: Heads(db, f.href, row, uuid) && f.group == "Group-" + uuid
  }

  /** Between s and t, only the mets:files of these files were made. */
  ghost predicate OnlyThese(db: Db, amdSecs: bool, paths: set<Path>, s: Mets, t: Mets) {
    && s.amdSecs <= t.amdSecs
    && forall f :: f in t.files ==> f in s.files || (f.href in paths && Describes(db, amdSecs, f, t.amdSecs))
  }

  lemma DescribesMore(db: Db, amdSecs: bool, f: FileElem, secs: seq<AmdSec>, more: seq<AmdSec>)
    requires Describes(db, amdSecs, f, secs) && secs <= more
    ensures Describes(db, amdSecs, f, more)
  {
    hide AmdSecOf;
    if amdSecs {
      var a :| a in secs && AmdSecOf(db, f, a);
      assert a in more;
    }
  }

  lemma FilesTwice(db: Db, amdSecs: bool, a: set<Path>, b: set<Path>, s: Mets, t: Mets, u: Mets)
    requires OnlyThese(db, amdSecs, a, s, t) && OnlyThese(db, amdSecs, b, t, u)
    ensures OnlyThese(db, amdSecs, a + b, s, u)
  {
    hide Describes;
    forall f | f in u.files && f !in s.files && f in t.files ensures Describes(db, amdSecs, f, u.amdSecs) {
      DescribesMore(db, amdSecs, f, t.amdSecs, u.amdSecs);
    }
  }

  lemma NewElement(db: Db, amdSecs: bool, path: Path, row: FileRow, g: Grouping, s: Mets)
    requires SoleRow(db.rows, path, row) && GroupOf(db, row, path) == Success(g) && HasGroup(g.use)
    ensures var t := Filed(db, amdSecs, path, row, g, s);
            && t.files == s.files + [t.files[|s.files|]] && s.amdSecs <= t.amdSecs
            && t.files[|s.files|].href == path && Describes(db, amdSecs, t.files[|s.files|], t.amdSecs)
  {
    hide SoleRow;
    GroupIs(db, row, path);
    hide GroupOf;
    hide GroupUse;
    hide Heads;
    var t := Filed(db, amdSecs, path, row, g, s);
    var f := t.files[|s.files|];
    assert IsFileOf(db, f, row);
    if amdSecs {
      var a := t.amdSecs[|s.amdSecs|];
      assert a in t.amdSecs && AmdSecOf(db, f, a);
    }
  }

  lemma FileIsFiled(db: Db, amdSecs: bool, path: Path, s: Walked)
    requires AddFile(db, amdSecs, path, s).Success?
    ensures OnlyThese(db, amdSecs, {path}, s.mets, AddFile(db, amdSecs, path, s).value.mets)
  {
    hide Describes;
    var found := Find(db.rows, path);
    if found.One? {
      var row := found.row;
      var g := GroupOf(db, row, path).value;
      OneIff(db.rows, path, row);
      var mid := Checked(g, Described(db, path, row, g, s.mets));
      assert mid.files == s.mets.files && mid.amdSecs == s.mets.amdSecs;
      if HasGroup(g.use) {
        NewElement(db, amdSecs, path, row, g, mid);
      }
    }
  }

  /** The walk makes mets:files of the files it meets only. */
  lemma {:induction false} ItemsFiled(db: Db, amdSecs: bool, path: Path, listing: Listing, s: Walked)
    requires AddItems(db, amdSecs, path, listing, s).Success?
    ensures OnlyThese(db, amdSecs, FilePaths(path, listing), s.mets, AddItems(db, amdSecs, path, listing, s).value.mets)
    decreases listing, 0
  {
    match listing
    case End =>
    case OnFile(name, rest) =>
      var t := AddFile(db, amdSecs, path + [name], s).value;
      FileIsFiled(db, amdSecs, path + [name], s);
      ItemsFiled(db, amdSecs, path, rest, t);
      FilesTwice(db, amdSecs, {path + [name]}, FilePaths(path, rest), s.mets, t.mets,
                 AddItems(db, amdSecs, path, rest, t).value.mets);
    case OnDir(name, sub, rest) =>
      var t := AddDir(db, amdSecs, path + [name], sub, s).value;
      DirFiled(db, amdSecs, path + [name], sub, s);
      ItemsFiled(db, amdSecs, path, rest, t);
      FilesTwice(db, amdSecs, FilePaths(path + [name], sub), FilePaths(path, rest), s.mets, t.mets,
                 AddItems(db, amdSecs, path, rest, t).value.mets);
  }

  lemma {:induction false} DirFiled(db: Db, amdSecs: bool, path: Path, listing: Listing, s: Walked)
    requires AddDir(db, amdSecs, path, listing, s).Success?
    ensures OnlyThese(db, amdSecs, FilePaths(path, listing), s.mets, AddDir(db, amdSecs, path, listing, s).value.mets)
    decreases listing, 1
  {
    ItemsFiled(db, amdSecs, path, listing, Walked(AddDmdSecs(s.mets, DirDmdSecs(db, path)), []));
  }

  /* ----- the physical structMap ----- */

  /** `key.startswith("dc.") or key.startswith("dcterms.")` */
  predicate DublinCore(key: string) {
    (|key| >= 3 && key[..3] == "dc.") || (|key| >= 8 && key[..8] == "dcterms.")
  }

  /** Columns of metadata.csv make one dmdSec for each kind of column there is: Dublin Core and other. */
  function Kinds(columns: seq<string>): set<bool> {
    set k | k in columns :: DublinCore(k)
  }

  function Columns(db: Db, path: Path): seq<string> {
    if path in db.csv then db.csv[path] else []
  }

  lemma SamePrefix(key: string)
    ensures Dublin(key) <==> DublinCore(key)
  {
  }

  lemma KindsCounted(columns: seq<string>)
    ensures |Kinds(columns)| == CsvCount(columns)
  {
    forall k ensures Dublin(k) <==> DublinCore(k) {
      SamePrefix(k);
    }
    hide Dublin;
    hide DublinCore;
    assert true in Kinds(columns) <==> HasDublin(columns);
    assert false in Kinds(columns) <==> HasOther(columns);
    SizeOfBools(Kinds(columns));
  }

  lemma SizeOfBools(s: set<bool>)
    ensures |s| == (if true in s then 1 else 0) + (if false in s then 1 else 0)
  {
    var t := (if true in s then {true} else {}) + (if false in s then {false} else {});
    forall b ensures b in s <==> b in t {
      if b {
        assert b == true;
      }
    }
    assert s == t;
  }

  /** The div of a file: it has the file's label, or else its name, and points to the file's mets:file; an
      original that is in no other file's group has the dmdSecs of its original location. */
  ghost predicate IsFileDiv(db: Db, path: Path, d: Div) {
    && !d.isDir && d.children == []
    && exists row ::
         && SoleRow(db.rows, path, row)
         && d.title == (if row.title == "" then Name(path) else row.title) && d.fptr == Some(row.uuid)
         && |d.dmdids| == if row.groupUuid == "" && row.use in {"original", "maildirFile"}
                          then |Kinds(Columns(db, row.original))| else 0
  }

  /** The div of a directory: it has the dmdSec of its row, if it has one, and those of metadata.csv. */
  ghost predicate IsDirDiv(db: Db, path: Path, d: Div) {
    && d.isDir && d.title == Name(path) && d.fptr == None
    && |d.dmdids| == (if path in db.dirs then 1 else 0) + |Kinds(Columns(db, path))|
  }

  /** A div for each directory and for each file that has a row, in the order of the listing. */
  ghost predicate Mirrors(db: Db, path: Path, listing: Listing, divs: seq<Div>)
    decreases listing
  {
    match listing
    case End => divs == []
    case OnFile(name, rest) =>
      if NoRow(db.rows, path + [name]) then Mirrors(db, path, rest, divs)
      else divs != [] && IsFileDiv(db, path + [name], divs[0]) && Mirrors(db, path, rest, divs[1..])
    case OnDir(name, sub, rest) =>
      && divs != [] && IsDirDiv(db, path + [name], divs[0]) && Mirrors(db, path + [name], sub, divs[0].children)
      && Mirrors(db, path, rest, divs[1..])
  }

  lemma FileMirrored(db: Db, amdSecs: bool, path: Path, s: Walked)
    requires AddFile(db, amdSecs, path, s).Success?
    ensures var divs := AddFile(db, amdSecs, path, s).value.divs;
            if NoRow(db.rows, path) then divs == s.divs
            else |divs| == |s.divs| + 1 && divs == s.divs + [divs[|s.divs|]] && IsFileDiv(db, path, divs[|s.divs|])
  {
    MissingIff(db.rows, path);
    var found := Find(db.rows, path);
    if found.One? {
      var row := found.row;
      OneIff(db.rows, path, row);
      FileDivIs(db, path, row, s.mets);
    }
  }

  lemma FileDivIs(db: Db, path: Path, row: FileRow, s: Mets)
    requires SoleRow(db.rows, path, row) && GroupOf(db, row, path).Success?
    ensures IsFileDiv(db, path, FileDiv(db, path, row, GroupOf(db, row, path).value, s))
  {
    KindsCounted(Columns(db, row.original));
    hide SoleRow;
    hide Kinds;
    hide CsvCount;
  }

  lemma DirDivIs(db: Db, path: Path, s: Mets, children: seq<Div>)
    ensures IsDirDiv(db, path, DirDiv(db, path, s, children))
  {
    KindsCounted(Columns(db, path));
    hide Kinds;
    hide CsvCount;
  }

  lemma MirrorsFile(db: Db, path: Path, name: string, rest: Listing, d: Div, later: seq<Div>)
    requires !NoRow(db.rows, path + [name]) && IsFileDiv(db, path + [name], d) && Mirrors(db, path, rest, later)
    ensures Mirrors(db, path, OnFile(name, rest), [d] + later)
  {
    hide IsFileDiv;
    hide NoRow;
    assert ([d] + later)[1..] == later;
  }

  lemma MirrorsDir(db: Db, path: Path, name: string, sub: Listing, rest: Listing, d: Div, later: seq<Div>)
    requires IsDirDiv(db, path + [name], d) && Mirrors(db, path + [name], sub, d.children)
    requires Mirrors(db, path, rest, later)
    ensures Mirrors(db, path, OnDir(name, sub, rest), [d] + later)
  {
    hide IsDirDiv;
    assert ([d] + later)[1..] == later;
  }

  /** The divs the walk adds mirror the disk. */
  lemma {:induction false} ItemsMirrored(db: Db, amdSecs: bool, path: Path, listing: Listing, s: Walked)
    returns (divs: seq<Div>)
    requires AddItems(db, amdSecs, path, listing, s).Success?
    ensures AddItems(db, amdSecs, path, listing, s).value.divs == s.divs + divs && Mirrors(db, path, listing, divs)
    decreases listing, 0
  {
    hide AddFile;
    hide AddDir;
    hide IsFileDiv;
    hide IsDirDiv;
    hide NoRow;
    match listing
    case End =>
      divs := [];
    case OnFile(name, rest) =>
      FileMirrored(db, amdSecs, path + [name], s);
      var t := AddFile(db, amdSecs, path + [name], s).value;
      var later := ItemsMirrored(db, amdSecs, path, rest, t);
      if NoRow(db.rows, path + [name]) {
        divs := later;
      } else {
        var d := t.divs[|s.divs|];
        divs := [d] + later;
        MirrorsFile(db, path, name, rest, d, later);
        Associative(s.divs, [d], later);
      }
    case OnDir(name, sub, rest) =>
      var d := DirMirrored(db, amdSecs, path + [name], sub, s);
      var t := AddDir(db, amdSecs, path + [name], sub, s).value;
      var later := ItemsMirrored(db, amdSecs, path, rest, t);
      divs := [d] + later;
      MirrorsDir(db, path, name, sub, rest, d, later);
      Associative(s.divs, [d], later);
  }

  lemma {:induction false} DirMirrored(db: Db, amdSecs: bool, path: Path, listing: Listing, s: Walked)
    returns (d: Div)
    requires AddDir(db, amdSecs, path, listing, s).Success?
    ensures AddDir(db, amdSecs, path, listing, s).value.divs == s.divs + [d]
    ensures IsDirDiv(db, path, d) && Mirrors(db, path, listing, d.children)
    decreases listing, 1
  {
    var mid := Walked(AddDmdSecs(s.mets, DirDmdSecs(db, path)), []);
    var children := ItemsMirrored(db, amdSecs, path, listing, mid);
    assert [] + children == children;
    d := DirDiv(db, path, s.mets, children);
    DirDivIs(db, path, s.mets, children);
  }

  /* ----- when the walk raises, and what it counts as errors ----- */

  /** The queries for a file raise nothing: it has one live row or none, and a derived or a service file
      has a source. */
  ghost predicate CanFile(db: Db, path: Path) {
    && (forall i, j :: IsLive(db.rows, path, i) && IsLive(db.rows, path, j) ==> i == j)
    && forall row :: SoleRow(db.rows, path, row) && row.groupUuid == "" ==>
         (row.use in DERIVED ==> row.uuid in db.derivations) && (row.use == "service" ==> path in db.service)
  }

  lemma SoleIsUnique(rows: seq<FileRow>, path: Path, r: FileRow, s: FileRow)
    requires SoleRow(rows, path, r) && SoleRow(rows, path, s)
    ensures r == s
  {
  }

  lemma GroupFound(db: Db, row: FileRow, path: Path)
    ensures GroupOf(db, row, path).Success? <==>
            (row.groupUuid == "" ==>
               (row.use in DERIVED ==> row.uuid in db.derivations) && (row.use == "service" ==> path in db.service))
  {
  }

  lemma CanFileIff(db: Db, amdSecs: bool, path: Path, s: Walked)
    ensures AddFile(db, amdSecs, path, s).Success? <==> CanFile(db, path)
  {
    MissingIff(db.rows, path);
    match Find(db.rows, path)
    case Missing =>
    case One(row) =>
      OneIff(db.rows, path, row);
      GroupFound(db, row, path);
      hide GroupOf;
      if CanFile(db, path) {
        assert SoleRow(db.rows, path, row);
      } else {
        OnlyThisRow(db, path, row);
      }
    case Several =>
      forall row ensures !SoleRow(db.rows, path, row) {
        OneIff(db.rows, path, row);
      }
      TwoRows(db.rows, path);
  }

  lemma OnlyThisRow(db: Db, path: Path, row: FileRow)
    requires SoleRow(db.rows, path, row)
    ensures forall other :: SoleRow(db.rows, path, other) ==> other == row
    ensures forall i, j :: IsLive(db.rows, path, i) && IsLive(db.rows, path, j) ==> i == j
  {
    forall other | SoleRow(db.rows, path, other) ensures other == row {
      SoleIsUnique(db.rows, path, other, row);
    }
  }

  lemma TwoRows(rows: seq<FileRow>, path: Path)
    requires !NoRow(rows, path) && forall row :: !SoleRow(rows, path, row)
    ensures exists i, j :: IsLive(rows, path, i) && IsLive(rows, path, j) && i != j
  {
    var i :| IsLive(rows, path, i);
    assert !SoleRow(rows, path, rows[i]);
  }

  /** The walk comes to its end exactly if it can file every file. */
  lemma {:induction false} ItemsSucceedIff(db: Db, amdSecs: bool, path: Path, listing: Listing, s: Walked)
    ensures AddItems(db, amdSecs, path, listing, s).Success? <==> forall p :: p in FilePaths(path, listing) ==> CanFile(db, p)
    decreases listing, 0
  {
    hide AddFile;
    hide CanFile;
    match listing
    case End =>
    case OnFile(name, rest) =>
      CanFileIff(db, amdSecs, path + [name], s);
      if CanFile(db, path + [name]) {
        ItemsSucceedIff(db, amdSecs, path, rest, AddFile(db, amdSecs, path + [name], s).value);
      } else {
        assert path + [name] in FilePaths(path, listing);
      }
    case OnDir(name, sub, rest) =>
      DirSucceedsIff(db, amdSecs, path + [name], sub, s);
      var t := AddDir(db, amdSecs, path + [name], sub, s);
      if t.Success? {
        ItemsSucceedIff(db, amdSecs, path, rest, t.value);
      }
  }

  lemma {:induction false} DirSucceedsIff(db: Db, amdSecs: bool, path: Path, listing: Listing, s: Walked)
    ensures AddDir(db, amdSecs, path, listing, s).Success? <==> forall p :: p in FilePaths(path, listing) ==> CanFile(db, p)
    decreases listing, 1
  {
    ItemsSucceedIff(db, amdSecs, path, listing, Walked(AddDmdSecs(s.mets, DirDmdSecs(db, path)), []));
  }

  /** A file with a row, a group and a fileGrp. */
  ghost predicate WellFiled(db: Db, path: Path) {
    exists row, uuid :: SoleRow(db.rows, path, row) && Heads(db, path, row, uuid) && HasGroup(GroupUse(row))
  }

  lemma FiledWellIff(db: Db, path: Path)
    requires CanFile(db, path)
    ensures ProblemsAt(db, path) == 0 <==> WellFiled(db, path)
  {
    CanFileIff(db, false, path, Walked(Mets(0, 0, 0, 0, 0, [], [], [], map[], 0), []));
    match Find(db.rows, path)
    case Missing =>
      forall row ensures !SoleRow(db.rows, path, row) {
        OneIff(db.rows, path, row);
      }
    case One(row) =>
      OneIff(db.rows, path, row);
      OnlyThisRow(db, path, row);
      hide SoleRow;
      hide CanFile;
      GroupIs(db, row, path);
      hide GroupOf;
      hide HasGroup;
      hide Heads;
      hide GroupUse;
      if WellFiled(db, path) {
        var other, uuid :| SoleRow(db.rows, path, other) && Heads(db, path, other, uuid) && HasGroup(GroupUse(other));
      }
  }

  lemma {:induction false} NoProblemsIff(db: Db, path: Path, listing: Listing)
    requires forall p :: p in FilePaths(path, listing) ==> CanFile(db, p)
    ensures Problems(db, path, listing) == 0 <==> forall p :: p in FilePaths(path, listing) ==> WellFiled(db, p)
    decreases listing
  {
    hide CanFile;
    hide WellFiled;
    hide ProblemsAt;
    match listing
    case End =>
    case OnFile(name, rest) =>
      FiledWellIff(db, path + [name]);
      NoProblemsIff(db, path, rest);
      assert path + [name] in FilePaths(path, listing);
    case OnDir(name, sub, rest) =>
      NoProblemsIff(db, path + [name], sub);
      NoProblemsIff(db, path, rest);
  }
}
