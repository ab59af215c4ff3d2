/** The physical structMap, the fileSec and the metadata sections of an AIP METS: one recursive
    walk over the disk that shares counters and lists. */
module FileSec {
  import FileTree
  import opened MetsDiv
  import opened Numbering
  import opened Results

  type Path = FileTree.Path

  /** A directory's listing, sorted by name. */
  datatype Listing = End | OnFile(name: string, rest: Listing) | OnDir(name: string, sub: Listing, rest: Listing)

  /** A row of the File table that belongs to the SIP. */
  datatype FileRow = FileRow(uuid: string, location: Path, live: bool, use: string, title: string,
                             groupUuid: string, original: Path)

  /** What the walk reads from the database and from metadata.csv (its column names by path).
      `derivations` and `service` hold what the two `get` queries for a derived and for a service
      file return; they raise where there is no entry. `rights` and `digiprov` count the rights
      statements and the events and agents of a file. */
  datatype Db = Db(rows: seq<FileRow>, dirs: set<Path>, csv: map<Path, seq<string>>,
                   derivations: map<string, string>, service: map<Path, string>,
                   rights: string -> nat, digiprov: string -> nat)

  datatype AmdSec = AmdSec(id: nat, tech: seq<nat>, rights: seq<nat>, digiprov: seq<nat>, source: seq<nat>)
  datatype FileElem = FileElem(uuid: string, use: string, group: string, href: Path, admid: Option<nat>)

  /** The counters and lists of `MetsState`; `files` are all mets:file elements, oldest first. */
  datatype Mets = Mets(dmd: nat, amd: nat, tech: nat, rights: nat, digiprov: nat,
                       dmdSecs: seq<nat>, amdSecs: seq<AmdSec>, files: seq<FileElem>,
                       fileIds: map<Path, string>, errors: nat)

  const USES: seq<string> := ["original", "submissionDocumentation", "preservation", "service", "access", "license",
                              "text/ocr", "metadata", "derivative"]

  predicate HasGroup(use: string) {
    use in USES
  }

  /* ----- createDmdSecsFromCSVParsedMetadata ----- */

  predicate Dublin(key: string) {
    "dc." <= key || "dcterms." <= key
  }

  predicate HasDublin(keys: seq<string>) {
    exists k :: k in keys && Dublin(k)
  }

  predicate HasOther(keys: seq<string>) {
    exists k :: k in keys && !Dublin(k)
  }

  function CsvCount(keys: seq<string>): nat {
    (if HasDublin(keys) then 1 else 0) + (if HasOther(keys) then 1 else 0)
  }

  function CsvKeys(db: Db, path: Path): seq<string> {
    if path in db.csv then db.csv[path] else []
  }

  function AddDmdSecs(s: Mets, n: nat): Mets {
    s.(dmd := s.dmd + n, dmdSecs := s.dmdSecs + Numbers(s.dmd, s.dmd + n))
  }

  /* ----- getAMDSec ----- */

  function AddAmdSec(db: Db, uuid: string, use: string, s: Mets): Mets {
    var r := if use == "original" then db.rights(uuid) else 0;
    var g := db.digiprov(uuid);
    s.(amd := s.amd + 1, tech := s.tech + 1, rights := s.rights + r, digiprov := s.digiprov + g,
       amdSecs := s.amdSecs + [AmdSec(s.amd + 1, [s.tech + 1], Numbers(s.rights, s.rights + r),
                                      Numbers(s.digiprov, s.digiprov + g), [])])
  }

  /* ----- createFileSec ----- */

  predicate Matches(row: FileRow, path: Path) {
    row.live && row.location == path
  }

  /** `File.objects.get(removedtime__isnull=True, currentlocation=path)` */
  datatype Found = Missing | One(row: FileRow) | Several

  function Find(rows: seq<FileRow>, path: Path): (r: Found)
    ensures r.One? ==> r.row in rows && Matches(r.row, path)
  {
    if rows == [] then Missing else
      var before := Find(rows[..|rows| - 1], path);
      var row := rows[|rows| - 1];
      if !Matches(row, path) then before else if before.Missing? then One(row) else Several
  }

  /** The fileGrp and GROUPID of a file, and whether metadata.csv may describe it. */
  datatype Grouping = Grouping(use: string, group: string, described: bool)

  function GroupOf(db: Db, row: FileRow, path: Path): Result<Grouping> {
    if row.groupUuid != "" then
      Success(Grouping(if row.use == "TRIM file metadata" then "metadata" else row.use, "Group-" + row.groupUuid, false))
    else if row.use == "original" || row.use == "maildirFile" then
      Success(Grouping("original", "Group-" + row.uuid, true))
    else if row.use == "submissionDocumentation" || row.use == "metadata" then
      Success(Grouping(row.use, "Group-" + row.uuid, false))
    else if row.use == "preservation" || row.use == "text/ocr" || row.use == "derivative" then
      if row.uuid in db.derivations then Success(Grouping(row.use, "Group-" + db.derivations[row.uuid], false))
      else Failure("unable to locate a Derivation object")
    else if row.use == "service" then
      if path in db.service then Success(Grouping(row.use, "Group-" + db.service[path], false))
      else Failure("no single original for the service file")
    else if row.use == "TRIM container metadata" then
      Success(Grouping("metadata", "Group-" + row.uuid, false))
    else
      Success(Grouping(row.use, "", false))
  }

  function Name(path: Path): string {
    if path == [] then "" else path[|path| - 1]
  }

  /** The CSV dmdSecs of a file, and its entry in `fileNameToFileID`. */
  function Described(db: Db, path: Path, row: FileRow, g: Grouping, s: Mets): Mets {
    AddDmdSecs(s, DescribedBy(db, row, g)).(fileIds := s.fileIds[path := row.uuid])
  }

  function DescribedBy(db: Db, row: FileRow, g: Grouping): nat {
    if g.described then CsvCount(CsvKeys(db, row.original)) else 0
  }

  function Checked(g: Grouping, s: Mets): Mets {
    if g.group == "" then s.(errors := s.errors + 1) else s
  }

  /** The mets:file and its amdSec, unless there is no fileGrp for the use. */
  function Filed(db: Db, amdSecs: bool, path: Path, row: FileRow, g: Grouping, s: Mets): Mets {
    if !HasGroup(g.use) then s.(errors := s.errors + 1) else
      var t := if amdSecs then AddAmdSec(db, row.uuid, g.use, s) else s;
      var admid := if amdSecs then Some(s.amd + 1) else None;
      t.(files := t.files + [FileElem(row.uuid, g.use, g.group, path, admid)])
  }

  /** A file with one row. */
  function AddRow(db: Db, amdSecs: bool, path: Path, row: FileRow, g: Grouping, s: Mets): Mets {
    Filed(db, amdSecs, path, row, g, Checked(g, Described(db, path, row, g, s)))
  }

  /** The LABEL of a file's div. */
  function Title(path: Path, row: FileRow): string {
    if row.title == "" then Name(path) else row.title
  }

  function FileDiv(db: Db, path: Path, row: FileRow, g: Grouping, s: Mets): Div {
    Div(false, Title(path, row), Numbers(s.dmd, s.dmd + DescribedBy(db, row, g)),
        Some(row.uuid), [])
  }

  datatype Walked = Walked(mets: Mets, divs: seq<Div>)

  function AddFile(db: Db, amdSecs: bool, path: Path, s: Walked): Result<Walked> {
    match Find(db.rows, path)
    case Missing => Success(s.(mets := s.mets.(errors := s.mets.errors + 1)))
    case Several => Failure("MultipleObjectsReturned")
    case One(row) =>
      match GroupOf(db, row, path)
      case Failure(message) => Failure(message)
      case Success(g) =>
        Success(Walked(AddRow(db, amdSecs, path, row, g, s.mets), s.divs + [FileDiv(db, path, row, g, s.mets)]))
  }

  /** The dmdSecs of a directory itself: one if it has a row, then those of metadata.csv. */
  function DirDmdSecs(db: Db, path: Path): nat {
    (if path in db.dirs then 1 else 0) + CsvCount(CsvKeys(db, path))
  }

  function DirDiv(db: Db, path: Path, s: Mets, children: seq<Div>): Div {
    Div(true, Name(path), Numbers(s.dmd, s.dmd + DirDmdSecs(db, path)), None, children)
  }

  function AddItems(db: Db, amdSecs: bool, path: Path, listing: Listing, s: Walked): Result<Walked>
    decreases listing, 0
  {
    match listing
    case End => Success(s)
    case OnFile(name, rest) =>
      (match AddFile(db, amdSecs, path + [name], s)
       case Failure(message) => Failure(message)
       case Success(t) => AddItems(db, amdSecs, path, rest, t))
    case OnDir(name, sub, rest) =>
      (match AddDir(db, amdSecs, path + [name], sub, s)
       case Failure(message) => Failure(message)
       case Success(t) => AddItems(db, amdSecs, path, rest, t))
  }

  /** `createFileSec` for a directory that exists: its div becomes the last one. */
  function AddDir(db: Db, amdSecs: bool, path: Path, listing: Listing, s: Walked): Result<Walked>
    decreases listing, 1
  {
    match AddItems(db, amdSecs, path, listing, Walked(AddDmdSecs(s.mets, DirDmdSecs(db, path)), []))
    case Failure(message) => Failure(message)
    case Success(t) => Success(Walked(t.mets, s.divs + [DirDiv(db, path, s.mets, t.divs)]))
  }
}
