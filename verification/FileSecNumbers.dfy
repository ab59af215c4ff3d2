/** What one walk of `createFileSec` hands out and refers to, in closed form. */
module FileSecNumbers {
  import opened FileSec
  import opened MetsDiv
  import opened Numbering
  import opened Results
  import opened Sequences

  datatype Part = Own | Techs | Rights | Digiprovs | Sources

  function PartOf(part: Part, a: AmdSec): seq<nat> {
    match part
    case Own => [a.id]
    case Techs => a.tech
    case Rights => a.rights
    case Digiprovs => a.digiprov
    case Sources => a.source
  }

  /** The numbers of one kind in all amdSecs, in document order. */
  function Gather(part: Part, secs: seq<AmdSec>): seq<nat> {
    if secs == [] then [] else Gather(part, secs[..|secs| - 1]) + PartOf(part, secs[|secs| - 1])
  }

  lemma GatherSnoc(part: Part, secs: seq<AmdSec>, a: AmdSec)
    ensures Gather(part, secs + [a]) == Gather(part, secs) + PartOf(part, a)
  {
    assert (secs + [a])[..|secs|] == secs;
  }

  function Counter(s: Mets, part: Part): nat {
    match part
    case Own => s.amd
    case Techs => s.tech
    case Rights => s.rights
    case Digiprovs => s.digiprov
    case Sources => |Gather(Sources, s.amdSecs)|
  }

  /** Every counter stands at the number of sections made, and those are numbered 1, 2, ... in
      the order they appear. */
  ghost predicate WellNumbered(s: Mets) {
    s.dmdSecs == Numbers(0, s.dmd)
    && forall part :: Gather(part, s.amdSecs) == Numbers(0, Counter(s, part))
  }

  lemma AddDmdSecsNumbered(s: Mets, n: nat)
    requires WellNumbered(s)
    ensures WellNumbered(AddDmdSecs(s, n))
  {
    NumbersJoin(0, s.dmd, s.dmd + n);
    assert forall part :: Counter(AddDmdSecs(s, n), part) == Counter(s, part);
  }

  lemma AddAmdSecNumbered(db: Db, uuid: string, use: string, s: Mets)
    requires WellNumbered(s)
    ensures WellNumbered(AddAmdSec(db, uuid, use, s))
  {
    var t := AddAmdSec(db, uuid, use, s);
    var a := t.amdSecs[|s.amdSecs|];
    forall part ensures Gather(part, t.amdSecs) == Numbers(0, Counter(t, part)) {
      GatherSnoc(part, s.amdSecs, a);
      NumbersJoin(0, Counter(s, part), Counter(t, part));
      assert PartOf(part, a) == Numbers(Counter(s, part), Counter(t, part));
    }
  }

  /* ----- references ----- */

  function Uuids(files: seq<FileElem>): (r: seq<string>)
    ensures |r| == |files| && forall i :: 0 <= i < |files| ==> r[i] == files[i].uuid
  {
    seq(|files|, i requires 0 <= i < |files| => files[i].uuid)
  }

  function AdmRefs(files: seq<FileElem>): seq<nat> {
    if files == [] then [] else
      AdmRefs(files[..|files| - 1]) + (if files[|files| - 1].admid.Some? then [files[|files| - 1].admid.value] else [])
  }

  lemma FilesSnoc(files: seq<FileElem>, f: FileElem)
    ensures Uuids(files + [f]) == Uuids(files) + [f.uuid]
    ensures AdmRefs(files + [f]) == AdmRefs(files) + (if f.admid.Some? then [f.admid.value] else [])
  {
    assert (files + [f])[..|files|] == files;
  }

  /* ----- what there is on disk ----- */

  /** The UUID of a file on disk, if it has exactly one live row. */
  function UuidAt(db: Db, path: Path): seq<string> {
    var found := Find(db.rows, path);
    if found.One? then [found.row.uuid] else []
  }

  function RowUuids(db: Db, path: Path, listing: Listing): seq<string>
    decreases listing
  {
    match listing
    case End => []
    case OnFile(name, rest) => UuidAt(db, path + [name]) + RowUuids(db, path, rest)
    case OnDir(name, sub, rest) => RowUuids(db, path + [name], sub) + RowUuids(db, path, rest)
  }

  /** How many errors a file adds to the count: no row; no GROUPID; no fileGrp for its use. */
  function ProblemsAt(db: Db, path: Path): nat {
    match Find(db.rows, path)
    case Missing => 1
    case Several => 0
    case One(row) =>
      match GroupOf(db, row, path)
      case Failure(_) => 0
      case Success(g) => (if g.group == "" then 1 else 0) + (if !HasGroup(g.use) then 1 else 0)
  }

  function Problems(db: Db, path: Path, listing: Listing): nat
    decreases listing
  {
    match listing
    case End => 0
    case OnFile(name, rest) => ProblemsAt(db, path + [name]) + Problems(db, path, rest)
    case OnDir(name, sub, rest) => Problems(db, path + [name], sub) + Problems(db, path, rest)
  }

  /** From s to t, with no error on the way, files with these UUIDs were added, in this order. */
  ghost predicate FilesAdded(amdSecs: bool, s: Mets, t: Mets, uuids: seq<string>, problems: nat) {
    && t.errors == s.errors + problems
    && (problems == 0 ==> Uuids(t.files) == Uuids(s.files) + uuids)
    && s.amd <= t.amd
    && Gather(Sources, t.amdSecs) == Gather(Sources, s.amdSecs)
    && AdmRefs(t.files) == AdmRefs(s.files) + (if amdSecs then Numbers(s.amd, t.amd) else [])
    && ((forall f :: f in s.files ==> HasGroup(f.use)) ==> forall f :: f in t.files ==> HasGroup(f.use))
  }

  /** The divs added refer to each dmdSec added once, in the order they were made. */
  ghost predicate DivsAdded(s: Walked, t: Walked, uuids: seq<string>) {
    && s.mets.dmd <= t.mets.dmd
    && DmdRefs(t.divs) == DmdRefs(s.divs) + Numbers(s.mets.dmd, t.mets.dmd)
    && Fptrs(t.divs) == Fptrs(s.divs) + uuids
  }

  ghost predicate Grows(amdSecs: bool, s: Walked, t: Walked, uuids: seq<string>, problems: nat) {
    WellNumbered(t.mets) && FilesAdded(amdSecs, s.mets, t.mets, uuids, problems) && DivsAdded(s, t, uuids)
  }

  lemma FilesAddedTwice(amdSecs: bool, s: Mets, t: Mets, u: Mets, x: seq<string>, y: seq<string>, m: nat, n: nat)
    requires FilesAdded(amdSecs, s, t, x, m) && FilesAdded(amdSecs, t, u, y, n)
    ensures FilesAdded(amdSecs, s, u, x + y, m + n)
  {
    Associative(Uuids(s.files), x, y);
    Associative(AdmRefs(s.files), Numbers(s.amd, t.amd), Numbers(t.amd, u.amd));
    NumbersJoin(s.amd, t.amd, u.amd);
  }

  lemma DivsAddedTwice(s: Walked, t: Walked, u: Walked, x: seq<string>, y: seq<string>)
    requires DivsAdded(s, t, x) && DivsAdded(t, u, y)
    ensures DivsAdded(s, u, x + y)
  {
    Associative(Fptrs(s.divs), x, y);
    Associative(DmdRefs(s.divs), Numbers(s.mets.dmd, t.mets.dmd), Numbers(t.mets.dmd, u.mets.dmd));
    NumbersJoin(s.mets.dmd, t.mets.dmd, u.mets.dmd);
  }

  lemma GrowsTwice(amdSecs: bool, s: Walked, t: Walked, u: Walked, x: seq<string>, y: seq<string>, m: nat, n: nat)
    requires Grows(amdSecs, s, t, x, m) && Grows(amdSecs, t, u, y, n)
    ensures Grows(amdSecs, s, u, x + y, m + n)
  {
    FilesAddedTwice(amdSecs, s.mets, t.mets, u.mets, x, y, m, n);
    DivsAddedTwice(s, t, u, x, y);
  }

  lemma GrowsNothing(amdSecs: bool, s: Walked)
    requires WellNumbered(s.mets)
    ensures Grows(amdSecs, s, s, [], 0)
  {
  }

  /* ----- the walk ----- */

  lemma SameSections(s: Mets, t: Mets)
    requires WellNumbered(s) && t.dmd == s.dmd && t.dmdSecs == s.dmdSecs && t.amdSecs == s.amdSecs
    requires forall part :: Counter(t, part) == Counter(s, part)
    ensures WellNumbered(t)
  {
  }

  lemma FiledNumbered(db: Db, amdSecs: bool, path: Path, row: FileRow, g: Grouping, s: Mets)
    requires WellNumbered(s)
    ensures WellNumbered(Filed(db, amdSecs, path, row, g, s))
  {
    AddAmdSecNumbered(db, row.uuid, g.use, s);
    var t := if HasGroup(g.use) && amdSecs then AddAmdSec(db, row.uuid, g.use, s) else s;
    SameSections(t, Filed(db, amdSecs, path, row, g, s));
  }

  lemma RowNumbered(db: Db, amdSecs: bool, path: Path, row: FileRow, g: Grouping, s: Mets)
    requires WellNumbered(s)
    ensures WellNumbered(AddRow(db, amdSecs, path, row, g, s))
  {
    var t := Described(db, path, row, g, s);
    AddDmdSecsNumbered(s, DescribedBy(db, row, g));
    SameSections(AddDmdSecs(s, DescribedBy(db, row, g)), t);
    SameSections(t, Checked(g, t));
    FiledNumbered(db, amdSecs, path, row, g, Checked(g, t));
  }

  lemma FiledFiles(db: Db, amdSecs: bool, path: Path, row: FileRow, g: Grouping, s: Mets)
    ensures FilesAdded(amdSecs, s, Filed(db, amdSecs, path, row, g, s), [row.uuid], if !HasGroup(g.use) then 1 else 0)
  {
    hide HasGroup;
    var t := Filed(db, amdSecs, path, row, g, s);
    if HasGroup(g.use) {
      FilesSnoc(s.files, t.files[|s.files|]);
      if amdSecs {
        GatherSnoc(Sources, s.amdSecs, t.amdSecs[|s.amdSecs|]);
      }
      assert Numbers(s.amd, s.amd + 1) == [s.amd + 1];
    } else {
      assert t.files == s.files;
    }
  }

  lemma RowFiles(db: Db, amdSecs: bool, path: Path, row: FileRow, g: Grouping, s: Mets)
    ensures FilesAdded(amdSecs, s, AddRow(db, amdSecs, path, row, g, s), [row.uuid],
                       (if g.group == "" then 1 else 0) + (if !HasGroup(g.use) then 1 else 0))
  {
    var t := Checked(g, Described(db, path, row, g, s));
    assert FilesAdded(amdSecs, s, t, [], if g.group == "" then 1 else 0);
    FiledFiles(db, amdSecs, path, row, g, t);
    FilesAddedTwice(amdSecs, s, t, AddRow(db, amdSecs, path, row, g, s), [], [row.uuid],
                    if g.group == "" then 1 else 0, if !HasGroup(g.use) then 1 else 0);
    assert [] + [row.uuid] == [row.uuid];
  }

  lemma RowDmd(db: Db, amdSecs: bool, path: Path, row: FileRow, g: Grouping, s: Mets)
    ensures AddRow(db, amdSecs, path, row, g, s).dmd == s.dmd + DescribedBy(db, row, g)
  {
  }

  lemma RowDivs(db: Db, amdSecs: bool, path: Path, row: FileRow, g: Grouping, s: Walked)
    ensures DivsAdded(s, Walked(AddRow(db, amdSecs, path, row, g, s.mets), s.divs + [FileDiv(db, path, row, g, s.mets)]),
                      [row.uuid])
  {
    var d := FileDiv(db, path, row, g, s.mets);
    RowDmd(db, amdSecs, path, row, g, s.mets);
    RefsSnoc(s.divs, d);
    assert DmdRefs(d.children) == [] && Fptrs(d.children) == [];
    assert FptrOf(d) + [] == [row.uuid];
    assert d.dmdids + [] == d.dmdids;
  }

  lemma FileGrows(db: Db, amdSecs: bool, path: Path, s: Walked)
    requires WellNumbered(s.mets) && AddFile(db, amdSecs, path, s).Success?
    ensures Grows(amdSecs, s, AddFile(db, amdSecs, path, s).value, UuidAt(db, path), ProblemsAt(db, path))
  {
    match Find(db.rows, path)
    case Missing =>
      SameSections(s.mets, AddFile(db, amdSecs, path, s).value.mets);
    case One(row) =>
      var g := GroupOf(db, row, path).value;
      RowNumbered(db, amdSecs, path, row, g, s.mets);
      RowFiles(db, amdSecs, path, row, g, s.mets);
      RowDivs(db, amdSecs, path, row, g, s);
  }

  /** The directory's own dmdSecs. */
  lemma DirStarts(db: Db, amdSecs: bool, path: Path, s: Mets)
    requires WellNumbered(s)
    ensures var t := AddDmdSecs(s, DirDmdSecs(db, path));
            WellNumbered(t) && FilesAdded(amdSecs, s, t, [], 0) && s.dmd <= t.dmd
  {
    AddDmdSecsNumbered(s, DirDmdSecs(db, path));
  }

  lemma DirDivs(db: Db, path: Path, s: Walked, t: Walked, uuids: seq<string>)
    requires DivsAdded(Walked(AddDmdSecs(s.mets, DirDmdSecs(db, path)), []), t, uuids)
    ensures DivsAdded(s, Walked(t.mets, s.divs + [DirDiv(db, path, s.mets, t.divs)]), uuids)
  {
    var mid, d := s.mets.dmd + DirDmdSecs(db, path), DirDiv(db, path, s.mets, t.divs);
    RefsSnoc(s.divs, d);
    NoRefs();
    hide DmdRefs;
    hide Fptrs;
    hide Numbers;
    NothingBefore(Numbers(mid, t.mets.dmd));
    NothingBefore(uuids);
    NumbersJoin(s.mets.dmd, mid, t.mets.dmd);
  }

  lemma DirFiles(db: Db, amdSecs: bool, path: Path, s: Mets, t: Mets, uuids: seq<string>, problems: nat)
    requires WellNumbered(s) && FilesAdded(amdSecs, AddDmdSecs(s, DirDmdSecs(db, path)), t, uuids, problems)
    ensures FilesAdded(amdSecs, s, t, uuids, problems)
  {
    DirStarts(db, amdSecs, path, s);
    FilesAddedTwice(amdSecs, s, AddDmdSecs(s, DirDmdSecs(db, path)), t, [], uuids, 0, problems);
    assert [] + uuids == uuids;
  }

  /** The walk below a directory: sections stay numbered without gaps, every dmdSec made has
      exactly one reference and every file with a row exactly one fptr, in walk order; and the
      error count grows by the number of problems, without which all those files are in the
      fileSec. */
  lemma {:induction false} ItemsGrow(db: Db, amdSecs: bool, path: Path, listing: Listing, s: Walked)
    requires WellNumbered(s.mets) && AddItems(db, amdSecs, path, listing, s).Success?
    ensures Grows(amdSecs, s, AddItems(db, amdSecs, path, listing, s).value, RowUuids(db, path, listing),
                  Problems(db, path, listing))
    decreases listing, 0
  {
    match listing
    case End =>
      GrowsNothing(amdSecs, s);
    case OnFile(name, rest) =>
      FileGrows(db, amdSecs, path + [name], s);
      var t := AddFile(db, amdSecs, path + [name], s).value;
      ItemsGrow(db, amdSecs, path, rest, t);
      GrowsTwice(amdSecs, s, t, AddItems(db, amdSecs, path, rest, t).value, UuidAt(db, path + [name]),
                 RowUuids(db, path, rest), ProblemsAt(db, path + [name]), Problems(db, path, rest));
    case OnDir(name, sub, rest) =>
      DirGrows(db, amdSecs, path + [name], sub, s);
      var t := AddDir(db, amdSecs, path + [name], sub, s).value;
      ItemsGrow(db, amdSecs, path, rest, t);
      GrowsTwice(amdSecs, s, t, AddItems(db, amdSecs, path, rest, t).value, RowUuids(db, path + [name], sub),
                 RowUuids(db, path, rest), Problems(db, path + [name], sub), Problems(db, path, rest));
  }

  lemma {:induction false} DirGrows(db: Db, amdSecs: bool, path: Path, listing: Listing, s: Walked)
    requires WellNumbered(s.mets) && AddDir(db, amdSecs, path, listing, s).Success?
    ensures Grows(amdSecs, s, AddDir(db, amdSecs, path, listing, s).value, RowUuids(db, path, listing),
                  Problems(db, path, listing))
    decreases listing, 1
  {
    var mid := Walked(AddDmdSecs(s.mets, DirDmdSecs(db, path)), []);
    DirStarts(db, amdSecs, path, s.mets);
    ItemsGrow(db, amdSecs, path, listing, mid);
    var t := AddItems(db, amdSecs, path, listing, mid).value;
    DirDivs(db, path, s, t, RowUuids(db, path, listing));
    DirFiles(db, amdSecs, path, s.mets, t.mets, RowUuids(db, path, listing), Problems(db, path, listing));
  }
}
