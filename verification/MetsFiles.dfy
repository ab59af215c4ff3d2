/** The finished METS document against the files on disk and the rows of the database. */
module MetsFiles {
  import opened FileSec
  import opened FileSecElements
  import opened FileSecFiles
  import opened FileSecNumbers
  import Listings
  import opened MetsDiv
  import opened MetsDocument
  import MetsIntegrity
  import opened Numbering
  import opened Results
  import opened Sequences
  import StructMap
  import StructMapTree

  /* ----- the mets:files ----- */

  lemma TopFiled(sip: Sip, name: string, listing: Option<Listing>, s: Walked)
    requires AddTop(sip, name, listing, s).Success?
    ensures OnlyThese(sip.db, sip.amdSecs, if listing.None? then {} else FilePaths([name], listing.value), s.mets,
                      AddTop(sip, name, listing, s).value.mets)
  {
    if listing.Some? {
      DirFiled(sip.db, sip.amdSecs, [name], listing.value, s);
    }
  }

  lemma WalksFiled(sip: Sip, n: StructMap.State, u: Walked, w: Walked, f: FileElem)
    requires MetsIntegrity.Ran(sip, n, u, w) && f in w.mets.files
    ensures f.href in MetsIntegrity.Files(sip) && Describes(sip.db, sip.amdSecs, f, w.mets.amdSecs)
  {
    hide Describes;
    var t := if sip.hasRow then AddDmdSecs(Begin(n), 1) else Begin(n);
    var v := AddObjectMetadata(u.mets, sip.sources);
    TopFiled(sip, "objects", ObjectsLeft(sip), Walked(t, []));
    TopFiled(sip, "metadata", MetadataLeft(sip), u.(mets := v));
    MetsIntegrity.WalkedFiles(sip, f.href);
    hide ObjectsLeft;
    hide MetadataLeft;
    if f in u.mets.files {
      DescribesMore(sip.db, sip.amdSecs, f, u.mets.amdSecs, w.mets.amdSecs);
    }
  }

  /** Every mets:file has the path of a file on disk, and the UUID, the group and the amdSec of that
      file's only live row. */
  lemma FileDescribed(sip: Sip, f: FileElem)
    requires Main(sip).Success? && f in Main(sip).value.fileSec
    ensures f.href in MetsIntegrity.Files(sip)
    ensures Describes(sip.db, sip.amdSecs, f, Main(sip).value.amdSecs)
  {
    hide Describes;
    var n, u, w := MetsIntegrity.MainRan(sip);
    MetsIntegrity.WalksFile(sip, n, u, w);
    FileSecIsPermutation(w.mets.files);
    assert f in multiset(w.mets.files);
    WalksFiled(sip, n, u, w, f);
  }

  function Hrefs(files: seq<FileElem>): (r: seq<Path>)
    ensures |r| == |files|
  {
    seq(|files|, i requires 0 <= i < |files| => files[i].href)
  }

  lemma SameRow(rows: seq<FileRow>, p: Path, q: Path, r: FileRow, s: FileRow)
    requires DistinctUuids(rows) && SoleRow(rows, p, r) && SoleRow(rows, q, s)
    ensures r.uuid == s.uuid <==> p == q
  {
    var i :| IsLive(rows, p, i) && rows[i] == r && forall j :: IsLive(rows, p, j) ==> j == i;
    var k :| IsLive(rows, q, k) && rows[k] == s && forall j :: IsLive(rows, q, j) ==> j == k;
    if i < k || k < i {
      assert rows[i].uuid != rows[k].uuid;
    }
  }

  /** Two mets:files have the same path exactly if they have the same ID. */
  lemma PathsAreIds(sip: Sip, f: FileElem, g: FileElem)
    requires MetsIntegrity.ValidSip(sip) && Main(sip).Success?
    requires f in Main(sip).value.fileSec && g in Main(sip).value.fileSec
    ensures f.href == g.href <==> f.uuid == g.uuid
  {
    FileDescribed(sip, f);
    FileDescribed(sip, g);
    var r :| SoleRow(sip.db.rows, f.href, r) && IsFileOf(sip.db, f, r);
    var s :| SoleRow(sip.db.rows, g.href, s) && IsFileOf(sip.db, g, s);
    SameRow(sip.db.rows, f.href, g.href, r, s);
  }

  /** The paths in the fileSec are those of the files on disk, each once. */
  lemma HrefsAreFiles(sip: Sip)
    requires MetsIntegrity.ValidSip(sip) && Main(sip).Success? && Main(sip).value.errors == 0
    ensures var hrefs := Hrefs(Main(sip).value.fileSec);
            Distinct(hrefs) && forall p :: p in hrefs <==> p in MetsIntegrity.Files(sip)
  {
    var files := Main(sip).value.fileSec;
    MetsIntegrity.FileSecUuids(sip);
    forall i, j | 0 <= i < j < |files| ensures Hrefs(files)[i] != Hrefs(files)[j] {
      PathsAreIds(sip, files[i], files[j]);
      assert Uuids(files)[i] != Uuids(files)[j];
    }
    forall p | p in Hrefs(files) ensures p in MetsIntegrity.Files(sip) {
      var i :| 0 <= i < |files| && Hrefs(files)[i] == p;
      FileDescribed(sip, files[i]);
    }
    forall p | p in MetsIntegrity.Files(sip) ensures p in Hrefs(files) {
      var f := FileAt(sip, p);
      var i :| 0 <= i < |files| && files[i] == f;
      assert Hrefs(files)[i] == p;
    }
  }

  /** Without errors there is a mets:file for each file on disk. */
  lemma FileAt(sip: Sip, p: Path) returns (f: FileElem)
    requires MetsIntegrity.ValidSip(sip) && Main(sip).Success? && Main(sip).value.errors == 0
    requires p in MetsIntegrity.Files(sip)
    ensures f in Main(sip).value.fileSec && f.href == p
  {
    var files := Main(sip).value.fileSec;
    MetsIntegrity.EveryFileOnce(sip, p);
    var row := Find(sip.db.rows, p).row;
    OneIff(sip.db.rows, p, row);
    assert row.uuid in multiset(Uuids(files));
    var i :| 0 <= i < |files| && Uuids(files)[i] == row.uuid;
    f := files[i];
    FileDescribed(sip, f);
    var r :| SoleRow(sip.db.rows, f.href, r) && IsFileOf(sip.db, f, r);
    SameRow(sip.db.rows, f.href, p, r, row);
  }

  /** The fptr of a file's div names one mets:file, and that has the file's path. */
  lemma FptrLeadsToFile(sip: Sip, p: Path, d: Div)
    requires MetsIntegrity.ValidSip(sip) && Main(sip).Success? && Main(sip).value.errors == 0
    requires p in MetsIntegrity.Files(sip) && IsFileDiv(sip.db, p, d)
    ensures forall f :: f in Main(sip).value.fileSec ==> (d.fptr == Some(f.uuid) <==> f.href == p)
    ensures exists f :: f in Main(sip).value.fileSec && d.fptr == Some(f.uuid) && f.href == p
  {
    var row :| SoleRow(sip.db.rows, p, row) && d.fptr == Some(row.uuid);
    forall f | f in Main(sip).value.fileSec ensures d.fptr == Some(f.uuid) <==> f.href == p {
      FileDescribed(sip, f);
      var r :| SoleRow(sip.db.rows, f.href, r) && IsFileOf(sip.db, f, r);
      SameRow(sip.db.rows, f.href, p, r, row);
    }
    var f := FileAt(sip, p);
  }

  /* ----- groups ----- */

  /** What the rows say of the group of a mets:file: it is named after the file that heads it. */
  lemma GroupNamed(sip: Sip, f: FileElem, row: FileRow)
    requires Main(sip).Success? && f in Main(sip).value.fileSec && SoleRow(sip.db.rows, f.href, row)
    ensures f.uuid == row.uuid && f.use == GroupUse(row)
    ensures forall uuid :: Heads(sip.db, f.href, row, uuid) <==> f.group == "Group-" + uuid
  {
    FileDescribed(sip, f);
    var r :| SoleRow(sip.db.rows, f.href, r) && IsFileOf(sip.db, f, r);
    SoleIsUnique(sip.db.rows, f.href, r, row);
    hide SoleRow;
    hide Main;
    forall uuid ensures Heads(sip.db, f.href, row, uuid) <==> f.group == "Group-" + uuid {
      OneHead(sip.db, f, row, uuid);
    }
  }

  lemma OneHead(db: Db, f: FileElem, row: FileRow, uuid: string)
    requires IsFileOf(db, f, row)
    ensures Heads(db, f.href, row, uuid) <==> f.group == "Group-" + uuid
  {
    if f.group != "" {
      var other :| Heads(db, f.href, row, other) && f.group == "Group-" + other;
      assert ("Group-" + other)[6..] == other && ("Group-" + uuid)[6..] == uuid;
    }
  }

  /** A file is in the group of another one that its group is named after, as a derived or a service
      file's is, exactly if that one's group is named after itself. */
  lemma InGroupIff(sip: Sip, f: FileElem, row: FileRow, source: FileElem, sourceRow: FileRow)
    requires Main(sip).Success? && f in Main(sip).value.fileSec && source in Main(sip).value.fileSec
    requires SoleRow(sip.db.rows, f.href, row) && SoleRow(sip.db.rows, source.href, sourceRow)
    requires Heads(sip.db, f.href, row, source.uuid)
    ensures f.group == source.group <==> Heads(sip.db, source.href, sourceRow, source.uuid)
  {
    GroupNamed(sip, f, row);
    GroupNamed(sip, source, sourceRow);
    hide Heads;
    hide Main;
  }

  /** So an original is the head of its own group, and the files derived from it or serving it are in
      that group, unless a file group says otherwise. */
  lemma OriginalHeadsGroup(sip: Sip, f: FileElem, row: FileRow, source: FileElem, sourceRow: FileRow)
    requires Main(sip).Success? && f in Main(sip).value.fileSec && source in Main(sip).value.fileSec
    requires SoleRow(sip.db.rows, f.href, row) && SoleRow(sip.db.rows, source.href, sourceRow)
    requires sourceRow.use == "original" && sourceRow.groupUuid == "" && row.groupUuid == ""
    requires (row.use in DERIVED && row.uuid in sip.db.derivations && sip.db.derivations[row.uuid] == source.uuid)
             || (row.use == "service" && f.href in sip.db.service && sip.db.service[f.href] == source.uuid)
    ensures f.group == source.group == "Group-" + source.uuid
  {
    GroupNamed(sip, f, row);
    GroupNamed(sip, source, sourceRow);
    hide Main;
    assert Heads(sip.db, source.href, sourceRow, source.uuid);
    assert Heads(sip.db, f.href, row, source.uuid);
  }

  /* ----- the amdSecs ----- */

  lemma {:induction false} AdmRefsApart(files: seq<FileElem>, i: nat, j: nat)
    requires Distinct(AdmRefs(files)) && i < j < |files| && files[i].admid.Some?
    ensures files[i].admid != files[j].admid
    decreases |files|
  {
    var n := |files| - 1;
    var before := AdmRefs(files[..n]);
    forall a, b | 0 <= a < b < |before| ensures before[a] != before[b] {
      assert AdmRefs(files)[a] != AdmRefs(files)[b];
    }
    if j < n {
      AdmRefsApart(files[..n], i, j);
    } else if files[n].admid.Some? {
      MetsIntegrity.AdmRefsHold(files[..n], files[i]);
      var k :| 0 <= k < |before| && before[k] == files[i].admid.value;
      assert AdmRefs(files)[k] != AdmRefs(files)[|before|];
    }
  }

  /** The numbers of both walks, and none of them is that of the objects' own metadata. */
  lemma WalksRefer(sip: Sip, n: StructMap.State, u: Walked, w: Walked)
    requires MetsIntegrity.Ran(sip, n, u, w)
    ensures Distinct(AdmRefs(w.mets.files))
    ensures sip.sources > 0 ==> u.mets.amd + 1 !in AdmRefs(w.mets.files)
  {
    hide WalkObjects;
    hide WalkMetadata;
    hide WellNumbered;
    hide DmdRefs;
    hide Fptrs;
    hide AddTop;
    MetsIntegrity.Walks(sip, n, u, w);
    var t := if sip.hasRow then AddDmdSecs(Begin(n), 1) else Begin(n);
    var v := AddObjectMetadata(u.mets, sip.sources);
    assert AdmRefs(t.files) == [] && t.amd == 0 && v.files == u.mets.files;
    assert v.amd == u.mets.amd + if sip.sources > 0 then 1 else 0;
    var a: seq<nat> := if sip.amdSecs then Numbers(0, u.mets.amd) else [];
    var b: seq<nat> := if sip.amdSecs then Numbers(v.amd, w.mets.amd) else [];
    NothingBefore(a);
    assert AdmRefs(w.mets.files) == a + b;
    hide AdmRefs;
    hide MetsIntegrity.Ran;
    RunsApart(u.mets.amd, v.amd, w.mets.amd);
  }

  lemma RunsApart(a: nat, b: nat, c: nat)
    requires a <= b <= c
    ensures var s: seq<nat> := Numbers(0, a) + Numbers(b, c);
            Distinct(s) && (a < b ==> b !in s)
    ensures Distinct<nat>([] + [])
  {
  }

  /** No two mets:files share an amdSec, and none has that of the objects' own metadata. */
  lemma AmdSecsAreOwn(sip: Sip, f: FileElem, g: FileElem)
    requires Main(sip).Success? && f in Main(sip).value.fileSec && g in Main(sip).value.fileSec && f.admid.Some?
    ensures f.admid == g.admid ==> f == g
    ensures f.admid != Main(sip).value.objectsAdmid
  {
    var n, u, w := MetsIntegrity.MainRan(sip);
    MetsIntegrity.WalksFile(sip, n, u, w);
    FileSecIsPermutation(w.mets.files);
    assert f in multiset(w.mets.files) && g in multiset(w.mets.files);
    WalksRefer(sip, n, u, w);
    assert Main(sip).value.objectsAdmid == if sip.sources > 0 then Some(u.mets.amd + 1) else None;
    hide Main;
    OwnNumbers(w.mets.files, f, g);
  }

  lemma OwnNumbers(files: seq<FileElem>, f: FileElem, g: FileElem)
    requires Distinct(AdmRefs(files)) && f in files && g in files && f.admid.Some?
    ensures f.admid == g.admid ==> f == g
    ensures f.admid.value in AdmRefs(files)
  {
    var i :| 0 <= i < |files| && files[i] == f;
    var j :| 0 <= j < |files| && files[j] == g;
    if i < j {
      AdmRefsApart(files, i, j);
    } else if j < i && g.admid.Some? {
      AdmRefsApart(files, j, i);
    }
    MetsIntegrity.AdmRefsHold(files, f);
  }

  /* ----- the physical structMap ----- */

  /** The div of a top directory, whatever its DMDIDs. */
  ghost predicate IsTop(sip: Sip, name: string, listing: Listing, d: Div) {
    d.isDir && d.title == name && d.fptr == None && Mirrors(sip.db, [name], listing, d.children)
  }

  lemma TopMirrored(sip: Sip, name: string, listing: Option<Listing>, s: Walked) returns (divs: seq<Div>)
    requires AddTop(sip, name, listing, s).Success?
    ensures AddTop(sip, name, listing, s).value.divs == s.divs + divs
    ensures if listing.None? then divs == []
            else |divs| == 1 && IsTop(sip, name, listing.value, divs[0]) && IsDirDiv(sip.db, [name], divs[0])
  {
    divs := [];
    if listing.Some? {
      var d := DirMirrored(sip.db, sip.amdSecs, [name], listing.value, s);
      divs := [d];
    }
  }

  /** The root div is the SIP's and has a div for each top directory with a file, in which a div stands
      for each directory and file; the SIP's Dublin Core, if there is any, has the only DMDID of the
      objects directory, or of the root. */
  lemma StructMapMirrors(sip: Sip)
    requires Main(sip).Success?
    ensures var root := Main(sip).value.root;
            var objects, metadata := Listings.LeftOf(sip.objects), Listings.LeftOf(sip.metadata);
            && root.isDir && root.title == sip.name && root.fptr == None
            && |root.dmdids| == (if sip.hasRow || (sip.dublinCore && objects.None?) then 1 else 0)
            && |root.children| == (if objects.Some? then 1 else 0) + (if metadata.Some? then 1 else 0)
            && (objects.Some? ==>
                  && IsTop(sip, "objects", objects.value, root.children[0])
                  && if sip.dublinCore then |root.children[0].dmdids| == 1
                     else IsDirDiv(sip.db, ["objects"], root.children[0]))
            && (metadata.Some? ==>
                  var d := root.children[|root.children| - 1];
                  IsTop(sip, "metadata", metadata.value, d) && IsDirDiv(sip.db, ["metadata"], d))
  {
    hide IsDirDiv;
    hide Listings.LeftOf;
    hide Normative;
    var n, u, w := MetsIntegrity.MainRan(sip);
    var t := if sip.hasRow then AddDmdSecs(Begin(n), 1) else Begin(n);
    var a := TopMirrored(sip, "objects", ObjectsLeft(sip), Walked(t, []));
    var b := TopMirrored(sip, "metadata", MetadataLeft(sip), u.(mets := AddObjectMetadata(u.mets, sip.sources)));
    assert u.divs == a && w.divs == a + b;
    hide AddTop;
    hide Mirrors;
    assert Main(sip).value.root == RootDiv(sip, n, w);
    hide Main;
  }

  /** The normative structMap, as it is built, shows the objects directory before anything was deleted. */
  lemma NormativeMirrors(sip: Sip)
    ensures Normative(sip).Success?
    ensures var root := Normative(sip).value.root;
            && root.isDir && root.title == sip.name && root.dmdids == [] && root.fptr == None
            && if sip.createNormative && sip.objects.Some?
               then |root.children| == 1 && StructMapTree.IsDivOf(["objects"], sip.objects.value, root.children[0])
               else root.children == []
  {
    MetsIntegrity.NormativeBuilt(sip);
    if sip.createNormative && sip.objects.Some? {
      StructMapTree.DirDivIsOf(["objects"], sip.objects.value, 0);
    }
  }

  /* ----- when main raises, and when it counts no error ----- */

  /** The ingest branch raises exactly if a query for a file on disk does, or if metadata of the transfers
      has no objects directory to go to. */
  lemma MainSucceedsIff(sip: Sip)
    ensures Main(sip).Success? <==>
            (forall p :: p in MetsIntegrity.Files(sip) ==> CanFile(sip.db, p))
            && (sip.sources > 0 ==> Listings.FilesOn("objects", sip.objects) != {})
  {
    hide CanFile;
    MetsIntegrity.NormativeBuilt(sip);
    var n := Normative(sip).value;
    hide Normative;
    TopSucceedsIff(sip, "objects", sip.objects, Walked(if sip.hasRow then AddDmdSecs(Begin(n), 1) else Begin(n), []));
    if WalkObjects(sip, n).Success? {
      var u := WalkObjects(sip, n).value;
      TopSucceedsIff(sip, "metadata", sip.metadata, u.(mets := AddObjectMetadata(u.mets, sip.sources)));
    }
    Listings.LeftHolds("objects", sip.objects);
    ObjectsHaveFile(sip);
  }

  lemma ObjectsHaveFile(sip: Sip)
    ensures ObjectsLeft(sip).Some? <==> Listings.FilesOn("objects", sip.objects) != {}
  {
    Listings.LeftIff("objects", sip.objects);
  }

  lemma TopSucceedsIff(sip: Sip, name: string, folder: Option<StructMap.Folder>, s: Walked)
    ensures AddTop(sip, name, Listings.LeftOf(folder), s).Success? <==>
            forall p :: p in Listings.FilesOn(name, folder) ==> CanFile(sip.db, p)
  {
    hide CanFile;
    Listings.LeftHolds(name, folder);
    var listing := Listings.LeftOf(folder);
    if listing.Some? {
      DirSucceedsIff(sip.db, sip.amdSecs, [name], listing.value, s);
    }
  }

  /** No error is counted exactly if every file on disk has a row, a group and a fileGrp. */
  lemma NoErrorsIff(sip: Sip)
    requires Main(sip).Success?
    ensures Main(sip).value.errors == 0 <==> forall p :: p in MetsIntegrity.Files(sip) ==> WellFiled(sip.db, p)
  {
    hide CanFile;
    hide WellFiled;
    MetsIntegrity.ErrorsCounted(sip);
    MainSucceedsIff(sip);
    hide Main;
    Listings.LeftHolds("objects", sip.objects);
    Listings.LeftHolds("metadata", sip.metadata);
    var objects, metadata := ObjectsLeft(sip), MetadataLeft(sip);
    if objects.Some? {
      NoProblemsIff(sip.db, ["objects"], objects.value);
    }
    if metadata.Some? {
      NoProblemsIff(sip.db, ["metadata"], metadata.value);
    }
  }
}
