/** A document in which a DMDID is not copied to the normative structMap, and one in which a derived file
    is not in the group of its source. */
module MetsExamples {
  import EmptyDirectories
  import opened FileSec
  import opened FileSecElements
  import opened FileSecFiles
  import Listings
  import opened MetsDiv
  import opened MetsDocument
  import opened MetsFiles
  import MetsIntegrity
  import opened MetsReferences
  import opened NormativeDmdIds
  import opened Numbering
  import opened Results
  import opened Sequences
  import StructMap
  import StructMapTree

  /** A label that is no name: no element has its path. */
  lemma LabelWithoutElement(sip: Sip)
    requires sip.name == "s" && sip.objects == Some(StructMap.Folder(["a.txt"], StructMap.NoDirs))
    ensures !PathExists(sip, ["s", "objects", "A text"])
  {
    var x := ["objects", "A text"];
    JoinedBelow("objects", ["A text"]);
    JoinedBelow("A text", []);
    assert ["objects"] + ["A text"] == x && ["A text"] + [] == ["A text"] && ["s"] + x == ["s", "objects", "A text"];
    TopIsNotBelow("s", x);
    forall i | 0 <= i < |Items(sip)| ensures Key(["s"] + Items(sip)[i].path) != Key(["s"] + x) {
      var path := Items(sip)[i].path;
      assert IsItem(Items(sip), path);
      EntriesAreItems(sip, path);
      LonePath(sip, path);
      JoinedBelow("objects", path[1..]);
      assert path == ["objects"] + path[1..];
      JoinedBelow("a.txt", []);
      assert ["a.txt"] + [] == ["a.txt"];
      if Key(["s"] + path) == Key(["s"] + x) {
        SameTop("s", path, x);
      }
    }
  }

  lemma LonePath(sip: Sip, path: Path)
    requires sip.objects == Some(StructMap.Folder(["a.txt"], StructMap.NoDirs))
    requires path in Listings.DirsOn("objects", sip.objects) || path in Listings.FilesOn("objects", sip.objects)
    ensures path == ["objects"] || path == ["objects", "a.txt"]
  {
    if path != ["objects"] {
      var f :| f in ["a.txt"] && path == StructMapTree.Join(["objects"], f);
    }
  }

  /** A SIP of one file with a column of Dublin Core, labelled as given. */
  function LabelledSip(title: string): Sip {
    var path := ["objects", "a.txt"];
    Sip("s", Db([FileRow("u", path, true, "original", title, "", path)], {}, map[path := ["dc.title"]], map[], map[],
                _ => 0, _ => 0),
        false, true, false, Some(StructMap.Folder(["a.txt"], StructMap.NoDirs)), None, 0, false)
  }

  lemma LoneListing(title: string)
    ensures ObjectsLeft(LabelledSip(title)) == Some(OnFile("a.txt", End)) && MetadataLeft(LabelledSip(title)) == None
  {
    var folder := StructMap.Folder(["a.txt"], StructMap.NoDirs);
    assert folder.files[1..] == [] && Listings.WithFiles([], End) == End;
    assert Listings.ListingOf(folder) == OnFile("a.txt", End);
  }

  lemma NoEmptyOnes(title: string, n: StructMap.State)
    requires Normative(LabelledSip(title)) == Success(n)
    ensures n.dmdCounter == 0
  {
    EmptiesFirst(LabelledSip(title), n);
  }

  lemma OneColumn()
    ensures CsvCount(["dc.title"]) == 1
  {
    assert "dc.title" in ["dc.title"] && Dublin("dc.title");
    assert HasDublin(["dc.title"]) && !HasOther(["dc.title"]);
  }

  /** The walk gives the file the dmdSec 1. */
  lemma LoneFile(title: string, s: Mets)
    requires s.dmd == 0
    ensures var sip, path := LabelledSip(title), ["objects", "a.txt"];
            var row := sip.db.rows[0];
            var r := AddFile(sip.db, false, path, Walked(s, []));
            r.Success? && r.value.divs == [Div(false, Title(path, row), [1], Some("u"), [])]
  {
    var sip, path := LabelledSip(title), ["objects", "a.txt"];
    var row := sip.db.rows[0];
    assert sip.db.rows[..0] == [] && Find([], path) == Missing;
    assert Find(sip.db.rows, path) == One(row);
    OneColumn();
    var g := Grouping("original", "Group-u", true);
    assert "Group-" + "u" == "Group-u" && row.uuid == "u" && row.groupUuid == "" && row.use == "original";
    assert GroupOf(sip.db, row, path) == Success(g);
    assert DescribedBy(sip.db, row, g) == 1;
    assert Numbers(0, 1) == [1];
    NothingBefore([FileDiv(sip.db, path, row, g, s)]);
  }

  lemma LoneWalk(title: string, n: StructMap.State)
    requires Normative(LabelledSip(title)) == Success(n)
    ensures var sip := LabelledSip(title);
            var file := Div(false, Title(["objects", "a.txt"], sip.db.rows[0]), [1], Some("u"), []);
            var r := WalkObjects(sip, n);
            r.Success? && r.value.divs == [Div(true, "objects", [], None, [file])]
  {
    var sip := LabelledSip(title);
    LoneListing(title);
    NoEmptyOnes(title, n);
    var s := Begin(n);
    hide Begin;
    assert ["objects"] + ["a.txt"] == ["objects", "a.txt"];
    assert CsvKeys(sip.db, ["objects"]) == [] && CsvCount([]) == 0 && DirDmdSecs(sip.db, ["objects"]) == 0;
    var t := AddDmdSecs(s, 0);
    LoneFile(title, t);
    var w := AddFile(sip.db, false, ["objects", "a.txt"], Walked(t, [])).value;
    assert AddItems(sip.db, false, ["objects"], OnFile("a.txt", End), Walked(t, [])) == Success(w);
    NothingBefore([DirDiv(sip.db, ["objects"], s, w.divs)]);
  }

  lemma LoneDocument(title: string)
    ensures var sip := LabelledSip(title);
            && Main(sip).Success?
            && Element(["s", "objects", Title(["objects", "a.txt"], sip.db.rows[0])], false, [1])
               in Elements([Main(sip).value.root], [])
  {
    var sip := LabelledSip(title);
    MetsIntegrity.NormativeBuilt(sip);
    var n := Normative(sip).value;
    LoneListing(title);
    LoneWalk(title, n);
    var u := WalkObjects(sip, n).value;
    assert WalkMetadata(sip, u) == Success(u);
    var root := Main(sip).value.root;
    var file := Div(false, Title(["objects", "a.txt"], sip.db.rows[0]), [1], Some("u"), []);
    var objects := Div(true, "objects", [], None, [file]);
    assert root == Div(true, "s", [], None, [objects]);
    assert [] + ["s"] == ["s"] && ["s"] + ["objects"] == ["s", "objects"];
    assert ["s", "objects"] + [file.title] == ["s", "objects", file.title];
    ElementsOfOne(root, []);
    ElementsOfOne(objects, ["s"]);
    ElementsOfOne(file, ["s", "objects"]);
  }

  /** The dmdSec of a file labelled "A text" is referred to once: its DMDID is not copied. Without a
      label it is referred to twice. */
  lemma LabelDecides()
    ensures Main(LabelledSip("A text")).Success? && multiset(AllRefs(Main(LabelledSip("A text")).value))[1] == 1
    ensures Main(LabelledSip("")).Success? && multiset(AllRefs(Main(LabelledSip("")).value))[1] == 2
  {
    hide Elements;
    hide AllRefs;
    hide Main;
    hide PathExists;
    LoneDocument("A text");
    LabelWithoutElement(LabelledSip("A text"));
    PhysicalUsed(LabelledSip("A text"), Element(["s", "objects", "A text"], false, [1]), 1);
    LoneDocument("");
    NameIsPath();
    PhysicalUsed(LabelledSip(""), Element(["s", "objects", "a.txt"], false, [1]), 1);
  }

  lemma NameIsPath()
    ensures PathExists(LabelledSip(""), ["s", "objects", "a.txt"])
  {
    var sip := LabelledSip("");
    assert "a.txt" in sip.objects.value.files;
    assert StructMapTree.Join(["objects"], "a.txt") in EmptyDirectories.FilesHere(["objects"], sip.objects.value.files);
    assert StructMapTree.Join(["objects"], "a.txt") == ["objects", "a.txt"];
    EntryExists(sip, ["objects", "a.txt"]);
    assert ["s"] + ["objects", "a.txt"] == ["s", "objects", "a.txt"];
  }

  /* ----- a source in a file group ----- */

  const SOURCE: Path := ["objects", "a"]
  const DERIVATIVE: Path := ["objects", "b"]
  const SOURCE_ROW := FileRow("s", SOURCE, true, "original", "", "g", SOURCE)
  const DERIVED_ROW := FileRow("d", DERIVATIVE, true, "preservation", "", "", DERIVATIVE)

  /** A file in the file group g, and a preservation file derived from it. */
  function GroupedSip(): Sip {
    Sip("s", Db([SOURCE_ROW, DERIVED_ROW], {}, map[], map["d" := "s"], map[], _ => 0, _ => 0),
        false, false, false, Some(StructMap.Folder(["a", "b"], StructMap.NoDirs)), None, 0, false)
  }

  lemma GroupedFiles(p: Path)
    ensures p in MetsIntegrity.Files(GroupedSip()) <==> p == SOURCE || p == DERIVATIVE
  {
    assert StructMapTree.Join(["objects"], "a") == SOURCE && StructMapTree.Join(["objects"], "b") == DERIVATIVE;
    assert SOURCE in EmptyDirectories.FilesHere(["objects"], ["a", "b"]) by {
      assert "a" in ["a", "b"];
    }
    assert DERIVATIVE in EmptyDirectories.FilesHere(["objects"], ["a", "b"]) by {
      assert "b" in ["a", "b"];
    }
    if p in EmptyDirectories.FilesHere(["objects"], ["a", "b"]) {
      var x :| x in ["a", "b"] && p == StructMapTree.Join(["objects"], x);
    }
  }

  lemma GroupedRows(rows: seq<FileRow>)
    requires rows == [SOURCE_ROW, DERIVED_ROW]
    ensures forall row :: SoleRow(rows, SOURCE, row) <==> row == SOURCE_ROW
    ensures forall row :: SoleRow(rows, DERIVATIVE, row) <==> row == DERIVED_ROW
    ensures forall i :: IsLive(rows, SOURCE, i) <==> i == 0
    ensures forall i :: IsLive(rows, DERIVATIVE, i) <==> i == 1
  {
    assert "a"[0] != "b"[0] && SOURCE[1] != DERIVATIVE[1];
    assert IsLive(rows, SOURCE, 0) && IsLive(rows, DERIVATIVE, 1);
  }

  lemma GroupedHeads(db: Db)
    requires db == GroupedSip().db
    ensures Heads(db, SOURCE, SOURCE_ROW, "g") && Heads(db, DERIVATIVE, DERIVED_ROW, "s")
    ensures HasGroup(GroupUse(SOURCE_ROW)) && HasGroup(GroupUse(DERIVED_ROW))
  {
    assert USES[0] == "original" && USES[2] == "preservation";
    assert "preservation" in DERIVED;
  }

  lemma GroupedFiled(db: Db)
    requires db == GroupedSip().db
    ensures CanFile(db, SOURCE) && CanFile(db, DERIVATIVE) && WellFiled(db, SOURCE) && WellFiled(db, DERIVATIVE)
  {
    GroupedRows(db.rows);
    GroupedHeads(db);
    hide SoleRow;
    hide Heads;
    hide GroupUse;
    hide HasGroup;
    hide IsLive;
  }

  /** Two files whose groups are named after g and h. */
  lemma TwoGroups(sip: Sip, p: Path, q: Path, r: FileRow, s: FileRow, g: string, h: string)
    returns (x: FileElem, y: FileElem)
    requires MetsIntegrity.ValidSip(sip) && sip.sources == 0
    requires forall t :: t in MetsIntegrity.Files(sip) <==> t == p || t == q
    requires CanFile(sip.db, p) && CanFile(sip.db, q) && WellFiled(sip.db, p) && WellFiled(sip.db, q)
    requires SoleRow(sip.db.rows, p, r) && SoleRow(sip.db.rows, q, s)
    requires Heads(sip.db, p, r, g) && Heads(sip.db, q, s, h)
    ensures Main(sip).Success? && Main(sip).value.errors == 0
    ensures x in Main(sip).value.fileSec && x.uuid == r.uuid && x.group == "Group-" + g
    ensures y in Main(sip).value.fileSec && y.uuid == s.uuid && y.group == "Group-" + h
  {
    hide MetsIntegrity.Files;
    hide MetsIntegrity.ValidSip;
    hide CanFile;
    hide WellFiled;
    hide SoleRow;
    hide Heads;
    hide Main;
    hide GroupUse;
    MainSucceedsIff(sip);
    NoErrorsIff(sip);
    x := FileAt(sip, p);
    y := FileAt(sip, q);
    GroupNamed(sip, x, r);
    GroupNamed(sip, y, s);
  }

  lemma GroupedIsValid()
    ensures MetsIntegrity.ValidSip(GroupedSip())
  {
    var sip := GroupedSip();
    assert "s"[0] != "d"[0] && SOURCE_ROW.uuid != DERIVED_ROW.uuid;
    assert DistinctUuids(sip.db.rows);
    assert "a"[0] != "b"[0] && Distinct(["a", "b"]);
    assert Listings.ValidFolder(sip.objects.value);
  }

  /** The mets:file of a derived file need not have the GROUPID of its source's. */
  lemma DerivedInOtherGroup() returns (f: FileElem, source: FileElem)
    ensures Main(GroupedSip()).Success? && Main(GroupedSip()).value.errors == 0
    ensures f in Main(GroupedSip()).value.fileSec && source in Main(GroupedSip()).value.fileSec
    ensures f.uuid in GroupedSip().db.derivations && GroupedSip().db.derivations[f.uuid] == source.uuid
    ensures f.group == "Group-s" && source.group == "Group-g"
  {
    hide Main;
    hide CanFile;
    hide WellFiled;
    hide SoleRow;
    hide Heads;
    hide MetsIntegrity.ValidSip;
    hide MetsIntegrity.Files;
    var sip := GroupedSip();
    GroupedIsValid();
    GroupedFiled(sip.db);
    GroupedRows(sip.db.rows);
    GroupedHeads(sip.db);
    forall p ensures p in MetsIntegrity.Files(sip) <==> p == SOURCE || p == DERIVATIVE {
      GroupedFiles(p);
    }
    assert "Group-" + "g" == "Group-g" && "Group-" + "s" == "Group-s";
    source, f := TwoGroups(sip, SOURCE, DERIVATIVE, SOURCE_ROW, DERIVED_ROW, "g", "s");
  }
}
