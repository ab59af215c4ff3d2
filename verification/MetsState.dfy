/** `MetsState` and the functions of create_mets_v2.py that update it in place. */
module MetsStates {
  import opened FileSec
  import opened MetsDiv
  import opened MetsDocument
  import MetsIntegrity
  import NormativeDmdIds
  import opened Numbering
  import opened Results
  import opened Sequences
  import StructMap

  class MetsState {
    var dmdCounter: nat
    var amdCounter: nat
    var techCounter: nat
    var rightsCounter: nat
    var digiprovCounter: nat
    var dmdSecs: seq<nat>
    var amdSecs: seq<AmdSec>
    var fileGrps: map<string, seq<FileElem>>
    var fileNameToFileId: map<Path, string>
    var errorCount: nat
    /** All mets:file elements, oldest first. */
    ghost var files: seq<FileElem>

    ghost function Now(): Mets
      reads this
    {
      Mets(dmdCounter, amdCounter, techCounter, rightsCounter, digiprovCounter, dmdSecs, amdSecs, files,
           fileNameToFileId, errorCount)
    }

    /** There is one fileGrp for each use, with its files in the order they were made. */
    ghost predicate Valid()
      reads this
    {
      forall use :: (use in fileGrps <==> HasGroup(use)) && (HasGroup(use) ==> fileGrps[use] == OfUse(files, use))
    }

    constructor ()
      ensures Valid() && Now() == Mets(0, 0, 0, 0, 0, [], [], [], map[], 0)
    {
      dmdCounter, amdCounter, techCounter, rightsCounter, digiprovCounter := 0, 0, 0, 0, 0;
      dmdSecs, amdSecs, fileNameToFileId, errorCount, files := [], [], map[], 0, [];
      fileGrps := map use | use in USES :: [];
    }

    method AddDmdSec() returns (id: nat)
      modifies this`dmdCounter, this`dmdSecs
      ensures Now() == AddDmdSecs(old(Now()), 1) && id == dmdCounter
    {
      dmdCounter := dmdCounter + 1;
      dmdSecs := dmdSecs + [dmdCounter];
      id := dmdCounter;
    }

    /** `createDmdSecsFromCSVParsedMetadata`: one dmdSec for all Dublin Core columns and one for
        all others, each made when its first column is met. */
    method CreateDmdSecs(keys: seq<string>) returns (ids: seq<nat>)
      modifies this`dmdCounter, this`dmdSecs
      ensures Now() == AddDmdSecs(old(Now()), CsvCount(keys))
      ensures ids == Numbers(old(dmdCounter), dmdCounter)
    {
      ids := [];
      var dc, other := false, false;
      for i := 0 to |keys|
        invariant dc == HasDublin(keys[..i]) && other == HasOther(keys[..i])
        invariant Now() == AddDmdSecs(old(Now()), CsvCount(keys[..i]))
        invariant ids == Numbers(old(dmdCounter), dmdCounter)
      {
        HasOneMore(keys[..i], keys[i]);
        assert keys[..i + 1] == keys[..i] + [keys[i]];
        NumbersNext(old(dmdCounter), dmdCounter);
        if Dublin(keys[i]) {
          if !dc {
            dc := true;
            var id := AddDmdSec();
            ids := ids + [id];
          }
        } else if !other {
          other := true;
          var id := AddDmdSec();
          ids := ids + [id];
        }
      }
      assert keys[..|keys|] == keys;
    }

    /** `getAMDSec`: the section is returned, the caller appends it. */
    method GetAmdSec(db: Db, uuid: string, use: string) returns (amd: AmdSec)
      modifies this`amdCounter, this`techCounter, this`rightsCounter, this`digiprovCounter
      ensures Now().(amdSecs := amdSecs + [amd]) == AddAmdSec(db, uuid, use, old(Now()))
      ensures amd.id == amdCounter == old(amdCounter) + 1
    {
      amdCounter := amdCounter + 1;
      techCounter := techCounter + 1;
      var rights: seq<nat> := [];
      if use == "original" {
        for i := 0 to db.rights(uuid)
          invariant amdCounter == old(amdCounter) + 1 && techCounter == old(techCounter) + 1
          invariant rightsCounter == old(rightsCounter) + i && digiprovCounter == old(digiprovCounter)
          invariant rights == Numbers(old(rightsCounter), rightsCounter)
        {
          NumbersNext(old(rightsCounter), rightsCounter);
          rightsCounter := rightsCounter + 1;
          rights := rights + [rightsCounter];
        }
      }
      var digiprov: seq<nat> := [];
      ghost var rightsNow := rightsCounter;
      for i := 0 to db.digiprov(uuid)
        invariant amdCounter == old(amdCounter) + 1 && techCounter == old(techCounter) + 1
        invariant digiprovCounter == old(digiprovCounter) + i && rightsCounter == rightsNow
        invariant digiprov == Numbers(old(digiprovCounter), digiprovCounter)
      {
        NumbersNext(old(digiprovCounter), digiprovCounter);
        digiprovCounter := digiprovCounter + 1;
        digiprov := digiprov + [digiprovCounter];
      }
      amd := AmdSec(amdCounter, [techCounter], rights, digiprov, []);
    }

    method AppendFile(f: FileElem)
      requires Valid() && HasGroup(f.use)
      modifies this`fileGrps, this`files
      ensures Valid() && files == old(files) + [f]
    {
      fileGrps := fileGrps[f.use := fileGrps[f.use] + [f]];
      files := files + [f];
      assert files[..|files| - 1] == old(files);
    }

    /** The mets:file and amdSec of a file. */
    method FileInGroup(db: Db, includeAmdSec: bool, path: Path, row: FileRow, g: Grouping)
      requires Valid()
      modifies this
      ensures Valid() && Now() == Filed(db, includeAmdSec, path, row, g, old(Now()))
    {
      hide HasGroup;
      hide AddAmdSec;
      hide OfUse;
      if !HasGroup(g.use) {
        errorCount := errorCount + 1;
        return;
      }
      var admid := None;
      if includeAmdSec {
        var amd := GetAmdSec(db, row.uuid, g.use);
        amdSecs := amdSecs + [amd];
        admid := Some(amd.id);
      }
      AppendFile(FileElem(row.uuid, g.use, g.group, path, admid));
    }

    method DescribeFile(db: Db, path: Path, row: FileRow, g: Grouping) returns (dmdids: seq<nat>)
      requires Valid()
      modifies this
      ensures Valid() && Now() == Described(db, path, row, g, old(Now()))
      ensures dmdids == Numbers(old(dmdCounter), dmdCounter)
    {
      fileNameToFileId := fileNameToFileId[path := row.uuid];
      dmdids := [];
      if g.described {
        dmdids := CreateDmdSecs(CsvKeys(db, row.original));
      } else {
        assert dmdSecs + Numbers(dmdCounter, dmdCounter) == dmdSecs;
      }
    }

    /** The file branch of the loop in `createFileSec`; `divs` has the file's div, if it has one. */
    method CreateFile(db: Db, includeAmdSec: bool, path: Path) returns (r: Result<seq<Div>>)
      requires Valid()
      modifies this
      ensures r.Success? <==> AddFile(db, includeAmdSec, path, Walked(old(Now()), [])).Success?
      ensures r.Success? ==>
                Valid() && AddFile(db, includeAmdSec, path, Walked(old(Now()), [])) == Success(Walked(Now(), r.value))
    {
      hide HasGroup;
      hide OfUse;
      hide Filed;
      hide GroupOf;
      hide Find;
      var found := Find(db.rows, path);
      if found.Missing? {
        errorCount := errorCount + 1;
        return Success([]);
      } else if found.Several? {
        return Failure("MultipleObjectsReturned");
      }
      var row := found.row;
      var grouping := GroupOf(db, row, path);
      if grouping.Failure? {
        return Failure(grouping.message);
      }
      var g := grouping.value;
      var dmdids := DescribeFile(db, path, row, g);
      if g.group == "" {
        errorCount := errorCount + 1;
      }
      assert Now() == Checked(g, Described(db, path, row, g, old(Now())));
      FileInGroup(db, includeAmdSec, path, row, g);
      var d := Div(false, if row.title == "" then Name(path) else row.title, dmdids, Some(row.uuid), []);
      NothingBefore([d]);
      r := Success([d]);
    }

    /** `create_object_metadata`, where there is something to refer to. */
    method AddObjectMetadata(sources: nat) returns (admid: nat)
      requires sources > 0
      modifies this`amdCounter, this`amdSecs
      ensures Now() == MetsDocument.AddObjectMetadata(old(Now()), sources) && admid == old(amdCounter) + 1
    {
      amdCounter := amdCounter + 1;
      admid := amdCounter;
      var ids: seq<nat> := [];
      for i := 0 to sources
        invariant ids == Numbers(0, i) && amdCounter == old(amdCounter) + 1 && amdSecs == old(amdSecs)
      {
        NumbersNext(0, i);
        ids := ids + [i + 1];
      }
      amdSecs := amdSecs + [AmdSec(admid, [], [], [], ids)];
    }

    /** The fileSec: the groups that have files, in the fixed order of uses. */
    method FileSecElems() returns (r: seq<FileElem>)
      requires Valid()
      ensures r == Grouped(files, USES)
    {
      r := [];
      for i := 0 to |USES|
        invariant r == Grouped(files, USES[..i])
      {
        assert USES[..i + 1][..i] == USES[..i];
        assert HasGroup(USES[i]);
        if |fileGrps[USES[i]]| > 0 {
          r := r + fileGrps[USES[i]];
        }
      }
      assert USES[..|USES|] == USES;
    }

    /** `createFileSec` for a directory that exists. */
    method CreateFileSec(db: Db, includeAmdSec: bool, path: Path, listing: Listing) returns (r: Result<Div>)
      requires Valid()
      modifies this
      ensures r.Success? <==> AddDir(db, includeAmdSec, path, listing, Walked(old(Now()), [])).Success?
      ensures r.Success? ==>
                && Valid()
                && AddDir(db, includeAmdSec, path, listing, Walked(old(Now()), [])) == Success(Walked(Now(), [r.value]))
      decreases listing
    {
      var dmdids: seq<nat> := [];
      if path in db.dirs {
        var id := AddDmdSec();
        dmdids := [id];
      }
      assert dmdids == Numbers(old(dmdCounter), dmdCounter);
      ghost var mid := dmdCounter;
      var csv := CreateDmdSecs(CsvKeys(db, path));
      dmdids := dmdids + csv;
      NumbersJoin(old(dmdCounter), mid, dmdCounter);
      assert Now() == AddDmdSecs(old(Now()), DirDmdSecs(db, path));
      ghost var start := Walked(Now(), []);
      var divs: seq<Div> := [];
      var items := listing;
      while !items.End?
        invariant Valid()
        invariant items == listing || items < listing
        invariant AddItems(db, includeAmdSec, path, listing, start)
               == AddItems(db, includeAmdSec, path, items, Walked(Now(), divs))
        decreases items
      {
        ghost var before := Walked(Now(), divs);
        if items.OnDir? {
          var sub := CreateFileSec(db, includeAmdSec, path + [items.name], items.sub);
          DirAfter(db, includeAmdSec, path + [items.name], items.sub, before);
          if sub.Failure? {
            return Failure(sub.message);
          }
          divs := divs + [sub.value];
        } else {
          var file := CreateFile(db, includeAmdSec, path + [items.name]);
          FileAfter(db, includeAmdSec, path + [items.name], before);
          if file.Failure? {
            return Failure(file.message);
          }
          divs := divs + file.value;
        }
        items := items.rest;
      }
      var d := Div(true, Name(path), dmdids, None, divs);
      NothingBefore([d]);
      r := Success(d);
    }
  }

  /** `get_normative_structmap`, which shares the dmdSec counter and list. */
  method CreateNormative(sip: Sip, state: MetsState) returns (root: Div)
    requires state.Valid() && state.Now() == Mets(0, 0, 0, 0, 0, [], [], [], map[], 0)
    modifies state`dmdCounter, state`dmdSecs
    ensures Normative(sip).Success? && root == Normative(sip).value.root
    ensures state.Now() == Begin(Normative(sip).value)
  {
    MetsIntegrity.NormativeBuilt(sip);
    var builder := new StructMap.Builder(Div(true, sip.name, [], None, []), 0, []);
    if sip.createNormative {
      var walk := if sip.objects.Some? then StructMap.Walk(["objects"], sip.objects.value) else [];
      var items := StructMap.GetPathsAsFsItems(walk);
      var ok := builder.AddNormativeDivs(items);
      state.dmdCounter, state.dmdSecs := builder.dmdCounter, builder.dmdSecs;
    }
    root := builder.root;
  }

  /** `createFileSec` for one of the two top directories, which may not exist. */
  method CreateTop(sip: Sip, state: MetsState, name: string, listing: Option<Listing>, divs: seq<Div>)
    returns (r: Result<seq<Div>>)
    requires state.Valid()
    modifies state
    ensures r.Success? <==> AddTop(sip, name, listing, Walked(old(state.Now()), divs)).Success?
    ensures r.Success? ==> state.Valid()
    ensures r.Success? ==>
              AddTop(sip, name, listing, Walked(old(state.Now()), divs)) == Success(Walked(state.Now(), r.value))
  {
    if listing.None? {
      return Success(divs);
    }
    DirAfter(sip.db, sip.amdSecs, [name], listing.value, Walked(state.Now(), divs));
    var d := state.CreateFileSec(sip.db, sip.amdSecs, [name], listing.value);
    if d.Failure? {
      return Failure(d.message);
    }
    r := Success(divs + [d.value]);
  }

  /** The normative structMap gets the DMDIDs of the physical one, which is complete by now. */
  method CompleteNormative(sip: Sip, normative: Div, root: Div) returns (r: Option<seq<NormativeDmdIds.Element>>)
    ensures r == if sip.createNormative
                 then Some(NormativeDmdIds.CopyAll(NormativeDmdIds.Elements([normative], []),
                                                   NormativeDmdIds.Elements([root], [])))
                 else None
  {
    if !sip.createNormative {
      return None;
    }
    var structMap := new NormativeDmdIds.NormativeStructMap(NormativeDmdIds.Elements([normative], []));
    structMap.UpdateDmdIds(NormativeDmdIds.Elements([root], []));
    r := Some(structMap.elements);
  }

  /** The ingest branch of `main`, up to the document handed to metsrw. */
  method CreateMets(sip: Sip) returns (r: Result<Document>)
    ensures r.Success? <==> Main(sip).Success?
    ensures r.Success? ==> r == Main(sip)
  {
    hide AddTop;
    hide Normative;
    hide Grouped;
    hide ObjectsLeft;
    hide MetadataLeft;
    hide NormativeDmdIds.CopyAll;
    hide NormativeDmdIds.Elements;
    var state := new MetsState();
    var normative := CreateNormative(sip, state);
    ghost var n := Normative(sip).value;
    var rootDmdIds: seq<nat> := [];
    if sip.hasRow {
      var id := state.AddDmdSec();
      rootDmdIds := [id];
    }
    var objects := CreateTop(sip, state, "objects", ObjectsLeft(sip), []);
    if objects.Failure? {
      return Failure(objects.message);
    }
    ghost var u := Walked(state.Now(), objects.value);
    if sip.sources > 0 && ObjectsLeft(sip).None? {
      return Failure("AttributeError");
    }
    var objectsAdmid := None;
    if sip.sources > 0 {
      var admid := state.AddObjectMetadata(sip.sources);
      objectsAdmid := Some(admid);
    }
    var metadata := CreateTop(sip, state, "metadata", MetadataLeft(sip), objects.value);
    if metadata.Failure? {
      return Failure(metadata.message);
    }
    ghost var w := Walked(state.Now(), metadata.value);
    assert WalkMetadata(sip, u) == Success(w);
    var root := Div(true, sip.name, rootDmdIds, None, metadata.value);
    var dmdSecs := state.dmdSecs;
    NothingBefore(dmdSecs);
    if sip.dublinCore {
      var id := state.dmdCounter + 1;
      dmdSecs := [id] + dmdSecs;
      if ObjectsLeft(sip).Some? {
        var divs := metadata.value;
        root := root.(children := divs[0 := divs[0].(dmdids := [id])]);
      } else {
        root := root.(dmdids := [id]);
      }
    }
    assert root == RootDiv(sip, n, w);
    var elements := CompleteNormative(sip, normative, root);
    var fileSec := state.FileSecElems();
    r := Success(Document(dmdSecs, state.amdSecs, fileSec, if sip.createNormative then 2 else 1, root, objectsAdmid,
                          elements, state.fileNameToFileId, state.errorCount));
  }

  lemma HasOneMore(keys: seq<string>, key: string)
    ensures HasDublin(keys + [key]) <==> HasDublin(keys) || Dublin(key)
    ensures HasOther(keys + [key]) <==> HasOther(keys) || !Dublin(key)
  {
    assert key in keys + [key];
    assert forall k :: k in keys ==> k in keys + [key];
  }

  /** What is added does not depend on the divs already there. */
  lemma FileAfter(db: Db, amdSecs: bool, path: Path, s: Walked)
    ensures var r := AddFile(db, amdSecs, path, Walked(s.mets, []));
            && (AddFile(db, amdSecs, path, s).Success? <==> r.Success?)
            && (r.Success? ==> AddFile(db, amdSecs, path, s) == Success(Walked(r.value.mets, s.divs + r.value.divs)))
  {
    assert s.divs + [] == s.divs;
    var r := AddFile(db, amdSecs, path, Walked(s.mets, []));
    if r.Success? && r.value.divs != [] {
      NothingBefore(r.value.divs);
      var row := Find(db.rows, path).row;
      NothingBefore([FileDiv(db, path, row, GroupOf(db, row, path).value, s.mets)]);
    }
  }

  lemma DirAfter(db: Db, amdSecs: bool, path: Path, listing: Listing, s: Walked)
    ensures var r := AddDir(db, amdSecs, path, listing, Walked(s.mets, []));
            && (AddDir(db, amdSecs, path, listing, s).Success? <==> r.Success?)
            && (r.Success? ==> AddDir(db, amdSecs, path, listing, s) == Success(Walked(r.value.mets, s.divs + r.value.divs)))
  {
    var t := AddItems(db, amdSecs, path, listing, Walked(AddDmdSecs(s.mets, DirDmdSecs(db, path)), []));
    if t.Success? {
      NothingBefore([DirDiv(db, path, s.mets, t.value.divs)]);
    }
  }
}
