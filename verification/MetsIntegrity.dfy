/** Referential integrity of the METS document: unique IDs, references that resolve, one fptr and
    one mets:file for every file on disk. */
module MetsIntegrity {
  import opened FileSec
  import opened FileSecFiles
  import opened FileSecNumbers
  import Listings
  import opened MetsDiv
  import opened MetsDocument
  import MetsIds
  import opened Numbering
  import opened Results
  import opened Sequences
  import StructMap
  import StructMapTree

  lemma RootRefs(name: string, children: seq<Div>)
    ensures DmdRefs([Div(true, name, [], None, children)]) == DmdRefs(children)
  {
    RefsOfOne(Div(true, name, [], None, children));
    NothingBefore(DmdRefs(children));
  }

  lemma TreeRefs(name: string, folder: StructMap.Folder, root: Div, count: nat)
    requires root == Div(true, name, [], None, [StructMapTree.DirDiv(["objects"], folder, 0)])
    requires count == StructMapTree.Count(["objects"], folder)
    ensures DmdRefs([root]) == Numbers(0, count)
  {
    hide DmdRefs;
    hide StructMapTree.DirDiv;
    hide StructMapTree.Count;
    hide Numbers;
    StructMapTree.ReferencesResolve(["objects"], folder, 0);
    RootRefs(name, [StructMapTree.DirDiv(["objects"], folder, 0)]);
  }

  /** The normative structMap can always be built: it is the tree of the objects directory, and
      refers to each dmdSec made for it once. */
  lemma NormativeBuilt(sip: Sip)
    ensures Normative(sip).Success?
    ensures var n := Normative(sip).value;
            n.dmdSecs == Numbers(0, n.dmdCounter) && DmdRefs([n.root]) == Numbers(0, n.dmdCounter)
    ensures Normative(sip).value.root ==
            Div(true, sip.name, [], None,
                if sip.createNormative && sip.objects.Some?
                then [StructMapTree.DirDiv(["objects"], sip.objects.value, 0)] else [])
  {
    hide DmdRefs;
    hide StructMapTree.DirDiv;
    hide StructMapTree.Count;
    hide Numbers;
    if sip.createNormative && sip.objects.Some? {
      var folder := sip.objects.value;
      StructMapTree.StructMapIsTree(sip.name, folder, 0, []);
      TreeRefs(sip.name, folder, Normative(sip).value.root, Normative(sip).value.dmdCounter);
      NothingBefore(Numbers(0, StructMapTree.Count(["objects"], folder)));
    } else {
      NoNormative(sip);
    }
  }

  lemma NoNormative(sip: Sip)
    requires !sip.createNormative || sip.objects.None?
    ensures Normative(sip).Success? && Normative(sip).value.dmdSecs == [] == Numbers(0, 0)
    ensures Normative(sip).value.dmdCounter == 0 && Normative(sip).value.root == Div(true, sip.name, [], None, [])
    ensures DmdRefs([Normative(sip).value.root]) == []
  {
    RootRefs(sip.name, []);
    NoRefs();
  }

  lemma BeginNumbered(n: StructMap.State)
    requires n.dmdSecs == Numbers(0, n.dmdCounter)
    ensures WellNumbered(Begin(n)) && WellNumbered(AddDmdSecs(Begin(n), 1))
  {
    assert forall part :: Gather(part, Begin(n).amdSecs) == Numbers(0, Counter(Begin(n), part));
    AddDmdSecsNumbered(Begin(n), 1);
  }

  function TopUuids(sip: Sip, name: string, listing: Option<Listing>): seq<string> {
    if listing.None? then [] else RowUuids(sip.db, [name], listing.value)
  }

  function TopProblems(sip: Sip, name: string, listing: Option<Listing>): nat {
    if listing.None? then 0 else Problems(sip.db, [name], listing.value)
  }

  lemma TopGrows(sip: Sip, name: string, listing: Option<Listing>, s: Walked)
    requires WellNumbered(s.mets) && AddTop(sip, name, listing, s).Success?
    ensures Grows(sip.amdSecs, s, AddTop(sip, name, listing, s).value, TopUuids(sip, name, listing),
                  TopProblems(sip, name, listing))
  {
    if listing.None? {
      GrowsNothing(sip.amdSecs, s);
    } else {
      DirGrows(sip.db, sip.amdSecs, [name], listing.value, s);
    }
  }

  lemma ObjectMetadataNumbered(s: Mets, sources: nat)
    requires WellNumbered(s) && Gather(Sources, s.amdSecs) == []
    ensures WellNumbered(AddObjectMetadata(s, sources))
  {
    if sources > 0 {
      var t := AddObjectMetadata(s, sources);
      var a := t.amdSecs[|s.amdSecs|];
      forall part ensures Gather(part, t.amdSecs) == Numbers(0, Counter(t, part)) {
        GatherSnoc(part, s.amdSecs, a);
        NumbersNext(0, s.amd);
      }
    }
  }

  /** Every number lies between 1 and the counter. */
  ghost predicate Within(refs: seq<nat>, counter: nat) {
    forall r :: r in refs ==> 1 <= r <= counter
  }

  lemma WithinGrown(amdSecs: bool, s: Mets, t: Mets, uuids: seq<string>, problems: nat)
    requires FilesAdded(amdSecs, s, t, uuids, problems) && Within(AdmRefs(s.files), s.amd)
    ensures Within(AdmRefs(t.files), t.amd)
  {
  }

  /** Both walks of a run that raises nothing. */
  ghost predicate Ran(sip: Sip, n: StructMap.State, u: Walked, w: Walked) {
    && n.dmdSecs == Numbers(0, n.dmdCounter)
    && WalkObjects(sip, n) == Success(u) && WalkMetadata(sip, u) == Success(w)
  }

  lemma Walks(sip: Sip, n: StructMap.State, u: Walked, w: Walked)
    requires Ran(sip, n, u, w)
    ensures var s := Begin(n);
            var t := if sip.hasRow then AddDmdSecs(s, 1) else s;
            var v := u.(mets := AddObjectMetadata(u.mets, sip.sources));
            && Grows(sip.amdSecs, Walked(t, []), u, TopUuids(sip, "objects", ObjectsLeft(sip)),
                     TopProblems(sip, "objects", ObjectsLeft(sip)))
            && Grows(sip.amdSecs, v, w, TopUuids(sip, "metadata", MetadataLeft(sip)),
                     TopProblems(sip, "metadata", MetadataLeft(sip)))
  {
    BeginNumbered(n);
    var t := if sip.hasRow then AddDmdSecs(Begin(n), 1) else Begin(n);
    TopGrows(sip, "objects", ObjectsLeft(sip), Walked(t, []));
    ObjectMetadataNumbered(u.mets, sip.sources);
    TopGrows(sip, "metadata", MetadataLeft(sip), u.(mets := AddObjectMetadata(u.mets, sip.sources)));
  }

  function AllUuids(sip: Sip): seq<string> {
    TopUuids(sip, "objects", ObjectsLeft(sip)) + TopUuids(sip, "metadata", MetadataLeft(sip))
  }

  function AllProblems(sip: Sip): nat {
    TopProblems(sip, "objects", ObjectsLeft(sip)) + TopProblems(sip, "metadata", MetadataLeft(sip))
  }

  /** The walks refer to every dmdSec they make, and emit the files in order. */
  lemma WalksEmit(sip: Sip, n: StructMap.State, u: Walked, w: Walked)
    requires Ran(sip, n, u, w)
    ensures var c := n.dmdCounter + (if sip.hasRow then 1 else 0);
            c <= w.mets.dmd && DmdRefs(w.divs) == Numbers(c, w.mets.dmd)
    ensures Fptrs(w.divs) == AllUuids(sip)
    ensures WellNumbered(w.mets) && w.mets.errors == AllProblems(sip)
    ensures u.mets.amd <= w.mets.amd && (sip.sources > 0 ==> u.mets.amd + 1 <= w.mets.amd)
  {
    Walks(sip, n, u, w);
    NoRefs();
    var c := n.dmdCounter + (if sip.hasRow then 1 else 0);
    NothingBefore(Numbers(c, u.mets.dmd));
    NothingBefore(TopUuids(sip, "objects", ObjectsLeft(sip)));
    NumbersJoin(c, u.mets.dmd, w.mets.dmd);
  }

  lemma WalksFile(sip: Sip, n: StructMap.State, u: Walked, w: Walked)
    requires Ran(sip, n, u, w)
    ensures AllProblems(sip) == 0 ==> Uuids(w.mets.files) == AllUuids(sip)
    ensures Within(AdmRefs(w.mets.files), w.mets.amd)
    ensures forall f :: f in w.mets.files ==> HasGroup(f.use)
  {
    Walks(sip, n, u, w);
    NothingBefore(TopUuids(sip, "objects", ObjectsLeft(sip)));
    var t := if sip.hasRow then AddDmdSecs(Begin(n), 1) else Begin(n);
    WithinGrown(sip.amdSecs, t, u.mets, TopUuids(sip, "objects", ObjectsLeft(sip)),
                TopProblems(sip, "objects", ObjectsLeft(sip)));
    WithinGrown(sip.amdSecs, AddObjectMetadata(u.mets, sip.sources), w.mets,
                TopUuids(sip, "metadata", MetadataLeft(sip)), TopProblems(sip, "metadata", MetadataLeft(sip)));
  }

  /* ----- files ----- */

  ghost predicate ValidSip(sip: Sip) {
    && DistinctUuids(sip.db.rows)
    && (sip.objects.Some? ==> Listings.ValidFolder(sip.objects.value))
    && (sip.metadata.Some? ==> Listings.ValidFolder(sip.metadata.value))
  }

  /** The files below objects and metadata, in the SIP as it was before any directory was deleted. */
  function Files(sip: Sip): set<Path> {
    Listings.FilesOn("objects", sip.objects) + Listings.FilesOn("metadata", sip.metadata)
  }

  /** The walks meet these files and no other. */
  lemma WalkedFiles(sip: Sip, p: Path)
    ensures p in Files(sip) <==>
            (ObjectsLeft(sip).Some? && p in FilePaths(["objects"], ObjectsLeft(sip).value))
            || (MetadataLeft(sip).Some? && p in FilePaths(["metadata"], MetadataLeft(sip).value))
  {
    Listings.LeftHolds("objects", sip.objects);
    Listings.LeftHolds("metadata", sip.metadata);
  }

  lemma TopOf(name: string, names: set<string>, p: Path)
    requires Under([name], names, p)
    ensures p != [] && p[0] == name
  {
    assert p[..1][0] == name;
  }

  lemma TopUuidHasPath(sip: Sip, name: string, listing: Option<Listing>, u: string) returns (p: Path)
    requires u in TopUuids(sip, name, listing)
    ensures u in UuidAt(sip.db, p) && p != [] && p[0] == name
  {
    p := UuidHasPath(sip.db, [name], listing.value, u);
    PathsUnder([name], listing.value, p);
    TopOf(name, Names(listing.value), p);
  }

  lemma AllUuidsDistinct(sip: Sip)
    requires ValidSip(sip)
    ensures Distinct(AllUuids(sip))
  {
    var a, b := TopUuids(sip, "objects", ObjectsLeft(sip)), TopUuids(sip, "metadata", MetadataLeft(sip));
    if ObjectsLeft(sip).Some? {
      Listings.LeftHolds("objects", sip.objects);
      RowUuidsDistinct(sip.db, ["objects"], ObjectsLeft(sip).value);
    }
    if MetadataLeft(sip).Some? {
      Listings.LeftHolds("metadata", sip.metadata);
      RowUuidsDistinct(sip.db, ["metadata"], MetadataLeft(sip).value);
    }
    forall x | x in a ensures x !in b {
      if x in b {
        var p := TopUuidHasPath(sip, "objects", ObjectsLeft(sip), x);
        var q := TopUuidHasPath(sip, "metadata", MetadataLeft(sip), x);
        UuidsDiffer(sip.db, p, q, x);
      }
    }
    DistinctConcat(a, b);
  }

  /** Without problems, the files on disk and the UUIDs emitted correspond one to one. */
  lemma FilesEmitted(sip: Sip, n: StructMap.State, u: Walked, w: Walked, p: Path)
    requires Ran(sip, n, u, w) && AllProblems(sip) == 0 && p in Files(sip)
    ensures Find(sip.db.rows, p).One? && Find(sip.db.rows, p).row.uuid in AllUuids(sip)
  {
    WalkedFiles(sip, p);
    if ObjectsLeft(sip).Some? && p in FilePaths(["objects"], ObjectsLeft(sip).value) {
      var t := if sip.hasRow then AddDmdSecs(Begin(n), 1) else Begin(n);
      SoundFilesHaveRows(sip.db, sip.amdSecs, ["objects"], ObjectsLeft(sip).value,
                         Walked(AddDmdSecs(t, DirDmdSecs(sip.db, ["objects"])), []), p);
      PathHasUuid(sip.db, ["objects"], ObjectsLeft(sip).value, p);
    } else {
      var v := AddObjectMetadata(u.mets, sip.sources);
      SoundFilesHaveRows(sip.db, sip.amdSecs, ["metadata"], MetadataLeft(sip).value,
                         Walked(AddDmdSecs(v, DirDmdSecs(sip.db, ["metadata"])), []), p);
      PathHasUuid(sip.db, ["metadata"], MetadataLeft(sip).value, p);
    }
    assert Find(sip.db.rows, p).row.uuid in UuidAt(sip.db, p);
  }

  /* ----- the document ----- */

  /** Only the first div's own references go. */
  lemma {:induction false} ReplacedRefs(divs: seq<Div>, ids: seq<nat>) returns (others: seq<nat>)
    requires divs != []
    ensures var after := divs[0 := divs[0].(dmdids := ids)];
            && Fptrs(after) == Fptrs(divs)
            && DmdRefs(divs) == divs[0].dmdids + others && DmdRefs(after) == ids + others
  {
    var n := |divs| - 1;
    var after := divs[0 := divs[0].(dmdids := ids)];
    assert divs == divs[..n] + [divs[n]];
    if n == 0 {
      assert after == [after[0]] && divs == [divs[0]];
      RefsOfOne(divs[0]);
      RefsOfOne(after[0]);
      others := DmdRefs(divs[0].children);
    } else {
      var before := ReplacedRefs(divs[..n], ids);
      assert after == divs[..n][0 := divs[0].(dmdids := ids)] + [divs[n]];
      RefsSnoc(divs[..n], divs[n]);
      RefsSnoc(divs[..n][0 := divs[0].(dmdids := ids)], divs[n]);
      var last := divs[n].dmdids + DmdRefs(divs[n].children);
      Associative(divs[0].dmdids, before, last);
      Associative(ids, before, last);
      others := before + last;
    }
  }

  /** The run behind a document. */
  lemma MainRan(sip: Sip) returns (n: StructMap.State, u: Walked, w: Walked)
    requires Main(sip).Success?
    ensures Normative(sip) == Success(n) && Ran(sip, n, u, w)
    ensures ObjectsLeft(sip).Some? ==> w.divs != []
    ensures Main(sip) == Success(Assemble(sip, n, u, w))
    ensures sip.sources > 0 ==> ObjectsLeft(sip).Some?
  {
    NormativeBuilt(sip);
    n := Normative(sip).value;
    u := WalkObjects(sip, n).value;
    w := WalkMetadata(sip, u).value;
  }

  lemma SameFptrs(sip: Sip, n: StructMap.State, u: Walked, w: Walked)
    requires Ran(sip, n, u, w) && (ObjectsLeft(sip).Some? ==> w.divs != [])
    ensures Fptrs([RootDiv(sip, n, w)]) == AllUuids(sip)
  {
    hide DmdRefs;
    hide Fptrs;
    hide WellNumbered;
    hide Numbers;
    hide ObjectsLeft;
    hide AllUuids;
    WalksEmit(sip, n, u, w);
    RefsOfOne(RootDiv(sip, n, w));
    NothingBefore(AllUuids(sip));
    if sip.dublinCore && ObjectsLeft(sip).Some? {
      var _ := ReplacedRefs(w.divs, [w.mets.dmd + 1]);
    }
  }

  lemma InNumbers(r: nat, a: nat, b: nat)
    requires a <= b
    ensures r in Numbers(a, b) <==> a < r <= b
  {
    if a < r <= b {
      assert Numbers(a, b)[r - a - 1] == r;
    }
  }

  lemma {:induction false} AdmRefsHold(files: seq<FileElem>, f: FileElem)
    requires f in files && f.admid.Some?
    ensures f.admid.value in AdmRefs(files)
  {
    var n := |files| - 1;
    if f in files[..n] {
      AdmRefsHold(files[..n], f);
    }
  }

  /** Every ADMID, of a mets:file and of the objects directory, names an amdSec. */
  lemma AdmIdsResolve(sip: Sip, r: nat)
    requires Main(sip).Success?
    requires Main(sip).value.objectsAdmid == Some(r) || exists f :: f in Main(sip).value.fileSec && f.admid == Some(r)
    ensures MetsIds.Numbered(MetsIds.AmdSecs, r) in Ids(Main(sip).value)
  {
    hide Main;
    hide Normative;
    hide WalkObjects;
    hide WalkMetadata;
    hide RootDiv;
    hide CopiedNormative;
    hide Grouped;
    hide Ids;
    var d := Main(sip).value;
    var n, u, w := MainRan(sip);
    WalksEmit(sip, n, u, w);
    WalksFile(sip, n, u, w);
    IdsHold(d);
    FileSecIsPermutation(w.mets.files);
    if d.objectsAdmid != Some(r) {
      var f :| f in d.fileSec && f.admid == Some(r);
      assert f in multiset(w.mets.files);
      AdmRefsHold(w.mets.files, f);
    }
    InNumbers(r, 0, w.mets.amd);
    assert Gather(Own, w.mets.amdSecs) == Numbers(0, Counter(w.mets, Own)) == Numbers(0, w.mets.amd);
  }

  /** The error count says how many files on disk have no row, no GROUPID or no fileGrp. */
  lemma ErrorsCounted(sip: Sip)
    requires Main(sip).Success?
    ensures Main(sip).value.errors == AllProblems(sip)
  {
    var n, u, w := MainRan(sip);
    WalksEmit(sip, n, u, w);
  }

  lemma FileSecUuids(sip: Sip)
    requires ValidSip(sip) && Main(sip).Success? && Main(sip).value.errors == 0
    ensures var d := Main(sip).value;
            Distinct(Uuids(d.fileSec)) && forall x :: x in Uuids(d.fileSec) <==> x in AllUuids(sip)
  {
    var n, u, w := MainRan(sip);
    ErrorsCounted(sip);
    WalksFile(sip, n, u, w);
    AllUuidsDistinct(sip);
    FileSecIsPermutation(w.mets.files);
    PermutedUuids(w.mets.files, Main(sip).value.fileSec);
  }

  lemma DublinCoreFirst(dmd: nat)
    ensures Distinct([dmd + 1] + Numbers(0, dmd))
  {
  }

  lemma NumbersUnique(n: nat)
    ensures Distinct(Numbers(0, n))
  {
  }

  lemma PartDistinct(s: Mets, part: Part)
    requires WellNumbered(s)
    ensures Distinct(Gather(part, s.amdSecs))
  {
    assert Gather(part, s.amdSecs) == Numbers(0, Counter(s, part));
    NumbersUnique(Counter(s, part));
  }

  lemma DmdSecsDistinct(sip: Sip, s: Mets)
    requires WellNumbered(s)
    ensures Distinct((if sip.dublinCore then [s.dmd + 1] else []) + s.dmdSecs)
  {
    DublinCoreFirst(s.dmd);
    NumbersUnique(s.dmd);
    NothingBefore(s.dmdSecs);
  }

  lemma NumbersAreDistinct(sip: Sip, kind: MetsIds.Kind)
    requires Main(sip).Success?
    ensures Distinct(NumbersOf(Main(sip).value, kind))
  {
    hide Main;
    hide Normative;
    hide WalkObjects;
    hide WalkMetadata;
    hide RootDiv;
    hide CopiedNormative;
    hide Grouped;
    var n, u, w := MainRan(sip);
    WalksEmit(sip, n, u, w);
    DmdSecsDistinct(sip, w.mets);
    forall part ensures Distinct(Gather(part, w.mets.amdSecs)) {
      PartDistinct(w.mets, part);
    }
    NumbersUnique(Main(sip).value.structMaps);
    hide Gather;
    hide Numbers;
  }

  /** No two elements of the document share an ID attribute. */
  lemma IdsAreUnique(sip: Sip)
    requires ValidSip(sip) && Main(sip).Success? && Main(sip).value.errors == 0
    ensures var ids := Ids(Main(sip).value);
            forall i, j :: 0 <= i < j < |ids| ==> MetsIds.Text(ids[i]) != MetsIds.Text(ids[j])
  {
    var d := Main(sip).value;
    forall kind ensures Distinct(NumbersOf(d, kind)) {
      NumbersAreDistinct(sip, kind);
    }
    FileSecUuids(sip);
    IdsDistinct(d);
    var ids := Ids(d);
    forall i, j | 0 <= i < j < |ids| ensures MetsIds.Text(ids[i]) != MetsIds.Text(ids[j]) {
      MetsIds.DistinctTexts(ids, i, j);
    }
  }

  /** Every FILEID names a mets:file, and the other way round. */
  lemma FileIdsResolve(sip: Sip, x: string)
    requires ValidSip(sip) && Main(sip).Success? && Main(sip).value.errors == 0
    ensures var d := Main(sip).value;
            x in Fptrs([d.root]) <==> MetsIds.FileId(x) in Ids(d)
  {
    var d := Main(sip).value;
    var n, u, w := MainRan(sip);
    SameFptrs(sip, n, u, w);
    FileSecUuids(sip);
    IdsHold(d);
    if MetsIds.FileId(x) in Ids(d) {
      KindIdsAre(d, KINDS, MetsIds.FileId(x));
      assert MetsIds.FileId(x) in MetsIds.FileIds(Uuids(d.fileSec));
    }
  }

  /** Every file on disk has one row, exactly one fptr and exactly one mets:file. */
  lemma EveryFileOnce(sip: Sip, p: Path)
    requires ValidSip(sip) && Main(sip).Success? && Main(sip).value.errors == 0 && p in Files(sip)
    ensures Find(sip.db.rows, p).One?
    ensures var d, x := Main(sip).value, Find(sip.db.rows, p).row.uuid;
            multiset(Fptrs([d.root]))[x] == 1 && multiset(Uuids(d.fileSec))[x] == 1
  {
    var d := Main(sip).value;
    var n, u, w := MainRan(sip);
    ErrorsCounted(sip);
    FilesEmitted(sip, n, u, w, p);
    SameFptrs(sip, n, u, w);
    FileSecUuids(sip);
    AllUuidsDistinct(sip);
    OnceOnly(AllUuids(sip), Find(sip.db.rows, p).row.uuid);
    OnceOnly(Uuids(d.fileSec), Find(sip.db.rows, p).row.uuid);
  }

  /** And there are no fptrs but those of files on disk. */
  lemma EveryFptrHasFile(sip: Sip, x: string) returns (p: Path)
    requires Main(sip).Success? && x in Fptrs([Main(sip).value.root])
    ensures p in Files(sip) && Find(sip.db.rows, p).One? && Find(sip.db.rows, p).row.uuid == x
  {
    var n, u, w := MainRan(sip);
    SameFptrs(sip, n, u, w);
    if x in TopUuids(sip, "objects", ObjectsLeft(sip)) {
      p := UuidHasPath(sip.db, ["objects"], ObjectsLeft(sip).value, x);
    } else {
      p := UuidHasPath(sip.db, ["metadata"], MetadataLeft(sip).value, x);
    }
    WalkedFiles(sip, p);
  }

  lemma FileNamesFrom(sip: Sip, name: string, listing: Option<Listing>, s: Walked, p: Path)
    requires AddTop(sip, name, listing, s).Success? && p in AddTop(sip, name, listing, s).value.mets.fileIds
    ensures (p in s.mets.fileIds && AddTop(sip, name, listing, s).value.mets.fileIds[p] == s.mets.fileIds[p])
            || AddTop(sip, name, listing, s).value.mets.fileIds[p] in TopUuids(sip, name, listing)
  {
    if listing.Some? {
      var mid := Walked(AddDmdSecs(s.mets, DirDmdSecs(sip.db, [name])), []);
      FileIdsKnown(sip.db, sip.amdSecs, [name], listing.value, mid);
      if p in FileIdsOf(sip.db, [name], listing.value) {
        FileIdsAreUuids(sip.db, [name], listing.value, p);
      }
    }
  }

  /** What custom structMaps look up by file name is the ID of a mets:file. */
  lemma FileNamesResolve(sip: Sip, p: Path)
    requires ValidSip(sip) && Main(sip).Success? && Main(sip).value.errors == 0 && p in Main(sip).value.fileIds
    ensures MetsIds.FileId(Main(sip).value.fileIds[p]) in Ids(Main(sip).value)
  {
    var n, u, w := MainRan(sip);
    var t := if sip.hasRow then AddDmdSecs(Begin(n), 1) else Begin(n);
    FileNamesFrom(sip, "metadata", MetadataLeft(sip), u.(mets := AddObjectMetadata(u.mets, sip.sources)), p);
    if p in u.mets.fileIds {
      FileNamesFrom(sip, "objects", ObjectsLeft(sip), Walked(t, []), p);
    }
    FileSecUuids(sip);
    IdsHold(Main(sip).value);
  }
}
