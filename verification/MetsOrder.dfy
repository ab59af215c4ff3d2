/** In which order the METS document has its elements, how they are numbered, and what file names lead to. */
module MetsOrder {
  import opened FileSec
  import opened FileSecElements
  import opened FileSecFiles
  import opened FileSecNumbers
  import opened MetsDiv
  import opened MetsDocument
  import MetsIds
  import MetsIntegrity
  import opened Numbering
  import opened Results
  import opened Sequences
  import StructMap

  /* ----- the fileSec ----- */

  /** The uses of files, in the order of their groups in the fileSec. */
  const GROUPS := ["original", "submissionDocumentation", "preservation", "service", "access", "license", "text/ocr",
                   "metadata", "derivative"]

  ghost predicate GroupBefore(a: string, b: string) {
    exists i, j :: 0 <= i < j < |GROUPS| && GROUPS[i] == a && GROUPS[j] == b
  }

  /** `at` says which of the files the grouped ones are: groups come in the order of uses, and in a group
      files keep their order. */
  ghost predicate GroupedAt(files: seq<FileElem>, grouped: seq<FileElem>, at: seq<nat>) {
    && |at| == |grouped| && (forall i :: 0 <= i < |at| ==> at[i] < |files| && grouped[i] == files[at[i]])
    && forall i, j :: 0 <= i < j < |at| ==>
         GroupBefore(grouped[i].use, grouped[j].use) || (grouped[i].use == grouped[j].use && at[i] < at[j])
  }

  lemma {:induction false} OfUseAt(files: seq<FileElem>, use: string) returns (at: seq<nat>)
    ensures var own := OfUse(files, use);
            && |at| == |own| && (forall i :: 0 <= i < |at| ==> at[i] < |files| && own[i] == files[at[i]] && own[i].use == use)
            && forall i, j :: 0 <= i < j < |at| ==> at[i] < at[j]
  {
    at := [];
    if files != [] {
      var n := |files| - 1;
      at := OfUseAt(files[..n], use);
      if files[n].use == use {
        at := at + [n];
      }
    }
  }

  lemma {:induction false} GroupedIn(files: seq<FileElem>, n: nat) returns (at: seq<nat>)
    requires n <= |USES|
    ensures GroupedAt(files, Grouped(files, USES[..n]), at)
    ensures forall f :: f in Grouped(files, USES[..n]) ==> f.use in USES[..n]
  {
    at := [];
    if n > 0 {
      var before, own := Grouped(files, USES[..n - 1]), OfUse(files, USES[n - 1]);
      assert USES[..n][..n - 1] == USES[..n - 1] && USES[..n][n - 1] == USES[n - 1];
      var first := GroupedIn(files, n - 1);
      var last := OfUseAt(files, USES[n - 1]);
      forall f | f in before ensures GroupBefore(f.use, USES[n - 1]) {
        var i :| 0 <= i < n - 1 && USES[..n - 1][i] == f.use;
        assert GROUPS[i] == f.use && GROUPS[n - 1] == USES[n - 1];
      }
      at := first + last;
      GroupsJoin(files, before, own, first, last, USES[n - 1]);
    }
  }

  lemma GroupsJoin(files: seq<FileElem>, before: seq<FileElem>, own: seq<FileElem>, first: seq<nat>, last: seq<nat>,
                   use: string)
    requires GroupedAt(files, before, first) && forall f :: f in before ==> GroupBefore(f.use, use)
    requires |last| == |own| && forall i, j :: 0 <= i < j < |last| ==> last[i] < last[j]
    requires forall i :: 0 <= i < |last| ==> last[i] < |files| && own[i] == files[last[i]] && own[i].use == use
    ensures GroupedAt(files, before + own, first + last)
  {
    hide GroupBefore;
    var all, at := before + own, first + last;
    forall i, j | 0 <= i < j < |at|
      ensures GroupBefore(all[i].use, all[j].use) || (all[i].use == all[j].use && at[i] < at[j])
    {
      if i < |first| <= j {
        assert all[i] in before && all[j].use == use;
      }
    }
  }

  /** The fileSec without errors: groups in the order of uses, in a group the files in the order of their
      fptrs in the structMap. */
  lemma FileSecInOrder(sip: Sip) returns (at: seq<nat>)
    requires Main(sip).Success? && Main(sip).value.errors == 0
    ensures var files, fptrs := Main(sip).value.fileSec, Fptrs([Main(sip).value.root]);
            && |at| == |files| == |fptrs|
            && (forall i :: 0 <= i < |at| ==> at[i] < |fptrs| && files[i].uuid == fptrs[at[i]])
            && forall i, j :: 0 <= i < j < |at| ==>
                 GroupBefore(files[i].use, files[j].use) || (files[i].use == files[j].use && at[i] < at[j])
  {
    hide Main;
    hide Normative;
    hide WalkObjects;
    hide WalkMetadata;
    hide RootDiv;
    hide CopiedNormative;
    var n, u, w := MetsIntegrity.MainRan(sip);
    MetsIntegrity.ErrorsCounted(sip);
    MetsIntegrity.WalksFile(sip, n, u, w);
    MetsIntegrity.SameFptrs(sip, n, u, w);
    FileSecIsPermutation(w.mets.files);
    assert |multiset(Grouped(w.mets.files, USES))| == |multiset(w.mets.files)|;
    at := GroupedIn(w.mets.files, |USES|);
    assert USES[..|USES|] == USES;
    hide GroupBefore;
    forall i | 0 <= i < |at| ensures Uuids(w.mets.files)[at[i]] == w.mets.files[at[i]].uuid {
    }
  }

  /* ----- numbers ----- */

  /** Of each kind, the sections have the numbers 1, 2, ..., each once. */
  lemma SectionsNumbered(sip: Sip, kind: MetsIds.Kind, x: nat)
    requires Main(sip).Success?
    ensures var numbers := NumbersOf(Main(sip).value, kind);
            multiset(numbers)[x] == if 1 <= x <= |numbers| then 1 else 0
  {
    hide Main;
    hide Normative;
    hide WalkObjects;
    hide WalkMetadata;
    hide RootDiv;
    hide CopiedNormative;
    hide Grouped;
    var n, u, w := MetsIntegrity.MainRan(sip);
    MetsIntegrity.WalksEmit(sip, n, u, w);
    MetsIntegrity.NumbersAreDistinct(sip, kind);
    var numbers := NumbersOf(Main(sip).value, kind);
    OnceOnly(numbers, x);
    assert forall part :: Gather(part, w.mets.amdSecs) == Numbers(0, Counter(w.mets, part));
    hide Gather;
    forall counter: nat ensures x in Numbers(0, counter) <==> 1 <= x <= counter {
      MetsIntegrity.InNumbers(x, 0, counter);
    }
  }

  /** Without Dublin Core for the SIP, the DMDIDs of the physical structMap are consecutive in document
      order, and follow those of the normative one. */
  lemma PhysicalDmdIdsInOrder(sip: Sip)
    requires Main(sip).Success? && !sip.dublinCore
    ensures var refs, first := DmdRefs([Main(sip).value.root]), |DmdRefs([Normative(sip).value.root])|;
            && first + |refs| == |Main(sip).value.dmdSecs|
            && forall i :: 0 <= i < |refs| ==> refs[i] == first + 1 + i
  {
    hide Main;
    hide Normative;
    hide WalkObjects;
    hide WalkMetadata;
    hide CopiedNormative;
    hide Grouped;
    var n, u, w := MetsIntegrity.MainRan(sip);
    MetsIntegrity.NormativeBuilt(sip);
    MetsIntegrity.WalksEmit(sip, n, u, w);
    var c := n.dmdCounter + (if sip.hasRow then 1 else 0);
    var root := Main(sip).value.root;
    assert root == Div(true, sip.name, RootDmdIds(sip, n), None, w.divs);
    RefsOfOne(root);
    hide DmdRefs;
    assert RootDmdIds(sip, n) == Numbers(n.dmdCounter, c);
    NumbersJoin(n.dmdCounter, c, w.mets.dmd);
  }

  /* ----- file names ----- */

  lemma {:induction false} FileIdsOfIs(db: Db, path: Path, listing: Listing, p: Path)
    ensures p in FileIdsOf(db, path, listing) <==> p in FilePaths(path, listing) && Find(db.rows, p).One?
    ensures p in FileIdsOf(db, path, listing) ==> FileIdsOf(db, path, listing)[p] == Find(db.rows, p).row.uuid
    decreases listing
  {
    match listing
    case End =>
    case OnFile(name, rest) =>
      FileIdsOfIs(db, path, rest, p);
    case OnDir(name, sub, rest) =>
      FileIdsOfIs(db, path + [name], sub, p);
      FileIdsOfIs(db, path, rest, p);
  }

  function TopFileIds(sip: Sip, name: string, listing: Option<Listing>): map<Path, string> {
    if listing.None? then map[] else FileIdsOf(sip.db, [name], listing.value)
  }

  lemma TopKnows(sip: Sip, name: string, listing: Option<Listing>, s: Walked)
    requires AddTop(sip, name, listing, s).Success?
    ensures AddTop(sip, name, listing, s).value.mets.fileIds == s.mets.fileIds + TopFileIds(sip, name, listing)
  {
    if listing.Some? {
      FileIdsKnown(sip.db, sip.amdSecs, [name], listing.value, Walked(AddDmdSecs(s.mets, DirDmdSecs(sip.db, [name])), []));
    }
  }

  lemma WalksKnow(sip: Sip, n: StructMap.State, u: Walked, w: Walked)
    requires MetsIntegrity.Ran(sip, n, u, w)
    ensures w.mets.fileIds
            == TopFileIds(sip, "objects", ObjectsLeft(sip)) + TopFileIds(sip, "metadata", MetadataLeft(sip))
  {
    var t := if sip.hasRow then AddDmdSecs(Begin(n), 1) else Begin(n);
    TopKnows(sip, "objects", ObjectsLeft(sip), Walked(t, []));
    TopKnows(sip, "metadata", MetadataLeft(sip), u.(mets := AddObjectMetadata(u.mets, sip.sources)));
    hide AddTop;
    hide FileIdsOf;
  }

  lemma TopFileIdsAre(sip: Sip, name: string, listing: Option<Listing>, p: Path)
    ensures var ids := TopFileIds(sip, name, listing);
            && (p in ids <==> listing.Some? && p in FilePaths([name], listing.value) && Find(sip.db.rows, p).One?)
            && (p in ids ==> ids[p] == Find(sip.db.rows, p).row.uuid)
  {
    if listing.Some? {
      FileIdsOfIs(sip.db, [name], listing.value, p);
    }
  }

  /** A file name leads to the UUID of the file on disk that has it as path, if there is just one live row
      for that; other names lead nowhere. */
  lemma FileNameLeadsTo(sip: Sip, p: Path, uuid: string)
    requires Main(sip).Success?
    ensures var ids := Main(sip).value.fileIds;
            p in ids && ids[p] == uuid <==>
            p in MetsIntegrity.Files(sip) && exists row :: SoleRow(sip.db.rows, p, row) && row.uuid == uuid
  {
    hide Main;
    hide TopFileIds;
    hide MetsIntegrity.Files;
    hide SoleRow;
    var n, u, w := MetsIntegrity.MainRan(sip);
    WalksKnow(sip, n, u, w);
    TopFileIdsAre(sip, "objects", ObjectsLeft(sip), p);
    TopFileIdsAre(sip, "metadata", MetadataLeft(sip), p);
    MetsIntegrity.WalkedFiles(sip, p);
    FoundIs(sip.db.rows, p, uuid);
  }

  lemma FoundIs(rows: seq<FileRow>, p: Path, uuid: string)
    ensures Find(rows, p).One? && Find(rows, p).row.uuid == uuid
            <==> exists row :: SoleRow(rows, p, row) && row.uuid == uuid
  {
    forall row ensures Find(rows, p) == One(row) <==> SoleRow(rows, p, row) {
      OneIff(rows, p, row);
    }
    hide SoleRow;
    if Find(rows, p).One? {
      assert SoleRow(rows, p, Find(rows, p).row);
    }
  }
}
