/** The AIP METS document as `main` assembles it at ingest, and its referential integrity. */
module MetsDocument {
  import opened FileSec
  import opened FileSecNumbers
  import Listings
  import opened MetsDiv
  import MetsIds
  import NormativeDmdIds
  import opened Numbering
  import opened Results
  import opened Sequences
  import StructMap

  /** What `main` is given: the SIP's name, whether to make amdSecs and a normative structMap,
      whether the SIP has a row, its objects and metadata directories on disk (if they exist), the
      number of sourceMDs the transfers' metadata gives, and whether Dublin Core was found for it. */
  datatype Sip = Sip(name: string, db: Db, amdSecs: bool, createNormative: bool, hasRow: bool,
                     objects: Option<StructMap.Folder>, metadata: Option<StructMap.Folder>, sources: nat,
                     dublinCore: bool)

  /** The normative structMap is the list of its elements, in document order. */
  datatype Document = Document(dmdSecs: seq<nat>, amdSecs: seq<AmdSec>, fileSec: seq<FileElem>, structMaps: nat,
                               root: Div, objectsAdmid: Option<nat>,
                               normative: Option<seq<NormativeDmdIds.Element>>,
                               fileIds: map<Path, string>, errors: nat)

  /** What a walk of the objects directory finds before empty directories are deleted. */
  function Items(sip: Sip): seq<StructMap.FSItem> {
    if sip.objects.None? then [] else StructMap.AllItems(StructMap.Walk(["objects"], sip.objects.value))
  }

  /** The normative structMap as it is built, and the dmdSecs of its empty directories. */
  function Normative(sip: Sip): Result<StructMap.State> {
    var start := StructMap.State(Div(true, sip.name, [], None, []), map[[] := StructMap.Root], 0, []);
    if sip.createNormative then StructMap.AddItems(start, Items(sip)) else Success(start)
  }

  function Begin(n: StructMap.State): Mets {
    Mets(n.dmdCounter, 0, 0, 0, 0, n.dmdSecs, [], [], map[], 0)
  }

  /** The listings of the two top directories once empty directories are deleted. */
  function ObjectsLeft(sip: Sip): Option<Listing> {
    Listings.LeftOf(sip.objects)
  }

  function MetadataLeft(sip: Sip): Option<Listing> {
    Listings.LeftOf(sip.metadata)
  }

  /** `createFileSec` on a directory that may not exist. */
  function AddTop(sip: Sip, name: string, listing: Option<Listing>, s: Walked): (r: Result<Walked>)
    ensures r.Success? ==> |r.value.divs| == |s.divs| + (if listing.Some? then 1 else 0)
  {
    if listing.None? then Success(s) else AddDir(sip.db, sip.amdSecs, [name], listing.value, s)
  }

  /** `create_object_metadata`: one amdSec of sourceMDs. */
  function AddObjectMetadata(s: Mets, sources: nat): Mets {
    if sources == 0 then s else
      s.(amd := s.amd + 1, amdSecs := s.amdSecs + [AmdSec(s.amd + 1, [], [], [], Numbers(0, sources))])
  }

  function OfUse(files: seq<FileElem>, use: string): seq<FileElem> {
    if files == [] then [] else
      var f := files[|files| - 1];
      OfUse(files[..|files| - 1], use) + (if f.use == use then [f] else [])
  }

  /** The fileSec: the groups of the given uses, one after another. */
  function Grouped(files: seq<FileElem>, uses: seq<string>): seq<FileElem> {
    if uses == [] then [] else Grouped(files, uses[..|uses| - 1]) + OfUse(files, uses[|uses| - 1])
  }

  function RootDmdIds(sip: Sip, n: StructMap.State): seq<nat> {
    if sip.hasRow then [n.dmdCounter + 1] else []
  }

  /** The SIP's own Dublin Core replaces the DMDID of the objects directory, or of the root. */
  function RootDiv(sip: Sip, n: StructMap.State, w: Walked): Div
    requires ObjectsLeft(sip).Some? ==> w.divs != []
  {
    var id := w.mets.dmd + 1;
    if !sip.dublinCore then Div(true, sip.name, RootDmdIds(sip, n), None, w.divs)
    else if ObjectsLeft(sip).Some? then
      Div(true, sip.name, RootDmdIds(sip, n), None, w.divs[0 := w.divs[0].(dmdids := [id])])
    else Div(true, sip.name, [id], None, w.divs)
  }

  function WalkObjects(sip: Sip, n: StructMap.State): Result<Walked> {
    var s := Begin(n);
    AddTop(sip, "objects", ObjectsLeft(sip), Walked(if sip.hasRow then AddDmdSecs(s, 1) else s, []))
  }

  function WalkMetadata(sip: Sip, u: Walked): Result<Walked> {
    AddTop(sip, "metadata", MetadataLeft(sip), u.(mets := AddObjectMetadata(u.mets, sip.sources)))
  }

  /** The normative elements, with the DMDIDs of the physical ones copied to them. */
  function CopiedNormative(n: StructMap.State, root: Div): seq<NormativeDmdIds.Element> {
    NormativeDmdIds.CopyAll(NormativeDmdIds.Elements([n.root], []), NormativeDmdIds.Elements([root], []))
  }

  function Main(sip: Sip): Result<Document> {
    match Normative(sip)
    case Failure(message) => Failure(message)
    case Success(n) =>
      match WalkObjects(sip, n)
      case Failure(message) => Failure(message)
      case Success(u) =>
        if sip.sources > 0 && ObjectsLeft(sip).None? then Failure("AttributeError") else
          match WalkMetadata(sip, u)
          case Failure(message) => Failure(message)
          case Success(w) =>
            Success(Assemble(sip, n, u, w))
  }

  /** The document, from the normative structMap, the walk of objects and that of metadata. */
  function Assemble(sip: Sip, n: StructMap.State, u: Walked, w: Walked): Document
    requires ObjectsLeft(sip).Some? ==> w.divs != []
  {
    Document((if sip.dublinCore then [w.mets.dmd + 1] else []) + w.mets.dmdSecs, w.mets.amdSecs,
             Grouped(w.mets.files, USES), if sip.createNormative then 2 else 1, RootDiv(sip, n, w),
             if sip.sources > 0 then Some(u.mets.amd + 1) else None,
             if sip.createNormative then Some(CopiedNormative(n, RootDiv(sip, n, w))) else None,
             w.mets.fileIds, w.mets.errors)
  }

  /* ----- the IDs ----- */

  function NumbersOf(d: Document, kind: MetsIds.Kind): seq<nat> {
    match kind
    case DmdSecs => d.dmdSecs
    case AmdSecs => Gather(Own, d.amdSecs)
    case TechMDs => Gather(Techs, d.amdSecs)
    case RightsMDs => Gather(Rights, d.amdSecs)
    case DigiprovMDs => Gather(Digiprovs, d.amdSecs)
    case SourceMDs => Gather(Sources, d.amdSecs)
    case StructMaps => Numbers(0, d.structMaps)
  }

  function KindIds(d: Document, kinds: seq<MetsIds.Kind>): seq<MetsIds.Id> {
    if kinds == [] then [] else
      KindIds(d, kinds[..|kinds| - 1]) + MetsIds.Ids(kinds[|kinds| - 1], NumbersOf(d, kinds[|kinds| - 1]))
  }

  const KINDS: seq<MetsIds.Kind> := [MetsIds.DmdSecs, MetsIds.AmdSecs, MetsIds.TechMDs, MetsIds.RightsMDs,
                                     MetsIds.DigiprovMDs, MetsIds.SourceMDs, MetsIds.StructMaps]

  /** The ID attributes of a document, kind by kind. */
  function Ids(d: Document): seq<MetsIds.Id> {
    KindIds(d, KINDS) + MetsIds.FileIds(Uuids(d.fileSec))
  }

  lemma {:induction false} KindIdsAre(d: Document, kinds: seq<MetsIds.Kind>, id: MetsIds.Id)
    ensures id in KindIds(d, kinds) <==> id.Numbered? && id.kind in kinds && id.n in NumbersOf(d, id.kind)
  {
    if kinds != [] {
      var k := kinds[|kinds| - 1];
      KindIdsAre(d, kinds[..|kinds| - 1], id);
      var own := MetsIds.Ids(k, NumbersOf(d, k));
      if id.Numbered? && id.kind == k && id.n in NumbersOf(d, k) {
        var i :| 0 <= i < |NumbersOf(d, k)| && NumbersOf(d, k)[i] == id.n;
        assert own[i] == id;
      }
    }
  }

  lemma {:induction false} KindIdsDistinct(d: Document, kinds: seq<MetsIds.Kind>)
    requires Distinct(kinds) && forall k :: k in kinds ==> Distinct(NumbersOf(d, k))
    ensures Distinct(KindIds(d, kinds))
  {
    if kinds != [] {
      var n := |kinds| - 1;
      KindIdsDistinct(d, kinds[..n]);
      var own := MetsIds.Ids(kinds[n], NumbersOf(d, kinds[n]));
      forall id | id in KindIds(d, kinds[..n]) ensures id !in own {
        KindIdsAre(d, kinds[..n], id);
      }
      DistinctConcat(KindIds(d, kinds[..n]), own);
    }
  }

  lemma {:induction false} IdsDistinct(d: Document)
    requires forall k :: Distinct(NumbersOf(d, k))
    requires Distinct(Uuids(d.fileSec))
    ensures Distinct(Ids(d))
  {
    KindIdsDistinct(d, KINDS);
    forall id | id in KindIds(d, KINDS) ensures id !in MetsIds.FileIds(Uuids(d.fileSec)) {
      KindIdsAre(d, KINDS, id);
    }
    DistinctConcat(KindIds(d, KINDS), MetsIds.FileIds(Uuids(d.fileSec)));
  }

  lemma {:induction false} IdsHold(d: Document)
    ensures forall k, n :: n in NumbersOf(d, k) ==> MetsIds.Numbered(k, n) in Ids(d)
    ensures forall u :: u in Uuids(d.fileSec) ==> MetsIds.FileId(u) in Ids(d)
  {
    forall k, n | n in NumbersOf(d, k) ensures MetsIds.Numbered(k, n) in Ids(d) {
      KindIdsAre(d, KINDS, MetsIds.Numbered(k, n));
      assert k in KINDS by {
        assert KINDS[0] == MetsIds.DmdSecs && KINDS[1] == MetsIds.AmdSecs && KINDS[2] == MetsIds.TechMDs
               && KINDS[3] == MetsIds.RightsMDs && KINDS[4] == MetsIds.DigiprovMDs && KINDS[5] == MetsIds.SourceMDs
               && KINDS[6] == MetsIds.StructMaps;
      }
    }
    forall u | u in Uuids(d.fileSec) ensures MetsIds.FileId(u) in Ids(d) {
      var i :| 0 <= i < |d.fileSec| && Uuids(d.fileSec)[i] == u;
      assert MetsIds.FileIds(Uuids(d.fileSec))[i] == MetsIds.FileId(u);
    }
  }

  /* ----- the fileSec ----- */

  lemma {:induction false} OfUseCounts(files: seq<FileElem>, use: string, f: FileElem)
    ensures multiset(OfUse(files, use))[f] == if f.use == use then multiset(files)[f] else 0
  {
    if files != [] {
      var n := |files| - 1;
      OfUseCounts(files[..n], use, f);
      assert files == files[..n] + [files[n]];
    }
  }

  lemma {:induction false} GroupedCounts(files: seq<FileElem>, uses: seq<string>, f: FileElem)
    requires Distinct(uses)
    ensures multiset(Grouped(files, uses))[f] == if f.use in uses then multiset(files)[f] else 0
  {
    if uses != [] {
      var n := |uses| - 1;
      GroupedCounts(files, uses[..n], f);
      OfUseCounts(files, uses[n], f);
      assert f.use in uses <==> f.use in uses[..n] || f.use == uses[n];
    }
  }

  lemma UsesDistinct()
    ensures Distinct(USES)
  {
  }

  /** The fileSec is a rearrangement of the mets:file elements made. */
  lemma FileSecIsPermutation(files: seq<FileElem>)
    requires forall f :: f in files ==> HasGroup(f.use)
    ensures multiset(Grouped(files, USES)) == multiset(files)
  {
    UsesDistinct();
    forall f ensures multiset(Grouped(files, USES))[f] == multiset(files)[f] {
      GroupedCounts(files, USES, f);
      if multiset(files)[f] > 0 {
        assert f in files;
      }
    }
  }

  lemma Twice<T>(s: seq<T>, i: nat, j: nat)
    requires i < j < |s| && s[i] == s[j]
    ensures multiset(s)[s[i]] >= 2
  {
    assert s == s[..j] + s[j..];
    assert s[i] in s[..j] && s[j] in s[j..];
  }

  /** Rearranging elements with distinct UUIDs keeps the UUIDs, and keeps them distinct. */
  lemma PermutedUuids(a: seq<FileElem>, b: seq<FileElem>)
    requires multiset(a) == multiset(b) && Distinct(Uuids(a))
    ensures Distinct(Uuids(b)) && forall u :: u in Uuids(b) <==> u in Uuids(a)
  {
    forall i, j | 0 <= i < j < |b| ensures Uuids(b)[i] != Uuids(b)[j] {
      assert b[i] in multiset(a) && b[j] in multiset(a);
      var k :| 0 <= k < |a| && a[k] == b[i];
      var l :| 0 <= l < |a| && a[l] == b[j];
      if b[i].uuid == b[j].uuid {
        assert Uuids(a)[k] == Uuids(a)[l];
        Twice(b, i, j);
        OnceOnlyElems(a, b[i]);
      }
    }
    forall u | u in Uuids(b) ensures u in Uuids(a) {
      SameUuids(b, a, u);
    }
    forall u | u in Uuids(a) ensures u in Uuids(b) {
      SameUuids(a, b, u);
    }
  }

  lemma SameUuids(a: seq<FileElem>, b: seq<FileElem>, u: string)
    requires multiset(a) == multiset(b) && u in Uuids(a)
    ensures u in Uuids(b)
  {
    var k :| 0 <= k < |a| && Uuids(a)[k] == u;
    assert a[k] in multiset(b);
    var l :| 0 <= l < |b| && b[l] == a[k];
    assert Uuids(b)[l] == u;
  }

  lemma OnceOnlyElems(a: seq<FileElem>, f: FileElem)
    requires Distinct(Uuids(a))
    ensures multiset(a)[f] <= 1
  {
    forall i, j | 0 <= i < j < |a| ensures a[i] != a[j] {
      assert Uuids(a)[i] != Uuids(a)[j];
    }
    OnceOnly(a, f);
  }
}
