/** The DMDIDs of the physical structMap are copied to the elements of the normative structMap
    that have the same path of LABELs. */
module NormativeDmdIds {
  import opened MetsDiv
  import opened Sequences

  /** A mets:div in its structMap: the LABELs from the top div down to it, TYPE and DMDID. */
  datatype Element = Element(labels: seq<string>, isDir: bool, dmdids: seq<nat>)

  /** The elements of a tree in document order, which for the normative structMap is the order
      they were made in. */
  function Elements(divs: seq<Div>, above: seq<string>): seq<Element>
    decreases divs
  {
    if divs == [] then [] else
      var d := divs[|divs| - 1];
      Elements(divs[..|divs| - 1], above) + ([Element(above + [d.title], d.isDir, d.dmdids)]
                                             + Elements(d.children, above + [d.title]))
  }

  lemma ElementsSnoc(divs: seq<Div>, d: Div, above: seq<string>)
    ensures Elements(divs + [d], above) ==
            Elements(divs, above) + ([Element(above + [d.title], d.isDir, d.dmdids)]
                                     + Elements(d.children, above + [d.title]))
  {
    assert (divs + [d])[..|divs|] == divs;
  }

  lemma ElementsOfOne(d: Div, above: seq<string>)
    ensures Elements([d], above) == [Element(above + [d.title], d.isDir, d.dmdids)]
                                    + Elements(d.children, above + [d.title])
  {
    assert [d][..0] == [] && Elements([], above) == [];
  }

  lemma {:induction false} ElementsConcat(a: seq<Div>, b: seq<Div>, above: seq<string>)
    ensures Elements(a + b, above) == Elements(a, above) + Elements(b, above)
  {
    if b == [] {
      assert a + b == a;
    } else {
      var n := |b| - 1;
      ElementsConcat(a, b[..n], above);
      assert b == b[..n] + [b[n]];
      Associative(a, b[..n], [b[n]]);
      ElementsSnoc(a + b[..n], b[n], above);
      ElementsSnoc(b[..n], b[n], above);
      Associative(Elements(a, above), Elements(b[..n], above),
                  [Element(above + [b[n].title], b[n].isDir, b[n].dmdids)]
                  + Elements(b[n].children, above + [b[n].title]));
    }
  }

  function RefsOf(es: seq<Element>): seq<nat> {
    if es == [] then [] else RefsOf(es[..|es| - 1]) + es[|es| - 1].dmdids
  }

  lemma NoElements()
    ensures RefsOf([]) == []
  {
  }

  lemma RefsOfSnoc(es: seq<Element>, e: Element)
    ensures RefsOf(es + [e]) == RefsOf(es) + e.dmdids
  {
    assert (es + [e])[..|es|] == es;
  }

  lemma {:induction false} RefsOfConcat(a: seq<Element>, b: seq<Element>)
    ensures RefsOf(a + b) == RefsOf(a) + RefsOf(b)
  {
    if b == [] {
      assert a + b == a;
    } else {
      var n := |b| - 1;
      RefsOfConcat(a, b[..n]);
      assert b == b[..n] + [b[n]];
      Associative(a, b[..n], [b[n]]);
      RefsOfSnoc(a + b[..n], b[n]);
      RefsOfSnoc(b[..n], b[n]);
      Associative(RefsOf(a), RefsOf(b[..n]), b[n].dmdids);
    }
  }

  /** The flat list refers to what the tree refers to. */
  lemma {:induction false} ElementsRefer(divs: seq<Div>, above: seq<string>)
    ensures RefsOf(Elements(divs, above)) == DmdRefs(divs)
    decreases divs
  {
    if divs != [] {
      var n := |divs| - 1;
      var d := divs[n];
      var e, below := Element(above + [d.title], d.isDir, d.dmdids), Elements(d.children, above + [d.title]);
      ElementsRefer(divs[..n], above);
      ElementsRefer(d.children, above + [d.title]);
      RefsOfSnoc([], e);
      assert [] + [e] == [e] && RefsOf([]) == [];
      NothingBefore(e.dmdids);
      RefsOfConcat([e], below);
      RefsOfConcat(Elements(divs[..n], above), [e] + below);
    }
  }

  lemma {:induction false} RefsHold(es: seq<Element>, e: Element, r: nat)
    requires e in es && r in e.dmdids
    ensures r in RefsOf(es)
  {
    var n := |es| - 1;
    if e in es[..n] {
      RefsHold(es[..n], e, r);
    }
  }

  /* ----- build_path ----- */

  const OMITTED := "Archivematica default"

  function Joined(labels: seq<string>): string {
    if labels == [] then "" else
      var below := Joined(labels[1..]);
      if labels[0] == OMITTED then below else labels[0] + (if below != "" then "/" + below else "")
  }

  /** The path an element is indexed by. */
  function Key(labels: seq<string>): string {
    "/" + Joined(labels)
  }

  /** `build_path`, from the element up to the top. */
  method BuildPath(labels: seq<string>) returns (path: string)
    ensures path == Key(labels)
  {
    path := "";
    var i := |labels|;
    while i > 0
      invariant 0 <= i <= |labels|
      invariant path == Joined(labels[i..])
    {
      i := i - 1;
      assert labels[i..][1..] == labels[i + 1..] && labels[i..][0] == labels[i];
      if labels[i] != OMITTED {
        path := labels[i] + (if path != "" then "/" + path else "");
      }
    }
    path := "/" + path;
  }

  predicate NoneEmpty(labels: seq<string>) {
    forall i :: 0 <= i < |labels| ==> labels[i] != ""
  }

  /** The path of an element: the LABELs from the top, with slashes between them ... */
  lemma KeySnoc(labels: seq<string>, last: string)
    requires last != "" && last != OMITTED && NoneEmpty(labels)
    ensures Key(labels + [last]) ==
            (if forall i :: 0 <= i < |labels| ==> labels[i] == OMITTED then "/" else Key(labels) + "/") + last
  {
    JoinedSnoc(labels, last);
    JoinedNothing(labels);
  }

  lemma {:induction false} JoinedNothing(labels: seq<string>)
    requires NoneEmpty(labels)
    ensures Joined(labels) == "" <==> forall i :: 0 <= i < |labels| ==> labels[i] == OMITTED
  {
    if labels != [] {
      JoinedNothing(labels[1..]);
      assert forall i :: 0 < i < |labels| ==> labels[i] == labels[1..][i - 1];
    }
  }

  lemma {:induction false} JoinedSnoc(labels: seq<string>, last: string)
    requires last != "" && last != OMITTED && NoneEmpty(labels)
    ensures Joined(labels + [last]) == (if Joined(labels) == "" then "" else Joined(labels) + "/") + last
  {
    if labels == [] {
      assert labels + [last] == [last] && [last][1..] == [];
    } else {
      JoinedSnoc(labels[1..], last);
      assert (labels + [last])[1..] == labels[1..] + [last];
    }
  }

  /** ... without the LABEL of the physical structMap itself. */
  lemma {:induction false} KeyOmits(a: seq<string>, b: seq<string>)
    ensures Key(a + [OMITTED] + b) == Key(a + b)
  {
    if a == [] {
      assert a + [OMITTED] + b == [OMITTED] + b && a + b == b && ([OMITTED] + b)[1..] == b;
    } else {
      KeyOmits(a[1..], b);
      assert (a + [OMITTED] + b)[1..] == a[1..] + [OMITTED] + b && (a + b)[1..] == a[1..] + b;
    }
  }

  /* ----- NormativeStructMapElement ----- */

  /** `_elements`: of two elements with one path, the later one is kept. */
  function Index(es: seq<Element>): map<string, nat> {
    if es == [] then map[] else Index(es[..|es| - 1])[Key(es[|es| - 1].labels) := |es| - 1]
  }

  /** Is there an element with this path? */
  predicate Hit(es: seq<Element>, labels: seq<string>) {
    Key(labels) in Index(es)
  }

  lemma {:induction false} IndexedIs(es: seq<Element>, k: string)
    requires k in Index(es)
    ensures Index(es)[k] < |es| && Key(es[Index(es)[k]].labels) == k
  {
    hide Key;
    var n := |es| - 1;
    if k != Key(es[n].labels) {
      IndexedIs(es[..n], k);
    }
  }

  /** The element kept is the last one. */
  lemma {:induction false} IndexHas(es: seq<Element>, i: nat)
    requires i < |es|
    ensures Hit(es, es[i].labels) && i <= Index(es)[Key(es[i].labels)]
  {
    hide Key;
    var n := |es| - 1;
    if i < n {
      IndexHas(es[..n], i);
    }
  }

  lemma HitIff(es: seq<Element>, labels: seq<string>)
    ensures Hit(es, labels) <==> exists i :: 0 <= i < |es| && Key(es[i].labels) == Key(labels)
  {
    if Hit(es, labels) {
      IndexedIs(es, Key(labels));
    }
    if i :| 0 <= i < |es| && Key(es[i].labels) == Key(labels) {
      IndexHas(es, i);
    }
  }

  function WithDmdIds(es: seq<Element>, i: nat, ids: seq<nat>): seq<Element>
    requires i < |es|
  {
    es[i := es[i].(dmdids := es[i].dmdids + ids)]
  }

  function SetOne(es: seq<Element>, e: Element): seq<Element> {
    if e.dmdids != [] && Hit(es, e.labels) then
      IndexedIs(es, Key(e.labels));
      WithDmdIds(es, Index(es)[Key(e.labels)], e.dmdids)
    else es
  }

  /** The normative elements once the DMDIDs of the physical ones were copied. */
  function CopyAll(es: seq<Element>, physical: seq<Element>): seq<Element> {
    if physical == [] then es else SetOne(CopyAll(es, physical[..|physical| - 1]), physical[|physical| - 1])
  }

  /** The structMap element itself is indexed with the path "/" and is not listed: only the top div
      can have that path, and then it is the later one. */
  class NormativeStructMap {
    var elements: seq<Element>
    var index: map<string, nat>

    predicate Valid()
      reads this
    {
      index == Index(elements)
    }

    constructor (made: seq<Element>)
      ensures Valid() && elements == made
    {
      elements, index := made, map[];
      new;
      for i := 0 to |made|
        invariant elements == made && index == Index(made[..i])
      {
        assert made[..i + 1][..i] == made[..i];
        var path := BuildPath(made[i].labels);
        index := index[path := i];
      }
      assert made[..|made|] == made;
    }

    method SetDmdId(labels: seq<string>, ids: seq<nat>)
      requires Valid() && ids != []
      modifies this`elements
      ensures Valid() && forall isDir :: elements == SetOne(old(elements), Element(labels, isDir, ids))
    {
      var path := BuildPath(labels);
      if path !in index {
        return;
      }
      IndexedIs(elements, path);
      var i := index[path];
      elements := elements[i := elements[i].(dmdids := elements[i].dmdids + ids)];
      SameIndex(old(elements), elements);
    }

    /** `update_normative_structmap_dmdids` */
    method UpdateDmdIds(physical: seq<Element>)
      requires Valid()
      modifies this`elements
      ensures Valid() && elements == CopyAll(old(elements), physical)
    {
      for i := 0 to |physical|
        invariant Valid() && elements == CopyAll(old(elements), physical[..i])
      {
        assert physical[..i + 1][..i] == physical[..i];
        if physical[i].dmdids != [] {
          SetDmdId(physical[i].labels, physical[i].dmdids);
          assert elements == SetOne(CopyAll(old(elements), physical[..i]),
                                    Element(physical[i].labels, physical[i].isDir, physical[i].dmdids));
        }
      }
      assert physical[..|physical|] == physical;
    }
  }

  /** Copying changes nothing but DMDIDs. */
  ghost predicate SameElements(a: seq<Element>, b: seq<Element>) {
    |a| == |b| && forall i :: 0 <= i < |a| ==> a[i].labels == b[i].labels && a[i].isDir == b[i].isDir
  }

  lemma {:induction false} SameIndex(a: seq<Element>, b: seq<Element>)
    requires SameElements(a, b)
    ensures Index(a) == Index(b)
  {
    if a != [] {
      SameIndex(a[..|a| - 1], b[..|b| - 1]);
    }
  }

  lemma SetOneSame(es: seq<Element>, e: Element)
    ensures SameElements(es, SetOne(es, e))
  {
    if Hit(es, e.labels) {
      IndexedIs(es, Key(e.labels));
    }
  }

  lemma {:induction false} CopiedSame(es: seq<Element>, physical: seq<Element>)
    ensures SameElements(es, CopyAll(es, physical)) && Index(CopyAll(es, physical)) == Index(es)
  {
    if physical != [] {
      CopiedSame(es, physical[..|physical| - 1]);
      SetOneSame(CopyAll(es, physical[..|physical| - 1]), physical[|physical| - 1]);
    }
    SameIndex(es, CopyAll(es, physical));
  }

  /** What a physical element adds to the i-th normative one. */
  function AddedTo(es: seq<Element>, e: Element, i: nat): seq<nat> {
    if Hit(es, e.labels) && Index(es)[Key(e.labels)] == i then e.dmdids else []
  }

  /** The DMDIDs of all physical elements whose path belongs to the i-th normative element. */
  function CopiedTo(es: seq<Element>, physical: seq<Element>, i: nat): seq<nat> {
    if physical == [] then [] else
      CopiedTo(es, physical[..|physical| - 1], i) + AddedTo(es, physical[|physical| - 1], i)
  }

  lemma SetOneAt(es: seq<Element>, e: Element, i: nat)
    requires i < |es|
    ensures |SetOne(es, e)| == |es| && SetOne(es, e)[i].dmdids == es[i].dmdids + AddedTo(es, e, i)
  {
    hide Key;
    hide Index;
    assert es[i].dmdids + [] == es[i].dmdids;
    if Hit(es, e.labels) {
      IndexedIs(es, Key(e.labels));
    }
  }

  /** Each normative element refers to its own dmdSec and then to those of the physical elements
      with its path, in document order; if two have one path, only the later one does. */
  lemma {:induction false} CopiedAre(es: seq<Element>, physical: seq<Element>, i: nat)
    requires i < |es|
    ensures |CopyAll(es, physical)| == |es|
    ensures CopyAll(es, physical)[i].dmdids == es[i].dmdids + CopiedTo(es, physical, i)
  {
    hide Key;
    hide Index;
    hide SetOne;
    if physical == [] {
      assert es[i].dmdids + [] == es[i].dmdids;
    } else {
      var n := |physical| - 1;
      CopiedSame(es, physical[..n]);
      CopiedAre(es, physical[..n], i);
      SetOneAt(CopyAll(es, physical[..n]), physical[n], i);
      Associative(es[i].dmdids, CopiedTo(es, physical[..n], i), AddedTo(es, physical[n], i));
    }
  }

  /** The i-th normative element is the last one with its path. */
  ghost predicate IsLast(es: seq<Element>, i: int) {
    0 <= i < |es| && forall k :: i < k < |es| ==> Key(es[k].labels) != Key(es[i].labels)
  }

  lemma LastIsIndexed(es: seq<Element>, i: nat)
    requires i < |es|
    ensures Key(es[i].labels) in Index(es)
    ensures IsLast(es, i) <==> Index(es)[Key(es[i].labels)] == i
  {
    hide Key;
    var j := IndexOf(es, i);
    hide Index;
    if j > i {
      assert Key(es[j].labels) == Key(es[i].labels);
    }
    forall k | i < k < |es| && Key(es[k].labels) == Key(es[i].labels) ensures j >= k {
      var l := IndexOf(es, k);
    }
  }

  lemma IndexOf(es: seq<Element>, i: nat) returns (j: nat)
    requires i < |es|
    ensures Key(es[i].labels) in Index(es) && j == Index(es)[Key(es[i].labels)]
    ensures i <= j < |es| && Key(es[j].labels) == Key(es[i].labels)
  {
    IndexHas(es, i);
    j := Index(es)[Key(es[i].labels)];
    IndexedIs(es, Key(es[i].labels));
  }

  lemma AddedIff(es: seq<Element>, e: Element, i: nat, r: nat)
    requires i < |es|
    ensures r in AddedTo(es, e, i) <==>
            r in e.dmdids && Key(e.labels) == Key(es[i].labels) && IsLast(es, i)
  {
    LastIsIndexed(es, i);
    HitIff(es, e.labels);
    if Hit(es, e.labels) {
      IndexedIs(es, Key(e.labels));
    }
    hide Key;
    hide Index;
  }

  /** A DMDID is copied to an element if and only if a physical element with its path has it, and no later
      normative element has that path. */
  lemma {:induction false} CopiedFrom(es: seq<Element>, physical: seq<Element>, i: nat, r: nat)
    requires i < |es|
    ensures |CopyAll(es, physical)| == |es|
    ensures r in CopyAll(es, physical)[i].dmdids <==>
            r in es[i].dmdids
            || (IsLast(es, i) && exists e :: e in physical && r in e.dmdids && Key(e.labels) == Key(es[i].labels))
  {
    CopiedAre(es, physical, i);
    CopiedToIff(es, physical, i, r);
    hide Key;
    hide CopyAll;
    hide CopiedTo;
  }

  lemma {:induction false} CopiedToIff(es: seq<Element>, physical: seq<Element>, i: nat, r: nat)
    requires i < |es|
    ensures r in CopiedTo(es, physical, i) <==>
            IsLast(es, i) && exists e :: e in physical && r in e.dmdids && Key(e.labels) == Key(es[i].labels)
  {
    hide Key;
    hide IsLast;
    hide AddedTo;
    if physical != [] {
      var n := |physical| - 1;
      CopiedToIff(es, physical[..n], i, r);
      AddedIff(es, physical[n], i, r);
      assert physical == physical[..n] + [physical[n]];
    }
  }

  /* ----- counting ----- */

  lemma {:induction false} WithDmdIdsCounts(es: seq<Element>, i: nat, ids: seq<nat>, r: nat)
    requires i < |es|
    ensures multiset(RefsOf(WithDmdIds(es, i, ids)))[r] == multiset(RefsOf(es))[r] + multiset(ids)[r]
  {
    var n := |es| - 1;
    var after := WithDmdIds(es, i, ids);
    RefsOfSnoc(es[..n], es[n]);
    RefsOfSnoc(after[..n], after[n]);
    assert es == es[..n] + [es[n]] && after == after[..n] + [after[n]];
    if i == n {
      assert after[..n] == es[..n];
    } else {
      assert after[..n] == WithDmdIds(es[..n], i, ids);
      WithDmdIdsCounts(es[..n], i, ids, r);
    }
    hide RefsOf;
  }

  /** The physical elements whose DMDIDs are copied. */
  function Hits(es: seq<Element>, physical: seq<Element>): seq<Element> {
    if physical == [] then [] else
      var e := physical[|physical| - 1];
      Hits(es, physical[..|physical| - 1]) + (if Hit(es, e.labels) then [e] else [])
  }

  lemma SetOneCounts(es: seq<Element>, e: Element, r: nat)
    ensures multiset(RefsOf(SetOne(es, e)))[r]
         == multiset(RefsOf(es))[r] + (if Hit(es, e.labels) then multiset(e.dmdids)[r] else 0)
  {
    hide Key;
    hide Index;
    if e.dmdids != [] && Hit(es, e.labels) {
      IndexedIs(es, Key(e.labels));
      WithDmdIdsCounts(es, Index(es)[Key(e.labels)], e.dmdids, r);
    }
  }

  lemma HitsSnoc(es: seq<Element>, physical: seq<Element>, e: Element)
    ensures RefsOf(Hits(es, physical + [e]))
         == RefsOf(Hits(es, physical)) + (if Hit(es, e.labels) then e.dmdids else [])
  {
    assert (physical + [e])[..|physical|] == physical;
    if Hit(es, e.labels) {
      RefsOfSnoc(Hits(es, physical), e);
    } else {
      assert Hits(es, physical) + [] == Hits(es, physical);
    }
  }

  /** Copying adds one reference for each DMDID of a physical element whose path exists. */
  lemma {:induction false} CopyCounts(es: seq<Element>, physical: seq<Element>, r: nat)
    ensures multiset(RefsOf(CopyAll(es, physical)))[r]
         == multiset(RefsOf(es))[r] + multiset(RefsOf(Hits(es, physical)))[r]
  {
    hide Key;
    hide Index;
    hide SetOne;
    hide RefsOf;
    if physical == [] {
      NoElements();
    } else {
      var n := |physical| - 1;
      CopyCounts(es, physical[..n], r);
      CopiedSame(es, physical[..n]);
      SetOneCounts(CopyAll(es, physical[..n]), physical[n], r);
      HitsSnoc(es, physical[..n], physical[n]);
      assert physical == physical[..n] + [physical[n]];
    }
  }

  lemma {:induction false} HitsAreIn(es: seq<Element>, physical: seq<Element>, r: nat)
    requires r in RefsOf(Hits(es, physical))
    ensures r in RefsOf(physical)
  {
    var n := |physical| - 1;
    assert physical == physical[..n] + [physical[n]];
    HitsSnoc(es, physical[..n], physical[n]);
    if r in RefsOf(Hits(es, physical[..n])) {
      HitsAreIn(es, physical[..n], r);
    }
  }

  lemma NotTwice<T>(s: seq<T>, i: nat, j: nat)
    requires Distinct(s) && i < j < |s|
    ensures s[i] != s[j]
  {
  }

  lemma InBoth(a: seq<nat>, b: seq<nat>, r: nat)
    requires Distinct(a + b)
    ensures Distinct(a) && Distinct(b) && !(r in a && r in b)
  {
    forall i, j | 0 <= i < j < |a| ensures a[i] != a[j] {
      assert (a + b)[i] != (a + b)[j];
    }
    forall i, j | 0 <= i < j < |b| ensures b[i] != b[j] {
      assert (a + b)[|a| + i] != (a + b)[|a| + j];
    }
    if r in a && r in b {
      var i :| 0 <= i < |a| && a[i] == r;
      var j :| 0 <= j < |b| && b[j] == r;
      NotTwice(a + b, i, |a| + j);
    }
  }

  /** A reference that occurs once in the physical structMap is copied once if its element's path
      exists, and not at all otherwise. */
  lemma {:induction false} HitOnce(es: seq<Element>, physical: seq<Element>, e: Element, r: nat)
    requires Distinct(RefsOf(physical)) && e in physical && r in e.dmdids
    ensures multiset(RefsOf(Hits(es, physical)))[r] == if Hit(es, e.labels) then 1 else 0
  {
    var n := |physical| - 1;
    var x := physical[n];
    InBoth(RefsOf(physical[..n]), x.dmdids, r);
    assert physical == physical[..n] + [x];
    HitsSnoc(es, physical[..n], x);
    OnceOnly(x.dmdids, r);
    if e in physical[..n] {
      RefsHold(physical[..n], e, r);
      HitOnce(es, physical[..n], e, r);
    } else if r in RefsOf(Hits(es, physical[..n])) {
      HitsAreIn(es, physical[..n], r);
    }
  }

  /** A number that occurs once belongs to one element. */
  lemma {:induction false} OneHolder(es: seq<Element>, e: Element, f: Element, r: nat)
    requires Distinct(RefsOf(es)) && e in es && f in es && r in e.dmdids && r in f.dmdids
    ensures e == f
  {
    var n := |es| - 1;
    InBoth(RefsOf(es[..n]), es[n].dmdids, r);
    if e in es[..n] {
      RefsHold(es[..n], e, r);
    }
    if f in es[..n] {
      RefsHold(es[..n], f, r);
    }
    if e in es[..n] && f in es[..n] {
      OneHolder(es[..n], e, f, r);
    }
  }

  lemma SameLast(a: seq<Element>, b: seq<Element>, i: int)
    requires SameElements(a, b)
    ensures IsLast(a, i) <==> IsLast(b, i)
  {
    hide Key;
    assert forall k :: 0 <= k < |a| ==> Key(a[k].labels) == Key(b[k].labels);
  }
}
