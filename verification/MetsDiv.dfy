/** The mets:div elements of a structMap, and what they refer to. */
module MetsDiv {
  import opened Results
  import opened Sequences

  /** A mets:div: TYPE, LABEL (`title`), the numbers of the dmdSecs in its DMDID, the file it points to, and
      its children. */
  datatype Div = Div(isDir: bool, title: string, dmdids: seq<nat>, fptr: Option<string>, children: seq<Div>)

  /** The dmdSecs referred to, in document order. */
  function DmdRefs(divs: seq<Div>): seq<nat>
    decreases divs
  {
    if divs == [] then [] else
      DmdRefs(divs[..|divs| - 1]) + (divs[|divs| - 1].dmdids + DmdRefs(divs[|divs| - 1].children))
  }

  function FptrOf(d: Div): seq<string> {
    if d.fptr.Some? then [d.fptr.value] else []
  }

  /** The files pointed to, in document order. */
  function Fptrs(divs: seq<Div>): seq<string>
    decreases divs
  {
    if divs == [] then [] else
      Fptrs(divs[..|divs| - 1]) + (FptrOf(divs[|divs| - 1]) + Fptrs(divs[|divs| - 1].children))
  }

  lemma NoRefs()
    ensures DmdRefs([]) == [] && Fptrs([]) == []
  {
  }

  lemma RefsSnoc(divs: seq<Div>, d: Div)
    ensures DmdRefs(divs + [d]) == DmdRefs(divs) + (d.dmdids + DmdRefs(d.children))
    ensures Fptrs(divs + [d]) == Fptrs(divs) + (FptrOf(d) + Fptrs(d.children))
  {
    assert (divs + [d])[..|divs|] == divs;
  }

  lemma RefsOfOne(d: Div)
    ensures DmdRefs([d]) == d.dmdids + DmdRefs(d.children)
    ensures Fptrs([d]) == FptrOf(d) + Fptrs(d.children)
  {
    NoRefs();
    NothingBefore([d]);
    RefsSnoc([], d);
    NothingBefore(d.dmdids + DmdRefs(d.children));
    NothingBefore(FptrOf(d) + Fptrs(d.children));
  }

  lemma {:induction false} RefsConcat(a: seq<Div>, b: seq<Div>)
    ensures DmdRefs(a + b) == DmdRefs(a) + DmdRefs(b)
  {
    if b == [] {
      assert a + b == a;
    } else {
      var n := |b| - 1;
      var d := b[n];
      RefsConcat(a, b[..n]);
      assert b == b[..n] + [d];
      Associative(a, b[..n], [d]);
      RefsSnoc(a + b[..n], d);
      RefsSnoc(b[..n], d);
      Associative(DmdRefs(a), DmdRefs(b[..n]), d.dmdids + DmdRefs(d.children));
    }
  }
}
