/** The preconfiguredChoices element of a processing configuration, edited in place. */
module Choices {
  import opened Results
  import Strings

  /** A child of preconfiguredChoices: a comment; a choice with the text of its appliesTo and of its
      goToChain, where it has them; anything else. */
  datatype Node = Comment(text: string) | Choice(applies: Option<string>, target: Option<string>) | Other

  predicate Matches(n: Node, link: string) {
    n.Choice? && n.applies.Some? && Strings.Strip(n.applies.value) == link
  }

  /** A choice whose appliesTo is the link, spaces around it aside. */
  ghost predicate ForLink(n: Node, link: string) {
    n.Choice? && n.applies.Some? && Strings.IsTrimmed(n.applies.value, link)
  }

  lemma MatchesIff(n: Node, link: string)
    ensures Matches(n, link) <==> ForLink(n, link)
  {
    if n.Choice? && n.applies.Some? {
      Strings.StripIff(n.applies.value, link);
    }
  }

  /** The first choice for a link, or the number of nodes. */
  function FirstMatch(ns: seq<Node>, link: string): (r: nat)
    ensures r <= |ns|
    ensures r < |ns| ==> Matches(ns[r], link)
    ensures forall i :: 0 <= i < r ==> !Matches(ns[i], link)
  {
    if ns == [] then 0 else
      var n := |ns| - 1;
      var before := FirstMatch(ns[..n], link);
      if before < n then before else if Matches(ns[n], link) then n else n + 1
  }

  lemma FirstMatchIs(ns: seq<Node>, link: string, i: nat)
    requires i <= |ns| && (i < |ns| ==> Matches(ns[i], link)) && forall j :: 0 <= j < i ==> !Matches(ns[j], link)
    ensures FirstMatch(ns, link) == i
  {
  }

  /** The first choice for a link stands at i. */
  ghost predicate IsFirstFor(ns: seq<Node>, link: string, i: int) {
    0 <= i < |ns| && ForLink(ns[i], link) && forall j :: 0 <= j < i ==> !ForLink(ns[j], link)
  }

  lemma FirstMatchIff(ns: seq<Node>, link: string, i: nat)
    ensures IsFirstFor(ns, link, i) <==> i < |ns| && FirstMatch(ns, link) == i
  {
    forall n ensures Matches(n, link) <==> ForLink(n, link) {
      MatchesIff(n, link);
    }
    hide Matches;
    hide ForLink;
    if IsFirstFor(ns, link, i) {
      FirstMatchIs(ns, link, i);
    }
  }

  /** The value of a link is that of the first choice for it. */
  lemma ValueIff(ns: seq<Node>, link: string, v: Option<string>)
    ensures ValueOf(ns, link) == Some(v) <==> exists i :: IsFirstFor(ns, link, i) && ns[i].target == v
  {
    FirstMatchIff(ns, link, FirstMatch(ns, link));
    if i :| IsFirstFor(ns, link, i) && ns[i].target == v {
      FirstMatchIff(ns, link, i);
    }
  }

  /** The value configured for a link: none, or that of its first choice, which may lack one. */
  function ValueOf(ns: seq<Node>, link: string): Option<Option<string>> {
    var i := FirstMatch(ns, link);
    if i < |ns| then Some(ns[i].target) else None
  }

  /** How many choices there are for a link. */
  function MatchCount(ns: seq<Node>, link: string): nat {
    if ns == [] then 0 else MatchCount(ns[..|ns| - 1], link) + (if Matches(ns[|ns| - 1], link) then 1 else 0)
  }

  /* ----- the three edits ----- */

  /** `_remove_choice` keeps a node unless it is a choice for the link, or a comment right in front of
      one. */
  predicate Keeps(ns: seq<Node>, link: string, i: nat)
    requires i < |ns|
  {
    !Matches(ns[i], link) && !(ns[i].Comment? && i + 1 < |ns| && Matches(ns[i + 1], link))
  }

  function Kept(ns: seq<Node>, link: string, n: nat): (r: seq<Node>)
    requires n <= |ns|
    ensures |r| <= n
  {
    if n == 0 then [] else Kept(ns, link, n - 1) + (if Keeps(ns, link, n - 1) then [ns[n - 1]] else [])
  }

  function Removed(ns: seq<Node>, link: string): seq<Node> {
    Kept(ns, link, |ns|)
  }

  /** `_upsert_choice` */
  function Upserted(ns: seq<Node>, link: string, value: string): (r: seq<Node>)
    ensures |r| == if FirstMatch(ns, link) < |ns| then |ns| else |ns| + 1
  {
    var i := FirstMatch(ns, link);
    if i < |ns| then ns[i := ns[i].(target := Some(value))] else ns + [Choice(Some(link), Some(value))]
  }

  /** `_set_choice_comment` for the node at i; `text` is the sanitised comment, if there is one. */
  function Commented(ns: seq<Node>, i: nat, text: Option<string>): seq<Node>
    requires i < |ns|
  {
    if text.None? then ns
    else if i > 0 && ns[i - 1].Comment? then ns[i - 1 := Comment(text.value)]
    else ns[..i] + [Comment(text.value)] + ns[i..]
  }

  function Placed(ns: seq<Node>, link: string, value: string, text: Option<string>): seq<Node> {
    Commented(Upserted(ns, link, value), FirstMatch(ns, link), text)
  }

  /** What one key does to one link. */
  datatype Op = Remove(link: string) | Put(link: string, value: string, comment: Option<string>)

  function Edited(ns: seq<Node>, op: Op): seq<Node> {
    match op
    case Remove(link) => Removed(ns, link)
    case Put(link, value, comment) => Placed(ns, link, value, comment)
  }

  function EditedAll(ns: seq<Node>, ops: seq<Op>): seq<Node> {
    if ops == [] then ns else Edited(EditedAll(ns, ops[..|ops| - 1]), ops[|ops| - 1])
  }

  /* ----- what removing does ----- */

  lemma {:induction false} KeptElements(ns: seq<Node>, link: string, n: nat)
    requires n <= |ns|
    ensures forall x :: x in Kept(ns, link, n) ==> !Matches(x, link) && x in ns[..n]
  {
    if n > 0 {
      KeptElements(ns, link, n - 1);
      assert ns[..n] == ns[..n - 1] + [ns[n - 1]];
    }
  }

  /** A node outlives the removal of a link: it is not for the link, nor a comment right in front of one. */
  ghost predicate Stays(ns: seq<Node>, link: string, i: int) {
    0 <= i < |ns| && !ForLink(ns[i], link) && !(ns[i].Comment? && i + 1 < |ns| && ForLink(ns[i + 1], link))
  }

  lemma StaysIff(ns: seq<Node>, link: string, i: nat)
    requires i < |ns|
    ensures Keeps(ns, link, i) <==> Stays(ns, link, i)
  {
    MatchesIff(ns[i], link);
    if i + 1 < |ns| {
      MatchesIff(ns[i + 1], link);
    }
  }

  /** `at` lists, in order, the positions before n at which nodes stay; `kept` are those nodes. */
  ghost predicate StayAt(ns: seq<Node>, link: string, n: nat, kept: seq<Node>, at: seq<nat>) {
    && |at| == |kept| && n <= |ns| && (forall a, b :: 0 <= a < b < |at| ==> at[a] < at[b])
    && (forall a :: 0 <= a < |at| ==> at[a] < n && kept[a] == ns[at[a]])
    && forall i :: i in at <==> i < n && Stays(ns, link, i)
  }

  lemma StayAtNext(ns: seq<Node>, link: string, n: nat, kept: seq<Node>, at: seq<nat>)
    requires n < |ns| && StayAt(ns, link, n, kept, at)
    ensures Stays(ns, link, n) ==> StayAt(ns, link, n + 1, kept + [ns[n]], at + [n])
    ensures !Stays(ns, link, n) ==> StayAt(ns, link, n + 1, kept, at)
  {
    hide Stays;
  }

  lemma {:induction false} KeptIs(ns: seq<Node>, link: string, n: nat) returns (at: seq<nat>)
    requires n <= |ns|
    ensures StayAt(ns, link, n, Kept(ns, link, n), at)
  {
    hide Stays;
    hide Keeps;
    hide StayAt;
    if n == 0 {
      at := [];
      NoneStay(ns, link);
    } else {
      var before := KeptIs(ns, link, n - 1);
      StaysIff(ns, link, n - 1);
      StayAtNext(ns, link, n - 1, Kept(ns, link, n - 1), before);
      assert Kept(ns, link, n - 1) + [] == Kept(ns, link, n - 1);
      at := if Keeps(ns, link, n - 1) then before + [n - 1] else before;
    }
  }

  lemma NoneStay(ns: seq<Node>, link: string)
    ensures StayAt(ns, link, 0, [], [])
  {
  }

  /** What is left are the nodes that stay, in their order; `at` says where each one was. */
  lemma RemovedIs(ns: seq<Node>, link: string) returns (at: seq<nat>)
    ensures |at| == |Removed(ns, link)| && (forall a, b :: 0 <= a < b < |at| ==> at[a] < at[b])
    ensures forall a :: 0 <= a < |at| ==> at[a] < |ns| && Removed(ns, link)[a] == ns[at[a]]
    ensures forall i :: i in at <==> Stays(ns, link, i)
  {
    at := KeptIs(ns, link, |ns|);
  }

  lemma {:induction false} KeptPrefix(ns: seq<Node>, link: string, m: nat, n: nat)
    requires m <= n <= |ns|
    ensures Kept(ns, link, m) <= Kept(ns, link, n)
  {
    if m < n {
      KeptPrefix(ns, link, m, n - 1);
    }
  }

  lemma KeptAt(ns: seq<Node>, link: string, f: nat)
    requires f < |ns| && Keeps(ns, link, f)
    ensures |Kept(ns, link, f)| < |Removed(ns, link)| && Removed(ns, link)[|Kept(ns, link, f)|] == ns[f]
    ensures Kept(ns, link, f) <= Removed(ns, link)
    ensures f > 0 && Keeps(ns, link, f - 1) ==>
              |Kept(ns, link, f)| > 0 && Removed(ns, link)[|Kept(ns, link, f)| - 1] == ns[f - 1]
  {
    KeptPrefix(ns, link, f + 1, |ns|);
    KeptPrefix(ns, link, f, |ns|);
    assert Kept(ns, link, f + 1)[|Kept(ns, link, f)|] == ns[f];
    if f > 0 && Keeps(ns, link, f - 1) {
      assert Kept(ns, link, f)[|Kept(ns, link, f - 1)|] == ns[f - 1];
    }
  }

  lemma KeptHasNoMatch(ns: seq<Node>, link: string, other: string, f: nat)
    requires f <= |ns| && forall j :: 0 <= j < f ==> !Matches(ns[j], other)
    ensures forall j :: 0 <= j < |Kept(ns, link, f)| ==> !Matches(Kept(ns, link, f)[j], other)
  {
    KeptElements(ns, link, f);
    forall j | 0 <= j < |Kept(ns, link, f)| ensures !Matches(Kept(ns, link, f)[j], other) {
      assert Kept(ns, link, f)[j] in ns[..f];
    }
  }

  /** A choice for another link stays, and so does a comment in front of it; nothing before it
      becomes a choice for its link. */
  lemma RemovedKeeps(ns: seq<Node>, link: string, other: string) returns (i: nat)
    requires other != link && FirstMatch(ns, other) < |ns|
    ensures i == FirstMatch(Removed(ns, link), other) < |Removed(ns, link)|
    ensures Removed(ns, link)[i] == ns[FirstMatch(ns, other)]
    ensures var f := FirstMatch(ns, other);
            f > 0 && ns[f - 1].Comment? ==> i > 0 && Removed(ns, link)[i - 1] == ns[f - 1]
  {
    var f := FirstMatch(ns, other);
    i := |Kept(ns, link, f)|;
    KeptAt(ns, link, f);
    KeptHasNoMatch(ns, link, other, f);
    hide Kept;
    FirstMatchIs(Removed(ns, link), other, i);
  }

  lemma RemovedValues(ns: seq<Node>, link: string, other: string)
    ensures ValueOf(Removed(ns, link), other) == if other == link then None else ValueOf(ns, other)
  {
    var kept := Removed(ns, link);
    KeptElements(ns, link, |ns|);
    if other == link {
      NoMatch(kept, other);
    } else if FirstMatch(ns, other) < |ns| {
      var i := RemovedKeeps(ns, link, other);
    } else {
      assert ns[..|ns|] == ns;
      NoMatch(kept, other);
    }
  }

  lemma NoMatch(ns: seq<Node>, link: string)
    requires forall x :: x in ns ==> !Matches(x, link)
    ensures FirstMatch(ns, link) == |ns|
  {
    FirstMatchIs(ns, link, |ns|);
  }

  lemma {:induction false} NothingToRemove(ns: seq<Node>, link: string, n: nat)
    requires n <= |ns| && FirstMatch(ns, link) == |ns|
    ensures Kept(ns, link, n) == ns[..n]
  {
    if n > 0 {
      NothingToRemove(ns, link, n - 1);
      assert ns[..n] == ns[..n - 1] + [ns[n - 1]];
    }
  }

  /* ----- what placing does ----- */

  predicate Trimmed(link: string) {
    Strings.Strip(link) == link
  }

  /** The first choice of the link gets the value. */
  lemma ReplacedMatches(ns: seq<Node>, link: string, value: string, other: string)
    requires FirstMatch(ns, link) < |ns|
    ensures var after, i := Upserted(ns, link, value), FirstMatch(ns, link);
            && |after| == |ns| && i < |after| && FirstMatch(after, link) == i && after[i].target == Some(value)
            && FirstMatch(after, other) == FirstMatch(ns, other)
  {
    var after, i, j := Upserted(ns, link, value), FirstMatch(ns, link), FirstMatch(ns, other);
    assert Matches(ns[i], link) && ns[i].Choice?;
    SameMatches(ns[i], Some(value), link);
    SameMatches(ns[i], Some(value), other);
    hide FirstMatch;
    hide Matches;
    assert forall k :: 0 <= k < |ns| && k != i ==> after[k] == ns[k];
    FirstMatchIs(after, link, i);
    FirstMatchIs(after, other, j);
  }

  lemma SameMatches(n: Node, target: Option<string>, link: string)
    requires n.Choice?
    ensures Matches(n.(target := target), link) == Matches(n, link)
  {
  }

  /** Or a choice with it is added at the end. */
  lemma AppendedMatches(ns: seq<Node>, link: string, value: string, other: string)
    requires Trimmed(link) && FirstMatch(ns, link) == |ns|
    ensures var after := Upserted(ns, link, value);
            && |after| == |ns| + 1 && FirstMatch(after, link) == |ns| && after[|ns|].target == Some(value)
            && (other != link ==> FirstMatch(after, other) ==
                                  if FirstMatch(ns, other) < |ns| then FirstMatch(ns, other) else |after|)
  {
    var after, j := Upserted(ns, link, value), FirstMatch(ns, other);
    NewMatches(link, value, other);
    hide FirstMatch;
    hide Matches;
    assert forall k :: 0 <= k < |ns| ==> after[k] == ns[k];
    FirstMatchIs(after, link, |ns|);
    if other != link {
      FirstMatchIs(after, other, if j < |ns| then j else |after|);
    }
  }

  lemma NewMatches(link: string, value: string, other: string)
    requires Trimmed(link)
    ensures Matches(Choice(Some(link), Some(value)), other) <==> other == link
  {
  }

  lemma UpsertedMatches(ns: seq<Node>, link: string, value: string, other: string)
    requires Trimmed(link)
    ensures var after := Upserted(ns, link, value);
            && FirstMatch(ns, link) < |after| && FirstMatch(after, link) == FirstMatch(ns, link)
            && after[FirstMatch(ns, link)].target == Some(value)
            && (other != link ==> FirstMatch(after, other) ==
                                  if FirstMatch(ns, other) < |ns| then FirstMatch(ns, other) else |after|)
  {
    hide Upserted;
    if FirstMatch(ns, link) < |ns| {
      ReplacedMatches(ns, link, value, other);
    } else {
      AppendedMatches(ns, link, value, other);
    }
  }

  /** Where the node at j goes when a comment is put before the node at i. */
  function Moved(ns: seq<Node>, i: nat, text: Option<string>, j: nat): nat {
    if text.Some? && !(0 < i <= |ns| && ns[i - 1].Comment?) && j >= i then j + 1 else j
  }

  /** Where a comment is put before a node. */
  lemma InsertedMatches(ns: seq<Node>, i: nat, text: string, other: string)
    requires i < |ns|
    ensures var after, j := ns[..i] + [Comment(text)] + ns[i..], FirstMatch(ns, other);
            && FirstMatch(after, other) == (if j >= i then j + 1 else j)
            && (j < |ns| ==> FirstMatch(after, other) < |after| && after[FirstMatch(after, other)] == ns[j])
  {
    var after, j := ns[..i] + [Comment(text)] + ns[i..], FirstMatch(ns, other);
    hide FirstMatch;
    hide Strings.Strip;
    assert after[i] == Comment(text) && forall k :: 0 <= k < i ==> after[k] == ns[k];
    assert forall k :: i < k < |after| ==> after[k] == ns[k - 1];
    FirstMatchIs(after, other, if j >= i then j + 1 else j);
  }

  /** Where a comment takes the place of one. */
  lemma RewordedMatches(ns: seq<Node>, i: nat, text: string, other: string)
    requires i < |ns| && ns[i].Comment?
    ensures var after, j := ns[i := Comment(text)], FirstMatch(ns, other);
            FirstMatch(after, other) == j && (j < |ns| ==> after[j] == ns[j])
  {
    var after, j := ns[i := Comment(text)], FirstMatch(ns, other);
    hide FirstMatch;
    hide Strings.Strip;
    FirstMatchIs(after, other, j);
  }

  lemma CommentedMatches(ns: seq<Node>, i: nat, text: Option<string>, other: string)
    requires i < |ns|
    ensures var after := Commented(ns, i, text);
            FirstMatch(after, other) == if FirstMatch(ns, other) < |ns| then Moved(ns, i, text, FirstMatch(ns, other))
                                        else |after|
    ensures var after := Commented(ns, i, text);
            FirstMatch(ns, other) < |ns| && !ns[i].Comment? ==>
              FirstMatch(after, other) < |after| && after[FirstMatch(after, other)] == ns[FirstMatch(ns, other)]
  {
    hide FirstMatch;
    hide Matches;
    if text.Some? {
      if i > 0 && ns[i - 1].Comment? {
        RewordedMatches(ns, i - 1, text.value, other);
      } else {
        InsertedMatches(ns, i, text.value, other);
      }
    }
  }

  lemma PlacedValues(ns: seq<Node>, link: string, value: string, text: Option<string>, other: string)
    requires Trimmed(link)
    ensures ValueOf(Placed(ns, link, value, text), other) ==
            if other == link then Some(Some(value)) else ValueOf(ns, other)
  {
    UpsertedMatches(ns, link, value, other);
    CommentedMatches(Upserted(ns, link, value), FirstMatch(ns, link), text, other);
  }

  /* ----- map update ----- */

  predicate WellFormed(op: Op) {
    op.Put? ==> Trimmed(op.link)
  }

  /** The value of a link after the edits: that of the last edit for it, if there is one. */
  function Expected(ops: seq<Op>, link: string, base: Option<Option<string>>): Option<Option<string>> {
    if ops == [] then base else
      var last := ops[|ops| - 1];
      if last.link != link then Expected(ops[..|ops| - 1], link, base)
      else if last.Put? then Some(Some(last.value)) else None
  }

  lemma {:induction false} EditsUpdateMap(ns: seq<Node>, ops: seq<Op>, link: string)
    requires forall op :: op in ops ==> WellFormed(op)
    ensures ValueOf(EditedAll(ns, ops), link) == Expected(ops, link, ValueOf(ns, link))
  {
    if ops != [] {
      var n := |ops| - 1;
      EditsUpdateMap(ns, ops[..n], link);
      assert ops[n] in ops;
      match ops[n]
      case Remove(l) => RemovedValues(EditedAll(ns, ops[..n]), l, link);
      case Put(l, value, comment) => PlacedValues(EditedAll(ns, ops[..n]), l, value, comment, link);
    }
  }

  /** No link is edited twice. */
  ghost predicate DistinctLinks(ops: seq<Op>) {
    forall i, j :: 0 <= i < j < |ops| ==> ops[i].link != ops[j].link
  }

  lemma {:induction false} ExpectedOf(ops: seq<Op>, link: string, base: Option<Option<string>>)
    requires DistinctLinks(ops)
    ensures (forall op :: op in ops ==> op.link != link) ==> Expected(ops, link, base) == base
    ensures forall op :: op in ops && op.link == link ==>
              Expected(ops, link, base) == if op.Put? then Some(Some(op.value)) else None
  {
    if ops != [] {
      var n := |ops| - 1;
      ExpectedOf(ops[..n], link, base);
      assert ops == ops[..n] + [ops[n]];
    }
  }

  /** The order of the edits does not matter for the values. */
  lemma OrderDoesNotMatter(ns: seq<Node>, a: seq<Op>, b: seq<Op>, link: string)
    requires DistinctLinks(a) && DistinctLinks(b) && forall op :: op in a <==> op in b
    requires forall op :: op in a ==> WellFormed(op)
    ensures ValueOf(EditedAll(ns, a), link) == ValueOf(EditedAll(ns, b), link)
  {
    EditsUpdateMap(ns, a, link);
    EditsUpdateMap(ns, b, link);
    ExpectedOf(a, link, ValueOf(ns, link));
    ExpectedOf(b, link, ValueOf(ns, link));
  }

  /* ----- one choice per link ----- */

  lemma {:induction false} CountConcat(a: seq<Node>, b: seq<Node>, link: string)
    ensures MatchCount(a + b, link) == MatchCount(a, link) + MatchCount(b, link)
  {
    if b == [] {
      assert a + b == a;
    } else {
      assert (a + b)[..|a + b| - 1] == a + b[..|b| - 1];
      CountConcat(a, b[..|b| - 1], link);
    }
  }

  lemma CountAround(a: seq<Node>, x: Node, b: seq<Node>, link: string)
    ensures MatchCount(a + [x] + b, link) == MatchCount(a, link) + (if Matches(x, link) then 1 else 0) + MatchCount(b, link)
  {
    CountConcat(a + [x], b, link);
    CountSnoc(a, x, link);
  }

  lemma CountReplaced(ns: seq<Node>, i: nat, x: Node, link: string)
    requires i < |ns| && Matches(x, link) == Matches(ns[i], link)
    ensures MatchCount(ns[i := x], link) == MatchCount(ns, link)
  {
    CountAround(ns[..i], ns[i], ns[i + 1..], link);
    CountAround(ns[..i], x, ns[i + 1..], link);
    assert ns == ns[..i] + [ns[i]] + ns[i + 1..] && ns[i := x] == ns[..i] + [x] + ns[i + 1..];
  }

  lemma {:induction false} NoneCounted(ns: seq<Node>, link: string)
    requires forall i :: 0 <= i < |ns| ==> !Matches(ns[i], link)
    ensures MatchCount(ns, link) == 0
  {
    if ns != [] {
      NoneCounted(ns[..|ns| - 1], link);
    }
  }

  lemma {:induction false} KeptCount(ns: seq<Node>, link: string, n: nat, other: string)
    requires n <= |ns|
    ensures MatchCount(Kept(ns, link, n), other) == if other == link then 0 else MatchCount(ns[..n], other)
  {
    if n > 0 {
      KeptCount(ns, link, n - 1, other);
      assert ns[..n] == ns[..n - 1] + [ns[n - 1]];
      CountSnoc(ns[..n - 1], ns[n - 1], other);
      CountSnoc(Kept(ns, link, n - 1), ns[n - 1], other);
      hide MatchCount;
    }
  }

  lemma CountSnoc(a: seq<Node>, x: Node, link: string)
    ensures MatchCount(a + [x], link) == MatchCount(a, link) + (if Matches(x, link) then 1 else 0)
    ensures MatchCount(a + [], link) == MatchCount(a, link)
  {
    assert (a + [x])[..|a|] == a && a + [] == a;
  }

  lemma UpsertedCount(ns: seq<Node>, link: string, value: string, other: string)
    requires Trimmed(link)
    ensures MatchCount(Upserted(ns, link, value), other) ==
            if other == link && FirstMatch(ns, link) == |ns| then 1 else MatchCount(ns, other)
  {
    var i := FirstMatch(ns, link);
    if i < |ns| {
      CountReplaced(ns, i, ns[i].(target := Some(value)), other);
    } else {
      var n := Choice(Some(link), Some(value));
      assert (ns + [n])[..|ns|] == ns;
      if other == link {
        NoneCounted(ns, link);
      }
    }
  }

  lemma CommentedCount(ns: seq<Node>, i: nat, text: Option<string>, other: string)
    requires i < |ns|
    ensures MatchCount(Commented(ns, i, text), other) == MatchCount(ns, other)
  {
    if text.Some? {
      if i > 0 && ns[i - 1].Comment? {
        CountReplaced(ns, i - 1, Comment(text.value), other);
      } else {
        CountAround(ns[..i], Comment(text.value), ns[i..], other);
        CountConcat(ns[..i], ns[i..], other);
        assert ns == ns[..i] + ns[i..];
      }
    }
  }

  /** No link gets a second choice. */
  lemma {:induction false} UniquenessKept(ns: seq<Node>, ops: seq<Op>, link: string)
    requires MatchCount(ns, link) <= 1 && forall op :: op in ops ==> WellFormed(op)
    ensures MatchCount(EditedAll(ns, ops), link) <= 1
  {
    if ops != [] {
      var n := |ops| - 1;
      UniquenessKept(ns, ops[..n], link);
      assert ops[n] in ops;
      var before := EditedAll(ns, ops[..n]);
      match ops[n]
      case Remove(l) =>
        KeptCount(before, l, |before|, link);
        assert before[..|before|] == before;
      case Put(l, value, comment) =>
        UpsertedCount(before, l, value, link);
        CommentedCount(Upserted(before, l, value), FirstMatch(before, l), comment, link);
    }
  }

  /* ----- applying twice ----- */

  /** The node list already is what the edit would make of it. */
  ghost predicate Settled(ns: seq<Node>, op: Op) {
    var i := FirstMatch(ns, op.link);
    match op
    case Remove(_) => i == |ns|
    case Put(_, value, comment) =>
      i < |ns| && ns[i].target == Some(value) && (comment.Some? ==> i > 0 && ns[i - 1] == Comment(comment.value))
  }

  lemma SettledStays(ns: seq<Node>, op: Op)
    requires Settled(ns, op)
    ensures Edited(ns, op) == ns
  {
    var i := FirstMatch(ns, op.link);
    match op
    case Remove(link) =>
      NothingToRemove(ns, link, |ns|);
      assert ns[..|ns|] == ns;
    case Put(link, value, comment) =>
      assert ns[i := ns[i].(target := Some(value))] == ns;
      if comment.Some? {
        assert ns[i - 1 := Comment(comment.value)] == ns;
      }
  }

  /** The commented node, with its comment, once the comment was put. */
  lemma CommentedHas(ns: seq<Node>, i: nat, text: Option<string>)
    requires i < |ns| && ns[i].Choice?
    ensures var after, p := Commented(ns, i, text), Moved(ns, i, text, i);
            p < |after| && after[p] == ns[i] && (text.Some? ==> p > 0 && after[p - 1] == Comment(text.value))
  {
  }

  /** Other nodes keep their comments. */
  lemma CommentedKeepsPair(ns: seq<Node>, i: nat, text: Option<string>, j: nat)
    requires i < |ns| && ns[i].Choice? && 0 < j < |ns| && j != i && ns[j].Choice?
    ensures var after, p := Commented(ns, i, text), Moved(ns, i, text, j);
            0 < p < |after| && after[p] == ns[j] && (ns[j - 1].Comment? ==> after[p - 1] == ns[j - 1])
  {
  }

  lemma EditSettles(ns: seq<Node>, op: Op)
    requires WellFormed(op)
    ensures Settled(Edited(ns, op), op)
  {
    match op
    case Remove(link) =>
      KeptElements(ns, link, |ns|);
      NoMatch(Removed(ns, link), link);
    case Put(link, value, comment) =>
      var mid, i := Upserted(ns, link, value), FirstMatch(ns, link);
      UpsertedMatches(ns, link, value, link);
      CommentedMatches(mid, i, comment, link);
      CommentedHas(mid, i, comment);
      hide Commented;
      hide Upserted;
  }

  lemma UpsertedKeeps(ns: seq<Node>, link: string, value: string, other: string)
    requires other != link && FirstMatch(ns, other) < |ns|
    ensures var mid, f := Upserted(ns, link, value), FirstMatch(ns, other);
            && f < |mid| && mid[f] == ns[f] && f != FirstMatch(ns, link)
            && (f > 0 && ns[f - 1].Comment? ==> mid[f - 1] == ns[f - 1])
            && FirstMatch(ns, link) < |mid| && mid[FirstMatch(ns, link)].Choice?
  {
    var i, f := FirstMatch(ns, link), FirstMatch(ns, other);
    assert Matches(ns[f], other);
    assert i < |ns| ==> Matches(ns[i], link);
    hide FirstMatch;
  }

  /** Placing keeps a choice for another link, and the comment in front of it. */
  lemma PlacedKeeps(ns: seq<Node>, link: string, value: string, text: Option<string>, other: string)
    requires Trimmed(link) && other != link && FirstMatch(ns, other) < |ns|
    ensures var after, f := Placed(ns, link, value, text), FirstMatch(ns, other);
            && FirstMatch(after, other) < |after| && after[FirstMatch(after, other)] == ns[f]
            && (f > 0 && ns[f - 1].Comment? ==>
                  FirstMatch(after, other) > 0 && after[FirstMatch(after, other) - 1] == ns[f - 1])
  {
    hide Commented;
    hide Upserted;
    hide Matches;
    hide Moved;
    hide Trimmed;
    var mid, i, f := Upserted(ns, link, value), FirstMatch(ns, link), FirstMatch(ns, other);
    UpsertedMatches(ns, link, value, other);
    UpsertedKeeps(ns, link, value, other);
    CommentedMatches(mid, i, text, other);
    if f > 0 {
      MatchIsChoice(ns[f], other);
      CommentedKeepsPair(mid, i, text, f);
    }
  }

  lemma MatchIsChoice(n: Node, link: string)
    ensures Matches(n, link) ==> n.Choice?
  {
  }

  lemma RemoveKeepsSettled(ns: seq<Node>, link: string, other: Op)
    requires link != other.link && Settled(ns, other)
    ensures Settled(Removed(ns, link), other)
  {
    hide Matches;
    if other.Put? {
      var i := RemovedKeeps(ns, link, other.link);
    } else {
      RemovedValues(ns, link, other.link);
    }
    hide Removed;
  }

  lemma PutKeepsSettled(ns: seq<Node>, link: string, value: string, comment: Option<string>, other: Op)
    requires Trimmed(link) && link != other.link && Settled(ns, other)
    ensures Settled(Placed(ns, link, value, comment), other)
  {
    hide Matches;
    hide Trimmed;
    hide Placed;
    hide FirstMatch;
    if other.Put? {
      PlacedKeeps(ns, link, value, comment, other.link);
    } else {
      PlacedValues(ns, link, value, comment, other.link);
    }
  }

  lemma EditKeepsSettled(ns: seq<Node>, op: Op, other: Op)
    requires WellFormed(op) && op.link != other.link && Settled(ns, other)
    ensures Settled(Edited(ns, op), other)
  {
    match op
    case Remove(link) => RemoveKeepsSettled(ns, link, other);
    case Put(link, value, comment) => PutKeepsSettled(ns, link, value, comment, other);
  }

  lemma {:induction false} AllSettled(ns: seq<Node>, ops: seq<Op>, op: Op)
    requires DistinctLinks(ops) && (forall o :: o in ops ==> WellFormed(o)) && op in ops
    ensures Settled(EditedAll(ns, ops), op)
  {
    var n := |ops| - 1;
    assert ops[n] in ops;
    var i :| 0 <= i < |ops| && ops[i] == op;
    if i == n {
      EditSettles(EditedAll(ns, ops[..n]), op);
    } else {
      assert op == ops[..n][i];
      AllSettled(ns, ops[..n], op);
      EditKeepsSettled(EditedAll(ns, ops[..n]), ops[n], op);
    }
  }

  lemma {:induction false} SettledStaysAll(ns: seq<Node>, ops: seq<Op>)
    requires forall op :: op in ops ==> Settled(ns, op)
    ensures EditedAll(ns, ops) == ns
  {
    if ops != [] {
      SettledStaysAll(ns, ops[..|ops| - 1]);
      SettledStays(ns, ops[|ops| - 1]);
    }
  }

  /** Applying the same edits again changes nothing, comments included. */
  lemma EditsAreIdempotent(ns: seq<Node>, ops: seq<Op>)
    requires DistinctLinks(ops) && forall op :: op in ops ==> WellFormed(op)
    ensures EditedAll(EditedAll(ns, ops), ops) == EditedAll(ns, ops)
  {
    forall op | op in ops ensures Settled(EditedAll(ns, ops), op) {
      AllSettled(ns, ops, op);
    }
    SettledStaysAll(EditedAll(ns, ops), ops);
  }
}
