/** What a new name keeps of the name it replaces, told from the characters of both. */
module KeptNames {
  import opened ChangeNames
  import opened FileTree
  import opened Strings
  import opened Unicode

  /** The ASCII digits, capital and small letters, and five more characters. */
  predicate Kept(c: char) {
    0x30 <= c as int <= 0x39 || 0x41 <= c as int <= 0x5A || 0x61 <= c as int <= 0x7A || c in "-_.()"
  }

  /** Position by position, a character that is kept stays and every other one becomes "_". */
  predicate Respelled(text: string, name: string) {
    |name| == |text| && forall i :: 0 <= i < |text| ==> name[i] == if Kept(text[i]) then text[i] else '_'
  }

  lemma AllowedAreKept(c: char)
    ensures Allowed(c) <==> Kept(c)
  {
  }

  /** The transliterated name, or the name itself if nothing is left of it. */
  function Spelling(decode: Unidecode, basename: string): string {
    if decode(basename) == "" then basename else decode(basename)
  }

  /** Cleaning respells that. */
  lemma CleanNameRespells(decode: Unidecode, basename: string)
    requires basename != ""
    ensures Respelled(Spelling(decode, basename), CleanName(decode, basename))
  {
    forall c: char ensures Allowed(c) <==> Kept(c) {
      AllowedAreKept(c);
    }
  }

  /* ----- titles and extensions ----- */

  predicate OnlyPeriods(s: string) {
    forall i :: 0 <= i < |s| ==> s[i] == '.'
  }

  /** The extension is the part from the last period on; a period with nothing but periods before it
      starts none. */
  predicate Parts(s: string, title: string, extension: string) {
    && s == title + extension
    && if extension == "" then forall i :: 0 <= i < |s| && s[i] == '.' ==> OnlyPeriods(s[..i])
       else extension[0] == '.' && '.' !in extension[1..] && !OnlyPeriods(title)
  }

  lemma SplitParts(s: string)
    ensures Parts(s, SplitExt(s).0, SplitExt(s).1)
  {
    var dot := LastDot(s);
    if i :| 0 <= i < dot && s[i] != '.' {
      assert s[..dot][i] != '.';
      assert forall k :: 1 <= k < |s[dot..]| ==> s[dot..][k] == s[dot + k];
    } else {
      forall i | 0 <= i < |s| && s[i] == '.' ensures OnlyPeriods(s[..i]) {
        assert i <= dot;
      }
    }
  }

  lemma LastPeriod(s: string, title: string, extension: string)
    requires Parts(s, title, extension) && extension != ""
    ensures s[|title|] == '.' && forall k :: |title| < k < |s| ==> s[k] != '.'
    ensures !OnlyPeriods(s[..|title|])
  {
    assert s[..|title|] == title;
    forall k | |title| < k < |s| ensures s[k] != '.' {
      assert s[k] == extension[1..][k - |title| - 1];
    }
  }

  /** There is one way to take a name apart. */
  lemma PartsUnique(s: string, title: string, extension: string)
    requires Parts(s, title, extension)
    ensures (title, extension) == SplitExt(s)
  {
    SplitParts(s);
    var t, e := SplitExt(s).0, SplitExt(s).1;
    if extension != "" {
      LastPeriod(s, title, extension);
    }
    if e != "" {
      LastPeriod(s, t, e);
    }
    assert |title| == |t|;
    assert title == s[..|t|] == t && extension == s[|t|..] == e;
  }

  /* ----- the name that is taken ----- */

  /** What attempt n puts between title and extension. */
  function Suffix(n: nat): string {
    if n == 0 then "" else "_" + Decimal(n)
  }

  /** A name within the limit: as much of the title as there is room for, the suffix of attempt n, and
      the whole extension. */
  ghost predicate Shaped(cleaned: string, max: nat, n: nat, name: string) {
    exists title, extension, kept :: ShapedOf(cleaned, title, extension, kept, max, n, name)
  }

  predicate ShapedOf(cleaned: string, title: string, extension: string, kept: string, max: nat, n: nat, name: string) {
    && Parts(cleaned, title, extension) && kept <= title && name == kept + Suffix(n) + extension
    && |name| <= max && (kept == title || |name| == max)
  }

  lemma CandidateIs(cleaned: string, max: nat, n: nat)
    ensures var title, extension := SplitExt(cleaned).0, SplitExt(cleaned).1;
            Candidate(cleaned, max, n)
            == Prefix(title, max - |extension| - |Suffix(n)|) + Suffix(n) + extension
  {
    var title, extension := SplitExt(cleaned).0, SplitExt(cleaned).1;
    hide SplitExt;
    hide Prefix;
    hide Decimal;
    assert Prefix(title, max - |extension|) + "" == Prefix(title, max - |extension|);
  }

  lemma FitIff(cleaned: string, max: nat, n: nat)
    ensures |Candidate(cleaned, max, n)| <= max <==> |SplitExt(cleaned).1| + |Suffix(n)| <= max
  {
    CandidateFits(cleaned, max, n);
    hide SplitExt;
    hide Candidate;
    hide Decimal;
  }

  lemma Cut(title: string, room: nat)
    ensures var kept := Prefix(title, room);
            kept <= title && |kept| <= room && (kept == title || |kept| == room)
  {
  }

  lemma CandidateIsShaped(cleaned: string, max: nat, n: nat)
    requires |Candidate(cleaned, max, n)| <= max
    ensures Shaped(cleaned, max, n, Candidate(cleaned, max, n))
  {
    var title, extension := SplitExt(cleaned).0, SplitExt(cleaned).1;
    SplitParts(cleaned);
    CandidateIs(cleaned, max, n);
    FitIff(cleaned, max, n);
    Cut(title, max - |extension| - |Suffix(n)|);
    hide Parts;
    hide SplitExt;
    hide Prefix;
    hide Candidate;
    hide Suffix;
    var kept := Prefix(title, max - |extension| - |Suffix(n)|);
    assert ShapedOf(cleaned, title, extension, kept, max, n, Candidate(cleaned, max, n));
  }

  lemma CutToFit(title: string, kept: string, room: int)
    requires kept <= title && |kept| <= room && (kept == title || |kept| == room)
    ensures kept == Prefix(title, room)
  {
  }

  /** For each attempt there is one name of that shape. */
  lemma ShapedIsCandidate(cleaned: string, max: nat, n: nat, name: string)
    requires Shaped(cleaned, max, n, name)
    ensures name == Candidate(cleaned, max, n)
  {
    var title, extension, kept :| ShapedOf(cleaned, title, extension, kept, max, n, name);
    PartsUnique(cleaned, title, extension);
    CandidateIs(cleaned, max, n);
    hide Parts;
    hide SplitExt;
    hide Candidate;
    hide Suffix;
    CutToFit(title, kept, max - |extension| - |Suffix(n)|);
  }

  /** The names in a directory that cannot be taken, "." and ".." included. */
  predicate Used(names: set<string>, name: string) {
    name in names || name == "" || name == "." || name == ".."
  }

  /** A name replaces another one that is cleaned thus: an unused name is taken as it is, and in general
      the first attempt that gives an unused name. */
  ghost predicate Keeps(names: set<string>, max: nat, cleaned: string, name: string) {
    && (|cleaned| <= max && !Used(names, cleaned) ==> name == cleaned)
    && (|name| <= max ==> exists n: nat :: FirstShape(names, max, cleaned, n, name))
  }

  ghost predicate FirstShape(names: set<string>, max: nat, cleaned: string, n: nat, name: string) {
    && Shaped(cleaned, max, n, name) && !Used(names, name)
    && forall m: nat, other :: m < n && Shaped(cleaned, max, m, other) ==> Used(names, other)
  }

  /** A name that is spelled cleanly stays; any other one is replaced as `Keeps` says. */
  ghost predicate NameKeeps(decode: Unidecode, names: set<string>, max: nat, basename: string, name: string) {
    exists cleaned :: Respelled(Spelling(decode, basename), cleaned)
                      && if cleaned == basename then name == basename else Keeps(names, max, cleaned, name)
  }

  lemma NewNameKeeps(decode: Unidecode, names: set<string>, basename: string, max: nat)
    requires basename != ""
    ensures NameKeeps(decode, names, max, basename, NewName(decode, names, basename, max))
  {
    var cleaned := CleanName(decode, basename);
    CleanNameRespells(decode, basename);
    hide Respelled;
    hide CleanName;
    if cleaned != basename {
      FirstCandidateKeeps(names, cleaned, max);
    }
  }

  lemma FreeCandidate(names: set<string>, cleaned: string, max: nat)
    ensures !Used(names, Candidate(cleaned, max, FreeIndex(names, cleaned, max)))
    ensures forall m: nat :: m < FreeIndex(names, cleaned, max) ==> Used(names, Candidate(cleaned, max, m))
  {
    var candidates := CandidatesOf(cleaned, max);
    forall m: nat ensures candidates(m) == Candidate(cleaned, max, m) {
    }
    hide Candidate;
  }

  lemma FirstCandidateKeeps(names: set<string>, cleaned: string, max: nat)
    ensures Keeps(names, max, cleaned, Candidate(cleaned, max, FreeIndex(names, cleaned, max)))
  {
    var n := FreeIndex(names, cleaned, max);
    var name := Candidate(cleaned, max, n);
    FreeCandidate(names, cleaned, max);
    if |cleaned| <= max {
      CandidateIsCleaned(cleaned, max);
    }
    hide Candidate;
    hide Shaped;
    hide Used;
    if |name| <= max {
      CandidateIsShaped(cleaned, max, n);
      forall m: nat, other | m < n && Shaped(cleaned, max, m, other) ensures Used(names, other) {
        ShapedIsCandidate(cleaned, max, m, other);
      }
      assert FirstShape(names, max, cleaned, n, name);
    }
  }

  lemma CandidateIsCleaned(cleaned: string, max: nat)
    requires |cleaned| <= max
    ensures Candidate(cleaned, max, 0) == cleaned
  {
  }

  /* ----- all names of a tree ----- */

  /** The names in a directory when entry i is renamed: those before it have been. */
  function NamesAt(before: seq<Entry>, after: seq<Entry>, i: nat): set<string>
    requires i <= |before| && i <= |after|
  {
    Names(after[..i] + before[i..])
  }

  ghost predicate TreeKeeps(decode: Unidecode, max: nat, before: seq<Entry>, after: seq<Entry>)
    decreases before, |before| + 1
  {
    |before| == |after| && KeptFrom(decode, max, before, after, 0)
  }

  ghost predicate KeptFrom(decode: Unidecode, max: nat, before: seq<Entry>, after: seq<Entry>, n: nat)
    requires |before| == |after|
    decreases before, |before| - n
  {
    n < |before| ==>
      EntryKeeps(decode, max, NamesAt(before, after, n), before[n], after[n])
      && KeptFrom(decode, max, before, after, n + 1)
  }

  ghost predicate EntryKeeps(decode: Unidecode, max: nat, names: set<string>, before: Entry, after: Entry)
    decreases before, 0
  {
    NameKeeps(decode, names, max, before.name, after.name)
    && match (before.node, after.node)
       case (File(c), File(d)) => c == d
       case (Dir(s), Dir(t)) => TreeKeeps(decode, max, s, t)
       case _ => false
  }

  lemma {:induction false} EntryKept(decode: Unidecode, max: nat, names: set<string>, e: Entry)
    requires e.name != "" && ValidNode(e.node)
    ensures EntryKeeps(decode, max, names, e, CleanedEntry(ChangePathRule(decode, max), names, e))
    decreases e, 0
  {
    NewNameKeeps(decode, names, e.name, max);
    if e.node.Dir? {
      TreeKept(decode, max, e.node.entries);
    }
  }

  /** A complete walk respells every name of the tree, and only that. */
  lemma {:induction false} TreeKept(decode: Unidecode, max: nat, before: seq<Entry>)
    requires ValidDir(before)
    ensures TreeKeeps(decode, max, before, Cleaned(ChangePathRule(decode, max), [], before))
    decreases before, 1
  {
    RestKept(decode, max, before, []);
    assert before[0..] == before;
  }

  lemma CleanedStep(rename: Renamer, before: seq<Entry>, done: seq<Entry>)
    requires |done| < |before|
    ensures var n := |done|;
            var e := CleanedEntry(rename, Names(done + before[n..]), before[n]);
            && |done + [e]| == n + 1
            && Cleaned(rename, done, before[n..]) == Cleaned(rename, done + [e], before[n + 1..])
  {
    var n := |done|;
    assert before[n..][0] == before[n] && before[n..][1..] == before[n + 1..];
  }

  lemma KeptNext(decode: Unidecode, max: nat, before: seq<Entry>, after: seq<Entry>, done: seq<Entry>, e: Entry)
    requires done + [e] <= after && |done| < |before| == |after| && KeptFrom(decode, max, before, after, |done| + 1)
    requires EntryKeeps(decode, max, Names(done + before[|done|..]), before[|done|], e)
    ensures done <= after && KeptFrom(decode, max, before, after, |done|)
  {
    hide EntryKeeps;
    var n := |done|;
    assert (done + [e])[n] == e == after[n] && after[..n] == done;
  }

  lemma {:induction false} RestKept(decode: Unidecode, max: nat, before: seq<Entry>, done: seq<Entry>)
    requires ValidDir(before) && |done| <= |before|
    ensures var after := Cleaned(ChangePathRule(decode, max), done, before[|done|..]);
            done <= after && |after| == |before| && KeptFrom(decode, max, before, after, |done|)
    decreases before, 0, |before| - |done|
  {
    var n := |done|;
    if n == |before| {
      assert before[n..] == [];
    } else {
      var rename := ChangePathRule(decode, max);
      var e := CleanedEntry(rename, Names(done + before[n..]), before[n]);
      hide ValidNode;
      EntryKept(decode, max, Names(done + before[n..]), before[n]);
      CleanedStep(rename, before, done);
      hide Cleaned;
      hide CleanedEntry;
      hide KeptFrom;
      hide EntryKeeps;
      hide ChangePathRule;
      RestKept(decode, max, before, done + [e]);
      KeptNext(decode, max, before, Cleaned(rename, done, before[n..]), done, e);
    }
  }
}
