/** `pad_destination_path_if_it_already_exists`: a free name beside an existing one. */
module PadPath {
  import opened FirstFree
  import opened Results
  import opened Strings

  /** The entries of the destination directory: which names exist, and which are directories. */
  type Directory = map<string, bool>

  /** The position of the first period, or the length. */
  function Period(name: string): (r: nat)
    ensures r <= |name| && (r < |name| ==> name[r] == '.')
    ensures forall i :: 0 <= i < r ==> name[i] != '.'
  {
    if name == "" then 0 else
      var n := |name| - 1;
      var before := Period(name[..n]);
      if before < n then before else if name[n] == '.' then n else n + 1
  }

  predicate HasPeriod(name: string) {
    Period(name) < |name|
  }

  /** The name tried next when a directory is in the way. */
  function AfterDir(original: string, n: nat): string {
    original + "_" + Decimal(n)
  }

  /** The name tried next when something else is: the number goes before the first period. */
  function AfterFile(original: string, n: nat): string {
    original[..Period(original)] + "_" + Decimal(n) + original[Period(original)..]
  }

  /** The n-th name tried, provided all before exist. */
  function Candidate(fs: Directory, original: string, n: nat): string {
    if n == 0 then original
    else if Candidate(fs, original, n - 1) in fs && fs[Candidate(fs, original, n - 1)] then AfterDir(original, n)
    else AfterFile(original, n)
  }

  /** Names made in the two ways never coincide: one has a period where the other has the
      underscore. */
  lemma WaysDiffer(original: string, m: nat, n: nat)
    requires HasPeriod(original)
    ensures AfterDir(original, m) != AfterFile(original, n)
  {
    var p := Period(original);
    assert AfterDir(original, m)[p] == '.' && AfterFile(original, n)[p] == '_';
  }

  lemma SameWay(original: string, m: nat, n: nat)
    ensures AfterDir(original, m) == AfterDir(original, n) ==> m == n
    ensures AfterFile(original, m) == AfterFile(original, n) ==> m == n
  {
    if AfterDir(original, m) == AfterDir(original, n) {
      NumberedNamesDiffer(original, m, original, n);
    }
    if AfterFile(original, m) == AfterFile(original, n) {
      var p := Period(original);
      var stem, extension := original[..p], original[p..];
      var s := AfterFile(original, m);
      assert s[..|s| - |extension|] == stem + "_" + Decimal(m);
      assert s[..|s| - |extension|] == stem + "_" + Decimal(n);
      NumberedNamesDiffer(stem, m, stem, n);
    }
  }

  lemma WithoutPeriod(original: string, n: nat)
    requires !HasPeriod(original)
    ensures AfterFile(original, n) == AfterDir(original, n)
  {
    assert original[..Period(original)] == original && original[Period(original)..] == "";
  }

  function CandidatesOf(fs: Directory, original: string): nat -> string {
    (n: nat) => Candidate(fs, original, n)
  }

  /** No two attempts try the same name. */
  lemma CandidatesNumbered(fs: Directory, original: string)
    ensures Numbered(CandidatesOf(fs, original))
  {
    forall m: nat, n: nat | 0 < m < n ensures CandidatesOf(fs, original)(m) != CandidatesOf(fs, original)(n) {
      CandidatesDiffer(fs, original, m, n);
    }
  }

  lemma CandidatesDiffer(fs: Directory, original: string, m: nat, n: nat)
    requires 0 < m < n
    ensures Candidate(fs, original, m) != Candidate(fs, original, n)
  {
    SameWay(original, m, n);
    if HasPeriod(original) {
      WaysDiffer(original, m, n);
      WaysDiffer(original, n, m);
    } else {
      WithoutPeriod(original, m);
      WithoutPeriod(original, n);
    }
    hide AfterDir;
    hide AfterFile;
  }

  /** So many attempts can fail at most. */
  lemma AttemptsBounded(fs: Directory, original: string, n: nat)
    requires forall k :: 0 <= k < n ==> Candidate(fs, original, k) in fs
    ensures n <= |fs| + 1
  {
    CandidatesNumbered(fs, original);
    var first := SearchEnds(CandidatesOf(fs, original), fs.Keys);
    assert CandidatesOf(fs, original)(first) == Candidate(fs, original, first);
    assert |fs.Keys| == |fs|;
  }

  lemma OneMoreTaken(fs: Directory, original: string, current: string, n: nat)
    requires current == Candidate(fs, original, n) && current in fs
    requires forall k :: 0 <= k < n ==> Candidate(fs, original, k) in fs
    ensures forall k :: 0 <= k < n + 1 ==> Candidate(fs, original, k) in fs
    ensures Candidate(fs, original, n + 1) == if fs[current] then AfterDir(original, n + 1) else AfterFile(original, n + 1)
    ensures n <= |fs|
  {
    hide AfterDir;
    hide AfterFile;
    AttemptsBounded(fs, original, n + 1);
  }

  /** The recursion; `current` is the n-th name tried. */
  function Pad(fs: Directory, original: string, current: string, n: nat): Result<string>
    requires current == Candidate(fs, original, n)
    requires forall k :: 0 <= k < n ==> Candidate(fs, original, k) in fs
    decreases |fs| + 1 - n
  {
    hide Candidate;
    hide AfterDir;
    hide AfterFile;
    if current !in fs then Success(current) else
      OneMoreTaken(fs, original, current, n);
      if fs[current] then Pad(fs, original, AfterDir(original, n + 1), n + 1)
      else if !HasPeriod(original) then Failure("ValueError")
      else Pad(fs, original, AfterFile(original, n + 1), n + 1)
  }

  /** The n-th name tried is the first that does not exist. */
  ghost predicate FirstMissing(fs: Directory, original: string, n: nat) {
    Candidate(fs, original, n) !in fs && forall k :: 0 <= k < n ==> Candidate(fs, original, k) in fs
  }

  /** A path is only ever padded to the first name tried that does not exist, within as many attempts
      as the directory has entries and one more. */
  lemma {:induction false} PadFindsFree(fs: Directory, original: string, current: string, n: nat) returns (free: nat)
    requires current == Candidate(fs, original, n)
    requires forall k :: 0 <= k < n ==> Candidate(fs, original, k) in fs
    requires Pad(fs, original, current, n).Success?
    ensures FirstMissing(fs, original, free) && n <= free <= |fs| + 1
    ensures Pad(fs, original, current, n).value == Candidate(fs, original, free)
    decreases |fs| + 1 - n
  {
    hide AfterDir;
    hide AfterFile;
    hide HasPeriod;
    if current !in fs {
      AttemptsBounded(fs, original, n);
      free := n;
    } else {
      AttemptsBounded(fs, original, n + 1);
      if fs[current] {
        free := PadFindsFree(fs, original, AfterDir(original, n + 1), n + 1);
      } else {
        free := PadFindsFree(fs, original, AfterFile(original, n + 1), n + 1);
      }
    }
  }

  /** An original with a period never makes it raise. */
  lemma {:induction false} PeriodSuffices(fs: Directory, original: string, current: string, n: nat)
    requires current == Candidate(fs, original, n)
    requires forall k :: 0 <= k < n ==> Candidate(fs, original, k) in fs
    requires HasPeriod(original)
    ensures Pad(fs, original, current, n).Success?
    decreases |fs| + 1 - n
  {
    hide AfterDir;
    hide AfterFile;
    hide HasPeriod;
    if current in fs {
      AttemptsBounded(fs, original, n + 1);
      if fs[current] {
        PeriodSuffices(fs, original, AfterDir(original, n + 1), n + 1);
      } else {
        PeriodSuffices(fs, original, AfterFile(original, n + 1), n + 1);
      }
    }
  }

  /** The names tried for an original without a period. */
  function Plain(original: string, k: nat): string {
    if k == 0 then original else AfterDir(original, k)
  }

  lemma {:induction false} PlainCandidates(fs: Directory, original: string, n: nat)
    requires !HasPeriod(original)
    ensures Candidate(fs, original, n) == Plain(original, n)
  {
    if n > 0 {
      WithoutPeriod(original, n);
    }
  }

  /** The k-th name is taken by something other than a directory, all before by directories. */
  ghost predicate Blocked(fs: Directory, original: string, k: nat) {
    && (forall j :: 0 <= j < k ==> Plain(original, j) in fs && fs[Plain(original, j)])
    && Plain(original, k) in fs && !fs[Plain(original, k)]
  }

  lemma {:induction false} PadFailsFrom(fs: Directory, original: string, n: nat)
    requires !HasPeriod(original)
    requires forall j :: 0 <= j < n ==> Plain(original, j) in fs && fs[Plain(original, j)]
    requires forall k :: 0 <= k < n ==> Candidate(fs, original, k) in fs
    ensures Pad(fs, original, Candidate(fs, original, n), n).Failure? <==> exists k: nat :: Blocked(fs, original, k)
    decreases |fs| + 1 - n
  {
    hide AfterDir;
    hide AfterFile;
    hide HasPeriod;
    PlainCandidates(fs, original, n);
    var current := Plain(original, n);
    if current in fs && fs[current] {
      AttemptsBounded(fs, original, n + 1);
      PadFailsFrom(fs, original, n + 1);
    } else if current in fs {
      assert Blocked(fs, original, n);
    } else {
      forall k: nat ensures !Blocked(fs, original, k) {
        if k < n {
          assert fs[Plain(original, k)];
        }
      }
    }
  }

  /** It raises exactly if the original name has no period and, of its numbered forms in order, the
      first that is no directory exists. */
  lemma PadFailsIff(fs: Directory, original: string)
    ensures Pad(fs, original, original, 0).Failure? <==>
            !HasPeriod(original) && exists k: nat :: Blocked(fs, original, k)
  {
    if HasPeriod(original) {
      PeriodSuffices(fs, original, original, 0);
    } else {
      PadFailsFrom(fs, original, 0);
    }
  }

  /** A period in the original is not needed while it is a directory itself; but a file that has the
      name of the first attempt makes it raise. */
  lemma NumberedFileBlocks()
    ensures Pad(map["transfer" := true, "transfer_1" := false], "transfer", "transfer", 0).Failure?
  {
    var fs: Directory := map["transfer" := true, "transfer_1" := false];
    assert Decimal(1) == "1";
    assert AfterDir("transfer", 1) == "transfer_1";
    assert !HasPeriod("transfer");
    assert Plain("transfer", 0) == "transfer" && Plain("transfer", 1) == "transfer_1";
    assert Blocked(fs, "transfer", 1);
    PadFailsIff(fs, "transfer");
  }

  /* ----- the names tried ----- */

  /** The part of a name before its first period, and the rest. */
  ghost predicate SplitAt(name: string, stem: string, rest: string) {
    name == stem + rest && '.' !in stem && (rest == "" || rest[0] == '.')
  }

  /** The name tried after another, as number n: with the number at the end if that one is a directory,
      else in front of the first period, without which there is none. */
  ghost predicate TriedNext(fs: Directory, original: string, name: string, n: nat, next: string) {
    name in fs &&
    if fs[name] then next == original + "_" + Decimal(n)
    else exists stem, rest :: SplitAt(original, stem, rest) && rest != "" && next == stem + "_" + Decimal(n) + rest
  }

  /** The names tried in a row, of which all but the last exist. */
  ghost predicate IsTrail(fs: Directory, original: string, tried: seq<string>) {
    && tried != [] && tried[0] == original
    && forall k :: 0 <= k < |tried| - 1 ==> TriedNext(fs, original, tried[k], k + 1, tried[k + 1])
  }

  lemma SplitIs(name: string, stem: string, rest: string)
    ensures SplitAt(name, stem, rest) <==> stem == name[..Period(name)] && rest == name[Period(name)..]
  {
    var p := Period(name);
    if SplitAt(name, stem, rest) {
      assert |stem| < |name| ==> name[|stem|] == rest[0];
      assert forall i :: 0 <= i < |stem| ==> name[i] == stem[i];
      assert name[..p] == stem && name[p..] == rest;
    }
  }

  lemma NextIs(fs: Directory, original: string, name: string, n: nat, next: string)
    requires name in fs
    ensures TriedNext(fs, original, name, n, next) <==>
            if fs[name] then next == AfterDir(original, n)
            else HasPeriod(original) && next == AfterFile(original, n)
  {
    var p := Period(original);
    SplitIs(original, original[..p], original[p..]);
    if !fs[name] && TriedNext(fs, original, name, n, next) {
      var stem, rest :| SplitAt(original, stem, rest) && rest != "" && next == stem + "_" + Decimal(n) + rest;
      SplitIs(original, stem, rest);
    }
  }

  lemma {:induction false} PadFollows(fs: Directory, original: string, current: string, n: nat, tried: seq<string>)
    returns (trail: seq<string>)
    requires current == Candidate(fs, original, n)
    requires forall k :: 0 <= k < n ==> Candidate(fs, original, k) in fs
    requires IsTrail(fs, original, tried) && |tried| == n + 1 && tried[n] == current
    ensures IsTrail(fs, original, trail)
    ensures match Pad(fs, original, current, n)
            case Success(free) => trail[|trail| - 1] == free && free !in fs
            case Failure(_) => Stuck(fs, original, trail[|trail| - 1])
    decreases |fs| + 1 - n
  {
    hide AfterDir;
    hide AfterFile;
    hide HasPeriod;
    trail := tried;
    if current in fs {
      AttemptsBounded(fs, original, n + 1);
      var next := if fs[current] then AfterDir(original, n + 1) else AfterFile(original, n + 1);
      NextIs(fs, original, current, n + 1, next);
      StuckIff(fs, original, current);
      if fs[current] || HasPeriod(original) {
        hide TriedNext;
        var more := tried + [next];
        assert forall k :: 0 <= k <= n ==> more[k] == tried[k];
        trail := PadFollows(fs, original, next, n + 1, more);
      }
    }
  }

  /** Something that is no directory is in the way of a name without a period. */
  ghost predicate Stuck(fs: Directory, original: string, name: string) {
    name in fs && !fs[name] && '.' !in original
  }

  lemma StuckIff(fs: Directory, original: string, name: string)
    requires name in fs
    ensures Stuck(fs, original, name) <==> !fs[name] && !HasPeriod(original)
  {
    var p := Period(original);
    assert p < |original| ==> original[p] in original;
  }

  /** The names tried are told from the directory alone: the padded path is the last of them and the
      only one that does not exist, and it raises where the number has no place to go. */
  lemma PadTries(fs: Directory, original: string) returns (tried: seq<string>)
    ensures IsTrail(fs, original, tried)
    ensures match Pad(fs, original, original, 0)
            case Success(free) => tried[|tried| - 1] == free && free !in fs
            case Failure(_) => Stuck(fs, original, tried[|tried| - 1])
    ensures forall other :: IsTrail(fs, original, other) && |other| == |tried| ==> other == tried
  {
    tried := PadFollows(fs, original, original, 0, [original]);
    forall other | IsTrail(fs, original, other) && |other| == |tried| ensures other == tried {
      TrailIsOnly(fs, original, tried, other);
      assert other[..|other|] == other;
    }
  }

  lemma {:induction false} TrailIsOnly(fs: Directory, original: string, tried: seq<string>, other: seq<string>)
    requires IsTrail(fs, original, tried) && IsTrail(fs, original, other) && |other| == |tried|
    ensures other == tried
  {
    var n := |tried| - 1;
    if n > 0 {
      var a, b := tried[..n], other[..n];
      assert forall k :: 0 <= k < n ==> a[k] == tried[k] && b[k] == other[k];
      TrailIsOnly(fs, original, a, b);
      assert a[n - 1] == tried[n - 1] == other[n - 1];
      NextIs(fs, original, tried[n - 1], n, tried[n]);
      NextIs(fs, original, tried[n - 1], n, other[n]);
      assert tried == a + [tried[n]] && other == b + [other[n]];
    } else {
      assert tried == [original] == other;
    }
  }

  /** The padded name stays in the directory of the original. */
  lemma PaddedNameIsName(fs: Directory, original: string, n: nat)
    requires '/' !in original
    ensures '/' !in Candidate(fs, original, n)
  {
    assert forall c :: c in Decimal(n) ==> IsDigit(c);
  }
}
