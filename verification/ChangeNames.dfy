/** Filename clean-up on disk: `change_name`, `change_path` and `change_tree`. A directory is the list
    of its entries in `scandir` order; paths are lists of names. */
module ChangeNames {
  import opened Strings
  import opened Results
  import opened FileTree
  import opened Unicode
  import FirstFree

  /** The complement of the character class in `ALLOWED_CHARS`. */
  predicate Allowed(c: char) {
    'a' <= c <= 'z' || 'A' <= c <= 'Z' || '0' <= c <= '9'
    || c == '-' || c == '_' || c == '.' || c == '(' || c == ')'
  }

  predicate AllAllowed(s: string) {
    forall i :: 0 <= i < |s| ==> Allowed(s[i])
  }

  /** `ALLOWED_CHARS.sub(REPLACEMENT_CHAR, s)` */
  function Substitute(s: string): (r: string)
    ensures |r| == |s| && AllAllowed(r)
    ensures AllAllowed(s) ==> r == s
  {
    seq(|s|, i requires 0 <= i < |s| => if Allowed(s[i]) then s[i] else '_')
  }

  function CleanName(decode: string -> string, basename: string): (r: string)
    ensures AllAllowed(r)
    ensures basename != "" ==> r != ""
  {
    var decoded := decode(basename);
    Substitute(if decoded == "" then basename else decoded)
  }

  function ChangeName(decode: Unidecode, basename: string): Result<string> {
    if basename == "" then Failure("change_name received an empty filename.")
    else Success(CleanName(decode, basename))
  }

  /** The names left alone are exactly the non-empty names made of allowed characters, and
      cleaning is idempotent. */
  lemma ChangeNameFixpoints(decode: Unidecode, basename: string)
    ensures ChangeName(decode, basename) == Success(basename) <==> basename != "" && AllAllowed(basename)
    ensures ChangeName(decode, basename).Success? ==>
              var cleaned := ChangeName(decode, basename).value;
              ChangeName(decode, cleaned) == Success(cleaned)
  {
    if basename != "" {
      var cleaned := CleanName(decode, basename);
      assert Ascii(cleaned);
      assert decode(cleaned) == cleaned;
      if AllAllowed(basename) {
        assert Ascii(basename);
      }
    }
  }

  /** `s[:k]`: a negative bound counts from the end. */
  function Prefix(s: string, k: int): (r: string)
    ensures r <= s
  {
    if k >= |s| then s else if k >= 0 then s[..k] else if |s| + k >= 0 then s[..|s| + k] else ""
  }

  /** `s.rfind('.')` */
  function LastDot(s: string): (r: int)
    ensures -1 <= r < |s|
    ensures r >= 0 ==> s[r] == '.'
    ensures forall i :: r < i < |s| ==> s[i] != '.'
  {
    if s == "" then -1 else if s[|s| - 1] == '.' then |s| - 1 else LastDot(s[..|s| - 1])
  }

  /** `os.path.splitext` of a base name: leading dots do not start an extension. */
  function SplitExt(s: string): (r: (string, string))
    ensures r.0 + r.1 == s
    ensures r.1 != "" ==> r.1[0] == '.' && forall i :: 1 <= i < |r.1| ==> r.1[i] != '.'
  {
    var dot := LastDot(s);
    if exists i :: 0 <= i < dot && s[i] != '.' then (s[..dot], s[dot..]) else (s, "")
  }

  /** Candidate 0 is the title cut to length; candidate n > 0 carries "_n". */
  function Numbered(title: string, extension: string, max: nat, n: nat): string {
    if n == 0 then Prefix(title, max - |extension|) + extension
    else Prefix(title, max - |extension| - (1 + |Decimal(n)|)) + ("_" + Decimal(n)) + extension
  }

  function Candidate(cleaned: string, max: nat, n: nat): string {
    Numbered(SplitExt(cleaned).0, SplitExt(cleaned).1, max, n)
  }

  lemma AllowedConcat(a: string, b: string)
    ensures AllAllowed(a + b) <==> AllAllowed(a) && AllAllowed(b)
  {
    if AllAllowed(a + b) {
      assert forall i :: 0 <= i < |a| ==> a[i] == (a + b)[i];
      assert forall i :: 0 <= i < |b| ==> b[i] == (a + b)[|a| + i];
    }
  }

  lemma PrefixAllowed(s: string, k: int)
    requires AllAllowed(s)
    ensures AllAllowed(Prefix(s, k))
  {
  }

  lemma DigitsAllowed(n: nat)
    ensures AllAllowed("_" + Decimal(n))
  {
    assert forall i :: 0 <= i < |Decimal(n)| ==> IsDigit(Decimal(n)[i]);
  }

  lemma NumberedAllowed(title: string, extension: string, max: nat, n: nat)
    requires AllAllowed(title) && AllAllowed(extension)
    ensures AllAllowed(Numbered(title, extension, max, n))
  {
    if n == 0 {
      PrefixAllowed(title, max - |extension|);
      AllowedConcat(Prefix(title, max - |extension|), extension);
    } else {
      var stem := Prefix(title, max - |extension| - (1 + |Decimal(n)|));
      PrefixAllowed(title, max - |extension| - (1 + |Decimal(n)|));
      DigitsAllowed(n);
      AllowedConcat(stem, "_" + Decimal(n));
      AllowedConcat(stem + ("_" + Decimal(n)), extension);
    }
  }

  lemma CandidateAllowed(cleaned: string, max: nat, n: nat)
    requires AllAllowed(cleaned)
    ensures AllAllowed(Candidate(cleaned, max, n))
  {
    AllowedConcat(SplitExt(cleaned).0, SplitExt(cleaned).1);
    NumberedAllowed(SplitExt(cleaned).0, SplitExt(cleaned).1, max, n);
  }

  /** A candidate exceeds the file system's limit exactly when the fixed part alone does:
      then the slice bound is negative and cuts from the wrong end. */
  lemma CandidateFits(cleaned: string, max: nat, n: nat)
    ensures var fixed := |SplitExt(cleaned).1| + (if n == 0 then 0 else 1 + |Decimal(n)|);
            |Candidate(cleaned, max, n)| <= max <==> fixed <= max
  {
  }

  lemma NumberedDiffer(title: string, extension: string, max: nat, m: nat, n: nat)
    requires 0 < m && 0 < n && Numbered(title, extension, max, m) == Numbered(title, extension, max, n)
    ensures m == n
  {
    var a := Prefix(title, max - |extension| - (1 + |Decimal(m)|));
    var b := Prefix(title, max - |extension| - (1 + |Decimal(n)|));
    var s := Numbered(title, extension, max, m);
    assert s[..|s| - |extension|] == a + ("_" + Decimal(m)) == a + "_" + Decimal(m);
    assert s[..|s| - |extension|] == b + ("_" + Decimal(n)) == b + "_" + Decimal(n);
    NumberedNamesDiffer(a, m, b, n);
  }

  /** The candidates as a sequence to search. */
  function CandidatesOf(cleaned: string, max: nat): nat -> string {
    (n: nat) => Candidate(cleaned, max, n)
  }

  lemma CandidatesNumbered(cleaned: string, max: nat)
    ensures FirstFree.Numbered(CandidatesOf(cleaned, max))
  {
    forall m: nat, n: nat | 0 < m < n
      ensures CandidatesOf(cleaned, max)(m) != CandidatesOf(cleaned, max)(n)
    {
      if Candidate(cleaned, max, m) == Candidate(cleaned, max, n) {
        NumberedDiffer(SplitExt(cleaned).0, SplitExt(cleaned).1, max, m, n);
      }
    }
  }

  /** The names for which `os.path.exists` holds in a directory: its entries, "." and "..",
      and the empty name, which joins to the directory itself. */
  function Taken(names: set<string>): set<string> {
    names + {"", ".", ".."}
  }

  /** How many candidates `change_path` rejects. */
  ghost function FreeIndex(names: set<string>, cleaned: string, max: nat): (n: nat)
    ensures FirstFree.IsFirst(CandidatesOf(cleaned, max), Taken(names), n)
  {
    CandidatesNumbered(cleaned, max);
    FirstFree.Index(CandidatesOf(cleaned, max), Taken(names))
  }

  /** The name `change_path` gives the entry `basename` of a directory holding `names`. */
  ghost function NewName(decode: Unidecode, names: set<string>, basename: string, max: nat): string {
    var cleaned := CleanName(decode, basename);
    if basename == cleaned then basename
    else Candidate(cleaned, max, FreeIndex(names, cleaned, max))
  }

  /** A new name is within the limit exactly when the extension and the number of the candidate
      taken are: a file system with shorter names may refuse it. */
  lemma NewNameFits(decode: Unidecode, names: set<string>, basename: string, max: nat)
    requires basename != "" && !AllAllowed(basename)
    ensures var cleaned := CleanName(decode, basename);
            var n := FreeIndex(names, cleaned, max);
            |NewName(decode, names, basename, max)| <= max
            <==> |SplitExt(cleaned).1| + (if n == 0 then 0 else 1 + |Decimal(n)|) <= max
  {
    ChangeNameFixpoints(decode, basename);
    var cleaned := CleanName(decode, basename);
    CandidateFits(cleaned, max, FreeIndex(names, cleaned, max));
  }

  lemma NewNameIsFresh(decode: Unidecode, names: set<string>, basename: string, max: nat)
    requires basename != ""
    ensures var name := NewName(decode, names, basename, max);
            TidyName(names, basename, name)
  {
    ChangeNameFixpoints(decode, basename);
    var cleaned := CleanName(decode, basename);
    CandidateAllowed(cleaned, max, FreeIndex(names, cleaned, max));
  }

  /** How a directory's names and an entry's name determine the new name. */
  type Renamer = (set<string>, string) -> string

  /** The rule of `change_path`. */
  ghost function ChangePathRule(decode: Unidecode, max: nat): Renamer {
    (names: set<string>, basename: string) => NewName(decode, names, basename, max)
  }

  /** A rule that yields allowed names, keeps those that are, and never takes a used name. */
  ghost predicate Tidy(rename: Renamer) {
    forall names: set<string>, basename: string :: basename != "" ==>
      TidyName(names, basename, rename(names, basename))
  }

  ghost predicate TidyName(names: set<string>, basename: string, name: string) {
    && AllAllowed(name) && name != "" && (name == basename <==> AllAllowed(basename))
    && (name != basename ==> name !in names && name != "." && name != "..")
  }

  lemma ChangePathIsTidy(decode: Unidecode, max: nat)
    ensures Tidy(ChangePathRule(decode, max))
  {
    forall names: set<string>, basename: string | basename != ""
      ensures TidyName(names, basename, ChangePathRule(decode, max)(names, basename))
    {
      NewNameIsFresh(decode, names, basename, max);
    }
  }

  function Names(entries: seq<Entry>): set<string> {
    set i | 0 <= i < |entries| :: entries[i].name
  }

  /** The directory after its entries have been renamed, one at a time and each subtree
      before its next sibling; `done` holds the entries already processed. */
  ghost function Cleaned(rename: Renamer, done: seq<Entry>, todo: seq<Entry>): seq<Entry>
    decreases todo
  {
    if todo == [] then done else
      Cleaned(rename, done + [CleanedEntry(rename, Names(done + todo), todo[0])], todo[1..])
  }

  ghost function CleanedEntry(rename: Renamer, names: set<string>, e: Entry): Entry
    decreases e
  {
    Entry(rename(names, e.name), if e.node.Dir? then Dir(Cleaned(rename, [], e.node.entries)) else e.node)
  }

  /** What `change_tree` yields for one entry. */
  datatype Change = Change(oldPath: Path, newPath: Path, isDir: bool, wasChanged: bool)

  /** The tuples yielded for a directory that goes from `before` to `after`, in walk order. */
  function Changes(before: seq<Entry>, after: seq<Entry>, oldStart: Path, start: Path): seq<Change>
    decreases before
  {
    if before == [] || after == [] then [] else
      ChangesOf(before[0], after[0], oldStart, start) + Changes(before[1..], after[1..], oldStart, start)
  }

  function ChangesOf(before: Entry, after: Entry, oldStart: Path, start: Path): seq<Change>
    decreases before
  {
    var oldPath, newPath := oldStart + [before.name], start + [after.name];
    [Change(oldPath, newPath, before.node.Dir?, newPath != oldPath)]
    + (if before.node.Dir? && after.node.Dir?
       then Changes(before.node.entries, after.node.entries, oldPath, newPath) else [])
  }

  /** The loop of `change_path`: try candidates until one does not exist. */
  method FreeName(names: set<string>, cleaned: string, max: nat) returns (name: string)
    ensures name == Candidate(cleaned, max, FreeIndex(names, cleaned, max))
  {
    ghost var free := FreeIndex(names, cleaned, max);
    ghost var candidates := CandidatesOf(cleaned, max);
    name := Candidate(cleaned, max, 0);
    var n := 1;
    while name in Taken(names)
      invariant 1 <= n <= free + 1 && name == candidates(n - 1)
      invariant forall k :: 0 <= k < n - 1 ==> candidates(k) in Taken(names)
      decreases free + 1 - n
    {
      name := Candidate(cleaned, max, n);
      n := n + 1;
    }
    assert n - 1 == free;
  }

  /* ----- the walk with renames that can fail ----- */

  /** What an aborted or a complete walk leaves and has yielded. */
  datatype Attempt = Attempt(entries: seq<Entry>, changes: seq<Change>, ok: bool)
  datatype EntryAttempt = EntryAttempt(entry: Entry, changes: seq<Change>, ok: bool)

  /** `shutil.move` to a name the file system takes. */
  predicate CanRename(oldName: string, newName: string, max: nat) {
    newName == oldName || |newName| <= max
  }

  ghost function Attempted(rename: Renamer, max: nat, done: seq<Entry>, todo: seq<Entry>, oldStart: Path, start: Path)
    : Attempt
    decreases todo
  {
    if todo == [] then Attempt(done, [], true) else
      var one := AttemptedEntry(rename, max, Names(done + todo), todo[0], oldStart, start);
      if !one.ok then Attempt(done + [one.entry] + todo[1..], one.changes, false) else
        After(one.changes, Attempted(rename, max, done + [one.entry], todo[1..], oldStart, start))
  }

  ghost function AttemptedEntry(rename: Renamer, max: nat, names: set<string>, e: Entry, oldStart: Path, start: Path)
    : EntryAttempt
    decreases e
  {
    var name := rename(names, e.name);
    var oldPath, newPath := oldStart + [e.name], start + [name];
    var change := [Change(oldPath, newPath, e.node.Dir?, newPath != oldPath)];
    if !CanRename(e.name, name, max) then EntryAttempt(e, [], false)
    else if e.node.File? then EntryAttempt(Entry(name, e.node), change, true)
    else
      var below := Attempted(rename, max, [], e.node.entries, oldPath, newPath);
      EntryAttempt(Entry(name, Dir(below.entries)), change + below.changes, below.ok)
  }

  /** The same attempt after more was yielded. */
  function After(changes: seq<Change>, a: Attempt): Attempt {
    a.(changes := changes + a.changes)
  }

  lemma AfterTwice(x: seq<Change>, y: seq<Change>, a: Attempt)
    ensures After(x, After(y, a)) == After(x + y, a)
  {
    assert x + y + a.changes == x + (y + a.changes);
  }

  lemma AttemptedStep(rename: Renamer, max: nat, before: seq<Entry>, done: seq<Entry>, i: nat,
                      oldStart: Path, start: Path)
    requires |done| == i < |before|
    ensures var entries := done + before[i..];
            var one := AttemptedEntry(rename, max, Names(entries), before[i], oldStart, start);
            && entries[i] == before[i]
            && entries[i := one.entry] == done + [one.entry] + before[i + 1..]
            && Attempted(rename, max, done, before[i..], oldStart, start)
               == if one.ok
                  then After(one.changes, Attempted(rename, max, done + [one.entry], before[i + 1..], oldStart, start))
                  else Attempt(done + [one.entry] + before[i + 1..], one.changes, false)
  {
    assert before[i..][0] == before[i] && before[i..][1..] == before[i + 1..];
  }

  /** One directory on disk, renamed in place. */
  class Directory {
    var entries: seq<Entry>

    constructor (entries: seq<Entry>)
      ensures this.entries == entries
    {
      this.entries := entries;
    }

    /** `change_path`: give entry i its new name, unless its name is clean already. Raises, and
        changes nothing, if the file system does not take the name. */
    method ChangePath(decode: Unidecode, max: nat, i: nat) returns (ok: bool, name: string)
      requires i < |entries|
      modifies this
      ensures name == NewName(decode, Names(old(entries)), old(entries)[i].name, max)
      ensures ok <==> CanRename(old(entries)[i].name, name, max)
      ensures entries == if ok then old(entries)[i := Entry(name, old(entries)[i].node)] else old(entries)
    {
      name := entries[i].name;
      ok := true;
      var cleaned := CleanName(decode, name);
      if name != cleaned {
        name := FreeName(Names(entries), cleaned, max);
        if |name| > max && name != entries[i].name {
          ok := false;
        } else {
          entries := entries[i := Entry(name, entries[i].node)];
        }
      }
    }

    /** One round of the loop in `change_tree`: rename the entry, then descend into it. */
    method ChangeEntry(decode: Unidecode, max: nat, i: nat, start: Path, oldStart: Path)
      returns (changes: seq<Change>, ok: bool)
      requires i < |entries|
      modifies this
      ensures var one := AttemptedEntry(ChangePathRule(decode, max), max, Names(old(entries)), old(entries)[i],
                                        oldStart, start);
              entries == old(entries)[i := one.entry] && changes == one.changes && ok == one.ok
      decreases entries[i].node, 1
    {
      var before := entries[i];
      var name;
      ok, name := ChangePath(decode, max, i);
      if !ok {
        return [], false;
      }
      var oldPath, newPath := oldStart + [before.name], start + [name];
      changes := [Change(oldPath, newPath, before.node.Dir?, newPath != oldPath)];
      if before.node.Dir? {
        var sub := new Directory(before.node.entries);
        var more;
        more, ok := sub.ChangeTree(decode, max, newPath, oldPath);
        changes := changes + more;
        entries := entries[i := Entry(name, Dir(sub.entries))];
      }
    }

    /** `change_tree`: rename everything below this directory and list what happened. It stops
        where a rename fails. */
    method ChangeTree(decode: Unidecode, max: nat, start: Path, oldStart: Path)
      returns (changes: seq<Change>, ok: bool)
      modifies this
      ensures Attempt(entries, changes, ok)
           == Attempted(ChangePathRule(decode, max), max, [], old(entries), oldStart, start)
      decreases entries, 0
    {
      ghost var before, done := entries, [];
      ghost var rename := ChangePathRule(decode, max);
      assert [] + before == before;
      changes, ok := [], true;
      for i := 0 to |entries|
        invariant ok && |done| == i && |before| == |entries| && entries == done + before[i..]
        invariant Attempted(rename, max, [], before, oldStart, start)
               == After(changes, Attempted(rename, max, done, before[i..], oldStart, start))
      {
        AttemptedStep(rename, max, before, done, i, oldStart, start);
        ghost var yielded := changes;
        var more;
        more, ok := ChangeEntry(decode, max, i, start, oldStart);
        changes := changes + more;
        if !ok {
          return;
        }
        done := done + [entries[i]];
        AfterTwice(yielded, more, Attempted(rename, max, done, before[i + 1..], oldStart, start));
      }
      assert before[..|before|] == before && done + before[|before|..] == done;
    }
  }
}
