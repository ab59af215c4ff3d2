/** Two directories after which disk and database disagree. */
module CleanUpExamples {
  import opened ChangeNames
  import opened CleanTree
  import opened DiskAndDatabase
  import opened FileTree
  import FirstFree
  import opened MaskedNames
  import opened NameChanging
  import opened ObjectNames
  import opened Strings
  import opened Unicode

  /* ----- a name that normalisation turns into an allowed one ----- */

  /** U+212A KELVIN SIGN, which NFC turns into the letter K. */
  const KELVIN := "\U{212A}"

  /** U+FF2B FULLWIDTH LATIN CAPITAL LETTER K, which NFC keeps. */
  const FULLWIDTH := "\U{FF2B}"

  function KelvinNfc(s: string): string {
    if s == KELVIN then "K" else s
  }

  /** unidecode maps both letters to K. */
  function KelvinDecode(s: string): string {
    if s == KELVIN || s == FULLWIDTH then "K" else s
  }

  const KELVIN_DISK := [Entry(FULLWIDTH, File(1)), Entry(KELVIN, File(2))]

  lemma KelvinFunctions()
    ensures IsNormalForm(KelvinNfc) && KeepsAscii(KelvinDecode)
  {
    assert KELVIN[0] as int >= 128 && FULLWIDTH[0] as int >= 128;
  }

  /** The two functions are a normalisation and a transliteration. */
  function KelvinForm(): Nfc {
    KelvinFunctions();
    KelvinNfc
  }

  function KelvinUnidecode(): Unidecode {
    KelvinFunctions();
    KelvinDecode
  }

  lemma FirstIsUnique(names: set<string>, cleaned: string, max: nat, n: nat)
    requires FirstFree.IsFirst(CandidatesOf(cleaned, max), Taken(names), n)
    ensures FreeIndex(names, cleaned, max) == n
  {
    var m := FreeIndex(names, cleaned, max);
    var candidates := CandidatesOf(cleaned, max);
    assert candidates(m) !in Taken(names) && candidates(n) !in Taken(names);
  }

  lemma CandidatesOfK()
    ensures Candidate("K", 255, 0) == "K" && Candidate("K", 255, 1) == "K_1"
  {
    assert LastDot("K") == -1 by { assert "K"[..0] == ""; }
    assert SplitExt("K") == ("K", "");
    assert Decimal(1) == "1";
  }

  lemma CleanNameOfK(decode: Unidecode)
    requires decode == KelvinDecode
    ensures CleanName(decode, FULLWIDTH) == "K" && CleanName(decode, KELVIN) == "K"
  {
    assert Substitute("K") == "K";
  }

  lemma NamesOfK(decode: Unidecode)
    requires decode == KelvinDecode
    ensures NewName(decode, {FULLWIDTH, KELVIN}, FULLWIDTH, 255) == "K"
    ensures NewName(decode, {"K", KELVIN}, KELVIN, 255) == "K_1"
  {
    CleanNameOfK(decode);
    CandidatesOfK();
    hide Candidate;
    hide CleanName;
    FirstIsUnique({FULLWIDTH, KELVIN}, "K", 255, 0);
    FirstIsUnique({"K", KELVIN}, "K", 255, 1);
  }

  lemma TwoNames(a: Entry, b: Entry)
    ensures Names([a, b]) == {a.name, b.name}
  {
    assert [a, b][0].name == a.name && [a, b][1].name == b.name;
  }

  /** A directory of two files, renamed to x and then y. */
  lemma CleanTwo(rename: Renamer, a: Entry, b: Entry, x: string, y: string)
    requires a.node.File? && b.node.File?
    requires rename({a.name, b.name}, a.name) == x && rename({x, b.name}, b.name) == y
    ensures Cleaned(rename, [], [a, b]) == [Entry(x, a.node), Entry(y, b.node)]
  {
    var first, second := Entry(x, a.node), Entry(y, b.node);
    TwoNames(a, b);
    TwoNames(first, b);
    assert [] + [a, b] == [a, b] && [a, b][1..] == [b] && [b][1..] == [];
    assert [] + [first] == [first] && [first] + [b] == [first, b] && [first] + [second] == [first, second];
    assert Cleaned(rename, [first], [b]) == Cleaned(rename, [first, second], []);
  }

  lemma ChangesOfTwo(a: Entry, b: Entry, x: string, y: string)
    requires a.node.File? && b.node.File? && x != a.name && y != b.name
    ensures Changes([a, b], [Entry(x, a.node), Entry(y, b.node)], [], [])
            == [Change([a.name], [x], false, true), Change([b.name], [y], false, true)]
  {
    var first, second := Entry(x, a.node), Entry(y, b.node);
    assert [a, b][1..] == [b] && [first, second][1..] == [second] && [b][1..] == [];
    assert Changes([b], [second], [], []) == ChangesOf(b, second, [], []);
    assert [a.name][0] != [x][0] && [b.name][0] != [y][0];
    assert [] + [a.name] == [a.name] && [] + [x] == [x] && [] + [b.name] == [b.name] && [] + [y] == [y];
  }

  lemma KelvinCleaned(decode: Unidecode)
    requires decode == KelvinDecode
    ensures Cleaned(ChangePathRule(decode, 255), [], KELVIN_DISK) == [Entry("K", File(1)), Entry("K_1", File(2))]
  {
    NamesOfK(decode);
    CleanTwo(ChangePathRule(decode, 255), Entry(FULLWIDTH, File(1)), Entry(KELVIN, File(2)), "K", "K_1");
  }

  lemma KelvinChanges(decode: Unidecode)
    requires decode == KelvinDecode
    ensures DiskChanges(ChangePathRule(decode, 255), KELVIN_DISK)
            == [Change([FULLWIDTH], ["K"], false, true), Change([KELVIN], ["K_1"], false, true)]
  {
    var a, b := Entry(FULLWIDTH, File(1)), Entry(KELVIN, File(2));
    NamesOfK(decode);
    CleanTwo(ChangePathRule(decode, 255), a, b, "K", "K_1");
    ChangesOfTwo(a, b, "K", "K_1");
  }

  lemma KelvinRenames(decode: Unidecode, nfc: Nfc)
    requires decode == KelvinDecode && nfc == KelvinNfc
    ensures RenamesOf(nfc, DiskChanges(ChangePathRule(decode, 255), KELVIN_DISK), false)
            == [Rename([FULLWIDTH], ["K"]), Rename(["K"], ["K_1"])]
  {
    KelvinChanges(decode);
    var c, d := Change([FULLWIDTH], ["K"], false, true), Change([KELVIN], ["K_1"], false, true);
    assert [c, d][..1] == [c] && [c][..0] == [];
    assert MapPath(nfc, [FULLWIDTH]) == [FULLWIDTH] && MapPath(nfc, ["K"]) == ["K"];
    assert MapPath(nfc, [KELVIN]) == ["K"] && MapPath(nfc, ["K_1"]) == ["K_1"];
    assert RenamesOf(nfc, [c], false) == [Rename([FULLWIDTH], ["K"])];
  }

  lemma KelvinInOnes(nfc: Nfc, r: Rename, s: Rename)
    requires nfc == KelvinNfc && r == Rename([FULLWIDTH], ["K"]) && s == Rename(["K"], ["K_1"])
    ensures Batched(nfc, 1, [Row(7, [FULLWIDTH])], [r, s]).rows == [Row(7, ["K_1"])]
  {
    var t := Table([Row(7, [FULLWIDTH])], [], map[]);
    assert MapPath(nfc, [FULLWIDTH]) == [FULLWIDTH] && MapPath(nfc, ["K"]) == ["K"];
    FlushOne(nfc, t.(index := map[r.oldPath := r.newPath]), t.rows[0]);
    assert [r, s][..1] == [r] && [r][..0] == [];
    var u := AddedAll(nfc, 1, t, [r]);
    assert |map[r.oldPath := r.newPath]| == 1 && u == Added(nfc, 1, AddedAll(nfc, 1, t, []), r);
    assert u.rows == [Row(7, ["K"])] && u.index == map[];
    FlushOne(nfc, u.(index := map[s.oldPath := s.newPath]), u.rows[0]);
    var v := AddedAll(nfc, 1, t, [r, s]);
    assert v.rows == [Row(7, ["K_1"])] && v.index == map[];
    EmptyIndex(nfc, v.rows);
  }

  lemma KelvinInOneBatch(nfc: Nfc, r: Rename, s: Rename)
    requires nfc == KelvinNfc && r == Rename([FULLWIDTH], ["K"]) && s == Rename(["K"], ["K_1"])
    ensures Batched(nfc, 2, [Row(7, [FULLWIDTH])], [r, s]).rows == [Row(7, ["K"])]
  {
    var t := Table([Row(7, [FULLWIDTH])], [], map[]);
    assert MapPath(nfc, [FULLWIDTH]) == [FULLWIDTH];
    assert [r, s][..1] == [r] && [r][..0] == [];
    var u := AddedAll(nfc, 2, t, [r]);
    assert |map[r.oldPath := r.newPath]| == 1 && u == Added(nfc, 2, AddedAll(nfc, 2, t, []), r);
    assert u == t.(index := map[r.oldPath := r.newPath]);
    assert r.oldPath != s.oldPath by { assert r.oldPath[0] == FULLWIDTH && s.oldPath[0] == "K"; }
    var w := u.(index := u.index[s.oldPath := s.newPath]);
    assert |w.index| == 2 && w.index[r.oldPath] == ["K"];
    FlushOne(nfc, w, t.rows[0]);
    EmptyIndex(nfc, [Row(7, ["K"])]);
  }

  lemma KelvinApart(nfc: Nfc)
    requires nfc == KelvinNfc
    ensures ValidDir(KELVIN_DISK) && Separates(nfc, KELVIN_DISK)
  {
  }

  lemma KelvinFits()
    ensures AllFit(KELVIN_DISK, [Entry("K", File(1)), Entry("K_1", File(2))], 255)
  {
  }

  /** The fullwidth K is renamed to K, the Kelvin sign to K_1. The Kelvin sign's index key is K,
      so a second batch renames the first file's row again: it ends at K_1, the wrong file.
      One batch for both leaves it at K. */
  lemma KelvinSignBreaksBatches()
    ensures var nfc, rename := KelvinForm(), ChangePathRule(KelvinUnidecode(), 255);
            var run := DiskRun(rename, 255, KELVIN_DISK);
            var renames := RenamesOf(nfc, run.changes, false);
            && ValidDir(KELVIN_DISK) && Separates(nfc, KELVIN_DISK) && run.ok
            && run.entries == [Entry("K", File(1)), Entry("K_1", File(2))]
            && Outcome(nfc, 1, [Row(7, [FULLWIDTH])], renames, run.ok).rows == [Row(7, ["K_1"])]
            && Outcome(nfc, 2, [Row(7, [FULLWIDTH])], renames, run.ok).rows == [Row(7, ["K"])]
            && Masked(nfc, false, KELVIN_DISK, run.entries)
  {
    var decode, nfc := KelvinUnidecode(), KelvinForm();
    KelvinCleaned(decode);
    KelvinRenames(decode, nfc);
    KelvinApart(nfc);
    KelvinFits();
    DiskRunIs(ChangePathRule(decode, 255), 255, KELVIN_DISK);
    var r, s := Rename([FULLWIDTH], ["K"]), Rename(["K"], ["K_1"]);
    KelvinInOnes(nfc, r, s);
    KelvinInOneBatch(nfc, r, s);
    KelvinMasks(nfc, Entry("K", File(1)), Entry(KELVIN, File(2)), [Entry("K", File(1)), Entry("K_1", File(2))]);
  }

  lemma KelvinMasks(nfc: Nfc, x: Entry, y: Entry, after: seq<Entry>)
    requires nfc == KelvinNfc && x == Entry("K", File(1)) && y == Entry(KELVIN, File(2))
    requires |after| == 2 && after[0] == x
    ensures Masked(nfc, false, KELVIN_DISK, after)
  {
    assert KELVIN_DISK[1] == y && EntriesMeet(nfc, false, x, y);
  }

  /* ----- a name that is too long ----- */

  function Repeated(s: string, n: nat): (r: string)
    ensures |r| == n * |s|
    ensures forall c :: c in r ==> c in s
  {
    if n == 0 then "" else Repeated(s, n - 1) + s
  }

  /** A name of 254 bytes in UTF-8. */
  const LONG_NAME := "a." + Repeated("\U{4E2D}", 84)

  /** unidecode turns each of the ideographs into "Zhong ", so that the extension has 505 characters. */
  const LONG_DECODED := "a." + Repeated("Zhong ", 84)

  const ACUTE := "\U{E9}"

  function LongDecode(s: string): string {
    if s == LONG_NAME then LONG_DECODED else if s == ACUTE then "e" else s
  }

  function SameForm(s: string): string { s }

  const LONG_DISK := [Entry(ACUTE, File(1)), Entry(LONG_NAME, File(2))]

  lemma LongNames()
    ensures |LONG_NAME| == 86 && LONG_NAME != ACUTE && LONG_NAME != "e" && ACUTE != "e" && !Ascii(LONG_NAME)
  {
    assert |LONG_NAME| == 86 && |ACUTE| == 1;
    assert ACUTE[0] != 'e';
    var s := Repeated("\U{4E2D}", 84);
    assert |s| == 84 && s[0] in s;
    assert s[0] == '\U{4E2D}' && LONG_NAME[2] == s[0];
  }

  lemma LongFunctions()
    ensures IsNormalForm(SameForm) && KeepsAscii(LongDecode)
  {
    LongNames();
    assert ACUTE[0] as int >= 128;
  }

  function LongForm(): Nfc {
    LongFunctions();
    SameForm
  }

  function LongUnidecode(): Unidecode {
    LongFunctions();
    LongDecode
  }

  lemma LongExtension(s: string)
    requires |s| == 506 && s[0] != '.' && s[1] == '.' && forall i :: 2 <= i < |s| ==> s[i] != '.'
    ensures |SplitExt(s).1| == 505
  {
    assert LastDot(s) == 1;
  }

  lemma LongCleaned(decode: Unidecode)
    requires decode == LongDecode
    ensures |SplitExt(CleanName(decode, LONG_NAME)).1| == 505 && CleanName(decode, LONG_NAME) != LONG_NAME
  {
    var s := Substitute(LONG_DECODED);
    assert LONG_DECODED[0] == 'a' && LONG_DECODED[1] == '.';
    forall i | 2 <= i < |s| ensures s[i] != '.' {
      assert LONG_DECODED[i] in "Zhong " by {
        assert LONG_DECODED[i] == Repeated("Zhong ", 84)[i - 2];
      }
    }
    LongExtension(s);
    LongNames();
  }

  lemma LongNewName(decode: Unidecode, names: set<string>)
    requires decode == LongDecode
    ensures |NewName(decode, names, LONG_NAME, 255)| > 255
  {
    LongCleaned(decode);
    var cleaned := CleanName(decode, LONG_NAME);
    CandidateFits(cleaned, 255, FreeIndex(names, cleaned, 255));
  }

  lemma CandidateOfE()
    ensures Candidate("e", 255, 0) == "e"
  {
    assert LastDot("e") == -1 by { assert "e"[..0] == ""; }
    assert SplitExt("e") == ("e", "");
  }

  lemma CleanNameOfAcute(decode: Unidecode)
    requires decode == LongDecode
    ensures CleanName(decode, ACUTE) == "e" && ACUTE != "e"
  {
    LongNames();
    assert decode(ACUTE) == "e" && Substitute("e") == "e";
  }

  lemma AcuteNewName(decode: Unidecode, names: set<string>)
    requires decode == LongDecode && "e" !in names
    ensures NewName(decode, names, ACUTE, 255) == "e"
  {
    CandidateOfE();
    CleanNameOfAcute(decode);
    hide Candidate;
    hide CleanName;
    FirstIsUnique(names, "e", 255, 0);
  }

  /** A directory of two files of which the second cannot be renamed. */
  lemma StopsAtSecond(rename: Renamer, max: nat, a: Entry, b: Entry, x: string)
    requires a.node.File? && x != a.name && |x| <= max && rename({a.name, b.name}, a.name) == x
    requires rename({x, b.name}, b.name) != b.name && |rename({x, b.name}, b.name)| > max
    ensures DiskRun(rename, max, [a, b])
         == Attempt([Entry(x, a.node), b], [Change([a.name], [x], false, true)], false)
  {
    var first := Entry(x, a.node);
    TwoNames(a, b);
    TwoNames(first, b);
    assert [] + [a, b] == [a, b] && [a, b][1..] == [b] && [b][1..] == [];
    assert [] + [first] == [first] && [first] + [b] == [first, b] && [first, b] + [] == [first, b];
    assert [a.name][0] != [x][0] && [] + [a.name] == [a.name] && [] + [x] == [x];
    var change := [Change([a.name], [x], false, true)];
    var rest := Attempted(rename, max, [first], [b], [], []);
    assert Names([first] + [b]) == {x, b.name} && [b][0] == b && [first] + [b] + [] == [first, b];
    assert AttemptedEntry(rename, max, {x, b.name}, b, [], []) == EntryAttempt(b, [], false);
    assert rest == Attempt([first, b], [], false);
    assert change + [] == change;
    assert AttemptedEntry(rename, max, {a.name, b.name}, a, [], []) == EntryAttempt(first, change, true);
    assert DiskRun(rename, max, [a, b]) == After(change, rest);
  }

  lemma LongApart(nfc: Nfc)
    requires nfc == SameForm
    ensures ValidDir(LONG_DISK) && Separates(nfc, LONG_DISK) && KeepsUnclean(nfc, LONG_DISK)
  {
    LongNames();
  }

  /** No names are masked, yet the second file cannot be renamed, so the walk raises; the row of the
      first one keeps its old location, where no file is any more, unless every single rename makes
      a batch. */
  lemma LongNameStopsWalk()
    ensures var nfc, rename := LongForm(), ChangePathRule(LongUnidecode(), 255);
            var run := DiskRun(rename, 255, LONG_DISK);
            var renames := RenamesOf(nfc, run.changes, false);
            && ValidDir(LONG_DISK) && Separates(nfc, LONG_DISK) && KeepsUnclean(nfc, LONG_DISK)
            && !run.ok && run.entries == [Entry("e", File(1)), Entry(LONG_NAME, File(2))]
            && Outcome(nfc, 2, [Row(7, [ACUTE])], renames, run.ok).rows == [Row(7, [ACUTE])]
            && !AlwaysAgree(nfc, false, LONG_DISK, run)
  {
    var decode, nfc := LongUnidecode(), LongForm();
    var rename := ChangePathRule(decode, 255);
    LongApart(nfc);
    LongNames();
    AcuteNewName(decode, {ACUTE, LONG_NAME});
    LongNewName(decode, {"e", LONG_NAME});
    StopsAtSecond(rename, 255, LONG_DISK[0], LONG_DISK[1], "e");
    WholeDiskIs(rename, 255, LONG_DISK);
    var change := Change([ACUTE], ["e"], false, true);
    assert change in DiskRun(rename, 255, LONG_DISK).changes;
    LongRows(nfc, DiskRun(rename, 255, LONG_DISK), change);
  }

  lemma LongRows(nfc: Nfc, run: Attempt, c: Change)
    requires nfc == SameForm && run.changes == [c] && !run.ok && c == Change([ACUTE], ["e"], false, true)
    requires c in WholeDisk(LONG_DISK, run)
    ensures Outcome(nfc, 2, [Row(7, [ACUTE])], RenamesOf(nfc, run.changes, false), run.ok).rows == [Row(7, [ACUTE])]
    ensures !AlwaysAgree(nfc, false, LONG_DISK, run)
  {
    var rows := [Row(7, [ACUTE])];
    assert [c][..0] == [] && MapPath(nfc, [ACUTE]) == [ACUTE] && MapPath(nfc, ["e"]) == ["e"];
    var renames := RenamesOf(nfc, run.changes, false);
    assert run.changes[..0] == [] && RenamesOf(nfc, [], false) == [];
    assert renames == [] + [Rename([ACUTE], ["e"])];
    NothingApplied(nfc, 2, rows, renames);
    assert [ACUTE][0] != ["e"][0] by { assert ACUTE[0] != 'e'; }
    assert rows[0].location == [ACUTE];
    assert !RowsOnDisk(nfc, WholeDisk(LONG_DISK, run), false, rows, Outcome(nfc, 2, rows, renames, run.ok).rows);
  }

  /* ----- below a directory that was renamed ----- */

  const LONG_BELOW := [Entry(ACUTE, Dir([Entry(LONG_NAME, File(2)), Entry("b", File(1))]))]

  /** A directory that is renamed and of which the first entry cannot be. */
  lemma StopsBelow(rename: Renamer, max: nat, d: Entry, x: string)
    requires d.node.Dir? && |d.node.entries| > 0 && x != d.name && |x| <= max && rename({d.name}, d.name) == x
    requires var first := d.node.entries[0].name;
             !CanRename(first, rename(Names(d.node.entries), first), max)
    ensures DiskRun(rename, max, [d])
         == Attempt([Entry(x, d.node)], [Change([d.name], [x], true, true)], false)
  {
    var inside := d.node.entries;
    var change := [Change([d.name], [x], true, true)];
    assert [] + [d] == [d] && [d][1..] == [] && [] + inside == inside && Names([d]) == {d.name} by {
      assert [d][0].name == d.name;
    }
    assert [] + [d.name] == [d.name] && [] + [x] == [x] && [d.name][0] != [x][0];
    assert [] + [inside[0]] + inside[1..] == inside && change + [] == change;
    assert AttemptedEntry(rename, max, Names(inside), inside[0], [d.name], [x]) == EntryAttempt(inside[0], [], false);
    assert Attempted(rename, max, [], inside, [d.name], [x]) == Attempt(inside, [], false);
    assert AttemptedEntry(rename, max, {d.name}, d, [], []) == EntryAttempt(Entry(x, Dir(inside)), change, false);
    assert [] + [Entry(x, d.node)] + [] == [Entry(x, d.node)];
  }

  lemma InBelow(x: Entry, y: Entry, a: string, n: string)
    requires x.node.File? && y.node.File?
    ensures Change([a, y.name], [n, y.name], false, [n, y.name] != [a, y.name])
            in Changes([Entry(a, Dir([x, y]))], [Entry(n, Dir([x, y]))], [], [])
  {
    var d, e := Entry(a, Dir([x, y])), Entry(n, Dir([x, y]));
    assert [] + [a] == [a] && [] + [n] == [n] && [a] + [y.name] == [a, y.name] && [n] + [y.name] == [n, y.name];
    assert [x, y][1..] == [y] && [y][1..] == [] && [d][1..] == [];
    var c := Change([a, y.name], [n, y.name], false, [n, y.name] != [a, y.name]);
    assert c in ChangesOf(y, y, [a], [n]);
    assert c in Changes([y], [y], [a], [n]);
    assert c in Changes([x, y], [x, y], [a], [n]);
    assert c in ChangesOf(d, e, [], []);
  }

  /** The walk renames the directory and raises at its first entry. No file was yielded, yet the file
      b has moved to e/b, and whatever the batch size its row is not changed. */
  lemma UnmetFileIsLost(batchSize: nat)
    ensures var nfc, rename := LongForm(), ChangePathRule(LongUnidecode(), 255);
            var run := DiskRun(rename, 255, LONG_BELOW);
            && ValidDir(LONG_BELOW) && !run.ok && run.changes == [Change([ACUTE], ["e"], true, true)]
            && run.entries == [Entry("e", Dir([Entry(LONG_NAME, File(2)), Entry("b", File(1))]))]
            && Outcome(nfc, batchSize, [Row(7, [ACUTE, "b"])], RenamesOf(nfc, run.changes, false), run.ok).rows
               == [Row(7, [ACUTE, "b"])]
            && !AlwaysAgree(nfc, false, LONG_BELOW, run)
  {
    var decode, nfc := LongUnidecode(), LongForm();
    var rename := ChangePathRule(decode, 255);
    LongBelowApart();
    LongBelowRuns();
    var run := DiskRun(rename, 255, LONG_BELOW);
    hide DiskRun;
    hide ValidDir;
    InBelow(Entry(LONG_NAME, File(2)), Entry("b", File(1)), ACUTE, "e");
    UnmetRow(nfc, run, batchSize);
    UnmetRow(nfc, run, 1);
  }

  lemma LongBelowApart()
    ensures ValidDir(LONG_BELOW)
  {
    LongNames();
    assert |LONG_NAME| == 86 && |ACUTE| == 1;
    var inside := [Entry(LONG_NAME, File(2)), Entry("b", File(1))];
    assert inside[0].name != inside[1].name && ValidNode(inside[0].node) && ValidNode(inside[1].node);
    assert ValidDir(inside) && ValidNode(LONG_BELOW[0].node);
  }

  lemma LongBelowRuns()
    ensures DiskRun(ChangePathRule(LongUnidecode(), 255), 255, LONG_BELOW)
         == Attempt([Entry("e", Dir([Entry(LONG_NAME, File(2)), Entry("b", File(1))]))],
                    [Change([ACUTE], ["e"], true, true)], false)
  {
    var decode := LongUnidecode();
    LongNames();
    AcuteNewName(decode, {ACUTE});
    LongNewName(decode, Names(LONG_BELOW[0].node.entries));
    hide NewName;
    StopsBelow(ChangePathRule(decode, 255), 255, LONG_BELOW[0], "e");
  }

  lemma UnmetRow(nfc: Nfc, run: Attempt, batchSize: nat)
    requires nfc == SameForm && !run.ok && run.changes == [Change([ACUTE], ["e"], true, true)]
    requires Change([ACUTE, "b"], ["e", "b"], false, ["e", "b"] != [ACUTE, "b"]) in WholeDisk(LONG_BELOW, run)
    ensures Outcome(nfc, batchSize, [Row(7, [ACUTE, "b"])], RenamesOf(nfc, run.changes, false), run.ok).rows
         == [Row(7, [ACUTE, "b"])]
    ensures batchSize >= 1 ==> !AlwaysAgree(nfc, false, LONG_BELOW, run)
  {
    var rows := [Row(7, [ACUTE, "b"])];
    var c := Change([ACUTE, "b"], ["e", "b"], false, ["e", "b"] != [ACUTE, "b"]);
    assert run.changes[..0] == [] && RenamesOf(nfc, [], false) == [];
    var renames := RenamesOf(nfc, run.changes, false);
    assert renames == [];
    assert MapPath(nfc, [ACUTE, "b"]) == [ACUTE, "b"] && MapPath(nfc, ["e", "b"]) == ["e", "b"];
    assert [ACUTE, "b"][0] != ["e", "b"][0] by { assert ACUTE[0] != 'e'; }
    assert rows[0].location == [ACUTE, "b"];
    assert !RowsOnDisk(nfc, WholeDisk(LONG_BELOW, run), false, rows, Outcome(nfc, batchSize, rows, renames, run.ok).rows);
  }
}
