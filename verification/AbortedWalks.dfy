/** What a walk that raised has moved: the entries it yielded, and everything below a directory it
    renamed, met or not. */
module AbortedWalks {
  import opened ChangeNames
  import opened CleanTree
  import opened FileTree
  import opened MaskedNames
  import opened Unicode

  /** Is there an entry of the kind at or below this one? */
  predicate Holds(e: Entry, isDir: bool)
    decreases e
  {
    e.node.Dir? == isDir || (e.node.Dir? && HoldsAny(e.node.entries, isDir))
  }

  predicate HoldsAny(entries: seq<Entry>, isDir: bool)
    decreases entries
  {
    entries != [] && (Holds(entries[0], isDir) || HoldsAny(entries[1..], isDir))
  }

  /** Every entry of the kind has the normalised path it had. */
  ghost predicate Settled(nfc: Nfc, isDir: bool, changes: seq<Change>) {
    forall c :: c in changes && c.isDir == isDir ==> MapPath(nfc, c.oldPath) == MapPath(nfc, c.newPath)
  }

  /** The same, told from the trees: below a name that was changed by more than normalisation there
      is nothing of the kind. */
  ghost predicate Unmoved(nfc: Nfc, isDir: bool, before: seq<Entry>, now: seq<Entry>)
    decreases before
  {
    before == [] || now == []
    || (UnmovedEntry(nfc, isDir, before[0], now[0]) && Unmoved(nfc, isDir, before[1..], now[1..]))
  }

  ghost predicate UnmovedEntry(nfc: Nfc, isDir: bool, before: Entry, now: Entry)
    decreases before
  {
    (nfc(before.name) == nfc(now.name) || !Holds(before, isDir))
    && (before.node.Dir? && now.node.Dir? ==> Unmoved(nfc, isDir, before.node.entries, now.node.entries))
  }

  lemma {:induction false} NothingMoves(nfc: Nfc, isDir: bool, before: seq<Entry>, now: seq<Entry>)
    requires !HoldsAny(before, isDir)
    ensures Unmoved(nfc, isDir, before, now)
    decreases before
  {
    if before != [] && now != [] {
      if before[0].node.Dir? && now[0].node.Dir? {
        NothingMoves(nfc, isDir, before[0].node.entries, now[0].node.entries);
      }
      NothingMoves(nfc, isDir, before[1..], now[1..]);
    }
  }

  lemma {:induction false} SameIsUnmoved(nfc: Nfc, isDir: bool, entries: seq<Entry>)
    ensures Unmoved(nfc, isDir, entries, entries)
    decreases entries
  {
    if entries != [] {
      SameEntryIsUnmoved(nfc, isDir, entries[0]);
      SameIsUnmoved(nfc, isDir, entries[1..]);
    }
  }

  lemma {:induction false} SameEntryIsUnmoved(nfc: Nfc, isDir: bool, e: Entry)
    ensures UnmovedEntry(nfc, isDir, e, e)
    decreases e
  {
    if e.node.Dir? {
      SameIsUnmoved(nfc, isDir, e.node.entries);
    }
  }

  lemma SettledConcat(nfc: Nfc, isDir: bool, x: seq<Change>, y: seq<Change>)
    ensures Settled(nfc, isDir, x + y) <==> Settled(nfc, isDir, x) && Settled(nfc, isDir, y)
  {
    assert forall c :: c in x + y <==> c in x || c in y;
  }

  lemma SettledOne(nfc: Nfc, isDir: bool, c: Change)
    ensures Settled(nfc, isDir, [c]) <==> (c.isDir == isDir ==> MapPath(nfc, c.oldPath) == MapPath(nfc, c.newPath))
  {
    assert c in [c];
  }

  /** Where the starting directory has kept its normalised path the trees decide, and elsewhere
      nothing may be there. */
  lemma {:induction false} SettledIff(nfc: Nfc, isDir: bool, before: seq<Entry>, now: seq<Entry>,
                                      oldStart: Path, start: Path)
    requires Aligned(before, now)
    ensures Settled(nfc, isDir, Changes(before, now, oldStart, start)) <==>
            if MapPath(nfc, oldStart) == MapPath(nfc, start) then Unmoved(nfc, isDir, before, now)
            else !HoldsAny(before, isDir)
    decreases before, 0
  {
    if before != [] {
      AlignedTail(before, now);
      EntrySettledIff(nfc, isDir, before[0], now[0], oldStart, start);
      SettledIff(nfc, isDir, before[1..], now[1..], oldStart, start);
      SettledConcat(nfc, isDir, ChangesOf(before[0], now[0], oldStart, start),
                    Changes(before[1..], now[1..], oldStart, start));
      hide Settled;
      hide UnmovedEntry;
      hide Holds;
    }
  }

  lemma {:induction false} EntrySettledIff(nfc: Nfc, isDir: bool, before: Entry, now: Entry, oldStart: Path, start: Path)
    requires AlignedEntry(before, now)
    ensures Settled(nfc, isDir, ChangesOf(before, now, oldStart, start)) <==>
            if MapPath(nfc, oldStart) == MapPath(nfc, start) then UnmovedEntry(nfc, isDir, before, now)
            else !Holds(before, isDir)
    decreases before, 1
  {
    var oldPath, path := oldStart + [before.name], start + [now.name];
    var top := Change(oldPath, path, before.node.Dir?, path != oldPath);
    MapSnoc(nfc, oldStart, before.name);
    MapSnoc(nfc, start, now.name);
    SnocSame(MapPath(nfc, oldStart), nfc(before.name), MapPath(nfc, start), nfc(now.name));
    SettledOne(nfc, isDir, top);
    if before.node.Dir? {
      var below := Changes(before.node.entries, now.node.entries, oldPath, path);
      SettledIff(nfc, isDir, before.node.entries, now.node.entries, oldPath, path);
      SettledConcat(nfc, isDir, [top], below);
      if !HoldsAny(before.node.entries, isDir) {
        NothingMoves(nfc, isDir, before.node.entries, now.node.entries);
      }
    }
    hide Settled;
  }

  /* ----- before the first name that does not fit ----- */

  /** Of the names chosen, in walk order, up to the first one the file system does not take: none
      differs from the normalised old one if there is an entry of the kind at or below it. */
  ghost predicate QuietUntil(nfc: Nfc, isDir: bool, max: nat, before: seq<Entry>, after: seq<Entry>)
    decreases before
  {
    before == [] || after == []
    || (QuietEntry(nfc, isDir, max, before[0], after[0])
        && (Fits(before[0], after[0], max) ==> QuietUntil(nfc, isDir, max, before[1..], after[1..])))
  }

  ghost predicate QuietEntry(nfc: Nfc, isDir: bool, max: nat, before: Entry, after: Entry)
    decreases before
  {
    !CanRename(before.name, after.name, max)
    || ((after.name == nfc(before.name) || !Holds(before, isDir))
        && (before.node.Dir? && after.node.Dir? ==>
              QuietUntil(nfc, isDir, max, before.node.entries, after.node.entries)))
  }

  ghost predicate Named(entries: seq<Entry>)
    decreases entries
  {
    forall i :: 0 <= i < |entries| ==> entries[i].name != "" && NamedNode(entries[i].node)
  }

  ghost predicate NamedNode(node: Node)
    decreases node
  {
    node.Dir? ==> Named(node.entries)
  }

  lemma {:induction false} ValidIsNamed(entries: seq<Entry>)
    requires ValidDir(entries)
    ensures Named(entries)
    decreases entries
  {
    forall i | 0 <= i < |entries| ensures NamedNode(entries[i].node) {
      assert ValidNode(entries[i].node);
      if entries[i].node.Dir? {
        ValidIsNamed(entries[i].node.entries);
      }
    }
  }

  lemma AlignedParts(e: Entry, f: Entry, rest: seq<Entry>, now: seq<Entry>)
    requires AlignedEntry(e, f) && Aligned(rest, now)
    ensures Aligned([e] + rest, [f] + now)
  {
    assert ([e] + rest)[1..] == rest && ([f] + now)[1..] == now;
    AlignedCons([e] + rest, [f] + now);
  }

  lemma {:induction false} AlignedSame(entries: seq<Entry>)
    ensures Aligned(entries, entries)
    decreases entries
  {
    forall i | 0 <= i < |entries| ensures AlignedEntry(entries[i], entries[i]) {
      if entries[i].node.Dir? {
        AlignedSame(entries[i].node.entries);
      }
    }
  }

  /** An attempt changes names and nothing else. */
  lemma {:induction false} AttemptAligned(rename: Renamer, max: nat, done: seq<Entry>, todo: seq<Entry>,
                                          oldStart: Path, start: Path)
    ensures var a := Attempted(rename, max, done, todo, oldStart, start);
            done <= a.entries && Aligned(todo, a.entries[|done|..])
    decreases todo, 1
  {
    if todo != [] {
      var n, names := |done|, Names(done + todo);
      var one := AttemptedEntry(rename, max, names, todo[0], oldStart, start);
      EntryAligned(rename, max, names, todo[0], oldStart, start);
      var a := Attempted(rename, max, done, todo, oldStart, start).entries;
      assert [todo[0]] + todo[1..] == todo;
      if one.ok {
        AttemptAligned(rename, max, done + [one.entry], todo[1..], oldStart, start);
        assert a[n] == (done + [one.entry])[n] && a[n..] == [one.entry] + a[n + 1..];
        AlignedParts(todo[0], one.entry, todo[1..], a[n + 1..]);
      } else {
        assert a[n..] == [one.entry] + todo[1..];
        AlignedSame(todo[1..]);
        AlignedParts(todo[0], one.entry, todo[1..], todo[1..]);
      }
    }
  }

  lemma {:induction false} EntryAligned(rename: Renamer, max: nat, names: set<string>, e: Entry,
                                        oldStart: Path, start: Path)
    ensures AlignedEntry(e, AttemptedEntry(rename, max, names, e, oldStart, start).entry)
    decreases e, 0
  {
    if e.node.Dir? {
      AlignedSame(e.node.entries);
      AttemptAligned(rename, max, [], e.node.entries, oldStart + [e.name], start + [rename(names, e.name)]);
      var below := Attempted(rename, max, [], e.node.entries, oldStart + [e.name], start + [rename(names, e.name)]);
      assert below.entries[0..] == below.entries;
    }
  }

  /** One step of an attempt, seen from its result. */
  lemma AttemptSplit(rename: Renamer, max: nat, done: seq<Entry>, todo: seq<Entry>, oldStart: Path, start: Path)
    requires todo != []
    ensures var one := AttemptedEntry(rename, max, Names(done + todo), todo[0], oldStart, start);
            var a := Attempted(rename, max, done, todo, oldStart, start);
            var next := Attempted(rename, max, done + [one.entry], todo[1..], oldStart, start);
            && |a.entries| == |done| + |todo| && a.entries[|done|] == one.entry
            && (one.ok ==> |next.entries| == |a.entries| && a.entries[|done| + 1..] == next.entries[|done| + 1..]
                           && a.changes == one.changes + next.changes)
            && (!one.ok ==> a.entries[|done| + 1..] == todo[1..] && a.changes == one.changes)
  {
    var one := AttemptedEntry(rename, max, Names(done + todo), todo[0], oldStart, start);
    AttemptAligned(rename, max, done, todo, oldStart, start);
    AttemptAligned(rename, max, done + [one.entry], todo[1..], oldStart, start);
    if one.ok {
      assert (done + [one.entry])[|done|] == one.entry;
    }
  }

  lemma CleanedSplit(rename: Renamer, done: seq<Entry>, todo: seq<Entry>)
    requires todo != []
    ensures var e := CleanedEntry(rename, Names(done + todo), todo[0]);
            var c, next := Cleaned(rename, done, todo), Cleaned(rename, done + [e], todo[1..]);
            |c| == |done| + |todo| && c == next && c[|done|] == e
  {
    var e := CleanedEntry(rename, Names(done + todo), todo[0]);
    WalkSucceedsIff(rename, 0, done, todo, [], []);
    WalkSucceedsIff(rename, 0, done + [e], todo[1..], [], []);
    assert (done + [e])[|done|] == e;
  }

  lemma Parts<T>(s: seq<T>, n: nat)
    requires n < |s|
    ensures s[n..] != [] && s[n..][0] == s[n] && s[n..][1..] == s[n + 1..]
  {
  }

  /** Nothing of the kind has moved on disk if and only if the names chosen before the walk ended
      or raised are quiet. */
  lemma {:induction false} UnmovedIff(nfc: Nfc, isDir: bool, rename: Renamer, max: nat, done: seq<Entry>,
                                      todo: seq<Entry>, oldStart: Path, start: Path)
    requires Tidy(rename) && Named(todo)
    ensures var a, c := Attempted(rename, max, done, todo, oldStart, start).entries, Cleaned(rename, done, todo);
            && |a| == |c| == |done| + |todo|
            && (Unmoved(nfc, isDir, todo, a[|done|..]) <==> QuietUntil(nfc, isDir, max, todo, c[|done|..]))
    decreases todo, 1
  {
    if todo != [] {
      var n, names := |done|, Names(done + todo);
      var one := AttemptedEntry(rename, max, names, todo[0], oldStart, start);
      var e := CleanedEntry(rename, names, todo[0]);
      EntrySucceedsIff(rename, max, names, todo[0], oldStart, start);
      EntryUnmovedIff(nfc, isDir, rename, max, names, todo[0], oldStart, start);
      if one.ok {
        UnmovedIff(nfc, isDir, rename, max, done + [e], todo[1..], oldStart, start);
      }
      SameIsUnmoved(nfc, isDir, todo[1..]);
      AttemptSplit(rename, max, done, todo, oldStart, start);
      CleanedSplit(rename, done, todo);
      hide Attempted;
      hide AttemptedEntry;
      hide Cleaned;
      hide CleanedEntry;
      hide UnmovedEntry;
      hide QuietEntry;
      hide Fits;
      Parts(Attempted(rename, max, done, todo, oldStart, start).entries, n);
      Parts(Cleaned(rename, done, todo), n);
    }
  }

  lemma {:induction false} EntryUnmovedIff(nfc: Nfc, isDir: bool, rename: Renamer, max: nat, names: set<string>,
                                           e: Entry, oldStart: Path, start: Path)
    requires Tidy(rename) && e.name != "" && NamedNode(e.node)
    ensures UnmovedEntry(nfc, isDir, e, AttemptedEntry(rename, max, names, e, oldStart, start).entry)
            <==> QuietEntry(nfc, isDir, max, e, CleanedEntry(rename, names, e))
    decreases e, 0
  {
    var name := rename(names, e.name);
    assert TidyName(names, e.name, name);
    assert Ascii(name) && nfc(name) == name;
    if !CanRename(e.name, name, max) {
      SameEntryIsUnmoved(nfc, isDir, e);
    } else if e.node.Dir? {
      UnmovedIff(nfc, isDir, rename, max, [], e.node.entries, oldStart + [e.name], start + [name]);
      var a := Attempted(rename, max, [], e.node.entries, oldStart + [e.name], start + [name]).entries;
      var c := Cleaned(rename, [], e.node.entries);
      assert a[0..] == a && c[0..] == c;
    }
  }

  /* ----- what was yielded ----- */

  /** Every tuple yielded tells where an entry is now. */
  lemma {:induction false} YieldedOnDisk(rename: Renamer, max: nat, done: seq<Entry>, todo: seq<Entry>,
                                         oldStart: Path, start: Path)
    ensures var a := Attempted(rename, max, done, todo, oldStart, start);
            && done <= a.entries
            && forall c :: c in a.changes ==> c in Changes(todo, a.entries[|done|..], oldStart, start)
    decreases todo, 1
  {
    AttemptAligned(rename, max, done, todo, oldStart, start);
    if todo != [] {
      var names := Names(done + todo);
      var one := AttemptedEntry(rename, max, names, todo[0], oldStart, start);
      EntryYieldedOnDisk(rename, max, names, todo[0], oldStart, start);
      AttemptSplit(rename, max, done, todo, oldStart, start);
      Parts(Attempted(rename, max, done, todo, oldStart, start).entries, |done|);
      if one.ok {
        YieldedOnDisk(rename, max, done + [one.entry], todo[1..], oldStart, start);
      }
      hide Attempted;
      hide AttemptedEntry;
      hide ChangesOf;
    }
  }

  lemma {:induction false} EntryYieldedOnDisk(rename: Renamer, max: nat, names: set<string>, e: Entry,
                                              oldStart: Path, start: Path)
    ensures var a := AttemptedEntry(rename, max, names, e, oldStart, start);
            forall c :: c in a.changes ==> c in ChangesOf(e, a.entry, oldStart, start)
    decreases e, 0
  {
    if e.node.Dir? {
      var name := rename(names, e.name);
      YieldedOnDisk(rename, max, [], e.node.entries, oldStart + [e.name], start + [name]);
      var below := Attempted(rename, max, [], e.node.entries, oldStart + [e.name], start + [name]);
      assert below.entries[0..] == below.entries;
    }
  }
}
