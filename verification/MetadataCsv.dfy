/** Metadata from JSON to CSV (`json_metadata_to_csv`) and back into per-file dictionaries
    (`parseMetadataCSV`). A CSV file is the list of its rows of cells. */
module MetadataCsv {
  import opened SortedKeys
  import opened Sequences

  /** A JSON scalar as text, or null. */
  datatype Cell = Null | Text(text: string)

  datatype Value = Scalar(cell: Cell) | List(cells: seq<Cell>)

  type Object = map<string, Value>

  const FILENAME := "filename"
  const PARTS := "parts"

  /* ----- fetch_keys ----- */

  function Max(a: int, b: int): int {
    if a < b then b else a
  }

  /** The longest list each key holds; keys that are never a list are absent. */
  function Occurrences(objects: seq<Object>): map<string, nat> {
    if objects == [] then map[] else
      var o, before := objects[|objects| - 1], Occurrences(objects[..|objects| - 1]);
      Counted(before, o, o.Keys)
  }

  /** The counts after looking at the given keys of one object. */
  function Counted(before: map<string, nat>, o: Object, keys: set<string>): map<string, nat> {
    before + map k | k in keys && k in o && o[k].List? ::
      if k in before then Max(before[k], |o[k].cells|) else |o[k].cells|
  }

  function AllKeys(objects: seq<Object>): set<string> {
    if objects == [] then {} else AllKeys(objects[..|objects| - 1]) + objects[|objects| - 1].Keys
  }

  function IndexOf(keys: seq<string>, key: string): (i: nat)
    requires key in keys
    ensures i < |keys| && keys[i] == key && key !in keys[..i]
  {
    if keys[0] == key then 0 else 1 + IndexOf(keys[1..], key)
  }

  /** `keys.remove(key); keys.insert(0, key)` */
  function ToFront(keys: seq<string>, key: string): seq<string>
    requires key in keys
  {
    var i := IndexOf(keys, key);
    [key] + keys[..i] + keys[i + 1..]
  }

  /** The distinct columns: "filename", or else "parts", goes first. */
  function Columns(keys: set<string>): seq<string> {
    var sorted := Sorted(keys);
    if FILENAME in keys then ToFront(sorted, FILENAME)
    else if PARTS in keys then ToFront(sorted, PARTS)
    else sorted
  }

  function Repeat(key: string, n: nat): (r: seq<string>)
    ensures |r| == n && forall i :: 0 <= i < n ==> r[i] == key
  {
    seq(n, _ => key)
  }

  /** One column for a key that is never a list, as many as its longest list otherwise, and
      one even if all its lists are empty. */
  function Width(occurrences: map<string, nat>, key: string): (w: nat)
    ensures w >= 1
  {
    if key in occurrences then Max(occurrences[key], 1) else 1
  }

  function Expanded(columns: seq<string>, occurrences: map<string, nat>): seq<string> {
    if columns == [] then [] else
      Repeat(columns[0], Width(occurrences, columns[0])) + Expanded(columns[1..], occurrences)
  }

  function Header(objects: seq<Object>): seq<string> {
    Expanded(Columns(AllKeys(objects)), Occurrences(objects))
  }

  lemma ColumnsDistinct(keys: set<string>)
    ensures Distinct(Columns(keys)) && (forall k :: k in Columns(keys) <==> k in keys)
    ensures FILENAME in keys ==> Columns(keys)[0] == FILENAME
  {
    var sorted := Sorted(keys);
    if FILENAME in keys {
      ToFrontDistinct(sorted, FILENAME);
    } else if PARTS in keys {
      ToFrontDistinct(sorted, PARTS);
    }
  }

  lemma ToFrontDistinct(keys: seq<string>, key: string)
    requires Distinct(keys) && key in keys
    ensures Distinct(ToFront(keys, key)) && (forall k :: k in ToFront(keys, key) <==> k in keys)
  {
    var i := IndexOf(keys, key);
    var r := ToFront(keys, key);
    forall a | 0 <= a < |r| ensures r[a] == keys[if a == 0 then i else if a <= i then a - 1 else a] {
    }
    hide ToFront;
    hide IndexOf;
    forall k | k in keys ensures k in r {
      var j :| 0 <= j < |keys| && keys[j] == k;
      assert k == if j < i then r[j + 1] else if j == i then r[0] else r[j];
    }
  }

  lemma {:induction false} ExpandedConcat(a: seq<string>, b: seq<string>, occurrences: map<string, nat>)
    ensures Expanded(a + b, occurrences) == Expanded(a, occurrences) + Expanded(b, occurrences)
  {
    if a == [] {
      assert a + b == b;
    } else {
      assert (a + b)[1..] == a[1..] + b;
      ExpandedConcat(a[1..], b, occurrences);
    }
  }

  lemma {:induction false} ExpandedKeys(columns: seq<string>, occurrences: map<string, nat>)
    ensures forall k :: k in Expanded(columns, occurrences) <==> k in columns
  {
    if columns != [] {
      ExpandedKeys(columns[1..], occurrences);
      assert Repeat(columns[0], Width(occurrences, columns[0]))[0] == columns[0];
    }
  }

  /** Entries for keys outside the columns do not matter. */
  lemma {:induction false} ExpandedIgnores(columns: seq<string>, occurrences: map<string, nat>, key: string, n: nat)
    requires key !in columns
    ensures Expanded(columns, occurrences[key := n]) == Expanded(columns, occurrences)
  {
    if columns != [] {
      ExpandedIgnores(columns[1..], occurrences, key, n);
    }
  }

  lemma IndexInMiddle(before: seq<string>, key: string, after: seq<string>)
    requires key !in before
    ensures IndexOf(before + [key] + after, key) == |before|
  {
    var keys := before + [key] + after;
    var i := IndexOf(keys, key);
    assert keys[|before|] == key && forall j :: 0 <= j < |before| ==> keys[j] == before[j];
    assert forall j :: 0 <= j < i ==> keys[j] in keys[..i];
  }

  lemma ExpandedMiddle(a: seq<string>, key: string, b: seq<string>, occurrences: map<string, nat>)
    ensures Expanded(a + [key] + b, occurrences)
            == Expanded(a, occurrences) + Repeat(key, Width(occurrences, key)) + Expanded(b, occurrences)
  {
    assert a + [key] + b == a + ([key] + b) && ([key] + b)[1..] == b;
    ExpandedConcat(a, [key] + b, occurrences);
  }

  lemma SplitAtKey(columns: seq<string>, key: string) returns (a: seq<string>, b: seq<string>)
    requires Distinct(columns) && key in columns
    ensures columns == a + [key] + b && key !in a && key !in b
  {
    var p := IndexOf(columns, key);
    a, b := columns[..p], columns[p + 1..];
  }

  /** Inserting the missing copies of one key after its first column. */
  lemma CopiesOf(occurrences: map<string, nat>, key: string, n: nat)
    requires key !in occurrences
    ensures Repeat(key, Width(occurrences, key)) == [key]
    ensures Repeat(key, Width(occurrences[key := n], key)) == [key] + Repeat(key, Max(n - 1, 0))
  {
  }

  lemma InsertCopies(a: seq<string>, key: string, b: seq<string>, occurrences: map<string, nat>, n: nat)
    requires key !in a && key !in b && key !in occurrences
    ensures key in Expanded(a + [key] + b, occurrences)
    ensures var keys := Expanded(a + [key] + b, occurrences);
            var i := IndexOf(keys, key) + 1;
            keys[..i] + Repeat(key, Max(n - 1, 0)) + keys[i..] == Expanded(a + [key] + b, occurrences[key := n])
  {
    CopiesOf(occurrences, key, n);
    hide Expanded;
    hide Repeat;
    hide Width;
    hide IndexOf;
    ExpandedMiddle(a, key, b, occurrences);
    ExpandedMiddle(a, key, b, occurrences[key := n]);
    ExpandedIgnores(a, occurrences, key, n);
    ExpandedIgnores(b, occurrences, key, n);
    ExpandedKeys(a, occurrences);
    var before, after, copies := Expanded(a, occurrences), Expanded(b, occurrences), Repeat(key, Max(n - 1, 0));
    KeyInMiddle(before, key, after);
    CopiesAfterFirst(before, key, after, copies);
  }

  lemma KeyInMiddle(before: seq<string>, key: string, after: seq<string>)
    ensures key in before + [key] + after
  {
    assert (before + [key] + after)[|before|] == key;
  }

  lemma CopiesAfterFirst(before: seq<string>, key: string, after: seq<string>, copies: seq<string>)
    requires key !in before
    ensures var keys := before + [key] + after;
            var i := IndexOf(keys, key) + 1;
            keys[..i] + copies + keys[i..] == before + ([key] + copies) + after
  {
    IndexInMiddle(before, key, after);
  }

  lemma {:induction false} NothingExpanded(columns: seq<string>)
    ensures Expanded(columns, map[]) == columns
  {
    if columns != [] {
      NothingExpanded(columns[1..]);
      assert Repeat(columns[0], 1) == [columns[0]];
    }
  }

  lemma {:induction false} OccurrencesAreKeys(objects: seq<Object>)
    ensures Occurrences(objects).Keys <= AllKeys(objects)
  {
    if objects != [] {
      OccurrencesAreKeys(objects[..|objects| - 1]);
    }
  }

  lemma CountedStep(before: map<string, nat>, o: Object, keys: set<string>, key: string)
    requires key in o && key !in keys
    ensures var counts := Counted(before, o, keys);
            Counted(before, o, keys + {key}) ==
            if o[key].List? && (key !in counts || counts[key] < |o[key].cells|)
            then counts[key := |o[key].cells|] else counts
  {
  }

  method CountLists(o: Object, before: map<string, nat>) returns (occurrences: map<string, nat>)
    ensures occurrences == Counted(before, o, o.Keys)
  {
    occurrences := before;
    var todo := o.Keys;
    while todo != {}
      invariant todo <= o.Keys && occurrences == Counted(before, o, o.Keys - todo)
      decreases todo
    {
      var key :| key in todo;
      CountedStep(before, o, o.Keys - todo, key);
      assert o.Keys - (todo - {key}) == o.Keys - todo + {key};
      hide Counted;
      if o[key].List? {
        var occurrence := |o[key].cells|;
        if key !in occurrences || occurrences[key] < occurrence {
          occurrences := occurrences[key := occurrence];
        }
      }
      todo := todo - {key};
    }
    assert o.Keys - todo == o.Keys;
  }

  /** `for _ in range(n): keys.insert(index, key)` */
  method InsertTimes(keys: seq<string>, index: nat, key: string, n: int) returns (r: seq<string>)
    requires index <= |keys|
    ensures r == keys[..index] + Repeat(key, Max(n, 0)) + keys[index..]
  {
    r := keys;
    for copies := 0 to Max(n, 0)
      invariant r == keys[..index] + Repeat(key, copies) + keys[index..]
    {
      r := r[..index] + [key] + r[index..];
      assert [key] + Repeat(key, copies) == Repeat(key, copies + 1);
    }
  }

  /** Repeat one column as often as its longest list requires. */
  method RepeatColumn(keys: seq<string>, key: string, count: nat,
                      ghost columns: seq<string>, ghost done: map<string, nat>) returns (r: seq<string>)
    requires Distinct(columns) && key in columns && key !in done && keys == Expanded(columns, done)
    ensures r == Expanded(columns, done[key := count])
  {
    ghost var a, b := SplitAtKey(columns, key);
    InsertCopies(a, key, b, done, count);
    r := InsertTimes(keys, IndexOf(keys, key) + 1, key, count - 1);
  }

  function Restricted(occurrences: map<string, nat>, todo: set<string>): map<string, nat> {
    map k | k in occurrences && k !in todo :: occurrences[k]
  }

  lemma RestrictedStep(occurrences: map<string, nat>, todo: set<string>, key: string)
    requires key in todo && key in occurrences
    ensures Restricted(occurrences, todo - {key}) == Restricted(occurrences, todo)[key := occurrences[key]]
  {
  }

  method RepeatColumns(columns: seq<string>, occurrences: map<string, nat>) returns (keys: seq<string>)
    requires Distinct(columns) && forall k :: k in occurrences ==> k in columns
    ensures keys == Expanded(columns, occurrences)
  {
    keys := columns;
    var todo := occurrences.Keys;
    NothingExpanded(columns);
    assert Restricted(occurrences, todo) == map[];
    while todo != {}
      invariant todo <= occurrences.Keys
      invariant keys == Expanded(columns, Restricted(occurrences, todo))
      decreases todo
    {
      var key :| key in todo;
      RestrictedStep(occurrences, todo, key);
      keys := RepeatColumn(keys, key, occurrences[key], columns, Restricted(occurrences, todo));
      todo := todo - {key};
    }
    assert Restricted(occurrences, {}) == occurrences;
  }

  /** `fetch_keys` */
  method FetchKeys(objects: seq<Object>) returns (keys: seq<string>)
    ensures keys == Header(objects)
  {
    var occurrences: map<string, nat> := map[];
    var names: set<string> := {};
    for i := 0 to |objects|
      invariant occurrences == Occurrences(objects[..i]) && names == AllKeys(objects[..i])
    {
      assert objects[..i + 1][..i] == objects[..i];
      occurrences := CountLists(objects[i], occurrences);
      names := names + objects[i].Keys;
    }
    assert objects[..|objects|] == objects;
    ColumnsDistinct(names);
    OccurrencesAreKeys(objects);
    keys := RepeatColumns(Columns(names), occurrences);
  }

  /* ----- object_to_row ----- */

  function Count(keys: seq<string>, key: string): (n: nat)
    ensures n == 0 <==> key !in keys
  {
    if keys == [] then 0 else
      Count(keys[..|keys| - 1], key) + if keys[|keys| - 1] == key then 1 else 0
  }

  /** What the n-th column (from 0) of a key shows of an object. */
  function CellAt(o: Object, key: string, n: nat): Cell {
    if key !in o then Null
    else match o[key]
         case Scalar(cell) => if n == 0 then cell else Null
         case List(cells) => if n < |cells| then cells[n] else Null
  }

  function RowOf(o: Object, headers: seq<string>): (r: seq<Cell>)
    ensures |r| == |headers|
  {
    if headers == [] then [] else
      var n := |headers| - 1;
      RowOf(o, headers[..n]) + [CellAt(o, headers[n], Count(headers[..n], headers[n]))]
  }

  /** The object once its scalars under the given headers have been deleted. */
  function Unwritten(o: Object, headers: seq<string>): Object {
    map k | k in o && !(o[k].Scalar? && k in headers) :: o[k]
  }

  function Get(m: map<string, nat>, key: string): nat {
    if key in m then m[key] else 0
  }

  lemma RowSnoc(o: Object, headers: seq<string>, header: string)
    ensures RowOf(o, headers + [header]) == RowOf(o, headers) + [CellAt(o, header, Count(headers, header))]
    ensures forall k :: Count(headers + [header], k) == Count(headers, k) + if k == header then 1 else 0
  {
    assert (headers + [header])[..|headers|] == headers;
  }

  lemma UnwrittenSnoc(o: Object, headers: seq<string>, header: string)
    ensures Unwritten(o, headers + [header])
            == if header in o && o[header].Scalar? then Unwritten(o, headers) - {header} else Unwritten(o, headers)
  {
  }

  lemma IndexNext(o: Object, written: seq<string>, header: string, before: map<string, nat>, after: map<string, nat>)
    requires forall k :: k in o && o[k].List? ==> Get(before, k) == Count(written, k)
    requires after == if header in o && o[header].List? then before[header := Get(before, header) + 1] else before
    ensures forall k :: k in o && o[k].List? ==> Get(after, k) == Count(written + [header], k)
  {
    RowSnoc(o, written, header);
  }

  /** The cell taken from what is left of the object. */
  lemma CellLeft(o: Object, written: seq<string>, header: string, n: nat)
    requires header in o && o[header].List? ==> n == Count(written, header)
    ensures var left := Unwritten(o, written);
            && (header in left && left[header].List? <==> header in o && o[header].List?)
            && (header in left && left[header].Scalar? ==> header in o && o[header].Scalar?)
            && (if header in left then CellAt(left, header, if left[header].List? then n else 0) else Null)
               == CellAt(o, header, Count(written, header))
            && Unwritten(o, written + [header])
               == if header in left && left[header].Scalar? then left - {header} else left
  {
    UnwrittenSnoc(o, written, header);
  }

  /** The next cell, the object without its scalar once that is written, and the position of
      the next element of each list. */
  method NextCell(left: Object, headerIdx: map<string, nat>, header: string)
    returns (cell: Cell, left': Object, headerIdx': map<string, nat>)
    ensures cell == if header in left then CellAt(left, header, if left[header].List? then Get(headerIdx, header) else 0)
                    else Null
    ensures left' == if header in left && left[header].Scalar? then left - {header} else left
    ensures headerIdx' == if header in left && left[header].List?
                          then headerIdx[header := Get(headerIdx, header) + 1] else headerIdx
  {
    left', headerIdx' := left, headerIdx;
    if header in left {
      match left[header]
      case List(cells) =>
        var idx := Get(headerIdx, header);
        cell := if idx < |cells| then cells[idx] else Null;
        headerIdx' := headerIdx[header := idx + 1];
      case Scalar(text) =>
        cell := text;
        left' := left - {header};
    } else {
      cell := Null;
    }
  }

  lemma EmptyRow(o: Object)
    ensures RowOf(o, []) == [] && Unwritten(o, []) == o && forall k :: Get(map[], k) == Count([], k)
  {
  }

  /** `object_to_row`: the row, and what is left of the caller's object. */
  method ObjectToRow(o: Object, headers: seq<string>) returns (row: seq<Cell>, left: Object)
    ensures row == RowOf(o, headers) && left == Unwritten(o, headers)
  {
    row, left := [], o;
    var headerIdx: map<string, nat> := map[];
    EmptyRow(o);
    hide *;
    for i := 0 to |headers|
      invariant row == RowOf(o, headers[..i]) && left == Unwritten(o, headers[..i])
      invariant forall k :: k in o && o[k].List? ==> Get(headerIdx, k) == Count(headers[..i], k)
    {
      var cell;
      ghost var written := headers[..i];
      ghost var before := headerIdx;
      RowSnoc(o, written, headers[i]);
      CellLeft(o, written, headers[i], Get(headerIdx, headers[i]));
      assert headers[..i + 1] == written + [headers[i]];
      cell, left, headerIdx := NextCell(left, headerIdx, headers[i]);
      IndexNext(o, written, headers[i], before, headerIdx);
      row := row + [cell];
    }
    assert headers[..|headers|] == headers;
  }

  /* ----- The file that is written ----- */

  function CellText(cell: Cell): string {
    match cell
    case Null => ""
    case Text(text) => text
  }

  function RowTexts(cells: seq<Cell>): (r: seq<string>)
    ensures |r| == |cells|
  {
    seq(|cells|, i requires 0 <= i < |cells| => CellText(cells[i]))
  }

  function Rows(objects: seq<Object>, headers: seq<string>): (r: seq<seq<string>>)
    ensures |r| == |objects|
  {
    if objects == [] then [] else
      var n := |objects| - 1;
      Rows(objects[..n], headers) + [RowTexts(RowOf(objects[n], headers))]
  }

  lemma RowsSnoc(objects: seq<Object>, headers: seq<string>, o: Object)
    ensures Rows(objects + [o], headers) == Rows(objects, headers) + [RowTexts(RowOf(o, headers))]
  {
    assert (objects + [o])[..|objects|] == objects;
  }

  /** The whole file: the header, then one row per object. */
  function Table(objects: seq<Object>): seq<seq<string>> {
    [Header(objects)] + Rows(objects, Header(objects))
  }

  method WriteRows(parsed: seq<Object>, headers: seq<string>) returns (rows: seq<seq<string>>)
    ensures rows == Rows(parsed, headers)
  {
    rows := [];
    for i := 0 to |parsed|
      invariant rows == Rows(parsed[..i], headers)
    {
      var row, left := ObjectToRow(parsed[i], headers);
      rows := rows + [RowTexts(row)];
      RowsSnoc(parsed[..i], headers, parsed[i]);
      assert parsed[..i + 1] == parsed[..i] + [parsed[i]];
    }
    assert parsed[..|parsed|] == parsed;
  }

  /** The conversion of one file. */
  method WriteCsv(parsed: seq<Object>) returns (table: seq<seq<string>>)
    ensures table == Table(parsed)
  {
    var headers := FetchKeys(parsed);
    var rows := WriteRows(parsed, headers);
    table := [headers] + rows;
  }

  /* ----- Widths ----- */

  lemma {:induction false} CountConcat(a: seq<string>, b: seq<string>, key: string)
    ensures Count(a + b, key) == Count(a, key) + Count(b, key)
  {
    if b == [] {
      assert a + b == a;
    } else {
      var n := |b| - 1;
      assert (a + b)[..|a + b| - 1] == a + b[..n];
      CountConcat(a, b[..n], key);
    }
  }

  lemma {:induction false} CountRepeat(key: string, n: nat)
    ensures Count(Repeat(key, n), key) == n
  {
    if n > 0 {
      assert Repeat(key, n)[..n - 1] == Repeat(key, n - 1);
      CountRepeat(key, n - 1);
    }
  }

  /** A key has as many columns as its width. */
  lemma ColumnsOfKey(columns: seq<string>, occurrences: map<string, nat>, key: string)
    requires Distinct(columns)
    ensures Count(Expanded(columns, occurrences), key) == if key in columns then Width(occurrences, key) else 0
  {
    ExpandedKeys(columns, occurrences);
    if key in columns {
      var a, b := SplitAtKey(columns, key);
      ExpandedMiddle(a, key, b, occurrences);
      ExpandedKeys(a, occurrences);
      ExpandedKeys(b, occurrences);
      var copies := Repeat(key, Width(occurrences, key));
      CountConcat(Expanded(a, occurrences) + copies, Expanded(b, occurrences), key);
      CountConcat(Expanded(a, occurrences), copies, key);
      CountRepeat(key, Width(occurrences, key));
    }
  }

  /** Every list fits its key's columns, and an all-scalar key has one column. */
  lemma {:induction false} WidthCovers(objects: seq<Object>, i: nat, key: string)
    requires i < |objects| && key in objects[i]
    ensures key in AllKeys(objects)
    ensures objects[i][key].List? ==> Width(Occurrences(objects), key) >= |objects[i][key].cells|
  {
    var n := |objects| - 1;
    if i < n {
      assert objects[..n][i] == objects[i];
      WidthCovers(objects[..n], i, key);
      if objects[i][key].List? {
        ListsAreCounted(objects[..n], i, key);
      }
    }
  }

  lemma {:induction false} ListsAreCounted(objects: seq<Object>, i: nat, key: string)
    requires i < |objects| && key in objects[i] && objects[i][key].List?
    ensures key in Occurrences(objects)
  {
    var n := |objects| - 1;
    if i < n {
      assert objects[..n][i] == objects[i];
      ListsAreCounted(objects[..n], i, key);
    }
  }

  lemma {:induction false} ScalarsAreNotCounted(objects: seq<Object>, key: string)
    requires forall o: Object :: o in objects ==> key in o && o[key].Scalar?
    ensures key !in Occurrences(objects)
  {
    if objects != [] {
      assert forall o: Object :: o in objects[..|objects| - 1] ==> o in objects;
      ScalarsAreNotCounted(objects[..|objects| - 1], key);
    }
  }

  /* ----- the order of columns ----- */

  /** The key that goes first. */
  function FrontOf(keys: set<string>): set<string> {
    if FILENAME in keys then {FILENAME} else if PARTS in keys then {PARTS} else {}
  }

  predicate Goes(front: set<string>, a: string, b: string) {
    a in front || (b !in front && Before(a, b))
  }

  /** A later key is the same or goes behind. */
  ghost predicate InOrder(front: set<string>, h: seq<string>) {
    forall i, j :: 0 <= i < j < |h| ==> h[i] == h[j] || Goes(front, h[i], h[j])
  }

  lemma ToFrontGoes(keys: seq<string>, key: string)
    requires Distinct(keys) && key in keys && forall i, j :: 0 <= i < j < |keys| ==> Before(keys[i], keys[j])
    ensures forall i, j :: 0 <= i < j < |ToFront(keys, key)| ==> Goes({key}, ToFront(keys, key)[i], ToFront(keys, key)[j])
  {
    var p, r := IndexOf(keys, key), ToFront(keys, key);
    forall i, j | 0 <= i < j < |r| ensures Goes({key}, r[i], r[j]) {
      var a, b := if i <= p then i - 1 else i, if j <= p then j - 1 else j;
      assert r[j] == keys[b] && b != p;
      assert i > 0 ==> r[i] == keys[a];
    }
  }

  lemma ColumnsGo(keys: set<string>)
    ensures var c := Columns(keys);
            forall i, j :: 0 <= i < j < |c| ==> Goes(FrontOf(keys), c[i], c[j])
  {
    if FILENAME in keys {
      ToFrontGoes(Sorted(keys), FILENAME);
    } else if PARTS in keys {
      ToFrontGoes(Sorted(keys), PARTS);
    }
  }

  lemma {:induction false} ExpandedGo(columns: seq<string>, occurrences: map<string, nat>, front: set<string>)
    requires forall i, j :: 0 <= i < j < |columns| ==> Goes(front, columns[i], columns[j])
    ensures InOrder(front, Expanded(columns, occurrences))
  {
    if columns != [] {
      ExpandedGo(columns[1..], occurrences, front);
      ExpandedKeys(columns[1..], occurrences);
      var n, rest := Width(occurrences, columns[0]), Expanded(columns[1..], occurrences);
      forall k | k in rest ensures Goes(front, columns[0], k) {
        var i :| 0 <= i < |columns[1..]| && columns[1..][i] == k;
        assert columns[i + 1] == k;
      }
      RepeatedFirst(columns[0], n, rest, front);
    }
  }

  lemma RepeatedFirst(key: string, n: nat, rest: seq<string>, front: set<string>)
    requires forall k :: k in rest ==> Goes(front, key, k)
    requires InOrder(front, rest)
    ensures InOrder(front, Repeat(key, n) + rest)
  {
    hide Goes;
    var h := Repeat(key, n) + rest;
    assert forall i :: n <= i < |h| ==> h[i] == rest[i - n] && h[i] in rest;
  }

  lemma {:induction false} CountIsMultiplicity(keys: seq<string>, key: string)
    ensures Count(keys, key) == multiset(keys)[key]
  {
    if keys != [] {
      var n := |keys| - 1;
      CountIsMultiplicity(keys[..n], key);
      assert keys == keys[..n] + [keys[n]];
    }
  }

  lemma {:induction false} KeysAre(objects: seq<Object>, key: string)
    ensures key in AllKeys(objects) <==> exists i :: 0 <= i < |objects| && key in objects[i]
  {
    if objects != [] {
      var n := |objects| - 1;
      KeysAre(objects[..n], key);
      if i :| 0 <= i < |objects| && key in objects[i] {
        assert i < n ==> key in objects[..n][i];
      }
      if i :| 0 <= i < |objects[..n]| && key in objects[..n][i] {
        assert key in objects[i];
      }
    }
  }

  /** An object holds a list of n values under the key. */
  predicate HoldsList(o: Object, key: string, n: nat) {
    key in o && o[key].List? && |o[key].cells| == n
  }

  lemma {:induction false} LongestIsHeld(objects: seq<Object>, key: string)
    requires key in Occurrences(objects)
    ensures exists i :: 0 <= i < |objects| && HoldsList(objects[i], key, Occurrences(objects)[key])
  {
    var n := |objects| - 1;
    if key in Occurrences(objects[..n]) {
      LongestIsHeld(objects[..n], key);
      var i :| 0 <= i < n && HoldsList(objects[..n][i], key, Occurrences(objects[..n])[key]);
      assert HoldsList(objects[i], key, Occurrences(objects[..n])[key]);
    }
    if key in objects[n] && objects[n][key].List? {
      assert HoldsList(objects[n], key, |objects[n][key].cells|);
    }
  }

  /** The header has a column for every key of an object and as many as the longest list under it; they
      stand together and in the order of keys, but "filename", or else "parts", comes first. */
  lemma HeaderIs(objects: seq<Object>, key: string)
    ensures var h := Header(objects);
            && (key in h <==> exists i :: 0 <= i < |objects| && key in objects[i])
            && (forall i, n :: 0 <= i < |objects| && HoldsList(objects[i], key, n) ==> n <= multiset(h)[key])
            && (multiset(h)[key] > 1 ==> exists i :: 0 <= i < |objects| && HoldsList(objects[i], key, multiset(h)[key]))
            && InOrder(FrontOf(set k | k in h), h)
  {
    var h, keys, occurrences := Header(objects), AllKeys(objects), Occurrences(objects);
    ColumnsDistinct(keys);
    ExpandedKeys(Columns(keys), occurrences);
    KeysAre(objects, key);
    assert (set k | k in h) == keys;
    ColumnsGo(keys);
    ExpandedGo(Columns(keys), occurrences, FrontOf(keys));
    CountIsMultiplicity(h, key);
    ColumnsOfKey(Columns(keys), occurrences, key);
    forall i, n | 0 <= i < |objects| && HoldsList(objects[i], key, n) ensures n <= multiset(h)[key] {
      WidthCovers(objects, i, key);
    }
    if multiset(h)[key] > 1 {
      LongestIsHeld(objects, key);
    }
  }
}
