/** `parseMetadataCSV`, and the round trip from JSON objects to per-file dictionaries. */
module MetadataParser {
  import opened Results
  import opened Strings
  import opened MetadataCsv

  type Values = map<string, seq<string>>

  function Appended(m: Values, key: string, value: string): Values {
    m[key := (if key in m then m[key] else []) + [value]]
  }

  /** `IgnoreEmptyStringValuesOrderedListsDict`, without the order of its keys. */
  class ValuesDict {
    var entries: Values

    constructor ()
      ensures entries == map[]
    {
      entries := map[];
    }

    /** `OrderedListsDict.__setitem__`: append to the key's list. */
    method Append(key: string, value: string)
      modifies this
      ensures entries == Appended(old(entries), key, value)
    {
      if key !in entries {
        entries := entries[key := []];
      }
      entries := entries[key := entries[key] + [value]];
    }

    method SetItem(key: string, value: string)
      modifies this
      ensures entries == if value != "" then Appended(old(entries), key, value) else old(entries)
    {
      if value != "" {
        Append(key, value);
      }
    }
  }

  /** The dictionary built from the pairs of a header and a row, up to the shorter of the two. */
  function Collected(header: seq<string>, cells: seq<string>, n: nat): Values
    requires n <= |header| && n <= |cells|
  {
    if n == 0 then map[] else
      var before := Collected(header, cells, n - 1);
      if cells[n - 1] != "" then Appended(before, header[n - 1], cells[n - 1]) else before
  }

  function Shorter(header: seq<string>, cells: seq<string>): (n: nat)
    ensures n <= |header| && n <= |cells| && (n == |header| || n == |cells|)
  {
    if |header| < |cells| then |header| else |cells|
  }

  method DictOfZip(header: seq<string>, cells: seq<string>) returns (values: Values)
    ensures values == Collected(header, cells, Shorter(header, cells))
  {
    var dict := new ValuesDict();
    for i := 0 to Shorter(header, cells)
      invariant dict.entries == Collected(header, cells, i)
    {
      dict.SetItem(header[i], cells[i]);
    }
    values := dict.entries;
  }

  /** The text is the name with any number of slashes behind it. */
  predicate IsName(text: string, name: string) {
    && name <= text && (name == "" || name[|name| - 1] != '/')
    && forall i :: |name| <= i < |text| ==> text[i] == '/'
  }

  /** `s.rstrip("/")` */
  function StripSlashes(s: string): (r: string)
    ensures IsName(s, r)
  {
    if s != "" && s[|s| - 1] == '/' then StripSlashes(s[..|s| - 1]) else s
  }

  lemma NameUnique(text: string, a: string, b: string)
    requires IsName(text, a) && IsName(text, b)
    ensures a == b
  {
    assert a != "" ==> text[|a| - 1] != '/';
    assert b != "" ==> text[|b| - 1] != '/';
    assert |a| == |b|;
  }

  function StripAll(header: seq<string>): (r: seq<string>)
    ensures |r| == |header|
  {
    seq(|header|, i requires 0 <= i < |header| => Strip(header[i]))
  }

  /** The rows read so far; a repeated name overwrites the earlier entry. */
  function ParsedRows(header: seq<string>, rows: seq<seq<string>>): map<string, Values> {
    if rows == [] then map[] else
      var before, row := ParsedRows(header, rows[..|rows| - 1]), rows[|rows| - 1];
      if row == [] then before
      else before[StripSlashes(row[0]) := Collected(header, row[1..], Shorter(header, row[1..]))]
  }

  function Parsed(table: seq<seq<string>>): Result<map<string, Values>> {
    if table == [] then Failure("StopIteration")
    else Success(ParsedRows(StripAll(if table[0] == [] then [] else table[0][1..]), table[1..]))
  }

  method ParseMetadataCSV(table: seq<seq<string>>) returns (r: Result<map<string, Values>>)
    ensures r == Parsed(table)
  {
    if table == [] {
      return Failure("StopIteration");
    }
    var header := StripAll(if table[0] == [] then [] else table[0][1..]);
    var rows := table[1..];
    var metadata: map<string, Values> := map[];
    for i := 0 to |rows|
      invariant metadata == ParsedRows(header, rows[..i])
    {
      var row := rows[i];
      assert rows[..i + 1][..i] == rows[..i];
      if row != [] {
        var filename := StripSlashes(row[0]);
        var values := DictOfZip(header, row[1..]);
        metadata := metadata[filename := values];
      }
    }
    assert rows[..|rows|] == rows;
    r := Success(metadata);
  }

  /* ----- What the dictionaries should be ----- */

  function NonEmptyText(cell: Cell): seq<string> {
    match cell
    case Null => []
    case Text(text) => if text != "" then [text] else []
  }

  function NonEmpty(cells: seq<Cell>): seq<string> {
    if cells == [] then [] else NonEmpty(cells[..|cells| - 1]) + NonEmptyText(cells[|cells| - 1])
  }

  /** A value's non-empty texts, in order. */
  function Texts(value: Value): seq<string> {
    match value
    case Scalar(cell) => NonEmptyText(cell)
    case List(cells) => NonEmpty(cells)
  }

  /** An object's metadata: every key but "filename" that has a non-empty text. */
  function Metadata(o: Object): Values {
    map k | k in o && k != FILENAME && Texts(o[k]) != [] :: Texts(o[k])
  }

  predicate Named(o: Object) {
    FILENAME in o && o[FILENAME].Scalar?
  }

  /** The object is for the file or directory of this name: "filename" may end in slashes. */
  predicate IsFor(o: Object, name: string)
    requires Named(o)
  {
    match o[FILENAME].cell
    case Null => name == ""
    case Text(text) => IsName(text, name)
  }

  predicate AreFor(objects: seq<Object>, names: seq<string>) {
    |names| == |objects| && forall i :: 0 <= i < |objects| ==> Named(objects[i]) && IsFor(objects[i], names[i])
  }

  function AllMetadata(objects: seq<Object>): (r: seq<Values>)
    ensures |r| == |objects|
  {
    seq(|objects|, i requires 0 <= i < |objects| => Metadata(objects[i]))
  }

  /** Keys and values stored one after the other. */
  function Stored<V>(keys: seq<string>, values: seq<V>): map<string, V>
    requires |keys| == |values|
  {
    if keys == [] then map[] else
      var n := |keys| - 1;
      Stored(keys[..n], values[..n])[keys[n] := values[n]]
  }

  lemma {:induction false} StoredAt<V>(keys: seq<string>, values: seq<V>, i: nat)
    requires |keys| == |values| && i < |keys| && keys[i] !in keys[i + 1..]
    ensures keys[i] in Stored(keys, values) && Stored(keys, values)[keys[i]] == values[i]
    decreases |keys|
  {
    var n := |keys| - 1;
    if i < n {
      assert keys[i + 1..][n - i - 1] == keys[n];
      assert keys[..n][i + 1..] == keys[i + 1..][..n - i - 1];
      StoredAt(keys[..n], values[..n], i);
    }
  }

  /* ----- The round trip ----- */

  /** The non-empty cells under a key, among the first n columns. */
  function Picked(header: seq<string>, cells: seq<string>, n: nat, key: string): seq<string>
    requires n <= |header| && n <= |cells|
  {
    if n == 0 then [] else
      Picked(header, cells, n - 1, key)
      + if header[n - 1] == key && cells[n - 1] != "" then [cells[n - 1]] else []
  }

  lemma {:induction false} CollectedIsPicked(header: seq<string>, cells: seq<string>, n: nat, key: string)
    requires n <= |header| && n <= |cells|
    ensures key in Collected(header, cells, n) <==> Picked(header, cells, n, key) != []
    ensures key in Collected(header, cells, n) ==>
              Collected(header, cells, n)[key] == Picked(header, cells, n, key)
  {
    if n > 0 {
      CollectedIsPicked(header, cells, n - 1, key);
    }
  }

  /** The non-empty texts in the first n columns of one key. */
  function Shown(o: Object, key: string, n: nat): seq<string> {
    if n == 0 then [] else Shown(o, key, n - 1) + NonEmptyText(CellAt(o, key, n - 1))
  }

  /** What one more column adds to the texts shown for a key. */
  lemma ShownStep(o: Object, headers: seq<string>, header: string, key: string)
    ensures Shown(o, key, Count(headers + [header], key))
            == Shown(o, key, Count(headers, key))
               + if header == key then NonEmptyText(CellAt(o, header, Count(headers, header))) else []
  {
    RowSnoc(o, headers, header);
  }

  /** t is s without its first element. */
  ghost predicate IsTail<T>(s: seq<T>, t: seq<T>) {
    |s| == |t| + 1 && forall i :: 0 <= i < |t| ==> t[i] == s[i + 1]
  }

  lemma DropIsTail<T>(s: seq<T>)
    requires s != []
    ensures IsTail(s, s[1..])
  {
  }

  /** The text in a column of the row. */
  lemma ColumnText(o: Object, headers: seq<string>, header: seq<string>, row: seq<string>, cells: seq<string>, n: nat)
    requires IsTail(headers, header) && IsTail(row, cells) && row == RowTexts(RowOf(o, headers))
    requires 0 < n <= |header|
    ensures n <= |cells| && header[n - 1] == headers[n]
    ensures (if cells[n - 1] != "" then [cells[n - 1]] else [])
         == NonEmptyText(CellAt(o, headers[n], Count(headers[..n], headers[n])))
  {
    RowAt(o, headers, n);
    assert cells[n - 1] == row[n] == CellText(RowOf(o, headers)[n]);
  }

  lemma PickedStep(header: seq<string>, cells: seq<string>, n: nat, key: string)
    requires n <= |header| && n <= |cells|
    ensures Picked(header, cells, n, key) ==
            if n == 0 then []
            else Picked(header, cells, n - 1, key)
                 + if header[n - 1] == key then (if cells[n - 1] != "" then [cells[n - 1]] else []) else []
  {
  }

  lemma NoColumn(o: Object, headers: seq<string>, key: string)
    requires headers != [] && headers[0] != key
    ensures Shown(o, key, Count(headers[..1], key)) == []
  {
    assert headers[..1][..0] == [];
  }

  lemma {:induction false} PickedIsShown(o: Object, headers: seq<string>, header: seq<string>,
                                         row: seq<string>, cells: seq<string>, n: nat, key: string)
    requires IsTail(headers, header) && IsTail(row, cells) && row == RowTexts(RowOf(o, headers))
    requires n <= |header| && headers[0] != key
    ensures Picked(header, cells, n, key) == Shown(o, key, Count(headers[..n + 1], key))
  {
    hide Picked;
    hide Shown;
    hide Count;
    hide CellAt;
    hide NonEmptyText;
    hide RowTexts;
    PickedStep(header, cells, n, key);
    if n == 0 {
      NoColumn(o, headers, key);
    } else {
      PickedIsShown(o, headers, header, row, cells, n - 1, key);
      ColumnText(o, headers, header, row, cells, n);
      ShownStep(o, headers[..n], headers[n], key);
      assert headers[..n + 1] == headers[..n] + [headers[n]];
    }
  }

  lemma {:induction false} RowAt(o: Object, headers: seq<string>, i: nat)
    requires i < |headers|
    ensures RowOf(o, headers)[i] == CellAt(o, headers[i], Count(headers[..i], headers[i]))
    decreases |headers|
  {
    var n := |headers| - 1;
    if i < n {
      assert headers[..n][..i] == headers[..i];
      RowAt(o, headers[..n], i);
    }
  }

  /** Enough columns show a value completely. */
  lemma {:induction false} ShownInFull(o: Object, key: string, n: nat)
    requires n >= 1 && (key in o && o[key].List? ==> n >= |o[key].cells|)
    ensures Shown(o, key, n) == if key in o then Texts(o[key]) else []
  {
    if key in o && o[key].List? {
      ListShown(o, key, n);
      assert o[key].cells[..|o[key].cells|] == o[key].cells;
    } else if n > 1 {
      ShownInFull(o, key, n - 1);
    } else {
      assert Shown(o, key, 0) == [];
    }
  }

  lemma {:induction false} ListShown(o: Object, key: string, n: nat)
    requires key in o && o[key].List?
    ensures Shown(o, key, n) == NonEmpty(o[key].cells[..if n < |o[key].cells| then n else |o[key].cells|])
  {
    if n > 0 {
      ListShown(o, key, n - 1);
      var cells := o[key].cells;
      if n <= |cells| {
        assert cells[..n][..n - 1] == cells[..n - 1];
      }
    }
  }

  ghost predicate WellFormed(objects: seq<Object>) {
    forall o: Object :: o in objects ==> Named(o) && forall k :: k in o ==> Strip(k) == k
  }

  lemma {:induction false} KeyComesFrom(objects: seq<Object>, key: string)
    requires key in AllKeys(objects)
    ensures exists o: Object :: o in objects && key in o
  {
    var n := |objects| - 1;
    if key in objects[n] {
      assert objects[n] in objects;
    } else {
      KeyComesFrom(objects[..n], key);
      var o: Object :| o in objects[..n] && key in o;
      assert o in objects;
    }
  }

  /** "filename" is the first column and the only one of its name; no column needs trimming. */
  lemma HeaderShape(objects: seq<Object>)
    requires WellFormed(objects) && objects != []
    ensures var headers := Header(objects);
            && headers != [] && headers[0] == FILENAME && FILENAME !in headers[1..]
            && StripAll(headers[1..]) == headers[1..]
  {
    var columns, occurrences := Columns(AllKeys(objects)), Occurrences(objects);
    var headers := Header(objects);
    assert objects[0] in objects;
    WidthCovers(objects, 0, FILENAME);
    ColumnsDistinct(AllKeys(objects));
    ScalarsAreNotCounted(objects, FILENAME);
    assert headers == Repeat(FILENAME, 1) + Expanded(columns[1..], occurrences);
    assert headers[1..] == Expanded(columns[1..], occurrences);
    ExpandedKeys(columns[1..], occurrences);
    forall i | 0 <= i < |headers[1..]| ensures Strip(headers[1..][i]) == headers[1..][i] {
      var key := headers[1..][i];
      assert key in columns[1..];
      assert key in columns;
      KeyComesFrom(objects, key);
      var o: Object :| o in objects && key in o;
    }
  }

  lemma {:induction false} PickedNone(header: seq<string>, cells: seq<string>, n: nat, key: string)
    requires n <= |header| && n <= |cells| && key !in header
    ensures Picked(header, cells, n, key) == []
  {
    if n > 0 {
      assert header[n - 1] in header;
      PickedNone(header, cells, n - 1, key);
    }
  }

  /** The columns of the header that carry a key show all its texts. */
  lemma HeaderShows(objects: seq<Object>, i: nat, key: string)
    requires i < |objects|
    ensures Shown(objects[i], key, Count(Header(objects), key))
            == if key in objects[i] then Texts(objects[i][key]) else []
  {
    ColumnsDistinct(AllKeys(objects));
    ColumnsOfKey(Columns(AllKeys(objects)), Occurrences(objects), key);
    if key in objects[i] {
      WidthCovers(objects, i, key);
    }
    if key in AllKeys(objects) {
      ShownInFull(objects[i], key, Width(Occurrences(objects), key));
    }
  }

  /** The columns have room for every value of the object. */
  ghost predicate Fits(o: Object, headers: seq<string>) {
    forall key :: Shown(o, key, Count(headers, key)) == if key in o then Texts(o[key]) else []
  }

  lemma HeaderFits(objects: seq<Object>, i: nat)
    requires i < |objects|
    ensures Fits(objects[i], Header(objects))
  {
    var headers := Header(objects);
    forall key
      ensures Shown(objects[i], key, Count(headers, key)) == if key in objects[i] then Texts(objects[i][key]) else []
    {
      HeaderShows(objects, i, key);
    }
  }

  lemma KeyRoundTrip(o: Object, headers: seq<string>, header: seq<string>, row: seq<string>, cells: seq<string>,
                     key: string)
    requires IsTail(headers, header) && IsTail(row, cells) && row == RowTexts(RowOf(o, headers))
    requires headers[0] == FILENAME && FILENAME !in header && Fits(o, headers)
    ensures Picked(header, cells, |header|, key) == if key in o && key != FILENAME then Texts(o[key]) else []
  {
    if key == FILENAME {
      PickedNone(header, cells, |header|, key);
    } else {
      PickedIsShown(o, headers, header, row, cells, |header|, key);
      assert headers[..|header| + 1] == headers;
    }
  }

  predicate SameAt(m: Values, n: Values, key: string) {
    (key in m <==> key in n) && (key in m ==> m[key] == n[key])
  }

  lemma SameEverywhere(m: Values, n: Values)
    requires forall key :: SameAt(m, n, key)
    ensures m == n
  {
    assert forall key :: key in m ==> SameAt(m, n, key);
    assert forall key :: key in n ==> SameAt(m, n, key);
  }

  lemma NameRoundTrip(o: Object, headers: seq<string>, name: string)
    requires headers != [] && headers[0] == FILENAME && Named(o) && IsFor(o, name)
    ensures StripSlashes(RowTexts(RowOf(o, headers))[0]) == name
  {
    RowAt(o, headers, 0);
    assert headers[..0] == [];
    var text := RowTexts(RowOf(o, headers))[0];
    NameUnique(text, StripSlashes(text), name);
  }

  /** One row reads back as its object's metadata. */
  lemma RowRoundTrip(o: Object, headers: seq<string>, header: seq<string>, row: seq<string>, cells: seq<string>)
    requires IsTail(headers, header) && IsTail(row, cells) && row == RowTexts(RowOf(o, headers))
    requires headers[0] == FILENAME && FILENAME !in header && Fits(o, headers)
    ensures Collected(header, cells, |header|) == Metadata(o)
  {
    forall key ensures SameAt(Collected(header, cells, |header|), Metadata(o), key) {
      CollectedIsPicked(header, cells, |header|, key);
      KeyRoundTrip(o, headers, header, row, cells, key);
    }
    SameEverywhere(Collected(header, cells, |header|), Metadata(o));
  }

  function RowNames(rows: seq<seq<string>>): (r: seq<string>)
    requires forall i :: 0 <= i < |rows| ==> rows[i] != []
    ensures |r| == |rows|
  {
    seq(|rows|, i requires 0 <= i < |rows| => StripSlashes(rows[i][0]))
  }

  function RowValues(header: seq<string>, rows: seq<seq<string>>): (r: seq<Values>)
    requires forall i :: 0 <= i < |rows| ==> rows[i] != []
    ensures |r| == |rows|
  {
    seq(|rows|, i requires 0 <= i < |rows| => Collected(header, rows[i][1..], Shorter(header, rows[i][1..])))
  }

  /** A file without blank rows: the dictionaries are stored row by row. */
  lemma {:induction false} ParsedRowsAreStored(header: seq<string>, rows: seq<seq<string>>)
    requires forall i :: 0 <= i < |rows| ==> rows[i] != []
    ensures ParsedRows(header, rows) == Stored(RowNames(rows), RowValues(header, rows))
  {
    if rows != [] {
      var n := |rows| - 1;
      ParsedRowsAreStored(header, rows[..n]);
      assert RowNames(rows)[..n] == RowNames(rows[..n]);
      assert RowValues(header, rows)[..n] == RowValues(header, rows[..n]);
    }
  }

  lemma {:induction false} WrittenRow(objects: seq<Object>, headers: seq<string>, i: nat)
    requires i < |objects|
    ensures Rows(objects, headers)[i] == RowTexts(RowOf(objects[i], headers))
    decreases |objects|
  {
    var n := |objects| - 1;
    if i < n {
      WrittenRow(objects[..n], headers, i);
    }
  }

  lemma RowsRoundTrip(objects: seq<Object>, names: seq<string>, headers: seq<string>, header: seq<string>)
    requires AreFor(objects, names) && forall i :: 0 <= i < |objects| ==> Fits(objects[i], headers)
    requires IsTail(headers, header) && headers[0] == FILENAME && FILENAME !in header
    ensures ParsedRows(header, Rows(objects, headers)) == Stored(names, AllMetadata(objects))
  {
    var rows := Rows(objects, headers);
    forall i | 0 <= i < |rows|
      ensures rows[i] != [] && StripSlashes(rows[i][0]) == names[i]
      ensures Collected(header, rows[i][1..], Shorter(header, rows[i][1..])) == Metadata(objects[i])
    {
      WrittenRow(objects, headers, i);
      NameRoundTrip(objects[i], headers, names[i]);
      DropIsTail(rows[i]);
      RowRoundTrip(objects[i], headers, header, rows[i], rows[i][1..]);
    }
    ParsedRowsAreStored(header, rows);
    assert RowNames(rows) == names;
    assert RowValues(header, rows) == AllMetadata(objects);
  }

  lemma ParsedTable(headers: seq<string>, rows: seq<seq<string>>)
    requires headers != [] && StripAll(headers[1..]) == headers[1..]
    ensures Parsed([headers] + rows) == Success(ParsedRows(headers[1..], rows))
  {
    assert ([headers] + rows)[1..] == rows;
  }

  /** Writing any list of objects, each with a scalar "filename" and trimmed keys, and parsing
      the file gives exactly each object's non-empty values, by name; of two objects for one name
      the later one counts. */
  lemma JsonCsvRoundTrip(objects: seq<Object>, names: seq<string>)
    requires WellFormed(objects) && AreFor(objects, names)
    ensures Parsed(Table(objects)) == Success(Stored(names, AllMetadata(objects)))
  {
    if objects == [] {
      assert Table(objects)[1..] == [];
    } else {
      var headers := Header(objects);
      HeaderShape(objects);
      DropIsTail(headers);
      forall i | 0 <= i < |objects| ensures Fits(objects[i], headers) { HeaderFits(objects, i); }
      RowsRoundTrip(objects, names, headers, headers[1..]);
      ParsedTable(headers, Rows(objects, headers));
    }
  }

  lemma {:induction false} StoredKeys<V>(keys: seq<string>, values: seq<V>)
    requires |keys| == |values|
    ensures forall k :: k in Stored(keys, values) <==> k in keys
  {
    if keys != [] {
      var n := |keys| - 1;
      StoredKeys(keys[..n], values[..n]);
      assert keys == keys[..n] + [keys[n]];
    }
  }

  /** Every name is read back with the non-empty values of the last object for it, and no other
      name is. */
  lemma EveryObjectReadBack(objects: seq<Object>, names: seq<string>, i: nat)
    requires WellFormed(objects) && AreFor(objects, names) && i < |objects| && names[i] !in names[i + 1..]
    ensures Parsed(Table(objects)).Success?
    ensures var read := Parsed(Table(objects)).value;
            && (forall name :: name in read <==> name in names)
            && (forall key :: key in read[names[i]] <==>
                   key in objects[i] && key != FILENAME && Texts(objects[i][key]) != [])
            && (forall key :: key in read[names[i]] ==> read[names[i]][key] == Texts(objects[i][key]))
  {
    JsonCsvRoundTrip(objects, names);
    StoredKeys(names, AllMetadata(objects));
    StoredAt(names, AllMetadata(objects), i);
  }

  /* ----- any table ----- */

  /** The columns of the table have these names, once trimmed. */
  ghost predicate AreColumns(table: seq<seq<string>>, columns: seq<string>) {
    table != [] && |table[0]| == |columns| && forall j :: 1 <= j < |columns| ==> IsTrimmed(table[0][j], columns[j])
  }

  /** The non-empty cells under a key, in column order, in the first n columns after the name. */
  function Under(columns: seq<string>, row: seq<string>, n: nat, key: string): seq<string>
    requires n == 0 || (n < |columns| && n < |row|)
  {
    if n == 0 then [] else
      Under(columns, row, n - 1, key) + if columns[n] == key && row[n] != "" then [row[n]] else []
  }

  /** How many columns after the name both have. */
  function Common(columns: seq<string>, row: seq<string>): nat {
    if columns == [] || row == [] then 0 else if |columns| < |row| then |columns| - 1 else |row| - 1
  }

  /** Row i is the last one for its name. */
  ghost predicate LastFor(table: seq<seq<string>>, i: nat, name: string) {
    && 1 <= i < |table| && table[i] != [] && IsName(table[i][0], name)
    && forall j :: i < j < |table| && table[j] != [] ==> !IsName(table[j][0], name)
  }

  lemma ColumnsAre(table: seq<seq<string>>, columns: seq<string>)
    requires AreColumns(table, columns)
    ensures StripAll(if table[0] == [] then [] else table[0][1..]) == if columns == [] then [] else columns[1..]
  {
    forall j | 0 <= j < |columns| - 1 ensures Strip(table[0][1..][j]) == columns[1..][j] {
      StripIff(table[0][j + 1], columns[j + 1]);
    }
  }

  lemma {:induction false} PickedIsUnder(columns: seq<string>, row: seq<string>, n: nat, key: string)
    requires n < |columns| && n < |row|
    ensures Picked(columns[1..], row[1..], n, key) == Under(columns, row, n, key)
  {
    if n > 0 {
      PickedIsUnder(columns, row, n - 1, key);
    }
  }

  lemma {:induction false} LastRowCounts(header: seq<string>, rows: seq<seq<string>>, i: nat, name: string)
    requires i < |rows| && rows[i] != [] && IsName(rows[i][0], name)
    requires forall j :: i < j < |rows| && rows[j] != [] ==> !IsName(rows[j][0], name)
    ensures name in ParsedRows(header, rows)
    ensures ParsedRows(header, rows)[name] == Collected(header, rows[i][1..], Shorter(header, rows[i][1..]))
    decreases |rows|
  {
    var n := |rows| - 1;
    if i == n {
      NameUnique(rows[i][0], StripSlashes(rows[i][0]), name);
    } else {
      LastRowCounts(header, rows[..n], i, name);
    }
  }

  lemma {:induction false} NamesComeFromRows(header: seq<string>, rows: seq<seq<string>>, name: string)
    requires name in ParsedRows(header, rows)
    ensures exists i :: 0 <= i < |rows| && rows[i] != [] && IsName(rows[i][0], name)
  {
    var n := |rows| - 1;
    if rows[n] == [] || !IsName(rows[n][0], name) {
      NamesComeFromRows(header, rows[..n], name);
      var i :| 0 <= i < |rows[..n]| && rows[..n][i] != [] && IsName(rows[..n][i][0], name);
      assert rows[i] == rows[..n][i];
    }
  }

  lemma CollectedIsUnder(columns: seq<string>, row: seq<string>, key: string)
    requires row != []
    ensures var header := if columns == [] then [] else columns[1..];
            var read := Collected(header, row[1..], Shorter(header, row[1..]));
            var cells := Under(columns, row, Common(columns, row), key);
            (key in read <==> cells != []) && (key in read ==> read[key] == cells)
  {
    var header := if columns == [] then [] else columns[1..];
    CollectedIsPicked(header, row[1..], Shorter(header, row[1..]), key);
    if columns != [] {
      PickedIsUnder(columns, row, Common(columns, row), key);
    }
  }

  lemma LastBelow(table: seq<seq<string>>, i: nat, name: string)
    requires LastFor(table, i, name)
    ensures table[1..][i - 1] == table[i]
    ensures forall j :: i - 1 < j < |table[1..]| && table[1..][j] != [] ==> !IsName(table[1..][j][0], name)
  {
    hide IsName;
    forall j | i - 1 < j < |table[1..]| && table[1..][j] != [] ensures !IsName(table[1..][j][0], name) {
      assert table[1..][j] == table[j + 1];
    }
  }

  /** Any table: a name has the values of its last row, under each trimmed column name the row's
      non-empty cells in order; blank rows and cells beyond the header count for nothing. */
  lemma TableRead(table: seq<seq<string>>, columns: seq<string>, i: nat, name: string, key: string)
    requires AreColumns(table, columns) && LastFor(table, i, name)
    ensures Parsed(table).Success? && name in Parsed(table).value
    ensures var cells := Under(columns, table[i], Common(columns, table[i]), key);
            var read := Parsed(table).value[name];
            (key in read <==> cells != []) && (key in read ==> read[key] == cells)
  {
    var header, row := if columns == [] then [] else columns[1..], table[i];
    var n := Shorter(header, row[1..]);
    ParsedByHeader(table, columns);
    LastBelow(table, i, name);
    hide IsName;
    hide Parsed;
    hide AreColumns;
    LastRowCounts(header, table[1..], i - 1, name);
    assert Parsed(table).value[name] == Collected(header, row[1..], n);
    hide ParsedRows;
    CollectedIsUnder(columns, row, key);
    hide Collected;
    hide Under;
  }

  lemma ParsedByHeader(table: seq<seq<string>>, columns: seq<string>)
    requires AreColumns(table, columns)
    ensures Parsed(table) == Success(ParsedRows(if columns == [] then [] else columns[1..], table[1..]))
  {
    ColumnsAre(table, columns);
  }

  /** Only rows give names. */
  lemma NamesRead(table: seq<seq<string>>, name: string)
    requires table != [] && name in Parsed(table).value
    ensures exists i :: 1 <= i < |table| && table[i] != [] && IsName(table[i][0], name)
  {
    var header := StripAll(if table[0] == [] then [] else table[0][1..]);
    NamesComeFromRows(header, table[1..], name);
    var i :| 0 <= i < |table[1..]| && table[1..][i] != [] && IsName(table[1..][i][0], name);
    assert table[i + 1] == table[1..][i];
  }
}
