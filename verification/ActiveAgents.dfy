/** The agents of a file: the default ones and its unit's active agent, one file at a time and for
    many files at once. */
module ActiveAgents {
  import opened Results
  import Strings

  datatype Kind = Sip | Transfer
  datatype Unit = Unit(kind: Kind, uuid: string)

  /** A row of the File table. */
  datatype FileRow = FileRow(sip: Option<string>, transfer: Option<string>)

  /** A unit variable named activeAgent. */
  datatype Active = Active(unit: Unit, value: Option<string>)

  datatype Database = Database(files: map<string, FileRow>, actives: seq<Active>, agents: set<nat>, defaults: set<nat>)

  /** The SIP of a file comes before its transfer. */
  function UnitOf(f: FileRow): Option<Unit> {
    if f.sip.Some? then Some(Unit(Sip, f.sip.value))
    else if f.transfer.Some? then Some(Unit(Transfer, f.transfer.value))
    else None
  }

  function ValuesFor(actives: seq<Active>, unit: Unit): seq<Option<string>> {
    if actives == [] then [] else
      var last := actives[|actives| - 1];
      ValuesFor(actives[..|actives| - 1], unit) + (if last.unit == unit then [last.value] else [])
  }

  /** The active agent of a unit; `parse` is the conversion of the stored text to a primary key, which
      raises for text that is no number. */
  function ActiveAgent(db: Database, parse: string -> Option<int>, unit: Unit): Result<set<nat>> {
    var values := ValuesFor(db.actives, unit);
    if |values| > 1 then Failure("MultipleObjectsReturned")
    else if values == [] || values[0].None? then Success({})
    else if parse(values[0].value).None? then Failure("ValueError")
    else Success(set a | a in db.agents && parse(values[0].value) == Some(a))
  }

  /** `getAMAgentsForFile` */
  function AgentsForFile(db: Database, parse: string -> Option<int>, file: string): Result<set<nat>> {
    if file !in db.files then Success({}) else
      var unit := UnitOf(db.files[file]);
      if unit.None? then Success(db.defaults) else
        match ActiveAgent(db, parse, unit.value)
        case Failure(message) => Failure(message)
        case Success(agents) => Success(db.defaults + agents)
  }

  /* ----- _get_agent_ids_by_file ----- */

  /** What the lookup for many files needs of one of them: at most one active agent for its unit,
      and that a number. */
  predicate Sound(db: Database, parse: string -> Option<int>, file: string) {
    file in db.files && UnitOf(db.files[file]).Some? ==>
      ActiveAgent(db, parse, UnitOf(db.files[file]).value).Success?
  }

  /** The agents the lookup for many files finds for one: it compares the stored text with the text
      of the primary key. */
  function BatchAgents(db: Database, file: string): set<nat> {
    if file !in db.files then {} else
      var unit := UnitOf(db.files[file]);
      if unit.None? then db.defaults else
        var values := ValuesFor(db.actives, unit.value);
        db.defaults + if values == [] then {} else set a | a in db.agents && values[0] == Some(Strings.Decimal(a))
  }

  /** The stored text of a unit's active agent is that of the primary key it stands for. */
  predicate Canonical(db: Database, parse: string -> Option<int>, file: string) {
    file in db.files && UnitOf(db.files[file]).Some? ==>
      var values := ValuesFor(db.actives, UnitOf(db.files[file]).value);
      values != [] && values[0].Some? ==>
        forall a :: a in db.agents && a !in db.defaults && parse(values[0].value) == Some(a) ==>
                      values[0].value == Strings.Decimal(a)
  }

  /** `int(str(n))` */
  ghost predicate Parses(parse: string -> Option<int>) {
    forall n: nat :: parse(Strings.Decimal(n)) == Some(n)
  }

  /** The lookup for many files finds what the lookup for one finds exactly if the text is canonical
      ("7", not "07" or " 7"). */
  lemma BatchAgreesIff(db: Database, parse: string -> Option<int>, file: string)
    requires Parses(parse) && Sound(db, parse, file)
    ensures AgentsForFile(db, parse, file).Success?
    ensures AgentsForFile(db, parse, file).value == BatchAgents(db, file) <==> Canonical(db, parse, file)
  {
    if file in db.files && UnitOf(db.files[file]).Some? {
      var values := ValuesFor(db.actives, UnitOf(db.files[file]).value);
      if values != [] && values[0].Some? {
        var v := values[0].value;
        var one, many := AgentsForFile(db, parse, file).value, BatchAgents(db, file);
        forall a | a in many ensures a in one {
          if a !in db.defaults {
            assert parse(Strings.Decimal(a)) == Some(a);
          }
        }
        if Canonical(db, parse, file) {
          assert one == many;
        } else {
          var a :| a in db.agents && a !in db.defaults && parse(v) == Some(a) && v != Strings.Decimal(a);
          assert a in one && a !in many;
        }
      }
    }
  }

  /** `int(s)` of a string of digits. */
  function ReadNumber(s: string): Option<int> {
    if s != "" && forall i :: 0 <= i < |s| ==> Strings.IsDigit(s[i]) then Some(Strings.Number(s)) else None
  }

  lemma ReadsBack()
    ensures Parses(ReadNumber)
  {
    forall n: nat ensures ReadNumber(Strings.Decimal(n)) == Some(n) {
      Strings.NumberOfDecimal(n);
    }
  }

  lemma NumberOfSeven()
    ensures ReadNumber("07") == Some(7) && Strings.Decimal(7) == "7"
  {
    assert "07"[..1] == "0" && "0"[..0] == "";
    assert Strings.Number("0") == 0 && Strings.Number("07") == 7;
  }

  /** A file of a SIP whose active agent is stored as 07 (the code itself stores the text of a
      number: update_active_agent is given a primary key). */
  const PADDED := Database(map["f" := FileRow(Some("s"), None)], [Active(Unit(Sip, "s"), Some("07"))], {7}, {})

  /** The lookup for one file finds agent 7, the lookup for many files finds none. */
  lemma LeadingZeroDiffers()
    ensures Parses(ReadNumber) && Sound(PADDED, ReadNumber, "f") && !Canonical(PADDED, ReadNumber, "f")
    ensures AgentsForFile(PADDED, ReadNumber, "f") == Success({7}) && BatchAgents(PADDED, "f") == {}
  {
    ReadsBack();
    NumberOfSeven();
    var actives := PADDED.actives;
    assert actives[..0] == [];
    assert ValuesFor(actives, Unit(Sip, "s")) == [] + [Some("07")];
    assert Some("07") != Some(Strings.Decimal(7)) by { assert |"07"| != |"7"|; }
    assert 7 in PADDED.agents && 7 !in PADDED.defaults;
    assert AgentsForFile(PADDED, ReadNumber, "f").value == {7};
  }

  /** Rows of the given units, as found so far: no unit twice. */
  ghost predicate Found(actives: seq<Active>, units: set<Unit>, values: map<Unit, Option<string>>) {
    forall u :: u in units ==> |ValuesFor(actives, u)| <= 1
                               && (u in values <==> ValuesFor(actives, u) != [])
                               && (u in values ==> ValuesFor(actives, u) == [values[u]])
  }

  lemma ValuesSnoc(actives: seq<Active>, i: nat, unit: Unit)
    requires i < |actives|
    ensures ValuesFor(actives[..i + 1], unit) ==
            ValuesFor(actives[..i], unit) + (if actives[i].unit == unit then [actives[i].value] else [])
  {
    assert actives[..i + 1][..i] == actives[..i];
  }

  lemma {:induction false} ValuesGrow(actives: seq<Active>, i: nat, unit: Unit)
    requires i <= |actives|
    ensures |ValuesFor(actives, unit)| >= |ValuesFor(actives[..i], unit)|
    decreases |actives| - i
  {
    if i < |actives| {
      ValuesSnoc(actives, i, unit);
      ValuesGrow(actives, i + 1, unit);
    } else {
      assert actives[..i] == actives;
    }
  }

  method ActiveValues(actives: seq<Active>, units: set<Unit>) returns (r: Result<map<Unit, Option<string>>>)
    ensures r.Success? ==> Found(actives, units, r.value) && r.value.Keys <= units
    ensures r.Failure? ==> exists u :: u in units && |ValuesFor(actives, u)| > 1
  {
    var values: map<Unit, Option<string>> := map[];
    for i := 0 to |actives|
      invariant Found(actives[..i], units, values) && values.Keys <= units
    {
      var a := actives[i];
      forall u ensures ValuesFor(actives[..i + 1], u) ==
                       ValuesFor(actives[..i], u) + (if a.unit == u then [a.value] else []) {
        ValuesSnoc(actives, i, u);
      }
      if a.unit in units {
        if a.unit in values {
          ValuesGrow(actives, i + 1, a.unit);
          return Failure("MultipleObjectsReturned");
        }
        values := values[a.unit := a.value];
      }
    }
    assert actives[..|actives|] == actives;
    r := Success(values);
  }

  /** The active agents of the units of some files. */
  method UnitValues(db: Database, parse: string -> Option<int>, known: set<string>)
    returns (r: Result<map<Unit, Option<string>>>)
    requires known <= db.files.Keys
    ensures r.Success? <==> forall f :: f in known ==> Sound(db, parse, f)
    ensures r.Success? ==> forall f :: f in known && UnitOf(db.files[f]).Some? ==>
                                         Found(db.actives, {UnitOf(db.files[f]).value}, r.value)
  {
    var units := set f | f in known && UnitOf(db.files[f]).Some? :: UnitOf(db.files[f]).value;
    forall f | f in known && UnitOf(db.files[f]).Some? ensures UnitOf(db.files[f]).value in units {
    }
    r := ActiveValues(db.actives, units);
    if r.Failure? {
      ghost var u :| u in units && |ValuesFor(db.actives, u)| > 1;
      ghost var f :| f in known && UnitOf(db.files[f]) == Some(u);
      assert !Sound(db, parse, f);
    } else if exists u :: u in r.value && r.value[u].Some? && parse(r.value[u].value).None? {
      ghost var u :| u in r.value && r.value[u].Some? && parse(r.value[u].value).None?;
      ghost var f :| f in known && UnitOf(db.files[f]) == Some(u);
      assert !Sound(db, parse, f);
      r := Failure("ValueError");
    }
  }

  /** The agents named by the active values, by the text of their keys. */
  function ByText(db: Database, parse: string -> Option<int>, values: map<Unit, Option<string>>): map<nat, string> {
    map a | a in db.agents && exists u :: u in values && values[u].Some? && parse(values[u].value) == Some(a)
      :: Strings.Decimal(a)
  }

  /** `_get_agent_ids_by_file` */
  method AgentIdsByFile(db: Database, parse: string -> Option<int>, files: set<string>)
    returns (r: Result<map<string, set<nat>>>)
    requires Parses(parse)
    ensures r.Success? <==> forall f :: f in files ==> Sound(db, parse, f)
    ensures r.Success? ==> forall f :: f in r.value <==> f in files && f in db.files
    ensures r.Success? ==> forall f :: f in r.value ==> r.value[f] == BatchAgents(db, f)
  {
    var known := set f | f in files && f in db.files;
    assert forall f :: f in files && f in db.files ==> f in known;
    var found := UnitValues(db, parse, known);
    if found.Failure? {
      return Failure(found.message);
    }
    var values := found.value;
    var byText := ByText(db, parse, values);
    var result: map<string, set<nat>> := map[];
    var left := known;
    while left != {}
      invariant left <= known && result.Keys == known - left
      invariant forall f :: f in result ==> result[f] == BatchAgents(db, f)
      decreases |left|
    {
      var f :| f in left;
      left := left - {f};
      var agents := AgentsWith(db, byText, values, UnitOf(db.files[f]));
      SameAgents(db, parse, values, f);
      result := result[f := agents];
    }
    r := Success(result);
  }

  /** The default agents, and the one the unit's value names. */
  function AgentsWith(db: Database, byText: map<nat, string>, values: map<Unit, Option<string>>, unit: Option<Unit>)
    : set<nat>
  {
    db.defaults +
    if unit.Some? && unit.value in values && values[unit.value].Some?
    then set a | a in byText && byText[a] == values[unit.value].value else {}
  }

  lemma SameAgents(db: Database, parse: string -> Option<int>, values: map<Unit, Option<string>>, f: string)
    requires Parses(parse) && f in db.files
    requires UnitOf(db.files[f]).Some? ==> Found(db.actives, {UnitOf(db.files[f]).value}, values)
    ensures AgentsWith(db, ByText(db, parse, values), values, UnitOf(db.files[f])) == BatchAgents(db, f)
  {
    if UnitOf(db.files[f]).Some? {
      var u := UnitOf(db.files[f]).value;
      if u in values && values[u].Some? {
        forall a | a in db.agents && values[u] == Some(Strings.Decimal(a)) ensures a in ByText(db, parse, values) {
          assert parse(values[u].value) == Some(a);
        }
      }
    }
  }
}
