/** Which agents a file's events are linked to, told from the rows of the tables. */
module FileAgents {
  import opened ActiveAgents
  import opened Results
  import Strings

  /** Row i of the unit variables holds the active agent of this SIP or transfer. */
  ghost predicate IsRow(db: Database, kind: Kind, uuid: string, i: int) {
    0 <= i < |db.actives| && db.actives[i].unit.kind == kind && db.actives[i].unit.uuid == uuid
  }

  /** The rows that count for a file: those of its SIP, or, without a SIP, those of its transfer. */
  ghost predicate Counts(db: Database, file: string, i: int) {
    file in db.files &&
    match (db.files[file].sip, db.files[file].transfer)
    case (Some(s), _) => IsRow(db, Sip, s, i)
    case (None, Some(t)) => IsRow(db, Transfer, t, i)
    case (None, None) => false
  }

  /** Of these rows there is at most one, and it holds a number or nothing. */
  ghost predicate Usable(db: Database, parse: string -> Option<int>, file: string) {
    && (forall i, j :: Counts(db, file, i) && Counts(db, file, j) ==> i == j)
    && forall i :: Counts(db, file, i) && db.actives[i].value.Some? ==> parse(db.actives[i].value.value).Some?
  }

  /** One of these rows holds a text that stands for the agent's key. */
  ghost predicate NamedBy(db: Database, file: string, standsFor: (string, nat) -> bool, a: nat) {
    exists i :: Counts(db, file, i) && db.actives[i].value.Some? && standsFor(db.actives[i].value.value, a)
  }

  /** The agents of a file: none if the file is unknown; else the default ones and the existing ones that
      are named. */
  ghost predicate AgentsAre(db: Database, file: string, standsFor: (string, nat) -> bool, agents: set<nat>) {
    forall a :: a in agents <==>
      file in db.files && (a in db.defaults || (a in db.agents && NamedBy(db, file, standsFor, a)))
  }

  /* ----- the rows of a unit ----- */

  lemma {:induction false} ValuesAre(actives: seq<Active>, unit: Unit, v: Option<string>)
    ensures v in ValuesFor(actives, unit) <==>
            exists i :: 0 <= i < |actives| && actives[i].unit == unit && actives[i].value == v
  {
    if actives != [] {
      var n := |actives| - 1;
      ValuesAre(actives[..n], unit, v);
      if i :| 0 <= i < |actives| && actives[i].unit == unit && actives[i].value == v {
        assert i < n ==> actives[..n][i].unit == unit && actives[..n][i].value == v;
      }
      if i :| 0 <= i < |actives[..n]| && actives[..n][i].unit == unit && actives[..n][i].value == v {
        assert actives[i].unit == unit && actives[i].value == v;
      }
    }
  }

  lemma {:induction false} SeveralIff(actives: seq<Active>, unit: Unit)
    ensures |ValuesFor(actives, unit)| > 0 <==> exists i :: 0 <= i < |actives| && actives[i].unit == unit
    ensures |ValuesFor(actives, unit)| > 1 <==>
            exists i, j :: 0 <= i < j < |actives| && actives[i].unit == unit && actives[j].unit == unit
  {
    if actives != [] {
      var n := |actives| - 1;
      var before := actives[..n];
      SeveralIff(before, unit);
      assert forall i :: 0 <= i < n ==> before[i] == actives[i];
      if i, j :| 0 <= i < j < |actives| && actives[i].unit == unit && actives[j].unit == unit {
        assert before[i].unit == unit;
        assert j < n ==> before[j].unit == unit;
      }
      if i, j :| 0 <= i < j < |before| && before[i].unit == unit && before[j].unit == unit {
        assert actives[i].unit == unit && actives[j].unit == unit;
      }
      if i :| 0 <= i < |actives| && actives[i].unit == unit {
        assert i < n ==> before[i].unit == unit;
      }
      if i :| 0 <= i < |before| && before[i].unit == unit {
        assert actives[i].unit == unit && (actives[n].unit == unit ==> i < n);
      }
    }
  }

  lemma CountsIff(db: Database, file: string, i: int)
    ensures Counts(db, file, i) <==>
            file in db.files && UnitOf(db.files[file]).Some?
            && 0 <= i < |db.actives| && db.actives[i].unit == UnitOf(db.files[file]).value
  {
  }

  /** The values of a file's unit are those of the rows that count. */
  lemma UnitValuesAre(db: Database, file: string, v: Option<string>)
    requires file in db.files && UnitOf(db.files[file]).Some?
    ensures var values := ValuesFor(db.actives, UnitOf(db.files[file]).value);
            && (v in values <==> exists i :: Counts(db, file, i) && db.actives[i].value == v)
            && (|values| > 1 <==> exists i, j :: i < j && Counts(db, file, i) && Counts(db, file, j))
  {
    var unit := UnitOf(db.files[file]).value;
    forall i ensures Counts(db, file, i) <==> 0 <= i < |db.actives| && db.actives[i].unit == unit {
      CountsIff(db, file, i);
    }
    ValuesAre(db.actives, unit, v);
    SeveralIff(db.actives, unit);
    hide Counts;
    hide ValuesFor;
  }

  lemma NoUnit(db: Database, file: string, i: int)
    requires file !in db.files || UnitOf(db.files[file]).None?
    ensures !Counts(db, file, i)
  {
    CountsIff(db, file, i);
  }

  lemma SoundValues(db: Database, parse: string -> Option<int>, file: string, values: seq<Option<string>>)
    requires forall v :: v in values <==> exists i :: Counts(db, file, i) && db.actives[i].value == v
    requires |values| > 1 <==> exists i, j :: i < j && Counts(db, file, i) && Counts(db, file, j)
    ensures Usable(db, parse, file) <==>
            |values| <= 1 && (values != [] && values[0].Some? ==> parse(values[0].value).Some?)
  {
    assert forall i :: Counts(db, file, i) ==> 0 <= i < |db.actives|;
    hide Counts;
    forall i | Counts(db, file, i) ensures db.actives[i].value in values {
    }
    if |values| == 1 {
      assert values[0] in values;
      var i :| Counts(db, file, i) && db.actives[i].value == values[0];
      assert forall v :: v in values ==> v == values[0];
    }
  }

  /** The lookup raises for a file exactly if its rows are not usable. */
  lemma SoundIff(db: Database, parse: string -> Option<int>, file: string)
    ensures Sound(db, parse, file) <==> Usable(db, parse, file)
    ensures AgentsForFile(db, parse, file).Success? <==> Usable(db, parse, file)
  {
    if file in db.files && UnitOf(db.files[file]).Some? {
      var values := ValuesFor(db.actives, UnitOf(db.files[file]).value);
      forall v ensures v in values <==> exists i :: Counts(db, file, i) && db.actives[i].value == v {
        UnitValuesAre(db, file, v);
      }
      UnitValuesAre(db, file, None);
      SoundValues(db, parse, file, values);
    } else {
      forall i ensures !Counts(db, file, i) {
        NoUnit(db, file, i);
      }
    }
  }

  lemma NamedIff(db: Database, file: string, standsFor: (string, nat) -> bool, a: nat)
    requires file in db.files && UnitOf(db.files[file]).Some?
    requires |ValuesFor(db.actives, UnitOf(db.files[file]).value)| <= 1
    ensures var values := ValuesFor(db.actives, UnitOf(db.files[file]).value);
            NamedBy(db, file, standsFor, a) <==>
            values != [] && values[0].Some? && standsFor(values[0].value, a)
  {
    var values := ValuesFor(db.actives, UnitOf(db.files[file]).value);
    forall v ensures v in values <==> exists i :: Counts(db, file, i) && db.actives[i].value == v {
      UnitValuesAre(db, file, v);
    }
    hide Counts;
    hide ValuesFor;
    hide UnitOf;
    if i :| Counts(db, file, i) && db.actives[i].value.Some? && standsFor(db.actives[i].value.value, a) {
      assert db.actives[i].value in values;
    }
    if values != [] && values[0].Some? && standsFor(values[0].value, a) {
      assert values[0] in values;
      var i :| Counts(db, file, i) && db.actives[i].value == values[0];
    }
  }

  lemma NoneNamed(db: Database, file: string, standsFor: (string, nat) -> bool, a: nat)
    requires file !in db.files || UnitOf(db.files[file]).None?
    ensures !NamedBy(db, file, standsFor, a)
  {
    forall i ensures !Counts(db, file, i) {
      NoUnit(db, file, i);
    }
  }

  function AsNumber(parse: string -> Option<int>): (string, nat) -> bool {
    (text: string, a: nat) => parse(text) == Some(a)
  }

  function AsNumeral(): (string, nat) -> bool {
    (text: string, a: nat) => text == Strings.Decimal(a)
  }

  /** One file at a time: a text stands for the number it parses to. */
  lemma OneAtATime(db: Database, parse: string -> Option<int>, file: string)
    requires Usable(db, parse, file)
    ensures AgentsForFile(db, parse, file).Success?
    ensures AgentsAre(db, file, AsNumber(parse), AgentsForFile(db, parse, file).value)
  {
    SoundIff(db, parse, file);
    var agents, standsFor := AgentsForFile(db, parse, file).value, AsNumber(parse);
    forall a
      ensures a in agents <==>
              file in db.files && (a in db.defaults || (a in db.agents && NamedBy(db, file, standsFor, a)))
    {
      if file in db.files && UnitOf(db.files[file]).Some? {
        NamedIff(db, file, standsFor, a);
      } else {
        NoneNamed(db, file, standsFor, a);
      }
    }
  }

  /** Many files at once: a text stands for the key it is the decimal numeral of. */
  lemma ManyAtOnce(db: Database, parse: string -> Option<int>, file: string)
    requires Usable(db, parse, file)
    ensures AgentsAre(db, file, AsNumeral(), BatchAgents(db, file))
  {
    SoundIff(db, parse, file);
    var agents, standsFor := BatchAgents(db, file), AsNumeral();
    forall a
      ensures a in agents <==>
              file in db.files && (a in db.defaults || (a in db.agents && NamedBy(db, file, standsFor, a)))
    {
      if file in db.files && UnitOf(db.files[file]).Some? {
        NamedIff(db, file, standsFor, a);
      } else {
        NoneNamed(db, file, standsFor, a);
      }
    }
  }
}
