/** What inserting events leaves in the tables, told from the events given and the rows of the tables. */
module EventLinks {
  import opened ActiveAgents
  import opened Events
  import opened FileAgents
  import opened Results

  /** One event after another with `insertIntoEvents`, or all with `insert_events`. */
  datatype Way = OneByOne | AllAtOnce

  ghost function Inserted(way: Way, db: Database, norm: string -> Option<string>, parse: string -> Option<int>,
                          es: seq<Input>, t: Tables): Result<Tables>
  {
    match way
    case OneByOne => InsertEach(One(db, norm, parse), es, t)
    case AllAtOnce => InsertAll(Many(db, norm, parse), es, t)
  }

  /** The event names its agents; an empty list counts when all are inserted at once only. */
  predicate NamesAgents(way: Way, e: Input) {
    e.agents.Some? && (way.OneByOne? ==> e.agents.value != {})
  }

  ghost predicate CanPrepare(way: Way, db: Database, norm: string -> Option<string>, parse: string -> Option<int>,
                             e: Input)
  {
    norm(e.id).Some? && norm(e.file).Some? && (!NamesAgents(way, e) ==> Usable(db, parse, norm(e.file).value))
  }

  /** Whether an event of this file gets linked to the agent: one it names; or, if it names none, a
      default one, or the one the row of the file's unit stands for. */
  ghost predicate IsAgent(way: Way, db: Database, parse: string -> Option<int>, e: Input, file: string, a: nat) {
    if NamesAgents(way, e) then a in e.agents.value
    else
      file in db.files && (a in db.defaults || (a in db.agents && NamedBy(db, file, StandsFor(way, parse), a)))
  }

  function StandsFor(way: Way, parse: string -> Option<int>): (string, nat) -> bool {
    match way
    case OneByOne => AsNumber(parse)
    case AllAtOnce => AsNumeral()
  }

  /** No two events have an id, and none has that of a row. */
  ghost predicate IdsAreNew(norm: string -> Option<string>, es: seq<Input>, events: seq<Row>) {
    && (forall i, r :: 0 <= i < |es| && r in events ==> norm(es[i].id) != Some(r.id))
    && (forall i, j :: 0 <= i < j < |es| ==> norm(es[i].id) != norm(es[j].id))
  }

  /** The event has a row with this number, and its links are those to its agents. */
  ghost predicate HasRow(way: Way, db: Database, norm: string -> Option<string>, parse: string -> Option<int>,
                         e: Input, row: Row, pk: nat, links: set<Link>)
  {
    && norm(e.id).Some? && norm(e.file).Some? && row == Row(pk, norm(e.id).value, norm(e.file).value, e.info)
    && forall a :: Link(pk, a) in links <==> IsAgent(way, db, parse, e, norm(e.file).value, a)
  }

  /** The events have got rows with the next numbers, in their order, and links; all else is kept. */
  ghost predicate AreInserted(way: Way, db: Database, norm: string -> Option<string>, parse: string -> Option<int>,
                              es: seq<Input>, t: Tables, u: Tables)
  {
    && u.next == t.next + |es| && |u.events| == |t.events| + |es| && t.events <= u.events && t.links <= u.links
    && (forall i :: 0 <= i < |es| ==>
          HasRow(way, db, norm, parse, es[i], u.events[|t.events| + i], t.next + i, u.links))
    && (forall l :: l in u.links && l !in t.links ==> t.next <= l.event < u.next)
  }

  function Prepare(way: Way, db: Database, norm: string -> Option<string>, parse: string -> Option<int>): Preparation {
    match way
    case OneByOne => One(db, norm, parse)
    case AllAtOnce => Many(db, norm, parse)
  }

  lemma PreparedIs(way: Way, db: Database, norm: string -> Option<string>, parse: string -> Option<int>, e: Input)
    ensures var m := Prepare(way, db, norm, parse)(e);
            && (m.Success? <==> CanPrepare(way, db, norm, parse, e))
            && (m.Success? ==>
                  && norm(e.id) == Some(m.value.id) && norm(e.file) == Some(m.value.file) && m.value.info == e.info
                  && forall a :: a in m.value.agents <==> IsAgent(way, db, parse, e, m.value.file, a))
  {
    if norm(e.id).Some? && norm(e.file).Some? {
      var file := norm(e.file).value;
      SoundIff(db, parse, file);
      if Usable(db, parse, file) {
        OneAtATime(db, parse, file);
        ManyAtOnce(db, parse, file);
      }
      hide NamedBy;
      hide Usable;
      hide AgentsForFile;
      hide BatchAgents;
      hide Sound;
    }
  }

  lemma NewIff(way: Way, db: Database, norm: string -> Option<string>, parse: string -> Option<int>,
               es: seq<Input>, events: seq<Row>)
    requires AllPrepared(Prepare(way, db, norm, parse), es)
    ensures AllNew(events, Models(Prepare(way, db, norm, parse), es)) <==> IdsAreNew(norm, es, events)
  {
    var ms := Models(Prepare(way, db, norm, parse), es);
    forall i | 0 <= i < |es| ensures norm(es[i].id) == Some(ms[i].id) {
      assert es[i] in es;
      PreparedIs(way, db, norm, parse, es[i]);
    }
    hide Models;
    assert AllNew(events, ms) ==> forall i, r :: 0 <= i < |ms| && r in events ==> r.id != ms[i].id;
  }

  /** Inserting events succeeds exactly if each can be prepared and the ids are new; the tables then
      hold each event once, linked to its agents and no others. */
  lemma InsertedAre(way: Way, db: Database, norm: string -> Option<string>, parse: string -> Option<int>,
                    es: seq<Input>, t: Tables)
    requires forall l :: l in t.links ==> l.event < t.next
    ensures var u := Inserted(way, db, norm, parse, es, t);
            && (u.Success? <==> (forall e :: e in es ==> CanPrepare(way, db, norm, parse, e))
                                && IdsAreNew(norm, es, t.events))
            && (u.Success? ==> AreInserted(way, db, norm, parse, es, t, u.value))
  {
    var prepare := Prepare(way, db, norm, parse);
    EachIsAll(prepare, es, t);
    forall e | e in es ensures prepare(e).Success? <==> CanPrepare(way, db, norm, parse, e) {
      PreparedIs(way, db, norm, parse, e);
    }
    if AllPrepared(prepare, es) {
      NewIff(way, db, norm, parse, es, t.events);
      if AllNew(t.events, Models(prepare, es)) {
        CreatedAre(way, db, norm, parse, es, t);
      }
    }
  }

  lemma CreatedAre(way: Way, db: Database, norm: string -> Option<string>, parse: string -> Option<int>,
                   es: seq<Input>, t: Tables)
    requires AllPrepared(Prepare(way, db, norm, parse), es) && forall l :: l in t.links ==> l.event < t.next
    ensures AreInserted(way, db, norm, parse, es, t, Created(t, Models(Prepare(way, db, norm, parse), es)))
  {
    var ms := Models(Prepare(way, db, norm, parse), es);
    var u := Created(t, ms);
    CreatedRows(t, ms);
    forall i | 0 <= i < |es|
      ensures HasRow(way, db, norm, parse, es[i], u.events[|t.events| + i], t.next + i, u.links)
    {
      assert es[i] in es;
      PreparedIs(way, db, norm, parse, es[i]);
      ModelHasRow(way, db, norm, parse, es[i], t, ms, i);
    }
  }

  lemma ModelHasRow(way: Way, db: Database, norm: string -> Option<string>, parse: string -> Option<int>,
                    e: Input, t: Tables, ms: seq<Model>, i: nat)
    requires i < |ms| && forall l :: l in t.links ==> l.event < t.next
    requires norm(e.id) == Some(ms[i].id) && norm(e.file) == Some(ms[i].file) && ms[i].info == e.info
    requires forall a :: a in ms[i].agents <==> IsAgent(way, db, parse, e, ms[i].file, a)
    ensures var u := Created(t, ms);
            |u.events| == |t.events| + |ms|
            && HasRow(way, db, norm, parse, e, u.events[|t.events| + i], t.next + i, u.links)
  {
    hide IsAgent;
    CreatedRows(t, ms);
    forall a ensures Link(t.next + i, a) in Created(t, ms).links <==> a in ms[i].agents {
      LinkedTo(t, ms, i, a);
    }
  }

  lemma CreatedRows(t: Tables, ms: seq<Model>)
    ensures var u := Created(t, ms);
            && u.next == t.next + |ms| && |u.events| == |t.events| + |ms| && t.events <= u.events && t.links <= u.links
            && (forall i :: 0 <= i < |ms| ==>
                  u.events[|t.events| + i] == Row(t.next + i, ms[i].id, ms[i].file, ms[i].info))
            && (forall l :: l in u.links && l !in t.links ==> t.next <= l.event < u.next)
  {
  }
}
