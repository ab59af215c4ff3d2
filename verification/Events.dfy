/** `insert_events`: many PREMIS events and their agents, in batches. */
module Events {
  import opened ActiveAgents
  import opened Results

  /** An event to create; `info` stands for its type, time, detail and outcome. */
  datatype Input = Input(file: string, id: string, info: string, agents: Option<set<nat>>)

  /** An event ready to be stored, with the agents to link it to. */
  datatype Model = Model(id: string, file: string, info: string, agents: set<nat>)

  datatype Row = Row(pk: nat, id: string, file: string, info: string)
  datatype Link = Link(event: nat, agent: nat)

  /** The Events table and the links of events to agents; new rows are numbered from `next`. */
  datatype Tables = Tables(events: seq<Row>, links: set<Link>, next: nat)

  predicate HasId(events: seq<Row>, id: string) {
    exists r :: r in events && r.id == id
  }

  /* ----- one at a time ----- */

  /** How an event becomes ready to be stored, or raises. */
  type Preparation = Input -> Result<Model>

  /** `insertIntoEvents`: for an empty list of agents, as for none, those of the file are looked up.
      `norm` is the reading of a UUID, which raises for text that is none. */
  function PreparedOne(db: Database, norm: string -> Option<string>, parse: string -> Option<int>, e: Input)
    : Result<Model>
  {
    if norm(e.id).None? || norm(e.file).None? then Failure("ValidationError")
    else if e.agents.Some? && e.agents.value != {} then
      Success(Model(norm(e.id).value, norm(e.file).value, e.info, e.agents.value))
    else
      match AgentsForFile(db, parse, norm(e.file).value)
      case Failure(message) => Failure(message)
      case Success(agents) => Success(Model(norm(e.id).value, norm(e.file).value, e.info, agents))
  }

  function One(db: Database, norm: string -> Option<string>, parse: string -> Option<int>): Preparation {
    (e: Input) => PreparedOne(db, norm, parse, e)
  }

  function LinksOf(pk: nat, agents: set<nat>): set<Link> {
    set a | a in agents :: Link(pk, a)
  }

  function RowOf(m: Model, pk: nat): Row {
    Row(pk, m.id, m.file, m.info)
  }

  /** One event with its links; event ids are unique. */
  function InsertOne(t: Tables, m: Model): Result<Tables> {
    if HasId(t.events, m.id) then Failure("IntegrityError")
    else Success(Tables(t.events + [RowOf(m, t.next)], t.links + LinksOf(t.next, m.agents), t.next + 1))
  }

  /** All events, each prepared and inserted before the next. */
  function InsertEach(prepare: Preparation, es: seq<Input>, t: Tables): Result<Tables> {
    if es == [] then Success(t) else
      match InsertEach(prepare, es[..|es| - 1], t)
      case Failure(message) => Failure(message)
      case Success(u) =>
        match prepare(es[|es| - 1])
        case Failure(message) => Failure(message)
        case Success(m) => InsertOne(u, m)
  }

  /* ----- all at once ----- */

  /** `insert_events`: a given list of agents is used as it is, and the agents of all other files
      are looked up together. */
  function PreparedMany(db: Database, norm: string -> Option<string>, parse: string -> Option<int>, e: Input)
    : Result<Model>
  {
    if norm(e.id).None? || norm(e.file).None? then Failure("ValueError")
    else if e.agents.Some? then Success(Model(norm(e.id).value, norm(e.file).value, e.info, e.agents.value))
    else if !Sound(db, parse, norm(e.file).value) then Failure("no active agent")
    else Success(Model(norm(e.id).value, norm(e.file).value, e.info, BatchAgents(db, norm(e.file).value)))
  }

  function Many(db: Database, norm: string -> Option<string>, parse: string -> Option<int>): Preparation {
    (e: Input) => PreparedMany(db, norm, parse, e)
  }

  predicate AllPrepared(prepare: Preparation, es: seq<Input>) {
    forall e :: e in es ==> prepare(e).Success?
  }

  function Models(prepare: Preparation, es: seq<Input>): (ms: seq<Model>)
    requires AllPrepared(prepare, es)
    ensures |ms| == |es|
  {
    seq(|es|, i requires 0 <= i < |es| => prepare(es[i]).value)
  }

  function Rows(ms: seq<Model>, base: nat): (rows: seq<Row>)
    ensures |rows| == |ms|
  {
    seq(|ms|, i requires 0 <= i < |ms| => RowOf(ms[i], base + i))
  }

  function LinksOfAll(ms: seq<Model>, base: nat): set<Link> {
    set i, a | 0 <= i < |ms| && a in ms[i].agents :: Link(base + i, a)
  }

  /** Every event gets the next number, and is linked to its own agents. */
  function Created(t: Tables, ms: seq<Model>): Tables {
    Tables(t.events + Rows(ms, t.next), t.links + LinksOfAll(ms, t.next), t.next + |ms|)
  }

  /** The event ids are new, and each is used once. */
  ghost predicate AllNew(events: seq<Row>, ms: seq<Model>) {
    && (forall i :: 0 <= i < |ms| ==> !HasId(events, ms[i].id))
    && (forall i, j :: 0 <= i < j < |ms| ==> ms[i].id != ms[j].id)
  }

  lemma RowsHaveIds(events: seq<Row>, ms: seq<Model>, base: nat, id: string)
    ensures HasId(events + Rows(ms, base), id) <==>
            HasId(events, id) || exists i :: 0 <= i < |ms| && ms[i].id == id
  {
    var all := events + Rows(ms, base);
    if HasId(all, id) {
      var r :| r in all && r.id == id;
      var k :| 0 <= k < |all| && all[k] == r;
      if k >= |events| {
        assert ms[k - |events|].id == id;
      } else {
        assert events[k] in events;
      }
    }
    if HasId(events, id) {
      var r :| r in events && r.id == id;
      assert r in all;
    }
    if i :| 0 <= i < |ms| && ms[i].id == id {
      assert all[|events| + i].id == id;
      assert all[|events| + i] in all;
    }
  }

  lemma OneMore(ms: seq<Model>, m: Model, base: nat)
    ensures Rows(ms + [m], base) == Rows(ms, base) + [RowOf(m, base + |ms|)]
    ensures LinksOfAll(ms + [m], base) == LinksOfAll(ms, base) + LinksOf(base + |ms|, m.agents)
  {
    forall l ensures l in LinksOfAll(ms + [m], base) <==>
                     l in LinksOfAll(ms, base) || l in LinksOf(base + |ms|, m.agents) {
      if l in LinksOfAll(ms + [m], base) {
        var i, a :| 0 <= i < |ms + [m]| && a in (ms + [m])[i].agents && l == Link(base + i, a);
        if i < |ms| {
          assert (ms + [m])[i] == ms[i];
        }
      }
      if l in LinksOfAll(ms, base) {
        var i, a :| 0 <= i < |ms| && a in ms[i].agents && l == Link(base + i, a);
        assert (ms + [m])[i] == ms[i];
      }
      if l in LinksOf(base + |ms|, m.agents) {
        assert (ms + [m])[|ms|] == m;
      }
    }
  }

  lemma CreatedSnoc(t: Tables, ms: seq<Model>, m: Model)
    ensures Created(t, ms + [m]) ==
            Tables(Created(t, ms).events + [RowOf(m, t.next + |ms|)],
                   Created(t, ms).links + LinksOf(t.next + |ms|, m.agents), t.next + |ms| + 1)
  {
    OneMore(ms, m, t.next);
  }

  /** Everything is prepared, and then everything is created. */
  ghost function InsertAll(prepare: Preparation, es: seq<Input>, t: Tables): Result<Tables> {
    if AllPrepared(prepare, es) && AllNew(t.events, Models(prepare, es)) then Success(Created(t, Models(prepare, es)))
    else Failure("nothing is created")
  }

  /** Preparing and inserting one event after another succeeds exactly if all can be prepared and all
      ids are new, and creates what creating all at once does. */
  lemma {:induction false} EachIsAll(prepare: Preparation, es: seq<Input>, t: Tables)
    ensures InsertEach(prepare, es, t).Success? <==> InsertAll(prepare, es, t).Success?
    ensures InsertEach(prepare, es, t).Success? ==> InsertEach(prepare, es, t) == InsertAll(prepare, es, t)
  {
    if es == [] {
      assert Created(t, Models(prepare, es)) == t;
    } else {
      hide Rows;
      hide LinksOfAll;
      hide LinksOf;
      var n := |es| - 1;
      var front, e := es[..n], es[n];
      assert es == front + [e];
      EachIsAll(prepare, front, t);
      if InsertEach(prepare, front, t).Success? && prepare(e).Success? {
        var ms, m := Models(prepare, front), prepare(e).value;
        assert Models(prepare, es) == ms + [m];
        CreatedSnoc(t, ms, m);
        RowsHaveIds(t.events, ms, t.next, m.id);
        AllNewSnoc(t.events, ms, m);
      } else if AllPrepared(prepare, es) && AllNew(t.events, Models(prepare, es)) {
        var ms, m := Models(prepare, front), prepare(e).value;
        assert Models(prepare, es) == ms + [m];
        AllNewSnoc(t.events, ms, m);
      }
    }
  }

  lemma AllNewSnoc(events: seq<Row>, ms: seq<Model>, m: Model)
    ensures AllNew(events, ms + [m]) <==>
            AllNew(events, ms) && !HasId(events, m.id) && !exists i :: 0 <= i < |ms| && ms[i].id == m.id
  {
    var all := ms + [m];
    assert all[|ms|] == m && forall i :: 0 <= i < |ms| ==> all[i] == ms[i];
  }

  /* ----- one at a time against all at once ----- */

  /** The agents of one event do not depend on how it is inserted. */
  predicate SameAgentsFor(db: Database, norm: string -> Option<string>, parse: string -> Option<int>, e: Input)
    requires norm(e.file).Some?
  {
    match e.agents
    case None => Canonical(db, parse, norm(e.file).value)
    case Some(agents) => agents == {} ==> AgentsForFile(db, parse, norm(e.file).value) == Success({})
  }

  lemma PreparedAlike(db: Database, norm: string -> Option<string>, parse: string -> Option<int>, e: Input)
    requires Parses(parse)
    ensures One(db, norm, parse)(e).Success? <==>
            Many(db, norm, parse)(e).Success? && (e.agents == Some({}) ==> Sound(db, parse, norm(e.file).value))
    ensures One(db, norm, parse)(e).Success? ==>
              && norm(e.file).Some?
              && One(db, norm, parse)(e).value.(agents := {}) == Many(db, norm, parse)(e).value.(agents := {})
              && (One(db, norm, parse)(e).value.agents == Many(db, norm, parse)(e).value.agents
                  <==> SameAgentsFor(db, norm, parse, e))
  {
    if norm(e.id).Some? && norm(e.file).Some? && Sound(db, parse, norm(e.file).value) {
      BatchAgreesIff(db, parse, norm(e.file).value);
    }
  }

  /** Models that differ in their agents alone are new together. */
  ghost predicate SameButAgents(ms: seq<Model>, ns: seq<Model>) {
    |ms| == |ns| && forall i :: 0 <= i < |ms| ==> ms[i].(agents := {}) == ns[i].(agents := {})
  }

  lemma NewTogether(events: seq<Row>, ms: seq<Model>, ns: seq<Model>)
    requires SameButAgents(ms, ns) && AllNew(events, ms)
    ensures AllNew(events, ns)
  {
    assert forall i :: 0 <= i < |ms| ==> ns[i].id == ms[i].(agents := {}).id;
  }

  lemma LinkedTo(t: Tables, ms: seq<Model>, i: nat, a: nat)
    requires i < |ms| && forall l :: l in t.links ==> l.event < t.next
    ensures Link(t.next + i, a) in Created(t, ms).links <==> a in ms[i].agents
  {
  }

  lemma CreatedSameIff(t: Tables, ms: seq<Model>, ns: seq<Model>)
    requires SameButAgents(ms, ns) && forall l :: l in t.links ==> l.event < t.next
    ensures Created(t, ms) == Created(t, ns) <==> forall i :: 0 <= i < |ms| ==> ms[i].agents == ns[i].agents
  {
    if Created(t, ms) == Created(t, ns) {
      forall i | 0 <= i < |ms| ensures ms[i].agents == ns[i].agents {
        forall a ensures a in ms[i].agents <==> a in ns[i].agents {
          LinkedTo(t, ms, i, a);
          LinkedTo(t, ns, i, a);
        }
      }
    } else if forall i :: 0 <= i < |ms| ==> ms[i].agents == ns[i].agents {
      forall i | 0 <= i < |ms| ensures ms[i] == ns[i] {
        assert ms[i].(agents := {}) == ns[i].(agents := {});
      }
      assert ms == ns;
    }
  }

  /** Inserting events one by one with `insertIntoEvents` and all with `insert_events`: the former
      raises besides only for an empty list of agents whose file's lookup raises; and when neither
      raises, the tables are the same if and only if every active agent looked up is stored in
      canonical form, and every empty list of agents belongs to a file without agents. */
  lemma OneByOneIff(db: Database, norm: string -> Option<string>, parse: string -> Option<int>, es: seq<Input>,
                    t: Tables)
    requires Parses(parse) && forall l :: l in t.links ==> l.event < t.next
    ensures var one, many := InsertEach(One(db, norm, parse), es, t), InsertAll(Many(db, norm, parse), es, t);
            && (one.Success? <==> many.Success? && forall e :: e in es && e.agents == Some({}) ==>
                                                      Sound(db, parse, norm(e.file).value))
            && (one.Success? ==> (one == many <==> forall e :: e in es ==> SameAgentsFor(db, norm, parse, e)))
  {
    var one, many := One(db, norm, parse), Many(db, norm, parse);
    EachIsAll(one, es, t);
    forall e | e in es
      ensures one(e).Success? <==> many(e).Success? && (e.agents == Some({}) ==> Sound(db, parse, norm(e.file).value))
    {
      PreparedAlike(db, norm, parse, e);
    }
    assert AllPrepared(one, es) <==>
           (AllPrepared(many, es)
            && forall e :: e in es && e.agents == Some({}) ==> Sound(db, parse, norm(e.file).value));
    if AllPrepared(one, es) {
      var ms, ns := Models(one, es), Models(many, es);
      forall i | 0 <= i < |es|
        ensures ms[i].(agents := {}) == ns[i].(agents := {}) && norm(es[i].file).Some?
             && (ms[i].agents == ns[i].agents <==> SameAgentsFor(db, norm, parse, es[i]))
      {
        assert es[i] in es;
        PreparedAlike(db, norm, parse, es[i]);
      }
      assert SameButAgents(ms, ns) && SameButAgents(ns, ms);
      if AllNew(t.events, ms) {
        NewTogether(t.events, ms, ns);
      } else if AllNew(t.events, ns) {
        NewTogether(t.events, ns, ms);
      }
      CreatedSameIff(t, ms, ns);
    }
  }

  /* ----- insert_events ----- */

  /** The agents recorded by event id, where no later event has the same id. */
  ghost predicate Recorded(agentIds: map<string, set<nat>>, ms: seq<Model>) {
    forall i :: 0 <= i < |ms| ==>
      ms[i].id in agentIds && ((forall j :: i < j < |ms| ==> ms[j].id != ms[i].id) ==> agentIds[ms[i].id] == ms[i].agents)
  }

  lemma RecordedSnoc(agentIds: map<string, set<nat>>, ms: seq<Model>, m: Model)
    requires Recorded(agentIds, ms)
    ensures Recorded(agentIds[m.id := m.agents], ms + [m])
  {
    var all := ms + [m];
    forall i | 0 <= i < |all| && forall j :: i < j < |all| ==> all[j].id != all[i].id
      ensures agentIds[m.id := m.agents][all[i].id] == all[i].agents {
      if i < |ms| {
        assert all[|ms|].id != all[i].id;
        forall j | i < j < |ms| ensures ms[j].id != ms[i].id {
          assert all[j] == ms[j] && all[i] == ms[i];
        }
      }
    }
  }

  /** `bulk_create` of the events, a slice at a time; event ids are unique. */
  method BulkCreate(t: Tables, ms: seq<Model>, batchSize: nat) returns (r: Result<seq<Row>>)
    requires batchSize > 0
    ensures r.Success? <==> AllNew(t.events, ms)
    ensures r.Success? ==> r.value == t.events + Rows(ms, t.next)
  {
    var events := t.events;
    var offset := 0;
    while offset < |ms|
      invariant offset <= |ms|
      invariant AllNew(t.events, ms[..offset]) && events == t.events + Rows(ms[..offset], t.next)
    {
      var end := if offset + batchSize < |ms| then offset + batchSize else |ms|;
      for i := offset to end
        invariant AllNew(t.events, ms[..i]) && events == t.events + Rows(ms[..i], t.next)
      {
        var m := ms[i];
        assert ms[..i + 1] == ms[..i] + [m];
        AllNewSnoc(t.events, ms[..i], m);
        RowsHaveIds(t.events, ms[..i], t.next, m.id);
        if HasId(events, m.id) {
          NotAllNew(t.events, ms, i + 1);
          return Failure("IntegrityError");
        }
        assert Rows(ms[..i + 1], t.next) == Rows(ms[..i], t.next) + [RowOf(m, t.next + i)];
        events := events + [RowOf(m, t.next + i)];
      }
      offset := end;
    }
    assert ms[..|ms|] == ms;
    r := Success(events);
  }

  lemma NotAllNew(events: seq<Row>, ms: seq<Model>, n: nat)
    requires n <= |ms| && !AllNew(events, ms[..n])
    ensures !AllNew(events, ms)
  {
  }

  /** `Event.objects.filter(event_id=id)` among rows with unique ids. */
  function PkOf(events: seq<Row>, id: string): Option<nat> {
    if events == [] then None
    else if events[|events| - 1].id == id then Some(events[|events| - 1].pk)
    else PkOf(events[..|events| - 1], id)
  }

  lemma {:induction false} PkOfRow(events: seq<Row>, ms: seq<Model>, base: nat, i: nat)
    requires AllNew(events, ms) && i < |ms|
    ensures PkOf(events + Rows(ms, base), ms[i].id) == Some(base + i)
    decreases |ms|
  {
    var n := |ms| - 1;
    var all := events + Rows(ms, base);
    assert all[..|all| - 1] == events + Rows(ms[..n], base);
    if i < n {
      assert AllNew(events, ms[..n]);
      PkOfRow(events, ms[..n], base, i);
    }
  }

  /** The numbers the database gave the events, fetched a slice at a time. */
  method FetchPks(t: Tables, ms: seq<Model>, events: seq<Row>, batchSize: nat) returns (pks: map<string, nat>)
    requires batchSize > 0 && AllNew(t.events, ms) && events == t.events + Rows(ms, t.next)
    ensures forall i :: 0 <= i < |ms| ==> ms[i].id in pks && pks[ms[i].id] == t.next + i
  {
    pks := map[];
    var offset := 0;
    while offset < |ms|
      invariant offset <= |ms|
      invariant forall i :: 0 <= i < offset ==> ms[i].id in pks && pks[ms[i].id] == t.next + i
    {
      var end := if offset + batchSize < |ms| then offset + batchSize else |ms|;
      for k := offset to end
        invariant forall i :: 0 <= i < k ==> ms[i].id in pks && pks[ms[i].id] == t.next + i
      {
        PkOfRow(t.events, ms, t.next, k);
        pks := pks[ms[k].id := PkOf(events, ms[k].id).value];
      }
      offset := end;
    }
  }

  /** The agents of the files whose events name none. */
  method FilesWithoutAgents(norm: string -> Option<string>, es: seq<Input>) returns (r: Result<set<string>>)
    ensures r.Failure? ==> exists e :: e in es && norm(e.file).None?
    ensures r.Success? ==> forall f :: f in r.value <==>
                             exists e :: e in es && e.agents.None? && norm(e.file) == Some(f)
    ensures r.Success? ==> forall e :: e in es && e.agents.None? ==> norm(e.file).Some?
  {
    var files: set<string> := {};
    for i := 0 to |es|
      invariant forall f :: f in files <==> exists k :: 0 <= k < i && es[k].agents.None? && norm(es[k].file) == Some(f)
      invariant forall k :: 0 <= k < i && es[k].agents.None? ==> norm(es[k].file).Some?
    {
      if es[i].agents.None? {
        if norm(es[i].file).None? {
          return Failure("ValueError");
        }
        files := files + {norm(es[i].file).value};
      }
    }
    r := Success(files);
  }

  class Store {
    var tables: Tables

    /** `insert_events`; a transaction, so that a failure leaves the tables as they were. */
    method InsertEvents(db: Database, norm: string -> Option<string>, parse: string -> Option<int>, es: seq<Input>,
                        batchSize: int) returns (r: Result<seq<Row>>)
      requires Parses(parse)
      modifies this
      ensures batchSize <= 0 ==> r.Failure?
      ensures batchSize > 0 ==> (r.Success? <==> InsertAll(Many(db, norm, parse), es, old(tables)).Success?)
      ensures r.Failure? ==> tables == old(tables)
      ensures r.Success? ==> InsertAll(Many(db, norm, parse), es, old(tables)) == Success(tables)
      ensures r.Success? ==> AllPrepared(Many(db, norm, parse), es)
                             && r.value == Rows(Models(Many(db, norm, parse), es), old(tables).next)
    {
      if batchSize <= 0 {
        return Failure("batch_size must be greater than zero");
      }
      if es == [] {
        assert Created(tables, Models(Many(db, norm, parse), es)) == tables;
        return Success([]);
      }
      var models := PrepareAll(db, norm, parse, es);
      if models.Failure? {
        return Failure(models.message);
      }
      var ms := models.value.0;
      var events := BulkCreate(tables, ms, batchSize);
      if events.Failure? {
        return Failure(events.message);
      }
      var pks := FetchPks(tables, ms, events.value, batchSize);
      var rows := LinkAll(tables, ms, models.value.1, pks);
      tables := Tables(events.value, tables.links + rows.1, tables.next + |ms|);
      r := Success(rows.0);
    }
  }

  /** The models of all events, and their agents by event id. */
  method PrepareAll(db: Database, norm: string -> Option<string>, parse: string -> Option<int>, es: seq<Input>)
    returns (r: Result<(seq<Model>, map<string, set<nat>>)>)
    requires Parses(parse)
    ensures r.Success? <==> AllPrepared(Many(db, norm, parse), es)
    ensures r.Success? ==> r.value.0 == Models(Many(db, norm, parse), es) && Recorded(r.value.1, r.value.0)
  {
    var files := FilesWithoutAgents(norm, es);
    if files.Failure? {
      return Failure(files.message);
    }
    var byFile := AgentIdsByFile(db, parse, files.value);
    if byFile.Failure? {
      ghost var f :| f in files.value && !Sound(db, parse, f);
      ghost var e :| e in es && e.agents.None? && norm(e.file) == Some(f);
      assert Many(db, norm, parse)(e).Failure?;
      return Failure(byFile.message);
    }
    var ms: seq<Model> := [];
    var agentIds: map<string, set<nat>> := map[];
    for i := 0 to |es|
      invariant |ms| == i && forall k :: 0 <= k < i ==> Many(db, norm, parse)(es[k]) == Success(ms[k])
      invariant Recorded(agentIds, ms)
    {
      var e := es[i];
      if norm(e.id).None? || norm(e.file).None? {
        assert Many(db, norm, parse)(e).Failure?;
        return Failure("ValueError");
      }
      var file := norm(e.file).value;
      var agents := if e.agents.Some? then e.agents.value else if file in byFile.value then byFile.value[file] else {};
      var m := Model(norm(e.id).value, file, e.info, agents);
      if e.agents.None? {
        assert e in es && file in files.value;
      }
      assert Many(db, norm, parse)(e) == Success(m);
      RecordedSnoc(agentIds, ms, m);
      agentIds := agentIds[m.id := agents];
      ms := ms + [m];
    }
    assert AllPrepared(Many(db, norm, parse), es);
    assert ms == Models(Many(db, norm, parse), es);
    r := Success((ms, agentIds));
  }

  /** The links of all events to their agents, and the models with their numbers. */
  method LinkAll(t: Tables, ms: seq<Model>, agentIds: map<string, set<nat>>, pks: map<string, nat>)
    returns (r: (seq<Row>, set<Link>))
    requires AllNew(t.events, ms) && Recorded(agentIds, ms)
    requires forall i :: 0 <= i < |ms| ==> ms[i].id in pks && pks[ms[i].id] == t.next + i
    ensures r == (Rows(ms, t.next), LinksOfAll(ms, t.next))
  {
    var rows: seq<Row> := [];
    var links: set<Link> := {};
    for i := 0 to |ms|
      invariant rows == Rows(ms[..i], t.next) && links == LinksOfAll(ms[..i], t.next)
    {
      var pk := pks[ms[i].id];
      assert ms[..i + 1] == ms[..i] + [ms[i]];
      OneMore(ms[..i], ms[i], t.next);
      hide Rows;
      hide LinksOfAll;
      rows := rows + [RowOf(ms[i], pk)];
      links := links + LinksOf(pk, agentIds[ms[i].id]);
    }
    assert ms[..|ms|] == ms;
    r := (rows, links);
  }
}
