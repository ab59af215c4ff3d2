/** `_apply_config`: a mapping of settings edits the choices of a processing configuration. */
module ProcessingConfig {
  import opened Choices
  import opened Results

  datatype Kind = Chain | Replacement | Location

  /** A configured value that is not null; Python's True and False are the numbers 1 and 0. */
  datatype Setting = Number(n: int) | Word(text: string)

  datatype FieldSpec = FieldSpec(kind: Kind, links: seq<string>, labels: map<Setting, seq<string>>)

  type Specs = map<string, FieldSpec>

  /** A chain or replacement a link offers, with its English label. */
  datatype Offer = Offer(id: string, title: string)

  /** What is used of the workflow: the offers of its links, and their prompts. */
  datatype Workflow = Workflow(chains: map<string, seq<Offer>>, replacements: map<string, seq<Offer>>,
                               prompts: map<string, string>)

  /** An entry of the mapping; None for null. */
  datatype Entry = Entry(key: string, value: Option<Setting>)

  /** The first offer with one of the labels. */
  function FindOffer(offers: seq<Offer>, labels: seq<string>): (r: Option<Offer>)
    ensures r.Some? ==> r.value in offers && r.value.title in labels
    ensures r.None? ==> forall o :: o in offers ==> o.title !in labels
  {
    if offers == [] then None
    else if offers[0].title in labels then Some(offers[0])
    else FindOffer(offers[1..], labels)
  }

  function OffersOf(w: Workflow, kind: Kind, link: string): seq<Offer> {
    if kind == Chain then (if link in w.chains then w.chains[link] else [])
    else if link in w.replacements then w.replacements[link] else []
  }

  function LocationUri(text: string, purpose: string): Result<string> {
    if text == "default" then Success("/api/v2/location/default/" + purpose + "/")
    else if "location:" <= text then Success("/api/v2/location/" + text[|"location:"|..] + "/")
    else Failure("unsupported location value")
  }

  function Purpose(key: string): string {
    if key == "store_aip_location" then "AS" else "DS"
  }

  /** The comment put before a choice; `sanitize` stands for `_sanitize_comment`. */
  function CommentFor(w: Workflow, sanitize: string -> string, link: string, text: string): Option<string> {
    var comment := if link in w.prompts && w.prompts[link] != "" then w.prompts[link] + " - " + text else text;
    if comment == "" then None else Some(" " + sanitize(comment) + " ")
  }

  /** Before it looks at the links, an entry raises for a value that is no location, or that has no labels. */
  predicate Readable(spec: FieldSpec, e: Entry) {
    e.value.None?
    || if spec.kind == Location then e.value.value.Word? && LocationUri(e.value.value.text, Purpose(e.key)).Success?
       else e.value.value in spec.labels && spec.labels[e.value.value] != []
  }

  /** What an entry does to one of its links. */
  function OpFor(w: Workflow, sanitize: string -> string, spec: FieldSpec, e: Entry, link: string): Result<Op> {
    if e.value.None? then Success(Remove(link))
    else if spec.kind == Location then
      if e.value.value.Number? then Failure("AttributeError") else
        var text := e.value.value.text;
        match LocationUri(text, Purpose(e.key))
        case Failure(message) => Failure(message)
        case Success(uri) => Success(Put(link, uri, CommentFor(w, sanitize, link, text)))
    else if e.value.value !in spec.labels || spec.labels[e.value.value] == [] then Failure("unsupported value")
    else
      match FindOffer(OffersOf(w, spec.kind, link), spec.labels[e.value.value])
      case None => Failure("no matching choice")
      case Some(offer) => Success(Put(link, offer.id, CommentFor(w, sanitize, link, offer.title)))
  }

  function OpsFor(w: Workflow, sanitize: string -> string, spec: FieldSpec, e: Entry, links: seq<string>): Result<seq<Op>> {
    if links == [] then (if Readable(spec, e) then Success([]) else Failure("unsupported value")) else
      match OpsFor(w, sanitize, spec, e, links[..|links| - 1])
      case Failure(message) => Failure(message)
      case Success(ops) =>
        match OpFor(w, sanitize, spec, e, links[|links| - 1])
        case Failure(message) => Failure(message)
        case Success(op) => Success(ops + [op])
  }

  /** All edits of a mapping, in order. */
  function Plan(specs: Specs, w: Workflow, sanitize: string -> string, config: seq<Entry>): Result<seq<Op>> {
    if config == [] then Success([]) else
      var e := config[|config| - 1];
      match Plan(specs, w, sanitize, config[..|config| - 1])
      case Failure(message) => Failure(message)
      case Success(ops) =>
        if e.key !in specs then Failure("unknown processing config key") else
          match OpsFor(w, sanitize, specs[e.key], e, specs[e.key].links)
          case Failure(message) => Failure(message)
          case Success(more) => Success(ops + more)
  }

  /** The field table: no link belongs to two fields or is listed twice, and links are trimmed. */
  ghost predicate ValidSpecs(specs: Specs) {
    && (forall k, i, j :: k in specs && 0 <= i < j < |specs[k].links| ==> specs[k].links[i] != specs[k].links[j])
    && (forall k, l, x :: k in specs && l in specs && x in specs[k].links && x in specs[l].links ==> k == l)
    && (forall k, x :: k in specs && x in specs[k].links ==> Trimmed(x))
  }

  ghost predicate DistinctKeys(config: seq<Entry>) {
    forall i, j :: 0 <= i < j < |config| ==> config[i].key != config[j].key
  }

  lemma {:induction false} LinksOfOps(w: Workflow, sanitize: string -> string, spec: FieldSpec, e: Entry, links: seq<string>)
    requires OpsFor(w, sanitize, spec, e, links).Success?
    ensures var ops := OpsFor(w, sanitize, spec, e, links).value;
            |ops| == |links| && forall i :: 0 <= i < |ops| ==> ops[i].link == links[i]
  {
    if links != [] {
      LinksOfOps(w, sanitize, spec, e, links[..|links| - 1]);
    }
  }

  /** The edits of one entry. */
  ghost predicate Brings(specs: Specs, w: Workflow, sanitize: string -> string, e: Entry, op: Op) {
    e.key in specs && OpsFor(w, sanitize, specs[e.key], e, specs[e.key].links).Success?
    && op in OpsFor(w, sanitize, specs[e.key], e, specs[e.key].links).value
  }

  lemma PlanSnoc(specs: Specs, w: Workflow, sanitize: string -> string, config: seq<Entry>, e: Entry, op: Op)
    requires Plan(specs, w, sanitize, config + [e]).Success?
    ensures Plan(specs, w, sanitize, config).Success?
    ensures op in Plan(specs, w, sanitize, config + [e]).value <==>
            op in Plan(specs, w, sanitize, config).value || Brings(specs, w, sanitize, e, op)
  {
    hide OpsFor;
    assert (config + [e])[..|config|] == config;
  }

  /** The edits of a plan are those of its entries, whatever their order. */
  lemma {:induction false} PlanHolds(specs: Specs, w: Workflow, sanitize: string -> string, config: seq<Entry>, op: Op)
    requires Plan(specs, w, sanitize, config).Success?
    ensures op in Plan(specs, w, sanitize, config).value <==>
            exists e :: e in config && Brings(specs, w, sanitize, e, op)
  {
    hide Brings;
    if config != [] {
      var n := |config| - 1;
      assert config == config[..n] + [config[n]];
      PlanSnoc(specs, w, sanitize, config[..n], config[n], op);
      hide Plan;
      PlanHolds(specs, w, sanitize, config[..n], op);
    }
  }

  lemma {:induction false} PlanLinks(specs: Specs, w: Workflow, sanitize: string -> string, config: seq<Entry>)
    requires ValidSpecs(specs) && DistinctKeys(config) && Plan(specs, w, sanitize, config).Success?
    ensures DistinctLinks(Plan(specs, w, sanitize, config).value)
    ensures forall op :: op in Plan(specs, w, sanitize, config).value ==>
              WellFormed(op) && exists e :: e in config && e.key in specs && op.link in specs[e.key].links
  {
    if config != [] {
      var n := |config| - 1;
      var e := config[n];
      PlanLinks(specs, w, sanitize, config[..n]);
      LinksOfOps(w, sanitize, specs[e.key], e, specs[e.key].links);
      var a := Plan(specs, w, sanitize, config[..n]).value;
      var b := OpsFor(w, sanitize, specs[e.key], e, specs[e.key].links).value;
      hide OpsFor;
      hide Plan;
      forall op | op in b ensures op.link in specs[e.key].links {
        var i :| 0 <= i < |b| && b[i] == op;
        assert op.link == specs[e.key].links[i];
      }
      forall x, y | x in a && y in b ensures x.link != y.link {
        var f :| f in config[..n] && f.key in specs && x.link in specs[f.key].links;
        assert f.key != e.key;
      }
      JoinedLinks(a, b);
      assert e in config;
    }
  }

  lemma JoinedLinks(a: seq<Op>, b: seq<Op>)
    requires DistinctLinks(a) && DistinctLinks(b) && forall x, y :: x in a && y in b ==> x.link != y.link
    ensures DistinctLinks(a + b)
  {
    forall i, j | 0 <= i < j < |a + b| ensures (a + b)[i].link != (a + b)[j].link {
      if i < |a| <= j {
        assert a[i] in a && b[j - |a|] in b;
      }
    }
  }

  predicate Applicable(specs: Specs, w: Workflow, sanitize: string -> string, e: Entry) {
    e.key in specs && OpsFor(w, sanitize, specs[e.key], e, specs[e.key].links).Success?
  }

  /** A mapping can be applied exactly if each of its entries can. */
  lemma {:induction false} PlanSucceedsIff(specs: Specs, w: Workflow, sanitize: string -> string, config: seq<Entry>)
    ensures Plan(specs, w, sanitize, config).Success? <==>
            forall e :: e in config ==> Applicable(specs, w, sanitize, e)
  {
    if config != [] {
      var n := |config| - 1;
      PlanSucceedsIff(specs, w, sanitize, config[..n]);
      assert config == config[..n] + [config[n]];
      assert config[n] in config;
      hide OpsFor;
    }
  }

  /** The node list after `_apply_config`. */
  function Applied(specs: Specs, w: Workflow, sanitize: string -> string, config: seq<Entry>, ns: seq<Node>): seq<Node>
    requires Plan(specs, w, sanitize, config).Success?
  {
    EditedAll(ns, Plan(specs, w, sanitize, config).value)
  }

  /** The value a configured setting stands for at a link: the id of the first offer with one of its
      labels, or the URI of a location. */
  function SettingValue(w: Workflow, spec: FieldSpec, key: string, setting: Setting, link: string): Option<string> {
    if spec.kind == Location then
      if setting.Number? || LocationUri(setting.text, Purpose(key)).Failure? then None
      else Some(LocationUri(setting.text, Purpose(key)).value)
    else if setting !in spec.labels then None
    else
      match FindOffer(OffersOf(w, spec.kind, link), spec.labels[setting])
      case None => None
      case Some(offer) => Some(offer.id)
  }

  /** The edit of an entry at one of its links. */
  lemma OpForIs(w: Workflow, sanitize: string -> string, spec: FieldSpec, e: Entry, link: string)
    requires OpFor(w, sanitize, spec, e, link).Success?
    ensures var op := OpFor(w, sanitize, spec, e, link).value;
            && op.link == link && (op.Remove? <==> e.value.None?)
            && (e.value.Some? ==> SettingValue(w, spec, e.key, e.value.value, link) == Some(op.value))
  {
  }

  lemma {:induction false} OpsForHolds(w: Workflow, sanitize: string -> string, spec: FieldSpec, e: Entry,
                                       links: seq<string>, link: string)
    requires OpsFor(w, sanitize, spec, e, links).Success? && link in links
    ensures OpFor(w, sanitize, spec, e, link).Success?
    ensures OpFor(w, sanitize, spec, e, link).value in OpsFor(w, sanitize, spec, e, links).value
  {
    hide OpFor;
    var n := |links| - 1;
    if links[n] != link {
      OpsForHolds(w, sanitize, spec, e, links[..n], link);
    }
  }

  /** A link is configured by an entry of the mapping whose field lists it. */
  predicate Configures(specs: Specs, e: Entry, link: string) {
    e.key in specs && link in specs[e.key].links
  }

  /** The order of the keys does not matter, neither for success nor for the values. */
  lemma KeyOrderDoesNotMatter(specs: Specs, w: Workflow, sanitize: string -> string, c: seq<Entry>, d: seq<Entry>,
                              ns: seq<Node>, link: string)
    requires ValidSpecs(specs) && DistinctKeys(c) && DistinctKeys(d) && forall e :: e in c <==> e in d
    ensures Plan(specs, w, sanitize, c).Success? <==> Plan(specs, w, sanitize, d).Success?
    ensures Plan(specs, w, sanitize, c).Success? ==>
              ValueOf(Applied(specs, w, sanitize, c, ns), link) == ValueOf(Applied(specs, w, sanitize, d, ns), link)
  {
    PlanSucceedsIff(specs, w, sanitize, c);
    PlanSucceedsIff(specs, w, sanitize, d);
    if Plan(specs, w, sanitize, c).Success? {
      PlanLinks(specs, w, sanitize, c);
      PlanLinks(specs, w, sanitize, d);
      forall op ensures op in Plan(specs, w, sanitize, c).value <==> op in Plan(specs, w, sanitize, d).value {
        PlanHolds(specs, w, sanitize, c, op);
        PlanHolds(specs, w, sanitize, d, op);
      }
      hide Plan;
      OrderDoesNotMatter(ns, Plan(specs, w, sanitize, c).value, Plan(specs, w, sanitize, d).value, link);
    }
  }

  /** A link with at most one choice keeps at most one, and applying the mapping again changes
      nothing, comments included. */
  lemma ConfigIsIdempotent(specs: Specs, w: Workflow, sanitize: string -> string, config: seq<Entry>, ns: seq<Node>,
                           link: string)
    requires ValidSpecs(specs) && DistinctKeys(config) && Plan(specs, w, sanitize, config).Success?
    ensures var once := Applied(specs, w, sanitize, config, ns);
            && Applied(specs, w, sanitize, config, once) == once
            && (MatchCount(ns, link) <= 1 ==> MatchCount(once, link) <= 1)
  {
    PlanLinks(specs, w, sanitize, config);
    EditsAreIdempotent(ns, Plan(specs, w, sanitize, config).value);
    if MatchCount(ns, link) <= 1 {
      UniquenessKept(ns, Plan(specs, w, sanitize, config).value, link);
    }
  }

  /* ----- what settings stand for ----- */

  /** The value stands for the setting at a link: the id of the first offer of the link with one of the
      setting's labels, or the URI of the location named. */
  ghost predicate StandsFor(w: Workflow, spec: FieldSpec, key: string, setting: Setting, link: string, value: string) {
    match spec.kind
    case Location =>
      setting.Word?
      && ((setting.text == "default"
           && value == (if key == "store_aip_location" then "/api/v2/location/default/AS/"
                        else "/api/v2/location/default/DS/"))
          || exists id :: setting.text == "location:" + id && value == "/api/v2/location/" + id + "/")
    case Chain => setting in spec.labels && link in w.chains && IsFirst(w.chains[link], spec.labels[setting], value)
    case Replacement =>
      setting in spec.labels && link in w.replacements && IsFirst(w.replacements[link], spec.labels[setting], value)
  }

  ghost predicate IsFirst(offers: seq<Offer>, labels: seq<string>, id: string) {
    exists i :: FirstAt(offers, labels, i) && offers[i].id == id
  }

  ghost predicate FirstAt(offers: seq<Offer>, labels: seq<string>, i: int) {
    0 <= i < |offers| && offers[i].title in labels && forall j :: 0 <= j < i ==> offers[j].title !in labels
  }

  lemma {:induction false} FindOfferIs(offers: seq<Offer>, labels: seq<string>, i: nat)
    requires FirstAt(offers, labels, i)
    ensures FindOffer(offers, labels) == Some(offers[i])
  {
    if i > 0 {
      assert offers[0].title !in labels;
      assert FirstAt(offers[1..], labels, i - 1) by {
        assert forall j :: 0 <= j < |offers| - 1 ==> offers[1..][j] == offers[j + 1];
      }
      FindOfferIs(offers[1..], labels, i - 1);
    }
  }

  lemma {:induction false} FirstExists(offers: seq<Offer>, labels: seq<string>) returns (i: nat)
    requires FindOffer(offers, labels).Some?
    ensures FirstAt(offers, labels, i)
  {
    if offers[0].title in labels {
      i := 0;
    } else {
      var k := FirstExists(offers[1..], labels);
      i := k + 1;
      assert offers[1..][k] == offers[i];
      forall j | 0 <= j < i ensures offers[j].title !in labels {
        if j > 0 {
          assert offers[1..][j - 1] == offers[j];
        }
      }
    }
  }

  lemma OfferIff(offers: seq<Offer>, labels: seq<string>, id: string)
    ensures IsFirst(offers, labels, id) <==> FindOffer(offers, labels).Some? && FindOffer(offers, labels).value.id == id
  {
    if i :| FirstAt(offers, labels, i) && offers[i].id == id {
      FindOfferIs(offers, labels, i);
    }
    if FindOffer(offers, labels).Some? {
      var i := FirstExists(offers, labels);
      FindOfferIs(offers, labels, i);
    }
  }

  lemma DefaultUris()
    ensures "/api/v2/location/default/" + "AS" + "/" == "/api/v2/location/default/AS/"
    ensures "/api/v2/location/default/" + "DS" + "/" == "/api/v2/location/default/DS/"
  {
  }

  lemma UriIff(key: string, text: string, value: string)
    ensures LocationUri(text, Purpose(key)) == Success(value) <==>
            (text == "default" && value == (if key == "store_aip_location" then "/api/v2/location/default/AS/"
                                            else "/api/v2/location/default/DS/"))
            || exists id :: text == "location:" + id && value == "/api/v2/location/" + id + "/"
  {
    DefaultUris();
    assert "default"[0] != "location:"[0];
    if "location:" <= text {
      assert text == "location:" + text[|"location:"|..];
    }
    forall id | text == "location:" + id ensures text[|"location:"|..] == id && text != "default" {
      assert text[0] == "location:"[0];
    }
  }

  /** The value an entry gives a link. */
  lemma SettingValueIff(w: Workflow, spec: FieldSpec, key: string, setting: Setting, link: string, value: string)
    ensures SettingValue(w, spec, key, setting, link) == Some(value) <==>
            StandsFor(w, spec, key, setting, link, value)
  {
    match spec.kind
    case Location =>
      if setting.Word? {
        UriIff(key, setting.text, value);
      }
    case _ =>
      if setting in spec.labels {
        OfferIff(OffersOf(w, spec.kind, link), spec.labels[setting], value);
      }
  }

  /** After a mapping was applied, each link of a field it names has no value if the field is null,
      and otherwise the one its setting stands for; every other link keeps its value. */
  lemma ConfigUpdatesMap(specs: Specs, w: Workflow, sanitize: string -> string, config: seq<Entry>, ns: seq<Node>,
                         link: string)
    requires ValidSpecs(specs) && DistinctKeys(config) && Plan(specs, w, sanitize, config).Success?
    ensures var after := Applied(specs, w, sanitize, config, ns);
            && (forall e :: e in config && Configures(specs, e, link) ==>
                  match e.value
                  case None => ValueOf(after, link) == None
                  case Some(setting) =>
                    && ValueOf(after, link).Some? && ValueOf(after, link).value.Some?
                    && StandsFor(w, specs[e.key], e.key, setting, link, ValueOf(after, link).value.value))
            && ((forall e :: e in config ==> !Configures(specs, e, link)) ==> ValueOf(after, link) == ValueOf(ns, link))
  {
    var ops := Plan(specs, w, sanitize, config).value;
    PlanLinks(specs, w, sanitize, config);
    EditsUpdateMap(ns, ops, link);
    ExpectedOf(ops, link, ValueOf(ns, link));
    forall e | e in config && Configures(specs, e, link)
      ensures exists op :: op in ops && op.link == link && Does(w, specs[e.key], e, op)
    {
      EntryDoes(specs, w, sanitize, config, e, link);
    }
    hide Plan;
    hide StandsFor;
  }

  /** What an entry wants at a link: no choice, or one with a value that its setting stands for. */
  ghost predicate Does(w: Workflow, spec: FieldSpec, e: Entry, op: Op) {
    (op.Remove? <==> e.value.None?)
    && (e.value.Some? ==> StandsFor(w, spec, e.key, e.value.value, op.link, op.value))
  }

  lemma EntryDoes(specs: Specs, w: Workflow, sanitize: string -> string, config: seq<Entry>, e: Entry, link: string)
    requires Plan(specs, w, sanitize, config).Success? && e in config && Configures(specs, e, link)
    ensures exists op :: op in Plan(specs, w, sanitize, config).value && op.link == link && Does(w, specs[e.key], e, op)
  {
    var spec := specs[e.key];
    PlanSucceedsIff(specs, w, sanitize, config);
    OpsForHolds(w, sanitize, spec, e, spec.links, link);
    var op := OpFor(w, sanitize, spec, e, link).value;
    PlanHolds(specs, w, sanitize, config, op);
    OpForIs(w, sanitize, spec, e, link);
    if e.value.Some? {
      SettingValueIff(w, spec, e.key, e.value.value, link, op.value);
    }
    hide Plan;
    hide OpFor;
    hide SettingValue;
    hide StandsFor;
    assert Does(w, spec, e, op);
  }

  /* ----- which entries can be applied ----- */

  /** A known key, and null, or a setting that stands for something at each link of the field. */
  ghost predicate Usable(specs: Specs, w: Workflow, e: Entry) {
    e.key in specs
    && (e.value.None? || ((specs[e.key].links == [] ==> Readable(specs[e.key], e))
                          && forall link :: link in specs[e.key].links ==>
                               exists value :: StandsFor(w, specs[e.key], e.key, e.value.value, link, value)))
  }

  lemma OpForSucceedsIff(w: Workflow, sanitize: string -> string, spec: FieldSpec, e: Entry, link: string)
    ensures OpFor(w, sanitize, spec, e, link).Success? <==>
            e.value.None? || (Readable(spec, e) && SettingValue(w, spec, e.key, e.value.value, link).Some?)
  {
    hide FindOffer;
    hide LocationUri;
    hide CommentFor;
  }

  lemma {:induction false} OpsForSucceedsIff(w: Workflow, sanitize: string -> string, spec: FieldSpec, e: Entry,
                                             links: seq<string>)
    ensures OpsFor(w, sanitize, spec, e, links).Success? <==>
            Readable(spec, e) && forall link :: link in links ==> OpFor(w, sanitize, spec, e, link).Success?
  {
    hide OpFor;
    hide Readable;
    if links != [] {
      var n := |links| - 1;
      OpsForSucceedsIff(w, sanitize, spec, e, links[..n]);
      assert links == links[..n] + [links[n]];
    }
  }

  lemma ApplicableIff(specs: Specs, w: Workflow, sanitize: string -> string, e: Entry)
    ensures Applicable(specs, w, sanitize, e) <==> Usable(specs, w, e)
  {
    if e.key in specs {
      var spec := specs[e.key];
      OpsForSucceedsIff(w, sanitize, spec, e, spec.links);
      forall link | link in spec.links && e.value.Some?
        ensures OpFor(w, sanitize, spec, e, link).Success? <==>
                exists value :: StandsFor(w, spec, e.key, e.value.value, link, value)
        ensures (exists value :: StandsFor(w, spec, e.key, e.value.value, link, value)) ==> Readable(spec, e)
      {
        StandsForSomething(w, spec, e.key, e.value.value, link);
        if SettingValue(w, spec, e.key, e.value.value, link).Some? {
          SettingIsReadable(spec, w, e, link);
        }
        OpForSucceedsIff(w, sanitize, spec, e, link);
      }
      forall link ensures e.value.None? ==> OpFor(w, sanitize, spec, e, link).Success? {
      }
      hide OpFor;
      hide StandsFor;
      hide OpsFor;
      hide Readable;
      if spec.links != [] {
        assert spec.links[0] in spec.links;
      }
    }
  }

  lemma SettingIsReadable(spec: FieldSpec, w: Workflow, e: Entry, link: string)
    requires e.value.Some? && SettingValue(w, spec, e.key, e.value.value, link).Some?
    ensures Readable(spec, e)
  {
  }

  lemma StandsForSomething(w: Workflow, spec: FieldSpec, key: string, setting: Setting, link: string)
    ensures SettingValue(w, spec, key, setting, link).Some? <==> exists value :: StandsFor(w, spec, key, setting, link, value)
  {
    forall value ensures SettingValue(w, spec, key, setting, link) == Some(value) <==>
                         StandsFor(w, spec, key, setting, link, value) {
      SettingValueIff(w, spec, key, setting, link, value);
    }
    hide SettingValue;
    hide StandsFor;
  }

  /** `_apply_config` raises exactly if it comes to an entry that cannot be used. */
  lemma ConfigSucceedsIff(specs: Specs, w: Workflow, sanitize: string -> string, config: seq<Entry>)
    ensures Plan(specs, w, sanitize, config).Success? <==> forall e :: e in config ==> Usable(specs, w, e)
  {
    PlanSucceedsIff(specs, w, sanitize, config);
    forall e | e in config ensures Applicable(specs, w, sanitize, e) <==> Usable(specs, w, e) {
      ApplicableIff(specs, w, sanitize, e);
    }
    hide Applicable;
    hide Usable;
    hide Plan;
  }

  /* ----- comments ----- */

  /** What is written in front of a choice: the prompt of the link, if it has one, and a name for the value. */
  function Remark(w: Workflow, link: string, name: string): string {
    if link in w.prompts && w.prompts[link] != "" then w.prompts[link] + " - " + name else name
  }

  /** The names of a value: the location as it was given, or a label of the setting. */
  predicate Names(spec: FieldSpec, setting: Setting, name: string) {
    if spec.kind == Location then setting == Word(name) else setting in spec.labels && name in spec.labels[setting]
  }

  lemma OpForComments(w: Workflow, sanitize: string -> string, spec: FieldSpec, e: Entry, link: string)
    requires OpFor(w, sanitize, spec, e, link).Success? && e.value.Some?
    ensures var op := OpFor(w, sanitize, spec, e, link).value;
            && op.Put? && op.link == link
            && exists name :: Names(spec, e.value.value, name)
                 && (Remark(w, link, name) != "" ==> op.comment == Some(" " + sanitize(Remark(w, link, name)) + " "))
  {
    var name := if spec.kind == Location then e.value.value.text
                else FindOffer(OffersOf(w, spec.kind, link), spec.labels[e.value.value]).value.title;
    assert Names(spec, e.value.value, name);
  }

  /** The first choice for the link has this comment right in front of it. */
  ghost predicate HasComment(ns: seq<Node>, link: string, text: string) {
    exists i :: IsFirstFor(ns, link, i) && i > 0 && ns[i - 1] == Comment(text)
  }

  /** In front of each choice that was configured stands a comment with the prompt and a name of the value. */
  lemma ConfigPutsComments(specs: Specs, w: Workflow, sanitize: string -> string, config: seq<Entry>, ns: seq<Node>,
                           e: Entry, link: string)
    requires ValidSpecs(specs) && DistinctKeys(config) && Plan(specs, w, sanitize, config).Success?
    requires e in config && Configures(specs, e, link) && e.value.Some?
    ensures exists name :: Names(specs[e.key], e.value.value, name)
              && (Remark(w, link, name) != "" ==>
                    HasComment(Applied(specs, w, sanitize, config, ns), link, " " + sanitize(Remark(w, link, name)) + " "))
  {
    var spec := specs[e.key];
    PlanSucceedsIff(specs, w, sanitize, config);
    OpsForHolds(w, sanitize, spec, e, spec.links, link);
    var op := OpFor(w, sanitize, spec, e, link).value;
    PlanHolds(specs, w, sanitize, config, op);
    PlanLinks(specs, w, sanitize, config);
    OpForComments(w, sanitize, spec, e, link);
    var name :| Names(spec, e.value.value, name)
                && (Remark(w, link, name) != "" ==> op.comment == Some(" " + sanitize(Remark(w, link, name)) + " "));
    AllSettled(ns, Plan(specs, w, sanitize, config).value, op);
    SettledComment(Applied(specs, w, sanitize, config, ns), op);
  }

  lemma SettledComment(ns: seq<Node>, op: Op)
    requires Settled(ns, op) && op.Put?
    ensures op.comment.Some? ==> HasComment(ns, op.link, op.comment.value)
  {
    FirstMatchIff(ns, op.link, FirstMatch(ns, op.link));
  }

  /* ----- the edits in place ----- */

  /** The nodes kept of the first k, when the k-th has just been looked at. */
  function Seen(ns: seq<Node>, link: string, k: nat): seq<Node>
    requires k <= |ns|
  {
    if k == 0 then [] else Kept(ns, link, k - 1) + (if Matches(ns[k - 1], link) then [] else [ns[k - 1]])
  }

  lemma SeenNext(ns: seq<Node>, link: string, k: nat)
    requires k < |ns|
    ensures k > 0 && ns[k - 1].Comment? && Matches(ns[k], link) ==>
              Seen(ns, link, k) == Kept(ns, link, k - 1) + [ns[k - 1]] && Kept(ns, link, k) == Kept(ns, link, k - 1)
    ensures !(k > 0 && ns[k - 1].Comment? && Matches(ns[k], link)) ==> Kept(ns, link, k) == Seen(ns, link, k)
    ensures Seen(ns, link, k + 1) == Kept(ns, link, k) + (if Matches(ns[k], link) then [] else [ns[k]])
  {
  }

  lemma SeenNothing(ns: seq<Node>, link: string)
    ensures Seen(ns, link, 0) == [] && ns[0..] == ns
  {
  }

  lemma CutOut(a: seq<Node>, x: Node, b: seq<Node>)
    ensures (a + [x] + b)[..|a|] + (a + [x] + b)[|a| + 1..] == a + b
  {
  }

  lemma Split(a: seq<Node>, b: seq<Node>)
    requires b != []
    ensures a + b == a + [b[0]] + b[1..]
  {
  }

  lemma EditedNothing(ns: seq<Node>)
    ensures EditedAll(ns, []) == ns
  {
  }

  class Editor {
    var nodes: seq<Node>

    constructor (nodes: seq<Node>)
      ensures this.nodes == nodes
    {
      this.nodes := nodes;
    }

    /** `remove` of the child behind a. */
    method Delete(i: nat, ghost a: seq<Node>, ghost x: Node, ghost b: seq<Node>)
      requires nodes == a + [x] + b && i == |a|
      modifies this
      ensures nodes == a + b
    {
      CutOut(a, x, b);
      nodes := nodes[..i] + nodes[i + 1..];
    }

    /** The loop runs over a copy of the children; `at` is where the current one is now. */
    method RemoveChoice(link: string)
      modifies this
      ensures nodes == Removed(old(nodes), link)
    {
      var children := nodes;
      var at := 0;
      SeenNothing(children, link);
      hide Seen;
      hide Kept;
      hide Matches;
      for k := 0 to |children|
        invariant nodes == Seen(children, link, k) + children[k..]
        invariant at == |Seen(children, link, k)|
      {
        SeenNext(children, link, k);
        assert children[k] == children[k..][0] && children[k + 1..] == children[k..][1..];
        ghost var kept := Kept(children, link, k);
        Split(kept, children[k..]);
        if Matches(children[k], link) {
          if k > 0 && children[k - 1].Comment? {
            Delete(at - 1, kept, children[k - 1], children[k..]);
            at := at - 1;
          }
          Delete(at, kept, children[k], children[k + 1..]);
          assert kept + [] == kept;
        } else {
          at := at + 1;
        }
      }
      AllSeen(children, link);
    }

    method UpsertChoice(link: string, value: string) returns (at: nat)
      modifies this
      ensures nodes == Upserted(old(nodes), link, value) && at == FirstMatch(old(nodes), link)
    {
      for i := 0 to |nodes|
        invariant nodes == old(nodes) && forall j :: 0 <= j < i ==> !Matches(nodes[j], link)
      {
        if Matches(nodes[i], link) {
          FirstMatchIs(nodes, link, i);
          nodes := nodes[i := nodes[i].(target := Some(value))];
          return i;
        }
      }
      FirstMatchIs(nodes, link, |nodes|);
      at := |nodes|;
      nodes := nodes + [Choice(Some(link), Some(value))];
    }

    method SetChoiceComment(i: nat, text: Option<string>)
      requires i < |nodes|
      modifies this
      ensures nodes == Commented(old(nodes), i, text)
    {
      if text.None? {
        return;
      }
      if i > 0 && nodes[i - 1].Comment? {
        nodes := nodes[i - 1 := Comment(text.value)];
        return;
      }
      nodes := nodes[..i] + [Comment(text.value)] + nodes[i..];
    }

    method Apply(op: Op)
      modifies this
      ensures nodes == Edited(old(nodes), op)
    {
      match op
      case Remove(link) => RemoveChoice(link);
      case Put(link, value, comment) =>
        var at := UpsertChoice(link, value);
        SetChoiceComment(at, comment);
    }

    method ApplyEntry(w: Workflow, sanitize: string -> string, spec: FieldSpec, e: Entry) returns (ok: bool)
      modifies this
      ensures ok <==> OpsFor(w, sanitize, spec, e, spec.links).Success?
      ensures ok ==> nodes == EditedAll(old(nodes), OpsFor(w, sanitize, spec, e, spec.links).value)
    {
      hide OpFor;
      hide EditedAll;
      hide Edited;
      EditedNothing(nodes);
      ok := Readable(spec, e);
      if !ok {
        LinkFails(w, sanitize, spec, e, spec.links, 0);
        return;
      }
      for i := 0 to |spec.links|
        invariant OpsFor(w, sanitize, spec, e, spec.links[..i]).Success?
        invariant nodes == EditedAll(old(nodes), OpsFor(w, sanitize, spec, e, spec.links[..i]).value)
      {
        assert spec.links[..i + 1][..i] == spec.links[..i];
        var op := OpFor(w, sanitize, spec, e, spec.links[i]);
        if op.Failure? {
          LinkFails(w, sanitize, spec, e, spec.links, i + 1);
          return false;
        }
        EditedSnoc(old(nodes), OpsFor(w, sanitize, spec, e, spec.links[..i]).value, op.value);
        Apply(op.value);
      }
      assert spec.links[..|spec.links|] == spec.links;
      ok := true;
    }

    /** `_apply_config`; not `ok` when it raises. */
    method ApplyConfig(specs: Specs, w: Workflow, sanitize: string -> string, config: seq<Entry>) returns (ok: bool)
      modifies this
      ensures ok <==> Plan(specs, w, sanitize, config).Success?
      ensures ok ==> nodes == Applied(specs, w, sanitize, config, old(nodes))
    {
      for i := 0 to |config|
        invariant Plan(specs, w, sanitize, config[..i]).Success?
        invariant nodes == Applied(specs, w, sanitize, config[..i], old(nodes))
      {
        assert config[..i + 1][..i] == config[..i];
        var e := config[i];
        ok := e.key in specs;
        ghost var before := Plan(specs, w, sanitize, config[..i]).value;
        if ok {
          ok := ApplyEntry(w, sanitize, specs[e.key], e);
        }
        if !ok {
          PlanSucceedsIff(specs, w, sanitize, config);
          assert !Applicable(specs, w, sanitize, config[i]);
          return;
        }
        EditedConcat(old(nodes), before, OpsFor(w, sanitize, specs[e.key], e, specs[e.key].links).value);
      }
      assert config[..|config|] == config;
      ok := true;
    }
  }

  lemma AllSeen(ns: seq<Node>, link: string)
    ensures Seen(ns, link, |ns|) + ns[|ns|..] == Removed(ns, link)
  {
  }

  lemma {:induction false} LinkFails(w: Workflow, sanitize: string -> string, spec: FieldSpec, e: Entry,
                                     links: seq<string>, n: nat)
    requires n <= |links| && OpsFor(w, sanitize, spec, e, links[..n]).Failure?
    ensures OpsFor(w, sanitize, spec, e, links).Failure?
    decreases |links| - n
  {
    if n < |links| {
      assert links[..n + 1][..n] == links[..n];
      LinkFails(w, sanitize, spec, e, links, n + 1);
    } else {
      assert links[..n] == links;
    }
  }

  lemma EditedSnoc(ns: seq<Node>, ops: seq<Op>, op: Op)
    ensures EditedAll(ns, ops + [op]) == Edited(EditedAll(ns, ops), op)
  {
    assert (ops + [op])[..|ops|] == ops;
  }

  lemma {:induction false} EditedConcat(ns: seq<Node>, a: seq<Op>, b: seq<Op>)
    ensures EditedAll(ns, a + b) == EditedAll(EditedAll(ns, a), b)
  {
    if b == [] {
      assert a + b == a;
    } else {
      var n := |b| - 1;
      assert a + b == a + b[..n] + [b[n]];
      EditedConcat(ns, a, b[..n]);
      EditedSnoc(ns, a + b[..n], b[n]);
    }
  }
}
