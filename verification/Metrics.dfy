/** MCPClient's metric events and the registry they are applied to. */
module Metrics {

  datatype Action = Inc | Set | SetMax | Observe | Unknown

  datatype Label = Label(name: string, value: string)

  /** Labels are sorted by name. */
  datatype Event = Event(collector: string, action: Action, labels: seq<Label>, value: real)

  datatype Kind = Counter | Gauge | Histogram

  /** A collector of `_COLLECTORS`: its type and the label names it was declared with. */
  datatype Collector = Collector(kind: Kind, labelNames: set<string>)

  type Collectors = map<string, Collector>

  datatype Key = Key(collector: string, labels: seq<Label>)
  datatype Tag = Tag(collector: string, action: Action)

  /** Counter and gauge values, histogram observations, `_GAUGE_MAX_VALUES`, and the two counters
      of applied events and of events that raised. */
  datatype Registry = Registry(values: map<Key, real>, samples: map<Key, multiset<real>>, maxima: map<Key, real>,
                               applied: map<Tag, nat>, errors: map<Tag, nat>)

  function KeyOf(e: Event): Key {
    Key(e.collector, e.labels)
  }

  function NamesOf(labels: seq<Label>): set<string> {
    set l | l in labels :: l.name
  }

  function Value(values: map<Key, real>, k: Key): real {
    if k in values then values[k] else 0.0
  }

  function Samples(samples: map<Key, multiset<real>>, k: Key): multiset<real> {
    if k in samples then samples[k] else multiset{}
  }

  function Count(counts: map<Tag, nat>, t: Tag): nat {
    if t in counts then counts[t] else 0
  }

  /** What applying an event does, as far as the event and the collectors decide it: raise, add to
      a value, set it, raise a gauge to at least the value, record a maximum and then raise for
      want of a `set` method, or record an observation. */
  datatype Effect = Fail | Add(amount: real) | Put(value: real) | Lift(value: real) | Trip(value: real)
                  | Record(value: real)

  /** `collector.labels(...)` accepts the labels. */
  predicate Labelled(cs: Collectors, e: Event) {
    e.collector in cs && e.labels != [] && NamesOf(e.labels) == cs[e.collector].labelNames
  }

  function EffectOf(cs: Collectors, e: Event): Effect {
    if e.collector !in cs || (e.labels != [] && !Labelled(cs, e)) then Fail else
      var c := cs[e.collector];
      var usable := e.labels != [] || c.labelNames == {};
      match e.action
      case Inc =>
        if usable && (c.kind == Gauge || (c.kind == Counter && e.value >= 0.0)) then Add(e.value) else Fail
      case Set => if usable && c.kind == Gauge then Put(e.value) else Fail
      case SetMax => if usable && c.kind == Gauge then Lift(e.value) else Trip(e.value)
      case Observe => if usable && c.kind == Histogram then Record(e.value) else Fail
      case Unknown => Fail
  }

  /** `labels(...)` makes the series if it is not there yet. */
  function Touched(cs: Collectors, e: Event, r: Registry): Registry {
    if !Labelled(cs, e) then r
    else if cs[e.collector].kind == Histogram then
      r.(samples := r.samples[KeyOf(e) := Samples(r.samples, KeyOf(e))])
    else r.(values := r.values[KeyOf(e) := Value(r.values, KeyOf(e))])
  }

  function TagOf(e: Event): Tag {
    Tag(e.collector, e.action)
  }

  function Applied(e: Event, r: Registry): Registry {
    r.(applied := r.applied[TagOf(e) := Count(r.applied, TagOf(e)) + 1])
  }

  function Errored(e: Event, r: Registry): Registry {
    r.(errors := r.errors[TagOf(e) := Count(r.errors, TagOf(e)) + 1])
  }

  /** Is the value above the recorded maximum, if there is one? */
  predicate Higher(maxima: map<Key, real>, k: Key, v: real) {
    k !in maxima || v > maxima[k]
  }

  function Affected(f: Effect, e: Event, r: Registry): Registry {
    var k := KeyOf(e);
    match f
    case Fail => Errored(e, r)
    case Add(v) => Applied(e, r.(values := r.values[k := Value(r.values, k) + v]))
    case Put(v) => Applied(e, r.(values := r.values[k := v]))
    case Lift(v) =>
      if Higher(r.maxima, k, v) then Applied(e, r.(maxima := r.maxima[k := v], values := r.values[k := v]))
      else Applied(e, r)
    case Trip(v) =>
      if Higher(r.maxima, k, v) then Errored(e, r.(maxima := r.maxima[k := v])) else Applied(e, r)
    case Record(v) => Applied(e, r.(samples := r.samples[k := Samples(r.samples, k) + multiset{v}]))
  }

  /** `EventListener._apply`: apply the event, count it as applied or as raising. */
  function Step(cs: Collectors, e: Event, r: Registry): Registry {
    Affected(EffectOf(cs, e), e, Touched(cs, e, r))
  }

  function Run(cs: Collectors, es: seq<Event>, r: Registry): Registry {
    if es == [] then r else Step(cs, es[|es| - 1], Run(cs, es[..|es| - 1], r))
  }

  /** The parent's registry. */
  class Parent {
    const collectors: Collectors
    var values: map<Key, real>
    var samples: map<Key, multiset<real>>
    var maxima: map<Key, real>
    var applied: map<Tag, nat>
    var errors: map<Tag, nat>

    constructor (collectors: Collectors)
      ensures this.collectors == collectors && Now() == Registry(map[], map[], map[], map[], map[])
    {
      this.collectors := collectors;
      values, samples, maxima, applied, errors := map[], map[], map[], map[], map[];
    }

    function Now(): Registry
      reads this
    {
      Registry(values, samples, maxima, applied, errors)
    }

    /** The series an event is for; `ok` unless looking it up raises. */
    method Series(e: Event) returns (ok: bool)
      modifies this`values, this`samples
      ensures Now() == Touched(collectors, e, old(Now()))
      ensures ok <==> e.collector in collectors && (e.labels == [] || Labelled(collectors, e))
    {
      if e.collector !in collectors {
        return false;
      }
      if e.labels != [] {
        if NamesOf(e.labels) != collectors[e.collector].labelNames {
          return false;
        }
        if collectors[e.collector].kind == Histogram {
          samples := samples[KeyOf(e) := Samples(samples, KeyOf(e))];
        } else {
          values := values[KeyOf(e) := Value(values, KeyOf(e))];
        }
      }
      ok := true;
    }

    method SetMaximum(e: Event, settable: bool) returns (raised: bool)
      modifies this`values, this`maxima
      ensures Affected(if settable then Lift(e.value) else Trip(e.value), e, old(Now()))
           == if raised then Errored(e, Now()) else Applied(e, Now())
    {
      if Higher(maxima, KeyOf(e), e.value) {
        maxima := maxima[KeyOf(e) := e.value];
        if !settable {
          return true;
        }
        values := values[KeyOf(e) := e.value];
      }
      raised := false;
    }

    /** The action of an event on its series. */
    method Act(e: Event) returns (raised: bool)
      requires e.collector in collectors && (e.labels == [] || Labelled(collectors, e))
      modifies this`values, this`samples, this`maxima
      ensures Affected(EffectOf(collectors, e), e, old(Now())) == if raised then Errored(e, Now()) else Applied(e, Now())
    {
      var c, k := collectors[e.collector], KeyOf(e);
      var usable := e.labels != [] || c.labelNames == {};
      match e.action
      case Inc =>
        raised := !usable || c.kind == Histogram || (c.kind == Counter && e.value < 0.0);
        if !raised {
          values := values[k := Value(values, k) + e.value];
        }
      case Set =>
        raised := !usable || c.kind != Gauge;
        if !raised {
          values := values[k := e.value];
        }
      case SetMax =>
        raised := SetMaximum(e, usable && c.kind == Gauge);
      case Observe =>
        raised := !usable || c.kind != Histogram;
        if !raised {
          samples := samples[k := Samples(samples, k) + multiset{e.value}];
        }
      case Unknown =>
        raised := true;
    }

    /** `apply_event`; `raised` when it raises. */
    method ApplyEvent(e: Event) returns (raised: bool)
      modifies this`values, this`samples, this`maxima, this`applied
      ensures Step(collectors, e, old(Now())) == if raised then Errored(e, Now()) else Now()
    {
      var ok := Series(e);
      if !ok {
        return true;
      }
      raised := Act(e);
      if !raised {
        applied := applied[TagOf(e) := Count(applied, TagOf(e)) + 1];
      }
    }

    /** `EventListener._apply` */
    method Apply(e: Event)
      modifies this
      ensures Now() == Step(collectors, e, old(Now()))
    {
      var raised := ApplyEvent(e);
      if raised {
        errors := errors[TagOf(e) := Count(errors, TagOf(e)) + 1];
      }
    }

    /** `EventListener._drain`: apply what is queued, oldest first. */
    method Drain(queued: seq<Event>)
      modifies this
      ensures Now() == Run(collectors, queued, old(Now()))
    {
      for i := 0 to |queued|
        invariant Now() == Run(collectors, queued[..i], old(Now()))
      {
        assert queued[..i + 1][..i] == queued[..i];
        Apply(queued[i]);
      }
      assert queued[..|queued|] == queued;
    }
  }
}
