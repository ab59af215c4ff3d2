/** What a registry holds after a sequence of events, in closed form. */
module MetricsSums {
  import opened Metrics
  import opened MetricsOrder
  import opened Results

  /* ----- what one event does ----- */

  /** The event is for a series of a collector: it has the labels that were declared. */
  predicate Named(cs: Collectors, e: Event) {
    e.collector in cs && (set l | l in e.labels :: l.name) == cs[e.collector].labelNames
  }

  /** The collector has the method that the action calls, and that takes the value. */
  predicate Accepts(c: Collector, action: Action, value: real) {
    match action
    case Inc => c.kind == Gauge || (c.kind == Counter && value >= 0.0)
    case Set => c.kind == Gauge
    case SetMax => c.kind == Gauge
    case Observe => c.kind == Histogram
    case Unknown => false
  }

  predicate Taken(cs: Collectors, e: Event) {
    Named(cs, e) && Accepts(cs[e.collector], e.action, e.value)
  }

  /** A `set_max` that gets as far as comparing maxima before it raises: its series can be looked up but not
      set. */
  predicate Unsettable(cs: Collectors, e: Event) {
    e.action == SetMax && e.collector in cs && (e.labels == [] || Named(cs, e)) && !Taken(cs, e)
  }

  lemma EffectIs(cs: Collectors, e: Event)
    ensures EffectOf(cs, e) ==
            if Taken(cs, e) then
              (match e.action
               case Inc => Add(e.value)
               case Set => Put(e.value)
               case SetMax => Lift(e.value)
               case _ => Record(e.value))
            else if Unsettable(cs, e) then Trip(e.value) else Fail
  {
    NoLabels(e.labels);
  }

  lemma NoLabels(labels: seq<Label>)
    ensures labels == [] ==> NamesOf(labels) == {}
    ensures labels != [] ==> NamesOf(labels) != {}
  {
    if labels != [] {
      assert labels[0].name in NamesOf(labels);
    }
  }

  /** The event is above the maximum recorded for its series. */
  predicate IsHigher(e: Event, r: Registry) {
    var k := Key(e.collector, e.labels);
    k !in r.maxima || e.value > r.maxima[k]
  }

  /** An event raises if it is not taken, unless it is a `set_max` that is not above the maximum. */
  predicate Raising(cs: Collectors, e: Event, r: Registry) {
    !Taken(cs, e) && !(Unsettable(cs, e) && !IsHigher(e, r))
  }

  /** Other series are left alone; the counts tell whether the event raised. */
  lemma StepLeaves(cs: Collectors, e: Event, r: Registry, k: Key, t: Tag)
    ensures var s := Step(cs, e, r);
            && (k != Key(e.collector, e.labels) ==>
                  At(s.values, k) == At(r.values, k) && At(s.samples, k) == At(r.samples, k)
                  && At(s.maxima, k) == At(r.maxima, k))
            && Count(s.errors, t) ==
               Count(r.errors, t) + (if t == Tag(e.collector, e.action) && Raising(cs, e, r) then 1 else 0)
            && Count(s.applied, t) ==
               Count(r.applied, t) + (if t == Tag(e.collector, e.action) && !Raising(cs, e, r) then 1 else 0)
  {
    StepByMaps(cs, e, r);
    EffectIs(cs, e);
    hide EffectOf;
    hide Step;
    hide Taken;
    hide Unsettable;
    hide TouchesValue;
    hide TouchesSamples;
  }

  lemma ValueAfter(cs: Collectors, e: Event, r: Registry)
    ensures var s, k := Step(cs, e, r), Key(e.collector, e.labels);
            Value(s.values, k) ==
            if !Taken(cs, e) then Value(r.values, k)
            else if e.action == Inc then Value(r.values, k) + e.value
            else if e.action == Set || (e.action == SetMax && IsHigher(e, r)) then e.value
            else Value(r.values, k)
  {
    StepByMaps(cs, e, r);
    EffectIs(cs, e);
    hide EffectOf;
    hide Step;
    hide Unsettable;
    hide TouchesValue;
    hide TouchesSamples;
  }

  lemma SamplesAfterStep(cs: Collectors, e: Event, r: Registry)
    ensures var s, k := Step(cs, e, r), Key(e.collector, e.labels);
            Samples(s.samples, k) ==
            Samples(r.samples, k) + (if Taken(cs, e) && e.action == Observe then multiset{e.value} else multiset{})
  {
    StepByMaps(cs, e, r);
    EffectIs(cs, e);
    hide EffectOf;
    hide Step;
    hide Unsettable;
    hide TouchesValue;
    hide TouchesSamples;
  }

  lemma MaximumAfter(cs: Collectors, e: Event, r: Registry)
    ensures var s, k := Step(cs, e, r), Key(e.collector, e.labels);
            At(s.maxima, k) ==
            if e.action == SetMax && (Taken(cs, e) || Unsettable(cs, e)) && IsHigher(e, r)
            then Some(e.value) else At(r.maxima, k)
  {
    StepByMaps(cs, e, r);
    EffectIs(cs, e);
    assert Unsettable(cs, e) ==> e.action == SetMax;
    hide EffectOf;
    hide Step;
    hide Unsettable;
    hide Taken;
    hide TouchesValue;
    hide TouchesSamples;
  }

  /** What becomes of the event's own series. */
  lemma StepIs(cs: Collectors, e: Event, r: Registry)
    ensures var s, k := Step(cs, e, r), Key(e.collector, e.labels);
            && Value(s.values, k) ==
               (if !Taken(cs, e) then Value(r.values, k)
                else if e.action == Inc then Value(r.values, k) + e.value
                else if e.action == Set || (e.action == SetMax && IsHigher(e, r)) then e.value
                else Value(r.values, k))
            && Samples(s.samples, k) ==
               Samples(r.samples, k) + (if Taken(cs, e) && e.action == Observe then multiset{e.value} else multiset{})
            && At(s.maxima, k) ==
               if e.action == SetMax && (Taken(cs, e) || Unsettable(cs, e)) && IsHigher(e, r)
               then Some(e.value) else At(r.maxima, k)
  {
    ValueAfter(cs, e, r);
    SamplesAfterStep(cs, e, r);
    MaximumAfter(cs, e, r);
    hide *;
  }

  /** An event with labels as declared makes its series, even if it raises then. */
  lemma SeriesIsMade(cs: Collectors, e: Event, r: Registry)
    requires Named(cs, e) && e.labels != []
    ensures var s, k := Step(cs, e, r), Key(e.collector, e.labels);
            if cs[e.collector].kind == Histogram then k in s.samples else k in s.values
  {
    StepByMaps(cs, e, r);
    hide EffectOf;
    hide Step;
  }

  /* ----- runs of events ----- */

  predicate For(e: Event, k: Key) {
    e.collector == k.collector && e.labels == k.labels
  }

  /** The total added to a series. */
  function Sum(cs: Collectors, es: seq<Event>, k: Key): real {
    if es == [] then 0.0 else
      var e := es[|es| - 1];
      Sum(cs, es[..|es| - 1], k) + (if For(e, k) && e.action == Inc && Taken(cs, e) then e.value else 0.0)
  }

  /** The highest value `set_max` was called with for a gauge, if it was. */
  function Highest(cs: Collectors, es: seq<Event>, k: Key): Option<real> {
    if es == [] then None else
      var e := es[|es| - 1];
      var m := Highest(cs, es[..|es| - 1], k);
      if For(e, k) && e.action == SetMax && Taken(cs, e) && (m.None? || e.value > m.value) then Some(e.value) else m
  }

  function Observed(cs: Collectors, es: seq<Event>, k: Key): multiset<real> {
    if es == [] then multiset{} else
      var e := es[|es| - 1];
      Observed(cs, es[..|es| - 1], k)
      + (if For(e, k) && e.action == Observe && Taken(cs, e) then multiset{e.value} else multiset{})
  }

  function Tagged(es: seq<Event>, t: Tag): nat {
    if es == [] then 0 else Tagged(es[..|es| - 1], t) + (if TagOf(es[|es| - 1]) == t then 1 else 0)
  }

  predicate Of(cs: Collectors, k: Key, kind: Kind) {
    k.collector in cs && cs[k.collector].kind == kind
  }

  /** A counter is the sum of its increments. */
  lemma {:induction false} CountersAreSums(cs: Collectors, es: seq<Event>, r: Registry, k: Key)
    requires Of(cs, k, Counter)
    ensures Value(Run(cs, es, r).values, k) == Value(r.values, k) + Sum(cs, es, k)
  {
    if es != [] {
      var n := |es| - 1;
      var before := Run(cs, es[..n], r);
      CountersAreSums(cs, es[..n], r, k);
      StepLeaves(cs, es[n], before, k, TagOf(es[n]));
      StepIs(cs, es[n], before);
      hide Step;
    }
  }

  /** Only `set_max` events for the series, and it can take them. */
  ghost predicate OnlyMaxima(cs: Collectors, es: seq<Event>, k: Key) {
    forall e :: e in es && For(e, k) ==> e.action == SetMax && Taken(cs, e)
  }

  /** A gauge that only `set_max` writes holds the highest value it was given. */
  lemma {:induction false} GaugesAreMaxima(cs: Collectors, es: seq<Event>, r: Registry, k: Key)
    requires OnlyMaxima(cs, es, k) && k !in r.maxima
    ensures At(Run(cs, es, r).maxima, k) == Highest(cs, es, k)
    ensures Highest(cs, es, k).Some? ==> Value(Run(cs, es, r).values, k) == Highest(cs, es, k).value
  {
    if es != [] {
      var n := |es| - 1;
      var before := Run(cs, es[..n], r);
      GaugesAreMaxima(cs, es[..n], r, k);
      assert es[n] in es;
      StepLeaves(cs, es[n], before, k, TagOf(es[n]));
      StepIs(cs, es[n], before);
      hide Step;
      hide Taken;
    }
  }

  /** `Highest` is one of the values and none is above it. */
  lemma {:induction false} HighestIsMaximum(cs: Collectors, es: seq<Event>, k: Key)
    ensures Highest(cs, es, k).None? <==> forall e :: e in es ==> !(For(e, k) && e.action == SetMax && Taken(cs, e))
    ensures Highest(cs, es, k).Some? ==>
              exists e :: e in es && For(e, k) && e.action == SetMax && Taken(cs, e)
                          && e.value == Highest(cs, es, k).value
    ensures Highest(cs, es, k).Some? ==>
              forall e :: e in es && For(e, k) && e.action == SetMax && Taken(cs, e) ==>
                e.value <= Highest(cs, es, k).value
  {
    hide Taken;
    if es != [] {
      var n := |es| - 1;
      HighestIsMaximum(cs, es[..n], k);
      assert es == es[..n] + [es[n]];
    }
  }

  /** A gauge that `inc` and `set` write holds what was set last and has been added since. */
  function Level(cs: Collectors, es: seq<Event>, k: Key, start: real): real {
    if es == [] then start else
      var e, before := es[|es| - 1], Level(cs, es[..|es| - 1], k, start);
      if !For(e, k) || !Taken(cs, e) then before
      else if e.action == Set then e.value
      else if e.action == Inc then before + e.value
      else before
  }

  lemma {:induction false} GaugesAreLevels(cs: Collectors, es: seq<Event>, r: Registry, k: Key)
    requires forall e :: e in es && For(e, k) ==> e.action != SetMax
    ensures Value(Run(cs, es, r).values, k) == Level(cs, es, k, Value(r.values, k))
  {
    if es != [] {
      var n := |es| - 1;
      var before := Run(cs, es[..n], r);
      GaugesAreLevels(cs, es[..n], r, k);
      assert es[n] in es;
      StepLeaves(cs, es[n], before, k, TagOf(es[n]));
      StepIs(cs, es[n], before);
      hide Step;
      hide Taken;
    }
  }

  /** A series that no event is for keeps its value. */
  lemma {:induction false} UntouchedStays(cs: Collectors, es: seq<Event>, r: Registry, k: Key)
    requires forall e :: e in es ==> !For(e, k)
    ensures At(Run(cs, es, r).values, k) == At(r.values, k)
  {
    if es != [] {
      var n := |es| - 1;
      UntouchedStays(cs, es[..n], r, k);
      assert es[n] in es;
      StepLeaves(cs, es[n], Run(cs, es[..n], r), k, TagOf(es[n]));
      hide Step;
    }
  }

  /** A histogram holds what was observed. */
  lemma {:induction false} HistogramsHoldObservations(cs: Collectors, es: seq<Event>, r: Registry, k: Key)
    ensures Samples(Run(cs, es, r).samples, k) == Samples(r.samples, k) + Observed(cs, es, k)
  {
    if es != [] {
      var n := |es| - 1;
      var before := Run(cs, es[..n], r);
      HistogramsHoldObservations(cs, es[..n], r, k);
      StepLeaves(cs, es[n], before, k, TagOf(es[n]));
      StepIs(cs, es[n], before);
      hide Step;
      hide Taken;
    }
  }

  lemma CountsAfter(cs: Collectors, e: Event, r: Registry, t: Tag)
    ensures Count(Step(cs, e, r).applied, t) + Count(Step(cs, e, r).errors, t) ==
            Count(r.applied, t) + Count(r.errors, t) + (if TagOf(e) == t then 1 else 0)
  {
    StepByMaps(cs, e, r);
    hide EffectOf;
    hide Step;
  }

  /** Every event is counted once, as applied or as raising. */
  lemma {:induction false} EveryEventCounted(cs: Collectors, es: seq<Event>, r: Registry, t: Tag)
    ensures var s := Run(cs, es, r);
            Count(s.applied, t) + Count(s.errors, t) == Count(r.applied, t) + Count(r.errors, t) + Tagged(es, t)
  {
    if es != [] {
      var n := |es| - 1;
      EveryEventCounted(cs, es[..n], r, t);
      CountsAfter(cs, es[n], Run(cs, es[..n], r), t);
    }
  }

  /* ----- well-typed events ----- */

  /** An `inc` of a counter, a `set_max` of a gauge or an `observe` of a histogram, with labels as
      declared. */
  predicate WellTyped(cs: Collectors, e: Event) {
    e.collector in cs && NamesOf(e.labels) == cs[e.collector].labelNames
    && match e.action
       case Inc => cs[e.collector].kind == Counter && e.value >= 0.0
       case SetMax => cs[e.collector].kind == Gauge
       case Observe => cs[e.collector].kind == Histogram
       case _ => false
  }

  lemma WellTypedEffect(cs: Collectors, e: Event)
    requires WellTyped(cs, e)
    ensures EffectOf(cs, e) == match e.action
                               case Inc => Add(e.value)
                               case SetMax => Lift(e.value)
                               case _ => Record(e.value)
  {
    if e.labels != [] {
      assert Labelled(cs, e);
    } else {
      assert NamesOf(e.labels) == {};
    }
  }

  /** Well-typed events do not conflict: any two interleavings of the same events give the same
      registry. */
  lemma InterleavingsAgree(cs: Collectors, es: seq<Event>, fs: seq<Event>, r: Registry)
    requires multiset(es) == multiset(fs) && forall e :: e in es ==> WellTyped(cs, e)
    ensures Run(cs, es, r) == Run(cs, fs, r)
  {
    forall e, f | e in multiset(es) && f in multiset(es) ensures !Conflict(cs, e, f) {
      WellTypedEffect(cs, e);
      WellTypedEffect(cs, f);
    }
    AnyOrder(cs, es, fs, r);
  }

  lemma NoErrorAfter(cs: Collectors, e: Event, r: Registry)
    requires WellTyped(cs, e)
    ensures Step(cs, e, r).errors == r.errors
  {
    StepByMaps(cs, e, r);
    WellTypedEffect(cs, e);
    hide EffectOf;
    hide Step;
  }

  /** And none of them raises. */
  lemma {:induction false} WellTypedNeverRaise(cs: Collectors, es: seq<Event>, r: Registry)
    requires forall e :: e in es ==> WellTyped(cs, e)
    ensures Run(cs, es, r).errors == r.errors
  {
    if es != [] {
      var n := |es| - 1;
      WellTypedNeverRaise(cs, es[..n], r);
      NoErrorAfter(cs, es[n], Run(cs, es[..n], r));
    }
  }

  /** Order matters once a `set_max` is sent to a counter without labels: the lower value first raises twice, the
      higher one first raises once, because the maximum is recorded before the call that fails. */
  lemma SetMaxOfCounterDependsOnOrder()
    ensures var cs: Collectors := map["sip_started_counter" := Collector(Counter, {})];
            var r := Registry(map[], map[], map[], map[], map[]);
            var low := Event("sip_started_counter", SetMax, [], 1.0);
            var high := Event("sip_started_counter", SetMax, [], 2.0);
            && Count(Run(cs, [low, high], r).errors, TagOf(low)) == 2
            && Count(Run(cs, [high, low], r).errors, TagOf(low)) == 1
  {
    var cs: Collectors := map["sip_started_counter" := Collector(Counter, {})];
    var r := Registry(map[], map[], map[], map[], map[]);
    var low, high := Event("sip_started_counter", SetMax, [], 1.0), Event("sip_started_counter", SetMax, [], 2.0);
    assert EffectOf(cs, low) == Trip(1.0) && EffectOf(cs, high) == Trip(2.0);
    RunTwo(cs, low, high, r);
    RunTwo(cs, high, low, r);
  }

  lemma RunTwo(cs: Collectors, e: Event, f: Event, r: Registry)
    ensures Run(cs, [e, f], r) == Step(cs, f, Step(cs, e, r))
  {
    assert [e, f] == [] + [e] + [f];
    RunSnoc(cs, [e], f, r);
    RunSnoc(cs, [], e, r);
    assert [] + [e] == [e];
  }
}
