/** When the order in which metric events arrive does not matter. */
module MetricsOrder {
  import opened Metrics
  import opened Results

  /* ----- one step, map by map ----- */

  function At<V>(m: map<Key, V>, k: Key): Option<V> {
    if k in m then Some(m[k]) else None
  }

  function Updated<V>(m: map<Key, V>, k: Key, o: Option<V>): map<Key, V> {
    if o.Some? then m[k := o.value] else m
  }

  /** The maximum recorded after one event for the series. */
  function NewMaximum(f: Effect, was: Option<real>): Option<real> {
    if (f.Lift? || f.Trip?) && (was.None? || f.value > was.value) then Some(f.value) else was
  }

  predicate Rises(f: Effect, maximum: Option<real>) {
    (f.Lift? || f.Trip?) && (maximum.None? || f.value > maximum.value)
  }

  /** The value after one event; `touch` when looking the series up makes it. */
  function NewValue(touch: bool, f: Effect, was: Option<real>, rises: bool): Option<real> {
    var t := if touch && was.None? then Some(0.0) else was;
    match f
    case Add(v) => Some((if t.Some? then t.value else 0.0) + v)
    case Put(v) => Some(v)
    case Lift(v) => if rises then Some(v) else t
    case _ => t
  }

  function NewSamples(touch: bool, f: Effect, was: Option<multiset<real>>): Option<multiset<real>> {
    var t := if touch && was.None? then Some(multiset{}) else was;
    if f.Record? then Some((if t.Some? then t.value else multiset{}) + multiset{f.value}) else t
  }

  predicate TouchesValue(cs: Collectors, e: Event) {
    Labelled(cs, e) && cs[e.collector].kind != Histogram
  }

  predicate TouchesSamples(cs: Collectors, e: Event) {
    Labelled(cs, e) && cs[e.collector].kind == Histogram
  }

  function MaximaAfter(cs: Collectors, e: Event, m: map<Key, real>): map<Key, real> {
    Updated(m, KeyOf(e), NewMaximum(EffectOf(cs, e), At(m, KeyOf(e))))
  }

  function ValuesAfter(cs: Collectors, e: Event, values: map<Key, real>, m: map<Key, real>): map<Key, real> {
    Updated(values, KeyOf(e), NewValue(TouchesValue(cs, e), EffectOf(cs, e), At(values, KeyOf(e)),
                                       Rises(EffectOf(cs, e), At(m, KeyOf(e)))))
  }

  function SamplesAfter(cs: Collectors, e: Event, samples: map<Key, multiset<real>>): map<Key, multiset<real>> {
    Updated(samples, KeyOf(e), NewSamples(TouchesSamples(cs, e), EffectOf(cs, e), At(samples, KeyOf(e))))
  }

  /** Does the event raise? */
  predicate Raises(cs: Collectors, e: Event, m: map<Key, real>) {
    EffectOf(cs, e).Fail? || (EffectOf(cs, e).Trip? && Rises(EffectOf(cs, e), At(m, KeyOf(e))))
  }

  function Counted(counts: map<Tag, nat>, t: Tag, yes: bool): map<Tag, nat> {
    if yes then counts[t := Count(counts, t) + 1] else counts
  }

  lemma Same<V>(m: map<Key, V>, k: Key)
    requires k in m
    ensures m[k := m[k]] == m
  {
  }

  lemma TouchedByMaps(cs: Collectors, e: Event, r: Registry)
    ensures Touched(cs, e, r) ==
            r.(values := Updated(r.values, KeyOf(e), NewValue(TouchesValue(cs, e), Fail, At(r.values, KeyOf(e)), false)),
               samples := Updated(r.samples, KeyOf(e), NewSamples(TouchesSamples(cs, e), Fail, At(r.samples, KeyOf(e)))))
  {
    if KeyOf(e) in r.values {
      Same(r.values, KeyOf(e));
    }
    if KeyOf(e) in r.samples {
      Same(r.samples, KeyOf(e));
    }
  }

  lemma Untouched<V>(m: map<Key, V>, k: Key)
    ensures Updated(m, k, At(m, k)) == m
  {
  }

  lemma AffectedValues(f: Effect, e: Event, r: Registry)
    ensures Affected(f, e, r).values
         == Updated(r.values, KeyOf(e), NewValue(false, f, At(r.values, KeyOf(e)), Rises(f, At(r.maxima, KeyOf(e)))))
  {
    Untouched(r.values, KeyOf(e));
  }

  lemma AffectedSamples(f: Effect, e: Event, r: Registry)
    ensures Affected(f, e, r).samples == Updated(r.samples, KeyOf(e), NewSamples(false, f, At(r.samples, KeyOf(e))))
  {
    Untouched(r.samples, KeyOf(e));
  }

  lemma AffectedMaxima(f: Effect, e: Event, r: Registry)
    ensures Affected(f, e, r).maxima == Updated(r.maxima, KeyOf(e), NewMaximum(f, At(r.maxima, KeyOf(e))))
  {
    Untouched(r.maxima, KeyOf(e));
  }

  lemma AffectedCounts(f: Effect, e: Event, r: Registry)
    ensures var raises := f.Fail? || (f.Trip? && Rises(f, At(r.maxima, KeyOf(e))));
            && Affected(f, e, r).applied == Counted(r.applied, TagOf(e), !raises)
            && Affected(f, e, r).errors == Counted(r.errors, TagOf(e), raises)
  {
    hide Count;
    hide TagOf;
    hide Value;
    hide Samples;
    if f.Fail? || f.Trip? {
      hide KeyOf;
    }
  }

  lemma UpdatedTwice<V>(m: map<Key, V>, k: Key, a: Option<V>, b: Option<V>)
    requires a.Some? ==> b.Some?
    ensures Updated(Updated(m, k, a), k, b) == Updated(m, k, b)
    ensures At(Updated(m, k, a), k) == if a.Some? then a else At(m, k)
  {
  }

  lemma UpdatedApart<V>(m: map<Key, V>, k: Key, a: Option<V>, l: Key, b: Option<V>)
    requires k != l
    ensures Updated(Updated(m, k, a), l, b) == Updated(Updated(m, l, b), k, a)
    ensures At(Updated(m, k, a), l) == At(m, l)
  {
  }

  lemma StepByMaps(cs: Collectors, e: Event, r: Registry)
    ensures Step(cs, e, r) == Registry(ValuesAfter(cs, e, r.values, r.maxima), SamplesAfter(cs, e, r.samples),
                                       MaximaAfter(cs, e, r.maxima),
                                       Counted(r.applied, TagOf(e), !Raises(cs, e, r.maxima)),
                                       Counted(r.errors, TagOf(e), Raises(cs, e, r.maxima)))
  {
    hide EffectOf;
    hide Affected;
    hide Touched;
    hide Labelled;
    var k, f := KeyOf(e), EffectOf(cs, e);
    TouchedByMaps(cs, e, r);
    AffectedValues(f, e, Touched(cs, e, r));
    AffectedSamples(f, e, Touched(cs, e, r));
    AffectedMaxima(f, e, Touched(cs, e, r));
    AffectedCounts(f, e, Touched(cs, e, r));
    var rises := Rises(f, At(r.maxima, k));
    var v := NewValue(TouchesValue(cs, e), Fail, At(r.values, k), false);
    UpdatedTwice(r.values, k, v, NewValue(false, f, At(Updated(r.values, k, v), k), rises));
    var s := NewSamples(TouchesSamples(cs, e), Fail, At(r.samples, k));
    UpdatedTwice(r.samples, k, s, NewSamples(false, f, At(Updated(r.samples, k, s), k)));
  }

  /* ----- conflicts ----- */

  /** Effects on one series that do not commute. */
  predicate Clash(f: Effect, g: Effect) {
    match f
    case Add(v) => v != 0.0 && (g.Put? || g.Lift?)
    case Put(v) => (g.Add? && g.amount != 0.0) || ((g.Put? || g.Lift?) && g.value != v)
    case Lift(v) => (g.Add? && g.amount != 0.0) || (g.Put? && g.value != v)
    case Trip(v) => g.Trip? && g.value != v
    case _ => false
  }

  predicate Conflict(cs: Collectors, e: Event, f: Event) {
    KeyOf(e) == KeyOf(f) && Clash(EffectOf(cs, e), EffectOf(cs, f))
  }

  lemma ConflictSymmetric(cs: Collectors, e: Event, f: Event)
    ensures Conflict(cs, e, f) <==> Conflict(cs, f, e)
    ensures !Conflict(cs, e, e)
  {
  }

  lemma MaximaCommute(cs: Collectors, e: Event, f: Event, m: map<Key, real>)
    ensures MaximaAfter(cs, e, MaximaAfter(cs, f, m)) == MaximaAfter(cs, f, MaximaAfter(cs, e, m))
  {
    hide EffectOf;
    var k, l := KeyOf(e), KeyOf(f);
    var a, b := NewMaximum(EffectOf(cs, e), At(m, k)), NewMaximum(EffectOf(cs, f), At(m, l));
    if k != l {
      UpdatedApart(m, k, a, l, b);
      UpdatedApart(m, l, b, k, a);
    } else {
      UpdatedTwice(m, k, a, NewMaximum(EffectOf(cs, f), At(Updated(m, k, a), k)));
      UpdatedTwice(m, k, b, NewMaximum(EffectOf(cs, e), At(Updated(m, k, b), k)));
    }
  }

  lemma SamplesCommute(cs: Collectors, e: Event, f: Event, s: map<Key, multiset<real>>)
    ensures SamplesAfter(cs, e, SamplesAfter(cs, f, s)) == SamplesAfter(cs, f, SamplesAfter(cs, e, s))
  {
    hide EffectOf;
    hide TouchesSamples;
    var k, l, te, tf := KeyOf(e), KeyOf(f), TouchesSamples(cs, e), TouchesSamples(cs, f);
    var a, b := NewSamples(te, EffectOf(cs, e), At(s, k)), NewSamples(tf, EffectOf(cs, f), At(s, l));
    if k != l {
      UpdatedApart(s, k, a, l, b);
      UpdatedApart(s, l, b, k, a);
    } else {
      UpdatedTwice(s, k, a, NewSamples(tf, EffectOf(cs, f), At(Updated(s, k, a), k)));
      UpdatedTwice(s, k, b, NewSamples(te, EffectOf(cs, e), At(Updated(s, k, b), k)));
      SamplesCommuteOnce(te, EffectOf(cs, e), tf, EffectOf(cs, f), At(s, k));
    }
  }

  lemma SamplesCommuteOnce(t: bool, f: Effect, u: bool, g: Effect, was: Option<multiset<real>>)
    ensures NewSamples(t, f, NewSamples(u, g, was)) == NewSamples(u, g, NewSamples(t, f, was))
  {
    if f.Record? && g.Record? {
      var m := if was.Some? then was.value else multiset{};
      assert m + multiset{f.value} + multiset{g.value} == m + multiset{g.value} + multiset{f.value};
    }
  }

  lemma ValuesCommute(cs: Collectors, e: Event, f: Event, values: map<Key, real>, m: map<Key, real>)
    requires !Conflict(cs, e, f)
    ensures ValuesAfter(cs, e, ValuesAfter(cs, f, values, m), MaximaAfter(cs, f, m))
         == ValuesAfter(cs, f, ValuesAfter(cs, e, values, m), MaximaAfter(cs, e, m))
  {
    hide EffectOf;
    hide TouchesValue;
    var k, l, te, tf := KeyOf(e), KeyOf(f), TouchesValue(cs, e), TouchesValue(cs, f);
    var ee, ef := EffectOf(cs, e), EffectOf(cs, f);
    var a := NewValue(te, ee, At(values, k), Rises(ee, At(m, k)));
    var b := NewValue(tf, ef, At(values, l), Rises(ef, At(m, l)));
    if k != l {
      UpdatedApart(values, k, a, l, b);
      UpdatedApart(values, l, b, k, a);
      UpdatedApart(m, k, NewMaximum(ee, At(m, k)), l, None);
      UpdatedApart(m, l, NewMaximum(ef, At(m, l)), k, None);
    } else {
      UpdatedTwice(m, k, NewMaximum(ee, At(m, k)), NewMaximum(ee, At(m, k)));
      UpdatedTwice(m, k, NewMaximum(ef, At(m, k)), NewMaximum(ef, At(m, k)));
      var c := NewValue(tf, ef, At(Updated(values, k, a), k), Rises(ef, At(MaximaAfter(cs, e, m), k)));
      var d := NewValue(te, ee, At(Updated(values, k, b), k), Rises(ee, At(MaximaAfter(cs, f, m), k)));
      UpdatedTwice(values, k, a, c);
      UpdatedTwice(values, k, b, d);
      SameTouch(cs, e, f);
      LiftOrTrip(cs, e, f);
      ValueCommutes(te, ee, ef, At(values, k), At(m, k));
    }
  }

  lemma SameTouch(cs: Collectors, e: Event, f: Event)
    requires KeyOf(e) == KeyOf(f)
    ensures TouchesValue(cs, e) == TouchesValue(cs, f)
  {
  }

  /** Two effects on one value. */
  lemma ValueCommutes(touch: bool, f: Effect, g: Effect, was: Option<real>, m: Option<real>)
    requires !Clash(f, g) && !(f.Lift? && g.Trip?) && !(f.Trip? && g.Lift?)
    ensures NewValue(touch, f, NewValue(touch, g, was, Rises(g, m)), Rises(f, NewMaximum(g, m)))
         == NewValue(touch, g, NewValue(touch, f, was, Rises(f, m)), Rises(g, NewMaximum(f, m)))
  {
  }

  lemma CountedCommute(counts: map<Tag, nat>, s: Tag, t: Tag, a: bool, b: bool)
    ensures Counted(Counted(counts, s, a), t, b) == Counted(Counted(counts, t, b), s, a)
  {
  }

  /** Raising depends on the other event only between two maxima recorded for one series without
      a gauge, and then it does not matter which of the two raises. */
  lemma RaisesCommute(cs: Collectors, e: Event, f: Event, m: map<Key, real>)
    requires !Conflict(cs, e, f)
    ensures (Raises(cs, f, MaximaAfter(cs, e, m)) == Raises(cs, f, m)
             && Raises(cs, e, MaximaAfter(cs, f, m)) == Raises(cs, e, m))
         || (TagOf(e) == TagOf(f) && Raises(cs, e, m) == Raises(cs, f, m)
             && Raises(cs, f, MaximaAfter(cs, e, m)) == Raises(cs, e, MaximaAfter(cs, f, m)))
  {
    TripIsSetMax(cs, e);
    TripIsSetMax(cs, f);
    if KeyOf(e) == KeyOf(f) {
      LiftOrTrip(cs, e, f);
    }
    hide EffectOf;
    var k, l := KeyOf(e), KeyOf(f);
    if k != l {
      UpdatedApart(m, k, NewMaximum(EffectOf(cs, e), At(m, k)), l, None);
      UpdatedApart(m, l, NewMaximum(EffectOf(cs, f), At(m, l)), k, None);
    } else {
      UpdatedTwice(m, k, NewMaximum(EffectOf(cs, e), At(m, k)), NewMaximum(EffectOf(cs, e), At(m, k)));
      UpdatedTwice(m, k, NewMaximum(EffectOf(cs, f), At(m, k)), NewMaximum(EffectOf(cs, f), At(m, k)));
    }
  }

  lemma TripIsSetMax(cs: Collectors, e: Event)
    ensures EffectOf(cs, e).Trip? ==> e.action == SetMax
  {
  }

  /** `set_max` either works or fails on a series. */
  lemma LiftOrTrip(cs: Collectors, e: Event, f: Event)
    requires KeyOf(e) == KeyOf(f)
    ensures !(EffectOf(cs, e).Lift? && EffectOf(cs, f).Trip?) && !(EffectOf(cs, e).Trip? && EffectOf(cs, f).Lift?)
  {
  }

  /** Events that do not conflict commute, whatever the registry. */
  lemma Commute(cs: Collectors, e: Event, f: Event, r: Registry)
    requires !Conflict(cs, e, f)
    ensures Step(cs, e, Step(cs, f, r)) == Step(cs, f, Step(cs, e, r))
  {
    StepByMaps(cs, e, r);
    StepByMaps(cs, f, r);
    StepByMaps(cs, e, Step(cs, f, r));
    StepByMaps(cs, f, Step(cs, e, r));
    MaximaCommute(cs, e, f, r.maxima);
    SamplesCommute(cs, e, f, r.samples);
    ValuesCommute(cs, e, f, r.values, r.maxima);
    RaisesCommute(cs, e, f, r.maxima);
    hide Step;
    hide MaximaAfter;
    hide SamplesAfter;
    hide ValuesAfter;
    hide Raises;
    hide Counted;
    var a, b := Raises(cs, e, r.maxima), Raises(cs, f, r.maxima);
    CountedCommute(r.applied, TagOf(e), TagOf(f), !a, !b);
    CountedCommute(r.errors, TagOf(e), TagOf(f), a, b);
  }

  /** Events that conflict do not commute, already on the empty registry. */
  lemma ConflictShows(cs: Collectors, e: Event, f: Event)
    requires Conflict(cs, e, f)
    ensures var r := Registry(map[], map[], map[], map[], map[]);
            Step(cs, e, Step(cs, f, r)) != Step(cs, f, Step(cs, e, r))
  {
    var r := Registry(map[], map[], map[], map[], map[]);
    StepByMaps(cs, e, r);
    StepByMaps(cs, f, r);
    StepByMaps(cs, e, Step(cs, f, r));
    StepByMaps(cs, f, Step(cs, e, r));
    if EffectOf(cs, e).Trip? {
      TripIsSetMax(cs, e);
      TripIsSetMax(cs, f);
      ErrorsDiffer(cs, e, f);
    } else {
      ValuesDiffer(cs, e, f);
    }
  }

  lemma ErrorsDiffer(cs: Collectors, e: Event, f: Event)
    requires Conflict(cs, e, f) && EffectOf(cs, e).Trip? && TagOf(e) == TagOf(f)
    ensures Counted(Counted(map[], TagOf(f), Raises(cs, f, map[])), TagOf(e), Raises(cs, e, MaximaAfter(cs, f, map[])))
         != Counted(Counted(map[], TagOf(e), Raises(cs, e, map[])), TagOf(f), Raises(cs, f, MaximaAfter(cs, e, map[])))
  {
    hide EffectOf;
    var t := TagOf(e);
    var a := Counted(Counted(map[], t, Raises(cs, f, map[])), t, Raises(cs, e, MaximaAfter(cs, f, map[])));
    var b := Counted(Counted(map[], t, Raises(cs, e, map[])), t, Raises(cs, f, MaximaAfter(cs, e, map[])));
    assert Count(a, t) != Count(b, t);
  }

  lemma ValuesDiffer(cs: Collectors, e: Event, f: Event)
    requires Conflict(cs, e, f) && !EffectOf(cs, e).Trip?
    ensures ValuesAfter(cs, e, ValuesAfter(cs, f, map[], map[]), MaximaAfter(cs, f, map[]))
         != ValuesAfter(cs, f, ValuesAfter(cs, e, map[], map[]), MaximaAfter(cs, e, map[]))
  {
    SameTouch(cs, e, f);
    hide EffectOf;
    hide TouchesValue;
    var k, t := KeyOf(e), TouchesValue(cs, e);
    ValueClashes(t, EffectOf(cs, e), EffectOf(cs, f));
    assert At(ValuesAfter(cs, e, ValuesAfter(cs, f, map[], map[]), MaximaAfter(cs, f, map[])), k)
        != At(ValuesAfter(cs, f, ValuesAfter(cs, e, map[], map[]), MaximaAfter(cs, e, map[])), k);
  }

  lemma ValueClashes(touch: bool, f: Effect, g: Effect)
    requires Clash(f, g) && !f.Trip?
    ensures NewValue(touch, f, NewValue(touch, g, None, Rises(g, None)), Rises(f, NewMaximum(g, None)))
         != NewValue(touch, g, NewValue(touch, f, None, Rises(f, None)), Rises(g, NewMaximum(f, None)))
  {
  }

  lemma CommuteIff(cs: Collectors, e: Event, f: Event)
    ensures (forall r :: Step(cs, e, Step(cs, f, r)) == Step(cs, f, Step(cs, e, r))) <==> !Conflict(cs, e, f)
  {
    if Conflict(cs, e, f) {
      ConflictShows(cs, e, f);
    } else {
      forall r ensures Step(cs, e, Step(cs, f, r)) == Step(cs, f, Step(cs, e, r)) {
        Commute(cs, e, f, r);
      }
    }
  }

  /* ----- any order ----- */

  ghost predicate Calm(cs: Collectors, es: multiset<Event>) {
    forall e, f :: e in es && f in es ==> !Conflict(cs, e, f)
  }

  lemma RunSnoc(cs: Collectors, es: seq<Event>, e: Event, r: Registry)
    ensures Run(cs, es + [e], r) == Step(cs, e, Run(cs, es, r))
  {
    assert (es + [e])[..|es|] == es;
  }

  lemma {:induction false} MoveToEnd(cs: Collectors, es: seq<Event>, e: Event, fs: seq<Event>, r: Registry)
    requires forall f :: f in fs ==> !Conflict(cs, e, f)
    ensures Run(cs, es + [e] + fs, r) == Run(cs, es + fs + [e], r)
  {
    if fs == [] {
      assert es + [e] + fs == es + fs + [e];
    } else {
      var n := |fs| - 1;
      var gs, f := fs[..n], fs[n];
      MoveToEnd(cs, es, e, gs, r);
      assert es + [e] + fs == es + [e] + gs + [f] && es + fs == es + gs + [f];
      RunSnoc(cs, es + [e] + gs, f, r);
      RunSnoc(cs, es + gs, e, r);
      RunSnoc(cs, es + gs, f, r);
      RunSnoc(cs, es + fs, e, r);
      ConflictSymmetric(cs, e, f);
      Commute(cs, f, e, Run(cs, es + gs, r));
    }
  }

  lemma TakeOut(es: seq<Event>, fs: seq<Event>) returns (i: nat)
    requires es != [] && multiset(es) == multiset(fs)
    ensures i < |fs| && fs[i] == es[|es| - 1]
    ensures multiset(es[..|es| - 1]) == multiset(fs[..i] + fs[i + 1..]) <= multiset(es)
    ensures fs == fs[..i] + [fs[i]] + fs[i + 1..]
  {
    var n := |es| - 1;
    assert es == es[..n] + [es[n]];
    assert es[n] in multiset(fs);
    i :| 0 <= i < |fs| && fs[i] == es[n];
    assert fs == fs[..i] + [fs[i]] + fs[i + 1..];
    assert multiset(es[..n]) == multiset(es) - multiset{es[n]} == multiset(fs[..i] + fs[i + 1..]);
  }

  /** Every order of events without conflicts gives the same registry. */
  lemma {:induction false} AnyOrder(cs: Collectors, es: seq<Event>, fs: seq<Event>, r: Registry)
    requires multiset(es) == multiset(fs) && Calm(cs, multiset(es))
    ensures Run(cs, es, r) == Run(cs, fs, r)
    decreases |es|
  {
    if es == [] {
      assert |fs| == |multiset(fs)| == 0;
    } else {
      var i := TakeOut(es, fs);
      var rest, e := es[..|es| - 1], es[|es| - 1];
      hide Conflict;
      forall f | f in fs[i + 1..] ensures !Conflict(cs, e, f) {
        assert f in multiset(fs) && e in multiset(es);
      }
      MoveToEnd(cs, fs[..i], e, fs[i + 1..], r);
      AnyOrder(cs, rest, fs[..i] + fs[i + 1..], r);
      RunSnoc(cs, fs[..i] + fs[i + 1..], e, r);
    }
  }
}
