/** For which collections of metric events every order of arrival gives the same registry. */
module MetricsRuns {
  import opened Metrics
  import opened MetricsOrder
  import opened Results

  /* ----- the effects on one series ----- */

  predicate Adds(cs: Collectors, e: Event, k: Key) {
    KeyOf(e) == k && EffectOf(cs, e).Add? && EffectOf(cs, e).amount != 0.0
  }

  predicate Puts(cs: Collectors, e: Event, k: Key) {
    KeyOf(e) == k && EffectOf(cs, e).Put?
  }

  predicate Lifts(cs: Collectors, e: Event, k: Key) {
    KeyOf(e) == k && EffectOf(cs, e).Lift?
  }

  predicate Trips(cs: Collectors, e: Event, k: Key) {
    KeyOf(e) == k && EffectOf(cs, e).Trip?
  }

  function ValueIn(cs: Collectors, e: Event): real {
    match EffectOf(cs, e)
    case Put(v) => v
    case Lift(v) => v
    case Trip(v) => v
    case _ => 0.0
  }

  /** What is added to a series is neither set nor raised; what is set is set to one value, which is
      also the highest it is raised to, if it is raised; and a maximum recorded without a gauge is
      one value. */
  ghost predicate Decided(cs: Collectors, es: multiset<Event>, k: Key) {
    && (forall e, f :: e in es && f in es && Adds(cs, e, k) ==> !Puts(cs, f, k) && !Lifts(cs, f, k))
    && (forall e, f :: e in es && f in es && Puts(cs, e, k) && Puts(cs, f, k) ==> ValueIn(cs, e) == ValueIn(cs, f))
    && (forall e, f :: e in es && f in es && Puts(cs, e, k) && Lifts(cs, f, k) ==>
          ValueIn(cs, f) <= ValueIn(cs, e) && exists g :: g in es && Lifts(cs, g, k) && ValueIn(cs, g) == ValueIn(cs, e))
    && (forall e, f :: e in es && f in es && Trips(cs, e, k) && Trips(cs, f, k) ==> ValueIn(cs, e) == ValueIn(cs, f))
  }

  /** Every order gives the same registry, wherever it starts. */
  ghost predicate OrderIndependent(cs: Collectors, es: multiset<Event>) {
    forall fs: seq<Event>, gs: seq<Event>, r: Registry :: multiset(fs) == es && multiset(gs) == es ==>
      Run(cs, fs, r) == Run(cs, gs, r)
  }

  /* ----- registries that differ in some values ----- */

  /** Both set and raised. */
  ghost predicate Mixed(cs: Collectors, es: multiset<Event>, k: Key) {
    exists e, f :: e in es && f in es && Puts(cs, e, k) && Lifts(cs, f, k)
  }

  /** The same but for the values of series that are both set and raised. */
  ghost predicate Alike(cs: Collectors, es: multiset<Event>, r: Registry, s: Registry) {
    && r.samples == s.samples && r.maxima == s.maxima && r.applied == s.applied && r.errors == s.errors
    && forall k :: !Mixed(cs, es, k) ==> At(r.values, k) == At(s.values, k)
  }

  lemma ElsewhereSame(cs: Collectors, e: Event, values: map<Key, real>, m: map<Key, real>, k: Key)
    ensures KeyOf(e) != k ==> At(ValuesAfter(cs, e, values, m), k) == At(values, k)
    ensures KeyOf(e) == k ==>
              At(ValuesAfter(cs, e, values, m), k) ==
              var v := NewValue(TouchesValue(cs, e), EffectOf(cs, e), At(values, k), Rises(EffectOf(cs, e), At(m, k)));
              if v.Some? then v else At(values, k)
  {
  }

  lemma StepAlike(cs: Collectors, es: multiset<Event>, e: Event, r: Registry, s: Registry)
    requires Alike(cs, es, r, s)
    ensures Alike(cs, es, Step(cs, e, r), Step(cs, e, s))
  {
    StepByMaps(cs, e, r);
    StepByMaps(cs, e, s);
    hide Step;
    hide Mixed;
    hide ValuesAfter;
    hide NewValue;
    forall k | !Mixed(cs, es, k) ensures At(Step(cs, e, r).values, k) == At(Step(cs, e, s).values, k) {
      ElsewhereSame(cs, e, r.values, r.maxima, k);
      ElsewhereSame(cs, e, s.values, s.maxima, k);
    }
  }

  lemma AlikeSame(cs: Collectors, es: multiset<Event>, r: Registry)
    ensures Alike(cs, es, r, r)
  {
  }

  lemma AlikeTwice(cs: Collectors, es: multiset<Event>, r: Registry, s: Registry, t: Registry)
    requires Alike(cs, es, r, s) && Alike(cs, es, s, t)
    ensures Alike(cs, es, r, t)
  {
  }

  /** A conflict in a decided collection is between setting and raising. */
  lemma ConflictIsMixed(cs: Collectors, es: multiset<Event>, e: Event, f: Event)
    requires e in es && f in es && Decided(cs, es, KeyOf(e)) && Conflict(cs, e, f)
    ensures Mixed(cs, es, KeyOf(e))
    ensures (EffectOf(cs, e).Put? && EffectOf(cs, f).Lift?) || (EffectOf(cs, e).Lift? && EffectOf(cs, f).Put?)
  {
    hide EffectOf;
    var k := KeyOf(e);
    assert Adds(cs, e, k) ==> !Puts(cs, f, k) && !Lifts(cs, f, k);
    assert Adds(cs, f, k) ==> !Puts(cs, e, k) && !Lifts(cs, e, k);
    assert Puts(cs, e, k) && Puts(cs, f, k) ==> ValueIn(cs, e) == ValueIn(cs, f);
    assert Trips(cs, e, k) && Trips(cs, f, k) ==> ValueIn(cs, e) == ValueIn(cs, f);
    if EffectOf(cs, e).Put? {
      assert Puts(cs, e, k) && Lifts(cs, f, k);
    } else {
      assert Puts(cs, f, k) && Lifts(cs, e, k);
    }
  }

  lemma CommuteAlike(cs: Collectors, es: multiset<Event>, e: Event, f: Event, r: Registry)
    requires e in es && f in es && forall k :: Decided(cs, es, k)
    ensures Alike(cs, es, Step(cs, e, Step(cs, f, r)), Step(cs, f, Step(cs, e, r)))
  {
    if !Conflict(cs, e, f) {
      Commute(cs, e, f, r);
      AlikeSame(cs, es, Step(cs, e, Step(cs, f, r)));
    } else {
      ConflictIsMixed(cs, es, e, f);
      SetAndRaise(cs, es, e, f, r);
    }
  }

  lemma SetAndRaise(cs: Collectors, es: multiset<Event>, e: Event, f: Event, r: Registry)
    requires KeyOf(e) == KeyOf(f) && Mixed(cs, es, KeyOf(e))
    requires (EffectOf(cs, e).Put? || EffectOf(cs, e).Lift?) && (EffectOf(cs, f).Put? || EffectOf(cs, f).Lift?)
    ensures Alike(cs, es, Step(cs, e, Step(cs, f, r)), Step(cs, f, Step(cs, e, r)))
  {
    StepByMaps(cs, e, r);
    StepByMaps(cs, f, r);
    StepByMaps(cs, e, Step(cs, f, r));
    StepByMaps(cs, f, Step(cs, e, r));
    MaximaCommute(cs, e, f, r.maxima);
    SamplesCommute(cs, e, f, r.samples);
    CountedCommute(r.applied, TagOf(e), TagOf(f), true, true);
    CountedCommute(r.errors, TagOf(e), TagOf(f), false, false);
    hide Step;
    hide Mixed;
    hide EffectOf;
    hide MaximaAfter;
    hide SamplesAfter;
    hide ValuesAfter;
    hide Counted;
    forall k | !Mixed(cs, es, k)
      ensures At(Step(cs, e, Step(cs, f, r)).values, k) == At(Step(cs, f, Step(cs, e, r)).values, k)
    {
      ElsewhereSame(cs, e, r.values, r.maxima, k);
      ElsewhereSame(cs, f, r.values, r.maxima, k);
      ElsewhereSame(cs, e, Step(cs, f, r).values, Step(cs, f, r).maxima, k);
      ElsewhereSame(cs, f, Step(cs, e, r).values, Step(cs, e, r).maxima, k);
    }
  }

  lemma {:induction false} MoveAlike(cs: Collectors, all: multiset<Event>, es: seq<Event>, e: Event, fs: seq<Event>,
                                     r: Registry)
    requires e in all && (forall f :: f in fs ==> f in all) && forall k :: Decided(cs, all, k)
    ensures Alike(cs, all, Run(cs, es + [e] + fs, r), Run(cs, es + fs + [e], r))
  {
    hide Alike;
    hide Decided;
    hide Step;
    hide Run;
    if fs == [] {
      assert es + [e] + fs == es + [e] == es + fs + [e];
      AlikeSame(cs, all, Run(cs, es + [e], r));
    } else {
      var n := |fs| - 1;
      var gs, f := fs[..n], fs[n];
      MoveAlike(cs, all, es, e, gs, r);
      assert es + [e] + fs == es + [e] + gs + [f] && es + fs == es + gs + [f];
      RunSnoc(cs, es + [e] + gs, f, r);
      RunSnoc(cs, es + gs, e, r);
      RunSnoc(cs, es + gs, f, r);
      RunSnoc(cs, es + fs, e, r);
      StepAlike(cs, all, f, Run(cs, es + [e] + gs, r), Run(cs, es + gs + [e], r));
      CommuteAlike(cs, all, f, e, Run(cs, es + gs, r));
      AlikeTwice(cs, all, Run(cs, es + [e] + fs, r), Step(cs, f, Run(cs, es + gs + [e], r)), Run(cs, es + fs + [e], r));
    }
  }

  lemma {:induction false} OrdersAlike(cs: Collectors, all: multiset<Event>, es: seq<Event>, fs: seq<Event>, r: Registry)
    requires multiset(es) == multiset(fs) && multiset(es) <= all && forall k :: Decided(cs, all, k)
    ensures Alike(cs, all, Run(cs, es, r), Run(cs, fs, r))
    decreases |es|
  {
    if es == [] {
      assert |fs| == |multiset(fs)| == 0;
      AlikeSame(cs, all, r);
    } else {
      var i := TakeOut(es, fs);
      var rest, e := es[..|es| - 1], es[|es| - 1];
      var left := fs[..i] + fs[i + 1..];
      hide Alike;
      hide Decided;
      forall f | f in fs[i + 1..] ensures f in all {
        assert f in multiset(fs);
      }
      assert e in multiset(es);
      MoveAlike(cs, all, fs[..i], e, fs[i + 1..], r);
      OrdersAlike(cs, all, rest, left, r);
      RunSnoc(cs, left, e, r);
      StepAlike(cs, all, e, Run(cs, rest, r), Run(cs, left, r));
      AlikeBack(cs, all, Run(cs, fs, r), Run(cs, left + [e], r));
      AlikeTwice(cs, all, Run(cs, es, r), Run(cs, left + [e], r), Run(cs, fs, r));
    }
  }

  lemma AlikeBack(cs: Collectors, es: multiset<Event>, r: Registry, s: Registry)
    requires Alike(cs, es, r, s)
    ensures Alike(cs, es, s, r)
  {
  }

  /* ----- a series that is set and raised ----- */

  /** Only set to p, raised to at most p, or left alone. */
  ghost predicate Bounded(cs: Collectors, es: seq<Event>, k: Key, p: real) {
    forall e :: e in es && KeyOf(e) == k ==>
      !Adds(cs, e, k) && !Trips(cs, e, k) && (Puts(cs, e, k) ==> ValueIn(cs, e) == p)
      && (Lifts(cs, e, k) ==> ValueIn(cs, e) <= p)
  }

  predicate Reached(m: map<Key, real>, k: Key, p: real) {
    k in m && m[k] >= p
  }

  lemma OneEffect(cs: Collectors, e: Event, k: Key, p: real, r: Registry, put: bool)
    requires KeyOf(e) == k && !Adds(cs, e, k) && !Trips(cs, e, k) && (Puts(cs, e, k) ==> ValueIn(cs, e) == p)
    requires Lifts(cs, e, k) ==> ValueIn(cs, e) <= p
    requires put && Reached(r.maxima, k, p) ==> At(r.values, k) == Some(p)
    ensures var s := Step(cs, e, r);
            && ((put || Puts(cs, e, k)) && Reached(s.maxima, k, p) ==> At(s.values, k) == Some(p))
            && (Reached(r.maxima, k, p) || (Lifts(cs, e, k) && ValueIn(cs, e) == p) ==> Reached(s.maxima, k, p))
  {
    StepByMaps(cs, e, r);
    ElsewhereSame(cs, e, r.values, r.maxima, k);
    hide Step;
    hide EffectOf;
    hide TouchesValue;
  }

  lemma OtherKey(cs: Collectors, e: Event, k: Key, r: Registry)
    requires KeyOf(e) != k
    ensures At(Step(cs, e, r).values, k) == At(r.values, k) && At(Step(cs, e, r).maxima, k) == At(r.maxima, k)
  {
    StepByMaps(cs, e, r);
    hide Step;
    hide EffectOf;
    hide TouchesValue;
  }

  lemma {:induction false} SetWins(cs: Collectors, es: seq<Event>, k: Key, p: real, r: Registry)
    requires Bounded(cs, es, k, p)
    ensures var s := Run(cs, es, r);
            && ((exists e :: e in es && Puts(cs, e, k)) && Reached(s.maxima, k, p) ==> At(s.values, k) == Some(p))
            && ((exists e :: e in es && Lifts(cs, e, k) && ValueIn(cs, e) == p) ==> Reached(s.maxima, k, p))
  {
    if es != [] {
      var n := |es| - 1;
      var front, e := es[..n], es[n];
      SetWins(cs, front, k, p, r);
      assert es == front + [e] && e in es;
      hide Step;
      hide Puts;
      hide Lifts;
      hide Adds;
      hide Trips;
      hide ValueIn;
      if KeyOf(e) == k {
        OneEffect(cs, e, k, p, Run(cs, front, r), exists f :: f in front && Puts(cs, f, k));
      } else {
        OtherKey(cs, e, k, Run(cs, front, r));
        NotHere(cs, e, k);
      }
    }
  }

  lemma NotHere(cs: Collectors, e: Event, k: Key)
    requires KeyOf(e) != k
    ensures !Puts(cs, e, k) && !Lifts(cs, e, k) && !Adds(cs, e, k) && !Trips(cs, e, k)
  {
  }

  lemma MixedIsBounded(cs: Collectors, es: multiset<Event>, fs: seq<Event>, k: Key) returns (p: real)
    requires Decided(cs, es, k) && Mixed(cs, es, k) && multiset(fs) == es
    ensures Bounded(cs, fs, k, p)
    ensures exists e :: e in es && Puts(cs, e, k) && ValueIn(cs, e) == p
    ensures (exists e :: e in fs && Puts(cs, e, k)) && exists e :: e in fs && Lifts(cs, e, k) && ValueIn(cs, e) == p
  {
    var e, f :| e in es && f in es && Puts(cs, e, k) && Lifts(cs, f, k);
    p := ValueIn(cs, e);
    var g :| g in es && Lifts(cs, g, k) && ValueIn(cs, g) == p;
    assert e in multiset(fs) && g in multiset(fs);
    forall x | x in fs && KeyOf(x) == k
      ensures !Adds(cs, x, k) && !Trips(cs, x, k) && (Puts(cs, x, k) ==> ValueIn(cs, x) == p)
           && (Lifts(cs, x, k) ==> ValueIn(cs, x) <= p)
    {
      assert x in multiset(fs);
      LiftOrTrip(cs, f, x);
      hide ValueIn;
    }
  }

  lemma MixedSame(cs: Collectors, es: multiset<Event>, fs: seq<Event>, gs: seq<Event>, r: Registry, k: Key)
    requires Decided(cs, es, k) && Mixed(cs, es, k) && multiset(fs) == es && multiset(gs) == es
    ensures At(Run(cs, fs, r).values, k) == At(Run(cs, gs, r).values, k)
  {
    var p := MixedIsBounded(cs, es, fs, k);
    var q := MixedIsBounded(cs, es, gs, k);
    hide Puts;
    hide Lifts;
    hide ValueIn;
    assert p == q;
    SetWins(cs, fs, k, p, r);
    SetWins(cs, gs, k, q, r);
  }

  lemma SameMaps(a: map<Key, real>, b: map<Key, real>)
    requires forall k :: At(a, k) == At(b, k)
    ensures a == b
  {
    forall k | k in a ensures k in b && a[k] == b[k] {
      assert At(a, k) == At(b, k);
    }
    forall k | k in b ensures k in a {
      assert At(a, k) == At(b, k);
    }
  }

  lemma DecidedIsIndependent(cs: Collectors, es: multiset<Event>, fs: seq<Event>, gs: seq<Event>, r: Registry)
    requires (forall k :: Decided(cs, es, k)) && multiset(fs) == es && multiset(gs) == es
    ensures Run(cs, fs, r) == Run(cs, gs, r)
  {
    OrdersAlike(cs, es, fs, gs, r);
    var s, t := Run(cs, fs, r), Run(cs, gs, r);
    hide Decided;
    hide Run;
    hide Mixed;
    forall k ensures At(s.values, k) == At(t.values, k) {
      if Mixed(cs, es, k) {
        MixedSame(cs, es, fs, gs, r, k);
      }
    }
    SameMaps(s.values, t.values);
  }

  /* ----- two orders that differ ----- */

  lemma {:induction false} Listed(es: multiset<Event>) returns (s: seq<Event>)
    ensures multiset(s) == es
    decreases |es|
  {
    if es == multiset{} {
      s := [];
    } else {
      var e :| e in es;
      s := Listed(es - multiset{e});
      s := s + [e];
    }
  }

  /** Two events and the others. */
  lemma TwoOf(es: multiset<Event>, e: Event, f: Event) returns (s: seq<Event>)
    requires e in es && f in es && e != f
    ensures multiset(s) + multiset{e} + multiset{f} == es
  {
    s := Listed(es - multiset{e} - multiset{f});
  }

  lemma TwoOrders(s: seq<Event>, e: Event, f: Event)
    ensures multiset(s + [e] + [f]) == multiset(s) + multiset{e} + multiset{f} == multiset(s + [f] + [e])
  {
  }

  lemma Differ(cs: Collectors, es: multiset<Event>, fs: seq<Event>, gs: seq<Event>, r: Registry)
    requires multiset(fs) == es && multiset(gs) == es && Run(cs, fs, r) != Run(cs, gs, r)
    ensures !OrderIndependent(cs, es)
  {
  }

  const EMPTY := Registry(map[], map[], map[], map[], map[])

  /** What is set last decides. */
  lemma LastTwoDiffer(cs: Collectors, es: multiset<Event>, e: Event, f: Event, k: Key)
    requires e in es && f in es && Puts(cs, f, k)
    requires Adds(cs, e, k) || (Puts(cs, e, k) && ValueIn(cs, e) != ValueIn(cs, f))
    ensures !OrderIndependent(cs, es)
  {
    var s := TwoOf(es, e, f);
    TwoOrders(s, e, f);
    var r := Run(cs, s, EMPTY);
    hide Run;
    hide Step;
    hide Adds;
    hide Puts;
    hide ValueIn;
    RunSnoc(cs, s, e, EMPTY);
    RunSnoc(cs, s + [e], f, EMPTY);
    RunSnoc(cs, s, f, EMPTY);
    RunSnoc(cs, s + [f], e, EMPTY);
    PutDecides(cs, e, f, k, r);
    Differ(cs, es, s + [e] + [f], s + [f] + [e], EMPTY);
  }

  lemma PutDecides(cs: Collectors, e: Event, f: Event, k: Key, r: Registry)
    requires Puts(cs, f, k) && (Adds(cs, e, k) || (Puts(cs, e, k) && ValueIn(cs, e) != ValueIn(cs, f)))
    ensures Step(cs, f, Step(cs, e, r)).values != Step(cs, e, Step(cs, f, r)).values
  {
    StepByMaps(cs, e, r);
    StepByMaps(cs, f, r);
    StepByMaps(cs, f, Step(cs, e, r));
    StepByMaps(cs, e, Step(cs, f, r));
    ElsewhereSame(cs, f, r.values, r.maxima, k);
    ElsewhereSame(cs, f, Step(cs, e, r).values, Step(cs, e, r).maxima, k);
    ElsewhereSame(cs, e, Step(cs, f, r).values, Step(cs, f, r).maxima, k);
    hide Step;
    hide EffectOf;
    hide TouchesValue;
    hide ValuesAfter;
    assert At(Step(cs, f, Step(cs, e, r)).values, k) != At(Step(cs, e, Step(cs, f, r)).values, k);
  }

  /** Nothing in it sets the series or raises it above w. */
  ghost predicate Below(cs: Collectors, es: seq<Event>, k: Key, w: real) {
    forall e :: e in es ==> !Puts(cs, e, k) && (Lifts(cs, e, k) ==> ValueIn(cs, e) <= w)
  }

  /** From a value at its maximum only additions change it. */
  lemma {:induction false} GapStays(cs: Collectors, es: seq<Event>, k: Key, w: real, r: Registry, s: Registry)
    requires Below(cs, es, k, w) && Reached(r.maxima, k, w) && Reached(s.maxima, k, w)
    requires k in r.values && k in s.values && r.values[k] != s.values[k]
    ensures var a, b := Run(cs, es, r), Run(cs, es, s);
            && Reached(a.maxima, k, w) && Reached(b.maxima, k, w)
            && k in a.values && k in b.values && a.values[k] - b.values[k] == r.values[k] - s.values[k]
  {
    if es != [] {
      var n := |es| - 1;
      var e := es[n];
      GapStays(cs, es[..n], k, w, r, s);
      assert e in es;
      hide Step;
      if KeyOf(e) != k {
        OtherKey(cs, e, k, Run(cs, es[..n], r));
        OtherKey(cs, e, k, Run(cs, es[..n], s));
      } else {
        GapStep(cs, e, k, w, Run(cs, es[..n], r), Run(cs, es[..n], s));
      }
    }
  }

  lemma GapStep(cs: Collectors, e: Event, k: Key, w: real, r: Registry, s: Registry)
    requires KeyOf(e) == k && !Puts(cs, e, k) && (Lifts(cs, e, k) ==> ValueIn(cs, e) <= w)
    requires Reached(r.maxima, k, w) && Reached(s.maxima, k, w) && k in r.values && k in s.values
    ensures var a, b := Step(cs, e, r), Step(cs, e, s);
            && Reached(a.maxima, k, w) && Reached(b.maxima, k, w)
            && k in a.values && k in b.values && a.values[k] - b.values[k] == r.values[k] - s.values[k]
  {
    StepByMaps(cs, e, r);
    StepByMaps(cs, e, s);
    ElsewhereSame(cs, e, r.values, r.maxima, k);
    ElsewhereSame(cs, e, s.values, s.maxima, k);
    hide Step;
    hide EffectOf;
    hide TouchesValue;
  }

  lemma {:induction false} HighestLift(cs: Collectors, es: seq<Event>, k: Key) returns (f: Event)
    requires exists e :: e in es && Lifts(cs, e, k)
    ensures f in es && Lifts(cs, f, k) && forall e :: e in es && Lifts(cs, e, k) ==> ValueIn(cs, e) <= ValueIn(cs, f)
  {
    hide Lifts;
    hide ValueIn;
    var n := |es| - 1;
    assert es == es[..n] + [es[n]];
    if exists e :: e in es[..n] && Lifts(cs, e, k) {
      f := HighestLift(cs, es[..n], k);
      if Lifts(cs, es[n], k) && ValueIn(cs, es[n]) > ValueIn(cs, f) {
        f := es[n];
      }
    } else {
      f := es[n];
    }
  }

  /** An amount is added before or after the series is raised. */
  lemma AddOrRaise(cs: Collectors, es: multiset<Event>, e: Event, k: Key)
    requires e in es && Adds(cs, e, k) && (exists f :: f in es && Lifts(cs, f, k))
    requires forall f :: f in es ==> !Puts(cs, f, k)
    ensures !OrderIndependent(cs, es)
  {
    var all := Listed(es);
    assert forall x :: x in all <==> x in es by {
      assert forall x :: x in all <==> x in multiset(all);
    }
    var f := HighestLift(cs, all, k);
    var s := TwoOf(es, e, f);
    forall x | x in s ensures x in es {
      assert x in multiset(s);
    }
    assert Below(cs, s, k, ValueIn(cs, f));
    var a, b := Step(cs, f, Step(cs, e, EMPTY)), Step(cs, e, Step(cs, f, EMPTY));
    RaiseFirst(cs, e, f, k);
    hide Step;
    hide Adds;
    hide Lifts;
    hide ValueIn;
    GapStays(cs, s, k, ValueIn(cs, f), a, b);
    RunTwoFirst(cs, e, f, s);
    RunTwoFirst(cs, f, e, s);
    Differ(cs, es, [e, f] + s, [f, e] + s, EMPTY);
  }

  lemma RaiseFirst(cs: Collectors, e: Event, f: Event, k: Key)
    requires Adds(cs, e, k) && Lifts(cs, f, k)
    ensures var a, b, w := Step(cs, f, Step(cs, e, EMPTY)), Step(cs, e, Step(cs, f, EMPTY)), ValueIn(cs, f);
            && Reached(a.maxima, k, w) && Reached(b.maxima, k, w)
            && k in a.values && k in b.values && a.values[k] != b.values[k]
  {
    var r := EMPTY;
    StepByMaps(cs, e, r);
    StepByMaps(cs, f, r);
    StepByMaps(cs, f, Step(cs, e, r));
    StepByMaps(cs, e, Step(cs, f, r));
    ElsewhereSame(cs, e, r.values, r.maxima, k);
    ElsewhereSame(cs, f, r.values, r.maxima, k);
    ElsewhereSame(cs, f, Step(cs, e, r).values, Step(cs, e, r).maxima, k);
    ElsewhereSame(cs, e, Step(cs, f, r).values, Step(cs, f, r).maxima, k);
    hide Step;
    hide EffectOf;
    hide TouchesValue;
    hide ValuesAfter;
  }

  lemma {:induction false} RunConcat(cs: Collectors, a: seq<Event>, b: seq<Event>, r: Registry)
    ensures Run(cs, a + b, r) == Run(cs, b, Run(cs, a, r))
  {
    if b == [] {
      assert a + b == a;
    } else {
      var n := |b| - 1;
      RunConcat(cs, a, b[..n], r);
      assert a + b == a + b[..n] + [b[n]];
      RunSnoc(cs, a + b[..n], b[n], r);
    }
  }

  lemma RunTwoFirst(cs: Collectors, e: Event, f: Event, s: seq<Event>)
    ensures Run(cs, [e, f] + s, EMPTY) == Run(cs, s, Step(cs, f, Step(cs, e, EMPTY)))
    ensures multiset([e, f] + s) == multiset(s) + multiset{e} + multiset{f}
  {
    RunConcat(cs, [e, f], s, EMPTY);
    assert [e, f] == [] + [e] + [f];
    RunSnoc(cs, [] + [e], f, EMPTY);
    RunSnoc(cs, [], e, EMPTY);
  }

  /* ----- two maxima without a gauge ----- */

  /** The same maxima, and one more error in one of the two. */
  lemma {:induction false} ErrorStays(cs: Collectors, es: seq<Event>, t: Tag, r: Registry, s: Registry)
    requires r.maxima == s.maxima
    ensures var a, b := Run(cs, es, r), Run(cs, es, s);
            && a.maxima == b.maxima
            && Count(a.errors, t) - Count(b.errors, t) == Count(r.errors, t) - Count(s.errors, t)
  {
    if es != [] {
      var n := |es| - 1;
      ErrorStays(cs, es[..n], t, r, s);
      StepByMaps(cs, es[n], Run(cs, es[..n], r));
      StepByMaps(cs, es[n], Run(cs, es[..n], s));
      hide Step;
      hide Raises;
      hide MaximaAfter;
      hide ValuesAfter;
      hide SamplesAfter;
    }
  }

  lemma MaximaOfTwo(cs: Collectors, e: Event, f: Event)
    requires Trips(cs, e, KeyOf(e)) && Trips(cs, f, KeyOf(e)) && ValueIn(cs, e) != ValueIn(cs, f)
    ensures var a, b := Step(cs, f, Step(cs, e, EMPTY)), Step(cs, e, Step(cs, f, EMPTY));
            a.maxima == b.maxima && Count(a.errors, TagOf(e)) != Count(b.errors, TagOf(e))
  {
    var r := EMPTY;
    TripIsSetMax(cs, e);
    TripIsSetMax(cs, f);
    StepByMaps(cs, e, r);
    StepByMaps(cs, f, r);
    StepByMaps(cs, f, Step(cs, e, r));
    StepByMaps(cs, e, Step(cs, f, r));
    MaximaCommute(cs, e, f, r.maxima);
    hide Step;
    hide EffectOf;
    hide ValuesAfter;
    hide SamplesAfter;
  }

  lemma TripsDiffer(cs: Collectors, es: multiset<Event>, e: Event, f: Event, k: Key)
    requires e in es && f in es && Trips(cs, e, k) && Trips(cs, f, k) && ValueIn(cs, e) != ValueIn(cs, f)
    ensures !OrderIndependent(cs, es)
  {
    var s := TwoOf(es, e, f);
    MaximaOfTwo(cs, e, f);
    ErrorStays(cs, s, TagOf(e), Step(cs, f, Step(cs, e, EMPTY)), Step(cs, e, Step(cs, f, EMPTY)));
    RunTwoFirst(cs, e, f, s);
    RunTwoFirst(cs, f, e, s);
    Differ(cs, es, [e, f] + s, [f, e] + s, EMPTY);
  }

  /* ----- set to one value, raised to another ----- */

  function Sets(cs: Collectors, es: seq<Event>, k: Key): seq<Event> {
    if es == [] then [] else
      Sets(cs, es[..|es| - 1], k) + (if Puts(cs, es[|es| - 1], k) then [es[|es| - 1]] else [])
  }

  function Others(cs: Collectors, es: seq<Event>, k: Key): seq<Event> {
    if es == [] then [] else
      Others(cs, es[..|es| - 1], k) + (if Puts(cs, es[|es| - 1], k) then [] else [es[|es| - 1]])
  }

  lemma {:induction false} Parted(cs: Collectors, es: seq<Event>, k: Key)
    ensures multiset(Sets(cs, es, k)) + multiset(Others(cs, es, k)) == multiset(es)
    ensures forall e :: (e in Sets(cs, es, k) <==> e in es && Puts(cs, e, k))
                        && (e in Others(cs, es, k) <==> e in es && !Puts(cs, e, k))
  {
    hide Puts;
    if es != [] {
      var n := |es| - 1;
      Parted(cs, es[..n], k);
      assert es == es[..n] + [es[n]];
    }
  }

  /** Setting a series records no maximum for it. */
  lemma {:induction false} SetsKeepMaxima(cs: Collectors, es: seq<Event>, k: Key)
    requires forall e :: e in es ==> Puts(cs, e, k)
    ensures k !in Run(cs, es, EMPTY).maxima
  {
    if es != [] {
      var n := |es| - 1;
      SetsKeepMaxima(cs, es[..n], k);
      assert es[n] in es;
      StepByMaps(cs, es[n], Run(cs, es[..n], EMPTY));
      hide Step;
      hide ValuesAfter;
      hide SamplesAfter;
    }
  }

  /** Raised to at most w and never set or added to: once raised to w, the series stays there. */
  lemma {:induction false} RaiseWins(cs: Collectors, es: seq<Event>, k: Key, w: real, r: Registry)
    requires Below(cs, es, k, w) && k !in r.maxima
    requires forall e :: e in es ==> !Adds(cs, e, k) && !Trips(cs, e, k)
    ensures var s := Run(cs, es, r);
            && (k in s.maxima ==> s.maxima[k] <= w) && (Reached(s.maxima, k, w) ==> At(s.values, k) == Some(w))
            && ((exists e :: e in es && Lifts(cs, e, k) && ValueIn(cs, e) == w) ==> Reached(s.maxima, k, w))
  {
    if es != [] {
      var n := |es| - 1;
      var front, e := es[..n], es[n];
      RaiseWins(cs, front, k, w, r);
      assert es == front + [e] && e in es;
      hide Step;
      if KeyOf(e) == k {
        RaiseStep(cs, e, k, w, Run(cs, front, r));
      } else {
        OtherKey(cs, e, k, Run(cs, front, r));
        NotHere(cs, e, k);
      }
      hide Puts;
      hide Lifts;
      hide Adds;
      hide Trips;
      hide ValueIn;
    }
  }

  lemma RaiseStep(cs: Collectors, e: Event, k: Key, w: real, r: Registry)
    requires KeyOf(e) == k && !Puts(cs, e, k) && !Adds(cs, e, k) && !Trips(cs, e, k)
    requires Lifts(cs, e, k) ==> ValueIn(cs, e) <= w
    requires (k in r.maxima ==> r.maxima[k] <= w) && (Reached(r.maxima, k, w) ==> At(r.values, k) == Some(w))
    ensures var s := Step(cs, e, r);
            && (k in s.maxima ==> s.maxima[k] <= w) && (Reached(s.maxima, k, w) ==> At(s.values, k) == Some(w))
            && (Reached(r.maxima, k, w) || (Lifts(cs, e, k) && ValueIn(cs, e) == w) ==> Reached(s.maxima, k, w))
  {
    StepByMaps(cs, e, r);
    ElsewhereSame(cs, e, r.values, r.maxima, k);
    hide Step;
    hide EffectOf;
    hide TouchesValue;
  }

  lemma LastSetWins(cs: Collectors, es: seq<Event>, e: Event, k: Key, r: Registry)
    requires Puts(cs, e, k)
    ensures At(Run(cs, es + [e], r).values, k) == Some(ValueIn(cs, e))
  {
    RunSnoc(cs, es, e, r);
    StepByMaps(cs, e, Run(cs, es, r));
    ElsewhereSame(cs, e, Run(cs, es, r).values, Run(cs, es, r).maxima, k);
    hide Step;
    hide Run;
  }

  /** First everything that sets the series, then all else: it ends at the highest value it is
      raised to. */
  lemma RaisedLast(cs: Collectors, all: seq<Event>, f: Event, k: Key) returns (order: seq<Event>)
    requires f in all && Lifts(cs, f, k)
    requires forall x :: x in all ==> !Adds(cs, x, k) && (Lifts(cs, x, k) ==> ValueIn(cs, x) <= ValueIn(cs, f))
    ensures multiset(order) == multiset(all) && At(Run(cs, order, EMPTY).values, k) == Some(ValueIn(cs, f))
  {
    Parted(cs, all, k);
    var sets, others := Sets(cs, all, k), Others(cs, all, k);
    forall x | x in others ensures !Trips(cs, x, k) && x in all && !Puts(cs, x, k) {
      if KeyOf(x) == k {
        LiftOrTrip(cs, f, x);
      }
    }
    NotBoth(cs, f, k);
    hide Run;
    hide Sets;
    hide Others;
    hide Puts;
    hide Lifts;
    hide Adds;
    hide Trips;
    hide ValueIn;
    SetsKeepMaxima(cs, sets, k);
    RaiseWins(cs, others, k, ValueIn(cs, f), Run(cs, sets, EMPTY));
    RunConcat(cs, sets, others, EMPTY);
    order := sets + others;
  }

  lemma SetOrRaise(cs: Collectors, es: multiset<Event>, e: Event, f: Event, k: Key)
    requires e in es && Puts(cs, e, k) && f in es && Lifts(cs, f, k) && ValueIn(cs, e) != ValueIn(cs, f)
    requires forall x :: x in es ==> !Adds(cs, x, k) && (Lifts(cs, x, k) ==> ValueIn(cs, x) <= ValueIn(cs, f))
    ensures !OrderIndependent(cs, es)
  {
    var all := Listed(es);
    assert forall x :: x in all <==> x in multiset(all);
    var rest := Listed(es - multiset{e});
    hide Run;
    hide Puts;
    hide Lifts;
    hide Adds;
    hide ValueIn;
    var order := RaisedLast(cs, all, f, k);
    LastSetWins(cs, rest, e, k, EMPTY);
    Differ(cs, es, rest + [e], order, EMPTY);
  }

  lemma NotBoth(cs: Collectors, e: Event, k: Key)
    ensures !(Puts(cs, e, k) && Lifts(cs, e, k))
  {
  }

  /* ----- exactly when ----- */

  lemma UndecidedDiffers(cs: Collectors, es: multiset<Event>, k: Key)
    requires !Decided(cs, es, k)
    ensures !OrderIndependent(cs, es)
  {
    hide Puts;
    hide Adds;
    hide Lifts;
    hide Trips;
    hide ValueIn;
    hide OrderIndependent;
    if e, f :| e in es && f in es && Adds(cs, e, k) && Puts(cs, f, k) {
      LastTwoDiffer(cs, es, e, f, k);
    } else if e, f :| e in es && f in es && Puts(cs, e, k) && Puts(cs, f, k) && ValueIn(cs, e) != ValueIn(cs, f) {
      LastTwoDiffer(cs, es, e, f, k);
    } else if e, f :| e in es && f in es && Trips(cs, e, k) && Trips(cs, f, k) && ValueIn(cs, e) != ValueIn(cs, f) {
      TripsDiffer(cs, es, e, f, k);
    } else if e, f :| e in es && f in es && Adds(cs, e, k) && Lifts(cs, f, k) {
      AddOrRaise(cs, es, e, k);
    } else {
      var e, f :| e in es && f in es && Puts(cs, e, k) && Lifts(cs, f, k)
                  && !(ValueIn(cs, f) <= ValueIn(cs, e)
                       && exists g :: g in es && Lifts(cs, g, k) && ValueIn(cs, g) == ValueIn(cs, e));
      var all := Listed(es);
      assert forall x :: x in all <==> x in multiset(all);
      var g := HighestLift(cs, all, k);
      SetOrRaise(cs, es, e, g, k);
    }
  }

  /** Every order of a collection of events gives the same registry, from every start, if and only if
      each series is decided. */
  lemma OrderIndependentIff(cs: Collectors, es: multiset<Event>)
    ensures OrderIndependent(cs, es) <==> forall k :: Decided(cs, es, k)
  {
    if forall k :: Decided(cs, es, k) {
      forall fs: seq<Event>, gs: seq<Event>, r: Registry | multiset(fs) == es && multiset(gs) == es
        ensures Run(cs, fs, r) == Run(cs, gs, r)
      {
        DecidedIsIndependent(cs, es, fs, gs, r);
      }
    } else {
      var k :| !Decided(cs, es, k);
      UndecidedDiffers(cs, es, k);
    }
  }
}
