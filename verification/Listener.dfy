/** Workers, the bounded metric queue, the listener thread and `stop`, as a step system. */
module Listener {
  import opened Metrics
  import opened MetricsSums

  /** `_listen`: about to test the stop flag, in `get`, between `get` and `_apply`, or returned. */
  datatype Thread = Unstarted | Checking | Getting | Holding(event: Event) | Ended

  /** `stop`: not called yet, joining the thread, draining, between `get_nowait` and `_apply`, or
      returned. */
  datatype Stopper = Running | Joining | Draining | Carrying(event: Event) | Stopped

  /** The last five fields are history: events sent, put in the queue, dropped and passed to
      `_apply`, each in order, and how many were queued since `stop` saw the queue empty. */
  datatype System = System(queue: seq<Event>, thread: Thread, stopper: Stopper, stopping: bool, registry: Registry,
                           sent: seq<Event>, accepted: seq<Event>, dropped: seq<Event>, done: seq<Event>, late: nat)

  /** A worker sends an event, which the queue takes or not; or a thread takes its next step. */
  datatype Action = Send(event: Event, taken: bool) | Start | Check | Get | TimeOut | Apply
                  | Stop | Join | DrainGet | DrainEmpty | DrainApply

  predicate Enabled(capacity: nat, s: System, a: Action) {
    match a
    case Send(_, taken) => taken ==> |s.queue| < capacity
    case Start => s.thread.Unstarted? && s.stopper.Running?
    case Check => s.thread.Checking?
    case Get => s.thread.Getting? && s.queue != []
    case TimeOut => s.thread.Getting?
    case Apply => s.thread.Holding?
    case Stop => s.stopper.Running?
    case Join => s.stopper.Joining? && (s.thread.Ended? || s.thread.Unstarted?)
    case DrainGet => s.stopper.Draining? && s.queue != []
    case DrainEmpty => s.stopper.Draining? && s.queue == []
    case DrainApply => s.stopper.Carrying?
  }

  function Applying(cs: Collectors, s: System, e: Event): System {
    s.(registry := Step(cs, e, s.registry), done := s.done + [e])
  }

  function Do(cs: Collectors, capacity: nat, s: System, a: Action): System
    requires Enabled(capacity, s, a)
  {
    match a
    case Send(e, true) =>
      s.(queue := s.queue + [e], sent := s.sent + [e], accepted := s.accepted + [e],
         late := if s.stopper.Stopped? then s.late + 1 else s.late)
    case Send(e, false) => s.(sent := s.sent + [e], dropped := s.dropped + [e])
    case Start => s.(thread := Checking)
    case Check => s.(thread := if s.stopping then Ended else Getting)
    case Get => s.(thread := Holding(s.queue[0]), queue := s.queue[1..])
    case TimeOut => s.(thread := Checking)
    case Apply => Applying(cs, s, s.thread.event).(thread := Checking)
    case Stop => s.(stopper := Joining, stopping := true)
    case Join => s.(stopper := Draining)
    case DrainGet => s.(stopper := Carrying(s.queue[0]), queue := s.queue[1..])
    case DrainEmpty => s.(stopper := Stopped)
    case DrainApply => Applying(cs, s, s.stopper.event).(stopper := Draining)
  }

  function Initially(r: Registry): System {
    System([], Unstarted, Running, false, r, [], [], [], [], 0)
  }

  ghost predicate Legal(cs: Collectors, capacity: nat, s: System, actions: seq<Action>)
    decreases actions, 0
  {
    actions == [] ||
    (Legal(cs, capacity, s, actions[..|actions| - 1])
     && Enabled(capacity, After(cs, capacity, s, actions[..|actions| - 1]), actions[|actions| - 1]))
  }

  /** The state after a run. */
  ghost function After(cs: Collectors, capacity: nat, s: System, actions: seq<Action>): System
    requires Legal(cs, capacity, s, actions)
    decreases actions, 1
  {
    if actions == [] then s else
      Do(cs, capacity, After(cs, capacity, s, actions[..|actions| - 1]), actions[|actions| - 1])
  }

  /** The event a thread has taken from the queue and not applied yet. */
  function Held(s: System): seq<Event> {
    if s.thread.Holding? then [s.thread.event] else if s.stopper.Carrying? then [s.stopper.event] else []
  }

  ghost predicate Invariant(cs: Collectors, capacity: nat, r: Registry, s: System) {
    && |s.queue| <= capacity
    && s.accepted == s.done + Held(s) + s.queue
    && s.registry == Run(cs, s.done, r)
    && (s.stopping <==> !s.stopper.Running?)
    && (s.stopper.Draining? || s.stopper.Carrying? || s.stopper.Stopped? ==> s.thread.Ended? || s.thread.Unstarted?)
    && (s.stopper.Stopped? ==> |s.queue| == s.late)
    && (!s.stopper.Stopped? ==> s.late == 0)
    && (forall t :: Tagged(s.sent, t) == Tagged(s.accepted, t) + Tagged(s.dropped, t))
  }

  lemma TaggedSnoc(es: seq<Event>, e: Event, t: Tag)
    ensures Tagged(es + [e], t) == Tagged(es, t) + (if TagOf(e) == t then 1 else 0)
  {
    assert (es + [e])[..|es|] == es;
  }

  lemma {:induction false} TaggedConcat(a: seq<Event>, b: seq<Event>, t: Tag)
    ensures Tagged(a + b, t) == Tagged(a, t) + Tagged(b, t)
  {
    if b == [] {
      assert a + b == a;
    } else {
      var n := |b| - 1;
      assert a + b == a + b[..n] + [b[n]];
      TaggedConcat(a, b[..n], t);
      TaggedSnoc(a + b[..n], b[n], t);
    }
  }

  lemma RunSnoc(cs: Collectors, es: seq<Event>, e: Event, r: Registry)
    ensures Run(cs, es + [e], r) == Step(cs, e, Run(cs, es, r))
  {
    assert (es + [e])[..|es|] == es;
  }

  lemma Shift(done: seq<Event>, e: Event, queue: seq<Event>)
    requires queue != [] && queue[0] == e
    ensures done + [] + queue == done + [e] + queue[1..]
  {
  }

  lemma Finish(done: seq<Event>, e: Event, queue: seq<Event>)
    ensures done + [e] + queue == (done + [e]) + [] + queue
  {
  }

  lemma Grow(done: seq<Event>, held: seq<Event>, queue: seq<Event>, e: Event)
    ensures done + held + queue + [e] == done + held + (queue + [e])
  {
  }

  /** Every step keeps the invariant. */
  lemma StepKeeps(cs: Collectors, capacity: nat, r: Registry, s: System, a: Action)
    requires Invariant(cs, capacity, r, s) && Enabled(capacity, s, a)
    ensures Invariant(cs, capacity, r, Do(cs, capacity, s, a))
  {
    match a
    case Send(e, taken) =>
      forall t ensures Tagged(s.sent + [e], t) == Tagged(s.sent, t) + (if TagOf(e) == t then 1 else 0)
                    && Tagged(s.accepted + [e], t) == Tagged(s.accepted, t) + (if TagOf(e) == t then 1 else 0)
                    && Tagged(s.dropped + [e], t) == Tagged(s.dropped, t) + (if TagOf(e) == t then 1 else 0) {
        TaggedSnoc(s.sent, e, t);
        TaggedSnoc(s.accepted, e, t);
        TaggedSnoc(s.dropped, e, t);
      }
      Grow(s.done, Held(s), s.queue, e);
    case Get => Shift(s.done, s.queue[0], s.queue);
    case DrainGet => Shift(s.done, s.queue[0], s.queue);
    case Apply =>
      RunSnoc(cs, s.done, s.thread.event, r);
      Finish(s.done, s.thread.event, s.queue);
    case DrainApply =>
      RunSnoc(cs, s.done, s.stopper.event, r);
      Finish(s.done, s.stopper.event, s.queue);
    case _ =>
  }

  /** It holds in every reachable state. */
  lemma {:induction false} AlwaysInvariant(cs: Collectors, capacity: nat, r: Registry, actions: seq<Action>)
    requires Legal(cs, capacity, Initially(r), actions)
    ensures Invariant(cs, capacity, r, After(cs, capacity, Initially(r), actions))
  {
    if actions == [] {
      assert Initially(r).done + Held(Initially(r)) + Initially(r).queue == [];
    } else {
      var n := |actions| - 1;
      AlwaysInvariant(cs, capacity, r, actions[..n]);
      StepKeeps(cs, capacity, r, After(cs, capacity, Initially(r), actions[..n]), actions[n]);
    }
  }

  /** What the invariant says of the events of one tag. */
  lemma InvariantCounts(cs: Collectors, capacity: nat, r: Registry, s: System, t: Tag)
    requires Invariant(cs, capacity, r, s)
    ensures Tagged(s.sent, t) == Tagged(s.accepted, t) + Tagged(s.dropped, t)
    ensures s.accepted == s.done + Held(s) + s.queue && s.done <= s.accepted
    ensures s.registry == Run(cs, s.done, r) && |s.queue| <= capacity
  {
    hide Tagged;
    hide Run;
    assert s.accepted == s.done + (Held(s) + s.queue);
  }

  lemma HeldIsShort(s: System)
    ensures |Held(s)| <= 1
  {
  }

  /** In every reachable state, for every collector and action: events sent = applied + raised
      + dropped + queued + held, and at most one is held. Events are applied in queue order. */
  lemma Conservation(cs: Collectors, capacity: nat, r: Registry, actions: seq<Action>, t: Tag)
    requires Legal(cs, capacity, Initially(r), actions)
    ensures var s := After(cs, capacity, Initially(r), actions);
            && Tagged(s.sent, t) ==
               (Count(s.registry.applied, t) - Count(r.applied, t)) + (Count(s.registry.errors, t) - Count(r.errors, t))
               + Tagged(s.dropped, t) + Tagged(s.queue, t) + Tagged(Held(s), t)
            && |Held(s)| <= 1 && |s.queue| <= capacity && s.done <= s.accepted
  {
    AlwaysInvariant(cs, capacity, r, actions);
    hide *;
    var s := After(cs, capacity, Initially(r), actions);
    InvariantCounts(cs, capacity, r, s, t);
    HeldIsShort(s);
    EveryEventCounted(cs, s.done, r, t);
    TaggedConcat(s.done + Held(s), s.queue, t);
    TaggedConcat(s.done, Held(s), t);
  }

  /** Once `stop` has returned nothing is held, what is queued was sent since, and the registry is
      that of all other events the queue took. */
  lemma StoppedIsDrained(cs: Collectors, capacity: nat, r: Registry, actions: seq<Action>)
    requires Legal(cs, capacity, Initially(r), actions)
    requires After(cs, capacity, Initially(r), actions).stopper.Stopped?
    ensures var s := After(cs, capacity, Initially(r), actions);
            && Held(s) == [] && |s.queue| == s.late
            && (s.late == 0 ==> s.queue == [] && s.done == s.accepted && s.registry == Run(cs, s.accepted, r))
  {
    AlwaysInvariant(cs, capacity, r, actions);
    var s := After(cs, capacity, Initially(r), actions);
    assert s.done + [] == s.done;
  }

  /** Two runs that stop with producers quiet and in which the queue took the same well-typed
      events, in any interleaving, leave the same registry; none of the events raised. */
  lemma RegistryOfRun(cs: Collectors, capacity: nat, r: Registry, a: seq<Action>, b: seq<Action>)
    requires Legal(cs, capacity, Initially(r), a) && Legal(cs, capacity, Initially(r), b)
    requires var s, t := After(cs, capacity, Initially(r), a), After(cs, capacity, Initially(r), b);
             && s.stopper.Stopped? && s.late == 0 && t.stopper.Stopped? && t.late == 0
             && multiset(s.accepted) == multiset(t.accepted)
             && forall e :: e in s.accepted ==> WellTyped(cs, e)
    ensures After(cs, capacity, Initially(r), a).registry == After(cs, capacity, Initially(r), b).registry
    ensures After(cs, capacity, Initially(r), a).registry.errors == r.errors
  {
    StoppedIsDrained(cs, capacity, r, a);
    StoppedIsDrained(cs, capacity, r, b);
    var s, t := After(cs, capacity, Initially(r), a), After(cs, capacity, Initially(r), b);
    InterleavingsAgree(cs, s.accepted, t.accepted, r);
    WellTypedNeverRaise(cs, s.accepted, r);
  }

  /** What is left to do, once the stop flag is set. */
  function Measure(s: System): nat {
    4 * |s.queue|
    + (match s.thread case Holding(_) => 3 case Getting => 2 case Checking => 1 case _ => 0)
    + (match s.stopper case Carrying(_) => 2 case Draining => 1 case Stopped => 0 case _ => 3)
  }

  /** `stop` returns: until then some thread can take a step, and with producers quiet each step
      brings the end nearer, even if the flag is set between a `get` and its `_apply`. */
  lemma StopTerminates(cs: Collectors, capacity: nat, r: Registry, s: System) returns (a: Action)
    requires Invariant(cs, capacity, r, s) && s.stopping && !s.stopper.Stopped?
    ensures Enabled(capacity, s, a) && !a.Send?
    ensures forall b :: Enabled(capacity, s, b) && !b.Send? ==> Measure(Do(cs, capacity, s, b)) < Measure(s)
  {
    if s.stopper.Carrying? {
      a := DrainApply;
    } else if s.stopper.Draining? {
      a := if s.queue == [] then DrainEmpty else DrainGet;
    } else if s.thread.Holding? {
      a := Apply;
    } else if s.thread.Getting? {
      a := TimeOut;
    } else if s.thread.Checking? {
      a := Check;
    } else {
      a := Join;
    }
  }
}
