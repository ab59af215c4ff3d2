/** The supervised pool of worker processes, as a step system: `start`, workers exiting, the
    maintenance thread and `stop`. */
module Pool {
  import opened Allocation

  /** A process: the slot it was started for, the scripts it was given, whether it still runs, and
      whether it was told to terminate. */
  datatype Process = Process(slot: nat, scripts: seq<string>, alive: bool, told: bool)

  /** The main thread: before or in `start` (so many workers started), between `start` and `stop`,
      in `stop` joining the maintenance thread, waiting for or terminating worker i, done. */
  datatype Main = Starting(started: nat) | Running | Joining | Waiting(i: nat) | Terminating(i: nat) | Stopped

  /** The maintenance thread: not started, testing the shutdown event, looking at worker i,
      sleeping, returned. */
  datatype Thread = Unstarted | Checking | Sweeping(i: nat) | Sleeping | Ended

  /** All processes ever started, in order, and for each slot the index of its current one. */
  datatype State = State(processes: seq<Process>, workers: seq<nat>, main: Main, thread: Thread, shutdown: bool)

  datatype Action = StartWorker | StartThread | Exit(p: nat) | Check | Look | EndSweep | Wake
                  | Stop | Join | Wait | EndWait | Terminate | EndStop

  predicate Enabled(slots: seq<seq<string>>, s: State, a: Action) {
    match a
    case StartWorker => s.main.Starting? && s.main.started < |slots|
    case StartThread => s.main.Starting? && s.main.started == |slots|
    case Exit(p) => p < |s.processes| && s.processes[p].alive
    case Check => s.thread.Checking?
    case Look => s.thread.Sweeping? && s.thread.i < |s.workers|
    case EndSweep => s.thread.Sweeping? && s.thread.i == |s.workers|
    case Wake => s.thread.Sleeping?
    case Stop => s.main.Running? || s.main == Starting(0)
    case Join => s.main.Joining? && (s.thread.Ended? || s.thread.Unstarted?)
    case Wait => s.main.Waiting? && s.main.i < |s.workers|
    case EndWait => s.main.Waiting? && s.main.i == |s.workers|
    case Terminate => s.main.Terminating? && s.main.i < |s.workers|
    case EndStop => s.main.Terminating? && s.main.i == |s.workers|
  }

  function Do(slots: seq<seq<string>>, s: State, a: Action): State
    requires Enabled(slots, s, a) && |s.workers| <= |slots|
    requires forall i :: 0 <= i < |s.workers| ==> s.workers[i] < |s.processes|
  {
    match a
    case StartWorker =>
      s.(workers := s.workers + [|s.processes|],
         processes := s.processes + [Process(s.main.started, slots[s.main.started], true, false)],
         main := Starting(s.main.started + 1))
    case StartThread => s.(main := Running, thread := Checking)
    case Exit(p) => s.(processes := s.processes[p := s.processes[p].(alive := false)])
    case Check => s.(thread := if s.shutdown then Ended else Sweeping(0))
    case Look =>
      var i := s.thread.i;
      if s.processes[s.workers[i]].alive then s.(thread := Sweeping(i + 1)) else
        s.(workers := s.workers[i := |s.processes|],
           processes := s.processes + [Process(i, slots[i], true, false)],
           thread := Sweeping(i + 1))
    case EndSweep => s.(thread := Sleeping)
    case Wake => s.(thread := Checking)
    case Stop => s.(shutdown := true, main := Joining)
    case Join => s.(main := Waiting(0))
    case Wait => s.(main := Waiting(s.main.i + 1))
    case EndWait => s.(main := Terminating(0))
    case Terminate =>
      var p := s.workers[s.main.i];
      if s.processes[p].alive
      then s.(processes := s.processes[p := s.processes[p].(told := true)], main := Terminating(s.main.i + 1))
      else s.(main := Terminating(s.main.i + 1))
    case EndStop => s.(main := Stopped)
  }

  const INITIALLY := State([], [], Starting(0), Unstarted, false)

  /** Has `stop` joined the maintenance thread? */
  predicate Joined(s: State) {
    s.main.Waiting? || s.main.Terminating? || s.main.Stopped?
  }

  /** So many workers have been dealt with by the terminating loop. */
  function Handled(s: State): nat {
    if s.main.Terminating? then s.main.i else if s.main.Stopped? then |s.workers| else 0
  }

  /** A process runs the scripts of its slot, and only the current one of a slot can be alive. */
  ghost predicate Supervised(slots: seq<seq<string>>, processes: seq<Process>, workers: seq<nat>) {
    && |workers| <= |slots|
    && (forall i :: 0 <= i < |workers| ==> workers[i] < |processes| && processes[workers[i]].slot == i)
    && (forall p :: 0 <= p < |processes| ==> processes[p].slot < |workers|)
    && (forall p :: 0 <= p < |processes| ==> processes[p].scripts == slots[processes[p].slot])
    && (forall p :: 0 <= p < |processes| && processes[p].alive ==> workers[processes[p].slot] == p)
  }

  /** The first n workers have exited or were told to terminate. */
  ghost predicate Told(processes: seq<Process>, workers: seq<nat>, n: nat)
    requires forall i :: 0 <= i < |workers| ==> workers[i] < |processes|
  {
    n <= |workers| && forall i :: 0 <= i < n ==> !processes[workers[i]].alive || processes[workers[i]].told
  }

  ghost predicate Ordered(slots: seq<seq<string>>, s: State) {
    && (s.main.Running? || !s.thread.Unstarted? ==> |s.workers| == |slots|)
    && (s.main.Starting? ==> s.main.started == |s.workers| && s.thread.Unstarted?)
    && (s.thread.Sweeping? ==> s.thread.i <= |s.workers|)
    && (Joined(s) ==> s.thread.Ended? || s.thread.Unstarted?)
    && (s.main.Waiting? || s.main.Terminating? ==> s.main.i <= |s.workers|)
    && (s.main.Starting? || s.main.Running? <==> !s.shutdown)
  }

  ghost predicate Invariant(slots: seq<seq<string>>, s: State) {
    Supervised(slots, s.processes, s.workers) && Ordered(slots, s) && Told(s.processes, s.workers, Handled(s))
  }

  lemma StartKeeps(slots: seq<seq<string>>, ps: seq<Process>, ws: seq<nat>)
    requires Supervised(slots, ps, ws) && |ws| < |slots|
    ensures Supervised(slots, ps + [Process(|ws|, slots[|ws|], true, false)], ws + [|ps|])
  {
  }

  lemma RestartKeeps(slots: seq<seq<string>>, ps: seq<Process>, ws: seq<nat>, i: nat)
    requires Supervised(slots, ps, ws) && i < |ws| && !ps[ws[i]].alive
    ensures Supervised(slots, ps + [Process(i, slots[i], true, false)], ws[i := |ps|])
  {
  }

  lemma ChangeKeeps(slots: seq<seq<string>>, ps: seq<Process>, ws: seq<nat>, p: nat, q: Process, n: nat)
    requires Supervised(slots, ps, ws) && p < |ps| && q.slot == ps[p].slot && q.scripts == ps[p].scripts
    requires (q.alive ==> ps[p].alive) && (ps[p].told ==> q.told) && Told(ps, ws, n)
    ensures Supervised(slots, ps[p := q], ws) && Told(ps[p := q], ws, n)
  {
  }

  lemma StepKeeps(slots: seq<seq<string>>, s: State, a: Action)
    requires Invariant(slots, s) && Enabled(slots, s, a)
    ensures Invariant(slots, Do(slots, s, a))
  {
    match a
    case StartWorker =>
      StartKeeps(slots, s.processes, s.workers);
      hide Supervised;
    case Look =>
      if !s.processes[s.workers[s.thread.i]].alive {
        RestartKeeps(slots, s.processes, s.workers, s.thread.i);
      }
      hide Supervised;
    case Exit(p) =>
      ChangeKeeps(slots, s.processes, s.workers, p, s.processes[p].(alive := false), Handled(s));
    case Terminate =>
      var p := s.workers[s.main.i];
      ChangeKeeps(slots, s.processes, s.workers, p, s.processes[p].(told := true), Handled(s));
    case _ =>
      hide Supervised;
  }

  ghost predicate Legal(slots: seq<seq<string>>, actions: seq<Action>)
    decreases actions, 0
  {
    actions == [] ||
    (Legal(slots, actions[..|actions| - 1])
     && Enabled(slots, After(slots, actions[..|actions| - 1]), actions[|actions| - 1]))
  }

  /** The state after a run from the beginning. */
  ghost function After(slots: seq<seq<string>>, actions: seq<Action>): (s: State)
    requires Legal(slots, actions)
    ensures Invariant(slots, s)
    decreases actions, 1
  {
    if actions == [] then INITIALLY else
      var before, a := After(slots, actions[..|actions| - 1]), actions[|actions| - 1];
      StepKeeps(slots, before, a);
      Do(slots, before, a)
  }

  /** In every reachable state, each process ever started runs the scripts fixed for its slot, and
      no slot has two live processes. */
  lemma SlotsKeepScripts(slots: seq<seq<string>>, actions: seq<Action>, p: nat, q: nat)
    requires Legal(slots, actions)
    ensures var s := After(slots, actions);
            && (p < |s.processes| ==> s.processes[p].slot < |slots| && s.processes[p].scripts == slots[s.processes[p].slot])
            && (p < |s.processes| && q < |s.processes| && s.processes[p].alive && s.processes[q].alive ==>
                  s.processes[p].slot == s.processes[q].slot ==> p == q)
  {
    var s := After(slots, actions);
    assert Invariant(slots, s);
  }

  /** Once `start` has returned, every slot has its process. */
  lemma EverySlotStarted(slots: seq<seq<string>>, actions: seq<Action>, i: nat)
    requires Legal(slots, actions) && After(slots, actions).main.Running? && i < |slots|
    ensures var s := After(slots, actions);
            i < |s.workers| && s.workers[i] < |s.processes| && s.processes[s.workers[i]].slot == i
  {
    assert Invariant(slots, After(slots, actions));
  }

  /* ----- concurrency ----- */

  /** The live processes that serve a script. */
  function Serving(s: State, script: string): set<nat> {
    set p | 0 <= p < |s.processes| && s.processes[p].alive && script in s.processes[p].scripts
  }

  function SlotsOf(s: State, ps: set<nat>): set<nat>
    requires forall p :: p in ps ==> p < |s.processes|
  {
    set p | p in ps :: s.processes[p].slot
  }

  lemma {:induction false} AsManySlots(s: State, ps: set<nat>)
    requires forall p :: p in ps ==> p < |s.processes|
    requires forall p, q :: p in ps && q in ps && s.processes[p].slot == s.processes[q].slot ==> p == q
    ensures |SlotsOf(s, ps)| == |ps|
    decreases ps
  {
    if ps == {} {
      assert SlotsOf(s, ps) == {};
    } else {
      var p :| p in ps;
      AsManySlots(s, ps - {p});
      assert SlotsOf(s, ps) == SlotsOf(s, ps - {p}) + {s.processes[p].slot};
    }
  }

  lemma {:induction false} Below(ns: set<nat>, m: nat)
    requires forall n :: n in ns ==> n < m
    ensures |ns| <= m
  {
    if m == 0 {
      assert ns == {};
    } else {
      Below(ns - {m - 1}, m - 1);
    }
  }

  /** In every reachable state, at most as many live workers serve a script as its module allows. */
  lemma ConcurrencyRespected(needs: seq<Need>, slots: seq<seq<string>>, actions: seq<Action>, n: Need)
    requires DistinctScripts(needs) && n in needs
    requires forall i :: 0 <= i < |slots| ==> slots[i] == Slot(needs, i)
    requires Legal(slots, actions)
    ensures |Serving(After(slots, actions), n.script)| <= Clamp(n.workers, |slots|)
  {
    var s := After(slots, actions);
    var ps := Serving(s, n.script);
    forall k | k in SlotsOf(s, ps) ensures k < Clamp(n.workers, |slots|) {
      InOwnSlots(needs, k, n);
    }
    AsManySlots(s, ps);
    Below(SlotsOf(s, ps), Clamp(n.workers, |slots|));
  }

  /* ----- stop ----- */

  /** Once `stop` has joined the maintenance thread, no step starts a worker. */
  lemma NoStartAfterJoin(slots: seq<seq<string>>, s: State, a: Action)
    requires Invariant(slots, s) && Enabled(slots, s, a) && Joined(s)
    ensures Joined(Do(slots, s, a)) && |Do(slots, s, a).processes| == |s.processes|
    ensures Do(slots, s, a).workers == s.workers
  {
  }

  lemma Prefix(slots: seq<seq<string>>, a: seq<Action>, b: seq<Action>)
    requires Legal(slots, a + b)
    ensures Legal(slots, a)
    decreases |b|
  {
    if b == [] {
      assert a + b == a;
    } else {
      assert (a + b)[..|a + b| - 1] == a + b[..|b| - 1];
      Prefix(slots, a, b[..|b| - 1]);
    }
  }

  /** Over the rest of the run, too. */
  lemma {:induction false} NoStartsAfterJoin(slots: seq<seq<string>>, a: seq<Action>, b: seq<Action>)
    requires Legal(slots, a + b) && Legal(slots, a) && Joined(After(slots, a))
    ensures Joined(After(slots, a + b)) && |After(slots, a + b).processes| == |After(slots, a).processes|
    decreases |b|
  {
    if b == [] {
      assert a + b == a;
    } else {
      var c := b[..|b| - 1];
      assert (a + b)[..|a + b| - 1] == a + c;
      NoStartsAfterJoin(slots, a, c);
      NoStartAfterJoin(slots, After(slots, a + c), b[|b| - 1]);
    }
  }

  /** When `stop` has returned, every process has exited or was told to terminate. */
  lemma StoppedMeansTold(slots: seq<seq<string>>, actions: seq<Action>, p: nat)
    requires Legal(slots, actions) && After(slots, actions).main.Stopped? && p < |After(slots, actions).processes|
    ensures !After(slots, actions).processes[p].alive || After(slots, actions).processes[p].told
  {
    var s := After(slots, actions);
    assert Invariant(slots, s);
    if s.processes[p].alive {
      assert s.workers[s.processes[p].slot] == p;
    }
  }

  ghost predicate ToldInStop(s: State, p: nat) {
    p < |s.processes| && (s.processes[p].told ==> s.main.Terminating? || s.main.Stopped?)
  }

  lemma StepExits(slots: seq<seq<string>>, s: State, a: Action, p: nat)
    requires Invariant(slots, s) && Enabled(slots, s, a)
    ensures |s.processes| <= |Do(slots, s, a).processes|
    ensures var t := Do(slots, s, a);
            p < |t.processes| ==>
              && (!t.processes[p].alive <==> a == Exit(p) || (p < |s.processes| && !s.processes[p].alive))
              && (p < |s.processes| && ToldInStop(s, p) ==> ToldInStop(t, p))
              && (p >= |s.processes| ==> ToldInStop(t, p))
  {
  }

  /** A process runs until it exits; and none is told to terminate before the maintenance thread has been
      joined and all workers have been waited for. */
  lemma {:induction false} RunsUntilExit(slots: seq<seq<string>>, actions: seq<Action>, p: nat)
    requires Legal(slots, actions)
    ensures p < |After(slots, actions).processes| ==>
              ToldInStop(After(slots, actions), p)
              && (!After(slots, actions).processes[p].alive <==> Exit(p) in actions)
    ensures p >= |After(slots, actions).processes| ==> Exit(p) !in actions
  {
    hide Do;
    hide Invariant;
    hide ToldInStop;
    if actions != [] {
      var n := |actions| - 1;
      assert actions == actions[..n] + [actions[n]];
      RunsUntilExit(slots, actions[..n], p);
      StepExits(slots, After(slots, actions[..n]), actions[n], p);
    }
  }

  /** Once the sweep has looked at a slot, a live worker serves the scripts of that slot. */
  lemma LookServes(slots: seq<seq<string>>, s: State)
    requires Invariant(slots, s) && Enabled(slots, s, Look)
    ensures var t := Do(slots, s, Look);
            t.processes[t.workers[s.thread.i]].alive && t.processes[t.workers[s.thread.i]].scripts == slots[s.thread.i]
  {
  }

  /** What is left to do once `stop` was called. */
  function Measure(s: State): nat {
    (match s.thread
     case Sweeping(i) => 3 + (if i <= |s.workers| then |s.workers| - i else 0)
     case Sleeping => 2
     case Checking => 1
     case _ => 0)
    + (match s.main
       case Waiting(i) => |s.workers| + 2 + (if i <= |s.workers| then |s.workers| - i else 0)
       case Terminating(i) => 1 + (if i <= |s.workers| then |s.workers| - i else 0)
       case Stopped => 0
       case _ => 2 * |s.workers| + 3)
  }

  /** `stop` returns: until then a thread can take a step, and each of their steps brings the end
      nearer, even if the last sweep still starts workers. */
  lemma StopTerminates(slots: seq<seq<string>>, s: State) returns (a: Action)
    requires Invariant(slots, s) && s.shutdown && !s.main.Stopped?
    ensures Enabled(slots, s, a) && !a.Exit?
    ensures forall b :: Enabled(slots, s, b) && !b.Exit? ==> Measure(Do(slots, s, b)) < Measure(s)
  {
    hide Supervised;
    if s.main.Waiting? {
      a := if s.main.i < |s.workers| then Wait else EndWait;
    } else if s.main.Terminating? {
      a := if s.main.i < |s.workers| then Terminate else EndStop;
    } else if s.thread.Sweeping? {
      a := if s.thread.i < |s.workers| then Look else EndSweep;
    } else if s.thread.Sleeping? {
      a := Wake;
    } else if s.thread.Checking? {
      a := Check;
    } else {
      a := Join;
    }
  }
}
