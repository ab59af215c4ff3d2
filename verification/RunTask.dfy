/** Jobs, `run_task`, and the job counters it drives. */
module RunTask {
  import opened Metrics
  import opened MetricsSums
  import opened Results
  import opened Sequences

  /* ----- exit codes ----- */

  /** The exit code after a series of `set_status` calls: the last that was not zero. */
  function ExitCode(before: int, codes: seq<int>): int {
    if codes == [] then before else
      var last := codes[|codes| - 1];
      if last != 0 then last else ExitCode(before, codes[..|codes| - 1])
  }

  /** No series of calls turns a failure into a success. */
  lemma {:induction false} FailureStays(before: int, codes: seq<int>)
    requires before != 0 || exists c :: c in codes && c != 0
    ensures ExitCode(before, codes) != 0
  {
    if codes != [] {
      var n := |codes| - 1;
      if codes[n] == 0 {
        assert codes == codes[..n] + [codes[n]];
        FailureStays(before, codes[..n]);
      }
    }
  }

  lemma ExitCodeSnoc(before: int, codes: seq<int>, code: int)
    ensures ExitCode(before, codes + [code]) == if code != 0 then code else ExitCode(before, codes)
    ensures ExitCode(before, codes + []) == ExitCode(before, codes)
  {
    assert (codes + [code])[..|codes|] == codes && codes + [] == codes;
  }

  class Job {
    var intCode: int
    var statusCode: string

    constructor ()
      ensures intCode == 0 && statusCode == ""
    {
      intCode, statusCode := 0, "";
    }

    method SetStatus(code: int, status: string)
      modifies this
      ensures intCode == (if code != 0 then code else old(intCode)) && statusCode == status
    {
      if code != 0 {
        intCode := code;
      }
      statusCode := status;
    }
  }

  /* ----- job_completed and job_failed ----- */

  const JOBS := "job_counter"
  const ERRORS := "job_error_counter"
  const PROCESSED := "job_processed_timestamp"
  const FAILED := "job_error_timestamp"
  const SCRIPT := "script_name"

  function ScriptLabel(task: string): seq<Label> {
    [Label(SCRIPT, task)]
  }

  /** The events for one job: how it ended, and when. */
  function EventsOf(task: string, code: int, time: real): seq<Event> {
    var labels := ScriptLabel(task);
    if code == 0 then [Event(JOBS, Inc, labels, 1.0), Event(PROCESSED, SetMax, labels, time)]
    else [Event(JOBS, Inc, labels, 1.0), Event(ERRORS, Inc, labels, 1.0), Event(FAILED, SetMax, labels, time)]
  }

  /** The events of one `run_task`, for the final exit codes of its jobs. */
  function EventsOfAll(task: string, codes: seq<int>, times: seq<real>): seq<Event>
    requires |codes| == |times|
  {
    if codes == [] then [] else
      var n := |codes| - 1;
      EventsOfAll(task, codes[..n], times[..n]) + EventsOf(task, codes[n], times[n])
  }

  /* ----- run_task ----- */

  /** What the script does to the jobs before it returns or raises: `set_status` calls. */
  datatype Call = Call(job: nat, code: int, status: string)
  datatype Script = Script(calls: seq<Call>, raises: bool)

  function CodesFor(calls: seq<Call>, job: nat): seq<int> {
    if calls == [] then [] else
      var c := calls[|calls| - 1];
      CodesFor(calls[..|calls| - 1], job) + (if c.job == job then [c.code] else [])
  }

  ghost function Codes(jobs: seq<Job>): seq<int>
    reads jobs
  {
    seq(|jobs|, i requires 0 <= i < |jobs| reads jobs => jobs[i].intCode)
  }

  ghost predicate DistinctJobs(jobs: seq<Job>) {
    forall i, j :: 0 <= i < j < |jobs| ==> jobs[i] != jobs[j]
  }

  method CallScript(script: Script, jobs: seq<Job>)
    requires DistinctJobs(jobs) && forall c :: c in script.calls ==> c.job < |jobs|
    modifies jobs
    ensures forall i :: 0 <= i < |jobs| ==>
              jobs[i].intCode == ExitCode(old(jobs[i].intCode), CodesFor(script.calls, i))
  {
    for k := 0 to |script.calls|
      invariant forall i :: 0 <= i < |jobs| ==>
                  jobs[i].intCode == ExitCode(old(jobs[i].intCode), CodesFor(script.calls[..k], i))
    {
      var c := script.calls[k];
      forall i ensures CodesFor(script.calls[..k + 1], i) ==
                       CodesFor(script.calls[..k], i) + (if c.job == i then [c.code] else []) {
        assert script.calls[..k + 1][..k] == script.calls[..k];
      }
      forall i | 0 <= i < |jobs| ensures ExitCode(old(jobs[i].intCode), CodesFor(script.calls[..k + 1], i)) ==
          if c.job == i && c.code != 0 then c.code else ExitCode(old(jobs[i].intCode), CodesFor(script.calls[..k], i)) {
        ExitCodeSnoc(old(jobs[i].intCode), CodesFor(script.calls[..k], i), c.code);
      }
      jobs[c.job].SetStatus(c.code, c.status);
    }
    assert script.calls[..|script.calls|] == script.calls;
  }

  /** `Job.bulk_mark_failed` */
  method BulkMarkFailed(jobs: seq<Job>, message: string)
    modifies jobs
    ensures forall i :: 0 <= i < |jobs| ==> jobs[i].intCode == 1
  {
    for i := 0 to |jobs|
      invariant forall j :: 0 <= j < i ==> jobs[j].intCode == 1
    {
      jobs[i].SetStatus(1, message);
    }
  }

  /** Which writes to the Task table raise: that of the start times, that of `bulk_mark_failed`, and
      that of the result of job `results`, if there are more jobs. */
  datatype Faults = Faults(starts: bool, marks: bool, results: nat)

  function Min(a: nat, b: nat): nat {
    if a < b then a else b
  }

  /** `run_task`: the events it sends (none when Prometheus is disabled), and whether it raises.
      `times` are the times of day at which the jobs are counted. */
  method Run(task: string, script: Option<Script>, jobs: seq<Job>, enabled: bool, times: seq<real>, faults: Faults)
    returns (raised: bool, sent: seq<Event>)
    requires DistinctJobs(jobs) && |times| == |jobs|
    requires script.Some? ==> forall c :: c in script.value.calls ==> c.job < |jobs|
    modifies jobs
    ensures raised <==> script.None? || script.value.raises || faults.starts || faults.results < |jobs|
    ensures faults.starts || (faults.marks && script.None?) ==>
              sent == [] && forall i :: 0 <= i < |jobs| ==> jobs[i].intCode == old(jobs[i].intCode)
    ensures !faults.starts && (script.None? || script.value.raises) && !faults.marks ==>
              && (forall i :: 0 <= i < |jobs| ==> jobs[i].intCode == 1)
              && sent == if enabled then EventsOfAll(task, Codes(jobs), times) else []
    ensures !faults.starts && script.Some? && (script.value.raises ==> faults.marks) ==>
              && (forall i :: 0 <= i < |jobs| ==>
                    jobs[i].intCode == ExitCode(old(jobs[i].intCode), CodesFor(script.value.calls, i)))
              && var n := if script.value.raises then 0 else Min(faults.results, |jobs|);
                 sent == if enabled then EventsOfAll(task, Codes(jobs)[..n], times[..n]) else []
  {
    sent := [];
    if faults.starts {
      return true, [];
    }
    if script.Some? {
      CallScript(script.value, jobs);
    }
    raised := script.None? || script.value.raises;
    if raised {
      if faults.marks {
        return true, [];
      }
      BulkMarkFailed(jobs, "");
    }
    for i := 0 to |jobs|
      invariant raised || i <= faults.results
      invariant raised == (script.None? || script.value.raises)
      invariant sent == if enabled then EventsOfAll(task, Codes(jobs)[..i], times[..i]) else []
    {
      if !raised && faults.results == i {
        return true, sent;
      }
      var exitCode := if raised then 1 else jobs[i].intCode;
      assert Codes(jobs)[..i + 1][..i] == Codes(jobs)[..i] && times[..i + 1][..i] == times[..i];
      if enabled {
        sent := sent + EventsOf(task, exitCode, times[i]);
      }
    }
    assert Codes(jobs)[..|jobs|] == Codes(jobs) && times[..|jobs|] == times;
  }

  /* ----- over many calls ----- */

  /** The jobs a `run_task` call counted, with their exit codes. */
  datatype Batch = Batch(task: string, codes: seq<int>, times: seq<real>)

  predicate Proper(b: Batch) {
    |b.codes| == |b.times|
  }

  function AllEvents(batches: seq<Batch>): seq<Event>
    requires forall b :: b in batches ==> Proper(b)
  {
    if batches == [] then [] else
      var b := batches[|batches| - 1];
      assert b in batches && Proper(b);
      AllEvents(batches[..|batches| - 1]) + EventsOfAll(b.task, b.codes, b.times)
  }

  function Failures(codes: seq<int>): nat {
    if codes == [] then 0 else Failures(codes[..|codes| - 1]) + (if codes[|codes| - 1] != 0 then 1 else 0)
  }

  function TotalJobs(batches: seq<Batch>, task: string): nat {
    if batches == [] then 0 else
      var b := batches[|batches| - 1];
      TotalJobs(batches[..|batches| - 1], task) + (if b.task == task then |b.codes| else 0)
  }

  function TotalFailures(batches: seq<Batch>, task: string): nat {
    if batches == [] then 0 else
      var b := batches[|batches| - 1];
      TotalFailures(batches[..|batches| - 1], task) + (if b.task == task then Failures(b.codes) else 0)
  }

  /** The four job metrics as declared. */
  predicate HasJobMetrics(cs: Collectors) {
    && JOBS in cs && cs[JOBS] == Collector(Counter, {SCRIPT})
    && ERRORS in cs && cs[ERRORS] == Collector(Counter, {SCRIPT})
    && PROCESSED in cs && cs[PROCESSED] == Collector(Gauge, {SCRIPT})
    && FAILED in cs && cs[FAILED] == Collector(Gauge, {SCRIPT})
  }

  lemma SumSnoc(cs: Collectors, es: seq<Event>, e: Event, k: Key)
    ensures Sum(cs, es + [e], k) == Sum(cs, es, k) + (if For(e, k) && e.action == Inc && Taken(cs, e) then e.value else 0.0)
  {
    assert (es + [e])[..|es|] == es;
  }

  lemma NamesDiffer()
    ensures JOBS != ERRORS && JOBS != PROCESSED && JOBS != FAILED && ERRORS != PROCESSED && ERRORS != FAILED
  {
    assert |JOBS| == 11 && |ERRORS| == 17 && |PROCESSED| == 23 && |FAILED| == 19;
  }

  lemma JobsAreCounted(cs: Collectors, task: string)
    requires HasJobMetrics(cs)
    ensures Taken(cs, Event(JOBS, Inc, ScriptLabel(task), 1.0)) && Taken(cs, Event(ERRORS, Inc, ScriptLabel(task), 1.0))
  {
    assert ScriptLabel(task)[0] == Label(SCRIPT, task);
    assert NamesOf(ScriptLabel(task)) == {SCRIPT};
  }

  lemma SameScript(a: string, b: string)
    ensures ScriptLabel(a) == ScriptLabel(b) <==> a == b
  {
    assert ScriptLabel(a)[0].value == a && ScriptLabel(b)[0].value == b;
  }

  /** One of the two counters of a script. */
  predicate JobKey(k: Key, task: string) {
    k.labels == ScriptLabel(task) && (k.collector == JOBS || k.collector == ERRORS)
  }

  /** What one job adds to a counter. */
  function OneJob(k: Key, task: string, code: int): real {
    if k.labels == ScriptLabel(task) && (k.collector == JOBS || code != 0) then 1.0 else 0.0
  }

  lemma JobAdds(cs: Collectors, es: seq<Event>, task: string, code: int, time: real, k: Key, own: string)
    requires HasJobMetrics(cs) && JobKey(k, own)
    ensures Sum(cs, es + EventsOf(task, code, time), k) == Sum(cs, es, k) + OneJob(k, task, code)
  {
    NamesDiffer();
    JobsAreCounted(cs, task);
    hide Taken;
    hide ScriptLabel;
    var labels := ScriptLabel(task);
    var first := Event(JOBS, Inc, labels, 1.0);
    SumSnoc(cs, es, first, k);
    if code == 0 {
      var last := Event(PROCESSED, SetMax, labels, time);
      SumSnoc(cs, es + [first], last, k);
      assert es + EventsOf(task, code, time) == es + [first] + [last];
    } else {
      var second, last := Event(ERRORS, Inc, labels, 1.0), Event(FAILED, SetMax, labels, time);
      SumSnoc(cs, es + [first], second, k);
      SumSnoc(cs, es + [first] + [second], last, k);
      assert es + EventsOf(task, code, time) == es + [first] + [second] + [last];
    }
  }

  /** What the jobs of one `run_task` call add to a counter. */
  function BatchTotal(k: Key, own: string, task: string, codes: seq<int>): nat {
    if task != own then 0 else if k.collector == JOBS then |codes| else Failures(codes)
  }

  lemma OneMoreJob(k: Key, own: string, task: string, codes: seq<int>)
    requires codes != [] && JobKey(k, own)
    ensures BatchTotal(k, own, task, codes) as real ==
            BatchTotal(k, own, task, codes[..|codes| - 1]) as real + OneJob(k, task, codes[|codes| - 1])
  {
    SameScript(task, own);
    NamesDiffer();
  }

  lemma {:induction false} BatchAdds(cs: Collectors, es: seq<Event>, task: string, codes: seq<int>, times: seq<real>,
                                     k: Key, own: string)
    requires HasJobMetrics(cs) && JobKey(k, own) && |codes| == |times|
    ensures Sum(cs, es + EventsOfAll(task, codes, times), k) == Sum(cs, es, k) + BatchTotal(k, own, task, codes) as real
  {
    hide Sum;
    hide EventsOf;
    hide JobKey;
    hide HasJobMetrics;
    if codes == [] {
      assert es + [] == es;
    } else {
      var n := |codes| - 1;
      BatchAdds(cs, es, task, codes[..n], times[..n], k, own);
      JobAdds(cs, es + EventsOfAll(task, codes[..n], times[..n]), task, codes[n], times[n], k, own);
      Associative(es, EventsOfAll(task, codes[..n], times[..n]), EventsOf(task, codes[n], times[n]));
      OneMoreJob(k, own, task, codes);
      hide BatchTotal;
    }
  }

  lemma {:induction false} BatchesAdd(cs: Collectors, batches: seq<Batch>, k: Key, own: string)
    requires HasJobMetrics(cs) && JobKey(k, own) && forall b :: b in batches ==> Proper(b)
    ensures Sum(cs, AllEvents(batches), k) ==
            (if k.collector == JOBS then TotalJobs(batches, own) else TotalFailures(batches, own)) as real
  {
    if batches != [] {
      var n := |batches| - 1;
      BatchesAdd(cs, batches[..n], k, own);
      assert batches[n] in batches;
      BatchAdds(cs, AllEvents(batches[..n]), batches[n].task, batches[n].codes, batches[n].times, k, own);
    }
  }

  /** However the events of any number of `run_task` calls interleave, a script's job counter
      grows by the number of its jobs that were counted, and its error counter by the number of those
      that ended with a non-zero exit code. */
  lemma JobCountersAreExact(cs: Collectors, batches: seq<Batch>, es: seq<Event>, r: Registry, task: string)
    requires HasJobMetrics(cs) && (forall b :: b in batches ==> Proper(b))
    requires multiset(es) == multiset(AllEvents(batches))
    ensures var s := Metrics.Run(cs, es, r);
            && Value(s.values, Key(JOBS, ScriptLabel(task)))
               == Value(r.values, Key(JOBS, ScriptLabel(task))) + TotalJobs(batches, task) as real
            && Value(s.values, Key(ERRORS, ScriptLabel(task)))
               == Value(r.values, Key(ERRORS, ScriptLabel(task))) + TotalFailures(batches, task) as real
  {
    forall e | e in es ensures WellTyped(cs, e) {
      assert e in multiset(AllEvents(batches));
      AllWellTyped(cs, batches, e);
    }
    InterleavingsAgree(cs, es, AllEvents(batches), r);
    CountersAreSums(cs, AllEvents(batches), r, Key(JOBS, ScriptLabel(task)));
    CountersAreSums(cs, AllEvents(batches), r, Key(ERRORS, ScriptLabel(task)));
    BatchesAdd(cs, batches, Key(JOBS, ScriptLabel(task)), task);
    BatchesAdd(cs, batches, Key(ERRORS, ScriptLabel(task)), task);
    NamesDiffer();
  }

  lemma JobWellTyped(cs: Collectors, task: string, code: int, time: real, e: Event)
    requires HasJobMetrics(cs) && e in EventsOf(task, code, time)
    ensures WellTyped(cs, e)
  {
    assert ScriptLabel(task)[0] == Label(SCRIPT, task);
    assert NamesOf(ScriptLabel(task)) == {SCRIPT};
  }

  lemma {:induction false} BatchWellTyped(cs: Collectors, task: string, codes: seq<int>, times: seq<real>, e: Event)
    requires HasJobMetrics(cs) && |codes| == |times| && e in EventsOfAll(task, codes, times)
    ensures WellTyped(cs, e)
  {
    var n := |codes| - 1;
    if e in EventsOf(task, codes[n], times[n]) {
      JobWellTyped(cs, task, codes[n], times[n], e);
    } else {
      BatchWellTyped(cs, task, codes[..n], times[..n], e);
    }
  }

  lemma {:induction false} AllWellTyped(cs: Collectors, batches: seq<Batch>, e: Event)
    requires HasJobMetrics(cs) && (forall b :: b in batches ==> Proper(b)) && e in AllEvents(batches)
    ensures WellTyped(cs, e)
  {
    var n := |batches| - 1;
    assert batches[n] in batches;
    if e in EventsOfAll(batches[n].task, batches[n].codes, batches[n].times) {
      BatchWellTyped(cs, batches[n].task, batches[n].codes, batches[n].times, e);
    } else {
      AllWellTyped(cs, batches[..n], e);
    }
  }

  /* ----- timestamps ----- */

  /** A job of the script ended at this time, and failed or not. */
  ghost predicate EndedAt(batches: seq<Batch>, task: string, failed: bool, time: real) {
    exists b :: b in batches && b.task == task && EndedIn(b.codes, b.times, failed, time)
  }

  ghost predicate EndedIn(codes: seq<int>, times: seq<real>, failed: bool, time: real) {
    exists i :: 0 <= i < |codes| && i < |times| && times[i] == time && (codes[i] != 0 <==> failed)
  }

  /** The timestamp of the script's last job that failed, or did not. */
  function Stamp(task: string, failed: bool): Key {
    Key(if failed then FAILED else PROCESSED, ScriptLabel(task))
  }

  lemma StampOfOne(task: string, code: int, time: real, own: string, failed: bool, e: Event)
    ensures e in EventsOf(task, code, time) && For(e, Stamp(own, failed)) <==>
            task == own && (code != 0 <==> failed)
            && e == Event(Stamp(own, failed).collector, SetMax, ScriptLabel(own), time)
  {
    NamesDiffer();
    SameScript(task, own);
    hide ScriptLabel;
    var labels := ScriptLabel(task);
    if code == 0 {
      var es := [Event(JOBS, Inc, labels, 1.0), Event(PROCESSED, SetMax, labels, time)];
      assert EventsOf(task, code, time) == es && es[1] in es;
    } else {
      var es := [Event(JOBS, Inc, labels, 1.0), Event(ERRORS, Inc, labels, 1.0), Event(FAILED, SetMax, labels, time)];
      assert EventsOf(task, code, time) == es && es[2] in es;
    }
  }

  lemma EndedSnoc(codes: seq<int>, times: seq<real>, failed: bool, time: real)
    requires codes != [] && |codes| == |times|
    ensures var n := |codes| - 1;
            EndedIn(codes, times, failed, time) <==>
            EndedIn(codes[..n], times[..n], failed, time) || (times[n] == time && (codes[n] != 0 <==> failed))
  {
    var n := |codes| - 1;
    if i :| 0 <= i < |codes| && i < |times| && times[i] == time && (codes[i] != 0 <==> failed) {
      assert i < n ==> times[..n][i] == time && codes[..n][i] == codes[i];
    }
    if EndedIn(codes[..n], times[..n], failed, time) {
      var i :| 0 <= i < n && times[..n][i] == time && (codes[..n][i] != 0 <==> failed);
      assert times[i] == time && codes[i] == codes[..n][i];
    }
  }

  lemma {:induction false} StampsOfBatch(task: string, codes: seq<int>, times: seq<real>, own: string, failed: bool,
                                         e: Event)
    requires |codes| == |times|
    ensures e in EventsOfAll(task, codes, times) && For(e, Stamp(own, failed)) <==>
            task == own && EndedIn(codes, times, failed, e.value)
            && e == Event(Stamp(own, failed).collector, SetMax, ScriptLabel(own), e.value)
  {
    if codes != [] {
      var n := |codes| - 1;
      StampsOfBatch(task, codes[..n], times[..n], own, failed, e);
      StampOfOne(task, codes[n], times[n], own, failed, e);
      EndedSnoc(codes, times, failed, e.value);
      hide EndedIn;
      hide EventsOf;
    }
  }

  lemma {:induction false} StampsAre(batches: seq<Batch>, own: string, failed: bool, e: Event)
    requires forall b :: b in batches ==> Proper(b)
    ensures e in AllEvents(batches) && For(e, Stamp(own, failed)) <==>
            EndedAt(batches, own, failed, e.value)
            && e == Event(Stamp(own, failed).collector, SetMax, ScriptLabel(own), e.value)
  {
    hide EndedIn;
    if batches != [] {
      var n := |batches| - 1;
      StampsAre(batches[..n], own, failed, e);
      assert batches == batches[..n] + [batches[n]];
      assert batches[n] in batches;
      StampsOfBatch(batches[n].task, batches[n].codes, batches[n].times, own, failed, e);
      hide EventsOfAll;
    }
  }

  /** However the events interleave, the timestamp of a script's jobs that did not fail is the time of
      the last of them, and so is that of its jobs that failed; without such a job it stays. */
  lemma TimestampsAreLatest(cs: Collectors, batches: seq<Batch>, es: seq<Event>, r: Registry, task: string, failed: bool)
    requires HasJobMetrics(cs) && (forall b :: b in batches ==> Proper(b))
    requires multiset(es) == multiset(AllEvents(batches)) && Stamp(task, failed) !in r.maxima
    ensures var after, before := Value(Metrics.Run(cs, es, r).values, Stamp(task, failed)), Value(r.values, Stamp(task, failed));
            && (forall t :: EndedAt(batches, task, failed, t) ==> t <= after)
            && (EndedAt(batches, task, failed, after) || after == before)
            && ((forall t :: !EndedAt(batches, task, failed, t)) ==> after == before)
  {
    var k := Stamp(task, failed);
    forall e | e in es && For(e, k)
      ensures e.action == SetMax && Taken(cs, e) && EndedAt(batches, task, failed, e.value)
    {
      assert e in multiset(AllEvents(batches));
      StampsAre(batches, task, failed, e);
      StampIsTaken(cs, task, failed, e);
    }
    GaugesAreMaxima(cs, es, r, k);
    HighestIsMaximum(cs, es, k);
    forall t | EndedAt(batches, task, failed, t) ensures t <= Value(Metrics.Run(cs, es, r).values, k) {
      var e := Event(k.collector, SetMax, ScriptLabel(task), t);
      StampsAre(batches, task, failed, e);
      assert e in multiset(es);
    }
    if forall e :: e in es ==> !For(e, k) {
      UntouchedStays(cs, es, r, k);
    }
  }

  lemma StampIsTaken(cs: Collectors, task: string, failed: bool, e: Event)
    requires HasJobMetrics(cs) && e == Event(Stamp(task, failed).collector, SetMax, ScriptLabel(task), e.value)
    ensures Taken(cs, e)
  {
    assert ScriptLabel(task)[0] == Label(SCRIPT, task);
    assert NamesOf(ScriptLabel(task)) == {SCRIPT};
  }
}
