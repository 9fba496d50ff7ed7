/** What one probe job does, in terms of its attempts and of the columns. */
module JobRules {
  import opened Common
  import opened History
  import opened AlertModel
  import opened AlertRules
  import opened ProbeJobs

  /** A job of a monitor that is gone, paused or under maintenance does nothing. */
  lemma SkippedJob(w: WorkerState, c: JobCall)
    requires c.id !in w.monitors || w.monitors[c.id].status == PAUSED || c.underMaintenance
    ensures JobStep(w, c) == w
  {
  }

  /** The last attempt a job makes. */
  function FinalAttempt(w: WorkerState, c: JobCall): Attempt
    requires c.id in w.monitors
  {
    var attempts := Attempts(w.monitors[c.id].retries, c.probe, 0);
    attempts[|attempts| - 1]
  }

  ghost predicate Probes(w: WorkerState, c: JobCall) {
    c.id in w.monitors && w.monitors[c.id].status != PAUSED && !c.underMaintenance
  }

  /** The results of the first `n` attempts. */
  function FirstResults(c: JobCall, n: nat): seq<ProbeResult> {
    seq(n, i requires 0 <= i => ProbeResult(c.id, c.probe(i)))
  }

  lemma {:induction false} ResultsAre(c: JobCall, attempts: seq<Attempt>)
    requires forall i :: 0 <= i < |attempts| ==> attempts[i] == c.probe(i)
    ensures ResultsOf(c.id, attempts) == FirstResults(c, |attempts|)
  {
    if attempts != [] { ResultsAre(c, attempts[..|attempts| - 1]); }
  }

  lemma {:induction false} AttemptsRule(w: WorkerState, c: JobCall)
    requires Probes(w, c)
    ensures var retries := w.monitors[c.id].retries;
            var made := |Attempts(retries, c.probe, 0)|;
            && 0 < made <= Tries(retries) && FinalAttempt(w, c) == c.probe(made - 1)
            && (forall i :: 0 <= i < made ==> Attempts(retries, c.probe, 0)[i] == c.probe(i))
            && (forall i :: 0 <= i < made - 1 ==> c.probe(i).status == ProbeDown)
            && (c.probe(made - 1).status == ProbeUp || made == Tries(retries))
  {
    var attempts := Attempts(w.monitors[c.id].retries, c.probe, 0);
    AttemptsShape(w.monitors[c.id].retries, c.probe, 0);
    forall i | 0 <= i < |attempts| - 1 ensures c.probe(i).status == ProbeDown {
      assert attempts[i] == c.probe(0 + i);
    }
  }

  lemma JobStores(w: WorkerState, c: JobCall)
    requires Probes(w, c)
    ensures var m, after := w.monitors[c.id], JobStep(w, c);
            && after.results == w.results + ResultsOf(c.id, Attempts(m.retries, c.probe, 0))
            && after.monitors == w.monitors[c.id := m.(status := if FinalAttempt(w, c).status == ProbeUp then UP else DOWN)]
  {
  }

  /** A job that runs stores one result per attempt, in order, and takes its status from the last:
      the first that answers, or the one after all retries. */
  lemma {:induction false} ResultsRule(w: WorkerState, c: JobCall) returns (made: nat)
    requires Probes(w, c)
    ensures 0 < made <= Tries(w.monitors[c.id].retries)
    ensures forall i :: 0 <= i < made - 1 ==> c.probe(i).status == ProbeDown
    ensures c.probe(made - 1).status == ProbeUp || made == Tries(w.monitors[c.id].retries)
    ensures JobStep(w, c).results == w.results + FirstResults(c, made)
    ensures JobStep(w, c).monitors
         == w.monitors[c.id := w.monitors[c.id].(status := if c.probe(made - 1).status == ProbeUp then UP else DOWN)]
  {
    var attempts := Attempts(w.monitors[c.id].retries, c.probe, 0);
    made := |attempts|;
    AttemptsRule(w, c);
    ResultsAre(c, attempts);
    JobStores(w, c);
  }

  /** A job mirrors its status as 1 or 0, its latency if measured and the fact of an error, all at
      the time it concludes, after what was stored before. */
  lemma MirrorRule(w: WorkerState, c: JobCall)
    requires WellKeyed(w.db) && Probes(w, c)
    ensures var final := FinalAttempt(w, c);
            JobStep(w, c).db.samples == w.db.samples
              + [Sample(c.backing.status, Some(if final.status == ProbeUp then 1.0 else 0.0), c.now)]
              + (if final.latencyMs.Some? then [Sample(c.backing.latency, final.latencyMs, c.now)] else [])
              + (if final.error != "" then [Sample(c.backing.error, None, c.now)] else [])
  {
    EvalRowsKeys(w.db, JobRequest(c.id, w.monitors[c.id], FinalAttempt(w, c), c.now), c.rows);
  }

  // ---- The triggers of the monitor ----

  function RequestOf(w: WorkerState, c: JobCall): Request
    requires c.id in w.monitors
  {
    JobRequest(c.id, w.monitors[c.id], FinalAttempt(w, c), c.now)
  }

  /** The items called "latency_ms" on the monitor's host. */
  ghost predicate LatencyItemsAre(db: Db, monitor: Id, items: set<Id>) {
    forall i: Id :: i in items <==>
      i in db.items && db.items[i].key == "latency_ms" && monitor in db.monitorHosts && db.items[i].host == db.monitorHosts[monitor]
  }

  /** What a job lets a trigger of its monitor see: the latency of its last attempt or, with a
      window, the aggregate of the latency items of the monitor's host, this probe not included. */
  ghost predicate Sees(w: WorkerState, c: JobCall, t: Trigger, observed: Option<real>)
    requires c.id in w.monitors
  {
    if t.metric.None? then observed == None
    else if t.aggregation == Last || t.windowSeconds <= 0 then observed == FinalAttempt(w, c).latencyMs
    else exists items :: LatencyItemsAre(w.db, c.id, items)
           && observed == Aggregate(t.aggregation, Window(w.db.samples, items, c.now - t.windowSeconds * 1_000_000))
  }

  lemma JobSees(w: WorkerState, c: JobCall, t: Trigger)
    requires c.id in w.monitors
    ensures Sees(w, c, t, Observe(w.db, RequestOf(w, c), t))
  {
    var items := LatencyItems(w.db, c.id);
    assert LatencyItemsAre(w.db, c.id, items);
    assert t.metric.Some? ==> t.metric.value == LatencyMs;
    ObserveRule(w.db, RequestOf(w, c), t, items);
  }

  /** A job judges the enabled triggers of its monitor by what they see: a latency that breaches the
      threshold leaves PROBLEM, one that does not leaves OK, none leaves the state. */
  lemma {:induction false} TriggerRule(w: WorkerState, c: JobCall, id: Id) returns (observed: Option<real>)
    requires WellKeyed(w.db) && Probes(w, c) && IsScan(c.rows, Selected(w.db, OnMonitor(c.id))) && id in w.db.triggers
    ensures var t, after := w.db.triggers[id], JobStep(w, c).db;
            && id in after.triggers && Sees(w, c, t, observed)
            && if t.enabled && t.target == OnMonitor(c.id) then StateRule(t, after.triggers[id], observed, c.now)
               else after.triggers[id] == t
  {
    observed := Observe(w.db, RequestOf(w, c), w.db.triggers[id]);
    JobSees(w, c, w.db.triggers[id]);
    EvaluationRule(w.db, RequestOf(w, c), c.rows, id);
  }

  /** The case of a LAST trigger on the latency, with the operators written out. */
  lemma LatencyRule(w: WorkerState, c: JobCall, id: Id)
    requires WellKeyed(w.db) && Probes(w, c) && IsScan(c.rows, Selected(w.db, OnMonitor(c.id))) && id in c.rows
    requires id in w.db.triggers && w.db.triggers[id].metric == Some(LatencyMs) && w.db.triggers[id].aggregation == Last
    ensures var t, after, latency := w.db.triggers[id], JobStep(w, c).db, FinalAttempt(w, c).latencyMs;
            && id in after.triggers
            && (latency.None? ==> after.triggers[id].state == t.state)
            && (latency.Some? ==> (after.triggers[id].state == PROBLEM <==>
                  || (t.operator == Gt && latency.value > t.threshold) || (t.operator == Ge && latency.value >= t.threshold)
                  || (t.operator == Lt && latency.value < t.threshold) || (t.operator == Le && latency.value <= t.threshold)))
  {
    var observed := TriggerRule(w, c, id);
    assert id in Selected(w.db, OnMonitor(c.id));
  }

  /** A trigger the job drives into PROBLEM opens one event, of the monitor's owner and under the
      monitor's name, with the value the trigger saw. */
  lemma {:induction false} JobOpens(w: WorkerState, c: JobCall, id: Id) returns (e: Id)
    requires WellKeyed(w.db) && Probes(w, c) && NoDuplicates(c.rows) && id in c.rows
    requires id in w.db.triggers && w.db.triggers[id].state == OK
    requires id in JobStep(w, c).db.triggers && JobStep(w, c).db.triggers[id].state == PROBLEM
    ensures var m, t, after := w.monitors[c.id], w.db.triggers[id], JobStep(w, c).db;
            && e !in w.db.events && EventsOf(after, id) == EventsOf(w.db, id) + {e}
            && Sees(w, c, t, Some(after.events[e].value))
            && after.events[e] == ProblemEvent(id, m.owner, m.name, t.name, t.severity, after.events[e].value, c.now,
                                               None, None, None, 0)
  {
    e := RecordRule(w.db, RequestOf(w, c), c.rows, id);
    JobSees(w, c, w.db.triggers[id]);
    var evaluated := EvalRows(w.db, RequestOf(w, c), c.rows).0;
    assert EventsOf(JobStep(w, c).db, id) == EventsOf(evaluated, id);
    assert e in EventsOf(evaluated, id);
  }

  // ---- The alerts ----

  /** A trigger alert quotes a trigger the job's query returned, and the value that trigger saw. */
  ghost predicate QuotedBy(w: WorkerState, c: JobCall, f: Fired)
    requires c.id in w.monitors
  {
    && f.trigger in c.rows && f.trigger in w.db.triggers
    && var t := w.db.triggers[f.trigger];
       && Sees(w, c, t, Some(f.value)) && f.newState != t.state
       && f == Fired(f.trigger, t.name, t.severity, t.metric, t.operator, t.threshold, f.value, f.newState)
  }

  /** The trigger is among the fired ones once if its state changed, with the new state. */
  ghost predicate FiresItsChange(w: WorkerState, c: JobCall, fired: seq<Fired>, id: Id)
    requires id in w.db.triggers
  {
    var before, after := w.db.triggers[id].state, JobStep(w, c).db.triggers;
    id in after && StatesOf(fired, id) == if after[id].state == before then [] else [after[id].state]
  }

  /** A job dispatches its status alert, if it went from UP to DOWN or back, and then one alert per
      trigger that changed. */
  lemma {:induction false} DispatchRule(w: WorkerState, c: JobCall) returns (fired: seq<Fired>)
    requires WellKeyed(w.db) && Probes(w, c) && NoDuplicates(c.rows)
    ensures var m, final, after := w.monitors[c.id], FinalAttempt(w, c), JobStep(w, c);
            var current := if final.status == ProbeUp then UP else DOWN;
            after.dispatched == w.dispatched
              + (if (m.status == UP && current == DOWN) || (m.status == DOWN && current == UP)
                 then [StatusAlert(c.id, m.status, current, final.latencyMs, final.error)] else [])
              + seq(|fired|, i requires 0 <= i < |fired| => TriggerAlert(c.id, fired[i], c.now))
    ensures forall f :: f in fired ==> QuotedBy(w, c, f)
    ensures forall id :: id in c.rows && id in w.db.triggers ==> FiresItsChange(w, c, fired, id)
  {
    fired := EvalRows(w.db, RequestOf(w, c), c.rows).1;
    forall f | f in fired ensures QuotedBy(w, c, f) {
      FiredRule(w.db, RequestOf(w, c), c.rows, f);
      JobSees(w, c, w.db.triggers[f.trigger]);
    }
    forall id | id in c.rows && id in w.db.triggers ensures FiresItsChange(w, c, fired, id) {
      EvalRowsAt(w.db, RequestOf(w, c), c.rows, id);
    }
  }
}
