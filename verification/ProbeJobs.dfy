/** Probe jobs: the retry loop, the status of a monitor with its alerts, and the mirroring of a
    probe into the alert pipeline. */
module ProbeJobs {
  import opened Common
  import opened History
  import opened AlertModel
  import opened AlertStore
  import AlertRuns

  datatype ProbeStatus = ProbeUp | ProbeDown

  datatype Attempt = Attempt(status: ProbeStatus, latencyMs: Option<real>, error: string, at: int)

  datatype MonitorStatus = UP | DOWN | PENDING | PAUSED

  datatype Monitor = Monitor(name: string, owner: Id, retries: int, status: MonitorStatus)

  datatype ProbeResult = ProbeResult(monitor: Id, attempt: Attempt)

  datatype Alert =
    | StatusAlert(monitor: Id, previous: MonitorStatus, current: MonitorStatus, latencyMs: Option<real>, error: string)
    | TriggerAlert(monitor: Id, fired: Fired, at: int)

  /** The items a monitor's probe signals are mirrored into. */
  datatype Backing = Backing(latency: Id, status: Id, error: Id)

  // ---- Retries ----

  /** The attempts from number `i` on; `probe(i)` is what the network answers to attempt `i`. */
  function Attempts(retries: int, probe: nat -> Attempt, i: nat): seq<Attempt>
    decreases retries - i
  {
    if probe(i).status.ProbeUp? || i >= retries then [probe(i)]
    else [probe(i)] + Attempts(retries, probe, i + 1)
  }

  function JobStatus(retries: int, probe: nat -> Attempt): MonitorStatus {
    var attempts := Attempts(retries, probe, 0);
    if attempts[|attempts| - 1].status.ProbeUp? then UP else DOWN
  }

  function Tries(retries: int): nat { if retries < 0 then 1 else retries + 1 }

  lemma {:induction false} AttemptsShape(retries: int, probe: nat -> Attempt, i: nat)
    requires i < Tries(retries)
    ensures var attempts := Attempts(retries, probe, i);
            && 1 <= |attempts| <= Tries(retries) - i
            && (forall j :: 0 <= j < |attempts| ==> attempts[j] == probe(i + j))
            && (forall j :: 0 <= j < |attempts| - 1 ==> attempts[j].status.ProbeDown?)
            && (attempts[|attempts| - 1].status.ProbeUp? || |attempts| == Tries(retries) - i)
    decreases retries - i
  {
    if !(probe(i).status.ProbeUp? || i >= retries) {
      var rest := Attempts(retries, probe, i + 1);
      AttemptsShape(retries, probe, i + 1);
      var attempts := [probe(i)] + rest;
      forall j | 0 <= j < |attempts|
        ensures attempts[j] == probe(i + j) && (j < |attempts| - 1 ==> attempts[j].status.ProbeDown?)
      {
        if j > 0 { assert attempts[j] == rest[j - 1]; }
      }
    }
  }

  /** A job makes between one and retries + 1 attempts, all but the last of them down; it ends
      down exactly when every one of the retries + 1 possible attempts is down. */
  lemma JobRule(retries: int, probe: nat -> Attempt)
    ensures var attempts := Attempts(retries, probe, 0);
            && 1 <= |attempts| <= Tries(retries)
            && (forall j :: 0 <= j < |attempts| - 1 ==> attempts[j].status.ProbeDown?)
            && (JobStatus(retries, probe) == DOWN <==> forall i :: 0 <= i < Tries(retries) ==> probe(i).status.ProbeDown?)
  {
    AttemptsShape(retries, probe, 0);
    var attempts := Attempts(retries, probe, 0);
    var last := |attempts| - 1;
    assert attempts[last] == probe(last);
    if attempts[last].status.ProbeDown? {
      forall i | 0 <= i < Tries(retries) ensures probe(i).status.ProbeDown? {
        assert attempts[i] == probe(i);
      }
    }
  }

  lemma OneMoreFailure(retries: int, probe: nat -> Attempt, i: nat, failed: seq<Attempt>)
    requires probe(i).status.ProbeDown? && i < retries
    ensures failed + Attempts(retries, probe, i) == failed + [probe(i)] + Attempts(retries, probe, i + 1)
  {
  }

  method ProbeWithRetries(retries: int, probe: nat -> Attempt) returns (attempts: seq<Attempt>)
    ensures attempts == Attempts(retries, probe, 0)
  {
    attempts := [probe(0)];
    if probe(0).status.ProbeUp? {
      return;
    }
    ghost var failed: seq<Attempt> := [];
    var i: nat := 0;
    while i < retries
      invariant attempts == failed + [probe(i)] && probe(i).status.ProbeDown?
      invariant failed + Attempts(retries, probe, i) == Attempts(retries, probe, 0)
    {
      OneMoreFailure(retries, probe, i, failed);
      failed := attempts;
      i := i + 1;
      attempts := attempts + [probe(i)];
      if probe(i).status.ProbeUp? {
        break;
      }
    }
  }

  // ---- One job ----

  /** Only UP <-> DOWN transitions alert, never the first probe of a pending monitor. */
  predicate Announces(previous: MonitorStatus, current: MonitorStatus) {
    (previous == UP || previous == DOWN) && previous != current
  }

  function StatusAlerts(id: Id, previous: MonitorStatus, current: MonitorStatus, final: Attempt): seq<Alert> {
    if Announces(previous, current)
    then [StatusAlert(id, previous, current, final.latencyMs, final.error)] else []
  }

  function TriggerAlerts(id: Id, fired: seq<Fired>, at: int): seq<Alert> {
    seq(|fired|, i requires 0 <= i < |fired| => TriggerAlert(id, fired[i], at))
  }

  function ResultsOf(id: Id, attempts: seq<Attempt>): seq<ProbeResult> {
    if attempts == [] then []
    else ResultsOf(id, attempts[..|attempts| - 1]) + [ProbeResult(id, attempts[|attempts| - 1])]
  }

  /** Status always; latency and error when present. */
  function MirroredSamples(backing: Backing, current: MonitorStatus, final: Attempt, now: int): seq<Sample> {
    [Sample(backing.status, Some(if current == UP then 1.0 else 0.0), now)]
    + (if final.latencyMs.Some? then [Sample(backing.latency, final.latencyMs, now)] else [])
    + (if final.error != "" then [Sample(backing.error, None, now)] else [])
  }

  /** A probe job asks the monitor's triggers about the latency it just measured. */
  function JobRequest(id: Id, m: Monitor, final: Attempt, now: int): Request {
    MonitorEval(id, map[LatencyMs := final.latencyMs], now, Some(m.owner), Some(m.name))
  }

  predicate Runs(monitors: map<Id, Monitor>, id: Id, underMaintenance: bool) {
    id in monitors && monitors[id].status != PAUSED && !underMaintenance
  }

  /** One run of a monitor's job: what the network answers to it, when it concludes, and the rows
      and items its queries return. Jobs of a monitor under maintenance are skipped. */
  datatype JobCall = JobCall(id: Id, underMaintenance: bool, probe: nat -> Attempt, now: int, rows: seq<Id>,
                             backing: Backing)

  datatype WorkerState = WorkerState(db: Db, monitors: map<Id, Monitor>, results: seq<ProbeResult>,
                                     dispatched: seq<Alert>)

  /** Everything after the probing: status, triggers, mirror, alerts. The triggers are evaluated
      before the new sample is mirrored, so a windowed trigger does not see the probe it is
      evaluated after. */
  function Concluded(w: WorkerState, c: JobCall, final: Attempt): WorkerState
    requires c.id in w.monitors
  {
    var m := w.monitors[c.id];
    var current := if final.status.ProbeUp? then UP else DOWN;
    var (evaluated, fired) := EvalRows(w.db, JobRequest(c.id, m, final, c.now), c.rows);
    WorkerState(evaluated.(samples := evaluated.samples + MirroredSamples(c.backing, current, final, c.now)),
                w.monitors[c.id := m.(status := current)], w.results,
                w.dispatched + StatusAlerts(c.id, m.status, current, final) + TriggerAlerts(c.id, fired, c.now))
  }

  function JobStep(w: WorkerState, c: JobCall): WorkerState {
    if !Runs(w.monitors, c.id, c.underMaintenance) then w
    else
      var attempts := Attempts(w.monitors[c.id].retries, c.probe, 0);
      Concluded(w.(results := w.results + ResultsOf(c.id, attempts)), c, attempts[|attempts| - 1])
  }

  class ProbeWorker {
    const store: Store
    var monitors: map<Id, Monitor>
    var results: seq<ProbeResult>
    var dispatched: seq<Alert>

    function Snapshot(): WorkerState
      reads this, store
    {
      WorkerState(store.Snapshot(), monitors, results, dispatched)
    }

    constructor (store: Store)
      ensures this.store == store && monitors == map[] && results == [] && dispatched == []
    {
      this.store := store;
      monitors, results, dispatched := map[], [], [];
    }

    method Mirror(backing: Backing, current: MonitorStatus, final: Attempt, now: int)
      modifies store
      ensures store.Snapshot() == old(store.Snapshot()).(samples :=
                old(store.Snapshot()).samples + MirroredSamples(backing, current, final, now))
    {
      store.RecordSample(Sample(backing.status, Some(if current == UP then 1.0 else 0.0), now));
      if final.latencyMs.Some? {
        store.RecordSample(Sample(backing.latency, final.latencyMs, now));
      }
      if final.error != "" {
        store.RecordSample(Sample(backing.error, None, now));
      }
    }

    method Conclude(c: JobCall, final: Attempt)
      requires c.id in monitors && IsScan(c.rows, Selected(store.Snapshot(), OnMonitor(c.id)))
      modifies this`monitors, this`dispatched, store
      ensures Snapshot() == Concluded(old(Snapshot()), c, final)
    {
      var m := monitors[c.id];
      var previous := m.status;
      var current := if final.status.ProbeUp? then UP else DOWN;
      monitors := monitors[c.id := m.(status := current)];
      var fired := store.Evaluate(JobRequest(c.id, m, final, c.now), c.rows);
      Mirror(c.backing, current, final, c.now);
      if (previous == UP || previous == DOWN) && previous != current {
        dispatched := dispatched + [StatusAlert(c.id, previous, current, final.latencyMs, final.error)];
      } else {
        assert dispatched + [] == dispatched;
      }
      dispatched := dispatched + TriggerAlerts(c.id, fired, c.now);
    }

    method RecordResults(id: Id, attempts: seq<Attempt>)
      modifies this`results
      ensures results == old(results) + ResultsOf(id, attempts)
    {
      for i := 0 to |attempts|
        invariant results == old(results) + ResultsOf(id, attempts[..i])
      {
        assert attempts[..i + 1][..i] == attempts[..i];
        results := results + [ProbeResult(id, attempts[i])];
      }
      assert attempts[..|attempts|] == attempts;
    }

    method RunProbeJob(c: JobCall)
      requires IsScan(c.rows, Selected(store.Snapshot(), OnMonitor(c.id)))
      modifies this, store
      ensures Snapshot() == JobStep(old(Snapshot()), c)
    {
      if c.id !in monitors {
        return;
      }
      var m := monitors[c.id];
      if m.status == PAUSED || c.underMaintenance {
        return;
      }
      var attempts := ProbeWithRetries(m.retries, c.probe);
      RecordResults(c.id, attempts);
      Conclude(c, attempts[|attempts| - 1]);
    }
  }

  function Records(samples: seq<Sample>): seq<AlertRuns.Action> {
    if samples == [] then [] else [AlertRuns.Record(samples[0])] + Records(samples[1..])
  }

  lemma {:induction false} RecordsRun(db: Db, samples: seq<Sample>)
    ensures AlertRuns.IsRun(db, Records(samples))
    ensures AlertRuns.Run(db, Records(samples)) == db.(samples := db.samples + samples)
    decreases samples
  {
    if samples == [] {
      assert db.samples + samples == db.samples;
    } else {
      var next := db.(samples := db.samples + [samples[0]]);
      RecordsRun(next, samples[1..]);
      assert next.samples + samples[1..] == db.samples + samples;
    }
  }

  /** The pipeline steps a job consists of: one evaluation, then its mirrored samples. */
  function JobActions(w: WorkerState, c: JobCall): seq<AlertRuns.Action> {
    if !Runs(w.monitors, c.id, c.underMaintenance) then []
    else
      var m := w.monitors[c.id];
      var attempts := Attempts(m.retries, c.probe, 0);
      var final, current := attempts[|attempts| - 1], JobStatus(m.retries, c.probe);
      [AlertRuns.Evaluation(JobRequest(c.id, m, final, c.now), c.rows)]
      + Records(MirroredSamples(c.backing, current, final, c.now))
  }

  lemma JobIsARun(w: WorkerState, c: JobCall)
    requires IsScan(c.rows, Selected(w.db, OnMonitor(c.id)))
    ensures AlertRuns.IsRun(w.db, JobActions(w, c)) && AlertRuns.Run(w.db, JobActions(w, c)) == JobStep(w, c).db
  {
    var actions := JobActions(w, c);
    if actions != [] {
      var m := w.monitors[c.id];
      var attempts := Attempts(m.retries, c.probe, 0);
      var mirrored := MirroredSamples(c.backing, JobStatus(m.retries, c.probe), attempts[|attempts| - 1], c.now);
      RecordsRun(AlertRuns.Next(w.db, actions[0]), mirrored);
      assert actions[1..] == Records(mirrored);
    }
  }

  // ---- Runs of jobs ----

  function JobRun(w: WorkerState, calls: seq<JobCall>): WorkerState
    decreases calls
  {
    if calls == [] then w else JobRun(JobStep(w, calls[0]), calls[1..])
  }

  /** Each job's query returned the triggers of its monitor. */
  ghost predicate Scanned(w: WorkerState, calls: seq<JobCall>)
    decreases calls
  {
    calls == [] || (IsScan(calls[0].rows, Selected(w.db, OnMonitor(calls[0].id)))
                    && Scanned(JobStep(w, calls[0]), calls[1..]))
  }

  function RunActions(w: WorkerState, calls: seq<JobCall>): seq<AlertRuns.Action>
    decreases calls
  {
    if calls == [] then [] else JobActions(w, calls[0]) + RunActions(JobStep(w, calls[0]), calls[1..])
  }

  /** What the jobs of any monitors do to the tables is a run of the alert pipeline, so everything
      proved of runs holds of them. */
  lemma {:induction false} JobsAreARun(w: WorkerState, calls: seq<JobCall>)
    requires Scanned(w, calls)
    ensures AlertRuns.IsRun(w.db, RunActions(w, calls))
    ensures AlertRuns.Run(w.db, RunActions(w, calls)) == JobRun(w, calls).db
    decreases calls
  {
    if calls != [] {
      var next := JobStep(w, calls[0]);
      JobIsARun(w, calls[0]);
      JobsAreARun(next, calls[1..]);
      AlertRuns.RunSplits(w.db, JobActions(w, calls[0]), RunActions(next, calls[1..]));
    }
  }

  // ---- The status alerts of a monitor ----

  /** The status alerts of one monitor among all dispatched alerts, as (previous, current). */
  function Transitions(alerts: seq<Alert>, id: Id): seq<(MonitorStatus, MonitorStatus)> {
    if alerts == [] then []
    else
      var a := alerts[|alerts| - 1];
      Transitions(alerts[..|alerts| - 1], id)
      + if a.StatusAlert? && a.monitor == id then [(a.previous, a.current)] else []
  }

  lemma {:induction false} TransitionsAppend(a: seq<Alert>, b: seq<Alert>, id: Id)
    ensures Transitions(a + b, id) == Transitions(a, id) + Transitions(b, id)
  {
    if b == [] {
      assert a + b == a;
    } else {
      assert (a + b)[..|a + b| - 1] == a + b[..|b| - 1];
      TransitionsAppend(a, b[..|b| - 1], id);
    }
  }

  lemma {:induction false} TriggerAlertsSilent(alerts: seq<Alert>, id: Id)
    requires forall i :: 0 <= i < |alerts| ==> alerts[i].TriggerAlert? || alerts[i].monitor != id
    ensures Transitions(alerts, id) == []
  {
    if alerts != [] { TriggerAlertsSilent(alerts[..|alerts| - 1], id); }
  }

  /** The status a job of the monitor ended in, if it ran. */
  function StatusOf(w: WorkerState, c: JobCall, id: Id): seq<MonitorStatus> {
    if c.id == id && Runs(w.monitors, id, c.underMaintenance) then [JobStatus(w.monitors[id].retries, c.probe)] else []
  }

  function Statuses(w: WorkerState, calls: seq<JobCall>, id: Id): seq<MonitorStatus>
    decreases calls
  {
    if calls == [] then [] else StatusOf(w, calls[0], id) + Statuses(JobStep(w, calls[0]), calls[1..], id)
  }

  lemma StepMonitors(w: WorkerState, c: JobCall, id: Id)
    requires id in w.monitors
    ensures var after := JobStep(w, c).monitors;
            && id in after
            && after[id].status == FinalOf(w.monitors[id].status, StatusOf(w, c, id))
  {
  }

  lemma OwnTransition(monitor: Id, previous: MonitorStatus, current: MonitorStatus, final: Attempt, id: Id)
    ensures Transitions(StatusAlerts(monitor, previous, current, final), id)
         == if monitor == id && Announces(previous, current) then [(previous, current)] else []
  {
    if Announces(previous, current) {
      var alert := StatusAlert(monitor, previous, current, final.latencyMs, final.error);
      assert [alert][..0] == [];
    }
  }

  lemma StepTransitions(w: WorkerState, c: JobCall, id: Id)
    requires id in w.monitors
    ensures var ran := StatusOf(w, c, id);
            var previous := w.monitors[id].status;
            Transitions(JobStep(w, c).dispatched, id) == Transitions(w.dispatched, id)
              + if ran != [] && Announces(previous, ran[0]) then [(previous, ran[0])] else []
  {
    if Runs(w.monitors, c.id, c.underMaintenance) {
      var m := w.monitors[c.id];
      var attempts := Attempts(m.retries, c.probe, 0);
      var final, current := attempts[|attempts| - 1], JobStatus(m.retries, c.probe);
      var first := StatusAlerts(c.id, m.status, current, final);
      var second := TriggerAlerts(c.id, EvalRows(w.db, JobRequest(c.id, m, final, c.now), c.rows).1, c.now);
      assert JobStep(w, c).dispatched == w.dispatched + first + second;
      TransitionsAppend(w.dispatched + first, second, id);
      TransitionsAppend(w.dispatched, first, id);
      TriggerAlertsSilent(second, id);
      OwnTransition(c.id, m.status, current, final, id);
    }
  }

  /** Each change together with what it changed. */
  function PairUp(start: MonitorStatus, changes: seq<MonitorStatus>): seq<(MonitorStatus, MonitorStatus)>
    decreases changes
  {
    if changes == [] then [] else [(start, changes[0])] + PairUp(changes[0], changes[1..])
  }

  /** What a monitor in `status` should announce while its jobs end in `statuses`: every change,
      but nothing on leaving PENDING. */
  function Announced(status: MonitorStatus, statuses: seq<MonitorStatus>): seq<(MonitorStatus, MonitorStatus)> {
    if statuses == [] || status == PAUSED then []
    else if status == PENDING then PairUp(statuses[0], Compress(statuses[0], statuses[1..]))
    else PairUp(status, Compress(status, statuses))
  }

  /** Every alert reports a change, and starts from where the one before it ended. */
  ghost predicate Chained(pairs: seq<(MonitorStatus, MonitorStatus)>) {
    && (forall i :: 0 <= i < |pairs| ==> pairs[i].0 != pairs[i].1)
    && (forall i :: 0 < i < |pairs| ==> pairs[i].0 == pairs[i - 1].1)
  }

  lemma {:induction false} ChangesChain(start: MonitorStatus, changes: seq<MonitorStatus>)
    requires Alternates(start, changes)
    ensures var pairs := PairUp(start, changes); Chained(pairs) && (pairs != [] ==> pairs[0].0 == start)
    decreases changes
  {
    if changes != [] {
      ChangesChain(changes[0], changes[1..]);
    }
  }

  lemma AnnouncedChains(status: MonitorStatus, statuses: seq<MonitorStatus>)
    ensures Chained(Announced(status, statuses))
  {
    if statuses != [] && status != PAUSED {
      var (start, rest) := if status == PENDING then (statuses[0], statuses[1..]) else (status, statuses);
      CompressAlternates(start, rest);
      ChangesChain(start, Compress(start, rest));
    }
  }

  /** One more job ahead, if it ran. */
  lemma AnnouncedStep(status: MonitorStatus, ran: seq<MonitorStatus>, later: seq<MonitorStatus>)
    requires |ran| <= 1 && (ran != [] ==> status != PAUSED && (ran[0] == UP || ran[0] == DOWN))
    ensures Announced(status, ran + later) ==
            (if ran != [] && Announces(status, ran[0]) then [(status, ran[0])] else [])
            + Announced(FinalOf(status, ran), later)
  {
    if ran == [] {
      assert ran + later == later && [] + Announced(status, later) == Announced(status, later);
    } else {
      var statuses, current := ran + later, ran[0];
      assert statuses[0] == current && statuses[1..] == later;
      if status != PENDING && status != current {
        var rest := Compress(current, later);
        assert Compress(status, statuses) == [current] + rest;
        assert ([current] + rest)[0] == current && ([current] + rest)[1..] == rest;
        assert PairUp(status, [current] + rest) == [(status, current)] + PairUp(current, rest);
        assert Announced(current, later) == PairUp(current, rest);
      } else {
        assert [] + Announced(current, later) == Announced(current, later);
      }
    }
  }

  /** What a step that ended `ran` does to one monitor and its alerts. */
  ghost predicate Follows(w: WorkerState, next: WorkerState, ran: seq<MonitorStatus>, id: Id) {
    && id in w.monitors && id in next.monitors && |ran| <= 1
    && var previous := w.monitors[id].status;
       && (ran != [] ==> previous != PAUSED && (ran[0] == UP || ran[0] == DOWN))
       && next.monitors[id].status == FinalOf(previous, ran)
       && Transitions(next.dispatched, id) == Transitions(w.dispatched, id)
            + if ran != [] && Announces(previous, ran[0]) then [(previous, ran[0])] else []
  }

  lemma StepFollows(w: WorkerState, c: JobCall, id: Id)
    requires id in w.monitors
    ensures Follows(w, JobStep(w, c), StatusOf(w, c, id), id)
  {
    StepMonitors(w, c, id);
    StepTransitions(w, c, id);
  }

  lemma Extend(w: WorkerState, next: WorkerState, ran: seq<MonitorStatus>, later: seq<MonitorStatus>, id: Id)
    requires Follows(w, next, ran, id)
    ensures Transitions(next.dispatched, id) + Announced(next.monitors[id].status, later)
         == Transitions(w.dispatched, id) + Announced(w.monitors[id].status, ran + later)
  {
    AnnouncedStep(w.monitors[id].status, ran, later);
  }

  /** Over any run of jobs of any monitors, with their trigger alerts in between, the status alerts
      of a monitor are the changes in the statuses its own jobs ended in: each starts where the one
      before ended, leaving PENDING is silent, and a paused monitor stays so. */
  lemma {:induction false} StatusAlertTrace(w: WorkerState, calls: seq<JobCall>, id: Id)
    requires id in w.monitors
    ensures var told := Announced(w.monitors[id].status, Statuses(w, calls, id));
            Transitions(JobRun(w, calls).dispatched, id) == Transitions(w.dispatched, id) + told && Chained(told)
    decreases calls
  {
    AnnouncedChains(w.monitors[id].status, Statuses(w, calls, id));
    if calls != [] {
      var next, rest := JobStep(w, calls[0]), calls[1..];
      StepFollows(w, calls[0], id);
      StatusAlertTrace(next, rest, id);
      Extend(w, next, StatusOf(w, calls[0], id), Statuses(next, rest, id), id);
    }
  }
}
