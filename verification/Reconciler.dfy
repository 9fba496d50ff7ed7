/** Reconciliation of the live job table with the monitors that should be probed. */
module Reconciler {
  import opened Common
  import opened ProbeJobs

  /** Job ids are the housekeeping jobs' fixed names or monitor ids. */
  datatype JobId = Reserved(name: string) | ProbeOf(monitor: Id)

  datatype JobTrigger = Interval(seconds: int) | OtherTrigger

  datatype ScheduledJob = ScheduledJob(trigger: JobTrigger, nextRun: int)

  datatype MonitorRow = MonitorRow(interval: int, status: MonitorStatus)

  /** The intervals of all monitors that are not paused. */
  function Desired(monitors: map<Id, MonitorRow>): map<Id, int> {
    map m | m in monitors && monitors[m].status != PAUSED :: monitors[m].interval
  }

  /** A missing job starts within a second; a job on another interval is rescheduled; a correct
      job is not touched. */
  function Settled(jobs: map<JobId, ScheduledJob>, id: JobId, interval: int, now: int): ScheduledJob {
    if id !in jobs then ScheduledJob(Interval(interval), now + SECOND)
    else if jobs[id].trigger == Interval(interval) then jobs[id]
    else ScheduledJob(Interval(interval), now + interval * SECOND)
  }

  /** The managed jobs are the desired ones on the desired intervals; reserved jobs and jobs that
      were already right are unchanged, next run included. */
  ghost predicate Converged(before: map<JobId, ScheduledJob>, after: map<JobId, ScheduledJob>, desired: map<Id, int>,
                            now: int) {
    && (forall m :: ProbeOf(m) in after <==> m in desired)
    && (forall m :: m in desired ==> after[ProbeOf(m)] == Settled(before, ProbeOf(m), desired[m], now))
    && (forall j: JobId :: j.Reserved? ==> (j in after <==> j in before) && (j in after ==> after[j] == before[j]))
  }

  class JobTable {
    var jobs: map<JobId, ScheduledJob>

    constructor ()
      ensures jobs == map[]
    {
      jobs := map[];
    }

    method RemoveJob(id: JobId)
      modifies this
      ensures jobs == old(jobs) - {id}
    {
      jobs := jobs - {id};
    }

    method AddJob(id: JobId, job: ScheduledJob)
      modifies this
      ensures jobs == old(jobs)[id := job]
    {
      jobs := jobs[id := job];
    }

    /** A rescheduled job next runs one interval from now. */
    method RescheduleJob(id: JobId, seconds: int, now: int)
      modifies this
      ensures jobs == old(jobs)[id := ScheduledJob(Interval(seconds), now + seconds * SECOND)]
    {
      jobs := jobs[id := ScheduledJob(Interval(seconds), now + seconds * SECOND)];
    }

    method RemoveStale(desired: map<Id, int>)
      modifies this
      ensures jobs == map j | j in old(jobs) && (j.ProbeOf? ==> j.monitor in desired) :: old(jobs)[j]
    {
      var stale := set j | j in jobs && j.ProbeOf? && j.monitor !in desired;
      ghost var all := stale;
      while stale != {}
        invariant stale <= all
        invariant jobs == map j | j in old(jobs) && (j !in all || j in stale) :: old(jobs)[j]
        decreases stale
      {
        var j :| j in stale;
        RemoveJob(j);
        stale := stale - {j};
      }
    }

    method ReconcileOne(m: Id, interval: int, now: int)
      modifies this
      ensures jobs == old(jobs)[ProbeOf(m) := Settled(old(jobs), ProbeOf(m), interval, now)]
    {
      var id := ProbeOf(m);
      if id !in jobs {
        AddJob(id, ScheduledJob(Interval(interval), now + SECOND));
        return;
      }
      var current := if jobs[id].trigger.Interval? then Some(jobs[id].trigger.seconds) else None;
      if current != Some(interval) {
        RescheduleJob(id, interval, now);
      } else {
        assert jobs == jobs[id := jobs[id]];
      }
    }

    method SettleAll(desired: map<Id, int>, now: int)
      modifies this
      ensures forall j :: j in jobs <==> j in old(jobs) || (j.ProbeOf? && j.monitor in desired)
      ensures forall j :: j in jobs ==>
                jobs[j] == if j.ProbeOf? && j.monitor in desired then Settled(old(jobs), j, desired[j.monitor], now)
                           else old(jobs)[j]
    {
      var pending := desired.Keys;
      while pending != {}
        invariant pending <= desired.Keys
        invariant forall j :: j in jobs <==> j in old(jobs) || (j.ProbeOf? && j.monitor in desired.Keys - pending)
        invariant forall j :: j in jobs ==>
                    jobs[j] == if j.ProbeOf? && j.monitor in desired.Keys - pending
                               then Settled(old(jobs), j, desired[j.monitor], now) else old(jobs)[j]
        decreases pending
      {
        var m :| m in pending;
        ReconcileOne(m, desired[m], now);
        pending := pending - {m};
      }
    }

    method Reconcile(monitors: map<Id, MonitorRow>, now: int)
      modifies this
      ensures Converged(old(jobs), jobs, Desired(monitors), now)
    {
      var desired := Desired(monitors);
      RemoveStale(desired);
      SettleAll(desired, now);
    }
  }

  /** After a reconcile exactly the monitors that are not paused have a job, each on its interval: a
      new one first runs in a second, one that was on another interval in one interval, and one that
      was right keeps its next run. Reserved jobs stay. */
  lemma ReconcileRule(before: map<JobId, ScheduledJob>, after: map<JobId, ScheduledJob>,
                      monitors: map<Id, MonitorRow>, now: int, m: Id, name: string)
    requires Converged(before, after, Desired(monitors), now)
    ensures ProbeOf(m) in after <==> m in monitors && monitors[m].status != PAUSED
    ensures ProbeOf(m) in after ==>
              var id, interval := ProbeOf(m), monitors[m].interval;
              && after[id].trigger == Interval(interval)
              && after[id].nextRun == if id !in before then now + 1_000_000
                                      else if before[id].trigger == Interval(interval) then before[id].nextRun
                                      else now + interval * 1_000_000
    ensures Reserved(name) in after <==> Reserved(name) in before
    ensures Reserved(name) in after ==> after[Reserved(name)] == before[Reserved(name)]
  {
    assert m in Desired(monitors) <==> m in monitors && monitors[m].status != PAUSED;
  }

  /** Reconciling determines the table, runs every desired job on its interval, and, done again at
      any later time against the same monitors, changes nothing. */
  lemma ReconcileConverges(before: map<JobId, ScheduledJob>, once: map<JobId, ScheduledJob>,
                           twice: map<JobId, ScheduledJob>, desired: map<Id, int>, now: int, later: int)
    requires Converged(before, once, desired, now) && Converged(once, twice, desired, later)
    ensures twice == once
    ensures forall m :: m in desired ==> once[ProbeOf(m)].trigger == Interval(desired[m])
    ensures forall m :: m in desired && ProbeOf(m) in before && before[ProbeOf(m)].trigger == Interval(desired[m])
                        ==> once[ProbeOf(m)] == before[ProbeOf(m)]
  {
    forall j ensures j in twice <==> j in once {
      if j.ProbeOf? { assert j == ProbeOf(j.monitor); }
    }
    forall j | j in once ensures twice[j] == once[j] {
      if j.ProbeOf? { assert j == ProbeOf(j.monitor); }
    }
  }
}
