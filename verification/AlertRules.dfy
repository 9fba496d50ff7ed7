/** The alert pipeline in terms of the columns: which state an evaluation leaves, what it fires and
    records, and which problems a tick escalates to whom. */
module AlertRules {
  import opened Common
  import opened History
  import opened AlertModel
  import opened Escalation
  import opened AlertRuns

  // ---- What a trigger observes ----

  /** The items a windowed trigger aggregates: the latency items of the monitor's host, or the item. */
  ghost predicate Measures(db: Db, req: Request, i: Id) {
    match req
    case MonitorEval(monitor, _, _, _, _) =>
      i in db.items && db.items[i].key == "latency_ms" && monitor in db.monitorHosts && db.items[i].host == db.monitorHosts[monitor]
    case ItemEval(item, _, _, _, _, _) => i == item
  }

  /** A LAST trigger, or one without a window, observes the value handed over; any other one the
      aggregate of its items' samples no older than the window. A monitor trigger without a metric
      observes nothing. */
  lemma ObserveRule(db: Db, req: Request, t: Trigger, items: set<Id>)
    requires forall i: Id :: i in items <==> Measures(db, req, i)
    ensures Observe(db, req, t) ==
            if req.MonitorEval? && t.metric.None? then None
            else if t.aggregation == Last || t.windowSeconds <= 0 then
              if req.ItemEval? then req.latest
              else if t.metric.value in req.values then req.values[t.metric.value] else None
            else Aggregate(t.aggregation, Window(db.samples, items, req.now - t.windowSeconds * 1_000_000))
  {
    if req.MonitorEval? {
      assert items == LatencyItems(db, req.monitor);
    } else {
      assert items == {req.item};
    }
  }

  // ---- The state after an evaluation ----

  /** PROBLEM exactly when the observed value breaches the threshold, and the time of the change;
      without a value nothing changes. */
  ghost predicate StateRule(t: Trigger, after: Trigger, observed: Option<real>, now: int) {
    match observed
    case None => after == t
    case Some(v) =>
      && (after.state == PROBLEM <==>
            || (t.operator == Gt && v > t.threshold) || (t.operator == Ge && v >= t.threshold)
            || (t.operator == Lt && v < t.threshold) || (t.operator == Le && v <= t.threshold))
      && after == t.(state := after.state,
                     stateChangedAt := if after.state == t.state then t.stateChangedAt else Some(now))
  }

  lemma SettleState(db: Db, id: Id, newState: TriggerState, value: real, now: int, entry: Option<(Id, string)>)
    requires id in db.triggers
    ensures var after := Settle(db, id, newState, value, now, entry);
            id in after.triggers && after.triggers[id] == db.triggers[id].(state := newState, stateChangedAt := Some(now))
  {
  }

  lemma RowState(db: Db, req: Request, id: Id)
    requires WellKeyed(db) && id in db.triggers
    ensures var after := EvalRow(db, req, id).0;
            id in after.triggers && StateRule(db.triggers[id], after.triggers[id], Observe(db, req, db.triggers[id]), req.now)
  {
    var t := db.triggers[id];
    if Changes(db, req, id) != [] {
      var value := Observe(db, req, t).value;
      SettleState(db, id, Verdict(t, value), value, req.now, req.Entry());
    }
  }

  lemma {:induction false} RowsState(db: Db, req: Request, rows: seq<Id>, id: Id)
    requires WellKeyed(db) && NoDuplicates(rows) && id in rows && id in db.triggers
    ensures var after := EvalRows(db, req, rows).0;
            id in after.triggers && StateRule(db.triggers[id], after.triggers[id], Observe(db, req, db.triggers[id]), req.now)
  {
    var init, last := rows[..|rows| - 1], rows[|rows| - 1];
    var mid := EvalRows(db, req, init).0;
    EvalRowsKeys(db, req, init);
    if id == last {
      EvalRowsSkip(db, req, init, id);
      SameObservation(db, mid, req, db.triggers[id]);
      RowState(mid, req, id);
    } else {
      RowsState(db, req, init, id);
      EvalRowFrame(mid, req, last, id);
    }
  }

  /** What the request asks about. */
  predicate AskedAbout(req: Request, t: Trigger) {
    t.target == if req.MonitorEval? then OnMonitor(req.monitor) else OnItem(req.item)
  }

  /** An evaluation judges exactly the enabled triggers of its subject; every other one stays. */
  lemma {:induction false} EvaluationRule(db: Db, req: Request, rows: seq<Id>, id: Id)
    requires WellKeyed(db) && IsScan(rows, Selected(db, req.Target())) && id in db.triggers
    ensures var t, after := db.triggers[id], EvalRows(db, req, rows).0;
            && id in after.triggers
            && if t.enabled && AskedAbout(req, t) then StateRule(t, after.triggers[id], Observe(db, req, t), req.now)
               else after.triggers[id] == t
  {
    var t := db.triggers[id];
    if t.enabled && AskedAbout(req, t) {
      assert id in Selected(db, req.Target());
      RowsState(db, req, rows, id);
    } else {
      assert id !in Selected(db, req.Target());
      EvalRowsSkip(db, req, rows, id);
    }
  }

  // ---- What is fired ----

  /** A fired entry quotes its trigger, the value it observed and the state it changed to. */
  ghost predicate Quotes(db: Db, req: Request, f: Fired) {
    && f.trigger in db.triggers
    && var t := db.triggers[f.trigger];
       && Observe(db, req, t) == Some(f.value)
       && f == Fired(f.trigger, t.name, t.severity, t.metric, t.operator, t.threshold, f.value, f.newState)
       && f.newState != t.state
  }

  lemma RowQuotes(db: Db, mid: Db, req: Request, id: Id, f: Fired)
    requires SameSurroundings(db, mid) && f in EvalRow(mid, req, id).1
    requires id in db.triggers && id in mid.triggers && mid.triggers[id] == db.triggers[id]
    ensures f.trigger == id && Quotes(db, req, f)
  {
    SameObservation(db, mid, req, db.triggers[id]);
  }

  lemma {:induction false} FiredRule(db: Db, req: Request, rows: seq<Id>, f: Fired)
    requires WellKeyed(db) && NoDuplicates(rows) && f in EvalRows(db, req, rows).1
    ensures f.trigger in rows && Quotes(db, req, f)
  {
    var init, last := rows[..|rows| - 1], rows[|rows| - 1];
    var (mid, fired) := EvalRows(db, req, init);
    if f in fired {
      FiredRule(db, req, init, f);
    } else {
      EvalRowsKeys(db, req, init);
      EvalRowsSkip(db, req, init, last);
      RowQuotes(db, mid, req, last, f);
    }
  }

  // ---- What is recorded ----

  /** The subject an event names. */
  function SubjectOf(req: Request): string
    requires req.MonitorEval? ==> req.monitorSubject.Some?
  {
    if req.MonitorEval? then req.monitorSubject.value else req.hostName + " / " + req.itemKey
  }

  /** Event `e` is new, snapshots the trigger, and is the only change to the trigger's events. */
  ghost predicate Opened(db: Db, after: Db, req: Request, id: Id, v: real, e: Id)
    requires id in db.triggers && req.owner.Some? && (req.MonitorEval? ==> req.monitorSubject.Some?)
  {
    && e !in db.events && EventsOf(after, id) == EventsOf(db, id) + {e}
    && (forall o :: o in EventsOf(db, id) ==> after.events[o] == db.events[o])
    && after.events[e] == ProblemEvent(id, req.owner.value, SubjectOf(req), db.triggers[id].name, db.triggers[id].severity,
                                       v, req.now, None, None, None, 0)
  }

  /** The unresolved events of the trigger are resolved now; nothing else about its events changes. */
  ghost predicate Resolved(db: Db, after: Db, req: Request, id: Id) {
    && EventsOf(after, id) == EventsOf(db, id)
    && forall e :: e in EventsOf(db, id) ==>
         after.events[e] == if db.events[e].resolvedAt.None? then db.events[e].(resolvedAt := Some(req.now)) else db.events[e]
  }

  ghost predicate Recorded(db: Db, after: Db, req: Request, id: Id, e: Id)
    requires id in db.triggers && id in after.triggers
    requires req.owner.Some? && (req.MonitorEval? ==> req.monitorSubject.Some?)
  {
    var observed := Observe(db, req, db.triggers[id]);
    if after.triggers[id].state == db.triggers[id].state then SameTrigger(db, after, id)
    else if after.triggers[id].state == PROBLEM then observed.Some? && Opened(db, after, req, id, observed.value, e)
    else Resolved(db, after, req, id)
  }

  lemma RowRecords(db: Db, req: Request, id: Id)
    requires WellKeyed(db) && id in db.triggers && req.owner.Some? && (req.MonitorEval? ==> req.monitorSubject.Some?)
    ensures var after := EvalRow(db, req, id).0; id in after.triggers && Recorded(db, after, req, id, db.nextEvent)
  {
    var t := db.triggers[id];
    if Changes(db, req, id) != [] {
      var value := Observe(db, req, t).value;
      if Verdict(t, value) == PROBLEM {
        SettleOpens(db, id, value, req.now, req.Entry());
      } else {
        SettleResolves(db, id, value, req.now, req.Entry());
      }
    }
  }

  /** The same seen from before rows that left the trigger alone, and from after such rows. */
  lemma RecordedFrom(db: Db, mid: Db, after: Db, req: Request, id: Id, e: Id)
    requires WellKeyed(db) && id in db.triggers && id in mid.triggers && id in after.triggers
    requires req.owner.Some? && (req.MonitorEval? ==> req.monitorSubject.Some?)
    requires SameSurroundings(db, mid) && SameTrigger(db, mid, id) && e !in db.events
    requires Recorded(mid, after, req, id, e)
    ensures Recorded(db, after, req, id, e)
  {
    SameObservation(db, mid, req, db.triggers[id]);
  }

  lemma RecordedTo(db: Db, mid: Db, after: Db, req: Request, id: Id, e: Id)
    requires id in db.triggers && id in mid.triggers && id in after.triggers
    requires req.owner.Some? && (req.MonitorEval? ==> req.monitorSubject.Some?)
    requires Recorded(db, mid, req, id, e) && SameTrigger(mid, after, id)
    ensures Recorded(db, after, req, id, e)
  {
  }

  /** With owner and subject given: a trigger that goes to PROBLEM opens one event that snapshots it,
      one that recovers resolves its open events, and any other one keeps its events as they are. */
  lemma {:induction false} RecordRule(db: Db, req: Request, rows: seq<Id>, id: Id) returns (e: Id)
    requires WellKeyed(db) && NoDuplicates(rows) && id in rows && id in db.triggers
    requires req.owner.Some? && (req.MonitorEval? ==> req.monitorSubject.Some?)
    ensures var after := EvalRows(db, req, rows).0; id in after.triggers && Recorded(db, after, req, id, e)
  {
    var init, last := rows[..|rows| - 1], rows[|rows| - 1];
    var mid := EvalRows(db, req, init).0;
    EvalRowsKeys(db, req, init);
    EvalRowKeys(mid, req, last);
    if id == last {
      e := mid.nextEvent;
      EvalRowsSkip(db, req, init, id);
      EvalRowsEvolve(db, req, init);
      RowRecords(mid, req, id);
      RecordedFrom(db, mid, EvalRow(mid, req, id).0, req, id, e);
    } else {
      e := RecordRule(db, req, init, id);
      EvalRowFrame(mid, req, last, id);
      RecordedTo(db, mid, EvalRow(mid, req, last).0, req, id, e);
    }
  }

  // ---- Which problems a tick escalates ----

  /** A resolved or acknowledged problem is left alone; an open, unacknowledged one advances and is
      sent what it is owed. */
  lemma TickRule(db: Db, now: int, rows: seq<Id>, id: Id)
    requires IsScan(rows, Escalating(db)) && id in db.events
    ensures var e, (after, sent) := db.events[id], TickRows(db, now, rows);
            && id in after.events
            && if e.resolvedAt.Some? || e.acknowledgedAt.Some? then For(sent, id) == [] && after.events[id] == e
               else For(sent, id) == Owed(db, id, now) && after.events[id] == Escalated(db, e, now)
  {
    assert id in rows <==> id in Escalating(db);
    TickRowsAt(db, now, rows, id);
  }

  /** The enabled policy of the owner that was created last. */
  ghost predicate NewestEnabled(policies: seq<Policy>, owner: Id, p: Policy) {
    && p in policies && p.owner == owner && p.enabled
    && forall q :: q in policies && q.owner == owner && q.enabled && q != p ==> q.createdAt < p.createdAt
  }

  /** A step beyond the problem's cursor; its delay and those of all steps on the way have passed
      since the problem started. */
  ghost predicate Reached(e: ProblemEvent, p: Policy, s: Step, now: int) {
    && s in p.steps && e.escalatedStep < s.order
    && forall t :: t in p.steps && e.escalatedStep < t.order <= s.order ==> e.startedAt + t.delayMinutes * 60_000_000 <= now
  }

  /** The step's channel exists, is the owner's and enabled, and a remediation has a webhook. */
  ghost predicate Receives(db: Db, e: ProblemEvent, s: Step) {
    && s.channel in db.channels && db.channels[s.channel].owner == e.owner && db.channels[s.channel].enabled
    && (s.action.None? || db.channels[s.channel].kind == Webhook)
  }

  lemma LadderMembers(steps: seq<Step>)
    ensures forall s :: s in Ladder(steps) <==> s in steps
  {
    LadderPermutes(steps);
    forall s ensures s in Ladder(steps) <==> s in steps {
      assert s in multiset(Ladder(steps)) <==> s in multiset(steps);
    }
  }

  lemma PassedAre(db: Db, e: ProblemEvent, p: Policy, s: Step, now: int)
    requires NewestEnabled(db.policies, e.owner, p) && UniqueOrders(p.steps)
    ensures s in PassedBy(db, e, now) <==> Reached(e, p, s, now)
  {
    EnabledPolicyIsNewest(db.policies, e.owner);
    LadderSorts(p.steps);
    LadderMembers(p.steps);
    FiringRule(Ladder(p.steps), e.escalatedStep, now - e.startedAt, s);
  }

  lemma ReceivesIs(db: Db, e: ProblemEvent, s: Step)
    ensures Receives(db, e, s) <==> Deliverable(db.channels, e.owner, s)
  {
  }

  /** A tick sends a problem exactly the reached steps that have a receiver, each with the problem's
      own data, and only while the problem is neither resolved nor acknowledged. */
  lemma TickDelivers(db: Db, now: int, rows: seq<Id>, id: Id, p: Policy, d: Delivery)
    requires IsScan(rows, Escalating(db)) && id in db.events
    requires NewestEnabled(db.policies, db.events[id].owner, p) && UniqueOrders(p.steps)
    ensures var e := db.events[id];
            d in For(TickRows(db, now, rows).1, id) <==>
            && e.resolvedAt.None? && e.acknowledgedAt.None?
            && exists s :: Reached(e, p, s, now) && Receives(db, e, s)
                 && d == Delivery(EscalationAlert(id, e.subject, e.triggerName, e.severity, s.order, e.value, e.startedAt,
                                                  now, s.action), s.channel)
  {
    var e := db.events[id];
    var passed := PassedBy(db, e, now);
    TickRule(db, now, rows, id);
    DeliveredIff(db.channels, id, e, passed, now, d);
    forall s ensures s in passed <==> Reached(e, p, s, now) { PassedAre(db, e, p, s, now); }
    if e.resolvedAt.None? && e.acknowledgedAt.None? {
      if d in Deliveries(db.channels, id, e, passed, now) {
        var i :| 0 <= i < |passed| && Deliverable(db.channels, e.owner, passed[i]) && d == DeliveryFor(id, e, passed[i], now);
        ReceivesIs(db, e, passed[i]);
        assert Reached(e, p, passed[i], now);
      }
      forall s | Reached(e, p, s, now) && Receives(db, e, s) && d == DeliveryFor(id, e, s, now)
        ensures d in Deliveries(db.channels, id, e, passed, now)
      {
        ReceivesIs(db, e, s);
        var i :| 0 <= i < |passed| && passed[i] == s;
      }
    }
  }

  /** A tick moves the cursor to the last reached step, and changes nothing else of a problem. */
  lemma TickAdvances(db: Db, now: int, rows: seq<Id>, id: Id, p: Policy)
    requires IsScan(rows, Escalating(db)) && id in db.events
    requires NewestEnabled(db.policies, db.events[id].owner, p) && UniqueOrders(p.steps)
    requires db.events[id].resolvedAt.None? && db.events[id].acknowledgedAt.None?
    ensures var e, after := db.events[id], TickRows(db, now, rows).0;
            && id in after.events && after.events[id] == e.(escalatedStep := after.events[id].escalatedStep)
            && (forall s :: Reached(e, p, s, now) ==> s.order <= after.events[id].escalatedStep)
            && (after.events[id].escalatedStep == e.escalatedStep
                || exists s :: Reached(e, p, s, now) && s.order == after.events[id].escalatedStep)
  {
    var e := db.events[id];
    var passed := PassedBy(db, e, now);
    TickRule(db, now, rows, id);
    EnabledPolicyIsNewest(db.policies, e.owner);
    PassedIncreases(Ladder(p.steps), e.escalatedStep, now - e.startedAt);
    forall s ensures s in passed <==> Reached(e, p, s, now) { PassedAre(db, e, p, s, now); }
    if passed != [] { assert Reached(e, p, passed[|passed| - 1], now); }
  }

  /** Without an enabled policy of the owner nothing is sent and the cursor stays. */
  lemma NoPolicyNoEscalation(db: Db, now: int, rows: seq<Id>, id: Id)
    requires IsScan(rows, Escalating(db)) && id in db.events
    requires forall p :: p in db.policies && p.owner == db.events[id].owner ==> !p.enabled
    ensures var (after, sent) := TickRows(db, now, rows);
            For(sent, id) == [] && id in after.events && after.events[id] == db.events[id]
  {
    TickRule(db, now, rows, id);
    EnabledPolicyIsNewest(db.policies, db.events[id].owner);
  }
}
