/** The tables of the alert pipeline and, as functions over them, what each service call does:
    trigger evaluation, problem events, acknowledgement and trigger edits. */
module AlertModel {
  import opened Common
  import opened History

  datatype Severity = Info | Warning | Average | High | Disaster {
    function Rank(): nat {
      match this
      case Info => 0
      case Warning => 1
      case Average => 2
      case High => 3
      case Disaster => 4
    }
  }

  datatype Operator = Gt | Ge | Lt | Le

  datatype Metric = LatencyMs

  datatype TriggerState = OK | PROBLEM

  /** A trigger is attached to exactly one of a monitor or an item. */
  datatype Target = OnMonitor(monitor: Id) | OnItem(item: Id)

  datatype Trigger = Trigger(name: string, target: Target, metric: Option<Metric>, operator: Operator,
                             threshold: real, severity: Severity, aggregation: Aggregation,
                             windowSeconds: int, enabled: bool,
                             state: TriggerState, stateChangedAt: Option<int>)

  datatype ProblemEvent = ProblemEvent(trigger: Id, owner: Id, subject: string, triggerName: string,
                                       severity: Severity, value: real, startedAt: int,
                                       resolvedAt: Option<int>, acknowledgedAt: Option<int>,
                                       acknowledgedBy: Option<Id>, escalatedStep: int)
  {
    predicate IsOpen() { resolvedAt.None? }

    predicate Escalates() { resolvedAt.None? && acknowledgedAt.None? }
  }

  datatype ChannelType = Email | Webhook

  datatype Channel = Channel(owner: Id, kind: ChannelType, enabled: bool)

  datatype Step = Step(order: int, delayMinutes: int, channel: Id, action: Option<string>)

  datatype Policy = Policy(id: Id, owner: Id, name: string, enabled: bool, createdAt: int, steps: seq<Step>)

  datatype Item = Item(host: Id, key: string)

  datatype Db = Db(triggers: map<Id, Trigger>, nextTrigger: Id,
                   events: map<Id, ProblemEvent>, nextEvent: Id,
                   policies: seq<Policy>, channels: map<Id, Channel>,
                   items: map<Id, Item>, monitorHosts: map<Id, Id>,
                   samples: seq<Sample>)

  /** The arguments of one call of `evaluate` or `evaluate_item`. */
  datatype Request =
    | MonitorEval(monitor: Id, values: map<Metric, Option<real>>, now: int,
                  owner: Option<Id>, monitorSubject: Option<string>)
    | ItemEval(item: Id, itemKey: string, hostName: string, latest: Option<real>, now: int, owner: Option<Id>)
  {
    function Target(): Target {
      if MonitorEval? then OnMonitor(monitor) else OnItem(item)
    }

    /** Whether state changes are also written to the problem timeline. */
    predicate Recorded() {
      owner.Some? && (MonitorEval? ==> monitorSubject.Some?)
    }

    /** Owner and subject of the events this evaluation opens. */
    function Entry(): Option<(Id, string)> {
      if !Recorded() then None
      else Some((owner.value, if MonitorEval? then monitorSubject.value else hostName + " / " + itemKey))
    }
  }

  datatype Fired = Fired(trigger: Id, name: string, severity: Severity, metric: Option<Metric>,
                         operator: Operator, threshold: real, value: real, newState: TriggerState)

  const LATENCY_ITEM_KEY := "latency_ms"

  // ---- Observation ----

  predicate ConditionMet(operator: Operator, value: real, threshold: real) {
    match operator
    case Gt => value > threshold
    case Ge => value >= threshold
    case Lt => value < threshold
    case Le => value <= threshold
  }

  function Verdict(t: Trigger, value: real): TriggerState {
    if ConditionMet(t.operator, value, t.threshold) then PROBLEM else OK
  }

  /** Items joined to a monitor through its backing host. */
  function LatencyItems(db: Db, monitor: Id): set<Id> {
    if monitor !in db.monitorHosts then {}
    else set i | i in db.items && db.items[i].key == LATENCY_ITEM_KEY && db.items[i].host == db.monitorHosts[monitor]
  }

  predicate Windowed(t: Trigger) { !t.aggregation.Last? && t.windowSeconds > 0 }

  /** The value a trigger compares to its threshold; None is "no data this round". */
  function Observe(db: Db, req: Request, t: Trigger): Option<real> {
    match req
    case MonitorEval(monitor, values, now, _, _) =>
      if t.metric.None? then None
      else if !Windowed(t) then if t.metric.value in values then values[t.metric.value] else None
      else Aggregate(t.aggregation, Window(db.samples, LatencyItems(db, monitor), now - t.windowSeconds * SECOND))
    case ItemEval(item, _, _, latest, now, _) =>
      if !Windowed(t) then latest
      else Aggregate(t.aggregation, Window(db.samples, {item}, now - t.windowSeconds * SECOND))
  }

  // ---- Problem events ----

  function OpenEvent(db: Db, trigger: Id, owner: Id, subject: string, value: real, now: int): Db
    requires trigger in db.triggers
  {
    var t := db.triggers[trigger];
    var e := ProblemEvent(trigger, owner, subject, t.name, t.severity, value, now, None, None, None, 0);
    db.(events := db.events[db.nextEvent := e], nextEvent := db.nextEvent + 1)
  }

  function CloseEvents(db: Db, trigger: Id, now: int): Db {
    db.(events := map e | e in db.events ::
                    if db.events[e].trigger == trigger && db.events[e].IsOpen()
                    then db.events[e].(resolvedAt := Some(now)) else db.events[e])
  }

  /** Only the owner reaches an event, and only the first acknowledgement is kept. */
  function AcknowledgeEvent(db: Db, event: Id, owner: Id, user: Id, now: int): Db {
    if event in db.events && db.events[event].owner == owner && db.events[event].acknowledgedAt.None?
    then db.(events := db.events[event := db.events[event].(acknowledgedAt := Some(now), acknowledgedBy := Some(user))])
    else db
  }

  // ---- Evaluation ----

  /** The enabled triggers of a monitor or item. */
  function Selected(db: Db, target: Target): set<Id> {
    set t | t in db.triggers && db.triggers[t].target == target && db.triggers[t].enabled
  }

  /** The state change of one trigger and, when asked for, its entry in the problem timeline. */
  function Settle(db: Db, id: Id, newState: TriggerState, value: real, now: int, entry: Option<(Id, string)>): Db
    requires id in db.triggers
  {
    var t := db.triggers[id];
    var flipped := db.(triggers := db.triggers[id := t.(state := newState, stateChangedAt := Some(now))]);
    if entry.None? then flipped
    else if newState.PROBLEM? then OpenEvent(flipped, id, entry.value.0, entry.value.1, value, now)
    else CloseEvents(flipped, id, now)
  }

  function FiredBy(t: Trigger, id: Id, value: real, newState: TriggerState): Fired {
    Fired(id, t.name, t.severity, t.metric, t.operator, t.threshold, value, newState)
  }

  /** One trigger against the value it observed. */
  function Judge(db: Db, id: Id, observed: Option<real>, now: int, entry: Option<(Id, string)>): (Db, seq<Fired>)
    requires id in db.triggers
  {
    var t := db.triggers[id];
    match observed
    case None => (db, [])
    case Some(value) =>
      var newState := Verdict(t, value);
      if newState == t.state then (db, [])
      else (Settle(db, id, newState, value, now, entry), [FiredBy(t, id, value, newState)])
  }

  function EvalRow(db: Db, req: Request, id: Id): (Db, seq<Fired>) {
    if id !in db.triggers then (db, [])
    else Judge(db, id, Observe(db, req, db.triggers[id]), req.now, req.Entry())
  }

  function EvalRows(db: Db, req: Request, rows: seq<Id>): (Db, seq<Fired>) {
    if rows == [] then (db, [])
    else
      var (before, fired) := EvalRows(db, req, rows[..|rows| - 1]);
      var (after, last) := EvalRow(before, req, rows[|rows| - 1]);
      (after, fired + last)
  }

  // ---- Trigger edits ----

  /** A partial update. Every column but the state can be set; only the metric can be set to null. */
  datatype TriggerUpdate = TriggerUpdate(name: Option<string>, metric: Option<Option<Metric>>,
                                         operator: Option<Operator>, threshold: Option<real>,
                                         severity: Option<Severity>, aggregation: Option<Aggregation>,
                                         windowSeconds: Option<int>, enabled: Option<bool>)

  function Or<T>(update: Option<T>, current: T): T {
    if update.Some? then update.value else current
  }

  function Edited(t: Trigger, u: TriggerUpdate): Trigger {
    t.(name := Or(u.name, t.name), metric := Or(u.metric, t.metric), operator := Or(u.operator, t.operator),
       threshold := Or(u.threshold, t.threshold), severity := Or(u.severity, t.severity),
       aggregation := Or(u.aggregation, t.aggregation), windowSeconds := Or(u.windowSeconds, t.windowSeconds),
       enabled := Or(u.enabled, t.enabled))
  }

  /** Each column holds the submitted value, or the old one where none was submitted. */
  predicate Submitted(u: TriggerUpdate, before: Trigger, after: Trigger) {
    && (if u.name.Some? then after.name == u.name.value else after.name == before.name)
    && (if u.metric.Some? then after.metric == u.metric.value else after.metric == before.metric)
    && (if u.operator.Some? then after.operator == u.operator.value else after.operator == before.operator)
    && (if u.threshold.Some? then after.threshold == u.threshold.value else after.threshold == before.threshold)
    && (if u.severity.Some? then after.severity == u.severity.value else after.severity == before.severity)
    && (if u.aggregation.Some? then after.aggregation == u.aggregation.value else after.aggregation == before.aggregation)
    && (if u.windowSeconds.Some? then after.windowSeconds == u.windowSeconds.value
        else after.windowSeconds == before.windowSeconds)
    && (if u.enabled.Some? then after.enabled == u.enabled.value else after.enabled == before.enabled)
  }

  /** Equal but for the state and when it changed. */
  predicate SameRule(t: Trigger, other: Trigger) {
    t == other.(state := t.state, stateChangedAt := t.stateChangedAt)
  }

  function EditTriggerRow(db: Db, id: Id, u: TriggerUpdate): Db {
    if id in db.triggers then db.(triggers := db.triggers[id := Edited(db.triggers[id], u)]) else db
  }

  /** New triggers start in OK, whatever their rule. */
  function AddTriggerRow(db: Db, t: Trigger): Db {
    db.(triggers := db.triggers[db.nextTrigger := t.(state := OK, stateChangedAt := None)],
        nextTrigger := db.nextTrigger + 1)
  }

  /** Deleting a trigger cascades to its events. */
  function DropTriggerRow(db: Db, id: Id): Db {
    db.(triggers := map t | t in db.triggers && t != id :: db.triggers[t],
        events := map e | e in db.events && db.events[e].trigger != id :: db.events[e])
  }

  // ---- The invariant of the pipeline ----

  function EventsOf(db: Db, trigger: Id): set<Id> {
    set e | e in db.events && db.events[e].trigger == trigger
  }

  function OpenOf(db: Db, trigger: Id): set<Id> {
    set e | e in db.events && db.events[e].trigger == trigger && db.events[e].IsOpen()
  }

  /** References resolve and fresh identifiers are fresh. */
  ghost predicate WellKeyed(db: Db) {
    && (forall t :: t in db.triggers ==> t < db.nextTrigger)
    && (forall e :: e in db.events ==> e < db.nextEvent && db.events[e].trigger in db.triggers)
  }

  /** A trigger in PROBLEM has exactly one unresolved event; a trigger in OK has none. */
  ghost predicate Consistent(db: Db) {
    && WellKeyed(db)
    && (forall t :: t in db.triggers ==> |OpenOf(db, t)| == if db.triggers[t].state.PROBLEM? then 1 else 0)
  }

  // ---- One row of an evaluation ----

  /** What one trigger decides in a round: None when it has no data. */
  function Decision(db: Db, req: Request, id: Id): Option<TriggerState>
    requires id in db.triggers
  {
    var value := Observe(db, req, db.triggers[id]);
    if value.None? then None else Some(Verdict(db.triggers[id], value.value))
  }

  function Changes(db: Db, req: Request, id: Id): seq<TriggerState>
    requires id in db.triggers
  {
    var d := Decision(db, req, id);
    if d.None? || d.value == db.triggers[id].state then [] else [d.value]
  }

  function StatesOf(fired: seq<Fired>, id: Id): seq<TriggerState> {
    if fired == [] then []
    else
      var last := fired[|fired| - 1];
      StatesOf(fired[..|fired| - 1], id) + if last.trigger == id then [last.newState] else []
  }

  lemma {:induction false} StatesOfAppend(a: seq<Fired>, b: seq<Fired>, id: Id)
    ensures StatesOf(a + b, id) == StatesOf(a, id) + StatesOf(b, id)
  {
    if b == [] {
      assert a + b == a;
    } else {
      assert (a + b)[..|a + b| - 1] == a + b[..|b| - 1];
      StatesOfAppend(a, b[..|b| - 1], id);
    }
  }

  /** Everything an evaluation leaves alone. */
  ghost predicate SameSurroundings(db: Db, after: Db) {
    && after.triggers.Keys == db.triggers.Keys && after.nextTrigger == db.nextTrigger
    && after.samples == db.samples && after.items == db.items && after.monitorHosts == db.monitorHosts
    && after.policies == db.policies && after.channels == db.channels
  }

  /** Trigger `id` and its events are untouched. */
  ghost predicate SameTrigger(db: Db, after: Db, id: Id) {
    && (id in db.triggers ==> id in after.triggers && after.triggers[id] == db.triggers[id])
    && EventsOf(after, id) == EventsOf(db, id)
    && forall e :: e in EventsOf(db, id) ==> after.events[e] == db.events[e]
  }

  lemma SettleFrame(db: Db, id: Id, newState: TriggerState, value: real, now: int, entry: Option<(Id, string)>,
                    other: Id)
    requires WellKeyed(db) && id in db.triggers && other != id
    ensures SameTrigger(db, Settle(db, id, newState, value, now, entry), other)
  {
    var after := Settle(db, id, newState, value, now, entry);
    assert EventsOf(after, other) == EventsOf(db, other);
  }

  lemma SettleKeys(db: Db, id: Id, newState: TriggerState, value: real, now: int, entry: Option<(Id, string)>)
    requires WellKeyed(db) && id in db.triggers
    ensures var after := Settle(db, id, newState, value, now, entry);
            WellKeyed(after) && SameSurroundings(db, after) && after.triggers[id].state == newState
  {
    var after := Settle(db, id, newState, value, now, entry);
    assert after.triggers.Keys == db.triggers.Keys;
  }

  /** A recorded breach opens exactly one event. */
  lemma SettleOpens(db: Db, id: Id, value: real, now: int, entry: Option<(Id, string)>)
    requires WellKeyed(db) && id in db.triggers && entry.Some?
    ensures var after := Settle(db, id, PROBLEM, value, now, entry);
            && db.nextEvent !in db.events
            && EventsOf(after, id) == EventsOf(db, id) + {db.nextEvent}
            && OpenOf(after, id) == OpenOf(db, id) + {db.nextEvent}
  {
  }

  /** A recorded recovery resolves every open event and opens none. */
  lemma SettleResolves(db: Db, id: Id, value: real, now: int, entry: Option<(Id, string)>)
    requires WellKeyed(db) && id in db.triggers && entry.Some?
    ensures var after := Settle(db, id, OK, value, now, entry);
            EventsOf(after, id) == EventsOf(db, id) && OpenOf(after, id) == {}
  {
  }

  lemma SameTriggerSameOpen(db: Db, after: Db, id: Id)
    requires SameTrigger(db, after, id)
    ensures OpenOf(after, id) == OpenOf(db, id)
  {
    forall e ensures e in OpenOf(after, id) <==> e in OpenOf(db, id) {
      assert e in EventsOf(after, id) <==> e in EventsOf(db, id);
    }
  }

  lemma SettleConsistent(db: Db, id: Id, newState: TriggerState, value: real, now: int, entry: Option<(Id, string)>)
    requires Consistent(db) && id in db.triggers && newState != db.triggers[id].state && entry.Some?
    ensures Consistent(Settle(db, id, newState, value, now, entry))
  {
    var after := Settle(db, id, newState, value, now, entry);
    SettleKeys(db, id, newState, value, now, entry);
    if newState.PROBLEM? { SettleOpens(db, id, value, now, entry); } else { SettleResolves(db, id, value, now, entry); }
    forall t | t in after.triggers
      ensures |OpenOf(after, t)| == if after.triggers[t].state.PROBLEM? then 1 else 0
    {
      if t != id {
        SettleFrame(db, id, newState, value, now, entry, t);
        SameTriggerSameOpen(db, after, t);
      }
    }
  }

  lemma {:induction false} EvalRowFrame(db: Db, req: Request, id: Id, other: Id)
    requires WellKeyed(db) && other != id
    ensures var (after, fired) := EvalRow(db, req, id);
            SameTrigger(db, after, other) && StatesOf(fired, other) == []
  {
    if id in db.triggers && Changes(db, req, id) != [] {
      var t, value := db.triggers[id], Observe(db, req, db.triggers[id]).value;
      SettleFrame(db, id, Verdict(t, value), value, req.now, req.Entry(), other);
    }
  }

  lemma {:induction false} EvalRowKeys(db: Db, req: Request, id: Id)
    requires WellKeyed(db)
    ensures WellKeyed(EvalRow(db, req, id).0) && SameSurroundings(db, EvalRow(db, req, id).0)
  {
    if id in db.triggers && Changes(db, req, id) != [] {
      var t, value := db.triggers[id], Observe(db, req, db.triggers[id]).value;
      SettleKeys(db, id, Verdict(t, value), value, req.now, req.Entry());
    }
  }

  /** What a single round does to the row's own trigger: the state follows the decision and a
      change is fired once. */
  lemma EvalRowEffect(db: Db, req: Request, id: Id)
    requires WellKeyed(db) && id in db.triggers
    ensures var (after, fired) := EvalRow(db, req, id);
            && id in after.triggers
            && StatesOf(fired, id) == Changes(db, req, id)
            && after.triggers[id].state == FinalOf(db.triggers[id].state, Changes(db, req, id))
            && (fired == [] <==> Changes(db, req, id) == []) && (fired == [] ==> after == db)
  {
    EvalRowKeys(db, req, id);
    if Changes(db, req, id) != [] {
      var t, value := db.triggers[id], Observe(db, req, db.triggers[id]).value;
      SettleKeys(db, id, Verdict(t, value), value, req.now, req.Entry());
      var f := FiredBy(t, id, value, Verdict(t, value));
      assert [f][..0] == [];
      assert StatesOf([f], id) == [f.newState];
    }
  }

  lemma EvalRowConsistent(db: Db, req: Request, id: Id)
    requires Consistent(db) && req.Recorded()
    ensures Consistent(EvalRow(db, req, id).0)
  {
    if id in db.triggers && Changes(db, req, id) != [] {
      var t, value := db.triggers[id], Observe(db, req, db.triggers[id]).value;
      SettleConsistent(db, id, Verdict(t, value), value, req.now, req.Entry());
    }
  }

  // ---- A whole evaluation, seen from one trigger ----

  lemma SameObservation(db: Db, after: Db, req: Request, t: Trigger)
    requires SameSurroundings(db, after)
    ensures Observe(after, req, t) == Observe(db, req, t)
  {
    if req.MonitorEval? { assert LatencyItems(after, req.monitor) == LatencyItems(db, req.monitor); }
  }

  lemma {:induction false} EvalRowsKeys(db: Db, req: Request, rows: seq<Id>)
    requires WellKeyed(db)
    ensures WellKeyed(EvalRows(db, req, rows).0) && SameSurroundings(db, EvalRows(db, req, rows).0)
  {
    if rows != [] {
      EvalRowsKeys(db, req, rows[..|rows| - 1]);
      EvalRowKeys(EvalRows(db, req, rows[..|rows| - 1]).0, req, rows[|rows| - 1]);
    }
  }

  lemma {:induction false} EvalRowsSkip(db: Db, req: Request, rows: seq<Id>, id: Id)
    requires WellKeyed(db) && id !in rows
    ensures var (after, fired) := EvalRows(db, req, rows);
            SameTrigger(db, after, id) && StatesOf(fired, id) == []
  {
    if rows != [] {
      var init, last := rows[..|rows| - 1], rows[|rows| - 1];
      var (mid, fired) := EvalRows(db, req, init);
      EvalRowsSkip(db, req, init, id);
      EvalRowsKeys(db, req, init);
      EvalRowFrame(mid, req, last, id);
      StatesOfAppend(fired, EvalRow(mid, req, last).1, id);
    }
  }

  /** The trigger fired exactly its own change and ended in the state it decided. */
  ghost predicate FollowsDecision(db: Db, after: Db, fired: seq<Fired>, req: Request, id: Id)
    requires id in db.triggers
  {
    && id in after.triggers
    && StatesOf(fired, id) == Changes(db, req, id)
    && after.triggers[id].state == FinalOf(db.triggers[id].state, Changes(db, req, id))
  }

  lemma LastRowFollows(db: Db, mid: Db, fired: seq<Fired>, req: Request, id: Id)
    requires WellKeyed(mid) && id in db.triggers && SameSurroundings(db, mid)
    requires SameTrigger(db, mid, id) && StatesOf(fired, id) == []
    ensures FollowsDecision(db, EvalRow(mid, req, id).0, fired + EvalRow(mid, req, id).1, req, id)
  {
    StatesOfAppend(fired, EvalRow(mid, req, id).1, id);
    SameObservation(db, mid, req, db.triggers[id]);
    EvalRowEffect(mid, req, id);
    assert Changes(mid, req, id) == Changes(db, req, id);
  }

  lemma EarlierRowFollows(db: Db, mid: Db, fired: seq<Fired>, req: Request, id: Id, last: Id)
    requires WellKeyed(mid) && id in db.triggers && id != last && FollowsDecision(db, mid, fired, req, id)
    ensures FollowsDecision(db, EvalRow(mid, req, last).0, fired + EvalRow(mid, req, last).1, req, id)
  {
    StatesOfAppend(fired, EvalRow(mid, req, last).1, id);
    EvalRowFrame(mid, req, last, id);
  }

  /** Holds whatever the order of the rows. */
  lemma {:induction false} EvalRowsAt(db: Db, req: Request, rows: seq<Id>, id: Id)
    requires WellKeyed(db) && NoDuplicates(rows) && id in rows && id in db.triggers
    ensures FollowsDecision(db, EvalRows(db, req, rows).0, EvalRows(db, req, rows).1, req, id)
  {
    var init, last := rows[..|rows| - 1], rows[|rows| - 1];
    var (mid, fired) := EvalRows(db, req, init);
    EvalRowsKeys(db, req, init);
    if id == last {
      EvalRowsSkip(db, req, init, id);
      LastRowFollows(db, mid, fired, req, id);
    } else {
      EvalRowsAt(db, req, init, id);
      EarlierRowFollows(db, mid, fired, req, id, last);
    }
  }

  lemma {:induction false} EvaluationKeepsConsistent(db: Db, req: Request, rows: seq<Id>)
    requires Consistent(db) && req.Recorded()
    ensures Consistent(EvalRows(db, req, rows).0)
  {
    if rows != [] {
      EvaluationKeepsConsistent(db, req, rows[..|rows| - 1]);
      EvalRowConsistent(EvalRows(db, req, rows[..|rows| - 1]).0, req, rows[|rows| - 1]);
    }
  }

  // ---- Edits keep the invariant ----

  lemma SameEventsSameOpen(db: Db, after: Db)
    requires after.events.Keys == db.events.Keys
    requires forall e :: e in db.events ==> after.events[e].trigger == db.events[e].trigger
                                            && after.events[e].resolvedAt == db.events[e].resolvedAt
    ensures forall t :: OpenOf(after, t) == OpenOf(db, t) && EventsOf(after, t) == EventsOf(db, t)
  {
  }

  lemma AddKeepsConsistent(db: Db, t: Trigger)
    requires Consistent(db)
    ensures Consistent(AddTriggerRow(db, t))
  {
    var after := AddTriggerRow(db, t);
    assert OpenOf(after, db.nextTrigger) == {};
    forall t | t in db.triggers ensures OpenOf(after, t) == OpenOf(db, t) {}
  }

  lemma SameStateKeepsConsistent(db: Db, id: Id, t: Trigger)
    requires Consistent(db) && id in db.triggers && t.state == db.triggers[id].state
    ensures Consistent(db.(triggers := db.triggers[id := t]))
  {
    SameEventsSameOpen(db, db.(triggers := db.triggers[id := t]));
  }

  lemma EditKeepsConsistent(db: Db, id: Id, u: TriggerUpdate)
    requires Consistent(db)
    ensures Consistent(EditTriggerRow(db, id, u))
  {
    if id in db.triggers { SameStateKeepsConsistent(db, id, Edited(db.triggers[id], u)); }
  }

  lemma DropLeavesOthers(db: Db, id: Id)
    ensures var after := DropTriggerRow(db, id);
            EventsOf(after, id) == {} && forall other :: other != id ==> SameTrigger(db, after, other)
  {
    var after := DropTriggerRow(db, id);
    forall other | other != id ensures SameTrigger(db, after, other) {
      assert EventsOf(after, other) == EventsOf(db, other);
    }
  }

  lemma DropKeepsConsistent(db: Db, id: Id)
    requires Consistent(db)
    ensures Consistent(DropTriggerRow(db, id))
  {
    var after := DropTriggerRow(db, id);
    forall t | t in after.triggers ensures OpenOf(after, t) == OpenOf(db, t) {}
  }
}
