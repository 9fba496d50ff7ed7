/** Whole runs of the alert pipeline: any interleaving of evaluations, escalation ticks,
    acknowledgements, trigger edits, policy and channel changes, new samples and prunes. */
module AlertRuns {
  import opened Common
  import opened History
  import opened AlertModel
  import opened Escalation

  datatype Action =
    | Evaluation(req: Request, rows: seq<Id>)
    | Tick(now: int, problems: seq<Id>)
    | Acknowledgement(event: Id, owner: Id, user: Id, at: int)
    | AddTrigger(trigger: Trigger)
    | EditTrigger(id: Id, update: TriggerUpdate)
    | DropTrigger(dropped: Id)
    | SetPolicies(policies: seq<Policy>)
    | SetChannels(channels: map<Id, Channel>)
    | SetInventory(items: map<Id, Item>, monitorHosts: map<Id, Id>)
    | Record(sample: Sample)
    | Prune(cutoff: int)

  /** Callers always supply owner and subject, and a query returns the rows it selects. */
  ghost predicate Allowed(db: Db, a: Action) {
    match a
    case Evaluation(req, rows) => req.Recorded() && IsScan(rows, Selected(db, req.Target()))
    case Tick(_, problems) => IsScan(problems, Escalating(db))
    case _ => true
  }

  function Next(db: Db, a: Action): Db {
    match a
    case Evaluation(req, rows) => EvalRows(db, req, rows).0
    case Tick(now, problems) => TickRows(db, now, problems).0
    case Acknowledgement(event, owner, user, at) => AcknowledgeEvent(db, event, owner, user, at)
    case AddTrigger(t) => AddTriggerRow(db, t)
    case EditTrigger(id, update) => EditTriggerRow(db, id, update)
    case DropTrigger(id) => DropTriggerRow(db, id)
    case SetPolicies(policies) => db.(policies := policies)
    case SetChannels(channels) => db.(channels := channels)
    case SetInventory(items, monitorHosts) => db.(items := items, monitorHosts := monitorHosts)
    case Record(sample) => db.(samples := db.samples + [sample])
    case Prune(cutoff) => db.(samples := Since(db.samples, cutoff))
  }

  function SentBy(db: Db, a: Action): seq<Delivery> {
    if a.Tick? then TickRows(db, a.now, a.problems).1 else []
  }

  function FiredFor(db: Db, a: Action, id: Id): seq<TriggerState> {
    if a.Evaluation? then StatesOf(EvalRows(db, a.req, a.rows).1, id) else []
  }

  /** What the action's evaluation, if any, decides about trigger `id`: nothing when the trigger
      is not selected (another subject, or disabled) or has no data. */
  function DecidedFor(db: Db, a: Action, id: Id): seq<TriggerState> {
    if a.Evaluation? && id in a.rows && id in db.triggers && Decision(db, a.req, id).Some?
    then [Decision(db, a.req, id).value] else []
  }

  ghost predicate IsRun(db: Db, actions: seq<Action>)
    decreases actions
  {
    actions == [] || (Allowed(db, actions[0]) && IsRun(Next(db, actions[0]), actions[1..]))
  }

  function Run(db: Db, actions: seq<Action>): Db
    decreases actions
  {
    if actions == [] then db else Run(Next(db, actions[0]), actions[1..])
  }

  function Sent(db: Db, actions: seq<Action>): seq<Delivery>
    decreases actions
  {
    if actions == [] then [] else SentBy(db, actions[0]) + Sent(Next(db, actions[0]), actions[1..])
  }

  /** The states trigger `id` alerted, in order. */
  function Fires(db: Db, actions: seq<Action>, id: Id): seq<TriggerState>
    decreases actions
  {
    if actions == [] then [] else FiredFor(db, actions[0], id) + Fires(Next(db, actions[0]), actions[1..], id)
  }

  function Decisions(db: Db, actions: seq<Action>, id: Id): seq<TriggerState>
    decreases actions
  {
    if actions == [] then [] else DecidedFor(db, actions[0], id) + Decisions(Next(db, actions[0]), actions[1..], id)
  }

  // ---- The pipeline invariant ----

  lemma EscalatedNeverDrops(db: Db, e: ProblemEvent, now: int)
    ensures Escalated(db, e, now).escalatedStep >= e.escalatedStep
  {
    var policy := EnabledPolicy(db.policies, e.owner);
    if policy.Some? { CursorNeverDrops(Ladder(policy.value.steps), e.escalatedStep, now - e.startedAt); }
  }

  lemma TickKeepsEvents(db: Db, now: int, rows: seq<Id>)
    requires NoDuplicates(rows)
    ensures var after := TickRows(db, now, rows).0;
            && after == db.(events := after.events) && after.events.Keys == db.events.Keys
            && forall e :: e in db.events ==>
                 && after.events[e] == db.events[e].(escalatedStep := after.events[e].escalatedStep)
                 && after.events[e].escalatedStep >= db.events[e].escalatedStep
  {
    TickRowsKeys(db, now, rows);
    var after := TickRows(db, now, rows).0;
    forall e | e in db.events
      ensures after.events[e] == db.events[e].(escalatedStep := after.events[e].escalatedStep)
      ensures after.events[e].escalatedStep >= db.events[e].escalatedStep
    {
      TickRowsAt(db, now, rows, e);
      EscalatedNeverDrops(db, db.events[e], now);
    }
  }

  lemma AcknowledgeKeepsConsistent(db: Db, event: Id, owner: Id, user: Id, now: int)
    requires Consistent(db)
    ensures Consistent(AcknowledgeEvent(db, event, owner, user, now))
  {
    SameEventsSameOpen(db, AcknowledgeEvent(db, event, owner, user, now));
  }

  lemma TickKeepsConsistent(db: Db, now: int, rows: seq<Id>)
    requires Consistent(db) && NoDuplicates(rows)
    ensures Consistent(TickRows(db, now, rows).0)
  {
    TickKeepsEvents(db, now, rows);
    SameEventsSameOpen(db, TickRows(db, now, rows).0);
  }

  lemma StepKeepsConsistent(db: Db, a: Action)
    requires Consistent(db) && Allowed(db, a)
    ensures Consistent(Next(db, a))
  {
    match a
    case Evaluation(req, rows) => EvaluationKeepsConsistent(db, req, rows);
    case Tick(now, problems) => TickKeepsConsistent(db, now, problems);
    case Acknowledgement(event, owner, user, at) => AcknowledgeKeepsConsistent(db, event, owner, user, at);
    case AddTrigger(t) => AddKeepsConsistent(db, t);
    case EditTrigger(id, update) => EditKeepsConsistent(db, id, update);
    case DropTrigger(id) => DropKeepsConsistent(db, id);
    case _ => SameEventsSameOpen(db, Next(db, a));
  }

  lemma {:induction false} RunKeepsConsistent(db: Db, actions: seq<Action>)
    requires Consistent(db) && IsRun(db, actions)
    ensures Consistent(Run(db, actions))
    decreases actions
  {
    if actions != [] {
      StepKeepsConsistent(db, actions[0]);
      RunKeepsConsistent(Next(db, actions[0]), actions[1..]);
    }
  }

  function Unresolved(db: Db, trigger: Id): set<Id> {
    set e | e in db.events && db.events[e].trigger == trigger && db.events[e].resolvedAt == None
  }

  /** In every state reachable by serialized steps a trigger is in PROBLEM exactly when it has
      exactly one unresolved event and in OK exactly when it has none. */
  lemma {:induction false} PipelineInvariant(db: Db, actions: seq<Action>)
    requires Consistent(db) && IsRun(db, actions)
    ensures Consistent(Run(db, actions))
    ensures var end := Run(db, actions);
            forall t :: t in end.triggers ==>
              && (end.triggers[t].state == PROBLEM <==> |Unresolved(end, t)| == 1)
              && (end.triggers[t].state == OK <==> Unresolved(end, t) == {})
  {
    var end := Run(db, actions);
    RunKeepsConsistent(db, actions);
    forall t | t in end.triggers
      ensures end.triggers[t].state == PROBLEM <==> |Unresolved(end, t)| == 1
      ensures end.triggers[t].state == OK <==> Unresolved(end, t) == {}
    {
      assert Unresolved(end, t) == OpenOf(end, t);
    }
  }

  lemma {:induction false} UnrecordedLeavesEvents(db: Db, req: Request, rows: seq<Id>)
    requires !req.Recorded()
    ensures EvalRows(db, req, rows).0.events == db.events
    ensures EvalRows(db, req, rows).1 == [] ==> EvalRows(db, req, rows).0 == db
  {
    if rows != [] {
      UnrecordedLeavesEvents(db, req, rows[..|rows| - 1]);
    }
  }

  lemma {:induction false} FirstFired(db: Db, req: Request, rows: seq<Id>) returns (id: Id)
    requires WellKeyed(db) && NoDuplicates(rows) && EvalRows(db, req, rows).1 != []
    ensures id in rows && id in db.triggers && Changes(db, req, id) != []
  {
    var init, last := rows[..|rows| - 1], rows[|rows| - 1];
    var (mid, fired) := EvalRows(db, req, init);
    if fired != [] {
      id := FirstFired(db, req, init);
    } else {
      EvalRowsKeys(db, req, init);
      EvalRowsSkip(db, req, init, last);
      id := last;
      SameObservation(db, mid, req, db.triggers[id]);
      EvalRowEffect(mid, req, id);
    }
  }

  /** Owner and subject are optional arguments. Leaving them out breaks the invariant exactly
      when some trigger changes state. */
  lemma UnrecordedEvaluationIff(db: Db, req: Request, rows: seq<Id>)
    requires Consistent(db) && IsScan(rows, Selected(db, req.Target()))
    ensures Consistent(EvalRows(db, req, rows).0) <==> req.Recorded() || EvalRows(db, req, rows).1 == []
  {
    if req.Recorded() {
      EvaluationKeepsConsistent(db, req, rows);
    } else {
      UnrecordedLeavesEvents(db, req, rows);
      var (after, fired) := EvalRows(db, req, rows);
      if fired != [] {
        var id := FirstFired(db, req, rows);
        EvalRowsAt(db, req, rows, id);
        assert OpenOf(after, id) == OpenOf(db, id);
      }
    }
  }

  // ---- Events only ever progress ----

  ghost predicate KeptOnceSet<T(!new)>(before: Option<T>, after: Option<T>) {
    before.Some? ==> after == before
  }

  /** Identity is frozen, resolution and acknowledgement are written once, and the escalation
      cursor never moves back. */
  ghost predicate Evolves(e: ProblemEvent, later: ProblemEvent) {
    && later == e.(resolvedAt := later.resolvedAt, acknowledgedAt := later.acknowledgedAt,
                   acknowledgedBy := later.acknowledgedBy, escalatedStep := later.escalatedStep)
    && KeptOnceSet(e.resolvedAt, later.resolvedAt)
    && KeptOnceSet(e.acknowledgedAt, later.acknowledgedAt)
    && (e.acknowledgedAt.Some? ==> later.acknowledgedBy == e.acknowledgedBy)
    && e.escalatedStep <= later.escalatedStep
  }

  ghost predicate EventsEvolve(db: Db, after: Db) {
    && db.nextEvent <= after.nextEvent
    && (forall e :: e in db.events && e in after.events ==> Evolves(db.events[e], after.events[e]))
    && (forall e :: e in after.events ==> e in db.events || db.nextEvent <= e)
  }

  lemma SettleEvolves(db: Db, id: Id, newState: TriggerState, value: real, now: int, entry: Option<(Id, string)>)
    requires WellKeyed(db) && id in db.triggers
    ensures EventsEvolve(db, Settle(db, id, newState, value, now, entry))
  {
  }

  lemma EvolveCompose(a: Db, b: Db, c: Db)
    requires EventsEvolve(a, b) && EventsEvolve(b, c) && WellKeyed(a)
    ensures EventsEvolve(a, c)
  {
    forall e | e in a.events && e in c.events ensures Evolves(a.events[e], c.events[e]) {
      assert e < a.nextEvent;
      assert e in b.events;
    }
  }

  lemma {:induction false} EvalRowsEvolve(db: Db, req: Request, rows: seq<Id>)
    requires WellKeyed(db)
    ensures EventsEvolve(db, EvalRows(db, req, rows).0)
  {
    if rows != [] {
      var id, mid := rows[|rows| - 1], EvalRows(db, req, rows[..|rows| - 1]).0;
      EvalRowsEvolve(db, req, rows[..|rows| - 1]);
      EvalRowsKeys(db, req, rows[..|rows| - 1]);
      if id in mid.triggers && Changes(mid, req, id) != [] {
        var t, value := mid.triggers[id], Observe(mid, req, mid.triggers[id]).value;
        SettleEvolves(mid, id, Verdict(t, value), value, req.now, req.Entry());
        EvolveCompose(db, mid, EvalRow(mid, req, id).0);
      }
    }
  }

  lemma SameEventsEvolve(db: Db, after: Db)
    requires WellKeyed(db) && after.events == db.events && db.nextEvent <= after.nextEvent
    ensures EventsEvolve(db, after)
  {
  }

  lemma TickEvolves(db: Db, now: int, problems: seq<Id>)
    requires WellKeyed(db) && NoDuplicates(problems)
    ensures EventsEvolve(db, TickRows(db, now, problems).0)
  {
    TickKeepsEvents(db, now, problems);
  }

  lemma AcknowledgeEvolves(db: Db, event: Id, owner: Id, user: Id, now: int)
    requires WellKeyed(db)
    ensures EventsEvolve(db, AcknowledgeEvent(db, event, owner, user, now))
  {
  }

  lemma DropEvolves(db: Db, id: Id)
    requires WellKeyed(db)
    ensures EventsEvolve(db, DropTriggerRow(db, id))
  {
  }

  lemma StepEvolves(db: Db, a: Action)
    requires WellKeyed(db) && Allowed(db, a)
    ensures EventsEvolve(db, Next(db, a))
  {
    match a
    case Evaluation(req, rows) => EvalRowsEvolve(db, req, rows);
    case Tick(now, problems) => TickEvolves(db, now, problems);
    case Acknowledgement(event, owner, user, at) => AcknowledgeEvolves(db, event, owner, user, at);
    case DropTrigger(id) => DropEvolves(db, id);
    case _ => SameEventsEvolve(db, Next(db, a));
  }

  /** Over any run, what an event records about its origin never changes, and neither do its
      resolution and its acknowledgement once set; deleted identifiers never come back. */
  lemma {:induction false} RunEvolves(db: Db, actions: seq<Action>)
    requires Consistent(db) && IsRun(db, actions)
    ensures EventsEvolve(db, Run(db, actions))
    decreases actions
  {
    if actions != [] {
      StepKeepsConsistent(db, actions[0]);
      StepEvolves(db, actions[0]);
      RunEvolves(Next(db, actions[0]), actions[1..]);
      EvolveCompose(db, Next(db, actions[0]), Run(db, actions));
    }
  }

  // ---- Escalation safety ----

  /** Step orders strictly increase and stay above `floor`. */
  ghost predicate Climbing(sent: seq<Delivery>, floor: int) {
    && (forall i :: 0 <= i < |sent| ==> floor < sent[i].alert.stepOrder)
    && (forall i, j :: 0 <= i < j < |sent| ==> sent[i].alert.stepOrder < sent[j].alert.stepOrder)
  }

  ghost predicate AtMost(sent: seq<Delivery>, ceiling: int) {
    forall i :: 0 <= i < |sent| ==> sent[i].alert.stepOrder <= ceiling
  }

  lemma {:induction false} DeliveriesClimb(channels: map<Id, Channel>, problem: Id, e: ProblemEvent,
                                           passed: seq<Step>, now: int, floor: int)
    requires Ascending(passed) && forall i :: 0 <= i < |passed| ==> floor < passed[i].order
    ensures Climbing(Deliveries(channels, problem, e, passed, now), floor)
    ensures AtMost(Deliveries(channels, problem, e, passed, now), CursorAfter(floor, passed))
  {
    if passed != [] {
      DeliveriesClimb(channels, problem, e, passed[..|passed| - 1], now, floor);
    }
  }

  lemma OwedClimbs(db: Db, problem: Id, now: int)
    requires problem in db.events
    ensures Climbing(Owed(db, problem, now), db.events[problem].escalatedStep)
    ensures AtMost(Owed(db, problem, now), Escalated(db, db.events[problem], now).escalatedStep)
  {
    var e := db.events[problem];
    var policy := EnabledPolicy(db.policies, e.owner);
    if policy.Some? { PassedIncreases(Ladder(policy.value.steps), e.escalatedStep, now - e.startedAt); }
    DeliveriesClimb(db.channels, problem, e, PassedBy(db, e, now), now, e.escalatedStep);
  }

  /** The cursor of a problem; a problem not opened yet will start at 0. */
  function Cursor(db: Db, problem: Id): int {
    if problem in db.events then db.events[problem].escalatedStep else 0
  }

  /** A problem that may still escalate: open and unacknowledged, or not opened yet. */
  ghost predicate MayEscalate(db: Db, problem: Id) {
    if problem in db.events then db.events[problem].Escalates() else db.nextEvent <= problem
  }

  lemma StepSends(db: Db, a: Action, problem: Id)
    requires Allowed(db, a)
    ensures var sent := For(SentBy(db, a), problem);
            && Climbing(sent, Cursor(db, problem)) && AtMost(sent, Cursor(Next(db, a), problem))
            && (sent != [] ==> problem in db.events && db.events[problem].Escalates() && problem in Next(db, a).events)
  {
    if a.Tick? {
      if problem in db.events {
        TickRowsAt(db, a.now, a.problems, problem);
        OwedClimbs(db, problem, a.now);
      } else {
        TickRowsForeign(db, a.now, a.problems, problem);
      }
    }
  }

  /** Old events keep their cursor, new ones start at 0. */
  ghost predicate CursorsKept(db: Db, after: Db) {
    && db.events.Keys <= after.events.Keys
    && forall e :: e in after.events ==>
         after.events[e].escalatedStep == if e in db.events then db.events[e].escalatedStep else 0
  }

  lemma SettleKeepsCursors(db: Db, id: Id, newState: TriggerState, value: real, now: int, entry: Option<(Id, string)>)
    requires WellKeyed(db) && id in db.triggers
    ensures CursorsKept(db, Settle(db, id, newState, value, now, entry))
  {
  }

  lemma CursorsCompose(a: Db, b: Db, c: Db)
    requires CursorsKept(a, b) && CursorsKept(b, c)
    ensures CursorsKept(a, c)
  {
  }

  lemma RowKeepsCursors(db: Db, req: Request, id: Id)
    requires WellKeyed(db)
    ensures CursorsKept(db, EvalRow(db, req, id).0)
  {
    if id in db.triggers && Changes(db, req, id) != [] {
      var t, value := db.triggers[id], Observe(db, req, db.triggers[id]).value;
      SettleKeepsCursors(db, id, Verdict(t, value), value, req.now, req.Entry());
    }
  }

  lemma {:induction false} EvaluationKeepsCursors(db: Db, req: Request, rows: seq<Id>)
    requires WellKeyed(db)
    ensures CursorsKept(db, EvalRows(db, req, rows).0)
  {
    if rows != [] {
      var mid := EvalRows(db, req, rows[..|rows| - 1]).0;
      EvaluationKeepsCursors(db, req, rows[..|rows| - 1]);
      EvalRowsKeys(db, req, rows[..|rows| - 1]);
      RowKeepsCursors(mid, req, rows[|rows| - 1]);
      CursorsCompose(db, mid, EvalRow(mid, req, rows[|rows| - 1]).0);
    }
  }

  lemma StepCursor(db: Db, a: Action, problem: Id)
    requires Consistent(db) && Allowed(db, a)
    ensures problem in Next(db, a).events ==> Cursor(db, problem) <= Cursor(Next(db, a), problem)
    ensures db.nextEvent <= Next(db, a).nextEvent
    ensures MayEscalate(Next(db, a), problem) ==> MayEscalate(db, problem)
  {
    StepEvolves(db, a);
    if a.Evaluation? {
      EvaluationKeepsCursors(db, a.req, a.rows);
    } else if a.Tick? {
      TickKeepsEvents(db, a.now, a.problems);
    }
  }

  lemma ClimbingAppend(a: seq<Delivery>, b: seq<Delivery>, floor: int, middle: int)
    requires Climbing(a, floor) && AtMost(a, middle) && Climbing(b, middle) && floor <= middle
    ensures Climbing(a + b, floor)
  {
  }

  /** Over any interleaving: the deliveries of a problem climb strictly in step order from its
      cursor, so no step is delivered twice; the cursor never drops and bounds what was sent; and
      nothing is sent for a problem that is acknowledged, resolved or deleted. */
  lemma {:induction false} EscalationSafety(db: Db, actions: seq<Action>, problem: Id)
    requires Consistent(db) && IsRun(db, actions)
    ensures var sent := For(Sent(db, actions), problem);
            && Climbing(sent, Cursor(db, problem))
            && (!MayEscalate(db, problem) ==> sent == [])
            && (problem in Run(db, actions).events ==>
                  && AtMost(sent, Cursor(Run(db, actions), problem))
                  && Cursor(db, problem) <= Cursor(Run(db, actions), problem))
    decreases actions
  {
    if actions != [] {
      var a, rest := actions[0], actions[1..];
      var mid := Next(db, a);
      StepKeepsConsistent(db, a);
      StepSends(db, a, problem);
      StepCursor(db, a, problem);
      EscalationSafety(mid, rest, problem);
      ForAppend(SentBy(db, a), Sent(mid, rest), problem);
      var first, later := For(SentBy(db, a), problem), For(Sent(mid, rest), problem);
      if later == [] {
        assert first + later == first;
      } else if problem in mid.events {
        ClimbingAppend(first, later, Cursor(db, problem), Cursor(mid, problem));
      } else {
        assert first == [] && problem !in db.events;
        assert first + later == later;
      }
      if problem in Run(db, actions).events {
        RunEvolves(mid, rest);
      }
    }
  }

  lemma {:induction false} RunSplits(db: Db, before: seq<Action>, after: seq<Action>)
    ensures Run(db, before + after) == Run(Run(db, before), after)
    ensures IsRun(db, before + after) <==> IsRun(db, before) && IsRun(Run(db, before), after)
    decreases before
  {
    if before == [] {
      assert before + after == after;
    } else {
      assert (before + after)[0] == before[0] && (before + after)[1..] == before[1..] + after;
      RunSplits(Next(db, before[0]), before[1..], after);
    }
  }

  lemma {:induction false} SentSplits(db: Db, before: seq<Action>, after: seq<Action>)
    ensures Sent(db, before + after) == Sent(db, before) + Sent(Run(db, before), after)
    decreases before
  {
    if before == [] {
      assert before + after == after;
    } else {
      assert (before + after)[0] == before[0] && (before + after)[1..] == before[1..] + after;
      SentSplits(Next(db, before[0]), before[1..], after);
    }
  }

  /** Once a problem is acknowledged, resolved or deleted, the rest of the run sends nothing for it. */
  lemma NothingAfterStop(db: Db, before: seq<Action>, after: seq<Action>, problem: Id)
    requires Consistent(db) && IsRun(db, before + after)
    requires var mid := Run(db, before);
             if problem in mid.events then mid.events[problem].resolvedAt.Some? || mid.events[problem].acknowledgedAt.Some?
             else problem < mid.nextEvent
    ensures For(Sent(db, before + after), problem) == For(Sent(db, before), problem)
  {
    RunSplits(db, before, after);
    SentSplits(db, before, after);
    PipelineInvariant(db, before);
    EscalationSafety(Run(db, before), after, problem);
    ForAppend(Sent(db, before), Sent(Run(db, before), after), problem);
    assert For(Sent(db, before), problem) + [] == For(Sent(db, before), problem);
  }
}
