/** Traces of the alert pipeline: alerts refine the verdicts, alerts match the timeline,
    escalation does not depend on how often it is polled, and pruning is invisible. */
module AlertTraces {
  import opened Common
  import opened History
  import opened AlertModel
  import opened Escalation
  import opened AlertRuns

  // ---- Alerts are the compressed verdicts ----

  /** New triggers start in OK. */
  function StateOf(db: Db, id: Id): TriggerState {
    if id in db.triggers then db.triggers[id].state else OK
  }

  lemma EvaluationTrace(db: Db, req: Request, rows: seq<Id>, id: Id)
    requires WellKeyed(db) && IsScan(rows, Selected(db, req.Target()))
    ensures var a := Evaluation(req, rows);
            && FiredFor(db, a, id) == Compress(StateOf(db, id), DecidedFor(db, a, id))
            && StateOf(Next(db, a), id) == FinalOf(StateOf(db, id), DecidedFor(db, a, id))
            && Next(db, a).triggers.Keys == db.triggers.Keys && Next(db, a).nextTrigger == db.nextTrigger
  {
    EvalRowsKeys(db, req, rows);
    if id in rows {
      EvalRowsAt(db, req, rows, id);
    } else {
      EvalRowsSkip(db, req, rows, id);
    }
  }

  lemma StepTrace(db: Db, a: Action, id: Id)
    requires Consistent(db) && Allowed(db, a)
    ensures FiredFor(db, a, id) == Compress(StateOf(db, id), DecidedFor(db, a, id))
    ensures id in Next(db, a).triggers || id !in db.triggers ==>
              StateOf(Next(db, a), id) == FinalOf(StateOf(db, id), DecidedFor(db, a, id))
    ensures db.nextTrigger <= Next(db, a).nextTrigger
    ensures id in Next(db, a).triggers && id !in db.triggers ==> id == db.nextTrigger
  {
    match a
    case Evaluation(req, rows) => EvaluationTrace(db, req, rows, id);
    case Tick(now, problems) => TickRowsKeys(db, now, problems);
    case _ =>
  }

  lemma {:induction false} DeletedStaysSilent(db: Db, actions: seq<Action>, id: Id)
    requires Consistent(db) && IsRun(db, actions) && id !in db.triggers && id < db.nextTrigger
    ensures Decisions(db, actions, id) == [] && id !in Run(db, actions).triggers
    decreases actions
  {
    if actions != [] {
      StepKeepsConsistent(db, actions[0]);
      StepTrace(db, actions[0], id);
      DeletedStaysSilent(Next(db, actions[0]), actions[1..], id);
    }
  }

  /** For each trigger, the states it alerts over a run are the changes in its sequence of
      verdicts, rounds without data or while disabled left out, starting from its state. */
  lemma {:induction false} AlertTraceRefinement(db: Db, actions: seq<Action>, id: Id)
    requires Consistent(db) && IsRun(db, actions)
    ensures Fires(db, actions, id) == Compress(StateOf(db, id), Decisions(db, actions, id))
    ensures Alternates(StateOf(db, id), Fires(db, actions, id))
    decreases actions
  {
    CompressAlternates(StateOf(db, id), Decisions(db, actions, id));
    if actions != [] {
      var a, mid, rest := actions[0], Next(db, actions[0]), actions[1..];
      StepKeepsConsistent(db, a);
      StepTrace(db, a, id);
      AlertTraceRefinement(mid, rest, id);
      CompressAppend(StateOf(db, id), DecidedFor(db, a, id), Decisions(mid, rest, id));
      if id in db.triggers && id !in mid.triggers {
        DeletedStaysSilent(mid, rest, id);
      }
    }
  }

  // ---- Alerts match event openings and resolutions ----

  function Count(states: seq<TriggerState>, s: TriggerState): nat {
    if states == [] then 0 else Count(states[..|states| - 1], s) + if states[|states| - 1] == s then 1 else 0
  }

  lemma {:induction false} CountAppend(a: seq<TriggerState>, b: seq<TriggerState>, s: TriggerState)
    ensures Count(a + b, s) == Count(a, s) + Count(b, s)
  {
    if b == [] {
      assert a + b == a;
    } else {
      assert (a + b)[..|a + b| - 1] == a + b[..|b| - 1];
      CountAppend(a, b[..|b| - 1], s);
    }
  }

  function ResolvedOf(db: Db, trigger: Id): set<Id> {
    set e | e in db.events && db.events[e].trigger == trigger && !db.events[e].IsOpen()
  }

  lemma EventsSplit(db: Db, trigger: Id)
    ensures |EventsOf(db, trigger)| == |OpenOf(db, trigger)| + |ResolvedOf(db, trigger)|
  {
    assert EventsOf(db, trigger) == OpenOf(db, trigger) + ResolvedOf(db, trigger);
    assert OpenOf(db, trigger) !! ResolvedOf(db, trigger);
  }

  lemma SettleCounts(db: Db, id: Id, newState: TriggerState, value: real, now: int, entry: Option<(Id, string)>)
    requires WellKeyed(db) && id in db.triggers && entry.Some?
    ensures |EventsOf(Settle(db, id, newState, value, now, entry), id)|
         == |EventsOf(db, id)| + Count([newState], PROBLEM)
  {
    assert [newState][..0] == [];
    if newState == PROBLEM {
      SettleOpens(db, id, value, now, entry);
      assert db.nextEvent !in EventsOf(db, id);
    } else {
      SettleResolves(db, id, value, now, entry);
    }
  }

  lemma EvalRowOpens(db: Db, req: Request, row: Id, id: Id)
    requires WellKeyed(db) && req.Recorded() && id in db.triggers
    ensures |EventsOf(EvalRow(db, req, row).0, id)|
         == |EventsOf(db, id)| + Count(StatesOf(EvalRow(db, req, row).1, id), PROBLEM)
  {
    if row != id {
      EvalRowFrame(db, req, row, id);
    } else {
      EvalRowEffect(db, req, id);
      if Changes(db, req, id) != [] {
        var t, value := db.triggers[id], Observe(db, req, db.triggers[id]).value;
        assert Changes(db, req, id) == [Verdict(t, value)];
        SettleCounts(db, id, Verdict(t, value), value, req.now, req.Entry());
      }
    }
  }

  lemma {:induction false} EvalRowsOpen(db: Db, req: Request, rows: seq<Id>, id: Id)
    requires Consistent(db) && req.Recorded() && id in db.triggers
    ensures |EventsOf(EvalRows(db, req, rows).0, id)|
         == |EventsOf(db, id)| + Count(StatesOf(EvalRows(db, req, rows).1, id), PROBLEM)
  {
    if rows != [] {
      var init, last := rows[..|rows| - 1], rows[|rows| - 1];
      var (mid, fired) := EvalRows(db, req, init);
      var tail := EvalRow(mid, req, last).1;
      EvalRowsOpen(db, req, init, id);
      EvaluationKeepsConsistent(db, req, init);
      EvalRowsKeys(db, req, init);
      EvalRowOpens(mid, req, last, id);
      StatesOfAppend(fired, tail, id);
      CountAppend(StatesOf(fired, id), StatesOf(tail, id), PROBLEM);
    }
  }

  lemma TickOpensNothing(db: Db, now: int, problems: seq<Id>, id: Id)
    requires NoDuplicates(problems)
    ensures EventsOf(TickRows(db, now, problems).0, id) == EventsOf(db, id)
  {
    TickKeepsEvents(db, now, problems);
    SameEventsSameOpen(db, TickRows(db, now, problems).0);
  }

  lemma AcknowledgeOpensNothing(db: Db, event: Id, owner: Id, user: Id, now: int, id: Id)
    ensures EventsOf(AcknowledgeEvent(db, event, owner, user, now), id) == EventsOf(db, id)
  {
    SameEventsSameOpen(db, AcknowledgeEvent(db, event, owner, user, now));
  }

  /** No step but an evaluation opens an event; deleting other triggers takes none away. */
  lemma OtherStepOpensNothing(db: Db, a: Action, id: Id)
    requires Allowed(db, a) && !a.Evaluation? && id in Next(db, a).triggers
    ensures EventsOf(Next(db, a), id) == EventsOf(db, id)
  {
    if a.Tick? {
      TickOpensNothing(db, a.now, a.problems, id);
    } else if a.Acknowledgement? {
      AcknowledgeOpensNothing(db, a.event, a.owner, a.user, a.at, id);
    } else if a.DropTrigger? {
      DropLeavesOthers(db, a.dropped);
    } else {
      assert Next(db, a).events == db.events;
    }
  }

  lemma StepOpens(db: Db, a: Action, id: Id)
    requires Consistent(db) && Allowed(db, a) && id in db.triggers && id in Next(db, a).triggers
    ensures |EventsOf(Next(db, a), id)| == |EventsOf(db, id)| + Count(FiredFor(db, a, id), PROBLEM)
  {
    if a.Evaluation? {
      EvalRowsOpen(db, a.req, a.rows, id);
    } else {
      OtherStepOpensNothing(db, a, id);
    }
  }

  lemma {:induction false} AlternationCounts(start: TriggerState, changes: seq<TriggerState>)
    requires Alternates(start, changes)
    ensures var ends := if FinalOf(start, changes).PROBLEM? then 1 else 0;
            var was := if start.PROBLEM? then 1 else 0;
            Count(changes, PROBLEM) - Count(changes, OK) == ends - was
  {
    if changes != [] {
      var init := changes[..|changes| - 1];
      AlternationCounts(start, init);
      assert FinalOf(start, init) != changes[|changes| - 1];
    }
  }

  lemma {:induction false} FinalState(db: Db, actions: seq<Action>, id: Id)
    requires Consistent(db) && IsRun(db, actions) && id in db.triggers && id in Run(db, actions).triggers
    ensures StateOf(Run(db, actions), id) == FinalOf(StateOf(db, id), Decisions(db, actions, id))
    ensures |EventsOf(Run(db, actions), id)| == |EventsOf(db, id)| + Count(Fires(db, actions, id), PROBLEM)
    decreases actions
  {
    if actions != [] {
      var a, mid, rest := actions[0], Next(db, actions[0]), actions[1..];
      StepKeepsConsistent(db, a);
      StepTrace(db, a, id);
      if id !in mid.triggers {
        DeletedStaysSilent(mid, rest, id);
      } else {
        StepOpens(db, a, id);
        FinalState(mid, rest, id);
        CountAppend(FiredFor(db, a, id), Fires(mid, rest, id), PROBLEM);
        var first, later := DecidedFor(db, a, id), Decisions(mid, rest, id);
        assert FinalOf(StateOf(db, id), first + later) == FinalOf(FinalOf(StateOf(db, id), first), later);
      }
    }
  }

  /** Alerts and timeline agree one to one: over any run each PROBLEM alert of a trigger opened
      one event and each OK alert resolved one. */
  lemma AlertsMatchTimeline(db: Db, actions: seq<Action>, id: Id)
    requires Consistent(db) && IsRun(db, actions) && id in db.triggers && id in Run(db, actions).triggers
    ensures var end := Run(db, actions);
            && |EventsOf(end, id)| == |EventsOf(db, id)| + Count(Fires(db, actions, id), PROBLEM)
            && |ResolvedOf(end, id)| == |ResolvedOf(db, id)| + Count(Fires(db, actions, id), OK)
  {
    var end, fires := Run(db, actions), Fires(db, actions, id);
    PipelineInvariant(db, actions);
    FinalState(db, actions, id);
    AlertTraceRefinement(db, actions, id);
    CompressAlternates(StateOf(db, id), Decisions(db, actions, id));
    AlternationCounts(StateOf(db, id), fires);
    EventsSplit(db, id);
    EventsSplit(end, id);
  }

  // ---- Poll independence ----

  ghost predicate Ticks(actions: seq<Action>) {
    && (forall i :: 0 <= i < |actions| ==> actions[i].Tick?)
    && (forall i, j :: 0 <= i < j < |actions| ==> actions[i].now <= actions[j].now)
  }

  /** Deliveries up to the instant they were sent at. */
  function Untimed(sent: seq<Delivery>): seq<Delivery> {
    if sent == [] then []
    else
      var d := sent[|sent| - 1];
      Untimed(sent[..|sent| - 1]) + [d.(alert := d.alert.(timestamp := 0))]
  }

  lemma {:induction false} UntimedAt(sent: seq<Delivery>)
    ensures |Untimed(sent)| == |sent|
    ensures forall i :: 0 <= i < |sent| ==> Untimed(sent)[i] == sent[i].(alert := sent[i].alert.(timestamp := 0))
  {
    if sent != [] { UntimedAt(sent[..|sent| - 1]); }
  }

  lemma {:induction false} UntimedAppend(a: seq<Delivery>, b: seq<Delivery>)
    ensures Untimed(a + b) == Untimed(a) + Untimed(b)
  {
    if b == [] {
      assert a + b == a;
    } else {
      assert (a + b)[..|a + b| - 1] == a + b[..|b| - 1];
      UntimedAppend(a, b[..|b| - 1]);
    }
  }

  lemma {:induction false} UntimedDeliveries(channels: map<Id, Channel>, problem: Id, e: ProblemEvent, cursor: int,
                                             passed: seq<Step>, now: int, later: int)
    ensures Untimed(Deliveries(channels, problem, e, passed, now))
         == Untimed(Deliveries(channels, problem, e.(escalatedStep := cursor), passed, later))
  {
    if passed != [] {
      var init, s := passed[..|passed| - 1], passed[|passed| - 1];
      UntimedDeliveries(channels, problem, e, cursor, init, now, later);
      var e' := e.(escalatedStep := cursor);
      var a, b := Deliveries(channels, problem, e, init, now), Deliveries(channels, problem, e', init, later);
      if Deliverable(channels, e.owner, s) {
        var x, y := DeliveryFor(problem, e, s, now), DeliveryFor(problem, e', s, later);
        UntimedAppend(a, [x]);
        UntimedAppend(b, [y]);
        assert [x][..0] == [] && [y][..0] == [];
      } else {
        assert a + [] == a && b + [] == b;
      }
    }
  }

  lemma CursorAfterAppend(cursor: int, a: seq<Step>, b: seq<Step>)
    ensures CursorAfter(cursor, a + b) == CursorAfter(CursorAfter(cursor, a), b)
  {
    if b == [] { assert a + b == a; }
  }

  /** Two ticks leave the cursor of one tick at the later time, and send the same. */
  lemma TwoTicks(db: Db, mid: Db, problem: Id, earlier: int, later: int)
    requires problem in db.events && problem in mid.events && earlier <= later
    requires mid.policies == db.policies && mid.channels == db.channels
    requires mid.events[problem] == Escalated(db, db.events[problem], earlier)
    ensures Escalated(mid, mid.events[problem], later) == Escalated(db, db.events[problem], later)
    ensures Untimed(Owed(db, problem, earlier) + Owed(mid, problem, later)) == Untimed(Owed(db, problem, later))
  {
    var e, e' := db.events[problem], mid.events[problem];
    var first, second := PassedBy(db, e, earlier), PassedBy(mid, e', later);
    var policy := EnabledPolicy(db.policies, e.owner);
    if policy.Some? {
      PassedComposes(Ladder(policy.value.steps), e.escalatedStep, earlier - e.startedAt, later - e.startedAt);
    }
    assert PassedBy(db, e, later) == first + second;
    CursorAfterAppend(e.escalatedStep, first, second);
    DeliveriesAppend(db.channels, problem, e, first, second, later);
    UntimedAppend(Owed(db, problem, earlier), Owed(mid, problem, later));
    UntimedAppend(Deliveries(db.channels, problem, e, first, later), Deliveries(db.channels, problem, e, second, later));
    UntimedDeliveries(db.channels, problem, e, e.escalatedStep, first, earlier, later);
    UntimedDeliveries(db.channels, problem, e, e'.escalatedStep, second, later, later);
  }

  lemma FirstTick(db: Db, a: Action, problem: Id)
    requires a.Tick? && Allowed(db, a) && problem in db.events && db.events[problem].Escalates()
    ensures var mid := Next(db, a);
            && problem in mid.events && mid.events[problem] == Escalated(db, db.events[problem], a.now)
            && mid.policies == db.policies && mid.channels == db.channels
            && For(SentBy(db, a), problem) == Owed(db, problem, a.now)
  {
    assert problem in Escalating(db);
    TickRowsAt(db, a.now, a.problems, problem);
    TickRowsKeys(db, a.now, a.problems);
  }

  /** With policy and channels fixed and the problem open and unacknowledged, any non-decreasing
      series of ticks leaves the cursor, and has sent the alerts to the channels, of a single
      tick at its last instant, for every ladder. */
  lemma {:induction false} PollIndependence(db: Db, ticks: seq<Action>, problem: Id)
    requires ticks != [] && Ticks(ticks) && IsRun(db, ticks)
    requires problem in db.events && db.events[problem].Escalates()
    ensures var now := ticks[|ticks| - 1].now;
            && problem in Run(db, ticks).events
            && Run(db, ticks).events[problem] == Escalated(db, db.events[problem], now)
            && Untimed(For(Sent(db, ticks), problem)) == Untimed(Owed(db, problem, now))
    decreases ticks
  {
    var a, mid, rest := ticks[0], Next(db, ticks[0]), ticks[1..];
    FirstTick(db, a, problem);
    ForAppend(SentBy(db, a), Sent(mid, rest), problem);
    if rest == [] {
      assert Sent(mid, rest) == [] && ticks[|ticks| - 1] == a;
      assert For(SentBy(db, a), problem) + [] == For(SentBy(db, a), problem);
    } else {
      var now := ticks[|ticks| - 1].now;
      assert now == rest[|rest| - 1].now && a.now <= now;
      PollIndependence(mid, rest, problem);
      TwoTicks(db, mid, problem, a.now, now);
      UntimedAppend(Owed(db, problem, a.now), For(Sent(mid, rest), problem));
      UntimedAppend(Owed(db, problem, a.now), Owed(mid, problem, now));
    }
  }

  /** The same, against an actual single tick. */
  lemma ManyTicksAreOneTick(db: Db, ticks: seq<Action>, single: Action, problem: Id)
    requires ticks != [] && Ticks(ticks) && IsRun(db, ticks)
    requires single.Tick? && Allowed(db, single) && single.now == ticks[|ticks| - 1].now
    requires problem in db.events && db.events[problem].Escalates()
    ensures problem in Run(db, ticks).events && problem in Next(db, single).events
    ensures Run(db, ticks).events[problem] == Next(db, single).events[problem]
    ensures Untimed(For(Sent(db, ticks), problem)) == Untimed(For(SentBy(db, single), problem))
  {
    PollIndependence(db, ticks, problem);
    TickRowsAt(db, single.now, single.problems, problem);
  }

  // ---- Pruning is invisible to evaluation ----

  function Pruned(db: Db, cutoff: int): Db {
    db.(samples := Since(db.samples, cutoff))
  }

  ghost predicate WindowsAccepted(db: Db) {
    forall t :: t in db.triggers ==> db.triggers[t].windowSeconds <= MAX_WINDOW_SECONDS
  }

  lemma PrunedObservation(db: Db, req: Request, t: Trigger, cutoff: int)
    requires t.windowSeconds <= MAX_WINDOW_SECONDS && cutoff <= req.now - DAY
    ensures Observe(Pruned(db, cutoff), req, t) == Observe(db, req, t)
  {
    var since := req.now - t.windowSeconds * SECOND;
    match req
    case MonitorEval(monitor, _, _, _, _) =>
      assert LatencyItems(Pruned(db, cutoff), monitor) == LatencyItems(db, monitor);
      WindowAfterPrune(db.samples, LatencyItems(db, monitor), since, cutoff);
    case ItemEval(item, _, _, _, _, _) =>
      WindowAfterPrune(db.samples, {item}, since, cutoff);
  }

  lemma SettlePruned(db: Db, id: Id, newState: TriggerState, value: real, now: int, entry: Option<(Id, string)>,
                     cutoff: int)
    requires id in db.triggers
    ensures Settle(Pruned(db, cutoff), id, newState, value, now, entry)
         == Pruned(Settle(db, id, newState, value, now, entry), cutoff)
  {
    assert CloseEvents(Pruned(db, cutoff), id, now).events == CloseEvents(db, id, now).events;
  }

  lemma JudgePruned(db: Db, id: Id, observed: Option<real>, now: int, entry: Option<(Id, string)>, cutoff: int)
    requires id in db.triggers && WindowsAccepted(db)
    ensures var (after, fired) := Judge(db, id, observed, now, entry);
            Judge(Pruned(db, cutoff), id, observed, now, entry) == (Pruned(after, cutoff), fired) && WindowsAccepted(after)
  {
    if observed.Some? {
      var value := observed.value;
      SettlePruned(db, id, Verdict(db.triggers[id], value), value, now, entry, cutoff);
    }
  }

  lemma EvalRowPruned(db: Db, req: Request, id: Id, cutoff: int)
    requires WindowsAccepted(db) && cutoff <= req.now - DAY
    ensures EvalRow(Pruned(db, cutoff), req, id) == (Pruned(EvalRow(db, req, id).0, cutoff), EvalRow(db, req, id).1)
    ensures WindowsAccepted(EvalRow(db, req, id).0)
  {
    if id in db.triggers {
      PrunedObservation(db, req, db.triggers[id], cutoff);
      JudgePruned(db, id, Observe(db, req, db.triggers[id]), req.now, req.Entry(), cutoff);
    }
  }

  /** Pruning history at least a day older than an evaluation commutes with it: same flips,
      same events, same alerts. */
  lemma {:induction false} PruneInvisibleToEvaluation(db: Db, req: Request, rows: seq<Id>, cutoff: int)
    requires WindowsAccepted(db) && cutoff <= req.now - DAY
    ensures EvalRows(Pruned(db, cutoff), req, rows)
         == (Pruned(EvalRows(db, req, rows).0, cutoff), EvalRows(db, req, rows).1)
    ensures WindowsAccepted(EvalRows(db, req, rows).0)
  {
    if rows != [] {
      PruneInvisibleToEvaluation(db, req, rows[..|rows| - 1], cutoff);
      EvalRowPruned(EvalRows(db, req, rows[..|rows| - 1]).0, req, rows[|rows| - 1], cutoff);
    }
  }

  // ---- Pruning is invisible to whole runs ----

  function WithSamples(db: Db, samples: seq<Sample>): Db { db.(samples := samples) }

  predicate WindowAccepted(a: Action) {
    match a
    case AddTrigger(t) => t.windowSeconds <= MAX_WINDOW_SECONDS
    case EditTrigger(_, update) => update.windowSeconds.Some? ==> update.windowSeconds.value <= MAX_WINDOW_SECONDS
    case _ => true
  }

  /** Every prune is at least a day behind every later evaluation. */
  ghost predicate PrunesLag(actions: seq<Action>) {
    forall i, j :: 0 <= i < j < |actions| && actions[i].Prune? && actions[j].Evaluation? ==>
                     actions[i].cutoff <= actions[j].req.now - DAY
  }

  function WithoutPrunes(actions: seq<Action>): seq<Action> {
    if actions == [] then []
    else if actions[0].Prune? then WithoutPrunes(actions[1..])
    else [actions[0]] + WithoutPrunes(actions[1..])
  }

  /** Two histories look the same to an evaluation at `now`. */
  ghost predicate SameLastDay(a: seq<Sample>, b: seq<Sample>, now: int) {
    Since(a, now - DAY) == Since(b, now - DAY)
  }

  ghost predicate SameToEvaluations(a: seq<Sample>, b: seq<Sample>, actions: seq<Action>) {
    forall i :: 0 <= i < |actions| && actions[i].Evaluation? ==> SameLastDay(a, b, actions[i].req.now)
  }

  lemma SamePruned(a: Db, b: Db, cutoff: int)
    requires Pruned(a, cutoff) == Pruned(b, cutoff)
    ensures b == WithSamples(a, b.samples)
  {
    assert a == Pruned(a, cutoff).(samples := a.samples) && b == Pruned(b, cutoff).(samples := b.samples);
  }

  lemma EvaluationUnpruned(db: Db, kept: seq<Sample>, req: Request, rows: seq<Id>)
    requires WellKeyed(db) && WindowsAccepted(db) && SameLastDay(db.samples, kept, req.now)
    ensures var (after, fired) := EvalRows(db, req, rows);
            && after.samples == db.samples && WindowsAccepted(after)
            && EvalRows(WithSamples(db, kept), req, rows) == (WithSamples(after, kept), fired)
  {
    var cutoff := req.now - DAY;
    var other := WithSamples(db, kept);
    assert Pruned(other, cutoff) == Pruned(db, cutoff);
    PruneInvisibleToEvaluation(db, req, rows, cutoff);
    PruneInvisibleToEvaluation(other, req, rows, cutoff);
    EvalRowsKeys(db, req, rows);
    EvalRowsKeys(other, req, rows);
    SamePruned(EvalRows(db, req, rows).0, EvalRows(other, req, rows).0, cutoff);
  }

  lemma {:induction false} TickUnpruned(db: Db, kept: seq<Sample>, now: int, rows: seq<Id>)
    ensures TickRows(WithSamples(db, kept), now, rows)
         == (WithSamples(TickRows(db, now, rows).0, kept), TickRows(db, now, rows).1)
  {
    if rows != [] { TickUnpruned(db, kept, now, rows[..|rows| - 1]); }
  }

  /** The samples after a step. */
  function SamplesAfter(samples: seq<Sample>, a: Action): seq<Sample> {
    match a
    case Record(s) => samples + [s]
    case Prune(cutoff) => Since(samples, cutoff)
    case _ => samples
  }

  lemma AllowedUnpruned(db: Db, kept: seq<Sample>, a: Action)
    ensures Allowed(WithSamples(db, kept), a) <==> Allowed(db, a)
  {
    if a.Evaluation? {
      assert Selected(WithSamples(db, kept), a.req.Target()) == Selected(db, a.req.Target());
    } else if a.Tick? {
      assert Escalating(WithSamples(db, kept)) == Escalating(db);
    }
  }

  lemma EditUnpruned(db: Db, kept: seq<Sample>, a: Action)
    requires !a.Evaluation? && !a.Tick? && !a.Prune?
    ensures Next(WithSamples(db, kept), a) == WithSamples(Next(db, a), SamplesAfter(kept, a))
    ensures Next(db, a).samples == SamplesAfter(db.samples, a)
  {
    if a.DropTrigger? {
      assert DropTriggerRow(WithSamples(db, kept), a.dropped).triggers == DropTriggerRow(db, a.dropped).triggers;
      assert DropTriggerRow(WithSamples(db, kept), a.dropped).events == DropTriggerRow(db, a.dropped).events;
    }
  }

  /** A step other than a prune does the same to both databases, up to the samples. */
  lemma StepUnpruned(db: Db, kept: seq<Sample>, a: Action, id: Id)
    requires WellKeyed(db) && WindowsAccepted(db) && !a.Prune?
    requires a.Evaluation? ==> SameLastDay(db.samples, kept, a.req.now)
    ensures var other := WithSamples(db, kept);
            && Next(other, a) == WithSamples(Next(db, a), SamplesAfter(kept, a))
            && Next(db, a).samples == SamplesAfter(db.samples, a)
            && SentBy(other, a) == SentBy(db, a) && FiredFor(other, a, id) == FiredFor(db, a, id)
  {
    match a
    case Evaluation(req, rows) => EvaluationUnpruned(db, kept, req, rows);
    case Tick(now, problems) =>
      TickUnpruned(db, kept, now, problems);
      TickRowsKeys(db, now, problems);
    case _ => EditUnpruned(db, kept, a);
  }

  lemma WindowsStayAccepted(db: Db, a: Action)
    requires WindowsAccepted(db) && WindowAccepted(a)
    ensures WindowsAccepted(Next(db, a))
  {
    match a
    case Evaluation(req, rows) => PruneInvisibleToEvaluation(db, req, rows, req.now - DAY);
    case Tick(now, problems) => TickRowsKeys(db, now, problems);
    case _ =>
  }

  lemma StaysSameAt(a: seq<Sample>, b: seq<Sample>, next: Action, now: int)
    requires SameLastDay(a, b, now) && (next.Prune? ==> next.cutoff <= now - DAY)
    ensures SameLastDay(SamplesAfter(a, next), if next.Prune? then b else SamplesAfter(b, next), now)
  {
    if next.Prune? {
      SinceSince(a, next.cutoff, now - DAY);
    } else if next.Record? {
      SinceAppend(a, next.sample, now - DAY);
      SinceAppend(b, next.sample, now - DAY);
    }
  }

  /** A prune on one side, or the same step on both, keeps the histories alike for what follows. */
  lemma StaysSame(a: seq<Sample>, b: seq<Sample>, actions: seq<Action>)
    requires actions != [] && SameToEvaluations(a, b, actions) && PrunesLag(actions)
    ensures var next := actions[0];
            SameToEvaluations(SamplesAfter(a, next), if next.Prune? then b else SamplesAfter(b, next), actions[1..])
  {
    var next, rest := actions[0], actions[1..];
    forall i | 0 <= i < |rest| && rest[i].Evaluation?
      ensures SameLastDay(SamplesAfter(a, next), if next.Prune? then b else SamplesAfter(b, next), rest[i].req.now)
    {
      var now := actions[i + 1].req.now;
      assert rest[i] == actions[i + 1] && SameLastDay(a, b, now);
      StaysSameAt(a, b, next, now);
    }
  }

  lemma RestLags(actions: seq<Action>)
    requires actions != [] && PrunesLag(actions)
    ensures PrunesLag(actions[1..])
  {
    forall i, j | 0 <= i < j < |actions| - 1 && actions[1..][i].Prune? && actions[1..][j].Evaluation?
      ensures actions[1..][i].cutoff <= actions[1..][j].req.now - DAY
    {
      assert actions[1..][i] == actions[i + 1] && actions[1..][j] == actions[j + 1];
    }
  }

  /** What a run leaves and reports, up to the samples. */
  ghost predicate SameOutcome(db: Db, actions: seq<Action>, other: Db, fewer: seq<Action>, id: Id) {
    && Run(db, actions) == WithSamples(Run(other, fewer), Run(db, actions).samples)
    && Sent(db, actions) == Sent(other, fewer)
    && Fires(db, actions, id) == Fires(other, fewer, id)
  }

  lemma PruneStep(db: Db, kept: seq<Sample>, actions: seq<Action>, id: Id)
    requires actions != [] && actions[0].Prune?
    requires SameOutcome(Next(db, actions[0]), actions[1..], WithSamples(db, kept), WithoutPrunes(actions[1..]), id)
    ensures SameOutcome(db, actions, WithSamples(db, kept), WithoutPrunes(actions), id)
  {
    assert SentBy(db, actions[0]) == [] && FiredFor(db, actions[0], id) == [];
    assert Sent(db, actions) == Sent(Next(db, actions[0]), actions[1..]);
    assert Fires(db, actions, id) == Fires(Next(db, actions[0]), actions[1..], id);
  }

  lemma SameStep(db: Db, kept: seq<Sample>, actions: seq<Action>, id: Id)
    requires actions != [] && !actions[0].Prune?
    requires var a, other := actions[0], WithSamples(db, kept);
             && SentBy(other, a) == SentBy(db, a) && FiredFor(other, a, id) == FiredFor(db, a, id)
             && SameOutcome(Next(db, a), actions[1..], Next(other, a), WithoutPrunes(actions[1..]), id)
    ensures SameOutcome(db, actions, WithSamples(db, kept), WithoutPrunes(actions), id)
  {
    assert WithoutPrunes(actions)[1..] == WithoutPrunes(actions[1..]);
  }

  lemma {:induction false} UnprunedRun(db: Db, kept: seq<Sample>, actions: seq<Action>, id: Id)
    requires Consistent(db) && IsRun(db, actions) && WindowsAccepted(db) && PrunesLag(actions)
    requires forall i :: 0 <= i < |actions| ==> WindowAccepted(actions[i])
    requires SameToEvaluations(db.samples, kept, actions)
    ensures IsRun(WithSamples(db, kept), WithoutPrunes(actions))
    ensures SameOutcome(db, actions, WithSamples(db, kept), WithoutPrunes(actions), id)
    decreases actions
  {
    if actions != [] {
      var a, rest, other := actions[0], actions[1..], WithSamples(db, kept);
      StepKeepsConsistent(db, a);
      WindowsStayAccepted(db, a);
      StaysSame(db.samples, kept, actions);
      RestLags(actions);
      if a.Prune? {
        UnprunedRun(Next(db, a), kept, rest, id);
        PruneStep(db, kept, actions, id);
      } else {
        StepUnpruned(db, kept, a, id);
        AllowedUnpruned(db, kept, a);
        UnprunedRun(Next(db, a), SamplesAfter(kept, a), rest, id);
        SameStep(db, kept, actions, id);
      }
    }
  }

  /** Leaving all prunes out of a run changes no alert, no delivery and no table but the samples,
      as long as each prune is at least a day behind every later evaluation. */
  lemma {:induction false} PrunesInvisible(db: Db, actions: seq<Action>, id: Id)
    requires Consistent(db) && IsRun(db, actions) && PrunesLag(actions)
    requires forall t :: t in db.triggers ==> db.triggers[t].windowSeconds <= 86400
    requires forall i :: 0 <= i < |actions| ==> WindowAccepted(actions[i])
    ensures IsRun(db, WithoutPrunes(actions))
    ensures SameOutcome(db, actions, db, WithoutPrunes(actions), id)
  {
    assert WithSamples(db, db.samples) == db;
    UnprunedRun(db, db.samples, actions, id);
  }

  // ---- Aggregations compared ----

  /** With one threshold, a breach of a MIN trigger under GT or GE implies a breach of the AVG
      trigger, and that one of the MAX trigger; under LT or LE the other way round. */
  lemma BreachOrder(values: seq<real>, operator: Operator, threshold: real)
    requires values != []
    ensures var min, avg, max := ConditionMet(operator, Aggregate(Min, values).value, threshold),
                                 ConditionMet(operator, Aggregate(Avg, values).value, threshold),
                                 ConditionMet(operator, Aggregate(Max, values).value, threshold);
            if operator.Gt? || operator.Ge? then (min ==> avg) && (avg ==> max) else (max ==> avg) && (avg ==> min)
  {
    AggregationOrder(values);
  }
}
