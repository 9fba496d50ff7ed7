/** The alert pipeline as it runs: service methods that update the tables in place. */
module AlertStore {
  import opened Common
  import opened History
  import opened AlertModel
  import opened Escalation

  /** The committed tables. `rows` parameters are query results: the rows a SELECT without
      ORDER BY matched, in the order the database happened to return them. */
  class Store {
    var triggers: map<Id, Trigger>
    var nextTrigger: Id
    var events: map<Id, ProblemEvent>
    var nextEvent: Id
    var policies: seq<Policy>
    var channels: map<Id, Channel>
    var items: map<Id, Item>
    var monitorHosts: map<Id, Id>
    var samples: seq<Sample>

    function Snapshot(): Db
      reads this
    {
      Db(triggers, nextTrigger, events, nextEvent, policies, channels, items, monitorHosts, samples)
    }

    constructor ()
      ensures Consistent(Snapshot())
    {
      triggers, nextTrigger, events, nextEvent := map[], 0, map[], 0;
      policies, channels, items, monitorHosts, samples := [], map[], map[], map[], [];
    }

    // ---- Problem events ----

    method Open(trigger: Id, owner: Id, subject: string, value: real, now: int)
      requires trigger in triggers
      modifies this
      ensures Snapshot() == OpenEvent(old(Snapshot()), trigger, owner, subject, value, now)
    {
      var t := triggers[trigger];
      var e := ProblemEvent(trigger, owner, subject, t.name, t.severity, value, now, None, None, None, 0);
      events := events[nextEvent := e];
      nextEvent := nextEvent + 1;
    }

    method Close(trigger: Id, now: int)
      modifies this
      ensures Snapshot() == CloseEvents(old(Snapshot()), trigger, now)
    {
      events := map e | e in events ::
        if events[e].trigger == trigger && events[e].IsOpen() then events[e].(resolvedAt := Some(now)) else events[e];
    }

    method Acknowledge(event: Id, owner: Id, user: Id, now: int) returns (found: Option<ProblemEvent>)
      modifies this
      ensures Snapshot() == AcknowledgeEvent(old(Snapshot()), event, owner, user, now)
      ensures found.Some? <==> event in old(events) && old(events)[event].owner == owner
      ensures found.Some? ==> found.value == events[event]
      ensures found.Some? ==>
                var before := old(events)[event];
                events[event] == if before.acknowledgedAt.Some? then before
                                 else before.(acknowledgedAt := Some(now), acknowledgedBy := Some(user))
      ensures forall e :: e in old(events) && (e != event || found.None?) ==> e in events && events[e] == old(events)[e]
    {
      if event !in events || events[event].owner != owner {
        return None;
      }
      if events[event].acknowledgedAt.None? {
        events := events[event := events[event].(acknowledgedAt := Some(now), acknowledgedBy := Some(user))];
      }
      return Some(events[event]);
    }

    // ---- Trigger evaluation ----

    method RecordProblem(trigger: Id, newState: TriggerState, entry: (Id, string), value: real, now: int)
      requires trigger in triggers
      modifies this
      ensures Snapshot() == if newState.PROBLEM? then OpenEvent(old(Snapshot()), trigger, entry.0, entry.1, value, now)
                            else CloseEvents(old(Snapshot()), trigger, now)
    {
      if newState.PROBLEM? {
        Open(trigger, entry.0, entry.1, value, now);
      } else {
        Close(trigger, now);
      }
    }

    method Evaluate(req: Request, rows: seq<Id>) returns (fired: seq<Fired>)
      requires IsScan(rows, Selected(Snapshot(), req.Target()))
      modifies this
      ensures (Snapshot(), fired) == EvalRows(old(Snapshot()), req, rows)
    {
      fired := [];
      assert forall r | r in rows :: r in Selected(Snapshot(), req.Target());
      for i := 0 to |rows|
        invariant (Snapshot(), fired) == EvalRows(old(Snapshot()), req, rows[..i])
        invariant triggers.Keys == old(triggers.Keys)
      {
        assert rows[..i + 1][..i] == rows[..i] && rows[i] in Selected(old(Snapshot()), req.Target());
        assert fired + [] == fired;
        var id, t := rows[i], triggers[rows[i]];
        var value := Observe(Snapshot(), req, t);
        if value.None? {
          continue;
        }
        var newState := if ConditionMet(t.operator, value.value, t.threshold) then PROBLEM else OK;
        if newState == t.state {
          continue;
        }
        triggers := triggers[id := t.(state := newState, stateChangedAt := Some(req.now))];
        if req.Recorded() {
          RecordProblem(id, newState, req.Entry().value, value.value, req.now);
        }
        fired := fired + [Fired(id, t.name, t.severity, t.metric, t.operator, t.threshold, value.value, newState)];
      }
      assert rows[..|rows|] == rows;
    }

    /** The new trigger has the submitted rule, a fresh id, no events, and starts in OK. */
    method CreateTrigger(t: Trigger) returns (id: Id)
      requires Consistent(Snapshot())
      modifies this
      ensures id !in old(triggers) && triggers.Keys == old(triggers.Keys) + {id}
      ensures triggers[id].state == OK && triggers[id].stateChangedAt == None && SameRule(triggers[id], t)
      ensures EventsOf(Snapshot(), id) == {} && forall other :: SameTrigger(old(Snapshot()), Snapshot(), other)
      ensures Consistent(Snapshot()) && Snapshot() == AddTriggerRow(old(Snapshot()), t)
    {
      AddKeepsConsistent(Snapshot(), t);
      id := nextTrigger;
      triggers := triggers[id := t.(state := OK, stateChangedAt := None)];
      nextTrigger := nextTrigger + 1;
    }

    /** A column that was submitted is set, any other stays. */
    method SetColumns(t: Trigger, u: TriggerUpdate) returns (edited: Trigger)
      ensures edited == Edited(t, u) && Submitted(u, t, edited)
    {
      var name, metric, operator, threshold := t.name, t.metric, t.operator, t.threshold;
      var severity, aggregation, windowSeconds, enabled := t.severity, t.aggregation, t.windowSeconds, t.enabled;
      if u.name.Some? { name := u.name.value; }
      if u.metric.Some? { metric := u.metric.value; }
      if u.operator.Some? { operator := u.operator.value; }
      if u.threshold.Some? { threshold := u.threshold.value; }
      if u.severity.Some? { severity := u.severity.value; }
      if u.aggregation.Some? { aggregation := u.aggregation.value; }
      if u.windowSeconds.Some? { windowSeconds := u.windowSeconds.value; }
      if u.enabled.Some? { enabled := u.enabled.value; }
      edited := Trigger(name, t.target, metric, operator, threshold, severity, aggregation, windowSeconds, enabled,
                        t.state, t.stateChangedAt);
    }

    /** Exactly the submitted columns of one trigger change: an edit neither flips its state nor
        moves it to another subject, nor touches an event or another trigger. */
    method UpdateTrigger(id: Id, u: TriggerUpdate)
      requires id in triggers
      modifies this
      ensures triggers.Keys == old(triggers.Keys) && events == old(events)
      ensures Submitted(u, old(triggers)[id], triggers[id])
      ensures triggers[id].state == old(triggers)[id].state
      ensures triggers[id].stateChangedAt == old(triggers)[id].stateChangedAt
      ensures triggers[id].target == old(triggers)[id].target
      ensures forall other :: other in triggers && other != id ==> triggers[other] == old(triggers)[other]
      ensures Snapshot() == EditTriggerRow(old(Snapshot()), id, u)
      ensures old(Consistent(Snapshot())) ==> Consistent(Snapshot())
    {
      if Consistent(Snapshot()) { EditKeepsConsistent(Snapshot(), id, u); }
      var edited := SetColumns(triggers[id], u);
      triggers := triggers[id := edited];
    }

    /** The trigger and, by the foreign key's cascade, all its events go; no other trigger or event
        is touched. */
    method DeleteTrigger(id: Id)
      modifies this
      ensures triggers.Keys == old(triggers.Keys) - {id} && EventsOf(Snapshot(), id) == {}
      ensures forall other :: other != id ==> SameTrigger(old(Snapshot()), Snapshot(), other)
      ensures Snapshot() == DropTriggerRow(old(Snapshot()), id)
      ensures old(Consistent(Snapshot())) ==> Consistent(Snapshot())
    {
      if Consistent(Snapshot()) { DropKeepsConsistent(Snapshot(), id); }
      DropLeavesOthers(Snapshot(), id);
      triggers := triggers - {id};
      events := events - set e | e in events && events[e].trigger == id;
      assert triggers == DropTriggerRow(old(Snapshot()), id).triggers;
      assert events == DropTriggerRow(old(Snapshot()), id).events;
    }

    // ---- Escalation ----

    /** Swap a policy's ladder: clear the steps, then append the new ones. */
    method ReplacePolicy(index: nat, name: string, enabled: bool, steps: seq<Step>)
      requires index < |policies|
      modifies this
      ensures Snapshot() == old(Snapshot()).(policies := old(policies)[index :=
                              old(policies)[index].(name := name, enabled := enabled, steps := steps)])
    {
      var policy := policies[index].(name := name, enabled := enabled, steps := []);
      for i := 0 to |steps|
        invariant policy == old(policies)[index].(name := name, enabled := enabled, steps := steps[..i])
      {
        policy := policy.(steps := policy.steps + [steps[i]]);
      }
      assert steps[..|steps|] == steps;
      policies := policies[index := policy];
    }

    method DeletePolicy(index: nat)
      requires index < |policies|
      modifies this
      ensures Snapshot() == old(Snapshot()).(policies := old(policies)[..index] + old(policies)[index + 1..])
    {
      policies := policies[..index] + policies[index + 1..];
    }

    /** What a passed step sends. The step counts as passed whether or not anything is sent. */
    method Notify(id: Id, problem: ProblemEvent, step: Step, now: int) returns (sent: seq<Delivery>)
      ensures sent == if Deliverable(channels, problem.owner, step) then [DeliveryFor(id, problem, step, now)] else []
    {
      sent := [];
      var channel := if step.channel in channels then Some(channels[step.channel]) else None;
      if channel.Some? && channel.value.owner != problem.owner {
        channel := None;
      }
      if channel.Some? && channel.value.enabled {
        if step.action.Some? && channel.value.kind != Webhook {
          // A remediation never reaches an inbox.
        } else {
          sent := [DeliveryFor(id, problem, step, now)];
        }
      }
    }

    /** The inner loop of a tick: one problem climbs its ladder. */
    method Climb(id: Id, ladder: seq<Step>, now: int) returns (sent: seq<Delivery>)
      requires id in events
      modifies this
      ensures var e := old(events)[id];
              var passed := Passed(ladder, e.escalatedStep, now - e.startedAt);
              && Snapshot() == old(Snapshot()).(events :=
                                 old(events)[id := e.(escalatedStep := CursorAfter(e.escalatedStep, passed))])
              && sent == Deliveries(channels, id, e, passed, now)
    {
      sent := [];
      var problem := events[id];
      var elapsed := now - problem.startedAt;
      var cursor := problem.escalatedStep;
      ghost var passed: seq<Step> := [];
      var k := 0;
      assert ladder[0..] == ladder;
      while k < |ladder|
        invariant Snapshot() == old(Snapshot())
        invariant k <= |ladder| && cursor == CursorAfter(problem.escalatedStep, passed)
        invariant Passed(ladder, problem.escalatedStep, elapsed) == passed + Passed(ladder[k..], cursor, elapsed)
        invariant sent == Deliveries(channels, id, problem, passed, now)
      {
        var step := ladder[k];
        assert ladder[k..][0] == step && ladder[k..][1..] == ladder[k + 1..];
        if step.order <= cursor {
          k := k + 1;
          continue;
        }
        if elapsed < step.delayMinutes * MINUTE {
          break;
        }
        var delivered := Notify(id, problem, step, now);
        sent := sent + delivered;
        assert (passed + [step])[..|passed|] == passed;
        passed := passed + [step];
        cursor := step.order;
        k := k + 1;
      }
      assert passed + [] == passed;
      events := events[id := problem.(escalatedStep := cursor)];
    }

    method DueEscalations(now: int, rows: seq<Id>) returns (deliveries: seq<Delivery>)
      requires IsScan(rows, Escalating(Snapshot()))
      modifies this
      ensures (Snapshot(), deliveries) == TickRows(old(Snapshot()), now, rows)
    {
      deliveries := [];
      var policyCache: map<Id, Option<Policy>> := map[];
      assert forall r | r in rows :: r in Escalating(Snapshot());
      for i := 0 to |rows|
        invariant (Snapshot(), deliveries) == TickRows(old(Snapshot()), now, rows[..i])
        invariant events.Keys == old(events.Keys)
        invariant forall o :: o in policyCache ==> policyCache[o] == EnabledPolicy(policies, o)
      {
        assert rows[..i + 1][..i] == rows[..i] && rows[i] in Escalating(old(Snapshot()));
        assert deliveries + [] == deliveries;
        var id := rows[i];
        var problem := events[id];
        if problem.owner !in policyCache {
          policyCache := policyCache[problem.owner := EnabledPolicy(policies, problem.owner)];
        }
        var policy := policyCache[problem.owner];
        if policy.None? {
          assert events == events[id := Escalated(Snapshot(), problem, now)];
          continue;
        }
        var sent := Climb(id, Ladder(policy.value.steps), now);
        deliveries := deliveries + sent;
      }
      assert rows[..|rows|] == rows;
    }

    // ---- History ----

    method RecordSample(s: Sample)
      modifies this
      ensures Snapshot() == old(Snapshot()).(samples := old(samples) + [s])
    {
      samples := samples + [s];
    }

    method PruneHistory(cutoff: int)
      modifies this
      ensures Snapshot() == old(Snapshot()).(samples := Since(old(samples), cutoff))
    {
      samples := Since(samples, cutoff);
    }
  }
}
