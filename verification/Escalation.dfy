/** The escalation ladder: which steps a problem passes at a tick, and what a tick delivers. */
module Escalation {
  import opened Common
  import opened AlertModel

  /** The context sent along with an escalation step. */
  datatype EscalationAlert = EscalationAlert(problem: Id, subject: string, triggerName: string, severity: Severity,
                                             stepOrder: int, value: real, startedAt: int, timestamp: int,
                                             action: Option<string>)

  datatype Delivery = Delivery(alert: EscalationAlert, channel: Id)

  // ---- The ladder of a policy ----

  function Insert(s: Step, ladder: seq<Step>): seq<Step> {
    if ladder == [] || s.order <= ladder[0].order then [s] + ladder else [ladder[0]] + Insert(s, ladder[1..])
  }

  /** The steps of a policy as they are loaded: ORDER BY step_order. */
  function Ladder(steps: seq<Step>): seq<Step> {
    if steps == [] then [] else Insert(steps[0], Ladder(steps[1..]))
  }

  predicate UniqueOrders(steps: seq<Step>) {
    forall i, j :: 0 <= i < j < |steps| ==> steps[i].order != steps[j].order
  }

  predicate Ascending(ladder: seq<Step>) {
    forall i, j :: 0 <= i < j < |ladder| ==> ladder[i].order < ladder[j].order
  }

  /** The newest enabled policy of an owner. */
  function EnabledPolicy(policies: seq<Policy>, owner: Id): (policy: Option<Policy>) {
    if policies == [] then None
    else
      var best := EnabledPolicy(policies[..|policies| - 1], owner);
      var p := policies[|policies| - 1];
      if p.owner != owner || !p.enabled then best
      else if best.None? || best.value.createdAt < p.createdAt then Some(p) else best
  }

  // ---- Progress along a ladder ----

  function Delay(s: Step): int { s.delayMinutes * MINUTE }

  /** The steps a problem passes, in loop order: done steps are skipped, the first one not yet
      due ends the scan. */
  function Passed(ladder: seq<Step>, cursor: int, elapsed: int): seq<Step> {
    if ladder == [] then []
    else
      var s := ladder[0];
      if s.order <= cursor then Passed(ladder[1..], cursor, elapsed)
      else if elapsed < Delay(s) then []
      else [s] + Passed(ladder[1..], s.order, elapsed)
  }

  function CursorAfter(cursor: int, passed: seq<Step>): int {
    if passed == [] then cursor else passed[|passed| - 1].order
  }

  /** A foreign or disabled channel receives nothing; a remediation only goes to a webhook. */
  predicate Deliverable(channels: map<Id, Channel>, owner: Id, s: Step) {
    && s.channel in channels
    && channels[s.channel].owner == owner
    && channels[s.channel].enabled
    && (s.action.Some? ==> channels[s.channel].kind == Webhook)
  }

  function DeliveryFor(problem: Id, e: ProblemEvent, s: Step, now: int): Delivery {
    Delivery(EscalationAlert(problem, e.subject, e.triggerName, e.severity, s.order, e.value, e.startedAt, now, s.action),
             s.channel)
  }

  function Deliveries(channels: map<Id, Channel>, problem: Id, e: ProblemEvent, passed: seq<Step>,
                      now: int): seq<Delivery> {
    if passed == [] then []
    else
      var s := passed[|passed| - 1];
      Deliveries(channels, problem, e, passed[..|passed| - 1], now)
      + if Deliverable(channels, e.owner, s) then [DeliveryFor(problem, e, s, now)] else []
  }

  // ---- A tick over the event table ----

  /** Open, unacknowledged events. */
  function Escalating(db: Db): set<Id> {
    set e | e in db.events && db.events[e].Escalates()
  }

  function PassedBy(db: Db, e: ProblemEvent, now: int): seq<Step> {
    var policy := EnabledPolicy(db.policies, e.owner);
    if policy.None? then [] else Passed(Ladder(policy.value.steps), e.escalatedStep, now - e.startedAt)
  }

  function Escalated(db: Db, e: ProblemEvent, now: int): ProblemEvent {
    e.(escalatedStep := CursorAfter(e.escalatedStep, PassedBy(db, e, now)))
  }

  function Owed(db: Db, problem: Id, now: int): seq<Delivery>
    requires problem in db.events
  {
    var e := db.events[problem];
    Deliveries(db.channels, problem, e, PassedBy(db, e, now), now)
  }

  function TickRows(db: Db, now: int, rows: seq<Id>): (Db, seq<Delivery>) {
    if rows == [] then (db, [])
    else
      var (mid, sent) := TickRows(db, now, rows[..|rows| - 1]);
      var id := rows[|rows| - 1];
      if id !in mid.events then (mid, sent)
      else (mid.(events := mid.events[id := Escalated(mid, mid.events[id], now)]), sent + Owed(mid, id, now))
  }

  /** The deliveries of one problem, in order. */
  function For(sent: seq<Delivery>, problem: Id): seq<Delivery> {
    if sent == [] then []
    else
      var d := sent[|sent| - 1];
      For(sent[..|sent| - 1], problem) + if d.alert.problem == problem then [d] else []
  }

  // ---- The ladder is the steps, sorted ----

  lemma {:induction false} InsertPermutes(s: Step, ladder: seq<Step>)
    ensures multiset(Insert(s, ladder)) == multiset(ladder) + multiset{s}
  {
    if ladder != [] && s.order > ladder[0].order {
      InsertPermutes(s, ladder[1..]);
      assert ladder == [ladder[0]] + ladder[1..];
      assert Insert(s, ladder) == [ladder[0]] + Insert(s, ladder[1..]);
    }
  }

  lemma {:induction false} InsertAscends(s: Step, ladder: seq<Step>)
    requires Ascending(ladder) && forall i :: 0 <= i < |ladder| ==> ladder[i].order != s.order
    ensures Ascending(Insert(s, ladder)) && Insert(s, ladder) != []
    ensures Insert(s, ladder)[0] == s || (ladder != [] && Insert(s, ladder)[0] == ladder[0])
  {
    if ladder != [] && s.order > ladder[0].order {
      var rest := Insert(s, ladder[1..]);
      InsertAscends(s, ladder[1..]);
      assert Insert(s, ladder) == [ladder[0]] + rest;
      assert forall j :: 0 <= j < |rest| ==> rest[0].order <= rest[j].order;
    }
  }

  lemma {:induction false} LadderPermutes(steps: seq<Step>)
    ensures multiset(Ladder(steps)) == multiset(steps)
  {
    if steps != [] {
      LadderPermutes(steps[1..]);
      assert steps == [steps[0]] + steps[1..];
      InsertPermutes(steps[0], Ladder(steps[1..]));
    }
  }

  lemma {:induction false} LadderSorts(steps: seq<Step>)
    requires UniqueOrders(steps)
    ensures Ascending(Ladder(steps)) && multiset(Ladder(steps)) == multiset(steps)
  {
    LadderPermutes(steps);
    if steps != [] {
      var rest := Ladder(steps[1..]);
      LadderSorts(steps[1..]);
      forall i | 0 <= i < |rest| ensures rest[i].order != steps[0].order {
        assert rest[i] in multiset(steps[1..]);
      }
      InsertAscends(steps[0], rest);
    }
  }

  /** The chosen policy is an enabled one of the owner and none is newer; there is no choice
      exactly when the owner has no enabled policy. */
  lemma {:induction false} EnabledPolicyIsNewest(policies: seq<Policy>, owner: Id)
    ensures var chosen := EnabledPolicy(policies, owner);
            && (chosen.None? <==> forall p :: p in policies && p.owner == owner ==> !p.enabled)
            && (chosen.Some? ==> chosen.value in policies && chosen.value.owner == owner && chosen.value.enabled
                                 && forall p :: p in policies && p.owner == owner && p.enabled
                                                ==> p.createdAt <= chosen.value.createdAt)
  {
    if policies != [] {
      var init, last := policies[..|policies| - 1], policies[|policies| - 1];
      EnabledPolicyIsNewest(init, owner);
      assert forall p :: p in policies <==> p in init || p == last;
    }
  }

  // ---- Progress ----

  lemma {:induction false} PassedIncreases(ladder: seq<Step>, cursor: int, elapsed: int)
    ensures var passed := Passed(ladder, cursor, elapsed);
            && (forall i :: 0 <= i < |passed| ==> cursor < passed[i].order <= CursorAfter(cursor, passed))
            && Ascending(passed) && CursorAfter(cursor, passed) >= cursor
  {
    if ladder != [] {
      var s := ladder[0];
      if s.order <= cursor {
        PassedIncreases(ladder[1..], cursor, elapsed);
      } else if elapsed >= Delay(s) {
        PassedIncreases(ladder[1..], s.order, elapsed);
      }
    }
  }

  lemma {:induction false} CursorNeverDrops(ladder: seq<Step>, cursor: int, elapsed: int)
    ensures CursorAfter(cursor, Passed(ladder, cursor, elapsed)) >= cursor
  {
    PassedIncreases(ladder, cursor, elapsed);
  }

  lemma CursorAfterFirst(cursor: int, s: Step, rest: seq<Step>)
    ensures CursorAfter(cursor, [s] + rest) == CursorAfter(s.order, rest)
  {
  }

  /** A tick followed by a later one passes what the later one alone would have passed. This
      needs nothing of the ladder: neither sorted orders nor increasing delays. */
  lemma {:induction false} PassedComposes(ladder: seq<Step>, cursor: int, earlier: int, later: int)
    requires earlier <= later
    ensures Passed(ladder, cursor, later) == Passed(ladder, cursor, earlier)
              + Passed(ladder, CursorAfter(cursor, Passed(ladder, cursor, earlier)), later)
  {
    if ladder != [] {
      var s, tail := ladder[0], ladder[1..];
      if s.order <= cursor {
        PassedComposes(tail, cursor, earlier, later);
        CursorNeverDrops(tail, cursor, earlier);
      } else if earlier >= Delay(s) {
        var rest := Passed(tail, s.order, earlier);
        var resumed := Passed(tail, CursorAfter(s.order, rest), later);
        PassedComposes(tail, s.order, earlier, later);
        CursorNeverDrops(tail, s.order, earlier);
        CursorAfterFirst(cursor, s, rest);
        assert [s] + (rest + resumed) == ([s] + rest) + resumed;
      }
    }
  }

  /** The exact firing rule of a sorted ladder: a step is passed once the elapsed time reaches
      the delay of every step between the cursor and itself, its own included. */
  lemma {:induction false} FiringRule(ladder: seq<Step>, cursor: int, elapsed: int, s: Step)
    requires Ascending(ladder)
    ensures s in Passed(ladder, cursor, elapsed) <==>
            && s in ladder && cursor < s.order
            && forall t :: t in ladder && cursor < t.order <= s.order ==> Delay(t) <= elapsed
  {
    if ladder != [] {
      var h, rest := ladder[0], ladder[1..];
      assert forall t :: t in ladder <==> t == h || t in rest;
      assert forall t :: t in rest ==> h.order < t.order;
      if h.order <= cursor {
        FiringRule(rest, cursor, elapsed, s);
      } else if elapsed >= Delay(h) {
        FiringRule(rest, h.order, elapsed, s);
      }
    }
  }

  /** Delays of the steps still ahead never decrease with the step order. */
  ghost predicate DelaysAscend(ladder: seq<Step>, cursor: int) {
    forall s, t :: s in ladder && t in ladder && cursor < s.order < t.order ==> s.delayMinutes <= t.delayMinutes
  }

  /** Exactly the steps whose own delay has elapsed are passed, at every elapsed time. */
  ghost predicate PassesWhatIsDue(ladder: seq<Step>, cursor: int) {
    forall elapsed, s :: s in Passed(ladder, cursor, elapsed) <==>
                         s in ladder && cursor < s.order && Delay(s) <= elapsed
  }

  lemma NoLaterDelayBefore(ladder: seq<Step>, cursor: int, s: Step)
    requires Ascending(ladder) && DelaysAscend(ladder, cursor) && s in ladder && cursor < s.order
    ensures forall t :: t in ladder && cursor < t.order <= s.order ==> Delay(t) <= Delay(s)
  {
    var i :| 0 <= i < |ladder| && ladder[i] == s;
    forall t | t in ladder && cursor < t.order <= s.order ensures Delay(t) <= Delay(s) {
      var j :| 0 <= j < |ladder| && ladder[j] == t;
      if t.order == s.order { assert i == j; }
    }
  }

  lemma PassedIfDue(ladder: seq<Step>, cursor: int, elapsed: int, s: Step)
    requires Ascending(ladder) && DelaysAscend(ladder, cursor)
    ensures s in Passed(ladder, cursor, elapsed) <==> s in ladder && cursor < s.order && Delay(s) <= elapsed
  {
    FiringRule(ladder, cursor, elapsed, s);
    if s in ladder && cursor < s.order { NoLaterDelayBefore(ladder, cursor, s); }
  }

  lemma HeldBack(ladder: seq<Step>, cursor: int, s: Step, t: Step)
    requires Ascending(ladder) && s in ladder && cursor < s.order < t.order && s.delayMinutes > t.delayMinutes
    ensures t !in Passed(ladder, cursor, Delay(t))
  {
    FiringRule(ladder, cursor, Delay(t), t);
    assert Delay(s) > Delay(t);
  }

  /** The loop's early exit assumes that later steps have larger delays, which no schema enforces.
      A ladder passes exactly what is due if and only if the assumption holds of it. */
  lemma PassesWhatIsDueIff(ladder: seq<Step>, cursor: int)
    requires Ascending(ladder)
    ensures PassesWhatIsDue(ladder, cursor) <==> DelaysAscend(ladder, cursor)
  {
    if DelaysAscend(ladder, cursor) {
      forall elapsed, s
        ensures s in Passed(ladder, cursor, elapsed) <==> s in ladder && cursor < s.order && Delay(s) <= elapsed
      {
        PassedIfDue(ladder, cursor, elapsed, s);
      }
    } else {
      var s, t :| s in ladder && t in ladder && cursor < s.order < t.order && s.delayMinutes > t.delayMinutes;
      HeldBack(ladder, cursor, s, t);
    }
  }

  /** A ladder the schema accepts whose second step is due long before it is passed. */
  lemma UnorderedDelaysHoldBackAStep()
    ensures var slow, fast := Step(1, 30, 0, None), Step(2, 5, 0, None);
            && UniqueOrders([fast, slow]) && Passed(Ladder([fast, slow]), 0, 10 * MINUTE) == []
            && Passed(Ladder([fast, slow]), 0, 30 * MINUTE) == [slow, fast]
  {
    var slow, fast := Step(1, 30, 0, None), Step(2, 5, 0, None);
    assert [fast, slow][1..] == [slow] && [slow][1..] == [];
    assert Ladder([slow]) == [slow];
    assert Ladder([fast, slow]) == Insert([fast, slow][0], Ladder([fast, slow][1..]));
    assert Insert(fast, []) == [fast];
    assert Ladder([fast, slow]) == [slow, fast];
    assert [slow, fast][1..] == [fast] && [fast][1..] == [];
    assert Passed([fast], 1, 30 * MINUTE) == [fast];
  }

  // ---- Deliveries ----

  lemma {:induction false} ForAppend(a: seq<Delivery>, b: seq<Delivery>, problem: Id)
    ensures For(a + b, problem) == For(a, problem) + For(b, problem)
  {
    if b == [] {
      assert a + b == a;
    } else {
      assert (a + b)[..|a + b| - 1] == a + b[..|b| - 1];
      ForAppend(a, b[..|b| - 1], problem);
    }
  }

  lemma {:induction false} DeliveriesAppend(channels: map<Id, Channel>, problem: Id, e: ProblemEvent,
                                            a: seq<Step>, b: seq<Step>, now: int)
    ensures Deliveries(channels, problem, e, a + b, now)
         == Deliveries(channels, problem, e, a, now) + Deliveries(channels, problem, e, b, now)
  {
    if b == [] {
      assert a + b == a;
    } else {
      assert (a + b)[..|a + b| - 1] == a + b[..|b| - 1];
      DeliveriesAppend(channels, problem, e, a, b[..|b| - 1], now);
    }
  }

  /** All deliveries of a problem's steps are its own. */
  lemma {:induction false} DeliveriesOwn(channels: map<Id, Channel>, problem: Id, e: ProblemEvent,
                                         passed: seq<Step>, now: int, other: Id)
    ensures var sent := Deliveries(channels, problem, e, passed, now);
            For(sent, other) == if other == problem then sent else []
  {
    if passed != [] {
      var init, s := passed[..|passed| - 1], passed[|passed| - 1];
      DeliveriesOwn(channels, problem, e, init, now, other);
      var last := if Deliverable(channels, e.owner, s) then [DeliveryFor(problem, e, s, now)] else [];
      ForAppend(Deliveries(channels, problem, e, init, now), last, other);
      assert last != [] ==> last[..0] == [];
    }
  }

  /** A delivery goes to a deliverable channel of a passed step, and every passed step with a
      deliverable channel is delivered. */
  lemma {:induction false} DeliveredIff(channels: map<Id, Channel>, problem: Id, e: ProblemEvent,
                                        passed: seq<Step>, now: int, d: Delivery)
    ensures d in Deliveries(channels, problem, e, passed, now) <==>
            exists i :: 0 <= i < |passed| && Deliverable(channels, e.owner, passed[i]) 
                      && d == DeliveryFor(problem, e, passed[i], now)
  {
    if passed != [] {
      var init := passed[..|passed| - 1];
      DeliveredIff(channels, problem, e, init, now, d);
      if d in Deliveries(channels, problem, e, init, now) {
        var i :| 0 <= i < |init| && Deliverable(channels, e.owner, init[i]) && d == DeliveryFor(problem, e, init[i], now);
        assert passed[i] == init[i];
      }
      forall i | 0 <= i < |passed| && Deliverable(channels, e.owner, passed[i]) && d == DeliveryFor(problem, e, passed[i], now)
        ensures d in Deliveries(channels, problem, e, passed, now)
      {
        if i < |init| { assert init[i] == passed[i]; }
      }
    }
  }

  // ---- A tick, seen from one problem ----

  ghost predicate SameButEvents(db: Db, after: Db) {
    after == db.(events := after.events) && after.events.Keys == db.events.Keys
  }

  lemma {:induction false} TickRowsKeys(db: Db, now: int, rows: seq<Id>)
    ensures SameButEvents(db, TickRows(db, now, rows).0)
  {
    if rows != [] {
      TickRowsKeys(db, now, rows[..|rows| - 1]);
    }
  }

  /** Each scanned problem advances by its own ladder and is sent what it is owed, in whatever
      order the rows come; every other problem is left alone. */
  lemma {:induction false} TickRowsAt(db: Db, now: int, rows: seq<Id>, id: Id)
    requires NoDuplicates(rows) && id in db.events
    ensures var (after, sent) := TickRows(db, now, rows);
            && id in after.events
            && after.events[id] == (if id in rows then Escalated(db, db.events[id], now) else db.events[id])
            && For(sent, id) == (if id in rows then Owed(db, id, now) else [])
  {
    if rows != [] {
      var init, last := rows[..|rows| - 1], rows[|rows| - 1];
      var (mid, sent) := TickRows(db, now, init);
      TickRowsKeys(db, now, init);
      TickRowsAt(db, now, init, id);
      assert id in rows <==> id in init || id == last;
      if last in mid.events {
        var e := mid.events[last];
        ForAppend(sent, Owed(mid, last, now), id);
        DeliveriesOwn(mid.channels, last, e, PassedBy(mid, e, now), now, id);
      }
    }
  }

  lemma {:induction false} TickRowsForeign(db: Db, now: int, rows: seq<Id>, id: Id)
    requires id !in db.events
    ensures For(TickRows(db, now, rows).1, id) == []
  {
    if rows != [] {
      var init, last := rows[..|rows| - 1], rows[|rows| - 1];
      var (mid, sent) := TickRows(db, now, init);
      TickRowsKeys(db, now, init);
      TickRowsForeign(db, now, init, id);
      if last in mid.events {
        ForAppend(sent, Owed(mid, last, now), id);
        DeliveriesOwn(mid.channels, last, mid.events[last], PassedBy(mid, mid.events[last], now), now, id);
      }
    }
  }
}
