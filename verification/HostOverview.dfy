/** Per-host health for the overview page: one pass over the problem rows, then a stable sort. */
module HostOverview {
  import opened Common
  import opened AlertModel

  datatype View = View(host: Id, itemCount: nat, problemCount: nat, worst: Option<Severity>)
  {
    function Rank(): nat { if worst.Some? then worst.value.Rank() else 0 }
  }

  /** Hosts with problems first, then by descending worst severity. */
  predicate SortsUpTo(a: View, b: View) {
    if (a.problemCount == 0) != (b.problemCount == 0) then b.problemCount == 0 else a.Rank() >= b.Rank()
  }

  predicate Sorted(views: seq<View>) {
    forall i, j :: 0 <= i < j < |views| ==> SortsUpTo(views[i], views[j])
  }

  /** Into a sorted list, before the first view that does not sort strictly earlier. */
  function Insert(v: View, views: seq<View>): seq<View> {
    if views == [] || SortsUpTo(v, views[0]) then [v] + views else [views[0]] + Insert(v, views[1..])
  }

  /** The stable sort of the list. */
  function SortViews(views: seq<View>): seq<View> {
    if views == [] then [] else Insert(views[0], SortViews(views[1..]))
  }

  /** The enabled item triggers in PROBLEM on any of the hosts. */
  function ProblemTriggers(db: Db, hosts: set<Id>): set<Id> {
    set t | t in db.triggers && db.triggers[t].state == PROBLEM && db.triggers[t].enabled && db.triggers[t].target.OnItem?
            && db.triggers[t].target.item in db.items && db.items[db.triggers[t].target.item].host in hosts
  }

  function HostOf(db: Db, t: Id): Id
    requires t in db.triggers && db.triggers[t].target.OnItem? && db.triggers[t].target.item in db.items
  {
    db.items[db.triggers[t].target.item].host
  }

  function ItemCount(db: Db, host: Id): nat {
    |set i | i in db.items && db.items[i].host == host|
  }

  ghost predicate Rows(db: Db, rows: seq<Id>) {
    forall i :: 0 <= i < |rows| ==>
      rows[i] in db.triggers && db.triggers[rows[i]].target.OnItem? && db.triggers[rows[i]].target.item in db.items
  }

  function CountOn(db: Db, rows: seq<Id>, host: Id): nat
    requires Rows(db, rows)
  {
    if rows == [] then 0
    else CountOn(db, rows[..|rows| - 1], host) + if HostOf(db, rows[|rows| - 1]) == host then 1 else 0
  }

  function WorstOn(db: Db, rows: seq<Id>, host: Id): Option<Severity>
    requires Rows(db, rows)
  {
    if rows == [] then None
    else
      var before, last := WorstOn(db, rows[..|rows| - 1], host), rows[|rows| - 1];
      var severity := db.triggers[last].severity;
      if HostOf(db, last) != host then before
      else if before.None? || severity.Rank() > before.value.Rank() then Some(severity) else before
  }

  function ViewOf(db: Db, rows: seq<Id>, host: Id): View
    requires Rows(db, rows)
  {
    View(host, ItemCount(db, host), CountOn(db, rows, host), WorstOn(db, rows, host))
  }

  function Views(db: Db, rows: seq<Id>, hosts: seq<Id>): seq<View>
    requires Rows(db, rows)
  {
    if hosts == [] then [] else Views(db, rows, hosts[..|hosts| - 1]) + [ViewOf(db, rows, hosts[|hosts| - 1])]
  }

  method OverviewForOwner(db: Db, hosts: seq<Id>, rows: seq<Id>) returns (views: seq<View>)
    requires IsScan(rows, ProblemTriggers(db, set h | h in hosts))
    ensures Rows(db, rows) && views == SortViews(Views(db, rows, hosts))
  {
    assert forall i :: 0 <= i < |rows| ==> rows[i] in rows;
    var problemCounts: map<Id, nat> := map[];
    var worst: map<Id, Severity> := map[];
    for i := 0 to |rows|
      invariant Rows(db, rows[..i])
      invariant forall h :: (if h in problemCounts then problemCounts[h] else 0) == CountOn(db, rows[..i], h)
      invariant forall h :: (if h in worst then Some(worst[h]) else None) == WorstOn(db, rows[..i], h)
    {
      assert rows[..i + 1][..i] == rows[..i];
      var host, severity := HostOf(db, rows[i]), db.triggers[rows[i]].severity;
      problemCounts := problemCounts[host := (if host in problemCounts then problemCounts[host] else 0) + 1];
      if host !in worst || severity.Rank() > worst[host].Rank() {
        worst := worst[host := severity];
      }
    }
    assert rows[..|rows|] == rows;
    views := [];
    for i := 0 to |hosts|
      invariant views == Views(db, rows, hosts[..i])
    {
      assert hosts[..i + 1][..i] == hosts[..i];
      var h := hosts[i];
      views := views + [View(h, ItemCount(db, h), if h in problemCounts then problemCounts[h] else 0,
                             if h in worst then Some(worst[h]) else None)];
    }
    assert hosts[..|hosts|] == hosts;
    views := SortViews(views);
  }

  // ---- The sort ----

  lemma {:induction false} InsertPermutes(v: View, views: seq<View>)
    ensures multiset(Insert(v, views)) == multiset(views) + multiset{v}
  {
    if views != [] && !SortsUpTo(v, views[0]) {
      InsertPermutes(v, views[1..]);
      assert views == [views[0]] + views[1..];
    } else {
      assert Insert(v, views) == [v] + views;
    }
  }

  lemma {:induction false} InsertSorts(v: View, views: seq<View>)
    requires Sorted(views)
    ensures Sorted(Insert(v, views)) && Insert(v, views) != []
    ensures Insert(v, views)[0] == v || (views != [] && Insert(v, views)[0] == views[0])
  {
    if views != [] && !SortsUpTo(v, views[0]) {
      var rest := Insert(v, views[1..]);
      InsertSorts(v, views[1..]);
      assert Insert(v, views) == [views[0]] + rest;
      assert SortsUpTo(views[0], rest[0]);
      assert forall j :: 0 <= j < |rest| ==> SortsUpTo(rest[0], rest[j]);
    } else {
      assert Insert(v, views) == [v] + views;
    }
  }

  /** The views that share a sort key, in list order. */
  function SameKey(views: seq<View>, v: View): seq<View> {
    if views == [] then []
    else if SortsUpTo(views[0], v) && SortsUpTo(v, views[0]) then [views[0]] + SameKey(views[1..], v)
    else SameKey(views[1..], v)
  }

  lemma {:induction false} InsertIsStable(x: View, views: seq<View>, v: View)
    requires Sorted(views)
    ensures SameKey(Insert(x, views), v) == SameKey([x] + views, v)
  {
    assert ([x] + views)[1..] == views;
    if views != [] && !SortsUpTo(x, views[0]) {
      InsertIsStable(x, views[1..], v);
      assert ([x] + views[1..])[1..] == views[1..];
    }
  }

  /** The result is sorted, holds the same views, and keeps views with the same key in their order. */
  lemma {:induction false} SortIsStable(views: seq<View>, v: View)
    ensures Sorted(SortViews(views)) && multiset(SortViews(views)) == multiset(views)
    ensures SameKey(SortViews(views), v) == SameKey(views, v)
  {
    if views != [] {
      SortIsStable(views[1..], v);
      InsertSorts(views[0], SortViews(views[1..]));
      InsertPermutes(views[0], SortViews(views[1..]));
      InsertIsStable(views[0], SortViews(views[1..]), v);
      assert views == [views[0]] + views[1..];
      assert ([views[0]] + SortViews(views[1..]))[1..] == SortViews(views[1..]);
    }
  }

  // ---- The counts are the open problems ----

  function RowsOn(db: Db, rows: seq<Id>, host: Id): set<Id>
    requires Rows(db, rows)
  {
    set t | t in rows && HostOf(db, t) == host
  }

  lemma LastRowOn(db: Db, rows: seq<Id>, host: Id)
    requires Rows(db, rows) && NoDuplicates(rows) && rows != []
    ensures var init, last := rows[..|rows| - 1], rows[|rows| - 1];
            && Rows(db, init) && last !in RowsOn(db, init, host)
            && RowsOn(db, rows, host) == RowsOn(db, init, host) + if HostOf(db, last) == host then {last} else {}
  {
    var init, last := rows[..|rows| - 1], rows[|rows| - 1];
    assert rows == init + [last];
  }

  lemma {:induction false} CountIsSize(db: Db, rows: seq<Id>, host: Id)
    requires Rows(db, rows) && NoDuplicates(rows)
    ensures CountOn(db, rows, host) == |RowsOn(db, rows, host)|
  {
    if rows != [] {
      LastRowOn(db, rows, host);
      CountIsSize(db, rows[..|rows| - 1], host);
    }
  }

  function OpenUnder(db: Db, triggers: set<Id>): set<Id> {
    set e | e in db.events && db.events[e].IsOpen() && db.events[e].trigger in triggers
  }

  lemma {:induction false} OneOpenEventEach(db: Db, triggers: set<Id>)
    requires Consistent(db) && forall t :: t in triggers ==> t in db.triggers && db.triggers[t].state == PROBLEM
    ensures |OpenUnder(db, triggers)| == |triggers|
  {
    if triggers == {} {
      assert OpenUnder(db, triggers) == {};
    } else {
      var t :| t in triggers;
      OneOpenEventEach(db, triggers - {t});
      assert OpenUnder(db, triggers) == OpenUnder(db, triggers - {t}) + OpenOf(db, t);
      assert OpenUnder(db, triggers - {t}) !! OpenOf(db, t);
    }
  }

  /** In every state the pipeline reaches, a host's problem count on the overview is the number of
      its open problem events from enabled item triggers. */
  lemma CountIsOpenProblems(db: Db, rows: seq<Id>, hosts: set<Id>, host: Id)
    requires Consistent(db) && IsScan(rows, ProblemTriggers(db, hosts)) && host in hosts && Rows(db, rows)
    ensures CountOn(db, rows, host) == |OpenUnder(db, ProblemTriggers(db, {host}))|
  {
    CountIsSize(db, rows, host);
    assert RowsOn(db, rows, host) == ProblemTriggers(db, {host});
    OneOpenEventEach(db, ProblemTriggers(db, {host}));
  }

  /** The worst severity is the highest among the host's problems, and absent without any. */
  lemma {:induction false} WorstIsHighest(db: Db, rows: seq<Id>, host: Id)
    requires Rows(db, rows)
    ensures var worst := WorstOn(db, rows, host);
            && (worst.None? <==> CountOn(db, rows, host) == 0)
            && (worst.None? ==> forall i :: 0 <= i < |rows| ==> HostOf(db, rows[i]) != host)
            && (worst.Some? ==>
                  && (exists i :: 0 <= i < |rows| && HostOf(db, rows[i]) == host && db.triggers[rows[i]].severity == worst.value)
                  && forall i :: 0 <= i < |rows| && HostOf(db, rows[i]) == host
                                 ==> db.triggers[rows[i]].severity.Rank() <= worst.value.Rank())
  {
    if rows != [] {
      var init := rows[..|rows| - 1];
      WorstIsHighest(db, init, host);
      assert forall i :: 0 <= i < |init| ==> init[i] == rows[i];
      forall i | 0 <= i < |rows| && HostOf(db, rows[i]) == host
        ensures WorstOn(db, rows, host).Some?
        ensures db.triggers[rows[i]].severity.Rank() <= WorstOn(db, rows, host).value.Rank()
      {
        if i < |init| { assert rows[i] == init[i]; }
      }
      if HostOf(db, rows[|rows| - 1]) != host && WorstOn(db, init, host).Some? {
        var i :| 0 <= i < |init| && HostOf(db, init[i]) == host && db.triggers[init[i]].severity == WorstOn(db, init, host).value;
        assert rows[i] == init[i];
      }
    }
  }

  // ---- What the page shows ----

  /** The severities in order: info, warning, average, high, disaster. */
  predicate NoWorse(a: Severity, b: Severity) {
    || a == b || a == Info || b == Disaster
    || (a == Warning && (b == Average || b == High)) || (a == Average && b == High)
  }

  lemma SeverityOrder(a: Severity, b: Severity)
    ensures a.Rank() <= b.Rank() <==> NoWorse(a, b)
  {
  }

  /** A trigger that is in PROBLEM, enabled, and on an item of the host. */
  ghost predicate ProblemOn(db: Db, t: Id, host: Id) {
    && t in db.triggers && db.triggers[t].state == PROBLEM && db.triggers[t].enabled
    && exists i :: i in db.items && db.triggers[t].target == OnItem(i) && db.items[i].host == host
  }

  lemma ProblemOnIs(db: Db, t: Id, host: Id)
    ensures t in ProblemTriggers(db, {host}) <==> ProblemOn(db, t, host)
  {
  }

  /** The unresolved events of such triggers. */
  ghost function OpenProblems(db: Db, host: Id): set<Id> {
    set e | e in db.events && db.events[e].resolvedAt == None && ProblemOn(db, db.events[e].trigger, host)
  }

  lemma {:induction false} ViewMember(db: Db, rows: seq<Id>, hosts: seq<Id>, v: View)
    requires Rows(db, rows)
    ensures v in Views(db, rows, hosts) <==> v.host in hosts && v == ViewOf(db, rows, v.host)
  {
    if hosts != [] {
      ViewMember(db, rows, hosts[..|hosts| - 1], v);
      assert v.host in hosts <==> v.host in hosts[..|hosts| - 1] || v.host == hosts[|hosts| - 1];
    }
  }

  lemma WorstRule(db: Db, rows: seq<Id>, hosts: set<Id>, host: Id, t: Id)
    requires IsScan(rows, ProblemTriggers(db, hosts)) && host in hosts && Rows(db, rows)
    ensures var worst := WorstOn(db, rows, host);
            && (ProblemOn(db, t, host) ==> worst.Some? && NoWorse(db.triggers[t].severity, worst.value))
            && (worst.Some? ==> exists u :: ProblemOn(db, u, host) && db.triggers[u].severity == worst.value)
  {
    var worst := WorstOn(db, rows, host);
    WorstIsHighest(db, rows, host);
    if ProblemOn(db, t, host) {
      assert t in ProblemTriggers(db, hosts);
      var i :| 0 <= i < |rows| && rows[i] == t;
      assert HostOf(db, rows[i]) == host;
      SeverityOrder(db.triggers[t].severity, worst.value);
    }
    if worst.Some? {
      var i :| 0 <= i < |rows| && HostOf(db, rows[i]) == host && db.triggers[rows[i]].severity == worst.value;
      assert rows[i] in ProblemTriggers(db, hosts) && ProblemOn(db, rows[i], host);
    }
  }

  /** Each of the owner's hosts is shown with the number of its items, the number of its open
      problems, and the worst severity among them, absent when there are none. */
  lemma OverviewRule(db: Db, rows: seq<Id>, hosts: seq<Id>, v: View, t: Id)
    requires Consistent(db) && IsScan(rows, ProblemTriggers(db, set h | h in hosts)) && Rows(db, rows)
    requires v in SortViews(Views(db, rows, hosts))
    ensures v.host in hosts
    ensures v.itemCount == |set i | i in db.items && db.items[i].host == v.host|
    ensures v.problemCount == |OpenProblems(db, v.host)| && (v.worst.None? <==> v.problemCount == 0)
    ensures ProblemOn(db, t, v.host) ==> v.worst.Some? && NoWorse(db.triggers[t].severity, v.worst.value)
    ensures v.worst.Some? ==> exists u :: ProblemOn(db, u, v.host) && db.triggers[u].severity == v.worst.value
  {
    var all := set h | h in hosts;
    SortIsStable(Views(db, rows, hosts), v);
    assert v in multiset(Views(db, rows, hosts)) by { assert v in multiset(SortViews(Views(db, rows, hosts))); }
    ViewMember(db, rows, hosts, v);
    CountIsOpenProblems(db, rows, all, v.host);
    forall e ensures e in OpenUnder(db, ProblemTriggers(db, {v.host})) <==> e in OpenProblems(db, v.host) {
      if e in db.events { ProblemOnIs(db, db.events[e].trigger, v.host); }
    }
    assert OpenUnder(db, ProblemTriggers(db, {v.host})) == OpenProblems(db, v.host);
    WorstIsHighest(db, rows, v.host);
    WorstRule(db, rows, all, v.host, t);
  }

  /** Hosts with problems come before hosts without, and worse ones before others. */
  lemma OrderRule(views: seq<View>, i: int, j: int)
    requires Sorted(views) && 0 <= i < j < |views|
    ensures views[i].problemCount == 0 ==> views[j].problemCount == 0
    ensures views[j].problemCount > 0 && views[i].worst.Some? && views[j].worst.Some? ==>
              NoWorse(views[j].worst.value, views[i].worst.value)
  {
    if views[i].worst.Some? && views[j].worst.Some? { SeverityOrder(views[j].worst.value, views[i].worst.value); }
  }
}
