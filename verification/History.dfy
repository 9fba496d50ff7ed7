/** Raw metric history: windowed observations, the poller's due test and the retention prune. */
module History {
  import opened Common

  /** A `metric_values` row. Text samples carry no numeric value. */
  datatype Sample = Sample(item: Id, value: Option<real>, at: int)

  datatype Aggregation = Last | Avg | Min | Max

  /** Longest trigger window and longest polling interval the schemas accept. */
  const MAX_WINDOW_SECONDS := 86400

  /** The numeric values of `items` collected at or after `since`. There is no upper bound. */
  function Window(samples: seq<Sample>, items: set<Id>, since: int): (values: seq<real>) {
    if samples == [] then []
    else
      var s := samples[|samples| - 1];
      var before := Window(samples[..|samples| - 1], items, since);
      if s.item in items && s.at >= since && s.value.Some? then before + [s.value.value] else before
  }

  function Sum(values: seq<real>): real {
    if values == [] then 0.0 else Sum(values[..|values| - 1]) + values[|values| - 1]
  }

  function Least(values: seq<real>): real
    requires values != []
  {
    var last := values[|values| - 1];
    if |values| == 1 then last
    else var m := Least(values[..|values| - 1]); if last < m then last else m
  }

  function Greatest(values: seq<real>): real
    requires values != []
  {
    var last := values[|values| - 1];
    if |values| == 1 then last
    else var m := Greatest(values[..|values| - 1]); if last > m then last else m
  }

  function Mean(values: seq<real>): real
    requires values != []
  {
    Sum(values) / |values| as real
  }

  /** SQL aggregates are NULL over an empty group. */
  function Aggregate(aggregation: Aggregation, values: seq<real>): Option<real>
    requires !aggregation.Last?
  {
    if values == [] then None
    else match aggregation
      case Avg => Some(Mean(values))
      case Min => Some(Least(values))
      case Max => Some(Greatest(values))
  }

  /** DELETE WHERE collected_at < cutoff, as the table that remains. */
  function Since(samples: seq<Sample>, cutoff: int): (kept: seq<Sample>) {
    if samples == [] then []
    else
      var s := samples[|samples| - 1];
      var before := Since(samples[..|samples| - 1], cutoff);
      if s.at >= cutoff then before + [s] else before
  }

  /** MAX(collected_at) over an item's rows. */
  function LastAt(samples: seq<Sample>, item: Id): Option<int> {
    if samples == [] then None
    else
      var s := samples[|samples| - 1];
      var before := LastAt(samples[..|samples| - 1], item);
      if s.item != item then before
      else if before.None? || before.value < s.at then Some(s.at) else before
  }

  predicate IsDue(samples: seq<Sample>, item: Id, intervalSeconds: int, now: int) {
    var last := LastAt(samples, item);
    last.None? || last.value <= now - intervalSeconds * SECOND
  }

  // ---- Aggregates ----

  lemma {:induction false} LeastAndGreatestAreBounds(values: seq<real>)
    requires values != []
    ensures Least(values) in values && Greatest(values) in values
    ensures forall i :: 0 <= i < |values| ==> Least(values) <= values[i] <= Greatest(values)
  {
    if |values| > 1 {
      var init := values[..|values| - 1];
      LeastAndGreatestAreBounds(init);
      assert forall x :: x in init ==> x in values;
      forall i | 0 <= i < |values| ensures Least(values) <= values[i] <= Greatest(values) {
        if i < |init| { assert values[i] == init[i]; }
      }
    }
  }

  lemma {:induction false} SumBetween(values: seq<real>, lo: real, hi: real)
    requires forall i :: 0 <= i < |values| ==> lo <= values[i] <= hi
    ensures lo * |values| as real <= Sum(values) <= hi * |values| as real
  {
    if values != [] {
      var init := values[..|values| - 1];
      SumBetween(init, lo, hi);
      assert |values| as real == |init| as real + 1.0;
      assert lo * |values| as real == lo * |init| as real + lo;
      assert hi * |values| as real == hi * |init| as real + hi;
    }
  }

  lemma QuotientBetween(sum: real, n: real, lo: real, hi: real)
    requires n > 0.0 && lo * n <= sum <= hi * n
    ensures lo <= sum / n <= hi
  {
    var q := sum / n;
    assert q * n == sum;
  }

  lemma AggregationOrder(values: seq<real>)
    requires values != []
    ensures Least(values) <= Mean(values) <= Greatest(values)
  {
    var lo, hi := Least(values), Greatest(values);
    LeastAndGreatestAreBounds(values);
    SumBetween(values, lo, hi);
    QuotientBetween(Sum(values), |values| as real, lo, hi);
  }

  lemma {:induction false} SumAppend(a: seq<real>, b: seq<real>)
    ensures Sum(a + b) == Sum(a) + Sum(b)
  {
    if b == [] {
      assert a + b == a;
    } else {
      assert (a + b)[..|a + b| - 1] == a + b[..|b| - 1];
      SumAppend(a, b[..|b| - 1]);
    }
  }

  lemma MeanTimesCount(values: seq<real>)
    requires values != []
    ensures Mean(values) * |values| as real == Sum(values)
  {
  }

  lemma MeanOfOne(x: real)
    ensures Mean([x]) == x && Sum([x]) == x
  {
    assert [x][..0] == [] && |[x]| as real == 1.0;
    MeanTimesCount([x]);
  }

  /** The mean of two groups weighs each by its size: every value counts the same. */
  lemma {:induction false} MeanLaw(a: seq<real>, b: seq<real>)
    requires a != [] && b != []
    ensures Mean(a + b) * |a + b| as real == Mean(a) * |a| as real + Mean(b) * |b| as real
  {
    SumAppend(a, b);
    MeanTimesCount(a);
    MeanTimesCount(b);
    MeanTimesCount(a + b);
  }

  /** What an aggregate of a window is: absent without values, else the least value, the greatest,
      or the mean. */
  lemma {:induction false} AggregateRule(aggregation: Aggregation, values: seq<real>, x: real)
    requires !aggregation.Last?
    ensures var r := Aggregate(aggregation, values);
            && (r.None? <==> values == [])
            && (r.Some? && aggregation.Min? ==> r.value in values && (x in values ==> r.value <= x))
            && (r.Some? && aggregation.Max? ==> r.value in values && (x in values ==> x <= r.value))
            && (r.Some? && aggregation.Avg? ==> r.value * |values| as real == Sum(values))
  {
    if values != [] {
      LeastAndGreatestAreBounds(values);
      MeanTimesCount(values);
      if x in values {
        var i :| 0 <= i < |values| && values[i] == x;
      }
    }
  }

  // ---- Windows and due times ----

  /** The positions of the samples of `items` collected at or after `since` with value `v`. */
  function PositionsOf(samples: seq<Sample>, items: set<Id>, since: int, v: real): set<int> {
    set i | 0 <= i < |samples| && samples[i].item in items && samples[i].at >= since && samples[i].value == Some(v)
  }

  lemma LastPosition(samples: seq<Sample>, items: set<Id>, since: int, v: real)
    requires samples != []
    ensures var s, init := samples[|samples| - 1], samples[..|samples| - 1];
            var before := PositionsOf(init, items, since, v);
            && |init| !in before
            && PositionsOf(samples, items, since, v)
               == before + if s.item in items && s.at >= since && s.value == Some(v) then {|init|} else {}
  {
  }

  /** A window holds each value as often as a sample of the items carries it. */
  lemma {:induction false} WindowHolds(samples: seq<Sample>, items: set<Id>, since: int, v: real)
    ensures multiset(Window(samples, items, since))[v] == |PositionsOf(samples, items, since, v)|
  {
    if samples != [] {
      WindowHolds(samples[..|samples| - 1], items, since, v);
      LastPosition(samples, items, since, v);
    }
  }

  lemma {:induction false} LastAtRule(samples: seq<Sample>, item: Id)
    ensures var last := LastAt(samples, item);
            && (last.Some? ==> exists s :: s in samples && s.item == item && s.at == last.value)
            && forall s :: s in samples && s.item == item ==> last.Some? && s.at <= last.value
  {
    if samples != [] {
      var s, init := samples[|samples| - 1], samples[..|samples| - 1];
      LastAtRule(init, item);
      assert s in samples && forall q :: q in samples <==> q in init || q == s;
    }
  }

  /** An item is due unless one of its samples is younger than its interval. */
  lemma {:induction false} DueRule(samples: seq<Sample>, item: Id, intervalSeconds: int, now: int)
    ensures IsDue(samples, item, intervalSeconds, now) <==>
            forall s :: s in samples && s.item == item ==> s.at + intervalSeconds * 1_000_000 <= now
  {
    LastAtRule(samples, item);
  }

  // ---- Pruning ----

  /** The positions of the rows older than the cutoff. */
  function OlderRows(samples: seq<Sample>, cutoff: int): set<int> {
    set i | 0 <= i < |samples| && samples[i].at < cutoff
  }

  /** A prune keeps every row as often as it was there, or not at all when it is older. */
  lemma {:induction false} SinceRow(samples: seq<Sample>, cutoff: int, row: Sample)
    ensures multiset(Since(samples, cutoff))[row] == if row.at >= cutoff then multiset(samples)[row] else 0
  {
    if samples != [] {
      SinceRow(samples[..|samples| - 1], cutoff, row);
      assert samples == samples[..|samples| - 1] + [samples[|samples| - 1]];
    }
  }

  lemma {:induction false} SinceRemoves(samples: seq<Sample>, cutoff: int)
    ensures |samples| - |Since(samples, cutoff)| == |OlderRows(samples, cutoff)|
  {
    if samples != [] {
      var s, init := samples[|samples| - 1], samples[..|samples| - 1];
      SinceRemoves(init, cutoff);
      assert OlderRows(samples, cutoff) == OlderRows(init, cutoff) + if s.at < cutoff then {|init|} else {};
    }
  }

  lemma {:induction false} WindowAfterPrune(samples: seq<Sample>, items: set<Id>, since: int, cutoff: int)
    requires since >= cutoff
    ensures Window(Since(samples, cutoff), items, since) == Window(samples, items, since)
  {
    if samples != [] {
      var s, init := samples[|samples| - 1], samples[..|samples| - 1];
      WindowAfterPrune(init, items, since, cutoff);
      if s.at >= cutoff {
        assert (Since(init, cutoff) + [s])[..|Since(init, cutoff)|] == Since(init, cutoff);
      }
    }
  }

  lemma {:induction false} LastAtAfterPrune(samples: seq<Sample>, item: Id, cutoff: int)
    ensures var before := LastAt(samples, item);
            LastAt(Since(samples, cutoff), item) ==
            if before.Some? && before.value >= cutoff then before else None
  {
    if samples != [] {
      var s, init := samples[|samples| - 1], samples[..|samples| - 1];
      LastAtAfterPrune(init, item, cutoff);
      if s.at >= cutoff {
        assert (Since(init, cutoff) + [s])[..|Since(init, cutoff)|] == Since(init, cutoff);
      }
    }
  }

  lemma {:induction false} SinceAppend(a: seq<Sample>, s: Sample, cutoff: int)
    ensures Since(a + [s], cutoff) == Since(a, cutoff) + if s.at >= cutoff then [s] else []
  {
    assert (a + [s])[..|a|] == a;
  }

  lemma {:induction false} SinceSince(samples: seq<Sample>, a: int, b: int)
    requires a <= b
    ensures Since(Since(samples, a), b) == Since(samples, b)
  {
    if samples != [] {
      var s, init := samples[|samples| - 1], samples[..|samples| - 1];
      SinceSince(init, a, b);
      if s.at >= a {
        assert (Since(init, a) + [s])[..|Since(init, a)|] == Since(init, a);
      }
    }
  }

  ghost predicate WindowUnaffected(aggregation: Aggregation, items: set<Id>, since: int, cutoff: int,
                                   samples: seq<Sample>)
    requires !aggregation.Last?
  {
    Aggregate(aggregation, Window(Since(samples, cutoff), items, since)) == Aggregate(aggregation, Window(samples, items, since))
  }

  ghost predicate DueUnaffected(item: Id, intervalSeconds: int, now: int, cutoff: int, samples: seq<Sample>) {
    IsDue(Since(samples, cutoff), item, intervalSeconds, now) <==> IsDue(samples, item, intervalSeconds, now)
  }

  /** An aggregated observation over `items` is unaffected by a prune, whatever the history,
      exactly when the window opens no earlier than the prune's cutoff. */
  lemma PruneInvisibleToWindowIff(aggregation: Aggregation, items: set<Id>, since: int, cutoff: int)
    requires !aggregation.Last? && items != {}
    ensures (forall samples :: WindowUnaffected(aggregation, items, since, cutoff, samples)) <==> since >= cutoff
  {
    if since >= cutoff {
      forall samples ensures WindowUnaffected(aggregation, items, since, cutoff, samples) {
        WindowAfterPrune(samples, items, since, cutoff);
      }
    } else {
      var item :| item in items;
      var lone := [Sample(item, Some(0.0), since)];
      assert lone[..0] == [];
      assert Window(lone, items, since) == [0.0] && Since(lone, cutoff) == [];
      assert !WindowUnaffected(aggregation, items, since, cutoff, lone);
    }
  }

  /** No item's due status changes, whatever its history, exactly when the cutoff is not
      above the newest instant at which the item would already be due. */
  lemma PruneInvisibleToPollerIff(item: Id, intervalSeconds: int, now: int, cutoff: int)
    ensures (forall samples :: DueUnaffected(item, intervalSeconds, now, cutoff, samples))
       <==> cutoff <= now - intervalSeconds * SECOND + 1
  {
    var dueAt := now - intervalSeconds * SECOND;
    if cutoff <= dueAt + 1 {
      forall samples ensures DueUnaffected(item, intervalSeconds, now, cutoff, samples) {
        LastAtAfterPrune(samples, item, cutoff);
      }
    } else {
      var lone := [Sample(item, None, dueAt + 1)];
      assert lone[..0] == [];
      assert lone[0].at < cutoff;
      assert LastAt(lone, item) == Some(dueAt + 1);
      assert Since(lone, cutoff) == Since(lone[..0], cutoff) == [];
      assert !DueUnaffected(item, intervalSeconds, now, cutoff, lone);
    }
  }

  /** Retention of at least a day is invisible to every window and every poll made no earlier
      than the prune, for all windows and intervals the schemas accept. */
  lemma RetentionInvisible(samples: seq<Sample>, items: set<Id>, item: Id, retentionDays: int,
                           prunedAt: int, now: int, windowSeconds: int, intervalSeconds: int)
    requires retentionDays >= 1 && prunedAt <= now
    requires windowSeconds <= 86400 && intervalSeconds <= 86400
    ensures var kept := Since(samples, prunedAt - retentionDays * DAY);
            && Window(kept, items, now - windowSeconds * SECOND) == Window(samples, items, now - windowSeconds * SECOND)
            && (IsDue(kept, item, intervalSeconds, now) <==> IsDue(samples, item, intervalSeconds, now))
  {
    var cutoff := prunedAt - retentionDays * DAY;
    assert cutoff <= now - MAX_WINDOW_SECONDS * SECOND;
    WindowAfterPrune(samples, items, now - windowSeconds * SECOND, cutoff);
    PruneInvisibleToPollerIff(item, intervalSeconds, now, cutoff);
    assert DueUnaffected(item, intervalSeconds, now, cutoff, samples);
  }
}
