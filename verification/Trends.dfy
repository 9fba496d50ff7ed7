/** Hourly trend rollups over a history that is pruned behind them. */
module Trends {
  import opened Common
  import opened History

  /** One row per (item, hour); the bucket is the instant the hour starts at. */
  type Key = (Id, int)

  datatype Trend = Trend(least: real, mean: real, greatest: real, count: nat)

  /** Lookback of the rollup in hours, retention of samples and of trends in days; 0 or less
      switches the respective step off. */
  datatype Config = Config(lookback: int, retention: int, trendRetention: int)

  function HourFloor(t: int): int { t - t % HOUR }

  function WindowStart(now: int, lookback: int): int { HourFloor(now) - lookback * HOUR }

  function Cutoff(now: int, days: int): int { now - days * DAY }

  /** The numeric samples collected in [from, to). */
  function Numeric(samples: seq<Sample>, from: int, to: int): seq<Sample> {
    if samples == [] then []
    else
      var s := samples[|samples| - 1];
      var before := Numeric(samples[..|samples| - 1], from, to);
      if s.value.Some? && from <= s.at < to then before + [s] else before
  }

  /** The numeric values of one item in one hour. */
  function Group(samples: seq<Sample>, item: Id, bucket: int): seq<real> {
    if samples == [] then []
    else
      var s := samples[|samples| - 1];
      var before := Group(samples[..|samples| - 1], item, bucket);
      if s.value.Some? && s.item == item && HourFloor(s.at) == bucket then before + [s.value.value] else before
  }

  /** The non-empty groups. */
  function Groups(samples: seq<Sample>): (keys: set<Key>)
    ensures forall item: Id, bucket: int :: (item, bucket) in keys <==> Group(samples, item, bucket) != []
  {
    if samples == [] then {}
    else
      var s := samples[|samples| - 1];
      var before := Groups(samples[..|samples| - 1]);
      if s.value.Some? then before + {(s.item, HourFloor(s.at))} else before
  }

  function Summary(values: seq<real>): Trend
    requires values != []
  {
    Trend(Least(values), Mean(values), Greatest(values), |values|)
  }

  /** The grouped aggregate over the last `lookback` complete hours. */
  function Aggregated(samples: seq<Sample>, now: int, lookback: int): map<Key, Trend> {
    var source := Numeric(samples, WindowStart(now, lookback), HourFloor(now));
    map k | k in Groups(source) :: Summary(Group(source, k.0, k.1))
  }

  /** The trend table after a rollup. */
  function Rollup(samples: seq<Sample>, trends: map<Key, Trend>, now: int, lookback: int): map<Key, Trend> {
    if lookback <= 0 then trends else trends + Aggregated(samples, now, lookback)
  }

  function NotBefore(instants: seq<int>, cutoff: int): seq<int> {
    if instants == [] then []
    else
      var last := instants[|instants| - 1];
      var before := NotBefore(instants[..|instants| - 1], cutoff);
      if last >= cutoff then before + [last] else before
  }

  /** The positions of the instants before the cutoff. */
  function OlderInstants(instants: seq<int>, cutoff: int): set<int> {
    set i | 0 <= i < |instants| && instants[i] < cutoff
  }

  lemma {:induction false} NotBeforeRow(instants: seq<int>, cutoff: int, row: int)
    ensures multiset(NotBefore(instants, cutoff))[row] == if row >= cutoff then multiset(instants)[row] else 0
  {
    if instants != [] {
      NotBeforeRow(instants[..|instants| - 1], cutoff, row);
      assert instants == instants[..|instants| - 1] + [instants[|instants| - 1]];
    }
  }

  lemma {:induction false} NotBeforeRemoves(instants: seq<int>, cutoff: int)
    ensures |instants| - |NotBefore(instants, cutoff)| == |OlderInstants(instants, cutoff)|
  {
    if instants != [] {
      var t, init := instants[|instants| - 1], instants[..|instants| - 1];
      NotBeforeRemoves(init, cutoff);
      assert OlderInstants(instants, cutoff) == OlderInstants(init, cutoff) + if t < cutoff then {|init|} else {};
    }
  }

  function KeepTrends(trends: map<Key, Trend>, cutoff: int): map<Key, Trend> {
    map k | k in trends && k.1 >= cutoff :: trends[k]
  }

  function Maintained(cfg: Config, samples: seq<Sample>, trends: map<Key, Trend>,
                      now: int): (seq<Sample>, map<Key, Trend>) {
    var rolled := Rollup(samples, trends, now, cfg.lookback);
    (if cfg.retention > 0 then Since(samples, Cutoff(now, cfg.retention)) else samples,
     if cfg.trendRetention > 0 then KeepTrends(rolled, Cutoff(now, cfg.trendRetention)) else rolled)
  }

  class TrendStore {
    var samples: seq<Sample>
    // `checked_at` of the probe results, the only column a prune looks at
    var probeResults: seq<int>
    var trends: map<Key, Trend>

    /** INSERT ... ON CONFLICT (item, bucket) DO UPDATE. */
    method Upsert(rows: map<Key, Trend>)
      modifies this`trends
      ensures trends == old(trends) + rows
    {
      var pending := rows.Keys;
      while pending != {}
        invariant pending <= rows.Keys
        invariant trends.Keys == old(trends).Keys + (rows.Keys - pending)
        invariant forall k :: k in trends ==> trends[k] == if k in rows && k !in pending then rows[k] else old(trends)[k]
        decreases pending
      {
        var k :| k in pending;
        trends := trends[k := rows[k]];
        pending := pending - {k};
      }
    }

    method RollupTrends(now: int, lookback: int) returns (written: nat)
      modifies this`trends
      ensures trends == Rollup(old(samples), old(trends), now, lookback)
      ensures written == if lookback <= 0 then 0 else |Aggregated(samples, now, lookback)|
    {
      if lookback <= 0 {
        return 0;
      }
      var rows := Aggregated(samples, now, lookback);
      Upsert(rows);
      written := |rows|;
    }

    /** Both tables keep exactly the rows not older than the cutoff, in order. */
    method PruneHistory(cutoff: int) returns (removedSamples: int, removedResults: int)
      modifies this`samples, this`probeResults
      ensures samples == Since(old(samples), cutoff) && probeResults == NotBefore(old(probeResults), cutoff)
      ensures forall s :: multiset(samples)[s] == if s.at >= cutoff then multiset(old(samples))[s] else 0
      ensures forall t :: multiset(probeResults)[t] == if t >= cutoff then multiset(old(probeResults))[t] else 0
      ensures removedSamples == |OlderRows(old(samples), cutoff)|
      ensures removedResults == |OlderInstants(old(probeResults), cutoff)|
    {
      SinceRemoves(samples, cutoff);
      NotBeforeRemoves(probeResults, cutoff);
      forall s { SinceRow(samples, cutoff, s); }
      forall t { NotBeforeRow(probeResults, cutoff, t); }
      removedSamples, removedResults := |samples|, |probeResults|;
      samples, probeResults := Since(samples, cutoff), NotBefore(probeResults, cutoff);
      removedSamples, removedResults := removedSamples - |samples|, removedResults - |probeResults|;
    }

    method PruneTrends(cutoff: int) returns (removed: int)
      modifies this`trends
      ensures forall k :: k in trends <==> k in old(trends) && k.1 >= cutoff
      ensures forall k :: k in trends ==> trends[k] == old(trends)[k]
      ensures removed == |set k | k in old(trends) && k.1 < cutoff|
    {
      ghost var gone := set k | k in trends && k.1 < cutoff;
      removed := |trends.Keys|;
      trends := map k | k in trends && k.1 >= cutoff :: trends[k];
      assert old(trends).Keys == trends.Keys + gone;
      removed := removed - |trends.Keys|;
    }

    /** The hourly job: roll up, then prune raw history, then prune trends. */
    method HistoryMaintenance(cfg: Config, now: int)
      modifies this
      ensures (samples, trends) == Maintained(cfg, old(samples), old(trends), now)
      ensures probeResults == if cfg.retention <= 0 then old(probeResults)
                              else NotBefore(old(probeResults), Cutoff(now, cfg.retention))
    {
      var _ := RollupTrends(now, cfg.lookback);
      if cfg.retention > 0 {
        var _, _ := PruneHistory(Cutoff(now, cfg.retention));
      }
      if cfg.trendRetention > 0 {
        ghost var rolled := trends;
        var _ := PruneTrends(Cutoff(now, cfg.trendRetention));
        assert trends == KeepTrends(rolled, Cutoff(now, cfg.trendRetention));
      }
    }
  }

  // ---- Every rollup stays between its extremes ----

  lemma SummaryOrder(values: seq<real>)
    requires values != []
    ensures Summary(values).least <= Summary(values).mean <= Summary(values).greatest && Summary(values).count > 0
  {
    AggregationOrder(values);
  }

  ghost predicate RowsOrdered(trends: map<Key, Trend>) {
    forall k :: k in trends ==> trends[k].least <= trends[k].mean <= trends[k].greatest && trends[k].count > 0
  }

  /** Every trend row a job leaves has value_min <= value_avg <= value_max. */
  lemma MaintenanceKeepsRowsOrdered(cfg: Config, samples: seq<Sample>, trends: map<Key, Trend>, now: int)
    requires RowsOrdered(trends)
    ensures RowsOrdered(Maintained(cfg, samples, trends, now).1)
  {
    var source := Numeric(samples, WindowStart(now, cfg.lookback), HourFloor(now));
    forall k | k in Groups(source)
      ensures var row := Summary(Group(source, k.0, k.1)); row.least <= row.mean <= row.greatest && row.count > 0
    {
      SummaryOrder(Group(source, k.0, k.1));
    }
  }

  // ---- Hours ----

  predicate OnTheHour(t: int) { t % HOUR == 0 }

  lemma HourFloorBounds(t: int)
    ensures HourFloor(t) <= t < HourFloor(t) + HOUR && OnTheHour(HourFloor(t))
  {
  }

  lemma HoursApart(a: int, b: int)
    requires OnTheHour(a) && OnTheHour(b) && a < b
    ensures a + HOUR <= b
  {
  }

  lemma HoursBack(t: int, n: int)
    requires OnTheHour(t)
    ensures OnTheHour(t - n * HOUR)
  {
    var k := t / HOUR;
    assert t - n * HOUR == (k - n) * HOUR;
  }

  lemma WindowOnTheHour(now: int, lookback: int)
    ensures OnTheHour(WindowStart(now, lookback)) && OnTheHour(HourFloor(now))
  {
    HourFloorBounds(now);
    HoursBack(HourFloor(now), lookback);
  }

  /** A bound on the hour does not cut an hour in two. */
  lemma WholeHours(t: int, bound: int)
    requires OnTheHour(bound)
    ensures bound <= t <==> bound <= HourFloor(t)
  {
    HourFloorBounds(t);
    if HourFloor(t) < bound { HoursApart(HourFloor(t), bound); }
  }
}
