/** What the rows of the trend table say, in terms of the samples themselves. */
module TrendRules {
  import opened Common
  import opened History
  import opened Trends
  import opened TrendRuns

  const HOUR_MICROS := 3_600_000_000

  /** The positions of the numeric samples of an item in the hour that starts at `hour`. */
  function HourPositions(samples: seq<Sample>, item: Id, hour: int): set<int> {
    set i | 0 <= i < |samples| && samples[i].item == item && samples[i].value.Some? && hour <= samples[i].at < hour + HOUR_MICROS
  }

  /** Those that measured `v`. */
  function ValuePositions(samples: seq<Sample>, item: Id, hour: int, v: real): set<int> {
    set i | i in HourPositions(samples, item, hour) && samples[i].value == Some(v)
  }

  lemma InHour(t: int, hour: int)
    requires hour % HOUR_MICROS == 0
    ensures HourFloor(t) == hour <==> hour <= t < hour + HOUR_MICROS
  {
    HourFloorBounds(t);
    if hour <= t { WholeHours(t, hour); }
    if t < hour + HOUR && HourFloor(t) > hour { HoursApart(hour, HourFloor(t)); }
  }

  lemma LastInHour(samples: seq<Sample>, item: Id, hour: int, v: real)
    requires samples != [] && hour % HOUR_MICROS == 0
    ensures var s, init := samples[|samples| - 1], samples[..|samples| - 1];
            var added := s.value.Some? && s.item == item && HourFloor(s.at) == hour;
            && |init| !in HourPositions(init, item, hour) && |init| !in ValuePositions(init, item, hour, v)
            && HourPositions(samples, item, hour) == HourPositions(init, item, hour) + (if added then {|init|} else {})
            && ValuePositions(samples, item, hour, v)
               == ValuePositions(init, item, hour, v) + (if added && s.value == Some(v) then {|init|} else {})
  {
    InHour(samples[|samples| - 1].at, hour);
  }

  /** A group holds the values of the hour's samples, each as often as it was measured. */
  lemma {:induction false} GroupHolds(samples: seq<Sample>, item: Id, hour: int, v: real)
    requires hour % HOUR_MICROS == 0
    ensures |Group(samples, item, hour)| == |HourPositions(samples, item, hour)|
    ensures multiset(Group(samples, item, hour))[v] == |ValuePositions(samples, item, hour, v)|
  {
    if samples != [] {
      GroupHolds(samples[..|samples| - 1], item, hour, v);
      LastInHour(samples, item, hour, v);
    }
  }

  /** The rollup covers the `lookback` complete hours before the one `now` falls into. */
  predicate CoversHour(now: int, lookback: int, hour: int) {
    (now / HOUR_MICROS - lookback) * HOUR_MICROS <= hour < now / HOUR_MICROS * HOUR_MICROS
  }

  lemma CoversIt(now: int, lookback: int, hour: int)
    ensures Covers(now, lookback, hour) <==> lookback > 0 && CoversHour(now, lookback, hour)
  {
    assert HourFloor(now) == now / HOUR_MICROS * HOUR_MICROS;
    assert WindowStart(now, lookback) == (now / HOUR_MICROS - lookback) * HOUR_MICROS;
  }

  /** The row summarizes `values`: both extremes are attained and bound them, the mean is theirs. */
  ghost predicate Summarizes(row: Trend, values: seq<real>) {
    && row.least in values && row.greatest in values
    && (forall x :: x in values ==> row.least <= x <= row.greatest)
    && row.mean * |values| as real == Sum(values)
    && row.count == |values|
  }

  lemma SummaryRule(values: seq<real>)
    requires values != []
    ensures Summarizes(Summary(values), values)
  {
    LeastAndGreatestAreBounds(values);
    MeanTimesCount(values);
  }

  /** `values` are the values of the hour's samples, whatever their order. */
  ghost predicate ValuesOf(values: seq<real>, samples: seq<Sample>, item: Id, hour: int) {
    forall v :: multiset(values)[v] == |ValuePositions(samples, item, hour, v)|
  }

  /** For each item and hour: where the rollup covers the hour and there are numeric samples in it,
      the row summarizes them all; any other row stays. */
  lemma {:induction false} RollupRule(samples: seq<Sample>, trends: map<Key, Trend>, now: int, lookback: int,
                                      item: Id, hour: int)
    requires hour % HOUR_MICROS == 0
    ensures var rolled, k := Rollup(samples, trends, now, lookback), (item, hour);
            if lookback > 0 && CoversHour(now, lookback, hour) && HourPositions(samples, item, hour) != {}
            then k in rolled && exists values :: ValuesOf(values, samples, item, hour) && Summarizes(rolled[k], values)
            else (k in rolled <==> k in trends) && (k in trends ==> rolled[k] == trends[k])
  {
    var values := Group(samples, item, hour);
    CoversIt(now, lookback, hour);
    RollupAt(samples, trends, now, lookback, (item, hour));
    GroupHolds(samples, item, hour, 0.0);
    forall v ensures multiset(values)[v] == |ValuePositions(samples, item, hour, v)| {
      GroupHolds(samples, item, hour, v);
    }
    assert ValuesOf(values, samples, item, hour);
    if values != [] { SummaryRule(values); }
  }

  /** After the job: a sample is kept as often as it was there unless the retention is on and the
      sample older than it; a rolled-up row is kept unless its retention is over. */
  lemma MaintenanceRule(cfg: Config, samples: seq<Sample>, trends: map<Key, Trend>, now: int, s: Sample, k: Key)
    ensures var (kept, rows) := Maintained(cfg, samples, trends, now);
            var rolled := Rollup(samples, trends, now, cfg.lookback);
            && multiset(kept)[s] == (if cfg.retention <= 0 || s.at >= now - cfg.retention * 86_400_000_000
                                     then multiset(samples)[s] else 0)
            && (k in rows <==> k in rolled && (cfg.trendRetention <= 0 || k.1 >= now - cfg.trendRetention * 86_400_000_000))
            && (k in rows ==> rows[k] == rolled[k])
  {
    SinceRow(samples, Cutoff(now, cfg.retention), s);
  }
}
