/** Runs of the history maintenance job: when the trend table is exact, which hours it covers
    and how many samples it accounts for. */
module TrendRuns {
  import opened Common
  import opened History
  import opened Trends

  datatype Event = Ingest(sample: Sample) | Maintain(now: int)

  /** When a job ran, and how many samples had been ingested before it. */
  datatype JobRun = JobRun(now: int, seen: nat)

  /** The two tables, with the log of everything ingested and of every job run. */
  datatype State = State(samples: seq<Sample>, trends: map<Key, Trend>, all: seq<Sample>, runs: seq<JobRun>)

  const INITIAL := State([], map[], [], [])

  function Next(cfg: Config, st: State, e: Event): State {
    match e
    case Ingest(s) => st.(samples := st.samples + [s], all := st.all + [s])
    case Maintain(now) =>
      var (samples, trends) := Maintained(cfg, st.samples, st.trends, now);
      State(samples, trends, st.all, st.runs + [JobRun(now, |st.all|)])
  }

  function Run(cfg: Config, events: seq<Event>): State {
    if events == [] then INITIAL else Next(cfg, Run(cfg, events[..|events| - 1]), events[|events| - 1])
  }

  /** Job times do not decrease. */
  ghost predicate Ordered(events: seq<Event>) {
    forall i, j :: 0 <= i < j < |events| && events[i].Maintain? && events[j].Maintain? ==> events[i].now <= events[j].now
  }

  // ---- What the table should hold ----

  predicate Covers(now: int, lookback: int, bucket: int) {
    lookback > 0 && WindowStart(now, lookback) <= bucket < HourFloor(now)
  }

  /** The number of samples ingested before the last run whose window holds the bucket. */
  function LastCover(runs: seq<JobRun>, lookback: int, bucket: int): Option<nat> {
    if runs == [] then None
    else
      var last := runs[|runs| - 1];
      if Covers(last.now, lookback, bucket) then Some(last.seen)
      else LastCover(runs[..|runs| - 1], lookback, bucket)
  }

  /** Not older than the trend retention of the last run. */
  predicate Kept(cfg: Config, runs: seq<JobRun>, bucket: int) {
    cfg.trendRetention <= 0 || runs == [] || bucket >= Cutoff(runs[|runs| - 1].now, cfg.trendRetention)
  }

  /** Every numeric value of that hour that had arrived by the bucket's last covering run,
      whether or not the raw samples still exist. */
  function FullGroup(cfg: Config, all: seq<Sample>, runs: seq<JobRun>, k: Key): seq<real> {
    var cover := LastCover(runs, cfg.lookback, k.1);
    if cover.None? || cover.value > |all| || !Kept(cfg, runs, k.1) then []
    else Group(all[..cover.value], k.0, k.1)
  }

  /** A row exists exactly when its group is non-empty, and then summarizes it. */
  ghost predicate RowExact(trends: map<Key, Trend>, k: Key, full: seq<real>) {
    && (k in trends <==> full != [])
    && (k in trends ==> trends[k] == Summary(full))
  }

  /** The trend table is what a rollup over the unpruned history would have produced. */
  ghost predicate Exact(cfg: Config, st: State) {
    forall k: Key :: RowExact(st.trends, k, FullGroup(cfg, st.all, st.runs, k))
  }

  /** A rollup never meets a half-pruned hour: pruning or rolling up is off, the lookback is
      shorter than the retention, or trends are dropped at least as early as raw samples. */
  predicate Safe(cfg: Config) {
    || cfg.lookback <= 0
    || cfg.retention <= 0
    || cfg.lookback < 24 * cfg.retention
    || 0 < cfg.trendRetention <= cfg.retention
  }

  // ---- The invariant of a safe configuration ----

  /** No sample newer than the last history cutoff is missing. */
  ghost predicate Complete(cfg: Config, st: State) {
    if cfg.retention <= 0 || st.runs == [] then st.samples == st.all
    else var cutoff := Cutoff(st.runs[|st.runs| - 1].now, cfg.retention);
         Since(st.samples, cutoff) == Since(st.all, cutoff)
  }

  ghost predicate SeenInRange(st: State) {
    forall i :: 0 <= i < |st.runs| ==> st.runs[i].seen <= |st.all|
  }

  lemma {:induction false} GroupSince(samples: seq<Sample>, cutoff: int, item: Id, bucket: int)
    requires bucket >= cutoff
    ensures Group(Since(samples, cutoff), item, bucket) == Group(samples, item, bucket)
  {
    if samples != [] {
      var s, init := samples[|samples| - 1], samples[..|samples| - 1];
      GroupSince(init, cutoff, item, bucket);
      HourFloorBounds(s.at);
      if s.at >= cutoff {
        assert (Since(init, cutoff) + [s])[..|Since(init, cutoff)|] == Since(init, cutoff);
      }
    }
  }

  lemma GroupAppend(samples: seq<Sample>, s: Sample, item: Id, bucket: int)
    ensures Group(samples + [s], item, bucket) == Group(samples, item, bucket)
              + if s.value.Some? && s.item == item && HourFloor(s.at) == bucket then [s.value.value] else []
  {
    assert (samples + [s])[..|samples|] == samples;
  }

  /** A window filter with bounds on the hour leaves its hours whole and removes every other one. */
  lemma {:induction false} GroupInWindow(samples: seq<Sample>, from: int, to: int, item: Id, bucket: int)
    requires OnTheHour(from) && OnTheHour(to)
    ensures Group(Numeric(samples, from, to), item, bucket)
         == if from <= bucket < to then Group(samples, item, bucket) else []
  {
    if samples != [] {
      var s, init := samples[|samples| - 1], samples[..|samples| - 1];
      GroupInWindow(init, from, to, item, bucket);
      WholeHours(s.at, from);
      WholeHours(s.at, to);
      if s.value.Some? && from <= s.at < to {
        GroupAppend(Numeric(init, from, to), s, item, bucket);
      }
    }
  }

  /** What a rollup writes: the covered hours, from the samples at hand. */
  lemma RollupAt(samples: seq<Sample>, trends: map<Key, Trend>, now: int, lookback: int, k: Key)
    ensures var rolled := Rollup(samples, trends, now, lookback);
            if Covers(now, lookback, k.1) && Group(samples, k.0, k.1) != []
            then k in rolled && rolled[k] == Summary(Group(samples, k.0, k.1))
            else (k in rolled <==> k in trends) && (k in trends ==> rolled[k] == trends[k])
  {
    WindowOnTheHour(now, lookback);
    GroupInWindow(samples, WindowStart(now, lookback), HourFloor(now), k.0, k.1);
    assert k == (k.0, k.1);
  }

  /** A covered hour that outlives this run's trend prune was not touched by an earlier history prune. */
  lemma CoveredIsUnpruned(cfg: Config, earlier: int, now: int, bucket: int)
    requires Safe(cfg) && earlier <= now && cfg.retention > 0
    requires Covers(now, cfg.lookback, bucket)
    requires cfg.trendRetention <= 0 || bucket >= Cutoff(now, cfg.trendRetention)
    ensures bucket >= Cutoff(earlier, cfg.retention)
  {
    HourFloorBounds(now);
    if cfg.lookback < 24 * cfg.retention {
      assert cfg.lookback * HOUR <= (24 * cfg.retention - 1) * HOUR;
      assert (24 * cfg.retention - 1) * HOUR == cfg.retention * DAY - HOUR;
    } else {
      assert cfg.trendRetention * DAY <= cfg.retention * DAY;
    }
  }

  ghost predicate NotBeforeLastRun(st: State, now: int) {
    st.runs != [] ==> st.runs[|st.runs| - 1].now <= now
  }

  lemma CompleteGroup(cfg: Config, st: State, now: int, k: Key)
    requires Safe(cfg) && Complete(cfg, st) && NotBeforeLastRun(st, now)
    requires Covers(now, cfg.lookback, k.1)
    requires cfg.trendRetention <= 0 || k.1 >= Cutoff(now, cfg.trendRetention)
    ensures Group(st.samples, k.0, k.1) == Group(st.all, k.0, k.1)
  {
    if cfg.retention > 0 && st.runs != [] {
      var earlier := st.runs[|st.runs| - 1].now;
      CoveredIsUnpruned(cfg, earlier, now, k.1);
      GroupSince(st.samples, Cutoff(earlier, cfg.retention), k.0, k.1);
      GroupSince(st.all, Cutoff(earlier, cfg.retention), k.0, k.1);
    }
  }

  lemma {:induction false} LastCoverInRange(runs: seq<JobRun>, lookback: int, bucket: int, bound: nat)
    requires forall i :: 0 <= i < |runs| ==> runs[i].seen <= bound
    ensures var cover := LastCover(runs, lookback, bucket); cover.Some? ==> cover.value <= bound
  {
    if runs != [] {
      LastCoverInRange(runs[..|runs| - 1], lookback, bucket, bound);
    }
  }

  lemma IngestKeeps(cfg: Config, st: State, s: Sample)
    requires Exact(cfg, st) && Complete(cfg, st) && SeenInRange(st)
    ensures var after := Next(cfg, st, Ingest(s)); Exact(cfg, after) && Complete(cfg, after) && SeenInRange(after)
  {
    var after := Next(cfg, st, Ingest(s));
    if cfg.retention > 0 && st.runs != [] {
      var cutoff := Cutoff(st.runs[|st.runs| - 1].now, cfg.retention);
      SinceAppend(st.samples, s, cutoff);
      SinceAppend(st.all, s, cutoff);
    }
    forall k: Key ensures FullGroup(cfg, after.all, after.runs, k) == FullGroup(cfg, st.all, st.runs, k) {
      LastCoverInRange(st.runs, cfg.lookback, k.1, |st.all|);
      var cover := LastCover(st.runs, cfg.lookback, k.1);
      if cover.Some? { assert after.all[..cover.value] == st.all[..cover.value]; }
    }
    forall k: Key ensures RowExact(after.trends, k, FullGroup(cfg, after.all, after.runs, k)) {
      assert RowExact(st.trends, k, FullGroup(cfg, st.all, st.runs, k));
    }
  }

  lemma PruneKeepsComplete(cfg: Config, st: State, now: int)
    requires Complete(cfg, st) && NotBeforeLastRun(st, now) && cfg.retention > 0
    ensures var cutoff := Cutoff(now, cfg.retention);
            Since(Since(st.samples, cutoff), cutoff) == Since(st.all, cutoff)
  {
    var cutoff := Cutoff(now, cfg.retention);
    SinceSince(st.samples, cutoff, cutoff);
    if st.runs != [] {
      var earlier := Cutoff(st.runs[|st.runs| - 1].now, cfg.retention);
      SinceSince(st.samples, earlier, cutoff);
      SinceSince(st.all, earlier, cutoff);
    }
  }

  /** What the table should hold for one key after a job. */
  lemma {:induction false} FullGroupAfter(cfg: Config, all: seq<Sample>, runs: seq<JobRun>, now: int, k: Key)
    requires (forall i :: 0 <= i < |runs| ==> runs[i].seen <= |all|) && (runs != [] ==> runs[|runs| - 1].now <= now)
    ensures FullGroup(cfg, all, runs + [JobRun(now, |all|)], k) ==
            if cfg.trendRetention > 0 && k.1 < Cutoff(now, cfg.trendRetention) then []
            else if Covers(now, cfg.lookback, k.1) then Group(all, k.0, k.1)
            else FullGroup(cfg, all, runs, k)
  {
    var after := runs + [JobRun(now, |all|)];
    assert after[..|after| - 1] == runs && after[|after| - 1].now == now;
    assert all[..|all|] == all;
  }

  /** A job's row: gone when its trend retention is over, re-aggregated when covered, else as before. */
  lemma {:induction false} MaintainedAt(cfg: Config, samples: seq<Sample>, trends: map<Key, Trend>, now: int, k: Key, full: seq<real>)
    requires RowExact(trends, k, full)
    requires Covers(now, cfg.lookback, k.1) && Group(samples, k.0, k.1) == [] ==> full == []
    ensures RowExact(Maintained(cfg, samples, trends, now).1, k,
                     if cfg.trendRetention > 0 && k.1 < Cutoff(now, cfg.trendRetention) then []
                     else if Covers(now, cfg.lookback, k.1) then Group(samples, k.0, k.1)
                     else full)
  {
    RollupAt(samples, trends, now, cfg.lookback, k);
  }

  lemma {:induction false} EmptyPrefixes(samples: seq<Sample>, k: Key)
    requires Group(samples, k.0, k.1) == []
    ensures forall n :: 0 <= n <= |samples| ==> Group(samples[..n], k.0, k.1) == []
  {
    if samples != [] {
      var init := samples[..|samples| - 1];
      EmptyPrefixes(init, k);
      forall n | 0 <= n <= |samples| ensures Group(samples[..n], k.0, k.1) == [] {
        if n < |samples| { assert samples[..n] == init[..n]; } else { assert samples[..n] == samples; }
      }
    }
  }

  lemma {:induction false} MaintainRow(cfg: Config, st: State, now: int, k: Key)
    requires Safe(cfg) && Exact(cfg, st) && Complete(cfg, st) && SeenInRange(st) && NotBeforeLastRun(st, now)
    ensures var after := Next(cfg, st, Maintain(now)); RowExact(after.trends, k, FullGroup(cfg, after.all, after.runs, k))
  {
    var full := FullGroup(cfg, st.all, st.runs, k);
    FullGroupAfter(cfg, st.all, st.runs, now, k);
    assert RowExact(st.trends, k, full);
    if Covers(now, cfg.lookback, k.1) && (cfg.trendRetention <= 0 || k.1 >= Cutoff(now, cfg.trendRetention)) {
      CompleteGroup(cfg, st, now, k);
      if Group(st.all, k.0, k.1) == [] { EmptyPrefixes(st.all, k); }
      MaintainedAt(cfg, st.samples, st.trends, now, k, full);
    } else if cfg.trendRetention > 0 && k.1 < Cutoff(now, cfg.trendRetention) {
      assert k !in Next(cfg, st, Maintain(now)).trends;
    } else {
      MaintainedAt(cfg, st.samples, st.trends, now, k, full);
    }
  }

  lemma MaintainKeeps(cfg: Config, st: State, now: int)
    requires Safe(cfg) && Exact(cfg, st) && Complete(cfg, st) && SeenInRange(st) && NotBeforeLastRun(st, now)
    ensures var after := Next(cfg, st, Maintain(now)); Exact(cfg, after) && Complete(cfg, after) && SeenInRange(after)
  {
    var after := Next(cfg, st, Maintain(now));
    forall k: Key ensures RowExact(after.trends, k, FullGroup(cfg, after.all, after.runs, k)) {
      MaintainRow(cfg, st, now, k);
    }
    if cfg.retention > 0 { PruneKeepsComplete(cfg, st, now); }
  }

  /** The last run is the last maintenance event. */
  lemma {:induction false} LastRunTime(cfg: Config, events: seq<Event>, now: int)
    requires forall i :: 0 <= i < |events| && events[i].Maintain? ==> events[i].now <= now
    ensures NotBeforeLastRun(Run(cfg, events), now)
  {
    if events != [] { LastRunTime(cfg, events[..|events| - 1], now); }
  }

  lemma {:induction false} SafeRunsAreExact(cfg: Config, events: seq<Event>)
    requires Safe(cfg) && Ordered(events)
    ensures var st := Run(cfg, events); Exact(cfg, st) && Complete(cfg, st) && SeenInRange(st)
  {
    if events != [] {
      var init, e := events[..|events| - 1], events[|events| - 1];
      SafeRunsAreExact(cfg, init);
      match e
      case Ingest(s) => IngestKeeps(cfg, Run(cfg, init), s);
      case Maintain(now) =>
        forall i | 0 <= i < |init| && init[i].Maintain? ensures init[i].now <= now { assert events[i] == init[i]; }
        LastRunTime(cfg, init, now);
        MaintainKeeps(cfg, Run(cfg, init), now);
    }
  }

  // ---- The condition is exact ----

  lemma HourFloorOf(hour: int, offset: int)
    requires 0 <= offset < HOUR
    ensures HourFloor(hour * HOUR + offset) == hour * HOUR
  {
    assert (hour * HOUR + offset) % HOUR == offset;
  }

  // The two job runs of the losing schedule, in one hour.
  const FIRST_RUN := 30 * MINUTE
  const SECOND_RUN := 50 * MINUTE

  /** The hour the retention cutoff of both runs falls into. */
  function LosingBucket(cfg: Config): int { -cfg.retention * DAY }

  function EarlySample(cfg: Config): Sample { Sample(0, Some(1.0), LosingBucket(cfg) + 10 * MINUTE) }

  function LateSample(cfg: Config): Sample { Sample(0, Some(2.0), LosingBucket(cfg) + 40 * MINUTE) }

  /** A schedule on which an unsafe configuration loses a sample from a trend row: two samples in
      that hour, one on each side of the first run's cutoff, and two job runs. */
  function LosingSchedule(cfg: Config): seq<Event> {
    [Ingest(EarlySample(cfg)), Ingest(LateSample(cfg)), Maintain(FIRST_RUN), Maintain(SECOND_RUN)]
  }

  /** An hour still covered at `now`, whose row the trend prune keeps. */
  predicate Rewritten(cfg: Config, now: int, hour: int) {
    Covers(now, cfg.lookback, hour) && (cfg.trendRetention <= 0 || hour >= Cutoff(now, cfg.trendRetention))
  }

  lemma {:induction false} LosingHour(cfg: Config, now: int)
    requires !Safe(cfg) && 0 <= now < HOUR
    ensures Rewritten(cfg, now, LosingBucket(cfg))
  {
    HourFloorOf(0, now);
    assert LosingBucket(cfg) == (-24 * cfg.retention) * HOUR;
    assert 24 * cfg.retention * HOUR <= cfg.lookback * HOUR;
    if cfg.trendRetention > 0 {
      assert (cfg.retention + 1) * DAY <= cfg.trendRetention * DAY;
    }
  }

  lemma {:induction false} LosingSamples(cfg: Config)
    ensures HourFloor(EarlySample(cfg).at) == HourFloor(LateSample(cfg).at) == LosingBucket(cfg)
    ensures EarlySample(cfg).at < Cutoff(FIRST_RUN, cfg.retention) <= LateSample(cfg).at
  {
    assert LosingBucket(cfg) == (-24 * cfg.retention) * HOUR;
    HourFloorOf(-24 * cfg.retention, 10 * MINUTE);
    HourFloorOf(-24 * cfg.retention, 40 * MINUTE);
  }

  lemma RunOfFour(cfg: Config, a: Event, b: Event, c: Event, d: Event)
    ensures Run(cfg, [a, b, c, d]) == Next(cfg, Next(cfg, Next(cfg, Next(cfg, INITIAL, a), b), c), d)
  {
    assert [a][..0] == [] && [a, b][..1] == [a] && [a, b, c][..2] == [a, b] && [a, b, c, d][..3] == [a, b, c];
    assert Run(cfg, [a]) == Next(cfg, INITIAL, a);
    assert Run(cfg, [a, b]) == Next(cfg, Run(cfg, [a]), b);
    assert Run(cfg, [a, b, c]) == Next(cfg, Run(cfg, [a, b]), c);
  }

  lemma IngestTwo(cfg: Config, early: Sample, late: Sample)
    ensures Next(cfg, Next(cfg, INITIAL, Ingest(early)), Ingest(late)) == State([early, late], map[], [early, late], [])
  {
  }

  lemma PairGroups(early: Sample, late: Sample, item: Id, hour: int, cutoff: int)
    requires early.item == late.item == item && early.value.Some? && late.value.Some?
    requires HourFloor(early.at) == hour && HourFloor(late.at) == hour && early.at < cutoff <= late.at
    ensures Since([early, late], cutoff) == [late]
    ensures |Group([early, late], item, hour)| == 2 && |Group([late], item, hour)| == 1
  {
    assert [early, late][..1] == [early] && [early][..0] == [] && [late][..0] == [];
    assert Since([early], cutoff) == [];
    assert Group([early], item, hour) == [early.value.value];
  }

  lemma JobPrunes(cfg: Config, st: State, now: int)
    requires cfg.retention > 0
    ensures var after := Next(cfg, st, Maintain(now));
            && after.samples == Since(st.samples, Cutoff(now, cfg.retention))
            && after.all == st.all && after.runs == st.runs + [JobRun(now, |st.all|)]
  {
  }

  lemma LosesSample(cfg: Config, st: State, now: int, k: Key)
    requires SeenInRange(st) && NotBeforeLastRun(st, now) && Rewritten(cfg, now, k.1)
    requires 0 < |Group(st.samples, k.0, k.1)| < |Group(st.all, k.0, k.1)|
    ensures !Exact(cfg, Next(cfg, st, Maintain(now)))
  {
    FullGroupAfter(cfg, st.all, st.runs, now, k);
    RollupAt(st.samples, st.trends, now, cfg.lookback, k);
    var after := Next(cfg, st, Maintain(now));
    assert !RowExact(after.trends, k, FullGroup(cfg, after.all, after.runs, k));
  }

  /** After two samples and one job, the hour's early sample is gone while the hour is still covered. */
  lemma HalfPruned(cfg: Config, early: Sample, late: Sample, first: int, second: int, hour: int)
    requires cfg.retention > 0 && first <= second && Rewritten(cfg, second, hour)
    requires early.item == late.item == 0 && early.value.Some? && late.value.Some?
    requires HourFloor(early.at) == hour && HourFloor(late.at) == hour
    requires early.at < Cutoff(first, cfg.retention) <= late.at
    ensures var ingested := State([early, late], map[], [early, late], []);
            !Exact(cfg, Next(cfg, Next(cfg, ingested, Maintain(first)), Maintain(second)))
  {
    var ingested := State([early, late], map[], [early, late], []);
    PairGroups(early, late, 0, hour, Cutoff(first, cfg.retention));
    JobPrunes(cfg, ingested, first);
    LosesSample(cfg, Next(cfg, ingested, Maintain(first)), second, (0, hour));
  }

  lemma LosingStates(cfg: Config)
    requires !Safe(cfg)
    ensures var st := Next(cfg, Next(cfg, INITIAL, Ingest(EarlySample(cfg))), Ingest(LateSample(cfg)));
            !Exact(cfg, Next(cfg, Next(cfg, st, Maintain(FIRST_RUN)), Maintain(SECOND_RUN)))
  {
    LosingHour(cfg, SECOND_RUN);
    LosingSamples(cfg);
    IngestTwo(cfg, EarlySample(cfg), LateSample(cfg));
    HalfPruned(cfg, EarlySample(cfg), LateSample(cfg), FIRST_RUN, SECOND_RUN, LosingBucket(cfg));
  }

  lemma LosingOrdered(cfg: Config)
    ensures Ordered(LosingSchedule(cfg))
  {
  }

  lemma InexactRun(cfg: Config, a: Event, b: Event, c: Event, d: Event)
    requires !Exact(cfg, Next(cfg, Next(cfg, Next(cfg, Next(cfg, INITIAL, a), b), c), d))
    ensures !Exact(cfg, Run(cfg, [a, b, c, d]))
  {
    RunOfFour(cfg, a, b, c, d);
  }

  lemma LosingRunIsInexact(cfg: Config)
    requires !Safe(cfg)
    ensures Ordered(LosingSchedule(cfg)) && !Exact(cfg, Run(cfg, LosingSchedule(cfg)))
  {
    LosingOrdered(cfg);
    LosingStates(cfg);
    InexactRun(cfg, Ingest(EarlySample(cfg)), Ingest(LateSample(cfg)), Maintain(FIRST_RUN), Maintain(SECOND_RUN));
  }

  /** Over every schedule with non-decreasing job times the trend table is exactly the rollup of
      the unpruned history, if and only if the configuration is safe. Settings do not enforce it. */
  lemma ExactIffSafe(cfg: Config)
    ensures (forall events :: Ordered(events) ==> Exact(cfg, Run(cfg, events))) <==> Safe(cfg)
  {
    if Safe(cfg) {
      forall events | Ordered(events) ensures Exact(cfg, Run(cfg, events)) {
        SafeRunsAreExact(cfg, events);
      }
    } else {
      LosingRunIsInexact(cfg);
    }
  }

  // ---- Coverage ----

  ghost predicate InOrder(runs: seq<JobRun>) {
    forall i, j :: 0 <= i < j < |runs| ==> runs[i].now <= runs[j].now
  }

  /** The hours two consecutive runs fall in are at most the lookback apart. */
  ghost predicate Frequent(runs: seq<JobRun>, lookback: int) {
    forall i :: 0 < i < |runs| ==> HourFloor(runs[i].now) <= HourFloor(runs[i - 1].now) + lookback * HOUR
  }

  lemma HourFloorMonotone(a: int, b: int)
    requires a <= b
    ensures HourFloor(a) <= HourFloor(b)
  {
    HourFloorBounds(a);
    WholeHours(b, HourFloor(a));
  }

  /** No complete hour between the first window and the last run is skipped. */
  lemma {:induction false} Coverage(runs: seq<JobRun>, lookback: int, bucket: int)
    requires runs != [] && lookback > 0 && Frequent(runs, lookback)
    requires WindowStart(runs[0].now, lookback) <= bucket < HourFloor(runs[|runs| - 1].now)
    ensures LastCover(runs, lookback, bucket).Some?
  {
    var init, last := runs[..|runs| - 1], runs[|runs| - 1];
    if !Covers(last.now, lookback, bucket) {
      assert bucket < WindowStart(last.now, lookback);
      assert init != [] && runs[|runs| - 2] == init[|init| - 1];
      Coverage(init, lookback, bucket);
    }
  }

  lemma {:induction false} NeverCovered(runs: seq<JobRun>, lookback: int, bucket: int)
    requires forall i :: 0 <= i < |runs| ==> !Covers(runs[i].now, lookback, bucket)
    ensures LastCover(runs, lookback, bucket).None?
  {
    if runs != [] { NeverCovered(runs[..|runs| - 1], lookback, bucket); }
  }

  ghost predicate Covered(runs: seq<JobRun>, lookback: int, bucket: int)
    requires runs != []
  {
    OnTheHour(bucket) && WindowStart(runs[0].now, lookback) <= bucket < HourFloor(runs[|runs| - 1].now)
    ==> LastCover(runs, lookback, bucket).Some?
  }

  lemma {:induction false} FrequentCovers(runs: seq<JobRun>, lookback: int, bucket: int)
    requires runs != [] && lookback > 0 && Frequent(runs, lookback)
    ensures Covered(runs, lookback, bucket)
  {
    if WindowStart(runs[0].now, lookback) <= bucket < HourFloor(runs[|runs| - 1].now) {
      Coverage(runs, lookback, bucket);
    }
  }

  /** After a gap wider than the lookback, the hour the earlier run fell in is never rolled up. */
  lemma GapUncovered(runs: seq<JobRun>, lookback: int, i: int)
    requires lookback > 0 && InOrder(runs) && 0 < i < |runs|
    requires HourFloor(runs[i].now) > HourFloor(runs[i - 1].now) + lookback * HOUR
    ensures !Covered(runs, lookback, HourFloor(runs[i - 1].now))
  {
    var bucket := HourFloor(runs[i - 1].now);
    forall j | 0 <= j < |runs| ensures !Covers(runs[j].now, lookback, bucket) {
      if j < i { HourFloorMonotone(runs[j].now, runs[i - 1].now); } else { HourFloorMonotone(runs[i].now, runs[j].now); }
    }
    NeverCovered(runs, lookback, bucket);
    HourFloorBounds(runs[i - 1].now);
    HourFloorMonotone(runs[0].now, runs[i - 1].now);
    HourFloorMonotone(runs[i].now, runs[|runs| - 1].now);
  }

  /** Every complete hour between the first window and the last run is rolled up, exactly when no
      two consecutive runs are further apart than the lookback. */
  lemma {:induction false} CoverageIff(runs: seq<JobRun>, lookback: int)
    requires runs != [] && lookback > 0 && InOrder(runs)
    ensures (forall bucket :: Covered(runs, lookback, bucket)) <==> Frequent(runs, lookback)
  {
    if Frequent(runs, lookback) {
      forall bucket ensures Covered(runs, lookback, bucket) {
        FrequentCovers(runs, lookback, bucket);
      }
    } else {
      var i :| 0 < i < |runs| && HourFloor(runs[i].now) > HourFloor(runs[i - 1].now) + lookback * HOUR;
      GapUncovered(runs, lookback, i);
    }
  }

  // ---- Conservation ----

  function KeyOf(s: Sample): Key { (s.item, HourFloor(s.at)) }

  /** Sample `i` is numeric, arrived before its hour's last covering run, and its row is retained. */
  predicate Counted(cfg: Config, st: State, i: int)
    requires 0 <= i < |st.all|
  {
    var s := st.all[i];
    var cover := LastCover(st.runs, cfg.lookback, HourFloor(s.at));
    s.value.Some? && cover.Some? && i < cover.value && Kept(cfg, st.runs, HourFloor(s.at))
  }

  function CountedUnder(cfg: Config, st: State, keys: set<Key>): set<int> {
    set i | 0 <= i < |st.all| && Counted(cfg, st, i) && KeyOf(st.all[i]) in keys
  }

  ghost function TotalCount(trends: map<Key, Trend>): nat {
    if trends == map[] then 0
    else var k :| k in trends; trends[k].count + TotalCount(trends - {k})
  }

  /** The first `n` samples of a group, by position. */
  function Members(samples: seq<Sample>, k: Key, n: nat): set<int>
    requires n <= |samples|
  {
    set i | 0 <= i < n && samples[i].value.Some? && KeyOf(samples[i]) == k
  }

  lemma LastMember(samples: seq<Sample>, k: Key, n: nat)
    requires 0 < n <= |samples|
    ensures var s, before := samples[n - 1], Members(samples, k, n - 1);
            && n - 1 !in before
            && Members(samples, k, n) == if s.value.Some? && KeyOf(s) == k then before + {n - 1} else before
  {
  }

  lemma {:induction false} GroupSize(samples: seq<Sample>, k: Key, n: nat)
    requires n <= |samples|
    ensures |Group(samples[..n], k.0, k.1)| == |Members(samples, k, n)|
  {
    if n == 0 {
      assert Members(samples, k, n) == {};
    } else {
      GroupSize(samples, k, n - 1);
      assert samples[..n] == samples[..n - 1] + [samples[n - 1]];
      GroupAppend(samples[..n - 1], samples[n - 1], k.0, k.1);
      LastMember(samples, k, n);
    }
  }

  lemma RowCount(cfg: Config, st: State, k: Key)
    requires Exact(cfg, st) && k in st.trends && SeenInRange(st)
    ensures st.trends[k].count == |CountedUnder(cfg, st, {k})|
  {
    assert RowExact(st.trends, k, FullGroup(cfg, st.all, st.runs, k));
    var n := LastCover(st.runs, cfg.lookback, k.1).value;
    GroupSize(st.all, k, n);
    assert Members(st.all, k, n) == CountedUnder(cfg, st, {k});
  }

  lemma {:induction false} TotalIsCounted(cfg: Config, st: State, rows: map<Key, Trend>)
    requires forall k :: k in rows ==> rows[k].count == |CountedUnder(cfg, st, {k})|
    ensures TotalCount(rows) == |CountedUnder(cfg, st, rows.Keys)|
    decreases |rows|
  {
    if rows == map[] {
      assert CountedUnder(cfg, st, rows.Keys) == {};
    } else {
      var k :| k in rows && TotalCount(rows) == rows[k].count + TotalCount(rows - {k});
      var rest := rows - {k};
      assert rest.Keys == rows.Keys - {k};
      assert |rest.Keys| < |rows.Keys|;
      TotalIsCounted(cfg, st, rest);
      assert CountedUnder(cfg, st, rows.Keys) == CountedUnder(cfg, st, {k}) + CountedUnder(cfg, st, rest.Keys);
      assert CountedUnder(cfg, st, {k}) !! CountedUnder(cfg, st, rest.Keys);
    }
  }

  lemma {:induction false} MemberOfGroup(samples: seq<Sample>, i: nat)
    requires i < |samples| && samples[i].value.Some?
    ensures Group(samples, samples[i].item, HourFloor(samples[i].at)) != []
  {
    if i < |samples| - 1 {
      assert samples[..|samples| - 1][i] == samples[i];
      MemberOfGroup(samples[..|samples| - 1], i);
    }
  }

  /** The sample counts of the trend rows add up to the number of numeric samples that arrived
      before their hour was last rolled up, long after the raw samples are deleted. */
  lemma Conservation(cfg: Config, events: seq<Event>)
    requires Safe(cfg) && Ordered(events)
    ensures var st := Run(cfg, events);
            TotalCount(st.trends) == |set i | 0 <= i < |st.all| && Counted(cfg, st, i)|
  {
    var st := Run(cfg, events);
    SafeRunsAreExact(cfg, events);
    forall k | k in st.trends ensures st.trends[k].count == |CountedUnder(cfg, st, {k})| {
      RowCount(cfg, st, k);
    }
    TotalIsCounted(cfg, st, st.trends);
    forall i | 0 <= i < |st.all| && Counted(cfg, st, i) ensures KeyOf(st.all[i]) in st.trends {
      var k := KeyOf(st.all[i]);
      var n := LastCover(st.runs, cfg.lookback, k.1).value;
      LastCoverInRange(st.runs, cfg.lookback, k.1, |st.all|);
      assert st.all[..n][i] == st.all[i];
      MemberOfGroup(st.all[..n], i);
      assert RowExact(st.trends, k, FullGroup(cfg, st.all, st.runs, k));
    }
    assert CountedUnder(cfg, st, st.trends.Keys) == set i | 0 <= i < |st.all| && Counted(cfg, st, i);
  }
}
