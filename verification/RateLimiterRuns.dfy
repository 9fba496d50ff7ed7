/** Runs of the rate limiter under a non-decreasing clock, one fixed window and one fixed
    positive limit per key. */
module RateLimiterRuns {
  import opened Common
  import opened RateLimiter

  datatype Request = Request(key: string, at: int)

  /** The limiter, with the log of the hits it recorded, of the requests it allowed and of the
      requests on whose call it swept. */
  datatype Trace = Trace(limiter: Limiter, recorded: seq<Request>, allowed: seq<Request>, sweeps: seq<Request>)

  const INITIAL := Trace(Limiter(map[], 0), [], [], [])

  /** An allowed hit is recorded when the dictionary still holds its bucket. */
  function Next(tr: Trace, limits: string -> int, window: int, r: Request): Trace {
    var (limiter, allowed) := Call(tr.limiter, r.key, limits(r.key), window, r.at);
    Trace(limiter,
          if allowed && r.key in limiter.buckets then tr.recorded + [r] else tr.recorded,
          if allowed then tr.allowed + [r] else tr.allowed,
          if limiter.calls % SWEEP_EVERY == 0 then tr.sweeps + [r] else tr.sweeps)
  }

  function Run(limits: string -> int, window: int, requests: seq<Request>): Trace {
    if requests == [] then INITIAL
    else Next(Run(limits, window, requests[..|requests| - 1]), limits, window, requests[|requests| - 1])
  }

  ghost predicate Timely(requests: seq<Request>) {
    forall i, j :: 0 <= i < j < |requests| ==> requests[i].at <= requests[j].at
  }

  // ---- Logs ----

  /** The instants of a key's entries in a log. */
  function Of(log: seq<Request>, key: string): seq<int> {
    if log == [] then []
    else
      var r := log[|log| - 1];
      Of(log[..|log| - 1], key) + if r.key == key then [r.at] else []
  }

  /** The instants in [from, to]. */
  function Within(instants: seq<int>, from: int, to: int): seq<int> {
    if instants == [] then []
    else
      var t := instants[|instants| - 1];
      Within(instants[..|instants| - 1], from, to) + if from <= t <= to then [t] else []
  }

  lemma OfAppend(log: seq<Request>, r: Request, key: string)
    ensures Of(log + [r], key) == Of(log, key) + if r.key == key then [r.at] else []
  {
    assert (log + [r])[..|log|] == log;
  }

  lemma WithinAppend(instants: seq<int>, t: int, from: int, to: int)
    ensures Within(instants + [t], from, to) == Within(instants, from, to) + if from <= t <= to then [t] else []
  {
    assert (instants + [t])[..|instants|] == instants;
  }

  predicate Sorted(instants: seq<int>) {
    forall i, j :: 0 <= i < j < |instants| ==> instants[i] <= instants[j]
  }

  predicate UpTo(instants: seq<int>, now: int) {
    forall i :: 0 <= i < |instants| ==> instants[i] <= now
  }

  lemma {:induction false} WithinAll(instants: seq<int>, from: int, to: int)
    requires forall i :: 0 <= i < |instants| ==> from <= instants[i] <= to
    ensures Within(instants, from, to) == instants
  {
    if instants != [] { WithinAll(instants[..|instants| - 1], from, to); }
  }

  lemma {:induction false} WithinWithin(instants: seq<int>, from: int, later: int, to: int)
    requires from <= later
    ensures Within(Within(instants, from, to), later, to) == Within(instants, later, to)
  {
    if instants != [] {
      var init, t := instants[..|instants| - 1], instants[|instants| - 1];
      WithinWithin(init, from, later, to);
      if from <= t <= to {
        WithinAppend(Within(init, from, to), t, later, to);
      } else {
        assert Within(init, from, to) + [] == Within(init, from, to);
      }
    }
  }

  lemma {:induction false} WithinShrinks(instants: seq<int>, from: int, later: int, to: int, now: int)
    requires from <= later && UpTo(instants, now) && now <= to
    ensures |Within(instants, later, to)| <= |Within(instants, from, now)|
  {
    if instants != [] { WithinShrinks(instants[..|instants| - 1], from, later, to, now); }
  }

  lemma {:induction false} WithinDropsFirst(instants: seq<int>, from: int, to: int)
    requires instants != [] && instants[0] < from
    ensures Within(instants, from, to) == Within(instants[1..], from, to)
  {
    if |instants| > 1 {
      WithinDropsFirst(instants[..|instants| - 1], from, to);
      assert instants[1..][..|instants| - 2] == instants[..|instants| - 1][1..];
    } else {
      assert instants[..0] == [] && instants[1..] == [];
    }
  }

  /** Draining a sorted bucket keeps the hits that have not expired. */
  lemma {:induction false} DrainedIsWithin(bucket: seq<int>, cutoff: int, now: int)
    requires Sorted(bucket) && UpTo(bucket, now)
    ensures Drained(bucket, cutoff) == Within(bucket, cutoff, now)
  {
    if bucket != [] {
      if bucket[0] >= cutoff {
        WithinAll(bucket, cutoff, now);
      } else {
        DrainedIsWithin(bucket[1..], cutoff, now);
        WithinDropsFirst(bucket, cutoff, now);
      }
    }
  }

  lemma {:induction false} WithinUpTo(instants: seq<int>, from: int, to: int, now: int)
    requires UpTo(instants, now)
    ensures UpTo(Within(instants, from, to), now)
    ensures forall i :: 0 <= i < |Within(instants, from, to)| ==> from <= Within(instants, from, to)[i] <= to
  {
    if instants != [] { WithinUpTo(instants[..|instants| - 1], from, to, now); }
  }

  lemma {:induction false} WithinSorted(instants: seq<int>, from: int, to: int)
    requires Sorted(instants)
    ensures Sorted(Within(instants, from, to))
  {
    if instants != [] {
      var init := instants[..|instants| - 1];
      WithinSorted(init, from, to);
      WithinUpTo(init, from, to, instants[|instants| - 1]);
    }
  }

  // ---- The representation ----

  ghost predicate Agrees(tr: Trace, key: string, window: int, now: int) {
    var bucket, history := BucketOf(tr.limiter, key), Of(tr.recorded, key);
    && Sorted(history) && UpTo(history, now)
    && Within(bucket, now - window, now) == Within(history, now - window, now)
  }

  /** Stored buckets are non-empty, sorted and within the limit. A key's bucket and its full
      recorded history agree on everything that has not expired. */
  ghost predicate Represents(tr: Trace, limits: string -> int, window: int, now: int) {
    && (forall k :: k in tr.limiter.buckets ==>
          tr.limiter.buckets[k] != [] && Sorted(tr.limiter.buckets[k]) && UpTo(tr.limiter.buckets[k], now)
          && |tr.limiter.buckets[k]| <= limits(k))
    && (forall k :: Agrees(tr, k, window, now))
  }

  lemma {:induction false} LaterWithin(instants: seq<int>, from: int, now: int, later: int)
    requires UpTo(instants, now) && now <= later
    ensures Within(instants, from, later) == Within(instants, from, now)
  {
    if instants != [] { LaterWithin(instants[..|instants| - 1], from, now, later); }
  }

  lemma StoredBucket(tr: Trace, limits: string -> int, window: int, now: int, key: string)
    requires Represents(tr, limits, window, now)
    ensures Sorted(BucketOf(tr.limiter, key)) && UpTo(BucketOf(tr.limiter, key), now)
    ensures limits(key) > 0 ==> |BucketOf(tr.limiter, key)| <= limits(key)
  {
  }

  lemma LiveLater(instants: seq<int>, window: int, now: int, later: int)
    requires UpTo(instants, now) && now <= later
    ensures Within(Within(instants, now - window, now), later - window, later) == Within(instants, later - window, later)
  {
    WithinUpTo(instants, now - window, now, now);
    WithinWithin(instants, now - window, later - window, now);
    LaterWithin(instants, later - window, now, later);
    LaterWithin(Within(instants, now - window, now), later - window, now, later);
  }

  /** Time passing keeps the agreement. */
  lemma AgreesLater(tr: Trace, limits: string -> int, window: int, now: int, later: int, key: string)
    requires Represents(tr, limits, window, now) && now <= later
    ensures Agrees(tr, key, window, later) && Sorted(BucketOf(tr.limiter, key)) && UpTo(BucketOf(tr.limiter, key), later)
  {
    assert Agrees(tr, key, window, now);
    StoredBucket(tr, limits, window, now, key);
    LiveLater(BucketOf(tr.limiter, key), window, now, later);
    LiveLater(Of(tr.recorded, key), window, now, later);
  }

  lemma DrainedLater(tr: Trace, limits: string -> int, window: int, now: int, later: int, key: string)
    requires Represents(tr, limits, window, now) && now <= later
    ensures Drained(BucketOf(tr.limiter, key), later - window) == Within(Of(tr.recorded, key), later - window, later)
  {
    AgreesLater(tr, limits, window, now, later, key);
    DrainedIsWithin(BucketOf(tr.limiter, key), later - window, later);
  }

  /** What one call does when no stored bucket is empty and `live` is what is left of the key's:
      the sweep can only remove the current key's bucket. */
  ghost predicate Effect(limiter: Limiter, key: string, limit: int, now: int, live: seq<int>, after: Limiter,
                         allowed: bool) {
    var swept := after.calls % SWEEP_EVERY == 0 && live == [];
    && after.calls == limiter.calls + 1
    && (allowed <==> |live| < limit)
    && (key in after.buckets <==> !swept)
    && (!swept ==> after.buckets[key] == if allowed then live + [now] else live)
    && (forall k :: k != key ==> (k in after.buckets <==> k in limiter.buckets) && BucketOf(after, k) == BucketOf(limiter, k))
  }

  lemma CallEffect(limiter: Limiter, key: string, limit: int, window: int, now: int)
    requires limit > 0 && forall k :: k in limiter.buckets ==> limiter.buckets[k] != []
    ensures var (after, allowed) := Call(limiter, key, limit, window, now);
            Effect(limiter, key, limit, now, Drained(BucketOf(limiter, key), now - window), after, allowed)
  {
  }

  /** The answer, and what is stored afterwards, in terms of the key's full recorded history. */
  lemma CallAnswer(tr: Trace, limits: string -> int, window: int, now: int, r: Request)
    requires Represents(tr, limits, window, now) && now <= r.at && limits(r.key) > 0
    ensures var (after, allowed) := Call(tr.limiter, r.key, limits(r.key), window, r.at);
            Effect(tr.limiter, r.key, limits(r.key), r.at, Within(Of(tr.recorded, r.key), r.at - window, r.at), after, allowed)
  {
    DrainedLater(tr, limits, window, now, r.at, r.key);
    CallEffect(tr.limiter, r.key, limits(r.key), window, r.at);
  }

  /** Whether a request's hit is recorded: it is allowed and its bucket was not swept away. */
  predicate IsRecorded(tr: Trace, limits: string -> int, window: int, r: Request) {
    var (after, allowed) := Call(tr.limiter, r.key, limits(r.key), window, r.at);
    allowed && r.key in after.buckets
  }

  lemma DrainedNoLonger(bucket: seq<int>, cutoff: int)
    ensures |Drained(bucket, cutoff)| <= |bucket|
  {
  }

  /** The key's bucket becomes its live hits, plus the new one exactly when the log gets it too. */
  lemma NextBucket(tr: Trace, limits: string -> int, window: int, now: int, r: Request)
    requires Represents(tr, limits, window, now) && now <= r.at && limits(r.key) > 0
    ensures var after := Next(tr, limits, window, r);
            var live := Within(Of(tr.recorded, r.key), r.at - window, r.at);
            var added := if IsRecorded(tr, limits, window, r) then [r.at] else [];
            && BucketOf(after.limiter, r.key) == live + added
            && Of(after.recorded, r.key) == Of(tr.recorded, r.key) + added
            && |live + added| <= limits(r.key)
  {
    CallAnswer(tr, limits, window, now, r);
    OfAppend(tr.recorded, r, r.key);
    var live := Within(Of(tr.recorded, r.key), r.at - window, r.at);
    assert live + [] == live && Of(tr.recorded, r.key) + [] == Of(tr.recorded, r.key);
    DrainedLater(tr, limits, window, now, r.at, r.key);
    DrainedNoLonger(BucketOf(tr.limiter, r.key), r.at - window);
  }

  lemma OtherBucket(tr: Trace, limits: string -> int, window: int, now: int, r: Request, key: string)
    requires Represents(tr, limits, window, now) && now <= r.at && limits(r.key) > 0 && key != r.key
    ensures var after := Next(tr, limits, window, r);
            && BucketOf(after.limiter, key) == BucketOf(tr.limiter, key)
            && (key in after.limiter.buckets <==> key in tr.limiter.buckets)
            && Of(after.recorded, key) == Of(tr.recorded, key)
  {
    CallAnswer(tr, limits, window, now, r);
    OfAppend(tr.recorded, r, key);
    assert Of(tr.recorded, key) + [] == Of(tr.recorded, key);
  }

  /** Agreement of a bucket with a history, apart from any trace. */
  ghost predicate Matches(bucket: seq<int>, history: seq<int>, window: int, now: int) {
    && Sorted(history) && UpTo(history, now) && Sorted(bucket) && UpTo(bucket, now)
    && Within(bucket, now - window, now) == Within(history, now - window, now)
  }

  lemma LiveMatches(history: seq<int>, window: int, now: int)
    requires Sorted(history) && UpTo(history, now)
    ensures Matches(Within(history, now - window, now), history, window, now)
  {
    WithinSorted(history, now - window, now);
    WithinUpTo(history, now - window, now, now);
    WithinAll(Within(history, now - window, now), now - window, now);
  }

  lemma SortedAppend(instants: seq<int>, now: int)
    requires Sorted(instants) && UpTo(instants, now)
    ensures Sorted(instants + [now]) && UpTo(instants + [now], now)
  {
  }

  lemma WithinHit(instants: seq<int>, window: int, now: int)
    ensures Within(instants + [now], now - window, now)
         == Within(instants, now - window, now) + if window >= 0 then [now] else []
  {
    WithinAppend(instants, now, now - window, now);
  }

  lemma HitMatches(bucket: seq<int>, history: seq<int>, window: int, now: int)
    requires Matches(bucket, history, window, now)
    ensures Matches(bucket + [now], history + [now], window, now)
  {
    SortedAppend(bucket, now);
    SortedAppend(history, now);
    WithinHit(bucket, window, now);
    WithinHit(history, window, now);
  }

  lemma AddedMatches(history: seq<int>, added: bool, window: int, now: int)
    requires Sorted(history) && UpTo(history, now)
    ensures var hit := if added then [now] else [];
            Matches(Within(history, now - window, now) + hit, history + hit, window, now)
  {
    var live := Within(history, now - window, now);
    LiveMatches(history, window, now);
    if added {
      HitMatches(live, history, window, now);
    } else {
      assert live + [] == live && history + [] == history;
    }
  }

  lemma OwnMatches(tr: Trace, limits: string -> int, window: int, now: int, r: Request)
    requires Represents(tr, limits, window, now) && now <= r.at && limits(r.key) > 0
    ensures var after := Next(tr, limits, window, r);
            Matches(BucketOf(after.limiter, r.key), Of(after.recorded, r.key), window, r.at)
  {
    assert Agrees(tr, r.key, window, now);
    NextBucket(tr, limits, window, now, r);
    AddedMatches(Of(tr.recorded, r.key), IsRecorded(tr, limits, window, r), window, r.at);
  }

  lemma OtherMatches(tr: Trace, limits: string -> int, window: int, now: int, r: Request, key: string)
    requires Represents(tr, limits, window, now) && now <= r.at && limits(r.key) > 0 && key != r.key
    ensures var after := Next(tr, limits, window, r);
            Matches(BucketOf(after.limiter, key), Of(after.recorded, key), window, r.at)
  {
    AgreesLater(tr, limits, window, now, r.at, key);
    OtherBucket(tr, limits, window, now, r, key);
  }

  lemma AgreesAfter(tr: Trace, limits: string -> int, window: int, now: int, r: Request, key: string)
    requires Represents(tr, limits, window, now) && now <= r.at && limits(r.key) > 0
    ensures var after := Next(tr, limits, window, r);
            Matches(BucketOf(after.limiter, key), Of(after.recorded, key), window, r.at)
  {
    if key == r.key {
      OwnMatches(tr, limits, window, now, r);
    } else {
      OtherMatches(tr, limits, window, now, r, key);
    }
  }

  lemma BucketAfter(tr: Trace, limits: string -> int, window: int, now: int, r: Request, key: string)
    requires Represents(tr, limits, window, now) && now <= r.at && limits(r.key) > 0
    requires key in Next(tr, limits, window, r).limiter.buckets
    ensures var b := Next(tr, limits, window, r).limiter.buckets[key];
            b != [] && Sorted(b) && UpTo(b, r.at) && |b| <= limits(key)
  {
    AgreesAfter(tr, limits, window, now, r, key);
    if key == r.key {
      NextBucket(tr, limits, window, now, r);
      CallAnswer(tr, limits, window, now, r);
    } else {
      OtherBucket(tr, limits, window, now, r, key);
    }
  }

  lemma StepRepresents(tr: Trace, limits: string -> int, window: int, now: int, r: Request)
    requires Represents(tr, limits, window, now) && now <= r.at && limits(r.key) > 0
    ensures Represents(Next(tr, limits, window, r), limits, window, r.at)
  {
    forall k ensures Agrees(Next(tr, limits, window, r), k, window, r.at) {
      AgreesAfter(tr, limits, window, now, r, k);
    }
    forall k | k in Next(tr, limits, window, r).limiter.buckets
      ensures var b := Next(tr, limits, window, r).limiter.buckets[k];
              b != [] && Sorted(b) && UpTo(b, r.at) && |b| <= limits(k)
    {
      BucketAfter(tr, limits, window, now, r, k);
    }
  }

  lemma RepresentsLater(tr: Trace, limits: string -> int, window: int, now: int, later: int)
    requires Represents(tr, limits, window, now) && now <= later
    ensures Represents(tr, limits, window, later)
  {
    forall k ensures Agrees(tr, k, window, later) {
      AgreesLater(tr, limits, window, now, later, k);
    }
  }

  lemma {:induction false} RunRepresents(limits: string -> int, window: int, requests: seq<Request>, now: int)
    requires Timely(requests) && (forall r :: r in requests ==> r.at <= now)
    requires forall k :: limits(k) > 0
    ensures Represents(Run(limits, window, requests), limits, window, now)
  {
    if requests == [] {
    } else {
      var init, r := requests[..|requests| - 1], requests[|requests| - 1];
      forall q | q in init ensures q.at <= r.at {
        var i :| 0 <= i < |init| && init[i] == q;
        assert requests[i] == q;
      }
      RunRepresents(limits, window, init, r.at);
      StepRepresents(Run(limits, window, init), limits, window, r.at, r);
      RepresentsLater(Run(limits, window, requests), limits, window, r.at, now);
    }
  }

  // ---- The bound ----

  /** How many of the instants fall in the closed window that starts at `from`. */
  function InWindow(instants: seq<int>, from: int, window: int): nat {
    |Within(instants, from, from + window)|
  }

  /** Every closed window holds at most `limit` of the instants. */
  ghost predicate Bounded(history: seq<int>, window: int, limit: int) {
    forall from :: InWindow(history, from, window) <= limit
  }

  lemma InWindowAppend(instants: seq<int>, t: int, from: int, window: int)
    ensures InWindow(instants + [t], from, window)
         == InWindow(instants, from, window) + if from <= t <= from + window then 1 else 0
  {
    WithinAppend(instants, t, from, from + window);
  }

  lemma HitKeepsBounded(history: seq<int>, window: int, limit: int, now: int)
    requires Bounded(history, window, limit) && UpTo(history, now)
    requires |Within(history, now - window, now)| < limit
    ensures Bounded(history + [now], window, limit)
  {
    forall from ensures InWindow(history + [now], from, window) <= limit {
      InWindowAppend(history, now, from, window);
      assert InWindow(history, from, window) <= limit;
      if from <= now <= from + window {
        WithinShrinks(history, now - window, from, from + window, now);
      }
    }
  }

  predicate IsSweep(tr: Trace) { (tr.limiter.calls + 1) % SWEEP_EVERY == 0 }

  predicate IsAllowed(tr: Trace, limits: string -> int, window: int, r: Request) {
    Call(tr.limiter, r.key, limits(r.key), window, r.at).1
  }

  /** Allowed, but its bucket was swept away before the hit was appended. */
  predicate IsLost(tr: Trace, limits: string -> int, window: int, r: Request) {
    IsAllowed(tr, limits, window, r) && !IsRecorded(tr, limits, window, r)
  }

  function Lost(limits: string -> int, window: int, requests: seq<Request>): seq<Request> {
    if requests == [] then []
    else
      var init, r := requests[..|requests| - 1], requests[|requests| - 1];
      if IsLost(Run(limits, window, init), limits, window, r)
      then Lost(limits, window, init) + [r] else Lost(limits, window, init)
  }

  lemma TimelyPrefix(requests: seq<Request>, r: Request)
    requires Timely(requests + [r])
    ensures Timely(requests) && forall q :: q in requests ==> q.at <= r.at
  {
    var all := requests + [r];
    forall i, j | 0 <= i < j < |requests| ensures requests[i].at <= requests[j].at {
      assert all[i] == requests[i] && all[j] == requests[j];
    }
    forall q | q in requests ensures q.at <= r.at {
      var i :| 0 <= i < |requests| && requests[i] == q;
      assert all[i] == q && all[|requests|] == r;
    }
  }

  lemma StepRule(tr: Trace, limits: string -> int, window: int, r: Request)
    requires Represents(tr, limits, window, r.at) && limits(r.key) > 0
    ensures var live := Within(Of(tr.recorded, r.key), r.at - window, r.at);
            && (IsAllowed(tr, limits, window, r) <==> |live| < limits(r.key))
            && (IsLost(tr, limits, window, r) <==> IsSweep(tr) && live == [])
  {
    CallAnswer(tr, limits, window, r.at, r);
  }

  /** The answer is the simple rule: fewer than `limit` hits recorded in [now - window, now]. */
  lemma {:induction false} AnswerRule(limits: string -> int, window: int, requests: seq<Request>, r: Request)
    requires Timely(requests + [r]) && forall k :: limits(k) > 0
    ensures var tr := Run(limits, window, requests);
            IsAllowed(tr, limits, window, r)
            <==> |Within(Of(tr.recorded, r.key), r.at - window, r.at)| < limits(r.key)
  {
    TimelyPrefix(requests, r);
    RunRepresents(limits, window, requests, r.at);
    StepRule(Run(limits, window, requests), limits, window, r);
  }

  lemma CallCounts(tr: Trace, limits: string -> int, window: int, r: Request)
    ensures Next(tr, limits, window, r).limiter.calls == tr.limiter.calls + 1
  {
  }

  lemma {:induction false} CallsAreRequests(limits: string -> int, window: int, requests: seq<Request>)
    ensures Run(limits, window, requests).limiter.calls == |requests|
  {
    if requests != [] {
      var init := requests[..|requests| - 1];
      CallsAreRequests(limits, window, init);
      CallCounts(Run(limits, window, init), limits, window, requests[|requests| - 1]);
    }
  }

  /** An allowed hit goes unrecorded exactly on every 1024th call, when that finds no live hit of
      its key. */
  lemma {:induction false} LostRule(limits: string -> int, window: int, requests: seq<Request>, r: Request)
    requires Timely(requests + [r]) && forall k :: limits(k) > 0
    ensures var tr := Run(limits, window, requests);
            IsLost(tr, limits, window, r)
            <==> (|requests| + 1) % 1024 == 0 && Within(Of(tr.recorded, r.key), r.at - window, r.at) == []
  {
    TimelyPrefix(requests, r);
    RunRepresents(limits, window, requests, r.at);
    CallsAreRequests(limits, window, requests);
    StepRule(Run(limits, window, requests), limits, window, r);
  }

  lemma StepBounded(tr: Trace, limits: string -> int, window: int, r: Request, key: string)
    requires Represents(tr, limits, window, r.at) && limits(r.key) > 0
    requires Bounded(Of(tr.recorded, key), window, limits(key))
    ensures Bounded(Of(Next(tr, limits, window, r).recorded, key), window, limits(key))
  {
    if key == r.key {
      assert Agrees(tr, key, window, r.at);
      NextBucket(tr, limits, window, r.at, r);
      assert Of(tr.recorded, key) + [] == Of(tr.recorded, key);
      if IsRecorded(tr, limits, window, r) {
        HitKeepsBounded(Of(tr.recorded, key), window, limits(key), r.at);
      }
    } else {
      OtherBucket(tr, limits, window, r.at, r, key);
    }
  }

  /** A key's recorded hits respect the limit in every closed window. */
  lemma {:induction false} RecordedBound(limits: string -> int, window: int, requests: seq<Request>, key: string)
    requires Timely(requests) && forall k :: limits(k) > 0
    ensures Bounded(Of(Run(limits, window, requests).recorded, key), window, limits(key))
  {
    if requests == [] {
      assert forall from :: InWindow([], from, window) == 0;
    } else {
      var init, r := requests[..|requests| - 1], requests[|requests| - 1];
      assert requests == init + [r];
      TimelyPrefix(init, r);
      RecordedBound(limits, window, init, key);
      RunRepresents(limits, window, init, r.at);
      StepBounded(Run(limits, window, init), limits, window, r, key);
    }
  }

  lemma LogGrows(log: seq<Request>, r: Request, added: bool, key: string, from: int, window: int)
    ensures InWindow(Of(if added then log + [r] else log, key), from, window)
         == InWindow(Of(log, key), from, window) + if added && r.key == key && from <= r.at <= from + window then 1 else 0
  {
    if added {
      OfAppend(log, r, key);
      InWindowAppend(Of(log, key), r.at, from, window);
      assert Of(log, key) + [] == Of(log, key);
    }
  }

  lemma NextLogs(tr: Trace, limits: string -> int, window: int, r: Request)
    ensures var after := Next(tr, limits, window, r);
            && after.recorded == (if IsRecorded(tr, limits, window, r) then tr.recorded + [r] else tr.recorded)
            && after.allowed == (if IsAllowed(tr, limits, window, r) then tr.allowed + [r] else tr.allowed)
            && after.sweeps == (if IsSweep(tr) then tr.sweeps + [r] else tr.sweeps)
            && (IsAllowed(tr, limits, window, r) <==> IsRecorded(tr, limits, window, r) || IsLost(tr, limits, window, r))
            && !(IsRecorded(tr, limits, window, r) && IsLost(tr, limits, window, r))
  {
  }

  /** In the window at `from`: allowed is recorded plus lost, and lost is at most swept. */
  ghost predicate Accounted(tr: Trace, lost: seq<Request>, key: string, from: int, window: int) {
    && InWindow(Of(tr.allowed, key), from, window)
       == InWindow(Of(tr.recorded, key), from, window) + InWindow(Of(lost, key), from, window)
    && InWindow(Of(lost, key), from, window) <= InWindow(Of(tr.sweeps, key), from, window)
  }

  lemma StepAccounting(tr: Trace, limits: string -> int, window: int, lost: seq<Request>, r: Request, key: string,
                       from: int)
    requires IsLost(tr, limits, window, r) ==> IsSweep(tr)
    requires Accounted(tr, lost, key, from, window)
    ensures Accounted(Next(tr, limits, window, r), if IsLost(tr, limits, window, r) then lost + [r] else lost, key, from, window)
  {
    NextLogs(tr, limits, window, r);
    LogGrows(tr.recorded, r, IsRecorded(tr, limits, window, r), key, from, window);
    LogGrows(tr.allowed, r, IsAllowed(tr, limits, window, r), key, from, window);
    LogGrows(tr.sweeps, r, IsSweep(tr), key, from, window);
    LogGrows(lost, r, IsLost(tr, limits, window, r), key, from, window);
  }

  /** Allowed hits are the recorded and the lost ones, and each lost hit is a sweep call of its key. */
  lemma {:induction false} LostAccounting(limits: string -> int, window: int, requests: seq<Request>, key: string,
                                          from: int)
    requires Timely(requests) && forall k :: limits(k) > 0
    ensures Accounted(Run(limits, window, requests), Lost(limits, window, requests), key, from, window)
  {
    if requests != [] {
      var init, r := requests[..|requests| - 1], requests[|requests| - 1];
      assert requests == init + [r];
      TimelyPrefix(init, r);
      LostAccounting(limits, window, init, key, from);
      RunRepresents(limits, window, init, r.at);
      StepRule(Run(limits, window, init), limits, window, r);
      StepAccounting(Run(limits, window, init), limits, window, Lost(limits, window, init), r, key, from);
    }
  }

  /** Every 1024th request of a schedule. */
  function Every1024th(requests: seq<Request>): seq<Request> {
    if requests == [] then []
    else
      var init := requests[..|requests| - 1];
      if |requests| % 1024 == 0 then Every1024th(init) + [requests[|requests| - 1]] else Every1024th(init)
  }

  lemma {:induction false} SweepsAre(limits: string -> int, window: int, requests: seq<Request>)
    ensures Run(limits, window, requests).sweeps == Every1024th(requests)
  {
    if requests != [] {
      var init, r := requests[..|requests| - 1], requests[|requests| - 1];
      SweepsAre(limits, window, init);
      CallsAreRequests(limits, window, init);
      NextLogs(Run(limits, window, init), limits, window, r);
    }
  }

  /** The bound the code satisfies: allowed hits of a key in a window never exceed the limit by
      more than the key's share of every 1024th call in that window. */
  lemma {:induction false} AllowedBound(limits: string -> int, window: int, requests: seq<Request>, key: string,
                                        from: int)
    requires Timely(requests) && forall k :: limits(k) > 0
    ensures InWindow(Of(Run(limits, window, requests).allowed, key), from, window)
         <= limits(key) + InWindow(Of(Every1024th(requests), key), from, window)
  {
    RecordedBound(limits, window, requests, key);
    LostAccounting(limits, window, requests, key, from);
    SweepsAre(limits, window, requests);
  }

  // ---- When the limit itself holds ----

  /** Where no hit of the key is lost, the limit is kept. */
  lemma {:induction false} LimitKeptUnlessLost(limits: string -> int, window: int, requests: seq<Request>, key: string,
                                               from: int)
    requires Timely(requests) && forall k :: limits(k) > 0
    requires InWindow(Of(Lost(limits, window, requests), key), from, window) == 0
    ensures InWindow(Of(Run(limits, window, requests).allowed, key), from, window) <= limits(key)
  {
    RecordedBound(limits, window, requests, key);
    LostAccounting(limits, window, requests, key, from);
  }

  /** `quiet` calls for one key and then `hits` for another, all at one instant. */
  function Overload(other: string, quiet: nat, key: string, hits: nat): seq<Request> {
    seq(quiet + hits, i => Request(if i < quiet then other else key, 0))
  }

  function Zeros(n: nat): seq<int> { seq(n, _ => 0) }

  lemma OverloadTimely(other: string, quiet: nat, key: string, hits: nat)
    ensures Timely(Overload(other, quiet, key, hits))
    ensures hits > 0 ==>
              Overload(other, quiet, key, hits) == Overload(other, quiet, key, hits - 1) + [Request(key, 0)]
  {
  }

  lemma RunAppend(limits: string -> int, window: int, requests: seq<Request>, r: Request)
    ensures Run(limits, window, requests + [r]) == Next(Run(limits, window, requests), limits, window, r)
  {
    assert (requests + [r])[..|requests|] == requests;
  }

  /** The logs of a key as one more request arrives. */
  lemma KeyLogs(tr: Trace, limits: string -> int, window: int, r: Request, key: string)
    ensures var after := Next(tr, limits, window, r);
            && Of(after.allowed, key) == Of(tr.allowed, key) +
                                         (if r.key == key && IsAllowed(tr, limits, window, r) then [r.at] else [])
            && Of(after.recorded, key) == Of(tr.recorded, key) +
                                          (if r.key == key && IsRecorded(tr, limits, window, r) then [r.at] else [])
  {
    NextLogs(tr, limits, window, r);
    OfAppend(tr.allowed, r, key);
    OfAppend(tr.recorded, r, key);
    assert Of(tr.allowed, key) + [] == Of(tr.allowed, key) && Of(tr.recorded, key) + [] == Of(tr.recorded, key);
  }

  lemma {:induction false} QuietPrefix(limits: string -> int, window: int, other: string, n: nat, key: string)
    requires other != key
    ensures var tr := Run(limits, window, Overload(other, n, key, 0));
            tr.limiter.calls == n && Of(tr.allowed, key) == [] && Of(tr.recorded, key) == []
  {
    if n == 0 {
      assert Overload(other, 0, key, 0) == [];
    } else {
      var before, r := Overload(other, n - 1, key, 0), Request(other, 0);
      QuietPrefix(limits, window, other, n - 1, key);
      assert Overload(other, n, key, 0) == before + [r];
      RunAppend(limits, window, before, r);
      CallCounts(Run(limits, window, before), limits, window, r);
      KeyLogs(Run(limits, window, before), limits, window, r, key);
    }
  }

  lemma SweepOn(hits: nat)
    ensures (SWEEP_EVERY - 1 + hits + 1) % SWEEP_EVERY == 0 ==> hits == 0 || hits > 1
    ensures hits == 0 ==> (SWEEP_EVERY - 1 + hits + 1) % SWEEP_EVERY == 0
  {
  }

  lemma OverloadAnswer(tr: Trace, limits: string -> int, window: int, r: Request, hits: nat)
    requires Represents(tr, limits, window, r.at) && hits <= limits(r.key) && limits(r.key) > 0
    requires tr.limiter.calls == SWEEP_EVERY - 1 + hits
    requires |Within(Of(tr.recorded, r.key), r.at - window, r.at)| == if hits == 0 then 0 else hits - 1
    ensures IsAllowed(tr, limits, window, r) && (IsRecorded(tr, limits, window, r) <==> hits > 0)
  {
    StepRule(tr, limits, window, r);
    SweepOn(hits);
  }

  lemma OneMoreZero(n: nat)
    ensures Zeros(n) + [0] == Zeros(n + 1) && Zeros(n) + [] == Zeros(n)
  {
  }

  lemma OverloadLogs(tr: Trace, limits: string -> int, window: int, r: Request, hits: nat)
    requires IsAllowed(tr, limits, window, r) && (IsRecorded(tr, limits, window, r) <==> hits > 0) && r.at == 0
    requires Of(tr.allowed, r.key) == Zeros(hits) && Of(tr.recorded, r.key) == Zeros(if hits == 0 then 0 else hits - 1)
    ensures var after := Next(tr, limits, window, r);
            Of(after.allowed, r.key) == Zeros(hits + 1) && Of(after.recorded, r.key) == Zeros(hits)
  {
    KeyLogs(tr, limits, window, r, r.key);
    OneMoreZero(hits);
    OneMoreZero(if hits == 0 then 0 else hits - 1);
  }

  lemma ZerosWithin(n: nat, window: int, now: int)
    requires window >= 0 && now == 0
    ensures |Within(Zeros(n), now - window, now)| == n
  {
    WithinAll(Zeros(n), now - window, now);
  }

  /** The state after `hits` hits on top of the quiet calls. */
  ghost predicate Overloaded(tr: Trace, key: string, hits: nat) {
    && tr.limiter.calls == SWEEP_EVERY - 1 + hits
    && Of(tr.allowed, key) == Zeros(hits)
    && Of(tr.recorded, key) == Zeros(if hits == 0 then 0 else hits - 1)
  }

  lemma OverloadStep(tr: Trace, limits: string -> int, window: int, r: Request, hits: nat)
    requires Represents(tr, limits, window, r.at) && r.at == 0 && window >= 0
    requires Overloaded(tr, r.key, hits) && hits <= limits(r.key) && limits(r.key) > 0
    ensures Overloaded(Next(tr, limits, window, r), r.key, hits + 1)
  {
    CallCounts(tr, limits, window, r);
    ZerosWithin(if hits == 0 then 0 else hits - 1, window, r.at);
    OverloadAnswer(tr, limits, window, r, hits);
    OverloadLogs(tr, limits, window, r, hits);
  }

  /** After 1023 quiet calls the first hit is forgotten, so one more than the limit is allowed. */
  lemma {:induction false} OverloadCounts(limits: string -> int, window: int, other: string, key: string, hits: nat)
    requires other != key && window >= 0 && hits <= limits(key) + 1 && forall k :: limits(k) > 0
    ensures Overloaded(Run(limits, window, Overload(other, SWEEP_EVERY - 1, key, hits)), key, hits)
  {
    if hits == 0 {
      QuietPrefix(limits, window, other, SWEEP_EVERY - 1, key);
    } else {
      var before, r := Overload(other, SWEEP_EVERY - 1, key, hits - 1), Request(key, 0);
      OverloadCounts(limits, window, other, key, hits - 1);
      OverloadTimely(other, SWEEP_EVERY - 1, key, hits - 1);
      OverloadTimely(other, SWEEP_EVERY - 1, key, hits);
      RunAppend(limits, window, before, r);
      RunRepresents(limits, window, before, r.at);
      OverloadStep(Run(limits, window, before), limits, window, r, hits - 1);
    }
  }

  /** For any limits and any two keys: 1023 calls for one, and `limit + 1` hits of the other are
      allowed at one instant. */
  lemma {:induction false} OneTooMany(limits: string -> int, window: int, other: string, key: string)
    requires other != key && window >= 0 && forall k :: limits(k) > 0
    ensures var requests := Overload(other, 1023, key, limits(key) + 1);
            && Timely(requests)
            && InWindow(Of(Run(limits, window, requests).allowed, key), 0, window) == limits(key) + 1
  {
    var hits := limits(key) + 1;
    OverloadTimely(other, SWEEP_EVERY - 1, key, hits);
    OverloadCounts(limits, window, other, key, hits);
    WithinAll(Zeros(hits), 0, window);
  }

  ghost predicate WithinLimit(limits: string -> int, window: int, requests: seq<Request>, key: string, from: int) {
    InWindow(Of(Run(limits, window, requests).allowed, key), from, window) <= limits(key)
  }

  lemma {:induction false} EmptyWindow(instants: seq<int>, from: int, to: int)
    requires to < from
    ensures Within(instants, from, to) == []
  {
    if instants != [] { EmptyWindow(instants[..|instants| - 1], from, to); }
  }

  lemma {:induction false} EmptyWindowKept(limits: string -> int, window: int, requests: seq<Request>, key: string,
                                           from: int)
    requires limits(key) > 0 && window < 0
    ensures WithinLimit(limits, window, requests, key, from)
  {
    EmptyWindow(Of(Run(limits, window, requests).allowed, key), from, from + window);
  }

  lemma Exceeded(limits: string -> int, window: int) returns (requests: seq<Request>, key: string)
    requires window >= 0 && forall k :: limits(k) > 0
    ensures Timely(requests) && !WithinLimit(limits, window, requests, key, 0)
  {
    key := "key";
    requests := Overload("other", 1023, key, limits(key) + 1);
    OneTooMany(limits, window, "other", key);
  }

  /** Whatever the limits, they are kept on all schedules, for all keys and in all windows, only if
      the windows are empty. */
  lemma {:induction false} StrictBoundIff(limits: string -> int, window: int)
    requires forall k :: limits(k) > 0
    ensures (forall requests, key, from :: Timely(requests) ==> WithinLimit(limits, window, requests, key, from))
       <==> window < 0
  {
    if window < 0 {
      forall requests, key, from | Timely(requests) ensures WithinLimit(limits, window, requests, key, from) {
        EmptyWindowKept(limits, window, requests, key, from);
      }
    } else {
      var requests, key := Exceeded(limits, window);
    }
  }
}
