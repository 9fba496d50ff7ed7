/** The in-memory sliding-window rate limiter: a dictionary of deques, swept now and then. */
module RateLimiter {
  import opened Common

  const SWEEP_EVERY := 1024

  // ---- One call, on values ----

  datatype Limiter = Limiter(buckets: map<string, seq<int>>, calls: nat)

  function BucketOf(limiter: Limiter, key: string): seq<int> {
    if key in limiter.buckets then limiter.buckets[key] else []
  }

  /** Expired hits are dropped from the front. */
  function Drained(bucket: seq<int>, cutoff: int): seq<int> {
    if bucket == [] || bucket[0] >= cutoff then bucket else Drained(bucket[1..], cutoff)
  }

  function Fetched(limiter: Limiter, key: string, cutoff: int): Limiter {
    limiter.(buckets := limiter.buckets[key := Drained(BucketOf(limiter, key), cutoff)])
  }

  /** Every 1024th call drops all empty buckets. */
  function Swept(limiter: Limiter): Limiter {
    var calls := limiter.calls + 1;
    if calls % SWEEP_EVERY != 0 then limiter.(calls := calls)
    else Limiter(map k | k in limiter.buckets && limiter.buckets[k] != [] :: limiter.buckets[k], calls)
  }

  function Recorded(limiter: Limiter, key: string, bucket: seq<int>): Limiter {
    if key in limiter.buckets then limiter.(buckets := limiter.buckets[key := bucket]) else limiter
  }

  /** The current bucket is fetched and drained, then the sweep runs, then the hit is appended to
      the fetched bucket, which the dictionary may no longer hold. */
  function Call(limiter: Limiter, key: string, limit: int, window: int, now: int): (Limiter, bool) {
    var fetched := Fetched(limiter, key, now - window);
    var bucket, swept := fetched.buckets[key], Swept(fetched);
    if |bucket| >= limit then (swept, false) else (Recorded(swept, key, bucket + [now]), true)
  }

  // ---- The object ----

  class Deque {
    var hits: seq<int>

    constructor ()
      ensures hits == []
    {
      hits := [];
    }

    method PopLeft()
      requires hits != []
      modifies this
      ensures hits == old(hits)[1..]
    {
      hits := hits[1..];
    }

    method Append(hit: int)
      modifies this
      ensures hits == old(hits) + [hit]
    {
      hits := hits + [hit];
    }
  }

  class RateLimiter {
    var hits: map<string, Deque>
    var calls: nat

    /** No two keys share a deque. */
    ghost predicate Valid()
      reads this
    {
      forall j, k :: j in hits && k in hits && hits[j] == hits[k] ==> j == k
    }

    function Snapshot(): Limiter
      reads this, hits.Values
    {
      Limiter(map k | k in hits :: hits[k].hits, calls)
    }

    constructor ()
      ensures Valid() && Snapshot() == Limiter(map[], 0)
    {
      hits, calls := map[], 0;
    }

    /** `self._hits[key]` of a defaultdict: the stored deque, or a new one that is now stored. */
    method Fetch(key: string) returns (bucket: Deque)
      requires Valid()
      modifies this`hits
      ensures Valid() && key in hits && hits[key] == bucket
      ensures bucket in old(hits.Values) || fresh(bucket)
      ensures hits == old(hits)[key := bucket]
      ensures bucket.hits == BucketOf(old(Snapshot()), key)
      ensures fresh(hits.Values - old(hits.Values))
      ensures Snapshot() == Limiter(old(Snapshot()).buckets[key := bucket.hits], calls)
    {
      if key !in hits {
        bucket := new Deque();
        hits := hits[key := bucket];
      } else {
        bucket := hits[key];
      }
      assert Snapshot().buckets == old(Snapshot()).buckets[key := bucket.hits];
    }

    /** Drop the expired hits of a deque stored under `key`. */
    method Drain(key: string, bucket: Deque, cutoff: int)
      requires Valid() && key in hits && hits[key] == bucket
      modifies bucket
      ensures Valid() && bucket.hits == Drained(old(bucket.hits), cutoff)
      ensures Snapshot() == Limiter(old(Snapshot()).buckets[key := bucket.hits], calls)
    {
      while bucket.hits != [] && bucket.hits[0] < cutoff
        invariant Drained(bucket.hits, cutoff) == Drained(old(bucket.hits), cutoff)
        decreases |bucket.hits|
      {
        bucket.PopLeft();
      }
      assert Snapshot().buckets == old(Snapshot()).buckets[key := bucket.hits];
    }

    /** Drop drained buckets: list the empty ones, then delete them one by one. */
    method Sweep()
      requires Valid()
      modifies this`hits
      ensures Valid() && hits.Values <= old(hits.Values)
      ensures hits == map k | k in old(hits) && old(hits)[k].hits != [] :: old(hits)[k]
    {
      var empty := set k | k in hits && hits[k].hits == [];
      ghost var all := empty;
      while empty != {}
        invariant empty <= all && empty <= hits.Keys
        invariant hits == map k | k in old(hits) && (k !in all || k in empty) :: old(hits)[k]
        decreases empty
      {
        var k :| k in empty;
        hits := hits - {k};
        empty := empty - {k};
      }
    }

    /** The key's bucket with its expired hits dropped, stored in the dictionary. */
    method Current(key: string, cutoff: int) returns (bucket: Deque)
      requires Valid()
      modifies this`hits, hits.Values
      ensures Valid() && fresh(hits.Values - old(hits.Values))
      ensures key in hits && hits[key] == bucket
      ensures Snapshot() == Fetched(old(Snapshot()), key, cutoff)
    {
      bucket := Fetch(key);
      Drain(key, bucket, cutoff);
    }

    method SweepIfDue()
      requires Valid()
      modifies this`hits, this`calls
      ensures Valid() && hits.Values <= old(hits.Values)
      ensures forall k :: k in hits ==> k in old(hits) && hits[k] == old(hits)[k]
      ensures Snapshot() == Swept(old(Snapshot()))
    {
      calls := calls + 1;
      if calls % SWEEP_EVERY == 0 {
        Sweep();
      }
      assert Snapshot().buckets == Swept(old(Snapshot())).buckets;
    }

    /** Append to a deque that is either stored under `key` or no longer stored at all. */
    method Record(key: string, bucket: Deque, now: int)
      requires Valid() && forall k :: k in hits ==> (k == key <==> hits[k] == bucket)
      modifies bucket
      ensures Valid()
      ensures Snapshot() == Recorded(old(Snapshot()), key, old(bucket.hits) + [now])
    {
      bucket.Append(now);
      assert Snapshot().buckets == Recorded(old(Snapshot()), key, old(bucket.hits) + [now]).buckets;
    }

    method Allow(key: string, limit: int, window: int, now: int) returns (allowed: bool)
      requires Valid()
      modifies this, hits.Values
      ensures Valid() && fresh(hits.Values - old(hits.Values))
      ensures (Snapshot(), allowed) == Call(old(Snapshot()), key, limit, window, now)
    {
      ghost var before := Snapshot();
      var bucket := Current(key, now - window);
      assert Snapshot() == Fetched(before, key, now - window) && bucket.hits == Snapshot().buckets[key];
      SweepIfDue();
      allowed := |bucket.hits| < limit;
      if allowed {
        Record(key, bucket, now);
      }
    }
  }
}
