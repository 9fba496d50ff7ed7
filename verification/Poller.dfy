/** Which SNMP items a poll cycle picks. */
module Poller {
  import opened Common
  import opened History

  datatype PollItem = PollItem(id: Id, enabled: bool, isPrivate: bool, snmp: bool, address: Option<string>,
                               intervalSeconds: int)
  {
    predicate Pollable() { enabled && !isPrivate && snmp && address.Some? }
  }

  function DueItems(rows: seq<PollItem>, samples: seq<Sample>, now: int): seq<PollItem> {
    if rows == [] then []
    else
      var last := rows[|rows| - 1];
      DueItems(rows[..|rows| - 1], samples, now)
      + if last.Pollable() && IsDue(samples, last.id, last.intervalSeconds, now) then [last] else []
  }

  /** The query keeps pollable items with their newest sample; the loop keeps the due ones. */
  method DueTargets(rows: seq<PollItem>, samples: seq<Sample>, now: int) returns (targets: seq<PollItem>)
    ensures targets == DueItems(rows, samples, now)
  {
    targets := [];
    for i := 0 to |rows|
      invariant targets == DueItems(rows[..i], samples, now)
    {
      assert rows[..i + 1][..i] == rows[..i];
      if rows[i].Pollable() {
        var lastAt := LastAt(samples, rows[i].id);
        if lastAt.None? || lastAt.value <= now - rows[i].intervalSeconds * SECOND {
          targets := targets + [rows[i]];
        }
      }
    }
    assert rows[..|rows|] == rows;
  }

  /** An item is picked when it is enabled, not private, polled over SNMP on a host with an address,
      and none of its samples is younger than its interval. */
  lemma {:induction false} PickedIff(rows: seq<PollItem>, samples: seq<Sample>, now: int, p: PollItem)
    ensures p in DueItems(rows, samples, now) <==>
            && p in rows && p.enabled && !p.isPrivate && p.snmp && p.address.Some?
            && forall s :: s in samples && s.item == p.id ==> s.at + p.intervalSeconds * 1_000_000 <= now
  {
    if rows != [] {
      var last := rows[|rows| - 1];
      PickedIff(rows[..|rows| - 1], samples, now, p);
      DueRule(samples, last.id, last.intervalSeconds, now);
      assert p in rows <==> p in rows[..|rows| - 1] || p == last;
    }
  }

  /** A poll cycle picks the same items, in the same order, after history at least a day older
      than the cycle has been pruned. */
  lemma {:induction false} PruneInvisibleToPolling(rows: seq<PollItem>, samples: seq<Sample>, cutoff: int, now: int)
    requires cutoff <= now - DAY && forall i :: 0 <= i < |rows| ==> rows[i].intervalSeconds <= 86400
    ensures DueItems(rows, Since(samples, cutoff), now) == DueItems(rows, samples, now)
  {
    if rows != [] {
      PruneInvisibleToPolling(rows[..|rows| - 1], samples, cutoff, now);
      LastAtAfterPrune(samples, rows[|rows| - 1].id, cutoff);
    }
  }

  /** A stored sample keeps its item out of every cycle less than an interval later, whatever else
      is recorded meanwhile. */
  lemma {:induction false} NotPolledTwice(before: seq<Sample>, after: seq<Sample>, polled: Sample,
                                          intervalSeconds: int, now: int)
    requires now < polled.at + intervalSeconds * 1_000_000
    ensures !IsDue(before + [polled] + after, polled.item, intervalSeconds, now)
  {
    var samples := before + [polled] + after;
    if after == [] {
      assert samples == before + [polled] && samples[..|samples| - 1] == before;
    } else {
      assert samples[..|samples| - 1] == before + [polled] + after[..|after| - 1];
      NotPolledTwice(before, after[..|after| - 1], polled, intervalSeconds, now);
    }
  }
}
