/**
 * The sliding-window rate limiter of backend/app/core/rate_limit.py: one
 * bucket of admission times per client; entries older than the window are
 * dropped from the front, and a request is refused while the bucket holds
 * as many entries as the limit.
 */
module RateLimit {
  import opened Wrappers

  /** `rate_limit_per_min` of the settings. */
  const RateLimitPerMin: nat := 60
  /** The window, in seconds. */
  const WindowSeconds: int := 60

  /**
   * How many entries the eviction loop pops: the leading entries that are
   * more than a window older than `now`.
   */
  function Dropped(bucket: seq<int>, now: int): (k: nat)
    ensures k <= |bucket|
    ensures forall i :: 0 <= i < k ==> now - bucket[i] > WindowSeconds
    ensures k < |bucket| ==> now - bucket[k] <= WindowSeconds
    decreases |bucket|
  {
    if |bucket| > 0 && now - bucket[0] > WindowSeconds then 1 + Dropped(bucket[1..], now) else 0
  }

  /** The bucket after eviction. */
  function Evict(bucket: seq<int>, now: int): seq<int> {
    bucket[Dropped(bucket, now)..]
  }

  /**
   * Eviction keeps a suffix of the bucket: every entry cut off is more than
   * a window old, and the new front entry, if any, is not.
   */
  lemma EvictKeepsSuffix(bucket: seq<int>, now: int)
    ensures var kept := Evict(bucket, now);
      && |kept| <= |bucket| && kept == bucket[|bucket| - |kept|..]
      && (|kept| > 0 ==> now - kept[0] <= WindowSeconds)
      && forall i :: 0 <= i < |bucket| - |kept| ==> now - bucket[i] > WindowSeconds
  {
  }

  /** The bucket's times never decrease from front to back. */
  ghost predicate Ascending(bucket: seq<int>) {
    forall i, j :: 0 <= i < j < |bucket| ==> bucket[i] <= bucket[j]
  }

  /**
   * With times in ascending order and none after `now`, eviction leaves
   * only entries within the window, still in ascending order.
   */
  lemma {:induction false} EvictedWithinWindow(bucket: seq<int>, now: int)
    requires Ascending(bucket) && forall i :: 0 <= i < |bucket| ==> bucket[i] <= now
    ensures Ascending(Evict(bucket, now))
    ensures forall i :: 0 <= i < |Evict(bucket, now)| ==> 0 <= now - Evict(bucket, now)[i] <= WindowSeconds
  {
    var off := Dropped(bucket, now);
    var kept := bucket[off..];
    forall i, j | 0 <= i < j < |kept| ensures kept[i] <= kept[j] {
      assert kept[i] == bucket[off + i] && kept[j] == bucket[off + j];
    }
    forall i | 0 <= i < |kept| ensures 0 <= now - kept[i] <= WindowSeconds {
      assert kept[i] == bucket[off + i] && bucket[off] <= bucket[off + i];
    }
  }

  /** Appending a time no earlier than any entry keeps a bucket ascending. */
  lemma AppendKeepsAscending(bucket: seq<int>, now: int)
    requires Ascending(bucket) && forall i :: 0 <= i < |bucket| ==> bucket[i] <= now
    ensures Ascending(bucket + [now])
  {
    var b := bucket + [now];
    forall i, j | 0 <= i < j < |b| ensures b[i] <= b[j] {
      assert b[i] == bucket[i];
    }
  }

  /** Every bucket of `buckets` is ascending and holds no time after `now`. */
  ghost predicate OrderedUpTo(buckets: map<string, seq<int>>, now: int) {
    forall key :: key in buckets ==> Ascending(buckets[key]) && forall i :: 0 <= i < |buckets[key]| ==> buckets[key][i] <= now
  }

  /** Trimming one bucket, and appending `now` to it or not, keeps every bucket ordered up to `now`. */
  lemma TrimKeepsOrder(buckets: map<string, seq<int>>, key: string, now: int, admitted: bool)
    requires OrderedUpTo(buckets, now)
    ensures var kept := Evict(if key in buckets then buckets[key] else [], now);
      OrderedUpTo(buckets[key := if admitted then kept + [now] else kept], now)
  {
    var original := if key in buckets then buckets[key] else [];
    EvictedWithinWindow(original, now);
    var kept := Evict(original, now);
    if admitted {
      AppendKeepsAscending(kept, now);
    }
  }

  /** The bucket key: the client's host, or "anonymous" for a request without a client. */
  function ClientKey(host: Option<string>): (key: string)
    ensures host.Some? ==> key == host.value
    ensures host.None? ==> key == "anonymous"
  {
    host.GetOr("anonymous")
  }

  class RateLimiter {
    var buckets: map<string, seq<int>>
    const limit: nat

    /** No bucket holds more entries than the limit. */
    ghost predicate Valid()
      reads this
    {
      forall key :: key in buckets ==> |buckets[key]| <= limit
    }

    constructor (limit: nat := RateLimitPerMin)
      ensures Valid() && buckets == map[] && this.limit == limit
    {
      buckets := map[];
      this.limit := limit;
    }

    /**
     * Decides one request at time `now`.  The caller's bucket is trimmed
     * (the trimming stays even when the request is refused); the request
     * is admitted exactly when fewer than `limit` entries remain, and then
     * `now` is appended.  No other bucket changes.
     */
    method Admit(host: Option<string>, now: int) returns (admitted: bool)
      requires Valid()
      modifies this
      ensures Valid()
      ensures var key := ClientKey(host);
        var kept := Evict(if key in old(buckets) then old(buckets)[key] else [], now);
        && (admitted <==> |kept| < limit)
        && buckets == old(buckets)[key := if admitted then kept + [now] else kept]
      ensures OrderedUpTo(old(buckets), now) ==> OrderedUpTo(buckets, now)
    {
      var key := ClientKey(host);
      var bucket := if key in buckets then buckets[key] else [];
      ghost var original := bucket;
      ghost var popped := 0;
      while |bucket| > 0 && now - bucket[0] > WindowSeconds
        invariant popped <= Dropped(original, now) && bucket == original[popped..]
        decreases |bucket|
      {
        bucket := bucket[1..];
        popped := popped + 1;
      }
      assert popped == Dropped(original, now);
      assert bucket == Evict(original, now);
      if |bucket| >= limit {
        buckets := buckets[key := bucket];
        admitted := false;
      } else {
        buckets := buckets[key := bucket + [now]];
        admitted := true;
      }
      assert buckets == old(buckets)[key := if admitted then bucket + [now] else bucket];
      if OrderedUpTo(old(buckets), now) {
        TrimKeepsOrder(old(buckets), key, now, admitted);
      }
    }
  }
}
