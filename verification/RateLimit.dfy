/** The Redis stage of the rate limiter: a sorted set per address whose members are the request
    times in milliseconds, pruned to a minute, counted before the request is added, and expiring a
    minute after the last request. */
module RateLimit {
  import opened Wrappers

  const WINDOW := 60 * 1000

  /** Scores equal members, so the sorted set is a set of times. */
  datatype Bucket = Bucket(members: set<int>, expiry: int)

  const EMPTY := Bucket({}, 0)

  /** What the key holds after expiry and ZREMRANGEBYSCORE. */
  function Pruned(b: Bucket, now: int): set<int> {
    if now > b.expiry then {} else set m | m in b.members && m > now - WINDOW
  }

  /** The pipeline: prune, (count,) add, renew the expiry. */
  function Added(b: Bucket, now: int): Bucket {
    Bucket(Pruned(b, now) + {now}, now + WINDOW)
  }

  function BucketAfter(times: seq<int>): Bucket {
    if times == [] then EMPTY else Added(BucketAfter(times[..|times| - 1]), times[|times| - 1])
  }

  /** Whether the request at position `k` of the arrivals is admitted. */
  predicate Admits(limit: int, times: seq<int>, k: nat)
    requires k < |times|
  {
    |Pruned(BucketAfter(times[..k]), times[k])| <= limit
  }

  ghost predicate Ordered(times: seq<int>) {
    forall i, j :: 0 <= i < j < |times| ==> times[i] <= times[j]
  }

  /** The times after `start` among the first `k` arrivals. */
  function Recent(times: seq<int>, k: nat, start: int): set<int>
    requires k <= |times|
  {
    set i | 0 <= i < k && times[i] > start :: times[i]
  }

  /** The bucket is the full history restricted to the window, in spite of pruning and expiry. */
  lemma {:induction false} BucketIsHistory(times: seq<int>, k: nat, now: int)
    requires Ordered(times) && k <= |times| && (k > 0 ==> times[k - 1] <= now)
    ensures Pruned(BucketAfter(times[..k]), now) == Recent(times, k, now - WINDOW)
  {
    if k > 0 {
      var last := times[k - 1];
      assert times[..k][..k - 1] == times[..k - 1];
      BucketIsHistory(times, k - 1, last);
      assert BucketAfter(times[..k]) == Bucket(Recent(times, k - 1, last - WINDOW) + {last}, last + WINDOW);
      forall m
        ensures m in Pruned(BucketAfter(times[..k]), now) <==> m in Recent(times, k, now - WINDOW)
      {
        if m in Recent(times, k, now - WINDOW) {
          var i :| 0 <= i < k && times[i] == m;
          assert i == k - 1 || m in Recent(times, k - 1, last - WINDOW);
        }
      }
    }
  }

  /** The admitted requests of the window that ends at `end`. */
  function AdmittedIn(limit: int, times: seq<int>, end: int): set<int> {
    set k | 0 <= k < |times| && end - WINDOW < times[k] <= end && Admits(limit, times, k)
  }

  function TimesOf(times: seq<int>, ks: set<int>): set<int>
    requires forall k :: k in ks ==> 0 <= k < |times|
  {
    set k | k in ks :: times[k]
  }

  function Burst(limit: int): int {
    if limit + 1 > 0 then limit + 1 else 0
  }

  lemma {:induction false} Greatest(ks: set<int>) returns (k: int)
    requires ks != {}
    ensures k in ks && forall j :: j in ks ==> j <= k
  {
    k := AnyOf(ks);
    var rest := ks - {k};
    if rest != {} {
      var m := Greatest(rest);
      k := if m > k then m else k;
      forall j | j in ks
        ensures j <= k
      {
        assert j in rest || j == AnyOf(ks);
      }
    } else {
      assert forall j :: j in ks ==> j == k || j in rest;
    }
  }

  /** The last admitted request of a window saw the others, as far as their times differ from its own. */
  lemma EarlierAreSeen(limit: int, times: seq<int>, end: int, k: nat)
    requires Ordered(times) && k in AdmittedIn(limit, times, end)
    requires forall j :: j in AdmittedIn(limit, times, end) ==> j <= k
    ensures TimesOf(times, AdmittedIn(limit, times, end)) - {times[k]} <= Recent(times, k, times[k] - WINDOW)
  {
    var ks := AdmittedIn(limit, times, end);
    forall t | t in TimesOf(times, ks) && t != times[k]
      ensures t in Recent(times, k, times[k] - WINDOW)
    {
      var j :| j in ks && times[j] == t;
      assert j < k && times[j] > times[k] - WINDOW;
    }
  }

  lemma AdmittedSawFew(limit: int, times: seq<int>, end: int, k: nat)
    requires Ordered(times) && k in AdmittedIn(limit, times, end)
    ensures |Recent(times, k, times[k] - WINDOW)| <= limit
  {
    BucketIsHistory(times, k, times[k]);
  }

  lemma BurstUpTo(limit: int, times: seq<int>, end: int, k: nat)
    requires Ordered(times) && k in AdmittedIn(limit, times, end)
    requires forall j :: j in AdmittedIn(limit, times, end) ==> j <= k
    ensures |TimesOf(times, AdmittedIn(limit, times, end))| <= limit + 1
  {
    var ts := TimesOf(times, AdmittedIn(limit, times, end));
    AdmittedSawFew(limit, times, end, k);
    EarlierAreSeen(limit, times, end, k);
    SubsetSize(ts - {times[k]}, Recent(times, k, times[k] - WINDOW));
  }

  /** Over every run, the admitted requests of any one-minute window fall on at most limit + 1
      distinct milliseconds. */
  lemma BurstIsBounded(limit: int, times: seq<int>, end: int)
    requires Ordered(times)
    ensures |TimesOf(times, AdmittedIn(limit, times, end))| <= Burst(limit)
  {
    if AdmittedIn(limit, times, end) != {} {
      var k := Greatest(AdmittedIn(limit, times, end));
      BurstUpTo(limit, times, end, k);
    }
  }

  lemma {:induction false} ImageSize(times: seq<int>, ks: set<int>)
    requires forall k :: k in ks ==> 0 <= k < |times|
    requires forall i, j :: 0 <= i < j < |times| ==> times[i] != times[j]
    ensures |TimesOf(times, ks)| == |ks|
  {
    if ks != {} {
      var k := AnyOf(ks);
      ImageSize(times, ks - {k});
      ImageSplits(times, ks, k);
    }
  }

  lemma ImageSplits(times: seq<int>, ks: set<int>, k: int)
    requires k in ks && forall j :: j in ks ==> 0 <= j < |times|
    requires forall i, j :: 0 <= i < j < |times| ==> times[i] != times[j]
    ensures TimesOf(times, ks) == TimesOf(times, ks - {k}) + {times[k]}
    ensures times[k] !in TimesOf(times, ks - {k})
  {
  }

  /** For requests at distinct milliseconds at most limit + 1 are admitted in any minute. */
  lemma DistinctRequestsAreBounded(limit: int, times: seq<int>, end: int)
    requires Ordered(times) && forall i, j :: 0 <= i < j < |times| ==> times[i] != times[j]
    ensures |AdmittedIn(limit, times, end)| <= Burst(limit)
  {
    BurstIsBounded(limit, times, end);
    ImageSize(times, AdmittedIn(limit, times, end));
  }

  // ---------------------------------------------------------------- without distinct milliseconds

  /** The bound for every arrival sequence, simultaneous requests included. */
  ghost predicate AlwaysBounded(limit: int) {
    forall times, end :: Ordered(times) ==> |AdmittedIn(limit, times, end)| <= Burst(limit)
  }

  function Simultaneous(n: nat): seq<int> {
    seq(n, _ => 0)
  }

  lemma SimultaneousAllAdmitted(limit: int, n: nat, k: nat)
    requires limit >= 1 && k < n
    ensures Admits(limit, Simultaneous(n), k)
  {
    var times := Simultaneous(n);
    BucketIsHistory(times, k, 0);
    assert Recent(times, k, 0 - WINDOW) <= {0};
    SubsetSize(Recent(times, k, 0 - WINDOW), {0});
  }

  function Positions(n: nat): (ks: set<int>)
    ensures forall k :: k in ks <==> 0 <= k < n
    ensures |ks| == n
  {
    if n == 0 then {} else Positions(n - 1) + {n - 1}
  }

  lemma RecentHas(times: seq<int>, k: nat, start: int, j: nat)
    requires j < k <= |times| && times[j] > start
    ensures |Recent(times, k, start)| > 0
  {
    assert times[j] in Recent(times, k, start);
  }

  lemma ZeroLimitAdmitsOne(limit: int, times: seq<int>, end: int)
    requires limit <= 0 && Ordered(times)
    ensures |AdmittedIn(limit, times, end)| <= Burst(limit)
  {
    var ks := AdmittedIn(limit, times, end);
    if ks != {} {
      var k := Greatest(ks);
      BucketIsHistory(times, k, times[k]);
      var seen := Recent(times, k, times[k] - WINDOW);
      forall j | j in ks
        ensures j == k
      {
        if j < k {
          RecentHas(times, k, times[k] - WINDOW, j);
          assert false;
        }
      }
      assert ks == {k};
      assert limit == 0;
    }
  }

  /** Requests of one millisecond are one member, so for them the bound is false as soon as a second
      request may be admitted at all: it holds for every arrival sequence iff the limit is not positive. */
  lemma AlwaysBoundedIff(limit: int)
    ensures AlwaysBounded(limit) <==> limit <= 0
  {
    if limit <= 0 {
      forall times, end | Ordered(times)
        ensures |AdmittedIn(limit, times, end)| <= Burst(limit)
      {
        ZeroLimitAdmitsOne(limit, times, end);
      }
    } else {
      var n := limit + 2;
      var times := Simultaneous(n);
      forall k | 0 <= k < n
        ensures k in AdmittedIn(limit, times, 0)
      {
        SimultaneousAllAdmitted(limit, n, k);
      }
      assert AdmittedIn(limit, times, 0) == Positions(n);
      assert Ordered(times) && |AdmittedIn(limit, times, 0)| > Burst(limit);
    }
  }

  // ---------------------------------------------------------------- the middleware

  lemma AskedOnce(times: seq<int>, now: int)
    requires Ordered(times) && forall i :: 0 <= i < |times| ==> times[i] <= now
    ensures Ordered(times + [now])
    ensures BucketAfter(times + [now]) == Added(BucketAfter(times), now)
    ensures forall limit :: Admits(limit, times + [now], |times|) <==> |Pruned(BucketAfter(times), now)| <= limit
  {
    BucketAppend(times, now);
    AdmitsAppend(times, now);
  }

  lemma BucketAppend(times: seq<int>, now: int)
    ensures BucketAfter(times + [now]) == Added(BucketAfter(times), now)
  {
    assert (times + [now])[..|times|] == times;
  }

  lemma AdmitsAppend(times: seq<int>, now: int)
    ensures forall limit :: Admits(limit, times + [now], |times|) <==> |Pruned(BucketAfter(times), now)| <= limit
  {
    assert (times + [now])[..|times|] == times;
  }

  class RateLimiter {
    const b: int
    var buckets: map<string, Bucket>
    /** History: when each address asked. */
    var asked: map<string, seq<int>>

    constructor (b: int)
      ensures this.b == b && Valid() && asked == map[]
    {
      this.b, buckets, asked := b, map[], map[];
    }

    ghost predicate Valid()
      reads this
    {
      && buckets.Keys == asked.Keys
      && forall ip :: ip in asked ==> Ordered(asked[ip]) && buckets[ip] == BucketAfter(asked[ip])
    }

    function Asked(ip: string): seq<int>
      reads this
    {
      if ip in asked then asked[ip] else []
    }

    /** The Redis stage for one request. */
    method IsAllowed(ip: string, now: int) returns (allowed: bool)
      requires Valid() && forall i :: 0 <= i < |Asked(ip)| ==> Asked(ip)[i] <= now
      modifies this
      ensures Valid() && asked == old(asked)[ip := old(Asked(ip)) + [now]]
      ensures allowed <==> Admits(b, asked[ip], |asked[ip]| - 1)
      ensures allowed <==> |Recent(old(Asked(ip)), |old(Asked(ip))|, now - WINDOW)| <= b
    {
      BucketIsHistory(Asked(ip), |Asked(ip)|, now);
      assert Asked(ip)[..|Asked(ip)|] == Asked(ip);
      var bucket := if ip in buckets then buckets[ip] else EMPTY;
      AskedOnce(Asked(ip), now);
      var count := |Pruned(bucket, now)|;
      allowed := count <= b;
      Record(ip, now, Added(bucket, now));
    }

    /** Keeps the new bucket, and the request in the history. */
    method Record(ip: string, now: int, bucket: Bucket)
      requires Valid() && Ordered(Asked(ip) + [now]) && bucket == BucketAfter(Asked(ip) + [now])
      modifies this
      ensures Valid() && asked == old(asked)[ip := old(Asked(ip)) + [now]]
    {
      var times := Asked(ip) + [now];
      asked, buckets := asked[ip := times], buckets[ip := bucket];
    }
  }
}
