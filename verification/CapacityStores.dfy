/** The two stores behind the capacity estimate, in-process buckets with pruning and Redis counters
    with expiry, and the single and batch reads over them. */
module CapacityStores {
  import opened CapacityWindow
  import opened Sets

  const MAX_INT32: int := 2147483647

  /** Buckets older than this many minutes are pruned. */
  const RETAIN_MINUTES: int := 61

  /** The latest minute in which `channel` was counted; 0 when it never was. */
  ghost function LatestMinute(log: seq<Hit>, channel: int): nat {
    if log == [] then
      0
    else
      var rest, h := LatestMinute(log[..|log| - 1], channel), log[|log| - 1];
      if h.channel == channel && h.at / 60 > rest then h.at / 60 else rest
  }

  /** Only channels with a positive id are ever counted. */
  ghost predicate RealChannels(log: seq<Hit>) {
    forall h :: h in log ==> h.channel > 0
  }

  lemma NoHitsForUnreal(log: seq<Hit>, channel: int, w: int, now: int)
    requires RealChannels(log) && channel <= 0
    ensures Estimate(log, channel, w, now) == 0
  {
    var n, m := Minutes(w), now / 60;
    CountNone(log, channel, 60 * (m - n + 1), 60 * (m + 1));
    CountNone(log, channel, 60 * (m - n), 60 * (m - n) + 60);
  }

  // ----- in-process buckets -----

  type Buckets = map<int, map<int, nat>>

  function BucketsOf(b: Buckets, channel: int): map<int, nat> {
    if channel in b then b[channel] else map[]
  }

  function At(bucket: map<int, nat>, minute: int): nat {
    if minute in bucket then bucket[minute] else 0
  }

  /** One more request in `minute`, old buckets of the channel pruned. */
  function Bumped(bucket: map<int, nat>, minute: int): map<int, nat> {
    var grown := bucket[minute := At(bucket, minute) + 1];
    map k | k in grown && k >= minute - RETAIN_MINUTES :: grown[k]
  }

  /** For every minute that a read can still ask for, the buckets hold the count of the complete
      log; nothing is assumed about the order in which the clock produced the minutes. */
  ghost predicate Faithful(b: Buckets, log: seq<Hit>) {
    forall channel, k ::
      k >= LatestMinute(log, channel) - RETAIN_MINUTES ==> At(BucketsOf(b, channel), k) == InMinute(log, channel, k)
  }

  lemma InMinuteSnoc(log: seq<Hit>, h: Hit, channel: int, k: int)
    ensures InMinute(log + [h], channel, k)
         == InMinute(log, channel, k) + (if h.channel == channel && h.at / 60 == k then 1 else 0)
    ensures LatestMinute(log + [h], channel)
         == (if h.channel == channel && h.at / 60 > LatestMinute(log, channel) then h.at / 60
             else LatestMinute(log, channel))
  {
    CountSnoc(log, h, channel, 60 * k, 60 * k + 60);
    assert (log + [h])[..|log|] == log;
  }

  /** Pruning is invisible: recording a request keeps the buckets faithful to the log. */
  lemma BumpKeepsFaithful(b: Buckets, log: seq<Hit>, h: Hit)
    requires Faithful(b, log)
    ensures Faithful(b[h.channel := Bumped(BucketsOf(b, h.channel), h.at / 60)], log + [h])
  {
    var b' := b[h.channel := Bumped(BucketsOf(b, h.channel), h.at / 60)];
    forall channel, k | k >= LatestMinute(log + [h], channel) - RETAIN_MINUTES
      ensures At(BucketsOf(b', channel), k) == InMinute(log + [h], channel, k)
    {
      InMinuteSnoc(log, h, channel, k);
      assert At(BucketsOf(b, channel), k) == InMinute(log, channel, k);
    }
  }

  class MemoryCapacity {
    var buckets: Buckets
    ghost var log: seq<Hit>

    ghost predicate Valid()
      reads this
    {
      Faithful(buckets, log) && RealChannels(log)
    }

    constructor ()
      ensures Valid() && log == []
    {
      buckets, log := map[], [];
    }

    /** The locked increment: count, then prune the channel's buckets one by one. */
    method Incr(channel: int, minute: int)
      modifies this`buckets
      ensures buckets == old(buckets)[channel := Bumped(BucketsOf(old(buckets), channel), minute)]
      ensures var before, after := BucketsOf(old(buckets), channel), buckets[channel];
              && (forall k :: k in after <==> (k in before || k == minute) && k >= minute - 61)
              && (forall k :: k in after ==>
                    after[k] == (if k in before then before[k] else 0) + (if k == minute then 1 else 0))
    {
      var bucket: map<int, nat> := BucketsOf(buckets, channel);
      bucket := bucket[minute := At(bucket, minute) + 1];
      ghost var grown := bucket;
      var rest: set<int> := bucket.Keys;
      while rest != {}
        invariant buckets == old(buckets) && rest <= grown.Keys
        invariant forall k :: k in bucket <==> k in grown && (k in rest || k >= minute - RETAIN_MINUTES)
        invariant forall k :: k in bucket ==> bucket[k] == grown[k]
        decreases rest
      {
        ghost var some := SomeMember(rest);
        var k :| k in rest;
        if k < minute - RETAIN_MINUTES {
          bucket := bucket - {k};
        }
        rest := rest - {k};
      }
      ghost var goal := Bumped(BucketsOf(old(buckets), channel), minute);
      assert forall k :: k in bucket <==> k in grown && k >= minute - RETAIN_MINUTES;
      assert forall k :: k in goal <==> k in grown && k >= minute - RETAIN_MINUTES;
      assert bucket.Keys == goal.Keys;
      assert bucket == goal;
      buckets := buckets[channel := bucket];
    }

    /** Counts one request of the channel; ids that are not positive are ignored. */
    method IncrChannel(channel: int, now: nat)
      requires Valid()
      modifies this
      ensures Valid()
      ensures log == if channel <= 0 then old(log) else old(log) + [Hit(channel, now)]
    {
      if channel <= 0 {
        return;
      }
      BumpKeepsFaithful(buckets, log, Hit(channel, now));
      Incr(channel, now / 60);
      log := log + [Hit(channel, now)];
    }

    /** The newest `n` buckets of a channel, going back from `minute`. */
    method GetN(channel: int, minute: int, n: nat) returns (counts: seq<int>)
      requires Valid()
      ensures |counts| == n
      ensures n <= 61 && minute >= LatestMinute(log, channel) ==>
                forall i :: 0 <= i < n ==> counts[i] == InMinute(log, channel, minute - i)
    {
      var out := new int[n];
      var bucket := BucketsOf(buckets, channel);
      for i := 0 to n
        invariant forall j :: 0 <= j < i ==> out[j] == At(bucket, minute - j)
      {
        out[i] := At(bucket, minute - i);
      }
      counts := out[..];
    }

    /** The buckets of one channel, weighted for its window. */
    method Read(channel: int, w: int, bucketClock: nat, weightClock: nat) returns (sum: int)
      requires Valid()
      ensures bucketClock / 60 >= LatestMinute(log, channel) ==>
                sum == Estimate(log, channel, w, ReadTime(bucketClock, weightClock))
    {
      var counts := GetN(channel, bucketClock / 60, BucketCount(w));
      sum := CapacityWeightedMulti(counts, w, weightClock);
      if bucketClock / 60 >= LatestMinute(log, channel) {
        WeightedIsEstimate(log, channel, w, bucketClock / 60, weightClock % 60, counts);
      }
    }

    /** The read of one channel equals the estimate of the complete log, at any time not before the
        channel's last increment. */
    method GetCount(channel: int, w: int, bucketClock: nat, weightClock: nat) returns (sum: int)
      requires Valid()
      ensures bucketClock / 60 >= LatestMinute(log, channel) ==>
                sum == Estimate(log, channel, w, ReadTime(bucketClock, weightClock))
    {
      if channel <= 0 {
        NoHitsForUnreal(log, channel, w, ReadTime(bucketClock, weightClock));
        return 0;
      }
      sum := Read(channel, w, bucketClock, weightClock);
    }

    /** The batch read gives every channel what its single read gives. The edge weight is sampled
        anew for every channel. */
    method BatchGetCounts(channels: seq<int>, w: int, bucketClock: nat, weightClocks: seq<nat>)
      returns (result: map<int, int>)
      requires Valid() && |weightClocks| == |channels|
      ensures forall c :: c in result <==> c in channels
      ensures forall c :: c in channels && bucketClock / 60 >= LatestMinute(log, c) ==>
                exists i :: 0 <= i < |channels| && channels[i] == c
                  && result[c] == Estimate(log, c, w, ReadTime(bucketClock, weightClocks[i]))
    {
      hide Estimate, ReadTime;
      result := map[];
      for k := 0 to |channels|
        invariant forall c :: c in result <==> exists i :: 0 <= i < k && channels[i] == c
        invariant forall c :: c in result && bucketClock / 60 >= LatestMinute(log, c) ==>
                    exists i :: 0 <= i < k && channels[i] == c
                      && result[c] == Estimate(log, c, w, ReadTime(bucketClock, weightClocks[i]))
      {
        var sum := Read(channels[k], w, bucketClock, weightClocks[k]);
        result := result[channels[k] := sum];
      }
    }

    /** The batch read with a window per channel. */
    method BatchGetCountsPerWindow(windows: map<int, int>, clock: nat, weightClocks: map<int, nat>)
      returns (result: map<int, int>)
      requires Valid() && windows.Keys <= weightClocks.Keys
      ensures result.Keys == windows.Keys
      ensures forall c :: c in windows && clock / 60 >= LatestMinute(log, c) ==>
                result[c] == Estimate(log, c, windows[c], ReadTime(clock, weightClocks[c]))
    {
      hide Estimate, ReadTime;
      result := map[];
      var rest: set<int> := windows.Keys;
      while rest != {}
        invariant rest <= windows.Keys
        invariant result.Keys == windows.Keys - rest
        invariant forall c :: c in result && clock / 60 >= LatestMinute(log, c) ==>
                    result[c] == Estimate(log, c, windows[c], ReadTime(clock, weightClocks[c]))
        decreases rest
      {
        ghost var some := SomeMember(rest);
        var c :| c in rest;
        var sum := Read(c, windows[c], clock, weightClocks[c]);
        result := result[c := sum];
        rest := rest - {c};
      }
    }
  }

  // ----- Redis counters -----

  /** A counter and the second at which it disappears. */
  datatype Counter = Counter(count: nat, expiresAt: int)

  /** A recorded increment, with the time to live that it set. */
  datatype TtlHit = TtlHit(hit: Hit, ttl: int)

  function Hits(log: seq<TtlHit>): (r: seq<Hit>)
    ensures |r| == |log|
  {
    if log == [] then [] else Hits(log[..|log| - 1]) + [log[|log| - 1].hit]
  }

  type Key = (int, int)

  function Live(store: map<Key, Counter>, key: Key, now: int): nat {
    if key in store && now < store[key].expiresAt then store[key].count else 0
  }

  /** INCR followed by EXPIRE. */
  function Incremented(store: map<Key, Counter>, key: Key, now: int, ttl: int): map<Key, Counter> {
    store[key := Counter(Live(store, key, now) + 1, now + ttl)]
  }

  /** A time to live keeps a counter readable for window `w`, at every later second at which a read can ask
      for it, exactly when it is at least the window and one minute. */
  lemma TtlSufficesIff(w: int, ttl: int)
    ensures (forall refreshed: nat, now: nat :: refreshed <= now && CanAsk(w, refreshed / 60, now) ==>
               Live(Incremented(map[], (1, refreshed / 60), refreshed, ttl), (1, refreshed / 60), now) == 1)
            <==> ttl >= NormalizeWindow(w) + 60
  {
    if ttl < NormalizeWindow(w) + 60 {
      var refreshed, now := 0, NormalizeWindow(w) + 59;
      assert now / 60 == Minutes(w);
      assert CanAsk(w, refreshed / 60, now) && now >= refreshed + ttl;
      assert Live(Incremented(map[], (1, 0), refreshed, ttl), (1, 0), now) == 0;
    }
  }

  /** A window-`w` read at second `now` asks for the bucket of `minute`. */
  predicate CanAsk(w: int, minute: int, now: int) {
    now / 60 - Minutes(w) <= minute <= now / 60
  }

  /** Every increment of the channel set a time to live that is enough for window `w`. */
  ghost predicate TtlsCover(log: seq<TtlHit>, channel: int, w: int) {
    forall e :: e in log && e.hit.channel == channel ==> e.ttl >= TtlForWindow(w)
  }

  /** A bucket with requests in it is stored with their number and lives as long as window `w`
      needs it; a bucket without requests is not stored. */
  ghost predicate StoredFor(store: map<Key, Counter>, log: seq<Hit>, channel: int, w: int, minute: int) {
    if InMinute(log, channel, minute) == 0 then
      (channel, minute) !in store
    else
      && (channel, minute) in store
      && store[(channel, minute)].count == InMinute(log, channel, minute)
      && store[(channel, minute)].expiresAt >= 60 * minute + TtlForWindow(w)
  }

  ghost predicate RedisFaithful(store: map<Key, Counter>, log: seq<TtlHit>) {
    forall channel, w, minute {:trigger StoredFor(store, Hits(log), channel, w, minute)} ::
      TtlsCover(log, channel, w) ==> StoredFor(store, Hits(log), channel, w, minute)
  }

  lemma HitsSnoc(log: seq<TtlHit>, e: TtlHit)
    ensures Hits(log + [e]) == Hits(log) + [e.hit]
  {
    assert (log + [e])[..|log|] == log;
  }

  /** Expiry is invisible: an increment keeps the counters faithful for every window that the times
      to live cover. */
  lemma IncrementKeepsFaithful(store: map<Key, Counter>, log: seq<TtlHit>, e: TtlHit)
    requires RedisFaithful(store, log)
    ensures RedisFaithful(Incremented(store, (e.hit.channel, e.hit.at / 60), e.hit.at, e.ttl), log + [e])
  {
    var key := (e.hit.channel, e.hit.at / 60);
    var store' := Incremented(store, key, e.hit.at, e.ttl);
    HitsSnoc(log, e);
    forall channel, w, minute | TtlsCover(log + [e], channel, w)
      ensures StoredFor(store', Hits(log + [e]), channel, w, minute)
    {
      assert forall x :: x in log ==> x in log + [e];
      assert e in log + [e];
      assert StoredFor(store, Hits(log), channel, w, minute);
      InMinuteSnoc(Hits(log), e.hit, channel, minute);
    }
  }

  /** Whatever a window-`w` read may ask for, Redis still has it. */
  lemma LiveIsInMinute(store: map<Key, Counter>, log: seq<TtlHit>, channel: int, w: int, minute: int, now: nat)
    requires RedisFaithful(store, log) && TtlsCover(log, channel, w)
    requires CanAsk(w, minute, now)
    ensures Live(store, (channel, minute), now) == InMinute(Hits(log), channel, minute)
  {
    assert StoredFor(store, Hits(log), channel, w, minute);
  }

  class RedisCapacity {
    var store: map<Key, Counter>
    ghost var log: seq<TtlHit>

    ghost predicate Valid()
      reads this
    {
      RedisFaithful(store, log) && RealChannels(Hits(log))
    }

    constructor ()
      ensures Valid() && log == []
    {
      store, log := map[], [];
    }

    method IncrChannel(channel: int, ttl: int, now: nat)
      requires Valid()
      modifies this
      ensures Valid()
      ensures log == if channel <= 0 then old(log)
                     else old(log) + [TtlHit(Hit(channel, now), if ttl > 0 then ttl else 130)]
    {
      if channel <= 0 {
        return;
      }
      var effective := if ttl <= 0 then TTL_DEFAULT_SEC else ttl;
      ghost var e := TtlHit(Hit(channel, now), effective);
      IncrementKeepsFaithful(store, log, e);
      HitsSnoc(log, e);
      store := Incremented(store, (channel, now / 60), now, effective);
      log := log + [e];
    }

    /** The counters of one channel, going back `n` minutes from `clock`. */
    method Fetch(channel: int, clock: nat, n: nat) returns (counts: seq<int>)
      requires Valid()
      ensures |counts| == n
      ensures forall w :: TtlsCover(log, channel, w) && BucketCount(w) <= n ==>
                forall i :: 0 <= i < BucketCount(w) ==>
                  counts[i] == InMinute(Hits(log), channel, clock / 60 - i)
    {
      var out := new int[n];
      for i := 0 to n
        invariant forall j :: 0 <= j < i ==> out[j] == Live(store, (channel, clock / 60 - j), clock)
      {
        out[i] := Live(store, (channel, clock / 60 - i), clock);
      }
      counts := out[..];
      forall w, i | TtlsCover(log, channel, w) && BucketCount(w) <= n && 0 <= i < BucketCount(w)
        ensures counts[i] == InMinute(Hits(log), channel, clock / 60 - i)
      {
        LiveIsInMinute(store, log, channel, w, clock / 60 - i, clock);
      }
    }

    /** The first `n` counters of one channel, weighted for its window. */
    method Read(channel: int, w: int, n: nat, bucketClock: nat, weightClock: nat) returns (sum: int)
      requires Valid() && n >= BucketCount(w)
      ensures TtlsCover(log, channel, w) ==>
                sum == Estimate(Hits(log), channel, w, ReadTime(bucketClock, weightClock))
    {
      var counts := Fetch(channel, bucketClock, n);
      sum := CapacityWeightedMulti(counts, w, weightClock);
      if TtlsCover(log, channel, w) {
        WeightedIsEstimate(Hits(log), channel, w, bucketClock / 60, weightClock % 60, counts);
      }
    }

    /** The read of one channel equals the estimate of the complete log; when Redis fails it is 0 or
        the largest 32-bit integer, as the caller asked. */
    method GetCount(channel: int, w: int, bucketClock: nat, weightClock: nat, redisOk: bool, failClosed: bool)
      returns (sum: int)
      requires Valid()
      ensures channel > 0 && !redisOk ==> sum == if failClosed then 60 * 2147483647 else 0
      ensures (channel <= 0 || redisOk) && TtlsCover(log, channel, w) ==>
                sum == Estimate(Hits(log), channel, w, ReadTime(bucketClock, weightClock))
    {
      if channel <= 0 {
        NoHitsForUnreal(Hits(log), channel, w, ReadTime(bucketClock, weightClock));
        return 0;
      }
      if !redisOk {
        return FailValue(failClosed);
      }
      sum := Read(channel, w, BucketCount(w), bucketClock, weightClock);
    }

    /** The batch read with one window for all channels. */
    method BatchGetCounts(channels: seq<int>, w: int, bucketClock: nat, weightClocks: seq<nat>,
                          redisOk: bool, failClosed: bool)
      returns (result: map<int, int>)
      requires Valid() && |weightClocks| == |channels|
      ensures forall c :: c in result <==> c in channels
      ensures !redisOk ==> forall c :: c in result ==> result[c] == if failClosed then 60 * 2147483647 else 0
      ensures redisOk ==> forall c :: c in channels && TtlsCover(log, c, w) ==>
                exists i :: 0 <= i < |channels| && channels[i] == c
                  && result[c] == Estimate(Hits(log), c, w, ReadTime(bucketClock, weightClocks[i]))
    {
      hide Estimate, ReadTime;
      if !redisOk {
        return map c | c in channels :: FailValue(failClosed);
      }
      result := map[];
      for k := 0 to |channels|
        invariant forall c :: c in result <==> exists i :: 0 <= i < k && channels[i] == c
        invariant forall c :: c in result && TtlsCover(log, c, w) ==>
                    exists i :: 0 <= i < k && channels[i] == c
                      && result[c] == Estimate(Hits(log), c, w, ReadTime(bucketClock, weightClocks[i]))
      {
        var sum := Read(channels[k], w, BucketCount(w), bucketClock, weightClocks[k]);
        result := result[channels[k] := sum];
      }
    }

    /** The batch read with a window per channel: one pipeline fetches as many buckets as the widest
        window needs, and every channel uses the ones of its own window. */
    method BatchGetCountsPerWindow(windows: map<int, int>, clock: nat, weightClocks: map<int, nat>,
                                   redisOk: bool, failClosed: bool)
      returns (result: map<int, int>)
      requires Valid() && windows.Keys <= weightClocks.Keys
      ensures result.Keys == windows.Keys
      ensures !redisOk ==> forall c :: c in windows ==> result[c] == if failClosed then 60 * 2147483647 else 0
      ensures redisOk ==> forall c :: c in windows && TtlsCover(log, c, windows[c]) ==>
                result[c] == Estimate(Hits(log), c, windows[c], ReadTime(clock, weightClocks[c]))
    {
      hide Estimate, ReadTime;
      var maxBuckets := MaxBuckets(windows);
      if !redisOk {
        return map c | c in windows :: FailValue(failClosed);
      }
      result := map[];
      var rest: set<int> := windows.Keys;
      while rest != {}
        invariant rest <= windows.Keys
        invariant result.Keys == windows.Keys - rest
        invariant forall c :: c in result && TtlsCover(log, c, windows[c]) ==>
                    result[c] == Estimate(Hits(log), c, windows[c], ReadTime(clock, weightClocks[c]))
        decreases rest
      {
        ghost var some := SomeMember(rest);
        var c :| c in rest;
        var sum := Read(c, windows[c], maxBuckets, clock, weightClocks[c]);
        result := result[c := sum];
        rest := rest - {c};
      }
    }
  }

  /** What a read answers when Redis fails, scaled like the estimate. */
  function FailValue(failClosed: bool): int {
    if failClosed then 60 * MAX_INT32 else 0
  }

  /** The number of buckets that the widest window needs. */
  method MaxBuckets(windows: map<int, int>) returns (most: nat)
    ensures forall c :: c in windows ==> BucketCount(windows[c]) <= most
    ensures windows != map[] ==> exists c :: c in windows && BucketCount(windows[c]) == most
  {
    most := 0;
    var rest: set<int> := windows.Keys;
    while rest != {}
      invariant rest <= windows.Keys
      invariant forall c :: c in windows && c !in rest ==> BucketCount(windows[c]) <= most
      invariant most > 0 ==> exists c :: c in windows && BucketCount(windows[c]) == most
      invariant rest != windows.Keys ==> most > 0
      decreases rest
    {
      ghost var some := SomeMember(rest);
      var c :| c in rest;
      if BucketCount(windows[c]) > most {
        most := BucketCount(windows[c]);
      }
      rest := rest - {c};
    }
  }
}
