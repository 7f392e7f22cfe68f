/** The bucketed sliding-window estimate of how many requests a channel started recently, and what
    it says about the complete log of request times. Estimates are scaled by 60, so that the edge
    bucket's weight `(60 - elapsed) / 60` stays an integer. */
module CapacityWindow {

  const MIN_WINDOW_SEC: int := 60
  const MAX_WINDOW_SEC: int := 3600
  const TTL_DEFAULT_SEC: int := 130

  /** The window rounded up to whole minutes, between one minute and one hour. */
  function NormalizeWindow(w: int): (r: int)
    ensures 60 <= r <= 3600 && r % 60 == 0
    ensures 60 <= w <= 3600 ==> w <= r < w + 60
    ensures w <= 60 ==> r == 60
    ensures w >= 3600 ==> r == 3600
  {
    if w <= MIN_WINDOW_SEC then
      MIN_WINDOW_SEC
    else if w >= MAX_WINDOW_SEC then
      MAX_WINDOW_SEC
    else
      (w + 59) / 60 * 60
  }

  /** The window, one more minute and ten seconds; the default is never longer. */
  function TtlForWindow(w: int): (r: int)
    ensures r == NormalizeWindow(w) + 70
  {
    var ttl := NormalizeWindow(w) + 70;
    if ttl < TTL_DEFAULT_SEC then TTL_DEFAULT_SEC else ttl
  }

  /** The number of whole minutes in the window. */
  function Minutes(w: int): (n: nat)
    ensures 1 <= n <= 60 && 60 * n == NormalizeWindow(w)
  {
    NormalizeWindow(w) / 60
  }

  /** The whole buckets and the edge bucket. */
  function BucketCount(w: int): (n: nat)
    ensures n == Minutes(w) + 1 <= 61
  {
    NormalizeWindow(w) / 60 + 1
  }

  // ----- the complete log -----

  datatype Hit = Hit(channel: int, at: nat)

  /** How many requests of `channel` started in the seconds `lo` up to `hi`. */
  function CountIn(log: seq<Hit>, channel: int, lo: int, hi: int): nat {
    if log == [] then
      0
    else
      var h := log[|log| - 1];
      CountIn(log[..|log| - 1], channel, lo, hi)
      + (if h.channel == channel && lo <= h.at < hi then 1 else 0)
  }

  function InMinute(log: seq<Hit>, channel: int, minute: int): nat {
    CountIn(log, channel, 60 * minute, 60 * minute + 60)
  }

  lemma {:induction false} CountSplit(log: seq<Hit>, channel: int, lo: int, mid: int, hi: int)
    requires lo <= mid <= hi
    ensures CountIn(log, channel, lo, hi) == CountIn(log, channel, lo, mid) + CountIn(log, channel, mid, hi)
  {
    if log != [] {
      CountSplit(log[..|log| - 1], channel, lo, mid, hi);
    }
  }

  lemma {:induction false} CountNone(log: seq<Hit>, channel: int, lo: int, hi: int)
    requires forall h :: h in log && h.channel == channel ==> !(lo <= h.at < hi)
    ensures CountIn(log, channel, lo, hi) == 0
  {
    if log != [] {
      var n := |log| - 1;
      assert log[n] in log;
      assert forall h :: h in log[..n] ==> h in log;
      CountNone(log[..n], channel, lo, hi);
    }
  }

  lemma CountSnoc(log: seq<Hit>, h: Hit, channel: int, lo: int, hi: int)
    ensures CountIn(log + [h], channel, lo, hi)
         == CountIn(log, channel, lo, hi) + (if h.channel == channel && lo <= h.at < hi then 1 else 0)
  {
    assert (log + [h])[..|log|] == log;
  }

  // ----- the estimate -----

  function SumPrefix(buckets: seq<int>, n: nat): int
    requires n <= |buckets|
  {
    if n == 0 then 0 else SumPrefix(buckets, n - 1) + buckets[n - 1]
  }

  function WholeBuckets(buckets: seq<int>, w: int): nat {
    if Minutes(w) <= |buckets| then Minutes(w) else |buckets|
  }

  /** The weighted sum of the buckets, newest first: the whole ones and the edge one. */
  function Weighted(buckets: seq<int>, w: int, elapsed: int): int {
    var n := Minutes(w);
    60 * SumPrefix(buckets, WholeBuckets(buckets, w))
    + (if n < |buckets| then buckets[n] * (60 - elapsed) else 0)
  }

  /** The aggregation loop. `clock` is the time sampled for the edge weight. */
  method CapacityWeightedMulti(buckets: seq<int>, w: int, clock: nat) returns (sum: int)
    ensures sum == Weighted(buckets, w, clock % 60)
    ensures |buckets| <= Minutes(w) ==> sum == 60 * SumPrefix(buckets, |buckets|)
  {
    var n := NormalizeWindow(w) / 60;
    var weightOldest := 60 - clock % 60;
    sum := 0;
    var i := 0;
    while i < n && i < |buckets|
      invariant 0 <= i <= n && i <= |buckets|
      invariant sum == 60 * SumPrefix(buckets, i)
    {
      sum := sum + 60 * buckets[i];
      i := i + 1;
    }
    if n < |buckets| {
      sum := sum + buckets[n] * weightOldest;
    }
  }

  /** The estimate at second `now`, from the complete log. */
  function Estimate(log: seq<Hit>, channel: int, w: int, now: int): int {
    var n, minute, elapsed := Minutes(w), now / 60, now % 60;
    60 * CountIn(log, channel, 60 * (minute - n + 1), 60 * (minute + 1))
    + (60 - elapsed) * InMinute(log, channel, minute - n)
  }

  /** The second that a read stands for when the bucket minute and the edge weight come from two
      clock samples: it lies in the minute of the first sample. */
  function ReadTime(bucketClock: nat, weightClock: nat): (t: nat)
    ensures t / 60 == bucketClock / 60
    ensures bucketClock / 60 == weightClock / 60 ==> t == weightClock
  {
    bucketClock / 60 * 60 + weightClock % 60
  }

  lemma {:induction false} SumOfMinuteCounts(log: seq<Hit>, channel: int, minute: int, buckets: seq<int>, n: nat)
    requires n <= |buckets|
    requires forall i :: 0 <= i < n ==> buckets[i] == InMinute(log, channel, minute - i)
    ensures SumPrefix(buckets, n) == CountIn(log, channel, 60 * (minute - n + 1), 60 * (minute + 1))
  {
    if n == 0 {
      CountNone(log, channel, 60 * (minute + 1), 60 * (minute + 1));
    } else {
      SumOfMinuteCounts(log, channel, minute, buckets, n - 1);
      CountSplit(log, channel, 60 * (minute - n + 1), 60 * (minute - n + 2), 60 * (minute + 1));
    }
  }

  /** Buckets that hold the per-minute counts of the log, as far as the window needs them, give the
      estimate; further buckets do not matter. */
  lemma WeightedIsEstimate(log: seq<Hit>, channel: int, w: int, minute: nat, elapsed: nat, buckets: seq<int>)
    requires elapsed < 60 && |buckets| >= BucketCount(w)
    requires forall i :: 0 <= i < BucketCount(w) ==> buckets[i] == InMinute(log, channel, minute - i)
    ensures Weighted(buckets, w, elapsed) == Estimate(log, channel, w, 60 * minute + elapsed)
  {
    SumOfMinuteCounts(log, channel, minute, buckets, Minutes(w));
    assert (60 * minute + elapsed) / 60 == minute && (60 * minute + elapsed) % 60 == elapsed;
  }

  // ----- what the estimate says -----

  /** Without new requests the estimate never increases as time passes, whichever minutes are
      crossed. */
  lemma EstimateNeverIncreases(log: seq<Hit>, channel: int, w: int, now: nat, later: nat)
    requires now <= later
    requires forall h :: h in log && h.channel == channel ==> h.at / 60 <= now / 60
    ensures Estimate(log, channel, w, later) <= Estimate(log, channel, w, now)
  {
    var n, m, m' := Minutes(w), now / 60, later / 60;
    if m == m' {
      assert later % 60 >= now % 60;
      WeightOrder(InMinute(log, channel, m - n), 60 - later % 60, 60 - now % 60);
    } else {
      var start := 60 * (m' - n);
      CountSplit(log, channel, start, start + 60, 60 * (m' + 1));
      WeightOrder(InMinute(log, channel, m' - n), 60 - later % 60, 60);
      WeightOrder(InMinute(log, channel, m - n), 0, 60 - now % 60);
      CountUpToLast(log, channel, 60 * (m - n + 1), start, 60 * (m + 1), 60 * (m' + 1));
    }
  }

  /** Two reads one after the other, each sampling the clock first for the buckets and then for the edge
      weight: the second read stands for an earlier second than the first one exactly if both take their
      buckets from one minute but the second takes its weight from the next one. */
  lemma ReadTimesGoBackIff(bucket1: nat, weight1: nat, bucket2: nat, weight2: nat)
    requires bucket1 <= weight1 <= bucket2 <= weight2 < bucket2 + 60
    ensures ReadTime(bucket2, weight2) < ReadTime(bucket1, weight1)
       <==> bucket1 / 60 == bucket2 / 60 && weight2 / 60 > bucket2 / 60 && weight2 % 60 < weight1 % 60
  {
    if bucket1 / 60 == bucket2 / 60 {
      assert weight1 / 60 == bucket1 / 60;
    } else {
      assert bucket1 / 60 < bucket2 / 60;
    }
  }

  /** Such a step back, and nothing else, can make a read increase although no request was added. */
  lemma ReadsNeverIncreaseIff(channel: int, w: int, first: nat, second: nat)
    requires first / 60 <= second / 60 && first / 60 >= Minutes(w)
    ensures first <= second <==>
            forall log: seq<Hit> :: (forall h :: h in log && h.channel == channel ==> h.at / 60 <= first / 60) ==>
              Estimate(log, channel, w, second) <= Estimate(log, channel, w, first)
  {
    if first <= second {
      forall log: seq<Hit> | forall h :: h in log && h.channel == channel ==> h.at / 60 <= first / 60
        ensures Estimate(log, channel, w, second) <= Estimate(log, channel, w, first)
      {
        EstimateNeverIncreases(log, channel, w, first, second);
      }
    } else {
      var edge := first / 60 - Minutes(w);
      var log := [Hit(channel, 60 * edge)];
      OneHit(channel, w, first, edge);
      OneHit(channel, w, second, edge);
      assert forall h :: h in log ==> h.at / 60 <= first / 60;
      assert Estimate(log, channel, w, second) > Estimate(log, channel, w, first);
    }
  }

  /** A single request in the edge minute counts with the edge weight. */
  lemma OneHit(channel: int, w: int, now: nat, edge: nat)
    requires edge == now / 60 - Minutes(w)
    ensures Estimate([Hit(channel, 60 * edge)], channel, w, now) == 60 - now % 60
  {
    var h := Hit(channel, 60 * edge);
    assert [] + [h] == [h];
    CountSnoc([], h, channel, 60 * edge, 60 * edge + 60);
    CountSnoc([], h, channel, 60 * (edge + 1), 60 * (now / 60 + 1));
  }

  /** Starting the count later and reaching beyond the last request cannot give more. */
  lemma CountUpToLast(log: seq<Hit>, channel: int, lo: int, lo': int, hi: int, hi': int)
    requires lo <= lo' && lo <= hi <= hi' && lo' <= hi'
    requires forall h :: h in log && h.channel == channel ==> h.at < hi
    ensures CountIn(log, channel, lo', hi') <= CountIn(log, channel, lo, hi)
  {
    CountSplit(log, channel, lo, lo', hi');
    CountSplit(log, channel, lo, hi, hi');
    CountNone(log, channel, hi, hi');
  }

  /** One window and one minute after the last request the estimate is zero. */
  lemma EstimateReachesZero(log: seq<Hit>, channel: int, w: int, now: nat)
    requires forall h :: h in log && h.channel == channel ==> h.at / 60 + Minutes(w) + 1 <= now / 60
    ensures Estimate(log, channel, w, now) == 0
  {
    var n, m := Minutes(w), now / 60;
    forall h | h in log && h.channel == channel
      ensures h.at < 60 * (m - n)
    {
      assert h.at / 60 + 1 <= m - n;
    }
    CountNone(log, channel, 60 * (m - n + 1), 60 * (m + 1));
    CountNone(log, channel, 60 * (m - n), 60 * (m - n) + 60);
  }

  /** The true number of requests in the last window, up to and including `now`. */
  function TrueCount(log: seq<Hit>, channel: int, w: int, now: int): nat {
    CountIn(log, channel, now - NormalizeWindow(w), now + 1)
  }

  /** The true count, cut at the end of the edge minute. */
  lemma TrueCountSplit(log: seq<Hit>, channel: int, w: int, now: nat)
    requires forall h :: h in log && h.channel == channel ==> h.at <= now
    ensures var edgeEnd := 60 * (now / 60 - Minutes(w) + 1);
            TrueCount(log, channel, w, now)
            == CountIn(log, channel, now - NormalizeWindow(w), edgeEnd)
               + CountIn(log, channel, edgeEnd, 60 * (now / 60 + 1))
  {
    var edgeEnd := 60 * (now / 60 - Minutes(w) + 1);
    CountSplit(log, channel, now - NormalizeWindow(w), edgeEnd, now + 1);
    CountSplit(log, channel, edgeEnd, now + 1, 60 * (now / 60 + 1));
    CountNone(log, channel, now + 1, 60 * (now / 60 + 1));
  }

  /** The estimate misses the true count by at most the edge bucket: by the part of it that the
      weight lets in at most upwards, by the part it keeps out at most downwards. */
  lemma EstimateWithinEdgeBucket(log: seq<Hit>, channel: int, w: int, now: nat)
    requires forall h :: h in log && h.channel == channel ==> h.at <= now
    ensures var edge, elapsed := InMinute(log, channel, now / 60 - Minutes(w)), now % 60;
            var error := Estimate(log, channel, w, now) - 60 * TrueCount(log, channel, w, now);
            && -(elapsed * edge) <= error <= (60 - elapsed) * edge
            && -(60 * edge) <= error <= 60 * edge
  {
    var n, m, elapsed := Minutes(w), now / 60, now % 60;
    var start := 60 * (m - n);
    var edge := InMinute(log, channel, m - n);
    TrueCountSplit(log, channel, w, now);
    assert now - NormalizeWindow(w) == start + elapsed;
    CountSplit(log, channel, start, start + elapsed, start + 60);
    var tail := CountIn(log, channel, start + elapsed, start + 60);
    assert tail <= edge;
    EdgeArithmetic(edge, tail, elapsed);
  }

  lemma EdgeArithmetic(edge: nat, tail: nat, elapsed: nat)
    requires tail <= edge && elapsed < 60
    ensures -(elapsed * edge) <= (60 - elapsed) * edge - 60 * tail <= (60 - elapsed) * edge
    ensures elapsed * edge <= 60 * edge && (60 - elapsed) * edge <= 60 * edge
  {
    assert (60 - elapsed) * edge == 60 * edge - elapsed * edge;
  }

  lemma WeightOrder(edge: nat, weight: nat, weight': nat)
    requires weight <= weight'
    ensures weight * edge <= weight' * edge
  {
  }

  /** The edge minute's requests are spread evenly: `k` in every second. */
  ghost predicate EvenlySpread(log: seq<Hit>, channel: int, minute: int, k: nat) {
    forall t :: 60 * minute <= t < 60 * minute + 60 ==> CountAt(log, channel, t) == k
  }

  function CountAt(log: seq<Hit>, channel: int, second: int): nat {
    CountIn(log, channel, second, second + 1)
  }

  lemma {:induction false} EvenCount(log: seq<Hit>, channel: int, minute: int, k: nat, from: nat)
    requires EvenlySpread(log, channel, minute, k) && from <= 60
    ensures CountIn(log, channel, 60 * minute + from, 60 * minute + 60) == k * (60 - from)
    decreases 60 - from
  {
    if from == 60 {
      CountNone(log, channel, 60 * minute + 60, 60 * minute + 60);
    } else {
      EvenCount(log, channel, minute, k, from + 1);
      CountSplit(log, channel, 60 * minute + from, 60 * minute + from + 1, 60 * minute + 60);
      assert CountAt(log, channel, 60 * minute + from) == k;
      OneMore(k, 60 - (from + 1));
    }
  }

  lemma OneMore(k: nat, n: nat)
    ensures k * (n + 1) == k * n + k
  {
  }

  lemma EvenArithmetic(k: nat, elapsed: nat)
    requires elapsed < 60
    ensures (60 - elapsed) * (k * 60) == 60 * (k * (60 - elapsed))
  {
  }

  /** When the edge minute's requests are spread evenly, the estimate is the true count. */
  lemma EstimateExactWhenEven(log: seq<Hit>, channel: int, w: int, now: nat, k: nat)
    requires forall h :: h in log && h.channel == channel ==> h.at <= now
    requires EvenlySpread(log, channel, now / 60 - Minutes(w), k)
    ensures Estimate(log, channel, w, now) == 60 * TrueCount(log, channel, w, now)
  {
    var n, m, elapsed := Minutes(w), now / 60, now % 60;
    TrueCountSplit(log, channel, w, now);
    EvenCount(log, channel, m - n, k, 0);
    EvenCount(log, channel, m - n, k, elapsed);
    assert now - NormalizeWindow(w) == 60 * (m - n) + elapsed;
    EvenArithmetic(k, elapsed);
  }
}
