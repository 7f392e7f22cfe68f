/** Distribution of channels over degrade levels: the levels are cut into buckets and every channel
    is counted in one of them. */
module Governance {
  import opened Options

  const DEFAULT_MAX_LEVEL := 10

  const ENABLED := 1
  const MANUALLY_DISABLED := 2
  const AUTO_DISABLED := 3

  datatype Key = Healthy | Light | Moderate | Deep | Top

  const BANDS: seq<Key> := [Light, Moderate, Deep]

  datatype Bucket = Bucket(key: Key, min: int, max: int, count: nat)

  function EffectiveMax(configured: int): (r: int)
    ensures r >= 1
  {
    if configured < 1 then DEFAULT_MAX_LEVEL else configured
  }

  function BandCount(maxLevel: int): (r: nat)
    requires maxLevel >= 1
    ensures r <= |BANDS|
  {
    if maxLevel - 1 < |BANDS| then maxLevel - 1 else |BANDS|
  }

  function Width(b: Bucket): int {
    b.max - b.min + 1
  }

  /** Each bucket starts right after the one before, and none is empty. */
  ghost predicate Contiguous(buckets: seq<Bucket>) {
    && (forall i :: 0 < i < |buckets| ==> buckets[i].min == buckets[i - 1].max + 1)
    && (forall i :: 0 <= i < |buckets| ==> buckets[i].min <= buckets[i].max)
  }

  /** The widths between the first and the last bucket differ by at most one and never grow. */
  ghost predicate EvenWidths(buckets: seq<Bucket>) {
    forall i, j :: 0 < i <= j < |buckets| - 1 ==> Width(buckets[j]) <= Width(buckets[i]) <= Width(buckets[j]) + 1
  }

  /** The buckets cut 0..maxLevel into contiguous pieces: level 0, at most three even bands, and the
      top level. */
  ghost predicate Tiles(buckets: seq<Bucket>, maxLevel: int)
    requires maxLevel >= 1
  {
    && |buckets| == (if maxLevel > 3 then 5 else maxLevel + 1)
    && buckets[0].(count := 0) == Bucket(Healthy, 0, 0, 0)
    && buckets[|buckets| - 1].(count := 0) == Bucket(Top, maxLevel, maxLevel, 0)
    && (forall i :: 0 < i < |buckets| - 1 ==> buckets[i].key == [Light, Moderate, Deep][i - 1])
    && Contiguous(buckets) && EvenWidths(buckets)
  }

  function Bound(level: int, maxLevel: int): (r: int)
    ensures 0 <= level <= maxLevel ==> r == level
    ensures level < 0 <= maxLevel ==> r == 0
    ensures level > maxLevel >= 0 ==> r == maxLevel
  {
    if level <= 0 then 0 else if level >= maxLevel then maxLevel else level
  }

  predicate Holds(b: Bucket, level: int) {
    b.min <= level <= b.max
  }

  function BandWidth(span: int, bands: int, i: int): int
    requires bands > 0
  {
    span / bands + (if i < span % bands then 1 else 0)
  }

  /** The first level of band `i`: earlier bands have taken the quotient each, and the remainder. */
  function BandStart(span: int, bands: int, i: nat): int
    requires bands > 0
  {
    1 + span / bands * i + (if i < span % bands then i else span % bands)
  }

  lemma BandStarts(span: int, bands: int, i: nat)
    requires 0 < bands
    ensures BandStart(span, bands, 0) == 1
    ensures BandStart(span, bands, i + 1) == BandStart(span, bands, i) + BandWidth(span, bands, i)
    ensures BandStart(span, bands, bands) == 1 + span
  {
    var q, r := span / bands, span % bands;
    assert q * (i + 1) == q * i + q;
    assert span == q * bands + r;
  }

  lemma BandsAreWide(span: int, bands: int, i: nat)
    requires 0 < bands <= span
    ensures BandWidth(span, bands, i) >= 1
  {
    var q, r := span / bands, span % bands;
    assert span == q * bands + r;
    assert q * bands > 0;
  }

  /** The buckets below the top one, after `n` bands. */
  ghost predicate Banded(buckets: seq<Bucket>, span: int, bands: int, n: nat)
    requires 0 < bands <= |BANDS|
  {
    && n <= bands && |buckets| == n + 1 && buckets[0] == Bucket(Healthy, 0, 0, 0)
    && forall j :: 0 < j <= n ==>
         buckets[j] == Bucket(BANDS[j - 1], BandStart(span, bands, j - 1), BandStart(span, bands, j) - 1, 0)
  }

  lemma BandsTile(buckets: seq<Bucket>, maxLevel: int)
    requires maxLevel > 1 && Banded(buckets, maxLevel - 1, BandCount(maxLevel), BandCount(maxLevel))
    ensures Tiles(buckets + [Bucket(Top, maxLevel, maxLevel, 0)], maxLevel)
  {
    hide BandStart, BandWidth, Contiguous, EvenWidths;
    var span, bands := maxLevel - 1, BandCount(maxLevel);
    var all := buckets + [Bucket(Top, maxLevel, maxLevel, 0)];
    forall i | 0 < i < |all| - 1
      ensures Width(all[i]) == BandWidth(span, bands, i - 1) && Width(all[i]) >= 1
              && all[i].key == BANDS[i - 1] && all[i].min == BandStart(span, bands, i - 1)
              && all[i].max == BandStart(span, bands, i) - 1
    {
      BandStarts(span, bands, i - 1);
      BandsAreWide(span, bands, i - 1);
    }
    BandStarts(span, bands, 0);
    BandsAreContiguous(all, span, bands);
    BandsAreEven(all, span, bands);
  }

  lemma BandsAreContiguous(all: seq<Bucket>, span: int, bands: int)
    requires 0 < bands && |all| == bands + 2 && all[0].min == all[0].max == 0
    requires all[|all| - 1].min == all[|all| - 1].max == 1 + span && BandStart(span, bands, 0) == 1
    requires BandStart(span, bands, bands) == 1 + span
    requires forall i :: 0 < i < |all| - 1 ==>
               all[i].min == BandStart(span, bands, i - 1) && all[i].max == BandStart(span, bands, i) - 1
                 && Width(all[i]) >= 1
    ensures Contiguous(all)
  {
    hide BandStart;
    forall i | 0 < i < |all|
      ensures all[i].min == all[i - 1].max + 1
    {
      assert all[i].min == BandStart(span, bands, i - 1);
      assert all[i - 1].max == BandStart(span, bands, i - 1) - 1;
    }
  }

  lemma BandsAreEven(all: seq<Bucket>, span: int, bands: int)
    requires 0 < bands && forall i :: 0 < i < |all| - 1 ==> Width(all[i]) == BandWidth(span, bands, i - 1)
    ensures EvenWidths(all)
  {
    hide Width;
  }

  method BuildDegradeBuckets(configured: int) returns (buckets: seq<Bucket>)
    ensures Tiles(buckets, if configured >= 1 then configured else 10)
    ensures forall b :: b in buckets ==> b.count == 0
  {
    hide BandStart, Tiles;
    var maxLevel := if configured < 1 then DEFAULT_MAX_LEVEL else configured;
    buckets := [Bucket(Healthy, 0, 0, 0)];
    var span := maxLevel - 1;
    if span > 0 {
      var keys := BANDS;
      if span < |keys| {
        keys := keys[..span];
      }
      var bands := |keys|;
      BandStarts(span, bands, 0);
      var start := 1;
      for i := 0 to bands
        invariant start == BandStart(span, bands, i)
        invariant Banded(buckets, span, bands, i)
        invariant forall b :: b in buckets ==> b.count == 0
      {
        var width := span / bands;
        if i < span % bands {
          width := width + 1;
        }
        BandStarts(span, bands, i);
        buckets := buckets + [Bucket(keys[i], start, start + width - 1, 0)];
        start := start + width;
      }
      BandsTile(buckets, maxLevel);
    } else {
      TwoBucketsTile();
    }
    buckets := buckets + [Bucket(Top, maxLevel, maxLevel, 0)];
  }

  lemma TwoBucketsTile()
    ensures Tiles([Bucket(Healthy, 0, 0, 0)] + [Bucket(Top, 1, 1, 0)], 1)
  {
  }

  /** In a tiling, exactly one bucket holds each level from 0 to the maximum. */
  lemma ExactlyOneBucket(buckets: seq<Bucket>, maxLevel: int, level: int)
    requires maxLevel >= 1 && Tiles(buckets, maxLevel) && 0 <= level <= maxLevel
    ensures exists i :: 0 <= i < |buckets| && Holds(buckets[i], level)
                        && forall j :: 0 <= j < |buckets| && Holds(buckets[j], level) ==> j == i
  {
    var i := |buckets| - 1;
    while buckets[i].min > level
      invariant 0 <= i < |buckets| && level <= buckets[i].max
    {
      i := i - 1;
    }
    forall j | 0 <= j < |buckets| && j != i
      ensures !Holds(buckets[j], level)
    {
      if j < i {
        BucketsAscend(buckets, maxLevel, j, i);
      } else {
        BucketsAscend(buckets, maxLevel, i, j);
      }
    }
  }

  lemma {:induction false} BucketsAscend(buckets: seq<Bucket>, maxLevel: int, i: nat, j: nat)
    requires maxLevel >= 1 && Tiles(buckets, maxLevel) && i < j < |buckets|
    ensures buckets[i].max < buckets[j].min
    decreases j - i
  {
    if i < j - 1 {
      BucketsAscend(buckets, maxLevel, i, j - 1);
    }
  }

  method AssignDegradeBucket(buckets: seq<Bucket>, level: int) returns (index: int)
    ensures buckets == [] ==> index == -1
    ensures buckets != [] ==> 0 <= index < |buckets|
    ensures forall maxLevel :: maxLevel >= 1 && Tiles(buckets, maxLevel) ==>
              buckets[index].min <= Bound(level, maxLevel) <= buckets[index].max
  {
    if |buckets| == 0 {
      return -1;
    }
    if level <= 0 {
      return 0;
    }
    var last := |buckets| - 1;
    if level >= buckets[last].min {
      return last;
    }
    for i := 0 to |buckets|
      invariant forall j :: 0 <= j < i ==> !Holds(buckets[j], level)
    {
      if Holds(buckets[i], level) {
        return i;
      }
    }
    NotATiling(buckets, level);
    return last;
  }

  /** A level between the ends that no bucket holds shows that the buckets do not tile. */
  lemma NotATiling(buckets: seq<Bucket>, level: int)
    requires buckets != [] && 0 < level < buckets[|buckets| - 1].min
    requires forall j :: 0 <= j < |buckets| ==> !Holds(buckets[j], level)
    ensures forall maxLevel :: maxLevel >= 1 ==> !Tiles(buckets, maxLevel)
  {
    forall maxLevel | maxLevel >= 1 && Tiles(buckets, maxLevel)
      ensures false
    {
      ExactlyOneBucket(buckets, maxLevel, level);
    }
  }

  lemma OnlyBucket(buckets: seq<Bucket>, maxLevel: int, level: int, index: nat)
    requires maxLevel >= 1 && Tiles(buckets, maxLevel) && 0 <= level <= maxLevel
    requires index < |buckets| && Holds(buckets[index], level)
    ensures forall j :: 0 <= j < |buckets| ==> (Holds(buckets[j], level) <==> j == index)
  {
    hide Tiles, Holds;
    ExactlyOneBucket(buckets, maxLevel, level);
  }

  lemma TilesFacts(buckets: seq<Bucket>, maxLevel: int)
    requires maxLevel >= 1 && Tiles(buckets, maxLevel)
    ensures |buckets| >= 2 && buckets[0].min == buckets[0].max == 0
  {
  }

  // ----- counting -----

  datatype Row = Row(level: Option<int>, status: int, permanentDisabled: Option<int>, verifyDisabled: Option<int>)

  function OrZero(v: Option<int>): int {
    match v
    case Some(n) => n
    case None => 0
  }

  datatype Criterion =
    | InBucket(min: int, max: int, maxLevel: int)
    | Degraded
    | WithStatus(status: int)
    | Permanent
    | VerifiedOff

  predicate Matches(r: Row, c: Criterion) {
    match c
    case InBucket(min, max, maxLevel) => min <= Bound(OrZero(r.level), maxLevel) <= max
    case Degraded => OrZero(r.level) >= 1
    case WithStatus(status) => r.status == status
    case Permanent => r.status == AUTO_DISABLED && OrZero(r.permanentDisabled) == 1
    case VerifiedOff => OrZero(r.verifyDisabled) == 1
  }

  /** How many rows match. */
  function Count(rows: seq<Row>, c: Criterion): nat {
    if rows == [] then
      0
    else
      Count(rows[..|rows| - 1], c) + (if Matches(rows[|rows| - 1], c) then 1 else 0)
  }

  function Sum(buckets: seq<Bucket>): nat {
    if buckets == [] then 0 else Sum(buckets[..|buckets| - 1]) + buckets[|buckets| - 1].count
  }

  datatype Distribution = Distribution(
    total: nat, maxLevel: int, buckets: seq<Bucket>, degraded: nat, enabled: nat,
    autoDisabled: nat, permanentDisabled: nat, manuallyDisabled: nat, verifyDisabled: nat)

  lemma CountStep(rows: seq<Row>, i: nat, c: Criterion)
    requires i < |rows|
    ensures Count(rows[..i + 1], c) == Count(rows[..i], c) + (if Matches(rows[i], c) then 1 else 0)
  {
    hide Matches;
    assert rows[..i + 1][..i] == rows[..i];
  }

  function CriterionOf(b: Bucket, maxLevel: int): Criterion {
    InBucket(b.min, b.max, maxLevel)
  }

  /** Every count of the distribution is the number of rows it describes. */
  ghost predicate Counts(d: Distribution, rows: seq<Row>) {
    && (forall i :: 0 <= i < |d.buckets| ==> d.buckets[i].count == Count(rows, CriterionOf(d.buckets[i], d.maxLevel)))
    && d.degraded == Count(rows, Degraded)
    && d.enabled == Count(rows, WithStatus(ENABLED))
    && d.autoDisabled == Count(rows, WithStatus(AUTO_DISABLED))
    && d.permanentDisabled == Count(rows, Permanent)
    && d.manuallyDisabled == Count(rows, WithStatus(MANUALLY_DISABLED))
    && d.verifyDisabled == Count(rows, VerifiedOff)
  }

  /** The rows that are counted, by index. */
  ghost function Matching(rows: seq<Row>, c: Criterion): set<int> {
    set i | 0 <= i < |rows| && Matches(rows[i], c)
  }

  lemma {:induction false} CountIsMatching(rows: seq<Row>, c: Criterion)
    ensures Count(rows, c) == |Matching(rows, c)|
  {
    hide Matches, Matching;
    if rows == [] {
      NothingMatches(c);
    } else {
      var n := |rows| - 1;
      CountIsMatching(rows[..n], c);
      MatchingStep(rows, c);
    }
  }

  lemma NothingMatches(c: Criterion)
    ensures Matching([], c) == {}
  {
  }

  lemma MatchingStep(rows: seq<Row>, c: Criterion)
    requires rows != []
    ensures var n := |rows| - 1;
            |Matching(rows, c)| == |Matching(rows[..n], c)| + if Matches(rows[n], c) then 1 else 0
  {
    hide Matches;
    var n := |rows| - 1;
    var before := Matching(rows[..n], c);
    assert Matching(rows, c) == if Matches(rows[n], c) then before + {n} else before;
  }

  /** What is counted where. A missing level is 0, a level beyond an end counts at that end, and a missing
      flag is not set; a status of 1 is enabled, 2 disabled by hand, and 3 automatically disabled. */
  lemma CountsExactly(rows: seq<Row>, b: Bucket, maxLevel: int)
    requires maxLevel >= 1
    ensures Count(rows, WithStatus(ENABLED)) == |set i | 0 <= i < |rows| && rows[i].status == 1|
    ensures Count(rows, WithStatus(MANUALLY_DISABLED)) == |set i | 0 <= i < |rows| && rows[i].status == 2|
    ensures Count(rows, WithStatus(AUTO_DISABLED)) == |set i | 0 <= i < |rows| && rows[i].status == 3|
    ensures Count(rows, Permanent)
         == |set i | 0 <= i < |rows| && rows[i].status == 3 && rows[i].permanentDisabled == Some(1)|
    ensures Count(rows, VerifiedOff) == |set i | 0 <= i < |rows| && rows[i].verifyDisabled == Some(1)|
    ensures Count(rows, Degraded) == |set i | 0 <= i < |rows| && rows[i].level.Some? && rows[i].level.value > 0|
    ensures Count(rows, CriterionOf(b, maxLevel))
         == |set i | 0 <= i < |rows| &&
               var level := if rows[i].level.Some? then rows[i].level.value else 0;
               b.min <= (if level < 0 then 0 else if level > maxLevel then maxLevel else level) <= b.max|
  {
    var all := [WithStatus(ENABLED), WithStatus(MANUALLY_DISABLED), WithStatus(AUTO_DISABLED), Permanent,
                VerifiedOff, Degraded, CriterionOf(b, maxLevel)];
    forall k | 0 <= k < |all|
      ensures Count(rows, all[k]) == |Matching(rows, all[k])|
    {
      CountIsMatching(rows, all[k]);
    }
    assert Matching(rows, all[0]) == set i | 0 <= i < |rows| && rows[i].status == 1;
    assert Matching(rows, all[1]) == set i | 0 <= i < |rows| && rows[i].status == 2;
    assert Matching(rows, all[2]) == set i | 0 <= i < |rows| && rows[i].status == 3;
    assert Matching(rows, all[3])
        == set i | 0 <= i < |rows| && rows[i].status == 3 && rows[i].permanentDisabled == Some(1);
    assert Matching(rows, all[4]) == set i | 0 <= i < |rows| && rows[i].verifyDisabled == Some(1);
    assert Matching(rows, all[5]) == set i | 0 <= i < |rows| && rows[i].level.Some? && rows[i].level.value > 0;
    assert Matching(rows, all[6])
        == set i | 0 <= i < |rows| &&
             var level := if rows[i].level.Some? then rows[i].level.value else 0;
             b.min <= (if level < 0 then 0 else if level > maxLevel then maxLevel else level) <= b.max;
  }

  method GetDistribution(rows: seq<Row>, configuredMax: int) returns (d: Distribution)
    ensures d.total == |rows| && d.maxLevel == if configuredMax >= 1 then configuredMax else 10
    ensures Tiles(d.buckets, d.maxLevel) && Counts(d, rows)
  {
    hide Count, Tiles;
    var buckets := BuildDegradeBuckets(configuredMax);
    d := Distribution(|rows|, EffectiveMax(configuredMax), buckets, 0, 0, 0, 0, 0, 0);
    NothingCounted(rows, d);
    for n := 0 to |rows|
      invariant d.total == |rows| && d.maxLevel == EffectiveMax(configuredMax)
      invariant Tiles(d.buckets, d.maxLevel) && Counts(d, rows[..n])
    {
      var row := rows[n];
      var level := OrZero(row.level);
      ghost var before := d;
      TilesFacts(d.buckets, d.maxLevel);
      var index := AssignDegradeBucket(d.buckets, level);
      if index >= 0 {
        d := d.(buckets := d.buckets[index := d.buckets[index].(count := d.buckets[index].count + 1)]);
      }
      BucketCounted(before.buckets, d.buckets, d.maxLevel, rows, n, index);
      if level >= 1 {
        d := d.(degraded := d.degraded + 1);
      }
      if row.status == ENABLED {
        d := d.(enabled := d.enabled + 1);
      } else if row.status == AUTO_DISABLED {
        d := d.(autoDisabled := d.autoDisabled + 1);
        if OrZero(row.permanentDisabled) == 1 {
          d := d.(permanentDisabled := d.permanentDisabled + 1);
        }
      } else if row.status == MANUALLY_DISABLED {
        d := d.(manuallyDisabled := d.manuallyDisabled + 1);
      }
      if OrZero(row.verifyDisabled) == 1 {
        d := d.(verifyDisabled := d.verifyDisabled + 1);
      }
      CountStep(rows, n, Degraded);
      CountStep(rows, n, WithStatus(ENABLED));
      CountStep(rows, n, WithStatus(AUTO_DISABLED));
      CountStep(rows, n, WithStatus(MANUALLY_DISABLED));
      CountStep(rows, n, Permanent);
      CountStep(rows, n, VerifiedOff);
    }
    assert rows[..|rows|] == rows;
  }

  lemma NothingCounted(rows: seq<Row>, d: Distribution)
    requires forall b :: b in d.buckets ==> b.count == 0
    requires d.degraded == d.enabled == d.autoDisabled
             == d.permanentDisabled == d.manuallyDisabled == d.verifyDisabled == 0
    ensures Counts(d, rows[..0])
  {
  }

  lemma CountKeepsTiles(before: seq<Bucket>, after: seq<Bucket>, maxLevel: int, index: nat)
    requires maxLevel >= 1 && Tiles(before, maxLevel) && index < |before|
    requires after == before[index := before[index].(count := before[index].count + 1)]
    ensures Tiles(after, maxLevel)
  {
    hide Contiguous, EvenWidths;
    SameBoundsContiguous(before, after);
    SameBoundsEven(before, after);
  }

  lemma SameBoundsContiguous(before: seq<Bucket>, after: seq<Bucket>)
    requires |before| == |after| && Contiguous(before)
    requires forall i :: 0 <= i < |after| ==> after[i].min == before[i].min && after[i].max == before[i].max
    ensures Contiguous(after)
  {
    forall i | 0 < i < |after|
      ensures after[i].min == after[i - 1].max + 1
    {
      assert before[i].min == before[i - 1].max + 1;
    }
  }

  lemma SameBoundsEven(before: seq<Bucket>, after: seq<Bucket>)
    requires |before| == |after| && EvenWidths(before)
    requires forall i :: 0 <= i < |after| ==> after[i].min == before[i].min && after[i].max == before[i].max
    ensures EvenWidths(after)
  {
    forall i, j | 0 < i <= j < |after| - 1
      ensures Width(after[j]) <= Width(after[i]) <= Width(after[j]) + 1
    {
      assert Width(before[j]) <= Width(before[i]) <= Width(before[j]) + 1;
    }
  }

  /** Counting a row in the bucket that holds its level. */
  lemma BucketCounted(before: seq<Bucket>, after: seq<Bucket>, maxLevel: int, rows: seq<Row>, n: nat, index: int)
    requires maxLevel >= 1 && Tiles(before, maxLevel) && n < |rows| && 0 <= index < |before|
    requires Holds(before[index], Bound(OrZero(rows[n].level), maxLevel))
    requires after == before[index := before[index].(count := before[index].count + 1)]
    requires forall i :: 0 <= i < |before| ==> before[i].count == Count(rows[..n], CriterionOf(before[i], maxLevel))
    ensures Tiles(after, maxLevel)
    ensures forall i :: 0 <= i < |after| ==> after[i].count == Count(rows[..n + 1], CriterionOf(after[i], maxLevel))
  {
    hide Count, Tiles;
    var level := Bound(OrZero(rows[n].level), maxLevel);
    OnlyBucket(before, maxLevel, level, index);
    CountKeepsTiles(before, after, maxLevel, index);
    forall i | 0 <= i < |after|
      ensures after[i].count == Count(rows[..n + 1], CriterionOf(after[i], maxLevel))
    {
      CountStep(rows, n, CriterionOf(before[i], maxLevel));
    }
  }

  // ----- conservation -----

  lemma {:induction false} SumAfter(before: seq<Bucket>, after: seq<Bucket>, index: nat)
    requires index < |before| && after == before[index := before[index].(count := before[index].count + 1)]
    ensures Sum(after) == Sum(before) + 1
  {
    var n := |before| - 1;
    if index < n {
      SumAfter(before[..n], after[..n], index);
    } else {
      assert before[..n] == after[..n];
    }
  }

  /** The bucket counts of any rows, for a tiling of the levels. */
  function Counted(buckets: seq<Bucket>, maxLevel: int, rows: seq<Row>): seq<Bucket> {
    seq(|buckets|, i requires 0 <= i < |buckets| =>
      buckets[i].(count := Count(rows, CriterionOf(buckets[i], maxLevel))))
  }

  lemma {:induction false} CountedSum(buckets: seq<Bucket>, maxLevel: int, rows: seq<Row>)
    requires maxLevel >= 1 && Tiles(buckets, maxLevel)
    ensures Sum(Counted(buckets, maxLevel, rows)) == |rows|
    ensures Count(rows, CriterionOf(buckets[0], maxLevel)) + Count(rows, Degraded) == |rows|
    ensures Count(rows, Permanent) <= Count(rows, WithStatus(AUTO_DISABLED))
    ensures Count(rows, WithStatus(ENABLED)) + Count(rows, WithStatus(AUTO_DISABLED))
            + Count(rows, WithStatus(MANUALLY_DISABLED)) <= |rows|
  {
    hide Tiles, Sum, Bound;
    TilesFacts(buckets, maxLevel);
    if rows == [] {
      SumOfNone(Counted(buckets, maxLevel, rows));
    } else {
      var n := |rows| - 1;
      CountedSum(buckets, maxLevel, rows[..n]);
      var level := Bound(OrZero(rows[n].level), maxLevel);
      var index := BucketOf(buckets, maxLevel, OrZero(rows[n].level));
      OnlyBucket(buckets, maxLevel, level, index);
      CountedStep(buckets, maxLevel, rows, index);
      SumAfter(Counted(buckets, maxLevel, rows[..n]), Counted(buckets, maxLevel, rows), index);
    }
  }

  /** The bucket of a level; the first one exactly for levels below 1. */
  lemma BucketOf(buckets: seq<Bucket>, maxLevel: int, level: int) returns (index: nat)
    requires maxLevel >= 1 && Tiles(buckets, maxLevel)
    ensures index < |buckets| && Holds(buckets[index], Bound(level, maxLevel))
    ensures Holds(buckets[0], Bound(level, maxLevel)) <==> level < 1
  {
    ExactlyOneBucket(buckets, maxLevel, Bound(level, maxLevel));
    index :| 0 <= index < |buckets| && Holds(buckets[index], Bound(level, maxLevel));
  }

  lemma CountedStep(buckets: seq<Bucket>, maxLevel: int, rows: seq<Row>, index: nat)
    requires rows != [] && index < |buckets|
    requires var level := Bound(OrZero(rows[|rows| - 1].level), maxLevel);
             forall j :: 0 <= j < |buckets| ==> (Holds(buckets[j], level) <==> j == index)
    ensures var before := Counted(buckets, maxLevel, rows[..|rows| - 1]);
            Counted(buckets, maxLevel, rows) == before[index := before[index].(count := before[index].count + 1)]
  {
    hide Bound;
    forall i | 0 <= i < |buckets|
      ensures Matches(rows[|rows| - 1], CriterionOf(buckets[i], maxLevel)) <==> i == index
    {
      assert Holds(buckets[i], Bound(OrZero(rows[|rows| - 1].level), maxLevel)) <==> i == index;
    }
  }

  lemma {:induction false} SumOfNone(buckets: seq<Bucket>)
    requires forall b :: b in buckets ==> b.count == 0
    ensures Sum(buckets) == 0
  {
    if buckets != [] {
      SumOfNone(buckets[..|buckets| - 1]);
    }
  }

  /** Over any rows the bucket counts add up to the number of channels, the healthy bucket and the
      degraded channels are all channels, and locked channels are among the automatically disabled. */
  lemma DistributionConserves(d: Distribution, rows: seq<Row>)
    requires d.maxLevel >= 1 && Tiles(d.buckets, d.maxLevel) && Counts(d, rows)
    ensures Sum(d.buckets) == |rows|
    ensures d.buckets[0].count + d.degraded == |rows|
    ensures d.permanentDisabled <= d.autoDisabled
    ensures d.enabled + d.autoDisabled + d.manuallyDisabled <= |rows|
  {
    hide Count;
    CountedSum(d.buckets, d.maxLevel, rows);
    assert Counted(d.buckets, d.maxLevel, rows) == d.buckets;
  }
}
