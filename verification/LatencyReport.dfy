/**
 What a latency report says about a plain collection of recorded latencies, independently of how
 the recording was spread over threads.
 */
module LatencyReport {
  import opened OrderStatistics
  import opened LatencyBuckets
  import R = RunningMean

  datatype Record = Record(thread: nat, kind: nat, us: int)

  /** The latencies of one operation type recorded by one thread, and by the threads below t. */
  function Cell(log: seq<Record>, t: nat, kind: nat): seq<int> {
    if log == [] then [] else
    var r := log[|log| - 1];
    Cell(log[..|log| - 1], t, kind) + if r.thread == t && r.kind == kind then [r.us] else []
  }

  function Below(log: seq<Record>, t: nat, kind: nat): seq<int> {
    if log == [] then [] else
    var r := log[|log| - 1];
    Below(log[..|log| - 1], t, kind) + if r.thread < t && r.kind == kind then [r.us] else []
  }

  /** All latencies of one operation type: the unsharded record. */
  function Latencies(log: seq<Record>, kind: nat): seq<int> {
    if log == [] then [] else
    var r := log[|log| - 1];
    Latencies(log[..|log| - 1], kind) + if r.kind == kind then [r.us] else []
  }

  ghost predicate NonNegative(s: seq<int>) {
    forall i :: 0 <= i < |s| ==> s[i] >= 0
  }

  /** Durations are not negative, and thread numbers are below `threads`. */
  ghost predicate Recorded(log: seq<Record>, threads: nat) {
    forall i :: 0 <= i < |log| ==> log[i].us >= 0 && log[i].thread < threads
  }

  // ---------------------------------------------------------------- figures of a report

  function InBucket(s: seq<int>, b: int): nat {
    if s == [] then 0 else
    InBucket(s[..|s| - 1], b) + if LatencyToBucket(s[|s| - 1]) == b then 1 else 0
  }

  function UpToBucket(s: seq<int>, b: int): nat {
    if s == [] then 0 else
    UpToBucket(s[..|s| - 1], b) + if LatencyToBucket(s[|s| - 1]) <= b then 1 else 0
  }

  /** In milliseconds; zero for an empty record, as the source's weighted sum then has no term. */
  function MeanMs(s: seq<int>): real {
    if s == [] then 0.0 else Total(s) as real / 1000.0 / |s| as real
  }

  /** The mean is in milliseconds of latencies in microseconds: equal latencies of x microseconds have the
      mean x / 1000. */
  lemma MeanOfEqual(s: seq<int>, x: int)
    requires s != [] && forall i :: 0 <= i < |s| ==> s[i] == x
    ensures MeanMs(s) * 1000.0 == x as real
  {
    TotalOfEqual(s, x);
    var n := |s| as real;
    assert Total(s) as real == x as real * n;
    assert x as real * n / 1000.0 / n == x as real / 1000.0;
  }

  lemma {:induction false} TotalOfEqual(s: seq<int>, x: int)
    requires forall i :: 0 <= i < |s| ==> s[i] == x
    ensures Total(s) == x * |s|
  {
    if s != [] {
      TotalOfEqual(s[..|s| - 1], x);
    }
  }

  function Millis(s: seq<int>): seq<real> {
    seq(|s|, i requires 0 <= i < |s| => s[i] as real / 1000.0)
  }

  lemma {:induction false} MillisSum(s: seq<int>)
    ensures R.Sum(Millis(s)) == Total(s) as real / 1000.0
  {
    if s != [] {
      assert Millis(s)[..|s| - 1] == Millis(s[..|s| - 1]);
      MillisSum(s[..|s| - 1]);
    }
  }

  // ---------------------------------------------------------------- concatenation and order

  lemma {:induction false} FiguresConcat(s: seq<int>, t: seq<int>, b: int)
    ensures InBucket(s + t, b) == InBucket(s, b) + InBucket(t, b)
    ensures UpToBucket(s + t, b) == UpToBucket(s, b) + UpToBucket(t, b)
    ensures Max(s + t) == if Max(s) < Max(t) then Max(t) else Max(s)
  {
    if t == [] {
      assert s + t == s;
      MaxIsBound(s);
    } else {
      assert (s + t)[..|s + t| - 1] == s + t[..|t| - 1];
      FiguresConcat(s, t[..|t| - 1], b);
    }
  }

  lemma {:induction false} BucketsAddUp(s: seq<int>, b: int)
    ensures UpToBucket(s, b) == UpToBucket(s, b - 1) + InBucket(s, b)
  {
    if s != [] {
      BucketsAddUp(s[..|s| - 1], b);
    }
  }

  lemma {:induction false} EdgeBuckets(s: seq<int>)
    requires NonNegative(s)
    ensures UpToBucket(s, -1) == 0 && UpToBucket(s, NUM_BUCKETS - 1) == |s|
  {
    if s != [] {
      EdgeBuckets(s[..|s| - 1]);
      BucketMonotone(s[|s| - 1], s[|s| - 1]);
    }
  }

  /** Buckets are intervals, so counting up to a bucket is counting below its bound. */
  lemma {:induction false} UpToIsBelow(s: seq<int>, b: int)
    requires 0 <= b < NUM_BUCKETS - 1 && NonNegative(s)
    ensures UpToBucket(s, b) == CountBelow(s, BucketBound(b).max)
  {
    if s != [] {
      var x := s[|s| - 1];
      UpToIsBelow(s[..|s| - 1], b);
      BucketBelowBound(x, b);
    }
  }

  lemma BucketBelowBound(x: int, b: int)
    requires x >= 0 && 0 <= b < NUM_BUCKETS - 1
    ensures LatencyToBucket(x) <= b <==> x < BucketBound(b).max
  {
    var last := BucketBound(b).max - 1;
    BucketIffBound(last, b);
    BucketIffBound(last + 1, b + 1);
    if x <= last {
      BucketMonotone(x, last);
    } else {
      BucketMonotone(last + 1, x);
    }
  }

  lemma SameElements(s: seq<int>, t: seq<int>)
    requires multiset(s) == multiset(t)
    ensures forall x :: x in s <==> x in t
    ensures NonNegative(s) ==> NonNegative(t)
  {
    forall x ensures x in s <==> x in t {
      assert x in s <==> x in multiset(s);
      assert x in t <==> x in multiset(t);
    }
    forall i | NonNegative(s) && 0 <= i < |t| ensures t[i] >= 0 {
      assert t[i] in s;
    }
  }

  lemma MaxPermutation(s: seq<int>, t: seq<int>)
    requires multiset(s) == multiset(t)
    ensures Max(s) == Max(t)
  {
    SameElements(s, t);
    MaxIsBound(s);
    MaxIsBound(t);
  }

  lemma UpToPermutation(s: seq<int>, t: seq<int>, b: int)
    requires multiset(s) == multiset(t) && NonNegative(s) && -1 <= b < NUM_BUCKETS
    ensures UpToBucket(s, b) == UpToBucket(t, b)
  {
    SameElements(s, t);
    if b == -1 || b == NUM_BUCKETS - 1 {
      TotalPermutation(s, t);
      EdgeBuckets(s);
      EdgeBuckets(t);
    } else {
      UpToIsBelow(s, b);
      UpToIsBelow(t, b);
      CountPermutation(s, t, BucketBound(b).max);
    }
  }

  /** Every figure of the report is a function of the multiset of latencies. */
  lemma FiguresPermutation(s: seq<int>, t: seq<int>, b: int)
    requires multiset(s) == multiset(t) && NonNegative(s) && -1 <= b < NUM_BUCKETS
    ensures |s| == |t| && MeanMs(s) == MeanMs(t) && Max(s) == Max(t) && UpToBucket(s, b) == UpToBucket(t, b)
  {
    TotalPermutation(s, t);
    MaxPermutation(s, t);
    UpToPermutation(s, t, b);
  }

  // ---------------------------------------------------------------- sharding

  lemma {:induction false} ThreadSplit(log: seq<Record>, t: nat, kind: nat)
    ensures multiset(Below(log, t + 1, kind)) == multiset(Below(log, t, kind) + Cell(log, t, kind))
  {
    if log != [] {
      ThreadSplit(log[..|log| - 1], t, kind);
    }
  }

  lemma {:induction false} BelowNone(log: seq<Record>, kind: nat)
    ensures Below(log, 0, kind) == []
  {
    if log != [] {
      BelowNone(log[..|log| - 1], kind);
    }
  }

  lemma {:induction false} BelowAll(log: seq<Record>, t: nat, kind: nat)
    requires Recorded(log, t)
    ensures Below(log, t, kind) == Latencies(log, kind)
  {
    if log != [] {
      BelowAll(log[..|log| - 1], t, kind);
    }
  }

  lemma {:induction false} NoNegative(log: seq<Record>, threads: nat, t: nat, kind: nat)
    requires Recorded(log, threads)
    ensures NonNegative(Below(log, t, kind)) && NonNegative(Latencies(log, kind)) && NonNegative(Cell(log, t, kind))
  {
    if log != [] {
      NoNegative(log[..|log| - 1], threads, t, kind);
    }
  }

  /** What was measured, without who measured it. */
  function Measured(log: seq<Record>): seq<(nat, int)> {
    if log == [] then [] else
    Measured(log[..|log| - 1]) + [(log[|log| - 1].kind, log[|log| - 1].us)]
  }

  /** Nothing of the log is left out, or counted for another type. */
  lemma {:induction false} MeasuredIsLog(log: seq<Record>)
    ensures |Measured(log)| == |log|
    ensures forall i :: 0 <= i < |log| ==> Measured(log)[i] == (log[i].kind, log[i].us)
  {
    if log != [] {
      MeasuredIsLog(log[..|log| - 1]);
    }
  }

  lemma {:induction false} LatenciesOfMeasured(log: seq<Record>, kind: nat, us: int)
    ensures multiset(Latencies(log, kind))[us] == multiset(Measured(log))[(kind, us)]
  {
    if log != [] {
      LatenciesOfMeasured(log[..|log| - 1], kind, us);
    }
  }

  /** Sharding is invisible: two runs that measured the same (type, latency) pairs, on whatever
      threads and in whatever order, report the same figures. */
  lemma ShardingInvisible(log1: seq<Record>, threads: nat, log2: seq<Record>, kind: nat, b: int)
    requires multiset(Measured(log1)) == multiset(Measured(log2))
    requires Recorded(log1, threads)
    requires -1 <= b < NUM_BUCKETS
    ensures var s1, s2 := Latencies(log1, kind), Latencies(log2, kind);
      |s1| == |s2| && MeanMs(s1) == MeanMs(s2) && Max(s1) == Max(s2) && UpToBucket(s1, b) == UpToBucket(s2, b)
  {
    forall us ensures multiset(Latencies(log1, kind))[us] == multiset(Latencies(log2, kind))[us] {
      LatenciesOfMeasured(log1, kind, us);
      LatenciesOfMeasured(log2, kind, us);
    }
    NoNegative(log1, threads, 0, kind);
    FiguresPermutation(Latencies(log1, kind), Latencies(log2, kind), b);
  }

  // ---------------------------------------------------------------- percentiles

  /** The search of getBucketBounds: the first bucket whose cumulative count reaches the needed rank. */
  ghost predicate IsFirstBucket(s: seq<int>, needed: int, b: int) {
    && 0 <= b < NUM_BUCKETS
    && needed <= UpToBucket(s, b)
    && forall c :: 0 <= c < b ==> UpToBucket(s, c) < needed
  }

  lemma {:induction false} UpToMonotone(s: seq<int>, b: int, c: int)
    requires b <= c
    ensures UpToBucket(s, b) <= UpToBucket(s, c)
  {
    if s != [] {
      UpToMonotone(s[..|s| - 1], b, c);
    }
  }

  /** The bucket of the r-th smallest latency is the one the search finds. */
  lemma RankBucket(s: seq<int>, r: nat, x: int)
    requires NonNegative(s) && r >= 1 && IsRank(s, r - 1, x)
    ensures IsFirstBucket(s, r, LatencyToBucket(x))
  {
    RankElement(s, r - 1, x);
    var b := LatencyToBucket(x);
    BucketMonotone(x, x);
    if b == NUM_BUCKETS - 1 {
      EdgeBuckets(s);
    } else {
      UpToIsBelow(s, b);
      BucketBelowBound(x, b);
      CountMonotone(s, x + 1, BucketBound(b).max);
    }
    forall c | 0 <= c < b ensures UpToBucket(s, c) < r {
      UpToIsBelow(s, c);
      BucketBelowBound(x, c);
      CountMonotone(s, BucketBound(c).max, x);
    }
  }

  /** The search finds the bucket of a recorded latency for every rank there is. */
  lemma RankFound(s: seq<int>, r: nat) returns (x: int)
    requires NonNegative(s) && 1 <= r <= |s|
    ensures x in s && IsRank(s, r - 1, x) && IsFirstBucket(s, r, LatencyToBucket(x))
    ensures forall b :: IsFirstBucket(s, r, b) ==> b == LatencyToBucket(x)
    ensures x < HUNDRED_SECONDS ==> Within(x, BucketBound(LatencyToBucket(x)))
  {
    x := RankExists(s, r - 1);
    RankBucket(s, r, x);
    PercentileRefinement(s, r, x, LatencyToBucket(x));
    forall b | IsFirstBucket(s, r, b) ensures b == LatencyToBucket(x) {
      FirstBucketUnique(s, r, b, LatencyToBucket(x));
    }
  }

  lemma FirstBucketUnique(s: seq<int>, needed: int, b: int, c: int)
    requires IsFirstBucket(s, needed, b) && IsFirstBucket(s, needed, c)
    ensures b == c
  {
  }

  /** Percentile refinement: for a rank that some latency has, the search finds exactly the bucket of
      that latency, and below 100s the reported interval contains it. */
  lemma PercentileRefinement(s: seq<int>, r: nat, x: int, b: int)
    requires NonNegative(s) && r >= 1 && IsRank(s, r - 1, x)
    requires IsFirstBucket(s, r, b)
    ensures b == LatencyToBucket(x)
    ensures x < HUNDRED_SECONDS ==> Within(x, BucketBound(b))
  {
    RankElement(s, r - 1, x);
    RankBucket(s, r, x);
    FirstBucketUnique(s, r, b, LatencyToBucket(x));
    BucketMonotone(x, x);
    if x < HUNDRED_SECONDS {
      BucketIffBound(x, b);
    }
  }

  /** The rank a percentile needs among n samples, truncated. */
  function NeededRank(percentile: int, n: nat): int {
    Quotient(percentile * n, 100)
  }

  /** It is the largest rank within the percentage. */
  lemma NeededRankExactly(percentile: int, n: nat)
    requires percentile >= 0
    ensures NeededRank(percentile, n) >= 0
    ensures 100 * NeededRank(percentile, n) <= percentile * n < 100 * (NeededRank(percentile, n) + 1)
  {
    Scaled(0, percentile, n);
  }

  /** When the search finds a bucket at all: for every percentile up to 100, and a little beyond it
      when samples are few. */
  lemma SearchFindsExactly(s: seq<int>, percentile: int)
    requires NonNegative(s)
    ensures NeededRank(percentile, |s|) <= UpToBucket(s, NUM_BUCKETS - 1) <==> percentile * |s| < 100 * (|s| + 1)
    ensures percentile <= 100 ==> percentile * |s| < 100 * (|s| + 1)
  {
    EdgeBuckets(s);
    if percentile <= 100 {
      Scaled(percentile, 100, |s|);
    }
  }

  lemma Scaled(p: int, q: int, n: nat)
    requires p <= q
    ensures p * n <= q * n
  {
  }

  /** The bucket found is that of the latency of the needed rank, counted from 1. A rank truncated
      to 0 means the smallest latency; then bucket 0 is found, which is right exactly for a smallest
      latency below its bound. */
  lemma PercentileExactly(s: seq<int>, percentile: int, x: int, b: int)
    requires NonNegative(s) && percentile >= 0
    requires var r := NeededRank(percentile, |s|); IsFirstBucket(s, r, b) && IsRank(s, if r == 0 then 0 else r - 1, x)
    ensures b == LatencyToBucket(x) <==> NeededRank(percentile, |s|) >= 1 || x < BucketBound(0).max
  {
    var r := NeededRank(percentile, |s|);
    RankElement(s, if r == 0 then 0 else r - 1, x);
    if r >= 1 {
      PercentileRefinement(s, r, x, b);
    } else {
      Scaled(0, percentile, |s|);
      assert UpToBucket(s, 0) >= r == 0;
      BucketBelowBound(x, 0);
      BucketMonotone(x, x);
    }
  }

  /** One latency of 150us: the median's rank is 0, bucket 0 is found, bucket 1 is right. */
  lemma ZeroRankFails()
    ensures NeededRank(50, 1) == 0 && IsFirstBucket([150], 0, 0) && LatencyToBucket(150) == 1
  {
  }

  /** A higher percentile never gets a lower bucket. */
  lemma PercentileMonotone(s: seq<int>, percentile1: int, percentile2: int, b1: int, b2: int)
    requires percentile1 <= percentile2
    requires IsFirstBucket(s, NeededRank(percentile1, |s|), b1) && IsFirstBucket(s, NeededRank(percentile2, |s|), b2)
    ensures b1 <= b2
  {
    Scaled(percentile1, percentile2, |s|);
    assert NeededRank(percentile1, |s|) <= NeededRank(percentile2, |s|);
  }

  // ---------------------------------------------------------------- the lost increment

  // The source increments a copy of the buckets: its cumulative counts are those of no latencies at
  // all, while the needed rank is that of the n latencies it counted otherwise.

  /** A count that lost every latency is right for a bucket exactly when none belongs there or below. */
  lemma {:induction false} LostCountExactly(s: seq<int>, b: int)
    requires NonNegative(s) && 0 <= b < NUM_BUCKETS
    ensures UpToBucket([], b) == 0
    ensures UpToBucket(s, b) == UpToBucket([], b) <==>
      if b == NUM_BUCKETS - 1 then s == [] else forall i :: 0 <= i < |s| ==> s[i] >= BucketBound(b).max
  {
    EdgeBuckets(s);
    if b < NUM_BUCKETS - 1 {
      UpToIsBelow(s, b);
      NoneBelow(s, BucketBound(b).max);
    }
  }

  lemma {:induction false} NoneBelow(s: seq<int>, x: int)
    ensures CountBelow(s, x) == 0 <==> forall i :: 0 <= i < |s| ==> s[i] >= x
  {
    if s != [] {
      NoneBelow(s[..|s| - 1], x);
    }
  }

  /** The search over lost counts. */
  lemma LostSearch(percentile: int, n: nat)
    ensures NeededRank(percentile, n) <= 0 <==> NeededRank(percentile, n) <= UpToBucket([], NUM_BUCKETS - 1)
    ensures forall b :: IsFirstBucket([], NeededRank(percentile, n), b) <==> NeededRank(percentile, n) <= 0 && b == 0
    ensures NeededRank(percentile, n) <= 0 <==> percentile * n < 100
    ensures BucketBound(-1) == Bounds(-100, 0)
  {
    var needed := NeededRank(percentile, n);
    forall b ensures IsFirstBucket([], needed, b) <==> needed <= 0 && b == 0 {
      assert UpToBucket([], 0) == 0;
    }
  }

  /** The bucket the lost counts lead to is the intended one exactly when the rank truncates to 0 or
      less. With four latencies no printed percentile is: the lowest is 25. */
  lemma LostPercentileExactly(s: seq<int>, percentile: int, intended: int)
    requires IsFirstBucket(s, NeededRank(percentile, |s|), intended)
    ensures intended == (if NeededRank(percentile, |s|) <= 0 then 0 else -1) <==> percentile * |s| < 100
    ensures percentile >= 25 && |s| >= 4 ==> percentile * |s| >= 100
  {
    LostSearch(percentile, |s|);
    if percentile >= 25 && |s| >= 4 {
      Scaled(25, percentile, |s|);
    }
    if NeededRank(percentile, |s|) <= 0 {
      ZeroRankBucket(s, NeededRank(percentile, |s|), intended);
    }
  }

  lemma ZeroRankBucket(s: seq<int>, needed: int, b: int)
    requires needed <= 0 && IsFirstBucket(s, needed, b)
    ensures b == 0
  {
    assert UpToBucket(s, 0) >= needed;
  }

  /** One record: four times 50us. All are below 100us, the lost counts say none is, and the median is
      found in no bucket where bucket 0 is right. */
  lemma LostExample()
    ensures var s := [50, 50, 50, 50];
      && UpToBucket(s, 0) == 4 && UpToBucket([], 0) == 0
      && NeededRank(50, 4) == 2 && IsFirstBucket(s, 2, 0)
      && forall b :: !IsFirstBucket([], 2, b)
  {
    var s := [50, 50, 50, 50];
    LostSearch(50, 4);
    assert LatencyToBucket(50) == 0;
    assert [50][..0] == [] && UpToBucket([50], 0) == 1;
    assert [50, 50][..1] == [50] && UpToBucket([50, 50], 0) == 2;
    assert [50, 50, 50][..2] == [50, 50] && UpToBucket([50, 50, 50], 0) == 3;
    assert s[..3] == [50, 50, 50];
  }
}
