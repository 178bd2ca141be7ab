/**
 The class of src/LatencyStats.cpp: per-thread buckets, running means and maxima, merged on
 demand.  Every figure it merges is proved to be the figure of LatencyReport.dfy for the plain,
 unsharded record of the latencies.

 The source increments a bucket of a copy, so its histogram stays empty: `RecordLatency` is that
 code, `RecordLatencyInPlace` the code with the increment where it was meant to be.
 */
module LatencyStats {
  import opened LatencyBuckets
  import opened LatencyReport
  import opened OrderStatistics
  import R = RunningMean

  class LatencyStats {
    const maxThreads: nat
    const kinds: nat  // number of operation types
    const means: array2<R.RunningMean?>
    const bucketCounts: array3<int>
    const maxLatency: array2<int>

    const sampleCounts: array<int>
    const finalMeans: array<real>
    const cumulative: array2<int>

    ghost var log: seq<Record>                       // everything recorded so far
    ghost var counted: seq<Record>                   // what reached the buckets
    ghost var owner: map<R.RunningMean, (nat, nat)>  // the cell of each running mean

    // Each thread's cell holds the figures of what the thread recorded for the type.

    ghost predicate Shape() {
      && means.Length0 == bucketCounts.Length0 == maxLatency.Length0 == maxThreads
      && means.Length1 == bucketCounts.Length1 == maxLatency.Length1 == cumulative.Length0 == kinds
      && bucketCounts.Length2 == cumulative.Length1 == NUM_BUCKETS
      && sampleCounts.Length == finalMeans.Length == kinds
      && maxLatency != cumulative
    }

    ghost predicate BucketsOk(log: seq<Record>)
      requires Shape()
      reads bucketCounts
    {
      forall t: nat, k: nat, b: nat :: t < maxThreads && k < kinds && b < NUM_BUCKETS ==>
        bucketCounts[t, k, b] == InBucket(Cell(log, t, k), b)
    }

    ghost predicate MaximaOk(log: seq<Record>)
      requires Shape()
      reads maxLatency
    {
      forall t: nat, k: nat :: t < maxThreads && k < kinds ==> maxLatency[t, k] == Max(Cell(log, t, k))
    }

    ghost predicate MeanOk(m: R.RunningMean?, s: seq<int>)
      reads m
    {
      if m == null then s == [] else s != [] && m.Valid() && m.log == Millis(s)
    }

    /** The running means are separate objects. */
    ghost predicate Separate()
      requires Shape()
      reads `owner, means
    {
      forall t: nat, k: nat :: t < maxThreads && k < kinds && means[t, k] != null ==>
        means[t, k] in owner && owner[means[t, k]] == (t, k)
    }

    ghost predicate MeansOk(log: seq<Record>)
      requires Shape() && Separate()
      reads `owner, means, owner.Keys
    {
      forall t: nat, k: nat :: t < maxThreads && k < kinds ==> MeanOk(means[t, k], Cell(log, t, k))
    }

    ghost predicate Valid()
      reads this, means, bucketCounts, maxLatency, owner.Keys
    {
      && Shape() && Separate() && Recorded(log, maxThreads) && Recorded(counted, maxThreads)
      && BucketsOk(counted) && MaximaOk(log) && MeansOk(log)
    }

    constructor (maxThreads: nat, kinds: nat)
      ensures Valid() && log == counted == []
      ensures this.maxThreads == maxThreads && this.kinds == kinds
      ensures fresh(means) && fresh(bucketCounts) && fresh(maxLatency) && owner == map[]
      ensures fresh(sampleCounts) && fresh(finalMeans) && fresh(cumulative)
    {
      this.maxThreads, this.kinds := maxThreads, kinds;
      means := new R.RunningMean?[maxThreads, kinds]((t, k) => null);
      bucketCounts := new int[maxThreads, kinds, NUM_BUCKETS]((t, k, b) => 0);
      maxLatency := new int[maxThreads, kinds]((t, k) => 0);
      sampleCounts := new int[kinds](k => 0);
      finalMeans := new real[kinds](k => 0.0);
      cumulative := new int[kinds, NUM_BUCKETS]((k, b) => 0);
      log, counted, owner := [], [], map[];
    }

    // ---------------------------------------------------------------- recording

    /** The histogram update as it stands: it increments the copy of a row, and loses it. */
    method CountInCopy(threadid: nat, kind: nat, us: int)
      requires Shape() && threadid < maxThreads && kind < kinds && us >= 0
    {
      BucketMonotone(us, us);
      var opBuckets := new int[NUM_BUCKETS](b requires 0 <= b < NUM_BUCKETS reads bucketCounts =>
        bucketCounts[threadid, kind, b]);
      var bucket := LatencyToBucket(us);
      opBuckets[bucket] := opBuckets[bucket] + 1;
    }

    /** The histogram update as its name and use intend it. */
    method CountBucket(threadid: nat, kind: nat, us: int)
      requires Valid() && threadid < maxThreads && kind < kinds && us >= 0
      modifies bucketCounts
      ensures BucketsOk(counted + [Record(threadid, kind, us)])
      ensures Separate() && MaximaOk(log) && MeansOk(log)
    {
      BucketMonotone(us, us);
      var bucket := LatencyToBucket(us);
      bucketCounts[threadid, kind, bucket] := bucketCounts[threadid, kind, bucket] + 1;
      forall t: nat, k: nat, b: nat | t < maxThreads && k < kinds && b < NUM_BUCKETS
        ensures bucketCounts[t, k, b] == InBucket(Cell(counted + [Record(threadid, kind, us)], t, k), b)
      {
        CellBucket(counted, Record(threadid, kind, us), t, k, b);
      }
    }

    /** The first latency of a cell. */
    method StartMean(threadid: nat, kind: nat, us: int)
      requires Shape() && Separate() && MeansOk(log) && threadid < maxThreads && kind < kinds
      requires means[threadid, kind] == null
      modifies means, `owner
      ensures Separate() && MeansOk(log + [Record(threadid, kind, us)]) && fresh(owner.Keys - old(owner.Keys))
    {
      assert MeanOk(means[threadid, kind], Cell(log, threadid, kind));
      var mean := new R.RunningMean(us as real / 1000.0);
      means[threadid, kind], owner := mean, owner[mean := (threadid, kind)];
      forall t: nat, k: nat | t < maxThreads && k < kinds
        ensures MeanOk(means[t, k], Cell(log + [Record(threadid, kind, us)], t, k))
      {
        assert old(MeanOk(means[t, k], Cell(log, t, k)));
        CellMillis(log, Record(threadid, kind, us), t, k);
      }
    }

    /** A further latency. */
    method ContinueMean(threadid: nat, kind: nat, us: int)
      requires Shape() && Separate() && MeansOk(log) && threadid < maxThreads && kind < kinds
      requires means[threadid, kind] != null
      modifies owner.Keys
      ensures Separate() && MeansOk(log + [Record(threadid, kind, us)])
    {
      assert MeanOk(means[threadid, kind], Cell(log, threadid, kind));
      means[threadid, kind].AddSample(us as real / 1000.0);
      forall t: nat, k: nat | t < maxThreads && k < kinds
        ensures MeanOk(means[t, k], Cell(log + [Record(threadid, kind, us)], t, k))
      {
        assert old(MeanOk(means[t, k], Cell(log, t, k)));
        CellMillis(log, Record(threadid, kind, us), t, k);
      }
    }

    method AddToMean(threadid: nat, kind: nat, us: int)
      requires Shape() && Separate() && MeansOk(log) && threadid < maxThreads && kind < kinds
      modifies means, `owner, owner.Keys
      ensures Separate() && MeansOk(log + [Record(threadid, kind, us)]) && fresh(owner.Keys - old(owner.Keys))
    {
      if means[threadid, kind] == null {
        StartMean(threadid, kind, us);
      } else {
        ContinueMean(threadid, kind, us);
      }
    }

    method RaiseMax(threadid: nat, kind: nat, us: int)
      requires Shape() && Separate() && MaximaOk(log) && MeansOk(log) && threadid < maxThreads && kind < kinds
      modifies maxLatency
      ensures MaximaOk(log + [Record(threadid, kind, us)])
      ensures Separate() && MeansOk(log)
    {
      if maxLatency[threadid, kind] < us {
        maxLatency[threadid, kind] := us;
      }
      forall t: nat, k: nat | t < maxThreads && k < kinds
        ensures maxLatency[t, k] == Max(Cell(log + [Record(threadid, kind, us)], t, k))
      {
        CellMax(log, Record(threadid, kind, us), t, k);
      }
    }

    /** The rest of a recording, the same in both versions. */
    method UpdateMeanAndMax(threadid: nat, kind: nat, us: int)
      requires Shape() && Separate() && MaximaOk(log) && MeansOk(log) && threadid < maxThreads && kind < kinds
      modifies `owner, means, maxLatency, owner.Keys
      ensures fresh(owner.Keys - old(owner.Keys))
      ensures var log1 := log + [Record(threadid, kind, us)]; Separate() && MaximaOk(log1) && MeansOk(log1)
    {
      RaiseMax(threadid, kind, us);
      AddToMean(threadid, kind, us);
    }

    method UpdateCell(threadid: nat, kind: nat, us: int)
      requires Valid() && threadid < maxThreads && kind < kinds && us >= 0
      modifies `owner, means, bucketCounts, maxLatency, owner.Keys
      ensures fresh(owner.Keys - old(owner.Keys)) && BucketsOk(counted + [Record(threadid, kind, us)])
      ensures var log1 := log + [Record(threadid, kind, us)]; Separate() && MaximaOk(log1) && MeansOk(log1)
    {
      CountBucket(threadid, kind, us);
      UpdateMeanAndMax(threadid, kind, us);
    }

    /** The fields are up to date with these records. */
    ghost method Commit(log1: seq<Record>, counted1: seq<Record>)
      requires Shape() && Separate() && Recorded(log1, maxThreads) && Recorded(counted1, maxThreads)
      requires BucketsOk(counted1) && MaximaOk(log1) && MeansOk(log1)
      modifies `log, `counted
      ensures Valid() && log == log1 && counted == counted1
    {
      log, counted := log1, counted1;
    }

    /** As written. */
    method RecordLatency(threadid: nat, kind: nat, microtimetaken: int)
      requires Valid() && threadid < maxThreads && kind < kinds && microtimetaken >= 0
      modifies this, means, maxLatency, owner.Keys
      ensures Valid() && fresh(owner.Keys - old(owner.Keys))
      ensures log == old(log) + [Record(threadid, kind, microtimetaken)] && counted == old(counted)
    {
      CountInCopy(threadid, kind, microtimetaken);
      UpdateMeanAndMax(threadid, kind, microtimetaken);
      RecordedNext(log, Record(threadid, kind, microtimetaken), maxThreads);
      Commit(log + [Record(threadid, kind, microtimetaken)], counted);
    }

    /** As intended. */
    method RecordLatencyInPlace(threadid: nat, kind: nat, microtimetaken: int)
      requires Valid() && threadid < maxThreads && kind < kinds && microtimetaken >= 0
      modifies this, means, bucketCounts, maxLatency, owner.Keys
      ensures Valid() && fresh(owner.Keys - old(owner.Keys))
      ensures log == old(log) + [Record(threadid, kind, microtimetaken)]
      ensures counted == old(counted) + [Record(threadid, kind, microtimetaken)]
    {
      UpdateCell(threadid, kind, microtimetaken);
      RecordedNext(log, Record(threadid, kind, microtimetaken), maxThreads);
      RecordedNext(counted, Record(threadid, kind, microtimetaken), maxThreads);
      Commit(log + [Record(threadid, kind, microtimetaken)], counted + [Record(threadid, kind, microtimetaken)]);
    }

    // ---------------------------------------------------------------- merging

    method CountSamples(kind: nat) returns (samples: int)
      requires Valid() && kind < kinds
      ensures samples == |Latencies(log, kind)|
    {
      samples := 0;
      BelowNone(log, kind);
      for thread := 0 to maxThreads
        invariant samples == |Below(log, thread, kind)|
      {
        assert MeanOk(means[thread, kind], Cell(log, thread, kind));
        ThreadTotal(log, thread, kind);
        if means[thread, kind] != null {
          var n := means[thread, kind].Samples();
          samples := samples + n;
        }
      }
      BelowAll(log, maxThreads, kind);
    }

    /** One thread's term of the weighted sum. */
    method Share(thread: nat, kind: nat, samples: int) returns (share: real)
      requires Valid() && thread < maxThreads && kind < kinds && samples == |Latencies(log, kind)|
      ensures share == Part(Total(Cell(log, thread, kind)), samples)
    {
      var s := Cell(log, thread, kind);
      assert MeanOk(means[thread, kind], s);
      if means[thread, kind] == null {
        return 0.0;
      }
      var n := means[thread, kind].Samples();
      var m := means[thread, kind].Mean();
      MillisSum(s);
      CellWithin(log, thread, kind);
      Cancel(n as real, samples as real, Total(s) as real / 1000.0);
      share := (n as real / samples as real) * m;
    }

    method WeightedMean(kind: nat, samples: int) returns (mean: real)
      requires Valid() && kind < kinds && samples == |Latencies(log, kind)|
      ensures mean == MeanMs(Latencies(log, kind))
    {
      mean := 0.0;
      BelowNone(log, kind);
      for thread := 0 to maxThreads
        invariant mean == Part(Total(Below(log, thread, kind)), samples)
      {
        NextPart(log, thread, kind, samples);
        var share := Share(thread, kind, samples);
        mean := mean + share;
      }
      BelowAll(log, maxThreads, kind);
    }

    method SetMean(kind: nat, samples: int, mean: real)
      requires Valid() && kind < kinds
      modifies sampleCounts, finalMeans
      ensures Valid() && sampleCounts[kind] == samples && finalMeans[kind] == mean
      ensures forall k: nat :: k < kinds && k != kind ==>
        sampleCounts[k] == old(sampleCounts[k]) && finalMeans[k] == old(finalMeans[k])
    {
      sampleCounts[kind], finalMeans[kind] := samples, mean;
    }

    /** Sample count and mean of every type. */
    method CalcMeans()
      requires Valid()
      modifies sampleCounts, finalMeans
      ensures Valid()
      ensures forall k: nat :: k < kinds ==>
        sampleCounts[k] == |Latencies(log, k)| && finalMeans[k] == MeanMs(Latencies(log, k))
    {
      for i := 0 to kinds
        invariant Valid()
        invariant forall k: nat :: k < i ==>
          sampleCounts[k] == |Latencies(log, k)| && finalMeans[k] == MeanMs(Latencies(log, k))
      {
        var samples := CountSamples(i);
        var mean := WeightedMean(i, samples);
        SetMean(i, samples, mean);
      }
    }

    /** Adds one bucket of all threads to a running count. */
    method SumBucket(kind: nat, bucket: nat, count: int) returns (sum: int)
      requires Valid() && kind < kinds && bucket < NUM_BUCKETS
      requires count == UpToBucket(Latencies(counted, kind), bucket - 1)
      ensures sum == UpToBucket(Latencies(counted, kind), bucket)
    {
      sum := count;
      BelowNone(counted, kind);
      for thread := 0 to maxThreads
        invariant sum == count + InBucket(Below(counted, thread, kind), bucket)
      {
        ThreadFigures(counted, maxThreads, thread, kind, bucket);
        sum := sum + bucketCounts[thread, kind, bucket];
      }
      BelowAll(counted, maxThreads, kind);
      BucketsAddUp(Latencies(counted, kind), bucket);
    }

    method SetCumulative(kind: nat, bucket: nat, count: int)
      requires Valid() && kind < kinds && bucket < NUM_BUCKETS
      modifies cumulative
      ensures Valid() && cumulative[kind, bucket] == count
      ensures forall k: nat, b: nat :: k < kinds && b < NUM_BUCKETS && (k != kind || b != bucket) ==>
        cumulative[k, b] == old(cumulative[k, b])
    {
      cumulative[kind, bucket] := count;
    }

    /** Cumulative counts of one type. */
    method CumulateKind(kind: nat)
      requires Valid() && kind < kinds
      modifies cumulative
      ensures Valid()
      ensures forall b: nat :: b < NUM_BUCKETS ==> cumulative[kind, b] == UpToBucket(Latencies(counted, kind), b)
      ensures forall k: nat, b: nat :: k < kinds && k != kind && b < NUM_BUCKETS ==>
        cumulative[k, b] == old(cumulative[k, b])
    {
      var count := 0;
      ghost var s := Latencies(counted, kind);
      NoNegative(counted, maxThreads, 0, kind);
      EdgeBuckets(s);
      for bucket := 0 to NUM_BUCKETS
        invariant Valid() && count == UpToBucket(s, bucket - 1)
        invariant forall b: nat :: b < bucket ==> cumulative[kind, b] == UpToBucket(s, b)
        invariant forall k: nat, b: nat :: k < kinds && k != kind && b < NUM_BUCKETS ==>
        cumulative[k, b] == old(cumulative[k, b])
      {
        count := SumBucket(kind, bucket, count);
        SetCumulative(kind, bucket, count);
      }
    }

    method CalcCumulativeBuckets()
      requires Valid()
      modifies cumulative
      ensures Valid()
      ensures forall k: nat, b: nat :: k < kinds && b < NUM_BUCKETS ==>
        cumulative[k, b] == UpToBucket(Latencies(counted, k), b)
    {
      for kind := 0 to kinds
        invariant Valid()
        invariant forall k: nat, b: nat :: k < kind && b < NUM_BUCKETS ==>
          cumulative[k, b] == UpToBucket(Latencies(counted, k), b)
      {
        CumulateKind(kind);
      }
    }

    /** What displayLatencyStats computes before it prints anything. */
    ghost predicate Calculated()
      requires Shape()
      reads this, sampleCounts, finalMeans, cumulative
    {
      forall k: nat :: k < kinds ==>
        && sampleCounts[k] == |Latencies(log, k)| && finalMeans[k] == MeanMs(Latencies(log, k))
        && forall b: nat :: b < NUM_BUCKETS ==> cumulative[k, b] == UpToBucket(Latencies(counted, k), b)
    }

    method DisplayLatencyStats()
      requires Valid()
      modifies sampleCounts, finalMeans, cumulative
      ensures Valid() && Calculated()
      ensures forall k: nat :: k < kinds ==> cumulative[k, NUM_BUCKETS - 1] == |Latencies(counted, k)|
      ensures counted == log ==> forall k: nat :: k < kinds ==> sampleCounts[k] == cumulative[k, NUM_BUCKETS - 1]
    {
      CalcMeans();
      CalcCumulativeBuckets();
      forall k: nat | k < kinds ensures cumulative[k, NUM_BUCKETS - 1] == |Latencies(counted, k)| {
        NoNegative(counted, maxThreads, 0, k);
        EdgeBuckets(Latencies(counted, k));
      }
    }

    // ---------------------------------------------------------------- reporting

    /** The bucket number is -1, with its meaningless bounds, when no cumulative count reaches the
        rank. */
    method GetBucketBounds(kind: nat, percentile: int) returns (bounds: Bounds, bucketNum: int)
      requires Shape() && Calculated() && kind < kinds
      ensures bounds == BucketBound(bucketNum)
      ensures var s := Latencies(counted, kind); var needed := NeededRank(percentile, |Latencies(log, kind)|);
        if needed <= UpToBucket(s, NUM_BUCKETS - 1) then IsFirstBucket(s, needed, bucketNum) else bucketNum == -1
    {
      var neededRank := Quotient(percentile * sampleCounts[kind], 100);
      ghost var s := Latencies(counted, kind);
      bucketNum := -1;
      for i := 0 to NUM_BUCKETS
        invariant bucketNum == -1
        invariant forall c :: 0 <= c < i ==> UpToBucket(s, c) < neededRank
      {
        var rank := cumulative[kind, i];
        if neededRank <= rank {
          UpToMonotone(s, i, NUM_BUCKETS - 1);
          return BucketBound(i), i;
        }
      }
      bounds := BucketBound(bucketNum);
    }

    method GetMax(kind: nat) returns (max: real)
      requires Valid() && kind < kinds
      ensures max == Max(Latencies(log, kind)) as real / 1000.0
    {
      var maxUs := 0;
      BelowNone(log, kind);
      for thread := 0 to maxThreads
        invariant maxUs == Max(Below(log, thread, kind))
      {
        ThreadFigures(log, maxThreads, thread, kind, 0);
        maxUs := if maxUs < maxLatency[thread, kind] then maxLatency[thread, kind] else maxUs;
      }
      BelowAll(log, maxThreads, kind);
      max := maxUs as real / 1000.0;
    }
  }

  // ---------------------------------------------------------------- a whole report

  datatype Report = Report(samples: int, mean: real, max: real, bounds: Bounds, bucket: int)

  /** What is right about a report whichever way the buckets were counted. */
  ghost predicate RightTotals(r: Report, s: seq<int>) {
    r.samples == |s| && r.mean == MeanMs(s) && r.max == Max(s) as real / 1000.0
  }

  method ReportOn(stats: LatencyStats, kind: nat, percentile: int) returns (r: Report)
    requires stats.Valid() && kind < stats.kinds
    modifies stats.sampleCounts, stats.finalMeans, stats.cumulative
    ensures RightTotals(r, Latencies(stats.log, kind)) && r.bounds == BucketBound(r.bucket)
    ensures var s, needed := Latencies(stats.counted, kind), NeededRank(percentile, |Latencies(stats.log, kind)|);
      if needed <= UpToBucket(s, NUM_BUCKETS - 1) then IsFirstBucket(s, needed, r.bucket) else r.bucket == -1
  {
    stats.DisplayLatencyStats();
    var bounds, bucket := stats.GetBucketBounds(kind, percentile);
    var max := stats.GetMax(kind);
    r := Report(stats.sampleCounts[kind], stats.finalMeans[kind], max, bounds, bucket);
  }

  ghost predicate Kinds(records: seq<Record>, kinds: nat) {
    forall i :: 0 <= i < |records| ==> records[i].kind < kinds
  }

  /** The program as it stands, for every record: counts, means and maxima are right; every percentile
      whose rank does not truncate to 0 gets the meaningless bounds of bucket -1. */
  method ReportAsWritten(records: seq<Record>, threads: nat, kinds: nat, kind: nat, percentile: int)
      returns (r: Report)
    requires Recorded(records, threads) && Kinds(records, kinds) && kind < kinds
    ensures RightTotals(r, Latencies(records, kind)) && r.bounds == BucketBound(r.bucket)
    ensures r.bucket == if NeededRank(percentile, |Latencies(records, kind)|) <= 0 then 0 else -1
    ensures NeededRank(percentile, |Latencies(records, kind)|) > 0 ==> r.bounds == Bounds(-100, 0)
  {
    var stats := new LatencyStats(threads, kinds);
    for i := 0 to |records|
      invariant stats.Valid() && fresh(stats) && stats.kinds == kinds && stats.maxThreads == threads
      invariant fresh(stats.means) && fresh(stats.maxLatency) && fresh(stats.owner.Keys)
      invariant fresh(stats.sampleCounts) && fresh(stats.finalMeans) && fresh(stats.cumulative)
      invariant stats.log == records[..i] && stats.counted == []
    {
      stats.RecordLatency(records[i].thread, records[i].kind, records[i].us);
      assert records[..i + 1] == records[..i] + [records[i]];
    }
    assert records[..|records|] == records;
    r := ReportOn(stats, kind, percentile);
    LostSearch(percentile, |Latencies(records, kind)|);
  }

  /** The same with the increment in place: the first bucket whose count reaches the rank, if any. */
  method ReportAsIntended(records: seq<Record>, threads: nat, kinds: nat, kind: nat, percentile: int)
      returns (r: Report)
    requires Recorded(records, threads) && Kinds(records, kinds) && kind < kinds
    ensures RightTotals(r, Latencies(records, kind)) && r.bounds == BucketBound(r.bucket)
    ensures var s := Latencies(records, kind); var needed := NeededRank(percentile, |s|);
      if needed <= |s| then IsFirstBucket(s, needed, r.bucket) else r.bucket == -1
  {
    var stats := new LatencyStats(threads, kinds);
    for i := 0 to |records|
      invariant stats.Valid() && fresh(stats) && stats.kinds == kinds && stats.maxThreads == threads
      invariant fresh(stats.means) && fresh(stats.bucketCounts) && fresh(stats.maxLatency) && fresh(stats.owner.Keys)
      invariant fresh(stats.sampleCounts) && fresh(stats.finalMeans) && fresh(stats.cumulative)
      invariant stats.log == stats.counted == records[..i]
    {
      stats.RecordLatencyInPlace(records[i].thread, records[i].kind, records[i].us);
      assert records[..i + 1] == records[..i] + [records[i]];
    }
    assert records[..|records|] == records;
    r := ReportOn(stats, kind, percentile);
    NoNegative(records, threads, 0, kind);
    EdgeBuckets(Latencies(records, kind));
  }

  // ---------------------------------------------------------------- lemmas

  lemma RecordedNext(log: seq<Record>, r: Record, threads: nat)
    requires Recorded(log, threads) && r.us >= 0 && r.thread < threads
    ensures Recorded(log + [r], threads)
  {
  }

  lemma CellNext(log: seq<Record>, r: Record, t: nat, k: nat)
    ensures Cell(log + [r], t, k) == Cell(log, t, k) + if t == r.thread && k == r.kind then [r.us] else []
  {
    assert (log + [r])[..|log|] == log;
  }

  lemma CellBucket(log: seq<Record>, r: Record, t: nat, k: nat, b: nat)
    ensures InBucket(Cell(log + [r], t, k), b) == InBucket(Cell(log, t, k), b)
      + if t == r.thread && k == r.kind && LatencyToBucket(r.us) == b then 1 else 0
  {
    CellNext(log, r, t, k);
    var s := Cell(log, t, k);
    assert (s + [r.us])[..|s|] == s && s + [] == s;
  }

  lemma CellMax(log: seq<Record>, r: Record, t: nat, k: nat)
    ensures var m := Max(Cell(log, t, k));
      Max(Cell(log + [r], t, k)) == if t == r.thread && k == r.kind && m < r.us then r.us else m
  {
    CellNext(log, r, t, k);
    var s := Cell(log, t, k);
    assert (s + [r.us])[..|s|] == s && s + [] == s;
  }

  lemma CellMillis(log: seq<Record>, r: Record, t: nat, k: nat)
    ensures var s, s1 := Cell(log, t, k), Cell(log + [r], t, k);
      if t == r.thread && k == r.kind then s1 != [] && Millis(s1) == Millis(s) + [r.us as real / 1000.0]
      else s1 == s
  {
    CellNext(log, r, t, k);
  }

  lemma ThreadTotal(log: seq<Record>, t: nat, kind: nat)
    ensures |Below(log, t + 1, kind)| == |Below(log, t, kind)| + |Cell(log, t, kind)|
    ensures Total(Below(log, t + 1, kind)) == Total(Below(log, t, kind)) + Total(Cell(log, t, kind))
  {
    ThreadSplit(log, t, kind);
    TotalPermutation(Below(log, t + 1, kind), Below(log, t, kind) + Cell(log, t, kind));
    TotalConcat(Below(log, t, kind), Cell(log, t, kind));
  }

  lemma ThreadFigures(log: seq<Record>, threads: nat, t: nat, kind: nat, b: int)
    requires Recorded(log, threads) && 0 <= b < NUM_BUCKETS
    ensures var s, c, s1 := Below(log, t, kind), Cell(log, t, kind), Below(log, t + 1, kind);
      && InBucket(s1, b) == InBucket(s, b) + InBucket(c, b)
      && Max(s1) == if Max(s) < Max(c) then Max(c) else Max(s)
  {
    var s, c, s1 := Below(log, t, kind), Cell(log, t, kind), Below(log, t + 1, kind);
    ThreadSplit(log, t, kind);
    NoNegative(log, threads, t + 1, kind);
    FiguresPermutation(s1, s + c, b);
    FiguresPermutation(s1, s + c, b - 1);
    BucketsAddUp(s1, b);
    BucketsAddUp(s + c, b);
    FiguresConcat(s, c, b);
  }

  lemma {:induction false} CellWithin(log: seq<Record>, t: nat, kind: nat)
    ensures |Cell(log, t, kind)| <= |Latencies(log, kind)|
  {
    if log != [] {
      CellWithin(log[..|log| - 1], t, kind);
    }
  }

  /** A thread's share of the final mean. */
  function Part(total: int, samples: int): real {
    if samples == 0 then 0.0 else total as real / 1000.0 / samples as real
  }

  lemma PartsAdd(x: int, y: int, samples: int)
    ensures Part(x, samples) + Part(y, samples) == Part(x + y, samples)
  {
    if samples != 0 {
      assert (x as real + y as real) / 1000.0 == x as real / 1000.0 + y as real / 1000.0;
      AddQuotients(x as real / 1000.0, y as real / 1000.0, samples as real);
    }
  }

  lemma NextPart(log: seq<Record>, t: nat, kind: nat, samples: int)
    ensures Part(Total(Below(log, t + 1, kind)), samples)
         == Part(Total(Below(log, t, kind)), samples) + Part(Total(Cell(log, t, kind)), samples)
  {
    ThreadTotal(log, t, kind);
    PartsAdd(Total(Below(log, t, kind)), Total(Cell(log, t, kind)), samples);
  }

  lemma Cancel(n: real, d: real, x: real)
    requires n > 0.0 && d > 0.0
    ensures (n / d) * (x / n) == x / d
  {
    assert (x / n) * n == x;
    assert (n / d) * d == n;
    assert (n / d) * (x / n) * d == x;
  }

  lemma AddQuotients(x: real, y: real, d: real)
    requires d != 0.0
    ensures x / d + y / d == (x + y) / d
  {
    assert x / d * d == x && y / d * d == y;
    assert (x / d + y / d) * d == x + y;
  }
}
