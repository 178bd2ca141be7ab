/** The latency histogram's buckets (src/LatencyStats.cpp), in microseconds. */
module LatencyBuckets {

  const SUB_MS_BUCKETS := 10
  const MS_BUCKETS := 99
  const HUNDREDMS_BUCKETS := 9
  const SEC_BUCKETS := 9
  const NUM_BUCKETS := SUB_MS_BUCKETS + MS_BUCKETS + HUNDREDMS_BUCKETS + SEC_BUCKETS + 1

  /** Where the last bucket's bounds end. */
  const HUNDRED_SECONDS := 100_000_000

  /** C++ division, which truncates towards zero. */
  function Quotient(x: int, y: int): int
    requires y > 0
  {
    if x >= 0 then x / y else -((-x) / y)
  }

  function LatencyToBucket(microTime: int): int {
    var msTime := Quotient(microTime, 1000);
    if msTime == 0 then
      Quotient(microTime, 100)
    else if msTime < 100 then
      SUB_MS_BUCKETS + (msTime - 1)
    else if msTime < 1000 then
      SUB_MS_BUCKETS + MS_BUCKETS + (Quotient(msTime, 100) - 1)
    else if msTime < 10000 then
      SUB_MS_BUCKETS + MS_BUCKETS + HUNDREDMS_BUCKETS + (Quotient(msTime, 1000) - 1)
    else
      NUM_BUCKETS - 1
  }

  datatype Bounds = Bounds(min: int, max: int)

  function BucketBound(bucket: int): Bounds {
    var ms, s := 1000, 1_000_000;
    if bucket < SUB_MS_BUCKETS then
      Bounds(bucket * 100, (bucket + 1) * 100)
    else if bucket < SUB_MS_BUCKETS + MS_BUCKETS then
      Bounds((bucket - SUB_MS_BUCKETS + 1) * ms, (bucket - SUB_MS_BUCKETS + 2) * ms)
    else if bucket < SUB_MS_BUCKETS + MS_BUCKETS + HUNDREDMS_BUCKETS then
      var hundredMS := bucket - SUB_MS_BUCKETS - MS_BUCKETS + 1;
      Bounds(hundredMS * 100 * ms, (hundredMS + 1) * 100 * ms)
    else if bucket < SUB_MS_BUCKETS + MS_BUCKETS + HUNDREDMS_BUCKETS + SEC_BUCKETS then
      var secBucket := bucket - SUB_MS_BUCKETS - MS_BUCKETS - SEC_BUCKETS + 1;
      Bounds(secBucket * s, (secBucket + 1) * s)
    else
      Bounds((SEC_BUCKETS + 1) * s, 100 * s)
  }

  ghost predicate Within(us: int, b: Bounds) {
    b.min <= us < b.max
  }

  /** The intervals follow each other without gap or overlap and cover [0, 100s). */
  lemma BoundsTile(bucket: int)
    requires 0 <= bucket < NUM_BUCKETS
    ensures BucketBound(0).min == 0 && BucketBound(NUM_BUCKETS - 1).max == HUNDRED_SECONDS
    ensures BucketBound(bucket).min < BucketBound(bucket).max
    ensures bucket + 1 < NUM_BUCKETS ==> BucketBound(bucket).max == BucketBound(bucket + 1).min
  {
  }

  /** How fine the histogram is: intervals of 100us below 1ms, of 1ms to 100ms, of 100ms to 1s, of 1s to
      10s, and one to 100s. */
  lemma Widths(bucket: int)
    requires 0 <= bucket < NUM_BUCKETS
    ensures NUM_BUCKETS == 128
    ensures var b := BucketBound(bucket);
      b.max - b.min ==
        if b.min < 1_000 then 100
        else if b.min < 100_000 then 1_000
        else if b.min < 1_000_000 then 100_000
        else if b.min < 10_000_000 then 1_000_000
        else 90_000_000
  {
  }

  /** The bucket of a latency, counted from these widths. */
  lemma BucketCounted(us: int)
    requires us >= 0
    ensures LatencyToBucket(us) ==
      if us < 1_000 then us / 100
      else if us < 100_000 then 10 + (us - 1_000) / 1_000
      else if us < 1_000_000 then 109 + (us - 100_000) / 100_000
      else if us < 10_000_000 then 118 + (us - 1_000_000) / 1_000_000
      else 127
  {
  }

  /** Below 100s the two directions invert each other. */
  lemma BucketIffBound(us: int, bucket: int)
    requires 0 <= us < HUNDRED_SECONDS && 0 <= bucket < NUM_BUCKETS
    ensures LatencyToBucket(us) == bucket <==> Within(us, BucketBound(bucket))
  {
  }

  lemma BucketMonotone(x: int, y: int)
    requires 0 <= x <= y
    ensures 0 <= LatencyToBucket(x) <= LatencyToBucket(y) < NUM_BUCKETS
    ensures y >= HUNDRED_SECONDS ==> LatencyToBucket(y) == NUM_BUCKETS - 1
  {
  }

  /** The times that have a bucket at all: the source relies on a latency not being negative. */
  lemma HasBucketExactly(us: int)
    ensures 0 <= LatencyToBucket(us) < NUM_BUCKETS <==> us > -100 || -10000 < us <= -1000
  {
  }
}
