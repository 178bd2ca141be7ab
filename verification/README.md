# A verified model of metricbench

metricbench loads a time-series schema into a database and measures how fast that goes. One
producer enumerates (minute, device, table) work items and pushes them on a shared queue;
`LoaderThreads` workers pop them, pick a random set of metrics for each and insert the rows; the
durations are collected in a per-thread latency histogram, a bounded sample and an interval counter.
This project models that pipeline and its measurements in Dafny and proves what they guarantee.
`dafny verify dfyconfig.toml` checks all of it.

## What is modelled

**The queue** (`TsQueue.dfy`). A FIFO under one mutex with two condition variables. A `Monitor` holds
the items and the wait sets; each critical section is one function on monitors, and one method of
the class `SharedQueue` proved to compute it. Spurious wake-ups are allowed.

**The producer** (`Preparer.dfy`, `Schedule.dfy`, `Backpressure.dfy`). The nested loops of `Prep` and `Run` are methods,
proved to issue exactly the list of queue operations and progress updates that `Program` describes.
`Schedule.dfy` says in closed form what happens between any two messages, which with the messages
determines the list, and what the progress counter shows in every state of a run. `Backpressure.dfy`
walks over the list and bounds the queue at every point.

**The pipeline** (`Protocol.dfy`, `Pipeline.dfy`, `Join.dfy`, `Liveness.dfy`). A state machine with one action per critical
section or access to `processingComplete`: the producer executes its program, any number of workers
go through the polling loop of `InsertData`, the main thread sets the flag. `Protocol.dfy` proves an
invariant of every step, `Pipeline.dfy` draws the safety results for every run, `Join.dfy` proves
termination, quiescence and the exact condition under which joining the workers is certain to return,
`Liveness.dfy` that every fair run comes to rest.

**The database** (`MySQLDriver.dfy`, `Campaign.dfy`). A set of primary keys. A prepare followed by any number
of runs, each over an arbitrary interleaving, inserts no key twice and fills time without a gap.

**The latency report** (`LatencyBuckets.dfy`, `LatencyReport.dfy`, `LatencyStats.dfy`, `RunningMean.dfy`). The
class merges per-thread cells; every figure it reports is proved equal to the figure of the plain,
unsharded list of latencies it counted, and percentiles to point at the bucket of the order statistic. It
records in two ways: as the source is written, which never reaches the buckets, and as it is meant.

**The bounded sample** (`Reservoir.dfy`, `SampledStats.dfy`, `OrderStatistics.dfy`). The replacement rule as a
random experiment with exact inclusion probabilities, and the class with its in-place sort.

**The interval statistics** (`Stats.dfy`) and **the URL splitter** (`Uri.dfy`), the latter with a printer and
the exact grammar on which the two invert each other.

## Where the code and its documentation or intent differ

The model follows the code and says exactly when the stated intent is met.

- Shutdown: with two or more workers and any work at all, a worker can fall asleep forever between the
  test at src/MySQLDriver.cpp:155 and the pop at src/MySQLDriver.cpp:157. `Join.JoinReturnsExactly` gives
  the exact condition, `Join.JoinMayHang` constructs a run that loses all workers but one, and
  `Join.JoinMayReturn` one that loses none. With `--threads 0`, which the options accept, the producer
  itself blocks as soon as it has pushed anything and waits (`Join.PhaseJoinReturnsExactly`).
- Sampling: the comment at src/SampledStats.cpp:76-77 promises every measurement an equal chance. The code
  divides by the index of the arrival, not by the number of arrivals; `Reservoir.InclusionProbability` has the real
  probabilities and `Reservoir.EqualChancesExactly` says when they are equal.
- Minimum: zero doubles as "unset" (src/SampledStats.cpp:61-63), and times are recorded in whole milliseconds
  (src/MySQLDriver.cpp:336); `SampledStats.MinimumIsLeast` has the condition, `SampledStats.MinimumFails` an input.
- Number of types: the arrays of `SampledStats` hold `sizeof(MessageType)` types (src/SampledStats.hpp:26), 4 on
  common platforms. A run displays types 2 to 5 (src/MySQLDriver.cpp:19) and times types 2 to 6
  (src/MySQLDriver.cpp:474), so with streaming statistics it indexes past them. The number of types is a
  parameter of the model, and its operations demand types in range; `SampledStats.TypesInRangeExactly` says
  which numbers of types meet that.
- Sample mean: it starts from slot 0 rather than slot `start` (src/SampledStats.cpp:129). The contract of
  `SampledStats.SampledStats.DisplayStats` says, from the buffer before the call, when the mean is right all
  the same; `SampledStats.MeanFails` has a range where it is not. Every caller in the program passes 0.
- Percentage: the printer passes 0.99 where `percentile` expects 99 (src/Stats.cpp:32); see
  `Stats.PrintedPercentile` and `Stats.LabelRightExactly`.
- Histogram: src/LatencyStats.cpp:91 copies the bucket array, so the increment after it is lost and every
  cumulative count stays 0. `LatencyStats.LatencyStats.RecordLatency` is that code, and
  `LatencyStats.ReportAsWritten` says what the program reports with it for every record: counts, means and maxima
  are right, and every percentile whose rank does not truncate to 0 gets the bounds -0.10 and 0.00 ms of
  bucket -1. `LatencyReport.LostCountExactly` and `LatencyReport.LostPercentileExactly` say when the lost
  counts are right by chance, `LatencyReport.LostExample` has a record where they are not.
  `LatencyStats.LatencyStats.RecordLatencyInPlace` increments the bucket in place, as the code evidently intends;
  what the search finds over the counts so kept is `LatencyStats.ReportAsIntended`.
- Histogram rank: a needed rank truncated to 0 always selects bucket 0 (src/LatencyStats.cpp:195-203); see
  `LatencyReport.PercentileExactly` and, for an input, `LatencyReport.ZeroRankFails`.
- Timestamp range: `auto start_table` at src/MySQLDriver.cpp:55 declares a new variable, so a call for one
  table scans all tables up to it; the branch for an unset minimum is dead. `MySQLDriver.GetTimestampRange`
  models both, `MySQLDriver.SingleTableExactly` says when the scan gives that table's range. No caller in the
  program passes a table.
- URLs: a `?` before the path, or before the host when there is no path, makes the code build a string from
  an inverted range, which C++ leaves undefined. The model returns `InvertedRange`; `Uri.InvertedExamples` has
  one string of each kind, `Uri.DroppedExample` one that does not print back.

## Model

| member | source | states |
|---|---|---|
| TsQueue.NoLostWakeupEver | src/tsqueue.hpp:25-63 | after any sequence of critical sections and spurious wake-ups of any number of threads: a worker asleep un-notified means no more items than woken workers, a producer asleep means more items than it waits for |
| TsQueue.NoLostWakeupStep | src/tsqueue.hpp:25-63 | each critical section and each spurious wake-up keeps that invariant |
| TsQueue.SharedQueue.Push | src/tsqueue.hpp:25-30 | appends the item and wakes one sleeping popper, whichever, if there is one |
| TsQueue.SharedQueue.WaitAndPop | src/tsqueue.hpp:32-39 | takes the front item and wakes the producer, or puts the caller to sleep on an empty queue and changes nothing else |
| TsQueue.SharedQueue.WaitSize | src/tsqueue.hpp:57-63 | returns exactly when the queue is no longer than the limit, else sleeps; items untouched |
| TsQueue.SharedQueue.WaitEmpty | src/tsqueue.hpp:51-55 | the same for an empty queue |
| TsQueue.SharedQueue.Empty | src/tsqueue.hpp:84-88 | tells exactly whether there are no items |
| Preparer.Preparer.PushTables | src/Preparer.cpp:70-73 | pushes one message per table, in order |
| Preparer.Preparer.PrepMinute | src/Preparer.cpp:65-79 | one minute of a prepare: per device the pushes, the progress update, the throttle; then the barrier |
| Preparer.Preparer.RunMinute | src/Preparer.cpp:131-152 | one minute of a run: the pushes of the drawn number of devices, then the throttle and the progress update; what that is, message by message, is Schedule.RunScheduled |
| Preparer.Preparer.Prep | src/Preparer.cpp:51-81 | the loops issue exactly the prepare program from the later of newest timestamp + 60 and StartTimestamp |
| Preparer.Preparer.Run | src/Preparer.cpp:94-153 | the loops issue exactly the run program from newest timestamp + 60, and advance the delete timestamp by the window; the program is pinned by Preparer.PhaseMessages and Schedule.RunScheduled |
| Preparer.PhaseMessages | src/Preparer.cpp:62-74 | the pushes of a phase are its (minute, device, table) triples, each once, strictly increasing lexicographically, and their number is the sum of the device counts times the tables |
| Preparer.PushesPrefix | src/Preparer.cpp:63-81 | what has been pushed at any point is a prefix of what the phase pushes in all |
| Preparer.MinutesMessages | src/Preparer.cpp:124-153 | the same enumeration for the minute loop of either phase |
| Preparer.PrepStartIsLater | src/Preparer.cpp:54 | a prepare starts at the later of newest timestamp + 60 and StartTimestamp |
| Messages.MessageTimestamp | src/Message.hpp:34-37 | the timestamp of a message is the 64-bit one reduced to 32 bits, and the same when that fits |
| Schedule.PrepareScheduled | src/Preparer.cpp:63-81 | after each message of a prepare: nothing before a device's last table; then the progress grows by DBTables and the producer waits for 2 * LoaderThreads; after the last device it also waits for an empty queue |
| Schedule.RunScheduled | src/Preparer.cpp:124-153 | after each message of a run: nothing but after the last of a minute, when the producer waits for 100000 * LoaderThreads and then sets the progress to that minute |
| Schedule.PhaseStarts | src/Preparer.cpp:51-54 | before its first message a prepare sets the progress to 0, a run to its start |
| Schedule.GapsDetermine | src/Preparer.cpp:63-153 | two programs with the same distinct messages and the same operations after each of them are the same |
| Schedule.RunProgress | src/Preparer.cpp:124-152 | in every state of a run the counter shows the last minute whose operations are all issued, or the start; all messages of the minutes so finished are pushed, and none of a minute after the next |
| Schedule.JoinedRunProgress | src/Preparer.cpp:152 | after a joined run the counter shows the last minute, start + 60 * (mins - 1), or start without minutes |
| Backpressure.AuditMeaning | src/Preparer.cpp:62-81 | the walk over a program computes its queue bound and progress, and a clean walk means everything still queued is of one minute |
| Backpressure.AuditPrefix | src/Preparer.cpp:62-81 | the walk's peak bounds the queue, and its cleanness holds, at every intermediate point |
| Backpressure.PrepareAudit | src/Preparer.cpp:45-81 | any prepare program keeps the queue at 2 * LoaderThreads + DBTables, never mixes two minutes in it, and ends with progress equal to the load |
| Backpressure.RunAudit | src/Preparer.cpp:124-153 | any run program keeps the queue at 100000 * LoaderThreads + MaxDevices * DBTables |
| Protocol.InvStep | src/MySQLDriver.cpp:153-178 | every action of producer, worker, main thread or spurious wake-up keeps the invariant: program followed, first in first out, nothing lost or duplicated, no lost wake-up, exits only on an empty queue after completion |
| Protocol.InvReached | src/MySQLDriver.cpp:153-178 | the invariant holds in every state of every run |
| Protocol.PhaseChanges | src/MySQLDriver.cpp:153-157 | of every action of every thread: exactly when a worker reaches each place of its loop; the pop exactly from the test before it, with items queued |
| Protocol.MessageChanges | src/MySQLDriver.cpp:157-166 | exactly what a worker's step does to the queue and to the messages popped and completed |
| Pipeline.WakeUpsReached | src/tsqueue.hpp:25-63 | no lost wake-up in any reachable state, in terms of the wait the producer is in |
| Pipeline.SomeWorkerAwake | src/tsqueue.hpp:32-39 | waiting items are never left to sleeping workers only |
| Pipeline.ProducerNeverWaitsAlone | src/Preparer.cpp:76-79 | while the producer sleeps in wait_size or wait_empty some worker can take a step |
| Pipeline.FifoReached | src/Preparer.cpp:63-81 | popped followed by queued is pushed, and pushed is a prefix of the enumeration, in every state |
| Pipeline.JoinedMeansDone | src/metricbench.cpp:271-273 | once all workers have exited, every message was completed exactly once and the producer is done |
| Pipeline.PrepareLoadsAll | src/Preparer.cpp:45-81 | after a joined prepare the completed multiset is the full product, each item once, and progress equals LoadMins * MaxDevices * DBTables |
| Pipeline.NoDuplicates | src/Preparer.cpp:63-74 | a strictly increasing enumeration holds each message at most once |
| Pipeline.PrepareBarrier | src/Preparer.cpp:63-81 | over every interleaving of a prepare: the queue bound, all queued messages carry the newest timestamp, unfinished older messages number at most LoaderThreads |
| Pipeline.RunQueueBound | src/Preparer.cpp:124-153 | over every interleaving of a run: the queue bound |
| Join.WorkDecreases | src/MySQLDriver.cpp:153-178 | a worker's step decreases the measure (items, then distance to pop, sleep or exit) while there are items or completion is set |
| Join.DrainStep | src/MySQLDriver.cpp:153-178 | after completion every step except spurious wake-ups decreases the measure, and wakes nobody |
| Join.DrainTerminates | src/MySQLDriver.cpp:153-178 | every such run is finite, with a bound linear in items and workers |
| Join.QuiescentMeansDone | src/metricbench.cpp:271-273 | a pipeline at rest, with at least one worker, has issued and completed every message exactly once; its workers have exited or sleep in the pop, at least one has exited, and a single worker has |
| Join.ExitSettled | src/MySQLDriver.cpp:153-157 | once a draining queue is empty, whatever happens then: a worker not in the pop never sleeps again and has exited at rest, one in the pop never leaves it and sleeps at rest |
| Join.Drain | src/MySQLDriver.cpp:153-178 | from a draining state a quiescent one is reached, and sleepers stay asleep |
| Join.CanAlwaysFinish | src/MySQLDriver.cpp:153-178 | from every reachable state some continuation completes everything the producer will ever push |
| Join.JoinMayHang | src/MySQLDriver.cpp:155-157 | for any program with work and any number of workers, a run that rests with all workers but worker 0 asleep for good, the most that can be lost |
| Join.JoinReturnsExactly | src/GenericDriver.hpp:88-92 | whenever the pipeline comes to rest the producer has returned and all workers are joined, if and only if there is one worker, or nothing is pushed, or there are no workers and no wait finds more pushed than its limit; that it comes to rest is Liveness.FairRunsEnd |
| Join.PhaseJoinReturnsExactly | src/Preparer.cpp:63-81 | for the program's own phases: if and only if there is one worker or the phase has no messages |
| Join.JoinMayReturn | src/metricbench.cpp:271-273 | for any program and any number of workers from 1 on, a run that joins them all |
| Join.RestMeansIssued | src/Preparer.cpp:76-79 | with at least one worker a pipeline never rests before the producer has returned |
| Liveness.UsefulStepsBounded | src/MySQLDriver.cpp:153-178 | in any run from the start without spurious wake-ups, the steps of all threads other than polling an empty queue number at most 8 times the program plus 13 times the workers plus 2 |
| Liveness.StepPays | src/MySQLDriver.cpp:153-178 | every such step of any thread lowers a potential, which no poll raises |
| Liveness.FairRunsEnd | src/metricbench.cpp:271-273 | no run without spurious wake-ups in which every thread that can go on stepping does step is endless: the pipeline comes to rest, whatever the number of workers |
| Pareto.GetNextInRange | src/pareto.hpp:36-37 | GetNext(a, 0) with a at least 1 lies in [1, a], for any divisor of at least 1 |
| Pareto.GetNextOnto | src/pareto.hpp:36-37 | every value of [1, a] is drawn for some divisor |
| MySQLDriver.InsertData | src/MySQLDriver.cpp:153-178 | a single worker after completion processes the whole queue in order and never blocks |
| MySQLDriver.DistinctMetrics | src/MySQLDriver.cpp:284-315 | the metrics of a message are exactly as many as asked for, distinct, in range, and the first occurrences of the usable draws |
| MySQLDriver.FirstsAreDistinct | src/MySQLDriver.cpp:285-292 | first occurrences are distinct and are all the usable draws |
| MySQLDriver.NoCollision | src/MySQLDriver.cpp:518 | distinct messages at timestamps the tables do not hold insert without a duplicate key in any order; a row is there afterwards if and only if it was before or has the table, device and timestamp of a message and one of its metrics; the database grows by the number of metrics |
| MySQLDriver.InsertsExactly | src/MySQLDriver.cpp:284-320 | the same for any inserts that go through |
| MySQLDriver.FailsExactly | src/MySQLDriver.cpp:518 | inserts fail if and only if some message claims a key that is there or that an earlier message claimed |
| MySQLDriver.RowsExactly | src/MySQLDriver.cpp:302-305 | the rows of a message are its table, device and timestamp with each of its metrics, one row for each |
| MySQLDriver.InsertPicked | src/MySQLDriver.cpp:284-320 | picking the metrics of one message and inserting them adds exactly the number of rows asked for, all of that message and with metrics drawn and in range, or fails on a key already there |
| MySQLDriver.GetTimestampRange | src/MySQLDriver.cpp:42-73 | max is the newest timestamp of the tables scanned, or StartTimestamp; min is 0 if one of them is empty, else the older of their oldest timestamp and StartTimestamp |
| MySQLDriver.SingleTableExactly | src/MySQLDriver.cpp:53-58 | for a call with a table, the scan gives that table's maximum if and only if no earlier table has a newer row, and its minimum if and only if that is 0 or the earlier tables all have rows and none older |
| Campaign.CompletedMessages | src/metricbench.cpp:271-273 | a joined invocation completed distinct messages, exactly those of its phase |
| Campaign.InvocationTiles | src/Preparer.cpp:94-103 | one prepare or run on tables filled up to minute n inserts without a collision and fills them up to minute n + LoadMins |
| Campaign.CampaignTiles | src/Preparer.cpp:53-64 | a prepare and any number of joined runs never meet a duplicate key, and the timestamps of every table are exactly StartTimestamp + 60 k for k from 1 to the total of minutes |
| Campaign.CampaignRows | src/MySQLDriver.cpp:284-320 | the rows after a campaign are those its completed messages carry with the metrics chosen for them, and as many as there are metrics chosen in all |
| Campaign.CampaignExtends | src/metricbench.cpp:271-273 | any campaign can be continued by any next invocation with a worker, joined in full |
| RunningMean.RunningMean.constructor | src/RunningMean.cpp:3-7 | starts a record of one sample |
| RunningMean.RunningMean.AddSample | src/RunningMean.cpp:9-13 | appends the sample to the record |
| RunningMean.RunningMean.Mean | src/RunningMean.cpp:15-17 | the exact arithmetic mean of the record |
| RunningMean.RunningMean.Samples | src/RunningMean.cpp:19-21 | the length of the record |
| LatencyBuckets.BoundsTile | src/LatencyStats.cpp:60-84 | the 128 intervals are non-empty, contiguous and cover [0, 100s) |
| LatencyBuckets.BucketIffBound | src/LatencyStats.cpp:35-84 | a time below 100s is in interval b if and only if its bucket is b |
| LatencyBuckets.BucketMonotone | src/LatencyStats.cpp:35-53 | a longer time never gets a lower bucket, and times of 100s or more get the last one |
| LatencyBuckets.Widths | src/LatencyStats.cpp:60-84 | 128 intervals, of 100us below 1ms, 1ms to 100ms, 100ms to 1s, 1s to 10s, and one to 100s |
| LatencyBuckets.BucketCounted | src/LatencyStats.cpp:35-53 | the bucket of a latency counted from these widths |
| LatencyBuckets.HasBucketExactly | src/LatencyStats.cpp:35-53 | the times with a valid bucket, negative ones included, under division that truncates towards zero |
| LatencyReport.ShardingInvisible | src/LatencyStats.cpp:150-187 | with buckets incremented in place: two records with the same multiset of (type, latency), on whatever threads and in whatever order, have equal count, mean, maximum and cumulative buckets; the first three hold of the code as written too |
| LatencyReport.MeasuredIsLog | src/LatencyStats.cpp:89-104 | what was measured is every record's type and latency |
| LatencyReport.LatenciesOfMeasured | src/LatencyStats.cpp:150-187 | the latencies of a type, as a multiset, are those measured for it |
| LatencyReport.MeanOfEqual | src/LatencyStats.cpp:95 | the mean is in milliseconds: equal latencies of x microseconds have mean x / 1000 |
| LatencyReport.FiguresPermutation | src/LatencyStats.cpp:150-187 | each figure is a function of the multiset of latencies |
| LatencyReport.UpToIsBelow | src/LatencyStats.cpp:174-187 | a cumulative bucket counts the latencies below its upper bound |
| LatencyReport.RankBucket | src/LatencyStats.cpp:192-206 | the search finds the bucket of the r-th smallest latency, so it does find one |
| LatencyReport.RankFound | src/LatencyStats.cpp:192-206 | for every rank from 1 to the number of latencies the search finds a bucket, that of a recorded latency of this rank, which its interval holds below 100s |
| LatencyReport.PercentileRefinement | src/LatencyStats.cpp:192-206 | whatever the search finds for rank r is that bucket, and its interval holds that latency below 100s |
| LatencyReport.PercentileExactly | src/LatencyStats.cpp:192-206 | for every percentile, the bucket found is that of the latency of its rank if and only if the rank did not truncate to 0 or the smallest latency is below 100us |
| LatencyReport.ZeroRankFails | src/LatencyStats.cpp:195-203 | one latency of 150us: the median is found in bucket 0 and lies in bucket 1 |
| LatencyReport.SearchFindsExactly | src/LatencyStats.cpp:193-205 | the percentiles for which any bucket is found, all up to 100 among them |
| LatencyReport.NeededRankExactly | src/LatencyStats.cpp:193-195 | the needed rank r is the largest with 100 r at most percentile times count |
| LatencyReport.PercentileMonotone | src/LatencyStats.cpp:192-206 | a higher percentile never gets a lower bucket |
| LatencyReport.LostCountExactly | src/LatencyStats.cpp:91-93 | the cumulative count of the code as written is 0 in every bucket, and is right if and only if no latency is below that bucket's bound (for the last bucket: if there is none at all) |
| LatencyReport.LostSearch | src/LatencyStats.cpp:195-205 | over these counts the search finds a bucket if and only if the needed rank is 0 or less, then bucket 0; otherwise the bounds are -100 and 0 |
| LatencyReport.LostPercentileExactly | src/LatencyStats.cpp:192-206 | its result is the intended bucket if and only if percentile times count is below 100, so for no printed percentile from four latencies on |
| LatencyReport.LostExample | src/LatencyStats.cpp:91-93 | four latencies of 50us: bucket 0 should count four, counts none, and the median is found nowhere |
| LatencyStats.LatencyStats.constructor | src/LatencyStats.cpp:18-29 | an empty record |
| LatencyStats.LatencyStats.RecordLatency | src/LatencyStats.cpp:89-104 | as written: appends to the record and keeps running means and maxima equal to those of what each thread recorded; the buckets count nothing new |
| LatencyStats.LatencyStats.RecordLatencyInPlace | src/LatencyStats.cpp:89-104 | the corrected increment: the same, and the buckets count the latency |
| LatencyStats.LatencyStats.CalcMeans | src/LatencyStats.cpp:150-169 | per type, the count and the exact arithmetic mean of the unsharded record |
| LatencyStats.LatencyStats.CalcCumulativeBuckets | src/LatencyStats.cpp:174-187 | per type and bucket, the number of unsharded latencies up to that bucket among those that reached the buckets: all with the corrected increment, none as written |
| LatencyStats.LatencyStats.DisplayLatencyStats | src/LatencyStats.cpp:109-114 | both; the last cumulative bucket is the number of latencies that reached the buckets, which is the sample count with the corrected increment |
| LatencyStats.LatencyStats.GetBucketBounds | src/LatencyStats.cpp:192-206 | finds the first bucket whose cumulative count reaches the needed rank of the record, or none when no count does |
| LatencyStats.LatencyStats.GetMax | src/LatencyStats.cpp:241-248 | the largest latency of the unsharded record, in milliseconds |
| LatencyStats.ReportAsWritten | src/LatencyStats.cpp:89-136 | the program as written, for every record, type and percentile: exact count, mean and maximum; bucket 0 for a rank of 0 or less, otherwise bucket -1 with bounds -100 and 0 |
| LatencyStats.ReportAsIntended | src/LatencyStats.cpp:89-136 | with the corrected increment: the same totals, and the first bucket whose count reaches the rank, or -1 for a rank beyond the record |
| Reservoir.ReplacementRule | src/SampledStats.cpp:73-84 | with a full buffer a draw below maxsamples / opIndex replaces a slot; each slot is named by exactly one residue of the second draw |
| Reservoir.ChanceInRange | src/SampledStats.cpp:78 | that threshold is a probability, and 1 for the first replacement only |
| Reservoir.InclusionIsAverage | src/SampledStats.cpp:78-84 | the probability of inclusion is the average of the rule's outcomes: the threshold weighs the draws that replace, and the residues of the second draw weigh equally |
| Reservoir.InclusionProbability | src/SampledStats.cpp:69-85 | after n arrivals into m slots, displays in between: probability 1 while n is at most m; then (m-1)/(n-1) for the first m arrivals and m/(n-1) for the others |
| Reservoir.EqualChancesExactly | src/SampledStats.cpp:76-85 | the promised equal chance holds if and only if nothing had to be replaced |
| Reservoir.ExpectedSizeIsM | src/SampledStats.cpp:69-85 | the probabilities sum to the number of slots |
| Reservoir.Present | src/SampledStats.cpp:75-84 | an arrival in the buffer before arrival i is still there after n with probability (i-1)/(n-1) |
| Reservoir.Future | src/SampledStats.cpp:75-84 | an arrival still to come is included with probability m/(n-1) |
| Reservoir.Gone | src/SampledStats.cpp:75-84 | a replaced arrival never comes back |
| SampledStats.MinimumIsLeast | src/SampledStats.cpp:61-63 | the kept minimum is always a measured time, and the least one if and only if no zero was measured or the last time is zero |
| SampledStats.ZeroForgets | src/SampledStats.cpp:61-63 | after a zero the kept minimum is that of the times after it |
| SampledStats.MinimumFails | src/SampledStats.cpp:61-63 | after the times 0 and 5 the kept minimum is 5 |
| SampledStats.TypesInRangeExactly | src/MySQLDriver.cpp:19 | the types a run displays are in range if and only if there are 6, those it times if and only if there are 7; with the 4 declared neither are |
| OrderStatistics.MaxIsBound | src/SampledStats.cpp:65-67 | the kept maximum bounds all times and is 0 or one of them |
| SampledStats.AddKeepsSample | src/SampledStats.cpp:69-85 | one arrival keeps the sample a sub-multiset of the arrivals, of the right size, complete until the buffer overflows |
| SampledStats.AddExactly | src/SampledStats.cpp:69-85 | from the draws alone: below capacity the time is appended; with a full buffer it replaces the slot the second draw names if and only if the first draw times the arrivals so far is below maxsamples; every other slot stays |
| SampledStats.AddIsPlaced | src/SampledStats.cpp:69-85 | the slots of arrival numbers of the random experiment, read as times, are the slots of the sample, arrival by arrival for the same draws |
| SampledStats.DisplayIsShown | src/SampledStats.cpp:127 | and a display permutes both alike |
| SampledStats.AlwaysASample | src/SampledStats.cpp:69-90 | the same after any sequence of arrivals, resets and sorting displays |
| SampledStats.SlotsHoldArrivals | src/SampledStats.cpp:69-85 | as an injective map from slots to arrivals |
| SampledStats.SampledStats.constructor | src/SampledStats.cpp:31-35 | no samples, no operations, no errors |
| SampledStats.SampledStats.AddStats | src/SampledStats.cpp:55-86 | the arrival is recorded, the counters and extremes follow it, and the live slots change as SampledStats.AddExactly says |
| SampledStats.SampledStats.ResetSamples | src/SampledStats.cpp:88-90 | the sample is empty again, the totals stay |
| SampledStats.SampledStats.DisplayStats | src/SampledStats.cpp:100-155 | reports the order statistics of the range before the sort, permutes it, leaves the other slots and types alone; the printed mean is the arithmetic mean if and only if start is 0 or slot 0 held the least time of the range |
| SampledStats.SampledStats.DisplayAll | src/SampledStats.cpp:165-170 | per requested type a line with its totals and the order statistics and exact arithmetic mean of its live sample, or blanks for an empty one; every sample kept as a multiset |
| SampledStats.IndicesInOrder | src/SampledStats.cpp:134-141 | the index formulas are in bounds and ordered |
| SampledStats.FiguresInOrder | src/SampledStats.cpp:134-141 | min <= p25 <= p50 <= p75 <= p90 <= p95 <= p99 <= max, both extremes in the sample |
| SampledStats.FiguresAreQuantiles | src/SampledStats.cpp:134-141 | apart from the indices: at most a quarter, half, quarter, tenth, twentieth, hundredth of the sample lies beyond the respective figure, and more than that lies beyond or at it; none lies below min or above max |
| SampledStats.SortedFigures | src/SampledStats.cpp:127-142 | the values read off the sorted slots are the order statistics of the sample before the sort |
| SampledStats.MeanExactly | src/SampledStats.cpp:129-142 | the mean started from slot 0 is the exact arithmetic mean if and only if slot 0 holds the least time of the range |
| SampledStats.MeanFails | src/SampledStats.cpp:129-131 | slots 1 and 2 of the buffer 1, 5, 7 have the mean 6, and 4 is reported |
| Stats.Conservation | src/Stats.cpp:23-111 | over every interleaving: intervals taken plus the live tally are everything consumed, times in order; the printed total is the inserts of the intervals taken |
| Stats.ConsumeOne | src/Stats.cpp:107-110 | an update adds the message's count and time to its own type and to no other |
| Stats.TimedAlways | src/Stats.cpp:103-111 | a positive count implies a non-empty vector of times |
| Stats.NthIndexInRange | src/Stats.cpp:7 | the index is within the vector for every percentage from 0 to below 100 |
| Stats.Percentile | src/Stats.cpp:5-10 | returns the element of that rank and permutes the vector |
| Stats.PercentileMeans | src/Stats.cpp:5-10 | at most the given percentage of the times is below the value, and more than that is not above it |
| Stats.PrintedPercentile | src/Stats.cpp:32 | the value printed as "99%" is the 99th percentile if and only if more times than that percentile's index do not exceed it; for up to 101 times it is the least |
| Stats.LabelRightExactly | src/Stats.cpp:32 | the label is right for every interval of n times if and only if n is 1 |
| Stats.LabelRightByChance | src/Stats.cpp:32 | for two equal times it is right by chance |
| Stats.PrintedIndex | src/Stats.cpp:7 | the index for 0.99 is that for 99 only for a single time, and 0 for up to 101 |
| Stats.MaxElement | src/Stats.cpp:33-35 | the element of the highest rank |
| Stats.Stats.OnMessage | src/Stats.cpp:107-111 | one update step of the history |
| Stats.Stats.DescribeAll | src/Stats.cpp:26-83 | the first line is for inserts, whatever their count; the others are for exactly the types DeleteDevice to Select_K3 with a positive count, one each, in that order; each line has its type's count, maximum and percentile |
| Stats.Stats.TakeSnapshot | src/Stats.cpp:23-87 | reports the interval by these lines, adds its inserts to the total, clears the tally |
| OrderStatistics.RankUnique | src/Stats.cpp:8 | there is at most one element of each rank |
| OrderStatistics.RankExists | src/Stats.cpp:8 | there is an element of each rank below the length |
| OrderStatistics.LeastRank | src/SampledStats.cpp:134 | the element of rank 0 is the least one |
| OrderStatistics.SortedRank | src/SampledStats.cpp:127 | sorting puts the element of rank k at index k |
| OrderStatistics.RankPermutation | src/SampledStats.cpp:127 | ranks do not depend on order |
| OrderStatistics.Sort | src/SampledStats.cpp:127 | sorts a range of the buffer in place: sorted, a permutation, nothing else changed |
| OrderStatistics.NthElement | src/Stats.cpp:8 | a permutation with the element of rank nth at index nth, nothing larger before and nothing smaller behind it |
| Uri.ParseProtocol | src/Uri.cpp:19-36 | the protocol and where the host starts |
| Uri.ParseAuthority | src/Uri.cpp:38-54 | the host and the port |
| Uri.Parse | src/Uri.cpp:6-66 | returns the components of a well-ordered string, and runs into an inverted range on exactly the others |
| Uri.ParsePrint | src/Uri.cpp:17-62 | parsing a printed URL returns its components, for every grammatical choice of them |
| Uri.GrammarExactly | src/Uri.cpp:17-62 | and for no other choice |
| Uri.PrintParse | src/Uri.cpp:17-62 | printing what was parsed returns the string, with grammatical components, if and only if no delimiter before an empty part was dropped |
| Uri.InvertedExamples | src/Uri.cpp:44-58 | a question mark before the path, and one before the host, lead to an inverted range |
| Uri.DroppedExample | src/Uri.cpp:48-54 | "h:" is parsed and prints as "h" |

## Left out

- The database client: connections, SQL text, schema creation, server exceptions. A database is its set of primary keys; a duplicate key is an insert that yields nothing.
- MongoDBDriver and CassandraDriver: their workers loop forever, and Cassandra's timestamp range is a constant.
- SelectData, SelectQuery, getDeviceRange and the delete path: they do not take part in the pipeline; the delete producer is commented out.
- `tsqueue::try_pop`: unused, does not notify `empty_cond`, and one of the two overloads does not compile. `size` and the copying constructor are left out as well.
- Option parsing, logging, the progress reporter, CSV and console formatting, clocks: input and output only.
- Randomness: random values are parameters. The Pareto distribution itself and the probable termination of the metric loop are not modelled; `MySQLDriver.DistinctMetrics` demands draws with enough distinct usable values.
- Memory model: `processingComplete` is a plain bool in the source; its reads and writes are taken to be atomic.
- More than one thread waiting on `empty_cond`: the program has one producer, and the model one such waiter.
- Spurious wake-ups in termination: `Join.DrainTerminates` and the results of `Liveness.dfy` exclude them, as they alone could repeat forever; every safety result includes them.
- Rounding and overflow: doubles are reals and counters unbounded; the truncation of a timestamp to the 32 bits of `Message::ts` is modelled, and results that need it absent demand that the last minute fits.
- Unfair schedules: a worker may poll an empty queue forever while the other threads are never scheduled; `Liveness.FairRunsEnd` is about fair runs.
- MySQLDriver.InsertData: states the loop only for a single worker after completion; beside other threads and before the flag is set the loop is that of `Protocol.WorkerStep`, over all interleavings, in `Protocol.InvReached` and `Join.QuiescentMeansDone`.
- MySQLDriver.GetTimestampRange: takes the per-table query results as a sequence; that the query is right about the rows is its precondition.
- LatencyStats.LatencyStats.RecordLatency: like its corrected twin, demands a latency that is not negative and indices in range, which the source relies on without testing; `LatencyBuckets.HasBucketExactly` says which negative times have a bucket.
- SampledStats.SampledStats.constructor: has the number of types as a parameter, and with it the demands of the other members of the class on types; see `SampledStats.TypesInRangeExactly`.
- LatencyStats.LatencyStats.constructor: has the number of operation types as a parameter, where the source uses `sizeof(MessageType)`, and that number as the width of `means`.
- SampledStats.SampledStats.DisplayStats: demands an end within the live slots, as its callers pass; the scalar arrays of the class are sequences, the sample rows are arrays sorted in place.
- SampledStats.MinimumIsLeast: is about times that are not negative, as durations are.
- OrderStatistics.Sort: is a selection sort with the contract of `std::sort`; `OrderStatistics.NthElement` sorts, within the contract of `std::nth_element`.
- Stats.Stats.DescribeAll: copies the times before reordering them; the source reorders the map's vector, which it clears in the same critical section. Times and maxima do not exceed 32 bits.
