/**
 The interval statistics of src/Stats.cpp: a consumer adds up finished statements under a lock, a
 printer takes a snapshot of the totals and clears them.
 */
module Stats {
  import opened Messages
  import opened OrderStatistics

  /** What the lock protects; an absent key reads as zero and as an empty vector. */
  datatype Tally = Tally(counts: map<MessageType, nat>, times: map<MessageType, seq<nat>>)

  const EMPTY := Tally(map[], map[])

  function Count(t: Tally, op: MessageType): nat {
    if op in t.counts then t.counts[op] else 0
  }

  function Times(t: Tally, op: MessageType): seq<nat> {
    if op in t.times then t.times[op] else []
  }

  /** The consumer's critical section. */
  function Consume(t: Tally, sm: StatMessage): Tally {
    Tally(t.counts[sm.op := Count(t, sm.op) + sm.cnt], t.times[sm.op := Times(t, sm.op) + [sm.time]])
  }

  // ---------------------------------------------------------------- any interleaving

  datatype Step = Update(sm: StatMessage) | Snapshot

  /** Intervals taken so far, oldest first; the live tally; and the printer's running total. */
  datatype History = History(taken: seq<Tally>, live: Tally, totalInserted: nat)

  function Apply(h: History, s: Step): History {
    match s
    case Update(sm) => h.(live := Consume(h.live, sm))
    case Snapshot => History(h.taken + [h.live], EMPTY, h.totalInserted + Count(h.live, InsertMetric))
  }

  function Run(steps: seq<Step>): History {
    if steps == [] then History([], EMPTY, 0)
    else Apply(Run(steps[..|steps| - 1]), steps[|steps| - 1])
  }

  /** Everything consumed, without regard to intervals. */
  function ConsumedCount(steps: seq<Step>, op: MessageType): nat {
    if steps == [] then 0 else
    var s := steps[|steps| - 1];
    ConsumedCount(steps[..|steps| - 1], op) + if s.Update? && s.sm.op == op then s.sm.cnt else 0
  }

  function ConsumedTimes(steps: seq<Step>, op: MessageType): seq<nat> {
    if steps == [] then [] else
    var s := steps[|steps| - 1];
    ConsumedTimes(steps[..|steps| - 1], op) + if s.Update? && s.sm.op == op then [s.sm.time] else []
  }

  function TakenCount(taken: seq<Tally>, op: MessageType): nat {
    if taken == [] then 0 else TakenCount(taken[..|taken| - 1], op) + Count(taken[|taken| - 1], op)
  }

  function TakenTimes(taken: seq<Tally>, op: MessageType): seq<nat> {
    if taken == [] then [] else TakenTimes(taken[..|taken| - 1], op) + Times(taken[|taken| - 1], op)
  }

  /** A count was accompanied by a time. */
  ghost predicate Timed(t: Tally) {
    forall op :: Count(t, op) > 0 ==> Times(t, op) != []
  }

  lemma TimedConsume(t: Tally, sm: StatMessage)
    requires Timed(t)
    ensures Timed(Consume(t, sm))
  {
    forall op | Count(Consume(t, sm), op) > 0 ensures Times(Consume(t, sm), op) != [] {
      ConsumeOne(t, sm, op);
    }
  }

  lemma ConsumeOne(t: Tally, sm: StatMessage, op: MessageType)
    ensures Count(Consume(t, sm), op) == Count(t, op) + if op == sm.op then sm.cnt else 0
    ensures Times(Consume(t, sm), op) == Times(t, op) + if op == sm.op then [sm.time] else []
  {
  }

  lemma {:induction false} TimedAlways(steps: seq<Step>)
    ensures Timed(Run(steps).live)
  {
    if steps != [] {
      TimedAlways(steps[..|steps| - 1]);
      var s := steps[|steps| - 1];
      if s.Update? {
        TimedConsume(Run(steps[..|steps| - 1]).live, s.sm);
      }
    }
  }

  lemma Regroup(a: seq<nat>, b: seq<nat>, c: seq<nat>)
    ensures a + (b + c) == (a + b) + c
  {
  }

  lemma SnapshotTaken(h: History, op: MessageType)
    ensures var h1 := Apply(h, Snapshot);
      && TakenCount(h1.taken, op) + Count(h1.live, op) == TakenCount(h.taken, op) + Count(h.live, op)
      && TakenTimes(h1.taken, op) + Times(h1.live, op) == TakenTimes(h.taken, op) + Times(h.live, op)
      && TakenCount(h1.taken, InsertMetric) == TakenCount(h.taken, InsertMetric) + Count(h.live, InsertMetric)
  {
    assert (h.taken + [h.live])[..|h.taken|] == h.taken;
    var times := TakenTimes(h.taken, op) + Times(h.live, op);
    assert times + [] == times;
  }

  /** Conservation: at any moment the intervals taken and the live tally together hold everything
      consumed so far, the times in order of consumption, and the printed total is the number of
      inserts in the intervals taken. */
  lemma {:induction false} Conservation(steps: seq<Step>, op: MessageType)
    ensures var h := Run(steps);
      && TakenCount(h.taken, op) + Count(h.live, op) == ConsumedCount(steps, op)
      && TakenTimes(h.taken, op) + Times(h.live, op) == ConsumedTimes(steps, op)
      && h.totalInserted == TakenCount(h.taken, InsertMetric)
  {
    if steps != [] {
      var before := Run(steps[..|steps| - 1]);
      Conservation(steps[..|steps| - 1], op);
      match steps[|steps| - 1]
      case Update(sm) =>
        ConsumeOne(before.live, sm, op);
        Regroup(TakenTimes(before.taken, op), Times(before.live, op), if op == sm.op then [sm.time] else []);
      case Snapshot =>
        SnapshotTaken(before, op);
    }
  }

  // ---------------------------------------------------------------- percentile

  /** The index the source computes from a percentage and a size. */
  function NthIndex(percent: real, n: nat): int {
    (percent * n as real / 100.0).Floor
  }

  lemma NthIndexInRange(percent: real, n: nat)
    requires 0.0 <= percent < 100.0 && n > 0
    ensures 0 <= NthIndex(percent, n) < n
  {
    assert percent * n as real < 100.0 * n as real;
    assert 0.0 <= percent * n as real;
  }

  /** The percentile in terms of counts: at most the given percentage of the values are below it, and
      more than that are not above it. */
  lemma PercentileMeans(s: seq<int>, percent: real, x: int)
    requires s != [] && 0.0 <= percent < 100.0
    ensures 0 <= NthIndex(percent, |s|)
    ensures IsRank(s, NthIndex(percent, |s|), x) <==>
      CountBelow(s, x) as real * 100.0 <= percent * |s| as real < CountBelow(s, x + 1) as real * 100.0
  {
    NthIndexInRange(percent, |s|);
    FloorBetween(percent * |s| as real / 100.0, CountBelow(s, x), CountBelow(s, x + 1));
  }

  lemma FloorBetween(y: real, a: nat, b: nat)
    ensures a <= y.Floor < b <==> a as real <= y < b as real
  {
  }

  method Percentile(vectorIn: array<int>, percent: real) returns (value: int)
    requires vectorIn.Length > 0 && 0.0 <= percent < 100.0
    modifies vectorIn
    ensures multiset(vectorIn[..]) == old(multiset(vectorIn[..]))
    ensures 0 <= NthIndex(percent, vectorIn.Length) < vectorIn.Length
    ensures IsRank(old(vectorIn[..]), NthIndex(percent, vectorIn.Length), value)
  {
    NthIndexInRange(percent, vectorIn.Length);
    var nth := NthIndex(percent, vectorIn.Length);
    NthElement(vectorIn, nth);
    value := vectorIn[nth];
  }

  /** The printer passes 0.99 where a percentage is expected, and so takes an index that differs for
      more than one time, and is 0 for up to 101 times. */
  lemma PrintedIndex(n: nat)
    requires n > 0
    ensures NthIndex(0.99, n) <= NthIndex(99.0, n)
    ensures NthIndex(0.99, n) == NthIndex(99.0, n) <==> n == 1
    ensures NthIndex(0.99, n) == 0 <==> n <= 101
  {
    var x := n as real;
    assert 0.99 * x / 100.0 == 0.0099 * x;
    assert 99.0 * x / 100.0 == 0.99 * x;
    if n >= 3 {
      assert 0.99 * x - 0.0099 * x >= 1.0;
    }
  }

  /** What is printed as "99%" is the 99th percentile exactly when more times than that percentile's
      index do not exceed it. */
  lemma PrintedPercentile(s: seq<int>, x: int)
    requires s != [] && IsRank(s, NthIndex(0.99, |s|), x)
    ensures IsRank(s, NthIndex(99.0, |s|), x) <==> CountBelow(s, x + 1) > NthIndex(99.0, |s|)
    ensures |s| <= 101 ==> IsLeast(s, x)
  {
    PrintedIndex(|s|);
    if |s| <= 101 {
      LeastRank(s, x);
    }
  }

  /** The label is right for every interval of n times. */
  ghost predicate LabelRight(n: nat)
    requires n > 0
  {
    forall s: seq<int>, x: int ::
      |s| == n && IsRank(s, NthIndex(0.99, n), x) ==> IsRank(s, NthIndex(99.0, n), x)
  }

  lemma LabelRightExactly(n: nat)
    requires n > 0
    ensures LabelRight(n) <==> n == 1
  {
    PrintedIndex(n);
    if n > 1 {
      var s: seq<int> := seq(n, i => i);
      var j, k := NthIndex(0.99, n), NthIndex(99.0, n);
      NthIndexInRange(0.99, n);
      NthIndexInRange(99.0, n);
      SortedRank(s, j);
      SortedRank(s, k);
      if IsRank(s, k, s[j]) {
        RankUnique(s, k, s[j], s[k]);
      }
    }
  }

  /** With two equal times the label happens to be right. */
  lemma LabelRightByChance()
    ensures IsRank([5, 5], NthIndex(0.99, 2), 5) && IsRank([5, 5], NthIndex(99.0, 2), 5)
  {
    SortedRank([5, 5], NthIndex(0.99, 2));
    SortedRank([5, 5], NthIndex(99.0, 2));
  }

  // ---------------------------------------------------------------- the class

  datatype Line = Line(op: MessageType, cnt: nat, biggest: int, pct99: int)

  /** What a printed line claims about an interval. */
  ghost predicate Describes(line: Line, t: Tally) {
    var s: seq<int> := Times(t, line.op);
    && line.cnt == Count(t, line.op)
    && if line.cnt == 0 then line.biggest == 0 == line.pct99
       else s != [] && IsRank(s, |s| - 1, line.biggest) && IsRank(s, NthIndex(0.99, |s|), line.pct99)
  }

  class Stats {
    var tally: Tally
    var totalInserted: nat
    ghost var steps: seq<Step>

    ghost predicate Valid()
      reads this
    {
      && Run(steps).live == tally && Run(steps).totalInserted == totalInserted
      && Timed(tally)
    }

    constructor ()
      ensures Valid() && steps == []
    {
      tally, totalInserted, steps := EMPTY, 0, [];
    }

    method OnMessage(sm: StatMessage)
      requires Valid()
      modifies this
      ensures Valid() && steps == old(steps) + [Update(sm)]
    {
      tally := Consume(tally, sm);
      steps := steps + [Update(sm)];
      assert steps[..|steps| - 1] == old(steps);
      TimedAlways(steps);
    }

    method Describe(op: MessageType) returns (line: Line)
      requires Timed(tally)
      ensures line.op == op && Describes(line, tally)
    {
      var cnt := Count(tally, op);
      if cnt == 0 {
        return Line(op, 0, 0, 0);
      }
      var times := Times(tally, op);
      var v := new int[|times|](i requires 0 <= i < |times| => times[i]);
      assert v[..] == times;
      var pct99 := Percentile(v, 0.99);
      var biggest := MaxElement(times);
      line := Line(op, cnt, biggest, pct99);
    }

    /** The lines of one snapshot: inserts always, the other types when there were any. */
    method DescribeAll() returns (lines: seq<Line>)
      requires Timed(tally)
      ensures Printed(lines, tally)
      ensures forall i :: 0 <= i < |lines| ==> Describes(lines[i], tally)
    {
      var first := Describe(InsertMetric);
      lines := [first];
      for k := 0 to |REPORTED|
        invariant Timed(tally)
        invariant LineOps(lines) == [InsertMetric] + Active(tally, k)
        invariant forall i :: 0 <= i < |lines| ==> Describes(lines[i], tally)
      {
        if Count(tally, REPORTED[k]) > 0 {
          var line := Describe(REPORTED[k]);
          assert LineOps(lines + [line]) == LineOps(lines) + [line.op];
          lines := lines + [line];
        }
      }
      LinesPrinted(lines, tally);
    }

    /** The printer's critical section. */
    method TakeSnapshot() returns (lines: seq<Line>)
      requires Valid()
      modifies this
      ensures Valid() && steps == old(steps) + [Snapshot]
      ensures Printed(lines, old(tally))
      ensures forall i :: 0 <= i < |lines| ==> Describes(lines[i], old(tally))
      ensures totalInserted == old(totalInserted) + Count(old(tally), InsertMetric)
    {
      lines := DescribeAll();
      totalInserted := totalInserted + Count(tally, InsertMetric);
      tally := EMPTY;
      ghost var before := steps;
      steps := steps + [Snapshot];
      assert steps[..|steps| - 1] == before;
    }
  }

  function LineOps(lines: seq<Line>): seq<MessageType> {
    seq(|lines|, i requires 0 <= i < |lines| => lines[i].op)
  }

  /** The first k optional types that have something to report. */
  function Active(t: Tally, k: nat): seq<MessageType>
    requires k <= |REPORTED|
  {
    if k == 0 then [] else
    Active(t, k - 1) + if Count(t, REPORTED[k - 1]) > 0 then [REPORTED[k - 1]] else []
  }

  /** A line is printed for inserts first, and then for exactly the other statement types that were
      counted, once each, in the order of their numbers. */
  ghost predicate Printed(lines: seq<Line>, t: Tally) {
    && lines != [] && lines[0].op == InsertMetric
    && (forall i, j :: 1 <= i < j < |lines| ==> Number(lines[i].op) < Number(lines[j].op))
    && (forall i :: 1 <= i < |lines| ==> Optional(lines[i].op) && Count(t, lines[i].op) > 0)
    && (forall op :: Optional(op) && Count(t, op) > 0 ==> HasLine(lines, op))
  }

  predicate Optional(op: MessageType) {
    op != InsertMetric && op != Insert && op != Delete
  }

  ghost predicate HasLine(lines: seq<Line>, op: MessageType) {
    exists i :: 1 <= i < |lines| && lines[i].op == op
  }

  lemma ReportedIsOptional(op: MessageType)
    ensures op in REPORTED <==> Optional(op)
    ensures forall i, j :: 0 <= i < j < |REPORTED| ==> Number(REPORTED[i]) < Number(REPORTED[j])
  {
    assert REPORTED[0] == DeleteDevice && REPORTED[1] == Select_K1;
    assert REPORTED[2] == Select_K2 && REPORTED[3] == Select_K3;
  }

  lemma {:induction false} ActiveExactly(t: Tally, k: nat)
    requires k <= |REPORTED|
    ensures forall op :: op in Active(t, k) <==> op in REPORTED[..k] && Count(t, op) > 0
    ensures forall i, j :: 0 <= i < j < |Active(t, k)| ==> Number(Active(t, k)[i]) < Number(Active(t, k)[j])
  {
    if k > 0 {
      ActiveExactly(t, k - 1);
      ReportedIsOptional(REPORTED[k - 1]);
      assert REPORTED[..k] == REPORTED[..k - 1] + [REPORTED[k - 1]];
      forall op | op in Active(t, k - 1) ensures Number(op) < Number(REPORTED[k - 1]) {
        var i :| 0 <= i < k - 1 && REPORTED[..k - 1][i] == op;
      }
    }
  }

  lemma LinesPrinted(lines: seq<Line>, t: Tally)
    requires LineOps(lines) == [InsertMetric] + Active(t, |REPORTED|)
    ensures Printed(lines, t)
  {
    var active := Active(t, |REPORTED|);
    ActiveExactly(t, |REPORTED|);
    assert REPORTED[..|REPORTED|] == REPORTED;
    assert |lines| == |LineOps(lines)| == 1 + |active|;
    assert LineOps(lines)[0] == InsertMetric;
    forall i | 1 <= i < |lines| ensures lines[i].op == active[i - 1] {
      assert LineOps(lines)[i] == active[i - 1];
    }
    forall i | 1 <= i < |lines| ensures Optional(lines[i].op) && Count(t, lines[i].op) > 0 {
      assert active[i - 1] in active;
      ReportedIsOptional(lines[i].op);
    }
    forall op | Optional(op) && Count(t, op) > 0 ensures HasLine(lines, op) {
      ReportedIsOptional(op);
      var i :| 0 <= i < |active| && active[i] == op;
      assert lines[i + 1].op == op;
    }
  }

  const REPORTED := [DeleteDevice, Select_K1, Select_K2, Select_K3]

  /** `std::max_element`. */
  method MaxElement(s: seq<int>) returns (max: int)
    requires s != []
    ensures IsRank(s, |s| - 1, max)
  {
    max := s[0];
    for i := 1 to |s|
      invariant max in s && forall j :: 0 <= j < i ==> s[j] <= max
    {
      if s[i] > max {
        max := s[i];
      }
    }
    CountBounds(s, max + 1);
    var j :| 0 <= j < |s| && s[j] == max;
    FewerBelow(s, j);
  }

  lemma FewerBelow(s: seq<int>, j: nat)
    requires j < |s|
    ensures CountBelow(s, s[j]) <= |s| - 1
  {
    assert s == s[..j] + [s[j]] + s[j + 1..];
    CountConcat(s[..j] + [s[j]], s[j + 1..], s[j]);
    CountConcat(s[..j], [s[j]], s[j]);
    CountMonotone(s[..j], s[j], s[j]);
    CountMonotone(s[j + 1..], s[j], s[j]);
  }
}
