/**
 src/SampledStats.cpp: a bounded sample of the times of each operation type, sorted in place
 whenever its statistics are displayed.
 */
module SampledStats {
  import opened Messages
  import opened OrderStatistics
  import opened Reservoir
  import R = RunningMean

  /** One line of the CSV output, without the thread, time and label columns; the statistics of an
      empty sample are left blank. */
  datatype CsvLine = CsvLine(numops: nat, errors: nat, opsSinceReset: nat, sample: Option<Figures>)

  datatype Figures = Figures(elems: nat, mean: real, min: int, p25: int, p50: int, p75: int,
                             p90: int, p95: int, p99: int, max: int)

  function Min(a: nat, b: nat): nat {
    if a < b then a else b
  }

  // ---------------------------------------------------------------- minimum and maximum

  /** Zero doubles as "unset". */
  function NextMinimum(min: int, t: int): int {
    if min == 0 || min > t then t else min
  }

  function Minimum(times: seq<int>): int {
    if times == [] then 0 else NextMinimum(Minimum(times[..|times| - 1]), times[|times| - 1])
  }

  lemma {:induction false} MinimumIsLeast(times: seq<int>)
    requires times != [] && (forall i :: 0 <= i < |times| ==> times[i] >= 0)
    ensures Minimum(times) in times
    ensures IsLeast(times, Minimum(times)) <==> 0 !in times || times[|times| - 1] == 0
    ensures 0 !in times ==> Minimum(times) > 0
  {
    var k := |times| - 1;
    assert times == times[..k] + [times[k]];
    if k > 0 {
      MinimumIsLeast(times[..k]);
      if 0 in times && times[k] != 0 {
        var i :| 0 <= i < |times| && times[i] == 0;
        assert times[..k][i] == 0;
      }
    }
  }

  /** A zero makes the minimum forget everything before it. */
  lemma {:induction false} ZeroForgets(a: seq<int>, b: seq<int>)
    requires forall i :: 0 <= i < |a| ==> a[i] >= 0
    ensures Minimum(a + [0] + b) == Minimum(b)
  {
    if b == [] {
      assert (a + [0] + b)[..|a|] == a;
      MinimumNotNegative(a);
    } else {
      assert (a + [0] + b)[..|a + [0] + b| - 1] == a + [0] + b[..|b| - 1];
      ZeroForgets(a, b[..|b| - 1]);
    }
  }

  lemma {:induction false} MinimumNotNegative(a: seq<int>)
    requires forall i :: 0 <= i < |a| ==> a[i] >= 0
    ensures Minimum(a) >= 0
  {
    if a != [] {
      MinimumNotNegative(a[..|a| - 1]);
    }
  }

  /** Times are recorded in whole milliseconds, so a zero is routine: after 0 and 5 the minimum is 5. */
  lemma MinimumFails()
    ensures Minimum([0, 5]) == 5 && !IsLeast([0, 5], 5)
  {
    assert [0, 5][..1] == [0] && [0][..0] == [];
    assert [0, 5][0] == 0;
  }

  // ---------------------------------------------------------------- the types

  /** The types a run displays, of which `addStats` is given times, and the number of types the arrays
      hold: the size in bytes of the enumeration, 4 on common platforms. */
  const RUN_STATS := [InsertMetric, DeleteDevice, Select_K1, Select_K2]

  const SIZE_OF_MESSAGE_TYPE: nat := 4

  predicate IsTimed(op: MessageType) {
    op in [InsertMetric, DeleteDevice, Select_K1, Select_K2, Select_K3]
  }

  ghost predicate Displayable(kinds: nat) {
    forall i :: 0 <= i < |RUN_STATS| ==> Number(RUN_STATS[i]) < kinds
  }

  ghost predicate Recordable(kinds: nat) {
    forall op :: IsTimed(op) ==> Number(op) < kinds
  }

  /** The calls of a run keep to the arrays exactly with 6 types, and 7 when Select_K3 is timed: with the
      arrays as declared a run with streaming statistics indexes past them. */
  lemma TypesInRangeExactly(kinds: nat)
    ensures Displayable(kinds) <==> kinds >= 6
    ensures Recordable(kinds) <==> kinds >= 7
    ensures !Displayable(SIZE_OF_MESSAGE_TYPE) && !Recordable(SIZE_OF_MESSAGE_TYPE)
  {
    assert Number(RUN_STATS[3]) == 5 && RUN_STATS[2] == Select_K1 && RUN_STATS[1] == DeleteDevice;
    assert IsTimed(Select_K3) && Number(Select_K3) == 6;
    forall op | IsTimed(op) ensures Number(op) <= 6 {
    }
  }

  // ---------------------------------------------------------------- the sample

  /** What one arrival does to the live slots. */
  function Add(live: seq<int>, m: nat, ops: nat, t: int, u: real, draw: nat): seq<int>
    requires |live| == Min(m, ops)
  {
    match Slot(m, ops, u, draw)
    case None => live
    case Some(slot) => if slot == |live| then live + [t] else live[slot := t]
  }

  /** The rule by the draws alone. Below capacity the time is appended. With a full buffer it is stored,
      in the slot the second draw names, exactly when the first draw times the number of arrivals so far
      is below maxsamples; nothing else moves. */
  lemma AddExactly(live: seq<int>, m: nat, ops: nat, t: int, u: real, draw: nat)
    requires |live| == Min(m, ops)
    ensures var after := Add(live, m, ops, t, u, draw);
      if ops < m then after == live + [t]
      else if m > 0 && u * ops as real < m as real then
        |after| == |live| && after[draw % m] == t && forall k :: 0 <= k < m && k != draw % m ==> after[k] == live[k]
      else after == live
  {
    if 0 < m <= ops {
      BelowChance(m, ops, u);
      Residue(draw, m);
    }
  }

  lemma BelowChance(m: nat, i: nat, u: real)
    requires i > 0
    ensures u < ReplaceChance(m, i) <==> u * i as real < m as real
  {
    var p, ii := ReplaceChance(m, i), i as real;
    assert p * ii == m as real;
    if u < p {
      assert (p - u) * ii > 0.0;
    } else {
      assert (u - p) * ii >= 0.0;
    }
  }

  /** The times of numbered arrivals. */
  function TimesOf(numbers: seq<nat>, times: seq<int>): seq<int>
    requires Below(numbers, |times|)
  {
    seq(|numbers|, k requires 0 <= k < |numbers| => times[numbers[k]])
  }

  /** The random experiment of Reservoir.dfy is this sample: the slots of arrival numbers it goes through,
      read as times, are the slots here, for the same draws. */
  lemma AddIsPlaced(numbers: seq<nat>, m: nat, times: seq<int>, i: nat, u: real, draw: nat)
    requires i < |times| && |numbers| == Min(m, i) && Below(numbers, i)
    ensures var next := if i < m then numbers + [i] else Placed(numbers, Slot(m, i, u, draw), i);
      && Below(next, i + 1)
      && TimesOf(next, times) == Add(TimesOf(numbers, times), m, i, times[i], u, draw)
  {
  }

  /** A display permutes the slots of arrival numbers along with the times. */
  lemma DisplayIsShown(numbers: seq<nat>, times: seq<int>, shown: seq<nat>)
    requires multiset(numbers) == multiset(shown) && Below(numbers, |times|)
    ensures Below(shown, |times|)
    ensures multiset(TimesOf(shown, times)) == multiset(TimesOf(numbers, times))
  {
    forall k | 0 <= k < |shown| ensures shown[k] < |times| {
      assert shown[k] in multiset(numbers);
    }
    TimesPermuted(numbers, shown, times);
  }

  ghost predicate Below(numbers: seq<nat>, n: nat) {
    forall k :: 0 <= k < |numbers| ==> numbers[k] < n
  }

  lemma TimesConcat(a: seq<nat>, b: seq<nat>, times: seq<int>)
    requires Below(a, |times|) && Below(b, |times|)
    ensures Below(a + b, |times|) && TimesOf(a + b, times) == TimesOf(a, times) + TimesOf(b, times)
  {
  }

  lemma TimesAround(a: seq<nat>, x: nat, b: seq<nat>, times: seq<int>)
    requires Below(a + [x] + b, |times|)
    ensures Below(a + b, |times|) && x < |times|
    ensures multiset(TimesOf(a + [x] + b, times)) == multiset(TimesOf(a + b, times)) + multiset{times[x]}
  {
    var all := a + [x] + b;
    forall k | 0 <= k < |a| ensures a[k] < |times| {
      assert all[k] == a[k];
    }
    forall k | 0 <= k < |b| ensures b[k] < |times| {
      assert all[|a| + 1 + k] == b[k];
    }
    assert all[|a|] == x;
    TimesConcat(a, b, times);
    TimesConcat(a, [x], times);
    TimesConcat(a + [x], b, times);
    assert TimesOf([x], times) == [times[x]];
  }

  lemma TimesEnd(init: seq<nat>, x: nat, times: seq<int>)
    requires Below(init + [x], |times|)
    ensures Below(init, |times|) && x < |times|
    ensures multiset(TimesOf(init + [x], times)) == multiset(TimesOf(init, times)) + multiset{times[x]}
  {
    assert init + [x] + [] == init + [x] && init + [] == init;
    TimesAround(init, x, [], times);
  }

  lemma Shrink(init: seq<nat>, x: nat, s: seq<nat>) returns (a: seq<nat>, b: seq<nat>)
    requires multiset(init + [x]) == multiset(s)
    ensures s == a + [x] + b && multiset(init) == multiset(a + b)
  {
    assert multiset(init + [x]) == multiset(init) + multiset{x};
    assert x in multiset(s);
    a, b := RemoveOne(s, x);
  }

  lemma {:induction false} TimesPermuted(a: seq<nat>, b: seq<nat>, times: seq<int>)
    requires multiset(a) == multiset(b) && Below(a, |times|) && Below(b, |times|)
    ensures multiset(TimesOf(a, times)) == multiset(TimesOf(b, times))
  {
    if a == [] {
      assert |multiset(b)| == 0;
    } else {
      var init, x := a[..|a| - 1], a[|a| - 1];
      assert a == init + [x];
      var before, after := Shrink(init, x, b);
      TimesEnd(init, x, times);
      TimesAround(before, x, after, times);
      TimesPermuted(init, before + after, times);
    }
  }

  /** The live slots hold times that arrived, none more often than it did; all of them until the
      buffer overflows. */
  ghost predicate IsSample(live: seq<int>, m: nat, arrivals: seq<int>) {
    && |live| == Min(m, |arrivals|)
    && multiset(live) <= multiset(arrivals)
    && (|arrivals| <= m ==> multiset(live) == multiset(arrivals))
  }

  lemma AddKeepsSample(live: seq<int>, m: nat, arrivals: seq<int>, t: int, u: real, draw: nat)
    requires IsSample(live, m, arrivals)
    ensures IsSample(Add(live, m, |arrivals|, t, u, draw), m, arrivals + [t])
  {
    var slot := Slot(m, |arrivals|, u, draw);
    if slot.Some? && slot.value < |live| {
      assert multiset(live[slot.value := t]) == multiset(live) - multiset{live[slot.value]} + multiset{t};
    }
  }

  /** Arrivals, resets and displays (which permute the live slots) in any order. */
  datatype Event = Arrive(t: int, u: real, draw: nat) | Reset | Display(sorted: seq<int>)

  datatype Buffer = Buffer(live: seq<int>, arrivals: seq<int>)

  ghost function AfterEvents(m: nat, events: seq<Event>): (b: Option<Buffer>)
    ensures b.Some? ==> |b.value.live| == Min(m, |b.value.arrivals|)
  {
    if events == [] then Some(Buffer([], [])) else
    match AfterEvents(m, events[..|events| - 1])
    case None => None
    case Some(Buffer(live, arrivals)) =>
      match events[|events| - 1]
      case Arrive(t, u, draw) => Some(Buffer(Add(live, m, |arrivals|, t, u, draw), arrivals + [t]))
      case Reset => Some(Buffer([], []))
      case Display(s) =>
        assert |multiset(s)| == |s| && |multiset(live)| == |live|;
        if multiset(s) == multiset(live) then Some(Buffer(s, arrivals)) else None
  }

  lemma {:induction false} AlwaysASample(m: nat, events: seq<Event>)
    requires AfterEvents(m, events).Some?
    ensures IsSample(AfterEvents(m, events).value.live, m, AfterEvents(m, events).value.arrivals)
  {
    if events != [] {
      var k := |events| - 1;
      AlwaysASample(m, events[..k]);
      var b := AfterEvents(m, events[..k]).value;
      match events[k]
      case Arrive(t, u, draw) => AddKeepsSample(b.live, m, b.arrivals, t, u, draw);
      case Reset =>
      case Display(s) => SamplePermutation(b.live, s, m, b.arrivals);
    }
  }

  lemma Shift(a: seq<int>, x: int, b: seq<int>, i: nat)
    requires i < |a + b|
    ensures var j := if i < |a| then i else i + 1;
      j != |a| && j < |a + [x] + b| && (a + [x] + b)[j] == (a + b)[i]
  {
  }

  lemma TakeOne(init: seq<int>, x: int, arrivals: multiset<int>, rest: multiset<int>)
    requires multiset(init + [x]) <= arrivals && rest == arrivals - multiset{x}
    ensures multiset(init) <= rest
  {
    assert multiset(init + [x]) == multiset(init) + multiset{x};
  }

  /** The sub-multiset property as a map: every slot holds an arrival of its own. */
  lemma {:induction false} SlotsHoldArrivals(live: seq<int>, arrivals: seq<int>) returns (f: seq<nat>)
    requires multiset(live) <= multiset(arrivals)
    ensures |f| == |live|
    ensures forall i :: 0 <= i < |live| ==> f[i] < |arrivals| && arrivals[f[i]] == live[i]
    ensures forall i, j :: 0 <= i < j < |f| ==> f[i] != f[j]
  {
    if live == [] {
      f := [];
    } else {
      var k := |live| - 1;
      var init, x := live[..k], live[k];
      assert live == init + [x];
      assert x in multiset(arrivals);
      var a, b := RemoveOne(arrivals, x);
      TakeOne(init, x, multiset(arrivals), multiset(a + b));
      var g := SlotsHoldArrivals(init, a + b);
      f := MoveUp(g, |a|) + [|a|];
      MovedUp(a, x, b, g, init);
      assert arrivals == a + [x] + b && arrivals[|a|] == x;
    }
  }

  lemma MovedUp(a: seq<int>, x: int, b: seq<int>, g: seq<nat>, values: seq<int>)
    requires |g| == |values|
    requires forall i :: 0 <= i < |g| ==> g[i] < |a + b| && (a + b)[g[i]] == values[i]
    requires forall i, j :: 0 <= i < j < |g| ==> g[i] != g[j]
    ensures var f, s := MoveUp(g, |a|), a + [x] + b;
      && (forall i :: 0 <= i < |f| ==> f[i] != |a| && f[i] < |s| && s[f[i]] == values[i])
      && (forall i, j :: 0 <= i < j < |f| ==> f[i] != f[j])
  {
    var f, s := MoveUp(g, |a|), a + [x] + b;
    forall i | 0 <= i < |g| ensures f[i] != |a| && f[i] < |s| && s[f[i]] == values[i] {
      Shift(a, x, b, g[i]);
    }
  }

  function MoveUp(g: seq<nat>, n: nat): seq<nat> {
    seq(|g|, i requires 0 <= i < |g| => if g[i] < n then g[i] else g[i] + 1)
  }

  // ---------------------------------------------------------------- the statistics

  /** The indices displayStats reads in a sorted sample of e elements. */
  lemma IndicesInOrder(e: nat)
    requires e > 0
    ensures 0 <= e / 4 <= e / 2 <= e - 1 - e / 4 <= e - 1 - e / 10 <= e - 1 - e / 20 <= e - 1 - e / 100 <= e - 1
  {
  }

  ghost predicate LowRanks(s: seq<int>, f: Figures)
    requires s != []
  {
    IsRank(s, 0, f.min) && IsRank(s, |s| / 4, f.p25) && IsRank(s, |s| / 2, f.p50)
  }

  ghost predicate HighRanks(s: seq<int>, f: Figures)
    requires s != []
  {
    var e := |s|;
    && IsRank(s, e - 1 - e / 4, f.p75) && IsRank(s, e - 1 - e / 10, f.p90)
    && IsRank(s, e - 1 - e / 20, f.p95) && IsRank(s, e - 1 - e / 100, f.p99)
    && IsRank(s, e - 1, f.max)
  }

  /** The figures are the order statistics of the sample at those indices. */
  ghost predicate Ranked(s: seq<int>, f: Figures)
    requires s != []
  {
    f.elems == |s| && LowRanks(s, f) && HighRanks(s, f)
  }

  lemma FiguresInOrder(s: seq<int>, f: Figures)
    requires s != [] && Ranked(s, f)
    ensures f.min <= f.p25 <= f.p50 <= f.p75 <= f.p90 <= f.p95 <= f.p99 <= f.max
    ensures f.min in s && f.max in s
  {
    var e := |s|;
    IndicesInOrder(e);
    RankMonotone(s, 0, e / 4, f.min, f.p25);
    RankMonotone(s, e / 4, e / 2, f.p25, f.p50);
    RankMonotone(s, e / 2, e - 1 - e / 4, f.p50, f.p75);
    RankMonotone(s, e - 1 - e / 4, e - 1 - e / 10, f.p75, f.p90);
    RankMonotone(s, e - 1 - e / 10, e - 1 - e / 20, f.p90, f.p95);
    RankMonotone(s, e - 1 - e / 20, e - 1 - e / 100, f.p95, f.p99);
    RankMonotone(s, e - 1 - e / 100, e - 1, f.p99, f.max);
    RankElement(s, 0, f.min);
    RankElement(s, e - 1, f.max);
  }

  /** At most one n-th of s is below x, and more than that is not above it; and the other way round. */
  ghost predicate LowQuantile(s: seq<int>, n: nat, x: int) {
    n * CountBelow(s, x) <= |s| < n * CountBelow(s, x + 1)
  }

  ghost predicate HighQuantile(s: seq<int>, n: nat, x: int) {
    n * (|s| - CountBelow(s, x + 1)) <= |s| < n * (|s| - CountBelow(s, x))
  }

  /** What the figures mean, apart from the indices they are read from. */
  lemma FiguresAreQuantiles(s: seq<int>, f: Figures)
    requires s != [] && Ranked(s, f)
    ensures LowQuantile(s, 4, f.p25) && LowQuantile(s, 2, f.p50) && HighQuantile(s, 4, f.p75)
    ensures HighQuantile(s, 10, f.p90) && HighQuantile(s, 20, f.p95) && HighQuantile(s, 100, f.p99)
    ensures f.elems == |s| && CountBelow(s, f.min) == 0 && CountBelow(s, f.max + 1) == |s|
  {
    CountMonotone(s, f.max + 1, f.max + 1);
  }

  /** The figures read off a sorted sample. */
  function FiguresOf(t: seq<int>, mean: real): Figures
    requires t != []
  {
    var e := |t|;
    Figures(e, mean, t[0], t[e / 4], t[e / 2], t[e - 1 - e / 4], t[e - 1 - e / 10], t[e - 1 - e / 20],
            t[e - 1 - e / 100], t[e - 1])
  }

  function Mean(total: int, n: nat): real
    requires n > 0
  {
    total as real / n as real
  }

  /** What a display reports about the slots s, when slot 0 of the buffer holds `first`. */
  ghost predicate Reported(s: seq<int>, first: int, f: Figures)
    requires s != []
  {
    Ranked(s, f) && f.mean == Mean(first + Total(s) - f.min, |s|)
  }

  lemma RankedFigures(s: seq<int>, t: seq<int>, mean: real)
    requires multiset(s) == multiset(t) && Sorted(t) && |s| == |t| > 0
    ensures Ranked(s, FiguresOf(t, mean))
  {
    var e := |t|;
    SortedRankOf(s, t, 0);
    SortedRankOf(s, t, e / 4);
    SortedRankOf(s, t, e / 2);
    SortedRankOf(s, t, e - 1 - e / 4);
    SortedRankOf(s, t, e - 1 - e / 10);
    SortedRankOf(s, t, e - 1 - e / 20);
    SortedRankOf(s, t, e - 1 - e / 100);
    SortedRankOf(s, t, e - 1);
  }

  lemma SortedFigures(s: seq<int>, t: seq<int>, first: int, mean: real)
    requires multiset(s) == multiset(t) && Sorted(t) && s != [] && t != []
    requires mean == Mean(first + Total(t) - t[0], |t|)
    ensures Reported(s, first, FiguresOf(t, mean))
  {
    TotalPermutation(s, t);
    RankedFigures(s, t, mean);
    assert FiguresOf(t, mean).min == t[0];
  }

  lemma SortedRankOf(s: seq<int>, t: seq<int>, k: nat)
    requires multiset(s) == multiset(t) && Sorted(t) && k < |t|
    ensures IsRank(s, k, t[k])
  {
    SortedRank(t, k);
    RankPermutation(t, s, k, t[k]);
  }

  lemma SamplePermutation(live: seq<int>, t: seq<int>, m: nat, arrivals: seq<int>)
    requires IsSample(live, m, arrivals) && multiset(live) == multiset(t)
    ensures IsSample(t, m, arrivals)
  {
    assert |multiset(live)| == |live| && |multiset(t)| == |t|;
  }

  lemma PartPermuted(s: seq<int>, t: seq<int>, start: nat, end: nat, n: nat)
    requires start <= end <= n <= |s| == |t| && multiset(s[start..end]) == multiset(t[start..end])
    requires forall k :: 0 <= k < start || end <= k < |s| ==> t[k] == s[k]
    ensures t[..start] == s[..start] && t[end..] == s[end..] && multiset(t[..n]) == multiset(s[..n])
  {
    ThreeParts(s, start, end, n);
    ThreeParts(t, start, end, n);
    assert t[..start] == s[..start] && t[end..n] == s[end..n];
  }

  lemma ThreeParts(s: seq<int>, start: nat, end: nat, n: nat)
    requires start <= end <= n <= |s|
    ensures multiset(s[..n]) == multiset(s[..start]) + multiset(s[start..end]) + multiset(s[end..n])
  {
    assert s[..n] == s[..start] + s[start..end] + s[end..n];
  }

  /** The mean the source computes: its first term is slot 0, not slot `start`. */
  lemma MeanOfRest(first: int, t: seq<int>, log: seq<real>)
    requires t != [] && log == [first as real] + Reals(t[1..])
    ensures R.Sum(log) == (first + Total(t) - t[0]) as real && |log| == |t|
  {
    HeadSum(first as real, Reals(t[1..]));
    RealsSum(t[1..]);
    HeadTotal(t);
  }

  lemma HeadSum(x: real, rest: seq<real>)
    ensures R.Sum([x] + rest) == x + R.Sum(rest)
  {
    SumConcat([x], rest);
    assert [x][..0] == [];
  }

  lemma HeadTotal(t: seq<int>)
    requires t != []
    ensures Total(t) == t[0] + Total(t[1..])
  {
    TotalConcat([t[0]], t[1..]);
    assert t == [t[0]] + t[1..];
    assert [t[0]][..0] == [];
  }

  lemma {:induction false} SumConcat(a: seq<real>, b: seq<real>)
    ensures R.Sum(a + b) == R.Sum(a) + R.Sum(b)
  {
    if b == [] {
      assert a + b == a;
    } else {
      assert (a + b)[..|a + b| - 1] == a + b[..|b| - 1];
      SumConcat(a, b[..|b| - 1]);
    }
  }

  function Reals(s: seq<int>): seq<real> {
    seq(|s|, i requires 0 <= i < |s| => s[i] as real)
  }

  lemma {:induction false} RealsSum(s: seq<int>)
    ensures R.Sum(Reals(s)) == Total(s) as real
  {
    if s != [] {
      assert Reals(s)[..|s| - 1] == Reals(s[..|s| - 1]);
      RealsSum(s[..|s| - 1]);
    }
  }

  // ---------------------------------------------------------------- the class

  class SampledStats {
    const maxsamples: nat
    const kinds: nat
    const samples: seq<array<int>>  // one row of slots per type
    var numops: seq<nat>
    var opsSinceReset: seq<nat>
    var minimums: seq<int>
    var maximums: seq<int>
    var errors: seq<nat>

    ghost var arrivals: seq<seq<int>>  // since the last reset, per type
    ghost var all: seq<seq<int>>       // since construction, per type

    ghost predicate Rows() {
      && |samples| == kinds
      && (forall k :: 0 <= k < kinds ==> samples[k].Length == maxsamples)
      && (forall j, k :: 0 <= j < k < kinds ==> samples[j] != samples[k])
    }

    ghost function Live(kind: nat): seq<int>
      requires Rows() && kind < kinds == |opsSinceReset|
      reads `opsSinceReset, samples[kind]
    {
      samples[kind][..Min(maxsamples, opsSinceReset[kind])]
    }

    /** The samples agree with the arrivals since the last reset. */
    ghost predicate Sampled()
      reads `opsSinceReset, `arrivals, samples
    {
      && Rows() && |opsSinceReset| == |arrivals| == kinds
      && forall k: nat :: k < kinds ==>
           opsSinceReset[k] == |arrivals[k]| && IsSample(Live(k), maxsamples, arrivals[k])
    }

    /** The counters agree with the arrivals since construction. */
    ghost predicate Tallied()
      reads `numops, `minimums, `maximums, `errors, `all
    {
      && |numops| == |minimums| == |maximums| == |errors| == |all| == kinds
      && forall k: nat :: k < kinds ==>
           numops[k] == |all[k]| && minimums[k] == Minimum(all[k]) && maximums[k] == Max(all[k])
    }

    ghost predicate Valid()
      reads this, samples
    {
      Sampled() && Tallied()
    }

    constructor (maxsamples: nat, kinds: nat)
      ensures Valid() && this.maxsamples == maxsamples && this.kinds == kinds
      ensures forall k :: 0 <= k < kinds ==> arrivals[k] == all[k] == [] && errors[k] == 0 && fresh(samples[k])
    {
      var rows: seq<array<int>> := [];
      for k := 0 to kinds
        invariant |rows| == k
        invariant forall i :: 0 <= i < k ==> rows[i].Length == maxsamples && fresh(rows[i])
        invariant forall i, j :: 0 <= i < j < k ==> rows[i] != rows[j]
      {
        var row := new int[maxsamples](_ => 0);
        rows := rows + [row];
      }
      this.maxsamples, this.kinds, samples := maxsamples, kinds, rows;
      numops, opsSinceReset, errors := seq(kinds, _ => 0), seq(kinds, _ => 0), seq(kinds, _ => 0);
      minimums, maximums := seq(kinds, _ => 0), seq(kinds, _ => 0);
      arrivals, all := seq(kinds, _ => []), seq(kinds, _ => []);
    }

    method CountOperation(kind: nat, timetaken: int, error: bool)
      requires Tallied() && kind < kinds
      modifies `numops, `minimums, `maximums, `errors, `all
      ensures Tallied()
      ensures all == old(all)[kind := old(all[kind]) + [timetaken]]
      ensures errors == if error then old(errors)[kind := old(errors[kind]) + 1] else old(errors)
    {
      ghost var total := all[kind];
      assert (total + [timetaken])[..|total|] == total;
      if error {
        errors := errors[kind := errors[kind] + 1];
      }
      if minimums[kind] == 0 || minimums[kind] > timetaken {
        minimums := minimums[kind := timetaken];
      }
      if timetaken > maximums[kind] {
        maximums := maximums[kind := timetaken];
      }
      numops := numops[kind := numops[kind] + 1];
      all := all[kind := total + [timetaken]];
    }

    method Store(kind: nat, opIndex: nat, timetaken: int, probability: real, draw: nat)
      requires kind < |samples| && samples[kind].Length == maxsamples
      modifies samples[kind]
      ensures samples[kind][..Min(maxsamples, opIndex + 1)]
           == Add(old(samples[kind][..Min(maxsamples, opIndex)]), maxsamples, opIndex, timetaken, probability, draw)
    {
      var row := samples[kind];
      if opIndex < maxsamples {
        row[opIndex] := timetaken;
      } else if opIndex > 0 {
        var pReplace := maxsamples as real / opIndex as real;
        if probability < pReplace && maxsamples > 0 {
          var rSample := draw % maxsamples;
          row[rSample] := timetaken;
        }
      }
    }

    method TakeSample(kind: nat, timetaken: int, probability: real, draw: nat)
      requires Sampled() && kind < kinds
      modifies `opsSinceReset, `arrivals, samples[kind]
      ensures Sampled()
      ensures arrivals == old(arrivals)[kind := old(arrivals[kind]) + [timetaken]]
      ensures Live(kind) == Add(old(Live(kind)), maxsamples, old(opsSinceReset[kind]), timetaken, probability, draw)
    {
      AddKeepsSample(Live(kind), maxsamples, arrivals[kind], timetaken, probability, draw);
      var opIndex := opsSinceReset[kind];
      opsSinceReset := opsSinceReset[kind := opIndex + 1];
      Store(kind, opIndex, timetaken, probability, draw);
      arrivals := arrivals[kind := arrivals[kind] + [timetaken]];
      forall k: nat | k < kinds && k != kind ensures Live(k) == old(Live(k)) {
        assert samples[k] != samples[kind];
      }
    }

    /** `probability` is a draw from [0, 1), `draw` a value of rand(). */
    method AddStats(kind: nat, timetaken: int, error: bool, probability: real, draw: nat)
      requires Valid() && kind < kinds && 0.0 <= probability < 1.0
      modifies this, samples[kind]
      ensures Valid()
      ensures arrivals == old(arrivals)[kind := old(arrivals[kind]) + [timetaken]]
      ensures all == old(all)[kind := old(all[kind]) + [timetaken]]
      ensures errors == if error then old(errors)[kind := old(errors[kind]) + 1] else old(errors)
      ensures Live(kind) == Add(old(Live(kind)), maxsamples, old(opsSinceReset[kind]), timetaken, probability, draw)
    {
      CountOperation(kind, timetaken, error);
      TakeSample(kind, timetaken, probability, draw);
    }

    method ResetSamples()
      requires Valid()
      modifies `opsSinceReset, `arrivals
      ensures Valid() && forall k :: 0 <= k < kinds ==> arrivals[k] == []
    {
      opsSinceReset := seq(kinds, _ => 0);
      arrivals := seq(kinds, _ => []);
      assert forall k: nat :: k < kinds ==> Live(k) == [];
    }

    /** Mean over the range, with slot 0 standing in for the first element. */
    method RangeMean(kind: nat, start: nat, end: nat) returns (mean: real)
      requires kind < |samples| && start < end <= samples[kind].Length
      ensures var t := samples[kind][start..end];
        mean == Mean(samples[kind][0] + Total(t) - t[0], |t|)
    {
      var row := samples[kind];
      ghost var t := row[start..end];
      var meanCalc := new R.RunningMean(row[0] as real);
      for i := start + 1 to end
        invariant fresh(meanCalc) && meanCalc.Valid()
        invariant meanCalc.log == [row[0] as real] + Reals(row[start + 1..i])
      {
        assert row[start + 1..i + 1] == row[start + 1..i] + [row[i]];
        meanCalc.AddSample(row[i] as real);
      }
      assert row[start + 1..end] == t[1..];
      MeanOfRest(row[0], t, meanCalc.log);
      mean := meanCalc.Mean();
    }

    method SortLive(kind: nat, start: nat, end: nat)
      requires Valid() && kind < kinds && start <= end <= Min(maxsamples, opsSinceReset[kind])
      modifies samples[kind]
      ensures Valid() && multiset(Live(kind)) == old(multiset(Live(kind)))
      ensures forall k: nat :: k < kinds && k != kind ==> Live(k) == old(Live(k))
      ensures Sorted(samples[kind][start..end])
      ensures multiset(samples[kind][start..end]) == old(multiset(samples[kind][start..end]))
      ensures samples[kind][..start] == old(samples[kind][..start]) && samples[kind][end..] == old(samples[kind][end..])
    {
      ghost var live := Live(kind);
      SortRow(samples[kind], start, end, Min(maxsamples, opsSinceReset[kind]));
      SamplePermutation(live, Live(kind), maxsamples, arrivals[kind]);
      forall k: nat | k < kinds && k != kind ensures Live(k) == old(Live(k)) {
        assert samples[k] != samples[kind];
      }
    }

    /** Sorting part of the live slots permutes the live slots. */
    static method SortRow(row: array<int>, start: nat, end: nat, n: nat)
      requires start <= end <= n <= row.Length
      modifies row
      ensures Sorted(row[start..end]) && row[..start] == old(row[..start]) && row[end..] == old(row[end..])
      ensures multiset(row[start..end]) == old(multiset(row[start..end]))
      ensures multiset(row[..n]) == old(multiset(row[..n]))
    {
      ghost var before := row[..];
      Sort(row, start, end);
      PartPermuted(before, row[..], start, end, n);
    }

    /** Mean, minimum, percentiles and maximum of a range that is sorted by now. */
    method ReadFigures(kind: nat, start: nat, end: nat) returns (figures: Figures)
      requires kind < |samples| && start < end <= samples[kind].Length
      ensures var t := samples[kind][start..end];
        figures == FiguresOf(t, Mean(samples[kind][0] + Total(t) - t[0], |t|))
    {
      var mean := RangeMean(kind, start, end);
      var row, elems := samples[kind], end - start;
      figures := Figures(elems, mean,
        row[start], row[start + elems / 4], row[start + elems / 2],
        row[end - 1 - elems / 4], row[end - 1 - elems / 10], row[end - 1 - elems / 20], row[end - 1 - elems / 100],
        row[end - 1]);
    }

    method SampleFigures(kind: nat, start: nat, end: nat, ghost s: seq<int>) returns (figures: Figures)
      requires kind < |samples| && start < end <= samples[kind].Length
      requires Sorted(samples[kind][start..end]) && multiset(samples[kind][start..end]) == multiset(s) && s != []
      ensures Reported(s, samples[kind][0], figures)
      ensures figures.mean == Mean(Total(s), |s|) <==> IsLeast(s, samples[kind][0])
      ensures start == 0 ==> samples[kind][0] == figures.min && IsLeast(s, figures.min)
    {
      figures := ReadFigures(kind, start, end);
      SortedFigures(s, samples[kind][start..end], samples[kind][0], figures.mean);
      MeanExactly(s, samples[kind][0], figures);
      LeastRank(s, figures.min);
    }

    /** Statistics of the slots start .. end - 1, which are sorted in place. */
    method DisplayStats(kind: nat, start: nat, end: nat) returns (line: CsvLine)
      requires Valid() && kind < kinds && end <= Min(maxsamples, opsSinceReset[kind])
      modifies samples[kind]
      ensures Valid() && multiset(Live(kind)) == old(multiset(Live(kind)))
      ensures forall k: nat :: k < kinds && k != kind ==> Live(k) == old(Live(k))
      ensures line.numops == |all[kind]| && line.errors == errors[kind]
      ensures start >= end ==> line.sample.None? && line.opsSinceReset == 0
      ensures start < end ==>
        && line.opsSinceReset == |arrivals[kind]| && line.sample.Some?
        && Reported(old(samples[kind][start..end]), samples[kind][0], line.sample.value)
      ensures start >= end ==> samples[kind][..] == old(samples[kind][..])
      ensures start < end ==>
        samples[kind][..start] == old(samples[kind][..start]) && samples[kind][end..] == old(samples[kind][end..])
      ensures start == 0 < end ==> samples[kind][0] == line.sample.value.min
      ensures start < end ==> var s := old(samples[kind][start..end]);
        line.sample.value.mean == Mean(Total(s), |s|) <==> start == 0 || IsLeast(s, old(samples[kind][0]))
    {
      if end <= start {
        return CsvLine(numops[kind], errors[kind], 0, None);
      }
      ghost var s := samples[kind][start..end];
      SortLive(kind, start, end);
      var figures := SampleFigures(kind, start, end, s);
      assert start > 0 ==> samples[kind][0] == samples[kind][..start][0] == old(samples[kind][..start][0]);
      line := CsvLine(numops[kind], errors[kind], opsSinceReset[kind], Some(figures));
    }

    ghost function Lives(): (lives: seq<seq<int>>)
      requires Rows() && |opsSinceReset| == kinds
      reads this, samples
      ensures |lives| == kinds && forall k: nat :: k < kinds ==> lives[k] == Live(k)
    {
      seq(kinds, k requires Rows() && 0 <= k < kinds == |opsSinceReset| reads this, samples => Live(k))
    }

    /** Every live sample is a permutation of what it was before. */
    ghost predicate Kept(before: seq<seq<int>>)
      requires Rows() && |opsSinceReset| == kinds == |before|
      reads `opsSinceReset, samples
    {
      forall k: nat :: k < kinds ==> multiset(Live(k)) == multiset(before[k])
    }

    /** The line of a type with these live samples. */
    ghost predicate LineOf(line: CsvLine, kind: nat, before: seq<seq<int>>)
      reads `all, `errors, `arrivals
    {
      && kind < |before| && kind < |all| && kind < |errors| && kind < |arrivals|
      && Summarizes(line, |all[kind]|, errors[kind], |arrivals[kind]|, before[kind])
    }

    /** The whole live sample of one type. */
    method DisplayLive(kind: nat, ghost before: seq<seq<int>>) returns (line: CsvLine)
      requires Valid() && kind < kinds == |before| && Kept(before)
      modifies samples[kind]
      ensures Valid() && Kept(before)
      ensures LineOf(line, kind, before)
    {
      ghost var live := Live(kind);
      var end := Min(maxsamples, opsSinceReset[kind]);
      assert live == samples[kind][0..end];
      line := DisplayStats(kind, 0, end);
      SummaryPermutation(line, |all[kind]|, errors[kind], |arrivals[kind]|, live, before[kind]);
    }

    /** One line for each requested type. */
    method DisplayAll(types: seq<nat>) returns (lines: seq<CsvLine>)
      requires Valid() && forall i :: 0 <= i < |types| ==> types[i] < kinds
      modifies samples
      ensures Valid() && |lines| == |types|
      ensures forall i :: 0 <= i < |types| ==>
        var k := types[i]; Summarizes(lines[i], |all[k]|, errors[k], |arrivals[k]|, old(Live(k)))
      ensures forall k: nat :: k < kinds ==> multiset(Live(k)) == old(multiset(Live(k)))
    {
      lines := [];
      ghost var before := Lives();
      for i := 0 to |types|
        invariant Valid() && |lines| == i && Kept(before)
        invariant forall j :: 0 <= j < i ==> LineOf(lines[j], types[j], before)
      {
        var line := DisplayLive(types[i], before);
        lines := lines + [line];
      }
    }
  }

  /** What a line says about a type with these totals and this live sample. */
  ghost predicate Summarizes(line: CsvLine, numops: nat, errors: nat, ops: nat, live: seq<int>) {
    && line.numops == numops && line.errors == errors
    && if live == [] then line.opsSinceReset == 0 && line.sample.None?
       else line.opsSinceReset == ops && line.sample.Some? && Ranked(live, line.sample.value)
            && line.sample.value.mean == Mean(Total(live), |live|)
  }

  lemma SummaryPermutation(line: CsvLine, numops: nat, errors: nat, ops: nat, s: seq<int>, t: seq<int>)
    requires multiset(s) == multiset(t) && Summarizes(line, numops, errors, ops, s)
    ensures Summarizes(line, numops, errors, ops, t)
  {
    TotalPermutation(s, t);
    if s != [] {
      var e, f := |s|, line.sample.value;
      RankPermutation(s, t, 0, f.min);
      RankPermutation(s, t, e / 4, f.p25);
      RankPermutation(s, t, e / 2, f.p50);
      RankPermutation(s, t, e - 1 - e / 4, f.p75);
      RankPermutation(s, t, e - 1 - e / 10, f.p90);
      RankPermutation(s, t, e - 1 - e / 20, f.p95);
      RankPermutation(s, t, e - 1 - e / 100, f.p99);
      RankPermutation(s, t, e - 1, f.max);
    }
  }

  /** The reported mean is the arithmetic mean exactly when slot 0 holds the least time of the range.
      With the start 0 that every caller passes the sort has put it there. */
  lemma MeanExactly(s: seq<int>, first: int, f: Figures)
    requires s != [] && Reported(s, first, f)
    ensures f.mean == Mean(Total(s), |s|) <==> IsLeast(s, first)
  {
    MeanInjective(first + Total(s) - f.min, Total(s), |s|);
    LeastRank(s, f.min);
  }

  /** Slots 1 and 2 of a buffer 1, 5, 7: the mean of 5 and 7 is reported as 4. */
  lemma MeanFails(f: Figures)
    requires Reported([5, 7], 1, f)
    ensures f.mean == 4.0 && Mean(Total([5, 7]), 2) == 6.0
  {
    var s := [5, 7];
    assert s[..1] == [5] && [5][..0] == [];
    LeastRank(s, f.min);
    assert IsLeast(s, s[0]);
  }

  lemma MeanInjective(x: int, y: int, n: nat)
    requires n > 0
    ensures Mean(x, n) == Mean(y, n) <==> x == y
  {
    var d := n as real;
    assert x as real / d * d == x as real && y as real / d * d == y as real;
  }
}
