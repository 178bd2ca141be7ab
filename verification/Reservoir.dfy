/**
 The replacement rule of SampledStats::addStats as a random experiment: the exact probability that
 an arrival is in the sample, with ideal uniform draws and with the buffer rearranged at will
 between arrivals (displaying statistics sorts it in place).

 Slots hold arrival numbers here instead of measured times, so that the question "is arrival j in
 the sample" has an answer.
 */
module Reservoir {
  import opened Messages

  /** What a display may do to the buffer before arrival i. */
  type Display = (nat, seq<nat>) -> seq<nat>

  ghost predicate Rearranges(display: Display) {
    forall i: nat, s: seq<nat> :: multiset(display(i, s)) == multiset(s)
  }

  /** The code's test: replace when a uniform draw from [0, 1) is below maxsamples / opIndex. */
  function ReplaceChance(m: nat, i: nat): real
    requires i > 0
  {
    m as real / i as real
  }

  /** The slot arrival i overwrites, for a uniform draw u and a `rand()` value; before the buffer is
      full it takes slot i. With maxsamples 0 the division by opIndex 0 yields no number to be
      below of. */
  function Slot(m: nat, i: nat, u: real, draw: nat): (slot: Option<nat>)
    ensures slot.Some? ==> slot.value < m
  {
    if i < m then Some(i)
    else if i > 0 && u < ReplaceChance(m, i) && m > 0 then Some(draw % m)
    else None
  }

  /** The threshold for u is a probability. */
  lemma ChanceInRange(m: nat, i: nat)
    requires 1 <= m <= i
    ensures 0.0 < ReplaceChance(m, i) <= 1.0 && (ReplaceChance(m, i) == 1.0 <==> i == m)
  {
    var p, mm, ii := ReplaceChance(m, i), m as real, i as real;
    assert p * ii == mm;
    assert (1.0 - p) * ii == ii - mm;
    if p >= 1.0 {
      assert (p - 1.0) * ii >= 0.0;
    }
  }

  /** Once the buffer is full, u decides whether something is replaced; then each slot is named by
      exactly one residue of the second draw. */
  lemma ReplacementRule(m: nat, i: nat, u: real, draw: nat, k: nat)
    requires 1 <= m <= i && k < m
    ensures Slot(m, i, u, draw).Some? <==> u < ReplaceChance(m, i)
    ensures Slot(m, i, u, draw) == Slot(m, i, u, draw % m)
    ensures draw < m ==> (Slot(m, i, u, draw) == Some(k) <==> u < ReplaceChance(m, i) && draw == k)
  {
    Residue(draw, m);
    Residue(draw % m, m);
  }

  lemma Residue(d: nat, m: nat)
    requires m >= 1
    ensures 0 <= d % m < m && (d < m ==> d % m == d)
  {
  }

  /** The average over the draws for arrival i: `kept` if nothing is replaced, one m-th of
      `replaced`, the sum over the slots, if something is. */
  function Blend(m: nat, i: nat, kept: real, replaced: real): real
    requires m > 0 && i > 0
  {
    var p := ReplaceChance(m, i);
    (1.0 - p) * kept + p * (replaced / m as real)
  }

  /** The probability that arrival j is in the sample after n arrivals, from the slots as they are
      before arrival i: the average over the outcomes of the draw for arrival i. */
  ghost function Inclusion(display: Display, slots: seq<nat>, m: nat, i: nat, n: nat, j: nat): real
    requires Rearranges(display) && m >= 1 && i <= n && |slots| == if i < m then i else m
    decreases n - i, 0
  {
    if i == n then
      if j in slots then 1.0 else 0.0
    else
      var s := Shown(display, i, slots);
      if i < m then Inclusion(display, s + [i], m, i + 1, n, j)
      else
        Blend(m, i, Inclusion(display, s, m, i + 1, n, j), SlotSum(display, s, m, i, n, j, m))
  }

  /** The inclusion probabilities after replacing slot 0, ..., slot k - 1, added up. */
  ghost function SlotSum(display: Display, s: seq<nat>, m: nat, i: nat, n: nat, j: nat, k: nat): real
    requires Rearranges(display) && 1 <= m <= i < n && |s| == m && k <= m
    decreases n - i, 0, k
  {
    if k == 0 then 0.0 else
    SlotSum(display, s, m, i, n, j, k - 1) + Inclusion(display, s[k - 1 := i], m, i + 1, n, j)
  }

  /** The slots after arrival i. */
  function Placed(s: seq<nat>, slot: Option<nat>, i: nat): seq<nat>
    requires slot.Some? ==> slot.value < |s|
  {
    if slot.Some? then s[slot.value := i] else s
  }

  /** The inclusion probabilities for one u, added up over the residues of the second draw. */
  ghost function DrawSum(display: Display, s: seq<nat>, m: nat, i: nat, n: nat, j: nat, u: real, k: nat): real
    requires Rearranges(display) && 1 <= m <= i < n && |s| == m && k <= m
  {
    if k == 0 then 0.0 else
    DrawSum(display, s, m, i, n, j, u, k - 1) + Inclusion(display, Placed(s, Slot(m, i, u, k - 1), i), m, i + 1, n, j)
  }

  lemma PlacedDraw(s: seq<nat>, m: nat, i: nat, u: real, d: nat)
    requires 1 <= m <= i && |s| == m && d < m
    ensures Placed(s, Slot(m, i, u, d), i) == if u < ReplaceChance(m, i) then s[d := i] else s
  {
    ReplacementRule(m, i, u, d, d);
  }

  /** A u below the threshold gives the sum over the slots. */
  lemma {:induction false} DrawsBelow(display: Display, s: seq<nat>, m: nat, i: nat, n: nat, j: nat, u: real, k: nat)
    requires Rearranges(display) && 1 <= m <= i < n && |s| == m && k <= m
    requires u < ReplaceChance(m, i)
    ensures DrawSum(display, s, m, i, n, j, u, k) == SlotSum(display, s, m, i, n, j, k)
  {
    if k > 0 {
      DrawsBelow(display, s, m, i, n, j, u, k - 1);
      PlacedDraw(s, m, i, u, k - 1);
    }
  }

  /** Any other u gives the unchanged buffer every time. */
  lemma {:induction false} DrawsAbove(display: Display, s: seq<nat>, m: nat, i: nat, n: nat, j: nat, u: real, k: nat)
    requires Rearranges(display) && 1 <= m <= i < n && |s| == m && k <= m
    requires u >= ReplaceChance(m, i)
    ensures DrawSum(display, s, m, i, n, j, u, k) == Repeat(k, Inclusion(display, s, m, i + 1, n, j))
  {
    if k > 0 {
      DrawsAbove(display, s, m, i, n, j, u, k - 1);
      PlacedDraw(s, m, i, u, k - 1);
    }
  }

  ghost function Shown(display: Display, i: nat, slots: seq<nat>): (s: seq<nat>)
    requires Rearranges(display)
    ensures multiset(s) == multiset(slots) && |s| == |slots|
  {
    assert |multiset(display(i, slots))| == |display(i, slots)| && |multiset(slots)| == |slots|;
    display(i, slots)
  }

  function Times(s: seq<nat>, j: nat): nat {
    multiset(s)[j]
  }

  lemma ReplaceTimes(s: seq<nat>, r: nat, i: nat, x: nat)
    requires r < |s|
    ensures Times(s[r := i], x) == Times(s, x) - (if s[r] == x then 1 else 0) + (if i == x then 1 else 0)
  {
  }

  /** How many of the first k slots hold something other than x. */
  function Others(s: seq<nat>, k: nat, x: nat): nat
    requires k <= |s|
  {
    if k == 0 then 0 else Others(s, k - 1, x) + if s[k - 1] == x then 0 else 1
  }

  lemma {:induction false} OthersTimes(s: seq<nat>, k: nat, x: nat)
    requires k <= |s|
    ensures Others(s, k, x) + Times(s[..k], x) == k
  {
    if k > 0 {
      OthersTimes(s, k - 1, x);
      assert s[..k] == s[..k - 1] + [s[k - 1]];
    }
  }

  ghost predicate AllBefore(slots: seq<nat>, i: nat) {
    forall x: nat :: Times(slots, x) > 0 ==> x < i
  }

  lemma ReplaceBefore(s: seq<nat>, r: nat, i: nat)
    requires r < |s| && AllBefore(s, i)
    ensures AllBefore(s[r := i], i + 1)
  {
    var t := s[r := i];
    forall x: nat ensures Times(t, x) > 0 ==> x < i + 1 {
      ReplaceTimes(s, r, i, x);
    }
  }

  lemma SameBefore(s: seq<nat>, t: seq<nat>, i: nat)
    requires multiset(s) == multiset(t) && AllBefore(s, i)
    ensures AllBefore(t, i)
  {
    forall x: nat ensures Times(t, x) > 0 ==> x < i {
      assert Times(s, x) == Times(t, x);
    }
  }

  // ---------------------------------------------------------------- arithmetic

  /** a + ... + a, k times. */
  function Repeat(k: nat, a: real): real {
    if k == 0 then 0.0 else Repeat(k - 1, a) + a
  }

  lemma {:induction false} RepeatIsProduct(k: nat, a: real)
    ensures Repeat(k, a) == k as real * a
  {
    if k > 0 {
      RepeatIsProduct(k - 1, a);
    }
  }

  function Ratio(a: int, b: int): real
    requires b != 0
  {
    a as real / b as real
  }

  lemma Scale(a: int, b: int, c: int, d: int)
    requires b > 0 && d > 0
    ensures a * d == c * b ==> Ratio(a, b) == Ratio(c, d)
  {
    var x, y := Ratio(a, b), Ratio(c, d);
    assert x * b as real == a as real && y * d as real == c as real;
    if a * d == c * b {
      assert (a * d) as real == a as real * d as real && (c * b) as real == c as real * b as real;
      assert x * (b as real * d as real) == y * (b as real * d as real);
      assert b as real * d as real > 0.0;
    }
  }

  /** The average of equal probabilities. */
  lemma Unmoved(m: nat, i: nat, a: real)
    requires 1 <= m && 1 <= i
    ensures Blend(m, i, a, Repeat(m, a)) == a
  {
    RepeatIsProduct(m, a);
    assert m as real * a / m as real == a;
    var p := ReplaceChance(m, i);
    assert (1.0 - p) * a + p * a == a;
  }

  lemma Share(m: real, i: real, a: real)
    requires m > 0.0 && i > 0.0
    ensures (1.0 - m / i) * a + (m / i) * ((m - 1.0) * a / m) == a - a / i
  {
    var q, avg := 1.0 / i, (m - 1.0) * a / m;
    assert m / i == m * q && a / i == q * a && avg * m == (m - 1.0) * a;
    assert (m * q) * avg == q * (avg * m);
  }

  lemma NextRatio(i: nat, d: nat)
    requires i > 0 && d > 0
    ensures Ratio(i, d) - Ratio(i, d) / i as real == Ratio(i - 1, d)
  {
    var u := 1.0 / d as real;
    assert Ratio(i, d) == i as real * u && Ratio(i - 1, d) == (i as real - 1.0) * u;
    assert (i as real * u) / i as real == u;
  }

  /** A present arrival survives step i with probability 1 - (m/i)(1/m) = (i - 1)/i. */
  lemma Survive(m: nat, i: nat, n: nat)
    requires 1 <= m <= i < n
    ensures Blend(m, i, Ratio(i, n - 1), Repeat(m - 1, Ratio(i, n - 1))) == Ratio(i - 1, n - 1)
  {
    var a := Ratio(i, n - 1);
    RepeatIsProduct(m - 1, a);
    Share(m as real, i as real, a);
    NextRatio(i, n - 1);
  }

  /** A new arrival enters with probability m/i and then counts as present. */
  lemma Enter(m: nat, i: nat, n: nat)
    requires 1 <= m <= i < n
    ensures Blend(m, i, 0.0, Repeat(m, Ratio(i, n - 1))) == Ratio(m, n - 1)
  {
    RepeatIsProduct(m, Ratio(i, n - 1));
    var p, a, mm, ii := ReplaceChance(m, i), Ratio(i, n - 1), m as real, i as real;
    assert mm * a / mm == a;
    var u := 1.0 / (n - 1) as real;
    assert a == ii * u;
    assert p * ii == mm;
    assert p * a == mm * u;
  }

  lemma RepeatAverage(m: nat, a: real)
    requires m > 0
    ensures Repeat(m, a) / m as real == a
  {
    RepeatIsProduct(m, a);
    assert m as real * a / m as real == a;
  }

  /** The weights are those of the rule: a uniform u is below the threshold with just that probability,
      all draws below it do the same, as do all others, and for each of the two the inclusion is averaged
      over the residues of the second draw. */
  lemma InclusionIsAverage(display: Display, slots: seq<nat>, m: nat, i: nat, n: nat, j: nat,
                           below: real, above: real)
    requires Rearranges(display) && 1 <= m <= i < n && |slots| == m
    requires below < ReplaceChance(m, i) <= above
    ensures var s := Shown(display, i, slots);
      Inclusion(display, slots, m, i, n, j) ==
        Blend(m, i, DrawSum(display, s, m, i, n, j, above, m) / m as real, DrawSum(display, s, m, i, n, j, below, m))
  {
    var s := Shown(display, i, slots);
    DrawsBelow(display, s, m, i, n, j, below, m);
    DrawsAbove(display, s, m, i, n, j, above, m);
    RepeatAverage(m, Inclusion(display, s, m, i + 1, n, j));
  }

  // ---------------------------------------------------------------- the three kinds of arrival

  /** Gone: an earlier arrival that is in no slot never comes back. */
  lemma {:induction false} Gone(display: Display, slots: seq<nat>, m: nat, i: nat, n: nat, j: nat)
    requires Rearranges(display) && 1 <= m <= i <= n && |slots| == m
    requires j < i && Times(slots, j) == 0
    ensures Inclusion(display, slots, m, i, n, j) == 0.0
    decreases n - i, 0
  {
    if i < n {
      var s := Shown(display, i, slots);
      Gone(display, s, m, i + 1, n, j);
      GoneSum(display, s, m, i, n, j, m);
    }
  }

  lemma {:induction false} GoneSum(display: Display, s: seq<nat>, m: nat, i: nat, n: nat, j: nat, k: nat)
    requires Rearranges(display) && 1 <= m <= i < n && |s| == m && k <= m
    requires j < i && Times(s, j) == 0
    ensures SlotSum(display, s, m, i, n, j, k) == 0.0
    decreases n - i, 0, k
  {
    if k > 0 {
      GoneSum(display, s, m, i, n, j, k - 1);
      Gone(display, s[k - 1 := i], m, i + 1, n, j);
    }
  }

  /** Present: in exactly one slot before arrival i. */
  lemma {:induction false} Present(display: Display, slots: seq<nat>, m: nat, i: nat, n: nat, j: nat)
    requires Rearranges(display) && 1 <= m <= i <= n && m < n && |slots| == m
    requires j < i && Times(slots, j) == 1
    ensures Inclusion(display, slots, m, i, n, j) == Ratio(i - 1, n - 1)
    decreases n - i, 0
  {
    if i == n {
      assert j in slots;
      Scale(n - 1, n - 1, 1, 1);
    } else {
      var s := Shown(display, i, slots);
      Present(display, s, m, i + 1, n, j);
      PresentSum(display, s, m, i, n, j, m);
      assert s[..m] == s;
      OthersTimes(s, m, j);
      Survive(m, i, n);
    }
  }

  lemma {:induction false} PresentSum(display: Display, s: seq<nat>, m: nat, i: nat, n: nat, j: nat, k: nat)
    requires Rearranges(display) && 1 <= m <= i < n && |s| == m && k <= m
    requires j < i && Times(s, j) == 1
    ensures SlotSum(display, s, m, i, n, j, k) == Repeat(Others(s, k, j), Ratio(i, n - 1))
    decreases n - i, 0, k
  {
    if k > 0 {
      PresentSum(display, s, m, i, n, j, k - 1);
      PresentReplaced(display, s, m, i, n, j, k - 1);
    }
  }

  /** Arrival i takes slot r: the arrival that was there is gone, the others stay. */
  lemma {:induction false} PresentReplaced(display: Display, s: seq<nat>, m: nat, i: nat, n: nat, j: nat, r: nat)
    requires Rearranges(display) && 1 <= m <= i < n && |s| == m && r < m
    requires j < i && Times(s, j) == 1
    ensures Inclusion(display, s[r := i], m, i + 1, n, j) == if s[r] == j then 0.0 else Ratio(i, n - 1)
    decreases n - i, 0, 0
  {
    ReplaceTimes(s, r, i, j);
    if s[r] == j {
      Gone(display, s[r := i], m, i + 1, n, j);
    } else {
      Present(display, s[r := i], m, i + 1, n, j);
    }
  }

  /** Future: not yet arrived. */
  lemma {:induction false} Future(display: Display, slots: seq<nat>, m: nat, i: nat, n: nat, j: nat)
    requires Rearranges(display) && 1 <= m <= i <= j < n && |slots| == m
    requires AllBefore(slots, i)
    ensures Inclusion(display, slots, m, i, n, j) == Ratio(m, n - 1)
    decreases n - i, 0
  {
    var s := Shown(display, i, slots);
    SameBefore(slots, s, i);
    if i == j {
      Gone(display, s, m, i + 1, n, j);
      ArrivingSum(display, s, m, i, n, m);
      Enter(m, i, n);
    } else {
      Future(display, s, m, i + 1, n, j);
      FutureSum(display, s, m, i, n, j, m);
      Unmoved(m, i, Ratio(m, n - 1));
    }
  }

  lemma {:induction false} ArrivingSum(display: Display, s: seq<nat>, m: nat, i: nat, n: nat, k: nat)
    requires Rearranges(display) && 1 <= m <= i < n && |s| == m && k <= m
    requires AllBefore(s, i)
    ensures SlotSum(display, s, m, i, n, i, k) == Repeat(k, Ratio(i, n - 1))
    decreases n - i, 0, k
  {
    if k > 0 {
      ArrivingSum(display, s, m, i, n, k - 1);
      ReplaceTimes(s, k - 1, i, i);
      Present(display, s[k - 1 := i], m, i + 1, n, i);
    }
  }

  lemma {:induction false} FutureSum(display: Display, s: seq<nat>, m: nat, i: nat, n: nat, j: nat, k: nat)
    requires Rearranges(display) && 1 <= m <= i < j < n && |s| == m && k <= m
    requires AllBefore(s, i)
    ensures SlotSum(display, s, m, i, n, j, k) == Repeat(k, Ratio(m, n - 1))
    decreases n - i, 0, k
  {
    if k > 0 {
      FutureSum(display, s, m, i, n, j, k - 1);
      ReplaceBefore(s, k - 1, i);
      Future(display, s[k - 1 := i], m, i + 1, n, j);
    }
  }

  // ---------------------------------------------------------------- the whole experiment

  /** The first i arrivals, each in one slot. */
  ghost predicate Filled(slots: seq<nat>, i: nat) {
    && |slots| == i
    && forall x: nat :: Times(slots, x) == if x < i then 1 else 0
  }

  lemma {:induction false} Fill(display: Display, slots: seq<nat>, m: nat, i: nat, n: nat, j: nat)
    requires Rearranges(display) && m >= 1 && i <= m && i <= n && j < n && Filled(slots, i)
    ensures Inclusion(display, slots, m, i, n, j)
         == if n <= m then 1.0 else if j < m then Ratio(m - 1, n - 1) else Ratio(m, n - 1)
    decreases m - i
  {
    if i == n {
      assert Times(slots, j) == 1;
      assert j in slots;
    } else if i == m {
      if j < m {
        Present(display, slots, m, i, n, j);
      } else {
        Future(display, slots, m, i, n, j);
      }
    } else {
      var s := Shown(display, i, slots) + [i];
      forall x: nat ensures Times(s, x) == if x < i + 1 then 1 else 0 {
        assert Times(s, x) == Times(slots, x) + if x == i then 1 else 0;
      }
      Fill(display, s, m, i + 1, n, j);
    }
  }

  /** After n arrivals into a sample of m: all are in it while it is not overfull; from then on the
      first m arrivals are included with probability (m - 1)/(n - 1), all later ones with m/(n - 1). */
  lemma InclusionProbability(display: Display, m: nat, n: nat, j: nat)
    requires Rearranges(display) && m >= 1 && j < n
    ensures Inclusion(display, [], m, 0, n, j)
         == if n <= m then 1.0 else if j < m then Ratio(m - 1, n - 1) else Ratio(m, n - 1)
  {
    Fill(display, [], m, 0, n, j);
  }

  /** The comment in the source promises every measurement an equal chance. */
  ghost predicate EqualChances(display: Display, m: nat, n: nat)
    requires Rearranges(display) && m >= 1
  {
    forall j: nat, k: nat :: j < n && k < n ==>
      Inclusion(display, [], m, 0, n, j) == Inclusion(display, [], m, 0, n, k)
  }

  /** That holds exactly as long as nothing had to be replaced. */
  lemma EqualChancesExactly(display: Display, m: nat, n: nat)
    requires Rearranges(display) && m >= 1
    ensures EqualChances(display, m, n) <==> n <= m
  {
    forall j: nat | j < n ensures Inclusion(display, [], m, 0, n, j)
         == if n <= m then 1.0 else if j < m then Ratio(m - 1, n - 1) else Ratio(m, n - 1) {
      InclusionProbability(display, m, n, j);
    }
    if n > m {
      assert Ratio(m - 1, n - 1) * (n - 1) as real == (m - 1) as real;
      assert Ratio(m, n - 1) * (n - 1) as real == m as real;
      assert Inclusion(display, [], m, 0, n, 0) != Inclusion(display, [], m, 0, n, m);
    }
  }

  ghost function ExpectedSize(display: Display, m: nat, n: nat, k: nat): real
    requires Rearranges(display) && m >= 1 && k <= n
  {
    if k == 0 then 0.0 else ExpectedSize(display, m, n, k - 1) + Inclusion(display, [], m, 0, n, k - 1)
  }

  lemma {:induction false} ExpectedPrefix(display: Display, m: nat, n: nat, k: nat)
    requires Rearranges(display) && m >= 1 && k <= n && m < n
    ensures ExpectedSize(display, m, n, k)
         == if k <= m then Repeat(k, Ratio(m - 1, n - 1))
            else Repeat(m, Ratio(m - 1, n - 1)) + Repeat(k - m, Ratio(m, n - 1))
  {
    if k > 0 {
      ExpectedPrefix(display, m, n, k - 1);
      InclusionProbability(display, m, n, k - 1);
    }
  }

  /** The probabilities add up to the number of slots. */
  lemma ExpectedSizeIsM(display: Display, m: nat, n: nat)
    requires Rearranges(display) && 1 <= m < n
    ensures ExpectedSize(display, m, n, n) == m as real
  {
    ExpectedPrefix(display, m, n, n);
    RepeatIsProduct(m, Ratio(m - 1, n - 1));
    RepeatIsProduct(n - m, Ratio(m, n - 1));
    var u, mm, nn := 1.0 / (n - 1) as real, m as real, n as real;
    assert Ratio(m - 1, n - 1) == (mm - 1.0) * u && Ratio(m, n - 1) == mm * u;
    assert (nn - 1.0) * u == 1.0;
    assert mm * ((mm - 1.0) * u) + (nn - mm) * (mm * u) == mm * ((nn - 1.0) * u);
  }
}
