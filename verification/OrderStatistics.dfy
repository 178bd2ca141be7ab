/**
 Order statistics of integer sequences, and the two library algorithms the statistics code runs on
 its buffers: sorting a range (`std::sort`) and moving the n-th smallest element into place
 (`std::nth_element`).
 */
module OrderStatistics {

  /** The number of elements smaller than x. */
  function CountBelow(s: seq<int>, x: int): nat {
    if s == [] then 0 else
    CountBelow(s[..|s| - 1], x) + if s[|s| - 1] < x then 1 else 0
  }

  /** x is the element of rank k (from 0) of the multiset s: at most k elements are smaller, more
      than k are not larger. */
  ghost predicate IsRank(s: seq<int>, k: nat, x: int) {
    CountBelow(s, x) <= k < CountBelow(s, x + 1)
  }

  ghost predicate Sorted(s: seq<int>) {
    forall i, j :: 0 <= i < j < |s| ==> s[i] <= s[j]
  }

  lemma {:induction false} CountMonotone(s: seq<int>, x: int, y: int)
    ensures x <= y ==> CountBelow(s, x) <= CountBelow(s, y)
    ensures CountBelow(s, x) <= |s|
  {
    if s != [] {
      CountMonotone(s[..|s| - 1], x, y);
    }
  }

  lemma {:induction false} CountConcat(a: seq<int>, b: seq<int>, x: int)
    ensures CountBelow(a + b, x) == CountBelow(a, x) + CountBelow(b, x)
  {
    if b == [] {
      assert a + b == a;
    } else {
      assert (a + b)[..|a + b| - 1] == a + b[..|b| - 1];
      CountConcat(a, b[..|b| - 1], x);
    }
  }

  /** Taking out one occurrence of x. */
  lemma RemoveOne<T>(s: seq<T>, x: T) returns (a: seq<T>, b: seq<T>)
    requires x in s
    ensures s == a + [x] + b && multiset(a + b) == multiset(s) - multiset{x}
  {
    var i :| 0 <= i < |s| && s[i] == x;
    a, b := s[..i], s[i + 1..];
    assert s == a + [x] + b;
    assert multiset(s) == multiset(a) + multiset{x} + multiset(b);
    assert multiset(a + b) == multiset(a) + multiset(b);
  }

  lemma {:induction false} CountPermutation(s: seq<int>, t: seq<int>, x: int)
    requires multiset(s) == multiset(t)
    ensures CountBelow(s, x) == CountBelow(t, x)
  {
    if s == [] {
      assert |multiset(t)| == 0;
    } else {
      var init, y := s[..|s| - 1], s[|s| - 1];
      assert s == init + [y];
      assert y in multiset(t);
      var a, b := RemoveOne(t, y);
      assert multiset(init) == multiset(s) - multiset{y};
      CountPermutation(init, a + b, x);
      CountConcat(a, b, x);
      CountConcat(a + [y], b, x);
      CountConcat(a, [y], x);
      CountConcat(init, [y], x);
    }
  }

  function Total(s: seq<int>): int {
    if s == [] then 0 else Total(s[..|s| - 1]) + s[|s| - 1]
  }

  lemma {:induction false} TotalConcat(a: seq<int>, b: seq<int>)
    ensures Total(a + b) == Total(a) + Total(b)
  {
    if b == [] {
      assert a + b == a;
    } else {
      assert (a + b)[..|a + b| - 1] == a + b[..|b| - 1];
      TotalConcat(a, b[..|b| - 1]);
    }
  }

  lemma {:induction false} TotalPermutation(s: seq<int>, t: seq<int>)
    requires multiset(s) == multiset(t)
    ensures |s| == |t| && Total(s) == Total(t)
  {
    assert |multiset(s)| == |s| && |multiset(t)| == |t|;
    if s != [] {
      var init, y := s[..|s| - 1], s[|s| - 1];
      assert s == init + [y];
      assert y in multiset(t);
      var a, b := RemoveOne(t, y);
      assert multiset(init) == multiset(s) - multiset{y};
      TotalPermutation(init, a + b);
      TotalConcat(a, b);
      TotalConcat(a + [y], b);
      TotalConcat(a, [y]);
      TotalConcat(init, [y]);
    }
  }

  /** The running maximum both statistics classes keep; it starts at 0. */
  function Max(s: seq<int>): int {
    if s == [] then 0 else
    var m := Max(s[..|s| - 1]);
    if m < s[|s| - 1] then s[|s| - 1] else m
  }

  lemma {:induction false} MaxIsBound(s: seq<int>)
    ensures Max(s) >= 0 && forall x :: x in s ==> x <= Max(s)
    ensures Max(s) == 0 || Max(s) in s
  {
    if s != [] {
      MaxIsBound(s[..|s| - 1]);
      assert s == s[..|s| - 1] + [s[|s| - 1]];
    }
  }

  lemma RankPermutation(s: seq<int>, t: seq<int>, k: nat, x: int)
    requires multiset(s) == multiset(t) && IsRank(s, k, x)
    ensures IsRank(t, k, x)
  {
    CountPermutation(s, t, x);
    CountPermutation(s, t, x + 1);
  }

  /** There is at most one element of each rank. */
  lemma RankUnique(s: seq<int>, k: nat, x: int, y: int)
    requires IsRank(s, k, x) && IsRank(s, k, y)
    ensures x == y
  {
    RankMonotone(s, k, k, x, y);
    RankMonotone(s, k, k, y, x);
  }

  lemma RankMonotone(s: seq<int>, j: nat, k: nat, x: int, y: int)
    requires j <= k && IsRank(s, j, x) && IsRank(s, k, y)
    ensures x <= y
  {
    CountMonotone(s, y + 1, x);
  }

  lemma {:induction false} CountLimits(s: seq<int>) returns (lo: int, hi: int)
    ensures lo < hi && CountBelow(s, lo) == 0 && CountBelow(s, hi) == |s|
  {
    if s == [] {
      lo, hi := 0, 1;
    } else {
      var x := s[|s| - 1];
      lo, hi := CountLimits(s[..|s| - 1]);
      var lo1, hi1 := if x < lo then x else lo, if x >= hi then x + 1 else hi;
      CountMonotone(s[..|s| - 1], lo1, lo);
      CountMonotone(s[..|s| - 1], hi, hi1);
      CountMonotone(s[..|s| - 1], hi1, hi1);
      lo, hi := lo1, hi1;
    }
  }

  lemma {:induction false} RankBetween(s: seq<int>, k: nat, lo: int, hi: int) returns (x: int)
    requires lo < hi && CountBelow(s, lo) <= k < CountBelow(s, hi)
    ensures IsRank(s, k, x)
    decreases hi - lo
  {
    if CountBelow(s, lo + 1) > k {
      x := lo;
    } else {
      x := RankBetween(s, k, lo + 1, hi);
    }
  }

  /** Every rank below the length has an element. */
  lemma RankExists(s: seq<int>, k: nat) returns (x: int)
    requires k < |s|
    ensures IsRank(s, k, x) && x in s
  {
    var lo, hi := CountLimits(s);
    x := RankBetween(s, k, lo, hi);
    RankElement(s, k, x);
  }

  /** The element of rank k occurs in s. */
  lemma {:induction false} RankElement(s: seq<int>, k: nat, x: int)
    requires IsRank(s, k, x)
    ensures x in s && k < |s|
  {
    CountMonotone(s, x + 1, x + 1);
    if s[|s| - 1] != x {
      RankElement(s[..|s| - 1], if s[|s| - 1] < x then k - 1 else k, x);
    }
  }

  ghost predicate IsLeast(s: seq<int>, x: int) {
    x in s && forall i :: 0 <= i < |s| ==> x <= s[i]
  }

  lemma {:induction false} CountPositive(s: seq<int>, i: nat, x: int)
    requires i < |s|
    ensures CountBelow(s, x) == 0 ==> x <= s[i]
  {
    if i < |s| - 1 {
      CountPositive(s[..|s| - 1], i, x);
    }
  }

  /** The element of rank 0 is the least one. */
  lemma LeastRank(s: seq<int>, x: int)
    requires s != [] && IsRank(s, 0, x)
    ensures IsLeast(s, x) && forall y :: IsLeast(s, y) ==> y == x
  {
    RankElement(s, 0, x);
    forall i | 0 <= i < |s| ensures x <= s[i] {
      CountPositive(s, i, x);
    }
  }

  lemma {:induction false} CountBounds(s: seq<int>, x: int)
    ensures (forall i :: 0 <= i < |s| ==> s[i] < x) ==> CountBelow(s, x) == |s|
    ensures (forall i :: 0 <= i < |s| ==> s[i] >= x) ==> CountBelow(s, x) == 0
  {
    if s != [] {
      CountBounds(s[..|s| - 1], x);
    }
  }

  /** Counting in a sequence split at k. */
  lemma CountSplit(s: seq<int>, k: nat, x: int)
    requires k <= |s|
    ensures CountBelow(s, x) == CountBelow(s[..k], x) + CountBelow(s[k..], x)
  {
    assert s == s[..k] + s[k..];
    CountConcat(s[..k], s[k..], x);
  }

  /** Sorting puts the element of rank k at index k. */
  lemma SortedRank(s: seq<int>, k: nat)
    requires Sorted(s) && k < |s|
    ensures IsRank(s, k, s[k])
  {
    var x := s[k];
    assert CountBelow(s, x) <= k by {
      CountSplit(s, k, x);
      CountBounds(s[k..], x);
      CountMonotone(s[..k], x, x);
    }
    assert CountBelow(s, x + 1) > k by {
      CountSplit(s, k + 1, x + 1);
      CountBounds(s[..k + 1], x + 1);
    }
  }

  // ---------------------------------------------------------------- std::sort

  lemma SwapPermutes(s: seq<int>, t: seq<int>, lo: nat, hi: nat, i: nat, j: nat)
    requires lo <= i < hi <= |s| == |t| && lo <= j < hi && t[i] == s[j] && t[j] == s[i]
    requires forall k :: 0 <= k < |s| && k != i && k != j ==> t[k] == s[k]
    ensures multiset(t[lo..hi]) == multiset(s[lo..hi])
  {
    assert t[lo..hi] == s[lo..hi][i - lo := s[j]][j - lo := s[i]];
  }

  method Swap(a: array<int>, lo: nat, hi: nat, i: nat, j: nat)
    requires lo <= i < hi <= a.Length && lo <= j < hi
    modifies a
    ensures a[i] == old(a[j]) && a[j] == old(a[i])
    ensures forall k :: 0 <= k < a.Length && k != i && k != j ==> a[k] == old(a[k])
    ensures multiset(a[lo..hi]) == old(multiset(a[lo..hi]))
  {
    ghost var before := a[..];
    a[i], a[j] := a[j], a[i];
    SwapPermutes(before, a[..], lo, hi, i, j);
    assert a[lo..hi] == a[..][lo..hi] && before[lo..hi] == old(a[lo..hi]);
  }

  method IndexOfMin(a: array<int>, lo: nat, hi: nat) returns (m: nat)
    requires lo < hi <= a.Length
    ensures lo <= m < hi && forall k :: lo <= k < hi ==> a[m] <= a[k]
  {
    m := lo;
    for i := lo to hi
      invariant lo <= m < hi && forall k :: lo <= k < i ==> a[m] <= a[k]
    {
      if a[i] < a[m] {
        m := i;
      }
    }
  }

  method Sort(a: array<int>, lo: nat, hi: nat)
    requires lo <= hi <= a.Length
    modifies a
    ensures Sorted(a[lo..hi]) && multiset(a[lo..hi]) == old(multiset(a[lo..hi]))
    ensures forall k :: 0 <= k < lo || hi <= k < a.Length ==> a[k] == old(a[k])
  {
    for i := lo to hi
      invariant multiset(a[lo..hi]) == old(multiset(a[lo..hi]))
      invariant forall k :: 0 <= k < lo || hi <= k < a.Length ==> a[k] == old(a[k])
      invariant forall j, k :: lo <= j < i && j < k < hi ==> a[j] <= a[k]
    {
      var m := IndexOfMin(a, i, hi);
      Swap(a, lo, hi, i, m);
    }
  }

  /** `std::nth_element`: a permutation with the right element at index nth. */
  method NthElement(a: array<int>, nth: nat)
    requires nth < a.Length
    modifies a
    ensures multiset(a[..]) == old(multiset(a[..]))
    ensures IsRank(old(a[..]), nth, a[nth])
    ensures forall i, j :: 0 <= i <= nth <= j < a.Length ==> a[i] <= a[j]
  {
    ghost var before := a[..];
    assert a[0..a.Length] == before;
    Sort(a, 0, a.Length);
    assert a[0..a.Length] == a[..];
    SortedRank(a[..], nth);
    RankPermutation(a[..], before, nth, a[nth]);
  }
}
