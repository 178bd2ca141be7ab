/** src/RunningMean.cpp over the reals. */
module RunningMean {

  function Sum(s: seq<real>): real {
    if s == [] then 0.0 else Sum(s[..|s| - 1]) + s[|s| - 1]
  }

  /** Sums deviations from the first sample; `log` are the samples so far. */
  class RunningMean {
    var n: int
    var v1: real
    var running: real
    ghost var log: seq<real>

    ghost predicate Valid()
      reads this
    {
      && |log| == n >= 1 && log[0] == v1
      && running == Sum(log) - n as real * v1
    }

    constructor (v1: real)
      ensures Valid() && log == [v1]
    {
      this.v1 := v1;
      n := 1;
      running := 0.0;
      log := [v1];
      new;
      assert log[..0] == [];
    }

    method AddSample(vi: real)
      requires Valid()
      modifies this
      ensures Valid() && log == old(log) + [vi]
    {
      n := n + 1;
      running := running + (vi - v1);
      log := log + [vi];
      assert log[..|log| - 1] == old(log);
    }

    /** The exact arithmetic mean. */
    method Mean() returns (mean: real)
      requires Valid()
      ensures mean == Sum(log) / |log| as real
    {
      mean := v1 + running / n as real;
      Deviations(Sum(log), n, v1);
    }

    method Samples() returns (samples: int)
      requires Valid()
      ensures samples == |log|
    {
      samples := n;
    }
  }

  lemma Deviations(sum: real, n: int, v: real)
    requires n >= 1
    ensures v + (sum - n as real * v) / n as real == sum / n as real
  {
    var m := n as real;
    assert (sum - m * v) / m == sum / m - (m * v) / m;
    assert (m * v) / m == v;
  }
}
