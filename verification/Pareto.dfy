/** The integer draws of src/pareto.hpp, with the random power as an arbitrary real divisor. */
module Pareto {

  /** `static_cast<int>` of a double. */
  function Truncate(x: real): int {
    if x >= 0.0 then x.Floor else -((-x).Floor)
  }

  /** `divisor` stands for pow(1 - u, -1/(h-1)) with u in [0, 1) and h > 1, which is at least 1. */
  function GetNext(a: int, b: int, divisor: real): int
    requires divisor != 0.0
  {
    a + Truncate((b - a + 1) as real / divisor)
  }

  lemma QuotientShrinks(x: real, d: real)
    requires x >= 0.0 && d >= 1.0
    ensures 0.0 <= x / d <= x
  {
    var q := x / d;
    assert q * d == x;
    assert q >= 0.0;
    assert q * (d - 1.0) >= 0.0;
  }

  /** GetNext(a, 0) never leaves [1, a]. */
  lemma GetNextInRange(a: int, divisor: real)
    requires a >= 1 && divisor >= 1.0
    ensures 1 <= GetNext(a, 0, divisor) <= a
  {
    var x := (a - 1) as real;
    QuotientShrinks(x, divisor);
    assert (1 - a) as real / divisor == -(x / divisor);
  }

  /** And it can return every value there. */
  lemma GetNextOnto(a: int, v: int) returns (divisor: real)
    requires 1 <= v <= a
    ensures divisor >= 1.0 && GetNext(a, 0, divisor) == v
  {
    if v == a {
      divisor := (a + 1) as real;
      var q := (a - 1) as real / divisor;
      QuotientShrinks((a - 1) as real, divisor);
      assert q * divisor == (a - 1) as real;
      assert q < 1.0;
      assert (1 - a) as real / divisor == -q;
    } else {
      var x, y := (a - 1) as real, (a - v) as real;
      divisor := x / y;
      assert divisor * y == x;
      assert x / divisor == y;
      assert (1 - a) as real / divisor == -y;
    }
  }
}
