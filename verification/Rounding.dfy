/** The two roundings the system uses: halves away from zero in the driver, to even in the tools. */
module Rounding {
  // std::llround
  function HalfAway(x: real): int {
    if x >= 0.0 then (x + 0.5).Floor else -((0.5 - x).Floor)
  }

  // Python's round
  function HalfEven(x: real): int {
    var f := x.Floor;
    if x - f as real < 0.5 then f
    else if x - f as real > 0.5 then f + 1
    else if f % 2 == 0 then f else f + 1
  }

  lemma FloorUnique(x: real, n: int)
    requires n as real <= x < n as real + 1.0
    ensures x.Floor == n
  {
  }

  lemma NearestAway(x: real)
    ensures -0.5 <= HalfAway(x) as real - x <= 0.5
    ensures HalfAway(x) as real - x == 0.5 ==> x > 0.0
    ensures HalfAway(x) as real - x == -0.5 ==> x < 0.0
  {
  }

  lemma NearestEven(x: real)
    ensures -0.5 <= HalfEven(x) as real - x <= 0.5
  {
  }

  predicate Halfway(x: real) { x - x.Floor as real == 0.5 }

  // HalfAway by the fraction of x, in the way HalfEven is defined.
  lemma AwayByFraction(x: real)
    ensures var f, d := x.Floor, x - x.Floor as real;
            HalfAway(x) == if d < 0.5 || (d == 0.5 && x < 0.0) then f else f + 1
  {
    var f, d := x.Floor, x - x.Floor as real;
    if x >= 0.0 {
      FloorUnique(x + 0.5, if d < 0.5 then f else f + 1);
    } else {
      FloorUnique(0.5 - x, if d <= 0.5 then -f else -f - 1);
    }
  }

  // The roundings are at most one apart, and differ exactly at the halves whose neighbour away
  // from zero is odd.
  lemma RoundingsDiffer(x: real)
    ensures -1 <= HalfAway(x) - HalfEven(x) <= 1
    ensures HalfAway(x) != HalfEven(x) <==> Halfway(x) && HalfAway(x) % 2 != 0
  {
    hide HalfAway;
    AwayByFraction(x);
  }

  lemma AwayMonotone(x: real, y: real)
    requires x <= y
    ensures HalfAway(x) <= HalfAway(y)
  {
    NearestAway(x);
    NearestAway(y);
  }

  lemma EvenMonotone(x: real, y: real)
    requires x <= y
    ensures HalfEven(x) <= HalfEven(y)
  {
    NearestEven(x);
    NearestEven(y);
  }

  lemma CloseToInteger(x: real, n: int)
    requires -0.5 < x - n as real < 0.5
    ensures HalfAway(x) == n && HalfEven(x) == n
  {
    NearestAway(x);
    NearestEven(x);
    assert (HalfAway(x) - n) as real == HalfAway(x) as real - n as real;
    assert (HalfEven(x) - n) as real == HalfEven(x) as real - n as real;
  }
}
