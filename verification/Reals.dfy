/** Absolute values, clipping, and how products and quotients of reals are ordered. */
module Reals {
  function Abs(x: real): real { if x < 0.0 then -x else x }

  function Max(x: real, y: real): real { if x < y then y else x }

  function Min(x: real, y: real): real { if x < y then x else y }

  function Clip(x: real, lo: real, hi: real): (r: real)
    ensures lo <= x <= hi ==> r == x
    ensures x <= lo <= hi ==> r == lo
    ensures lo <= hi <= x ==> r == hi
  {
    Min(Max(x, lo), hi)
  }

  predicate Between(a: real, x: real, b: real) { a <= x <= b || b <= x <= a }

  lemma ProductOfNonNegatives(x: real, y: real)
    requires x >= 0.0 && y >= 0.0
    ensures x * y >= 0.0
  {
  }

  lemma ProductMonotone(x: real, y: real, z: real)
    requires x <= y && z >= 0.0
    ensures x * z <= y * z
  {
    ProductOfNonNegatives(y - x, z);
    assert (y - x) * z == y * z - x * z;
  }

  lemma QuotientMonotone(x: real, y: real, d: real)
    requires x <= y && d > 0.0
    ensures x / d <= y / d
    ensures (y - x) / d == y / d - x / d
  {
  }

  lemma ScaleKeepsSign(k: real, e: real)
    requires k >= 0.0
    ensures Abs(k * e) == k * Abs(e)
    ensures e >= 0.0 ==> k * e >= 0.0
    ensures e <= 0.0 ==> k * e <= 0.0
  {
    ProductOfNonNegatives(k, Abs(e));
    assert k * -e == -(k * e);
  }
}
