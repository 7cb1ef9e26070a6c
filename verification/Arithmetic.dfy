/** The few facts about products and quotients that the other modules need. */
module Arithmetic {
  function Clamp(x: int, lo: int, hi: int): (r: int)
    ensures lo <= x <= hi ==> r == x
    ensures x <= lo <= hi ==> r == lo
    ensures lo <= hi <= x ==> r == hi
  {
    if x < lo then lo else if hi < x then hi else x
  }

  lemma Distribute(d: int, a: int, b: int)
    ensures d * (a + b) == d * a + d * b
  {
  }

  lemma ProductAtLeast(d: nat, e: nat)
    requires e >= 1
    ensures d * e >= d
  {
  }

  lemma ProductGap(d: nat, p: nat, q: nat)
    requires p < q
    ensures d * p + d <= d * q
  {
    Distribute(d, p, q - p);
    ProductAtLeast(d, q - p);
  }

  lemma QuotientUnique(n: int, d: nat, q: int, r: nat)
    requires r < d && n == d * q + r
    ensures n / d == q && n % d == r
  {
    var e := n / d - q;
    Distribute(d, q, e);
    assert d * e == r - n % d;
    if e >= 1 {
      ProductAtLeast(d, e);
    } else if e <= -1 {
      Distribute(d, e, -e);
      ProductAtLeast(d, -e);
    }
  }

  lemma RemainderOfSum(a: int, b: int, d: nat)
    requires d > 0
    ensures (a % d + b) % d == (a + b) % d
  {
    var s := a % d + b;
    Distribute(d, a / d, s / d);
    QuotientUnique(a + b, d, a / d + s / d, s % d);
  }

  lemma QuotientOfQuotient(n: nat, a: nat, b: nat)
    requires a > 0 && b > 0
    ensures a * b > 0 && n / a / b == n / (a * b)
  {
    var q, r, m := n / a / b, n / a % b, n % a;
    assert n / a == b * q + r;
    assert n == a * (b * q + r) + m;
    assert a * (b * q + r) == (a * b) * q + a * r;
    ProductGap(a, r, b);
    assert 0 <= a * r;
    QuotientUnique(n, a * b, q, a * r + m);
  }

  // Dropping the low base-a digit commutes with reducing modulo a * b.
  lemma RemainderOfQuotient(n: nat, a: nat, b: nat)
    requires a > 0 && b > 0
    ensures a * b > 0 && n % (a * b) / a == n / a % b && n % (a * b) % a == n % a
  {
    var q, r, m := n / a / b, n / a % b, n % a;
    assert n / a == b * q + r;
    assert n == a * (b * q + r) + m;
    assert a * (b * q + r) == (a * b) * q + a * r;
    ProductGap(a, r, b);
    assert 0 <= a * r;
    QuotientUnique(n, a * b, q, a * r + m);
    QuotientUnique(a * r + m, a, r, m);
  }
}
