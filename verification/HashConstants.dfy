/** The constants of FIPS 180-4, and that they are what the standard says: roots of the first primes. */
module HashConstants {
  import opened Arithmetic

  type Word = bv32

  // FIPS 180-4 section 4.2.2, eight at a time.
  function ConstantRow(r: nat): (s: seq<Word>)
    requires r < 8
    ensures |s| == 8
  {
    match r
    case 0 => [0x428a2f98, 0x71374491, 0xb5c0fbcf, 0xe9b5dba5,
               0x3956c25b, 0x59f111f1, 0x923f82a4, 0xab1c5ed5]
    case 1 => [0xd807aa98, 0x12835b01, 0x243185be, 0x550c7dc3,
               0x72be5d74, 0x80deb1fe, 0x9bdc06a7, 0xc19bf174]
    case 2 => [0xe49b69c1, 0xefbe4786, 0x0fc19dc6, 0x240ca1cc,
               0x2de92c6f, 0x4a7484aa, 0x5cb0a9dc, 0x76f988da]
    case 3 => [0x983e5152, 0xa831c66d, 0xb00327c8, 0xbf597fc7,
               0xc6e00bf3, 0xd5a79147, 0x06ca6351, 0x14292967]
    case 4 => [0x27b70a85, 0x2e1b2138, 0x4d2c6dfc, 0x53380d13,
               0x650a7354, 0x766a0abb, 0x81c2c92e, 0x92722c85]
    case 5 => [0xa2bfe8a1, 0xa81a664b, 0xc24b8b70, 0xc76c51a3,
               0xd192e819, 0xd6990624, 0xf40e3585, 0x106aa070]
    case 6 => [0x19a4c116, 0x1e376c08, 0x2748774c, 0x34b0bcb5,
               0x391c0cb3, 0x4ed8aa4a, 0x5b9cca4f, 0x682e6ff3]
    case _ => [0x748f82ee, 0x78a5636f, 0x84c87814, 0x8cc70208,
               0x90befffa, 0xa4506ceb, 0xbef9a3f7, 0xc67178f2]
  }

  function RoundConstant(t: nat): Word
    requires t < 64
  {
    ConstantRow(t / 8)[t % 8]
  }

  // FIPS 180-4 section 5.3.3.
  function InitialHash(): (h: seq<Word>)
    ensures |h| == 8
  {
    [0x6a09e667, 0xbb67ae85, 0x3c6ef372, 0xa54ff53a,
     0x510e527f, 0x9b05688c, 0x1f83d9ab, 0x5be0cd19]
  }

  // The t-th prime, from 0.
  function PrimeOf(t: nat): nat
    requires t < 64
  {
    match t
    case 0 => 2 case 1 => 3 case 2 => 5 case 3 => 7 case 4 => 11 case 5 => 13
    case 6 => 17 case 7 => 19 case 8 => 23 case 9 => 29 case 10 => 31 case 11 => 37
    case 12 => 41 case 13 => 43 case 14 => 47 case 15 => 53 case 16 => 59 case 17 => 61
    case 18 => 67 case 19 => 71 case 20 => 73 case 21 => 79 case 22 => 83 case 23 => 89
    case 24 => 97 case 25 => 101 case 26 => 103 case 27 => 107 case 28 => 109 case 29 => 113
    case 30 => 127 case 31 => 131 case 32 => 137 case 33 => 139 case 34 => 149 case 35 => 151
    case 36 => 157 case 37 => 163 case 38 => 167 case 39 => 173 case 40 => 179 case 41 => 181
    case 42 => 191 case 43 => 193 case 44 => 197 case 45 => 199 case 46 => 211 case 47 => 223
    case 48 => 227 case 49 => 229 case 50 => 233 case 51 => 239 case 52 => 241 case 53 => 251
    case 54 => 257 case 55 => 263 case 56 => 269 case 57 => 271 case 58 => 277 case 59 => 281
    case 60 => 283 case 61 => 293 case 62 => 307 case 63 => 311
  }

  ghost predicate Prime(p: nat) { p >= 2 && forall d :: 2 <= d < p ==> p % d != 0 }

  predicate HasSmallFactor(n: nat) {
    || n % 2 == 0 || n % 3 == 0 || n % 5 == 0 || n % 7 == 0 || n % 11 == 0 || n % 13 == 0
    || n % 17 == 0
  }

  lemma FactorOfFactor(n: nat, d: nat, s: nat)
    requires d > 0 && s > 0 && n % d == 0 && d % s == 0
    ensures n % s == 0
  {
    var m, q := d / s, n / d;
    assert d == s * m && n == d * q;
    assert s * m * q == s * (m * q);
    QuotientUnique(n, s, m * q, 0);
  }

  lemma SmallDivisor(n: nat, d: nat)
    requires 2 <= d <= 18 && n % d == 0
    ensures HasSmallFactor(n)
  {
    if d % 2 == 0 {
      FactorOfFactor(n, d, 2);
    } else if d % 3 == 0 {
      FactorOfFactor(n, d, 3);
    }
  }

  lemma ProductAbove(a: nat, b: nat)
    requires a > 18 && b > 18
    ensures a * b >= 361
  {
    ProductGap(a, 18, b);
  }

  lemma Cofactor(n: nat, d: nat) returns (q: nat)
    requires 18 < d < n < 361 && n % d == 0
    ensures 2 <= q <= 18 && n % q == 0
  {
    q := n / d;
    assert n == d * q;
    if q > 18 {
      ProductAbove(d, q);
    } else {
      QuotientUnique(n, q, d, 0);
    }
  }

  // Below 19 * 19, trial division by the primes to 17 decides.
  lemma TrialDivision(n: nat)
    requires 17 < n < 361
    ensures Prime(n) <==> !HasSmallFactor(n)
  {
    forall d | 2 <= d < n && n % d == 0 ensures HasSmallFactor(n) {
      if d <= 18 {
        SmallDivisor(n, d);
      } else {
        var q := Cofactor(n, d);
        SmallDivisor(n, q);
      }
    }
  }

  lemma FirstPrimes(n: nat)
    requires 2 <= n <= 18
    ensures Prime(n) <==> n == 2 || n == 3 || n == 5 || n == 7 || n == 11 || n == 13 || n == 17
  {
    assert n % 2 == 0 ==> n == 2 || !Prime(n);
    assert n % 3 == 0 ==> n == 3 || !Prime(n);
  }

  // q is the first prime after p.
  ghost predicate NextPrime(p: nat, q: nat) {
    p < q && Prime(q) && forall n :: p < n < q ==> !Prime(n)
  }

  // Every second number from n to q has a small factor.
  predicate OddsFactor(n: nat, q: nat)
    decreases q - n
  {
    n >= q || (HasSmallFactor(n) && OddsFactor(n + 2, q))
  }

  predicate NextByTrial(p: nat, q: nat) {
    17 <= p < q < 361 && p % 2 == 1 && !HasSmallFactor(q) && OddsFactor(p + 2, q)
  }

  lemma {:induction false} OddsFactorMeans(n: nat, q: nat, m: nat)
    requires OddsFactor(n, q) && n % 2 == 1 && n - 1 <= m < q
    ensures HasSmallFactor(m)
    decreases q - n
  {
    hide HasSmallFactor;
    if m % 2 == 0 {
      TwoIsSmall(m);
    } else if n < m {
      OddsFactorMeans(n + 2, q, m);
    }
  }

  lemma TwoIsSmall(n: nat)
    requires n % 2 == 0
    ensures HasSmallFactor(n)
  {
  }

  lemma TrialFindsNext(p: nat, q: nat)
    requires NextByTrial(p, q)
    ensures NextPrime(p, q)
  {
    hide HasSmallFactor, OddsFactor, Prime;
    TrialDivision(q);
    forall n | p < n < q ensures !Prime(n) {
      OddsFactorMeans(p + 2, q, n);
      TrialDivision(n);
    }
  }

  lemma TrialTo17(t: nat)
    requires 7 <= t < 17
    ensures NextByTrial(PrimeOf(t - 1), PrimeOf(t))
  {
    assert NextByTrial(17, 19) && NextByTrial(19, 23) && NextByTrial(23, 29) && NextByTrial(29, 31)
           && NextByTrial(31, 37) && NextByTrial(37, 41) && NextByTrial(41, 43) && NextByTrial(43, 47)
           && NextByTrial(47, 53) && NextByTrial(53, 59);
  }

  lemma TrialTo27(t: nat)
    requires 17 <= t < 27
    ensures NextByTrial(PrimeOf(t - 1), PrimeOf(t))
  {
    assert NextByTrial(59, 61) && NextByTrial(61, 67) && NextByTrial(67, 71) && NextByTrial(71, 73)
           && NextByTrial(73, 79) && NextByTrial(79, 83) && NextByTrial(83, 89) && NextByTrial(89, 97)
           && NextByTrial(97, 101) && NextByTrial(101, 103);
  }

  lemma TrialTo37(t: nat)
    requires 27 <= t < 37
    ensures NextByTrial(PrimeOf(t - 1), PrimeOf(t))
  {
    assert NextByTrial(103, 107) && NextByTrial(107, 109) && NextByTrial(109, 113) && NextByTrial(113, 127)
           && NextByTrial(127, 131) && NextByTrial(131, 137) && NextByTrial(137, 139) && NextByTrial(139, 149)
           && NextByTrial(149, 151) && NextByTrial(151, 157);
  }

  lemma TrialTo46(t: nat)
    requires 37 <= t < 46
    ensures NextByTrial(PrimeOf(t - 1), PrimeOf(t))
  {
    assert NextByTrial(157, 163) && NextByTrial(163, 167) && NextByTrial(167, 173) && NextByTrial(173, 179)
           && NextByTrial(179, 181) && NextByTrial(181, 191) && NextByTrial(191, 193) && NextByTrial(193, 197)
           && NextByTrial(197, 199);
  }

  lemma TrialTo55(t: nat)
    requires 46 <= t < 55
    ensures NextByTrial(PrimeOf(t - 1), PrimeOf(t))
  {
    assert NextByTrial(199, 211) && NextByTrial(211, 223) && NextByTrial(223, 227) && NextByTrial(227, 229)
           && NextByTrial(229, 233) && NextByTrial(233, 239) && NextByTrial(239, 241) && NextByTrial(241, 251)
           && NextByTrial(251, 257);
  }

  lemma TrialTo64(t: nat)
    requires 55 <= t < 64
    ensures NextByTrial(PrimeOf(t - 1), PrimeOf(t))
  {
    assert NextByTrial(257, 263) && NextByTrial(263, 269) && NextByTrial(269, 271) && NextByTrial(271, 277)
           && NextByTrial(277, 281) && NextByTrial(281, 283) && NextByTrial(283, 293) && NextByTrial(293, 307)
           && NextByTrial(307, 311);
  }

  lemma SmallPrimesInOrder(t: nat)
    requires t < 7
    ensures if t == 0 then PrimeOf(t) == 2 else NextPrime(PrimeOf(t - 1), PrimeOf(t))
  {
    hide Prime;
    FirstPrimes(PrimeOf(t));
    if t > 0 {
      forall n | PrimeOf(t - 1) < n < PrimeOf(t) ensures !Prime(n) {
        FirstPrimes(n);
      }
    }
  }

  // The table lists the primes from 2 on, none left out.
  lemma PrimesInOrder(t: nat)
    requires t < 64
    ensures if t == 0 then PrimeOf(t) == 2 else NextPrime(PrimeOf(t - 1), PrimeOf(t))
  {
    hide PrimeOf, NextByTrial, NextPrime;
    if t < 7 {
      SmallPrimesInOrder(t);
    } else {
      if t < 17 {
        TrialTo17(t);
      } else if t < 27 {
        TrialTo27(t);
      } else if t < 37 {
        TrialTo37(t);
      } else if t < 46 {
        TrialTo46(t);
      } else if t < 55 {
        TrialTo55(t);
      } else {
        TrialTo64(t);
      }
      TrialFindsNext(PrimeOf(t - 1), PrimeOf(t));
    }
  }

  // ------------------------------------------------------------------------------- roots

  // A whole part and the first 32 binary places of a fraction, as an integer.
  function Fixed(whole: nat, fraction: nat): nat { whole * 0x1_0000_0000 + fraction }

  function Square(x: nat): nat { x * x }

  function Cube(x: nat): nat { x * x * x }

  predicate CubeRootIs(p: nat, whole: nat, fraction: nat) {
    var x := Fixed(whole, fraction);
    Cube(x) <= p * 0x1_0000_0000_0000_0000_0000_0000 < Cube(x + 1)
  }

  predicate SquareRootIs(p: nat, whole: nat, fraction: nat) {
    var x := Fixed(whole, fraction);
    Square(x) <= p * 0x1_0000_0000_0000_0000 < Square(x + 1)
  }

  // The first 32 binary places after the point of the cube root, or the square root, of p.
  ghost predicate IsCubeRootFraction(p: nat, k: nat) {
    k < 0x1_0000_0000 && exists w: nat :: CubeRootIs(p, w, k)
  }

  ghost predicate IsSquareRootFraction(p: nat, h: nat) {
    h < 0x1_0000_0000 && exists w: nat :: SquareRootIs(p, w, h)
  }

  lemma CubeRootInRow0(i: nat)
    requires i < 8
    ensures IsCubeRootFraction(PrimeOf(0 + i), ConstantRow(0)[i] as nat)
  {
    match i
    case 0 => assert CubeRootIs(2, 1, ConstantRow(0)[0] as nat);
    case 1 => assert CubeRootIs(3, 1, ConstantRow(0)[1] as nat);
    case 2 => assert CubeRootIs(5, 1, ConstantRow(0)[2] as nat);
    case 3 => assert CubeRootIs(7, 1, ConstantRow(0)[3] as nat);
    case 4 => assert CubeRootIs(11, 2, ConstantRow(0)[4] as nat);
    case 5 => assert CubeRootIs(13, 2, ConstantRow(0)[5] as nat);
    case 6 => assert CubeRootIs(17, 2, ConstantRow(0)[6] as nat);
    case _ => assert CubeRootIs(19, 2, ConstantRow(0)[7] as nat);
  }

  lemma CubeRootInRow1(i: nat)
    requires i < 8
    ensures IsCubeRootFraction(PrimeOf(8 + i), ConstantRow(1)[i] as nat)
  {
    match i
    case 0 => assert CubeRootIs(23, 2, ConstantRow(1)[0] as nat);
    case 1 => assert CubeRootIs(29, 3, ConstantRow(1)[1] as nat);
    case 2 => assert CubeRootIs(31, 3, ConstantRow(1)[2] as nat);
    case 3 => assert CubeRootIs(37, 3, ConstantRow(1)[3] as nat);
    case 4 => assert CubeRootIs(41, 3, ConstantRow(1)[4] as nat);
    case 5 => assert CubeRootIs(43, 3, ConstantRow(1)[5] as nat);
    case 6 => assert CubeRootIs(47, 3, ConstantRow(1)[6] as nat);
    case _ => assert CubeRootIs(53, 3, ConstantRow(1)[7] as nat);
  }

  lemma CubeRootInRow2(i: nat)
    requires i < 8
    ensures IsCubeRootFraction(PrimeOf(16 + i), ConstantRow(2)[i] as nat)
  {
    match i
    case 0 => assert CubeRootIs(59, 3, ConstantRow(2)[0] as nat);
    case 1 => assert CubeRootIs(61, 3, ConstantRow(2)[1] as nat);
    case 2 => assert CubeRootIs(67, 4, ConstantRow(2)[2] as nat);
    case 3 => assert CubeRootIs(71, 4, ConstantRow(2)[3] as nat);
    case 4 => assert CubeRootIs(73, 4, ConstantRow(2)[4] as nat);
    case 5 => assert CubeRootIs(79, 4, ConstantRow(2)[5] as nat);
    case 6 => assert CubeRootIs(83, 4, ConstantRow(2)[6] as nat);
    case _ => assert CubeRootIs(89, 4, ConstantRow(2)[7] as nat);
  }

  lemma CubeRootInRow3(i: nat)
    requires i < 8
    ensures IsCubeRootFraction(PrimeOf(24 + i), ConstantRow(3)[i] as nat)
  {
    match i
    case 0 => assert CubeRootIs(97, 4, ConstantRow(3)[0] as nat);
    case 1 => assert CubeRootIs(101, 4, ConstantRow(3)[1] as nat);
    case 2 => assert CubeRootIs(103, 4, ConstantRow(3)[2] as nat);
    case 3 => assert CubeRootIs(107, 4, ConstantRow(3)[3] as nat);
    case 4 => assert CubeRootIs(109, 4, ConstantRow(3)[4] as nat);
    case 5 => assert CubeRootIs(113, 4, ConstantRow(3)[5] as nat);
    case 6 => assert CubeRootIs(127, 5, ConstantRow(3)[6] as nat);
    case _ => assert CubeRootIs(131, 5, ConstantRow(3)[7] as nat);
  }

  lemma CubeRootInRow4(i: nat)
    requires i < 8
    ensures IsCubeRootFraction(PrimeOf(32 + i), ConstantRow(4)[i] as nat)
  {
    match i
    case 0 => assert CubeRootIs(137, 5, ConstantRow(4)[0] as nat);
    case 1 => assert CubeRootIs(139, 5, ConstantRow(4)[1] as nat);
    case 2 => assert CubeRootIs(149, 5, ConstantRow(4)[2] as nat);
    case 3 => assert CubeRootIs(151, 5, ConstantRow(4)[3] as nat);
    case 4 => assert CubeRootIs(157, 5, ConstantRow(4)[4] as nat);
    case 5 => assert CubeRootIs(163, 5, ConstantRow(4)[5] as nat);
    case 6 => assert CubeRootIs(167, 5, ConstantRow(4)[6] as nat);
    case _ => assert CubeRootIs(173, 5, ConstantRow(4)[7] as nat);
  }

  lemma CubeRootInRow5(i: nat)
    requires i < 8
    ensures IsCubeRootFraction(PrimeOf(40 + i), ConstantRow(5)[i] as nat)
  {
    match i
    case 0 => assert CubeRootIs(179, 5, ConstantRow(5)[0] as nat);
    case 1 => assert CubeRootIs(181, 5, ConstantRow(5)[1] as nat);
    case 2 => assert CubeRootIs(191, 5, ConstantRow(5)[2] as nat);
    case 3 => assert CubeRootIs(193, 5, ConstantRow(5)[3] as nat);
    case 4 => assert CubeRootIs(197, 5, ConstantRow(5)[4] as nat);
    case 5 => assert CubeRootIs(199, 5, ConstantRow(5)[5] as nat);
    case 6 => assert CubeRootIs(211, 5, ConstantRow(5)[6] as nat);
    case _ => assert CubeRootIs(223, 6, ConstantRow(5)[7] as nat);
  }

  lemma CubeRootInRow6(i: nat)
    requires i < 8
    ensures IsCubeRootFraction(PrimeOf(48 + i), ConstantRow(6)[i] as nat)
  {
    match i
    case 0 => assert CubeRootIs(227, 6, ConstantRow(6)[0] as nat);
    case 1 => assert CubeRootIs(229, 6, ConstantRow(6)[1] as nat);
    case 2 => assert CubeRootIs(233, 6, ConstantRow(6)[2] as nat);
    case 3 => assert CubeRootIs(239, 6, ConstantRow(6)[3] as nat);
    case 4 => assert CubeRootIs(241, 6, ConstantRow(6)[4] as nat);
    case 5 => assert CubeRootIs(251, 6, ConstantRow(6)[5] as nat);
    case 6 => assert CubeRootIs(257, 6, ConstantRow(6)[6] as nat);
    case _ => assert CubeRootIs(263, 6, ConstantRow(6)[7] as nat);
  }

  lemma CubeRootInRow7(i: nat)
    requires i < 8
    ensures IsCubeRootFraction(PrimeOf(56 + i), ConstantRow(7)[i] as nat)
  {
    match i
    case 0 => assert CubeRootIs(269, 6, ConstantRow(7)[0] as nat);
    case 1 => assert CubeRootIs(271, 6, ConstantRow(7)[1] as nat);
    case 2 => assert CubeRootIs(277, 6, ConstantRow(7)[2] as nat);
    case 3 => assert CubeRootIs(281, 6, ConstantRow(7)[3] as nat);
    case 4 => assert CubeRootIs(283, 6, ConstantRow(7)[4] as nat);
    case 5 => assert CubeRootIs(293, 6, ConstantRow(7)[5] as nat);
    case 6 => assert CubeRootIs(307, 6, ConstantRow(7)[6] as nat);
    case _ => assert CubeRootIs(311, 6, ConstantRow(7)[7] as nat);
  }

  // The round constants are what section 4.2.2 defines: the first 32 bits of the fractional parts
  // of the cube roots of the first 64 primes.
  lemma RoundConstantsAreRoots(t: nat)
    requires t < 64
    ensures if t == 0 then PrimeOf(t) == 2 else NextPrime(PrimeOf(t - 1), PrimeOf(t))
    ensures IsCubeRootFraction(PrimeOf(t), RoundConstant(t) as nat)
  {
    hide PrimeOf, ConstantRow, NextPrime, IsCubeRootFraction;
    PrimesInOrder(t);
    match t / 8
    case 0 => CubeRootInRow0(t % 8);
    case 1 => CubeRootInRow1(t % 8);
    case 2 => CubeRootInRow2(t % 8);
    case 3 => CubeRootInRow3(t % 8);
    case 4 => CubeRootInRow4(t % 8);
    case 5 => CubeRootInRow5(t % 8);
    case 6 => CubeRootInRow6(t % 8);
    case _ => CubeRootInRow7(t % 8);
  }

  // And the initial hash value that of section 5.3.3: the same of the square roots of the first
  // eight.
  lemma InitialHashIsRoots(t: nat)
    requires t < 8
    ensures if t == 0 then PrimeOf(t) == 2 else NextPrime(PrimeOf(t - 1), PrimeOf(t))
    ensures IsSquareRootFraction(PrimeOf(t), InitialHash()[t] as nat)
  {
    hide NextPrime;
    PrimesInOrder(t);
    EightRoots();
  }

  lemma EightRoots()
    ensures SquareRootIs(2, 1, InitialHash()[0] as nat) && SquareRootIs(3, 1, InitialHash()[1] as nat)
    ensures SquareRootIs(5, 2, InitialHash()[2] as nat) && SquareRootIs(7, 2, InitialHash()[3] as nat)
    ensures SquareRootIs(11, 3, InitialHash()[4] as nat) && SquareRootIs(13, 3, InitialHash()[5] as nat)
    ensures SquareRootIs(17, 4, InitialHash()[6] as nat) && SquareRootIs(19, 4, InitialHash()[7] as nat)
  {
  }
}
