/** The cubic smoothstep that both pose ramps follow. */
module Smoothstep {
  import opened Poses
  import opened Reals

  function Smooth(u: real): real { u * u * (3.0 - 2.0 * u) }

  function Lerp(a: real, b: real, s: real): real { a + s * (b - a) }

  function LerpPose(a: Pose, b: Pose, s: real): Pose {
    seq(NUM_JOINTS, i requires 0 <= i < NUM_JOINTS => Lerp(a[i], b[i], s))
  }

  // The target of ramp step k of n.
  function RampPoint(start: Pose, goal: Pose, k: nat, n: nat): Pose {
    LerpPose(start, goal, Smooth(if n == 0 then 1.0 else k as real / n as real))
  }

  lemma SlopeBounds(w: real, u: real)
    requires 0.0 <= w <= 1.0 && 0.0 <= u <= 1.0
    ensures 0.0 <= 3.0 * (u + w) - 2.0 * (u * u + u * w + w * w) <= 1.5
  {
    var uu, uw, ww := u * u, u * w, w * w;
    ProductOfNonNegatives(u, 1.0 - u);
    ProductOfNonNegatives(w, 1.0 - w);
    ProductOfNonNegatives(u, 1.0 - w);
    ProductOfNonNegatives(w, 1.0 - u);
    assert u * (1.0 - u) == u - uu && w * (1.0 - w) == w - ww;
    assert u * (1.0 - w) == u - uw && w * (1.0 - u) == w - uw;
    var m, d := u + w - 1.0, u - w;
    assert m * m >= 0.0 && d * d >= 0.0;
    assert m * m == uu + 2.0 * uw + ww - 2.0 * u - 2.0 * w + 1.0;
    assert d * d == uu - 2.0 * uw + ww;
  }

  // On [0,1] the curve rises, and never faster than 3/2.
  lemma SmoothSlope(w: real, u: real)
    requires 0.0 <= w <= u <= 1.0
    ensures 0.0 <= Smooth(u) - Smooth(w) <= 1.5 * (u - w)
  {
    var slope := 3.0 * (u + w) - 2.0 * (u * u + u * w + w * w);
    assert Smooth(u) - Smooth(w) == slope * (u - w);
    SlopeBounds(w, u);
    ProductMonotone(0.0, slope, u - w);
    ProductMonotone(slope, 1.5, u - w);
  }

  lemma SmoothEnds(u: real)
    requires 0.0 <= u <= 1.0
    ensures Smooth(0.0) == 0.0 && Smooth(1.0) == 1.0 && 0.0 <= Smooth(u) <= 1.0
  {
    SmoothSlope(0.0, u);
    SmoothSlope(u, 1.0);
  }

  lemma LerpDifference(a: real, b: real, s: real, t: real)
    ensures Lerp(a, b, t) - Lerp(a, b, s) == (t - s) * (b - a)
  {
  }

  // From s to a later t the point moves towards b, by that share of the distance.
  lemma LerpForward(a: real, b: real, s: real, t: real)
    requires s <= t
    ensures a <= b ==> Lerp(a, b, s) <= Lerp(a, b, t)
    ensures a >= b ==> Lerp(a, b, s) >= Lerp(a, b, t)
    ensures Abs(Lerp(a, b, t) - Lerp(a, b, s)) == (t - s) * Abs(b - a)
  {
    hide Lerp;
    var k, d := t - s, b - a;
    LerpDifference(a, b, s, t);
    ScaleKeepsSign(k, d);
    assert Lerp(a, b, t) - Lerp(a, b, s) == k * d;
  }

  lemma LerpOrdered(a: real, b: real, s: real, t: real)
    requires 0.0 <= s <= t <= 1.0
    ensures var x, y := Lerp(a, b, s), Lerp(a, b, t);
            Between(a, x, y) && Between(x, y, b) && Abs(y - x) == (t - s) * Abs(b - a)
  {
    hide Lerp, Abs;
    LerpForward(a, b, s, t);
    LerpForward(a, b, 0.0, s);
    LerpForward(a, b, t, 1.0);
    LerpEnds(a, b);
  }

  lemma LerpEnds(a: real, b: real)
    ensures Lerp(a, b, 0.0) == a && Lerp(a, b, 1.0) == b
  {
  }

  // Moving along the curve from parameter w to u: the point stays between the ends, moves
  // towards b only, and by at most 3/2 of the parameter's share of the distance.
  lemma LerpMoves(a: real, b: real, w: real, u: real)
    requires 0.0 <= w <= u <= 1.0
    ensures var x, y := Lerp(a, b, Smooth(w)), Lerp(a, b, Smooth(u));
            && Between(a, x, y) && Between(x, y, b)
            && Abs(y - x) <= 1.5 * (u - w) * Abs(b - a)
  {
    hide Smooth, Lerp;
    SmoothSlope(w, u);
    SmoothEnds(w);
    SmoothEnds(u);
    LerpOrdered(a, b, Smooth(w), Smooth(u));
    ProductMonotone(Smooth(u) - Smooth(w), 1.5 * (u - w), Abs(b - a));
  }

  lemma StepFraction(j: nat, k: nat, n: nat)
    requires j <= k <= n && n > 0
    ensures 0.0 <= j as real / n as real <= k as real / n as real <= 1.0
    ensures k as real / n as real - j as real / n as real == (k - j) as real / n as real
    ensures k == n ==> k as real / n as real == 1.0
  {
    QuotientMonotone(0.0, j as real, n as real);
    QuotientMonotone(j as real, k as real, n as real);
    QuotientMonotone(k as real, n as real, n as real);
  }

  // Steps j <= k of an n-step ramp: in order along every joint, between start and goal, and no
  // further apart than 3/2 of (k-j)/n of the whole distance. The last step is the goal itself.
  lemma RampSteps(start: Pose, goal: Pose, j: nat, k: nat, n: nat, i: nat)
    requires j <= k <= n && n > 0 && i < NUM_JOINTS
    ensures var x, y := RampPoint(start, goal, j, n)[i], RampPoint(start, goal, k, n)[i];
            && Between(start[i], x, y) && Between(x, y, goal[i])
            && Abs(y - x) <= 1.5 * ((k - j) as real / n as real) * Abs(goal[i] - start[i])
    ensures k == n ==> RampPoint(start, goal, k, n) == goal
  {
    hide Smooth;
    StepFraction(j, k, n);
    LerpMoves(start[i], goal[i], j as real / n as real, k as real / n as real);
    if k == n {
      SmoothEnds(1.0);
      assert forall q :: 0 <= q < NUM_JOINTS ==> Lerp(start[q], goal[q], 1.0) == goal[q];
    }
  }

  // The curve leaves the start and reaches the goal with no speed: near either end the way left is
  // of second order. Seen from the goal it is the same curve.
  lemma EasesInAndOut(u: real)
    requires 0.0 <= u <= 1.0
    ensures 0.0 <= Smooth(u) <= 3.0 * (u * u)
    ensures 0.0 <= 1.0 - Smooth(u) <= 3.0 * ((1.0 - u) * (1.0 - u))
    ensures Smooth(1.0 - u) == 1.0 - Smooth(u)
  {
    assert Smooth(1.0 - u) == 1.0 - Smooth(u);
    SmoothEnds(u);
    QuadraticBound(u);
    QuadraticBound(1.0 - u);
  }

  lemma QuadraticBound(u: real)
    requires 0.0 <= u <= 1.0
    ensures Smooth(u) <= 3.0 * (u * u)
  {
    ProductOfNonNegatives(u * u, u);
    assert Smooth(u) == 3.0 * (u * u) - 2.0 * (u * u * u);
  }

  // The point a share u of the way along, written out.
  ghost function Eased(a: real, b: real, u: real): real {
    a + (3.0 * u * u - 2.0 * u * u * u) * (b - a)
  }

  lemma LerpIsEased(a: real, b: real, u: real)
    ensures Lerp(a, b, Smooth(u)) == Eased(a, b, u)
  {
    assert Smooth(u) == 3.0 * u * u - 2.0 * u * u * u;
  }
}
