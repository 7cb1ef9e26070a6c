/**
 Joint angles and raw servo steps. `k` is the number of steps per radian, 4096 / 2 pi in the
 system; only its sign matters here.
 */
module Calibration {
  import opened Arithmetic
  import opened Reals
  import opened Rounding

  datatype Joint = Joint(
    sign: int, zero: real, trainingDefault: real, center: int,
    minRad: real, maxRad: real, minStep: int, maxStep: int)

  predicate Valid(j: Joint) {
    && (j.sign == 1 || j.sign == -1)
    && j.minRad <= j.maxRad
    && j.minStep <= j.maxStep
  }

  function ClampRad(j: Joint, q: real): real { Clip(q, j.minRad, j.maxRad) }

  function ClampStep(j: Joint, s: int): int { Clamp(s, j.minStep, j.maxStep) }

  // The steps from the center to an angle, not rounded.
  function Offset(j: Joint, k: real, q: real): real { j.sign as real * (q - j.zero) * k }

  // The unrounded step of an angle, for a given center; the tools' radians_to_steps.
  function StepValue(j: Joint, k: real, q: real, center: int): real {
    center as real + Offset(j, k, q)
  }

  function RadiansToSteps(j: Joint, k: real, q: real): (s: int)
    ensures j.minStep <= j.maxStep ==> j.minStep <= s <= j.maxStep
  {
    ClampStep(j, HalfAway(StepValue(j, k, ClampRad(j, q), j.center)))
  }

  function StepsToRadians(j: Joint, k: real, s: real, center: int): real
    requires j.sign != 0 && k > 0.0
  {
    j.zero + (s - center as real) / j.sign as real * (1.0 / k)
  }

  // derived_raw_limits
  function DerivedLimits(j: Joint, k: real, center: int): (int, int) {
    var a := HalfEven(StepValue(j, k, j.minRad, center));
    var b := HalfEven(StepValue(j, k, j.maxRad, center));
    (if a < b then a else b, if a < b then b else a)
  }

  predicate HasDerivedLimits(j: Joint, k: real) {
    (j.minStep, j.maxStep) == DerivedLimits(j, k, j.center)
  }

  datatype Reference = ModelZero | PolicyDefault

  function ReferenceAngle(j: Joint, r: Reference): real {
    match r case ModelZero => j.zero case PolicyDefault => j.trainingDefault
  }

  function ExpectedStep(j: Joint, k: real, r: Reference, center: int): int {
    HalfEven(StepValue(j, k, ReferenceAngle(j, r), center))
  }

  function ProposedCenter(j: Joint, k: real, measured: real, r: Reference): int {
    HalfEven(measured - Offset(j, k, ReferenceAngle(j, r)))
  }

  // ------------------------------------------------------------------------------- conversion

  lemma StepValueMonotone(j: Joint, k: real, q: real, p: real, center: int)
    requires Valid(j) && k > 0.0 && q <= p
    ensures j.sign == 1 ==> StepValue(j, k, q, center) <= StepValue(j, k, p, center)
    ensures j.sign == -1 ==> StepValue(j, k, q, center) >= StepValue(j, k, p, center)
  {
    ProductMonotone(q - j.zero, p - j.zero, k);
    assert -1.0 * (q - j.zero) * k == -((q - j.zero) * k);
    assert -1.0 * (p - j.zero) * k == -((p - j.zero) * k);
  }

  // A step offset times radians per step is undone by StepValue, and a change of d steps in the
  // value is a change of d / k in the angle.
  lemma ValueOfAngle(j: Joint, k: real, s: real, center: int)
    requires Valid(j) && k > 0.0
    ensures StepValue(j, k, StepsToRadians(j, k, s, center), center) == s
  {
    var inverse := 1.0 / k;
    assert inverse * k == 1.0;
    var d := (s - center as real) / j.sign as real;
    assert d * inverse * k == d * (inverse * k);
    assert j.sign as real * d == s - center as real;
    assert j.sign as real * (d * inverse) * k == j.sign as real * (d * inverse * k);
  }

  lemma ValueDifference(j: Joint, k: real, p: real, q: real, center: int)
    requires Valid(j) && k > 0.0
    ensures Abs(StepValue(j, k, p, center) - StepValue(j, k, q, center)) == k * Abs(p - q)
  {
    ScaleKeepsSign(k, p - q);
    assert (p - j.zero) * k - (q - j.zero) * k == k * (p - q);
    assert -1.0 * (p - j.zero) * k == -((p - j.zero) * k);
    assert -1.0 * (q - j.zero) * k == -((q - j.zero) * k);
  }

  lemma AngleError(j: Joint, k: real, s: real, q: real, center: int)
    requires Valid(j) && k > 0.0
    ensures Abs(StepsToRadians(j, k, s, center) - q) ==
              Abs(s - StepValue(j, k, q, center)) * (1.0 / k)
  {
    hide StepValue, StepsToRadians, Abs;
    var p := StepsToRadians(j, k, s, center);
    ValueOfAngle(j, k, s, center);
    ValueDifference(j, k, p, q, center);
    assert k * Abs(p - q) * (1.0 / k) == Abs(p - q);
  }

  lemma WithinHalfAStep(j: Joint, k: real, s: real, q: real, center: int)
    requires Valid(j) && k > 0.0 && -0.5 <= s - StepValue(j, k, q, center) <= 0.5
    ensures Abs(StepsToRadians(j, k, s, center) - q) <= 0.5 * (1.0 / k)
  {
    hide StepValue, StepsToRadians;
    AngleError(j, k, s, q, center);
    ProductMonotone(Abs(s - StepValue(j, k, q, center)), 0.5, 1.0 / k);
  }

  // Where an angle, cut off at the joint limits, lies between the raw steps.
  ghost function ExactStep(j: Joint, k: real, q: real): real {
    var angle := if q < j.minRad then j.minRad else if q > j.maxRad then j.maxRad else q;
    j.center as real + j.sign as real * (angle - j.zero) * k
  }

  // radiansToSteps finds the raw step nearest to that, among those within the raw limits; a value
  // halfway between two steps goes away from zero, unless a limit stops it.
  lemma NearestStep(j: Joint, k: real, q: real, other: int)
    requires Valid(j) && j.minStep <= other <= j.maxStep
    ensures
      var v, s := ExactStep(j, k, q), RadiansToSteps(j, k, q);
      && j.minStep <= s <= j.maxStep && Abs(s as real - v) <= Abs(other as real - v)
      && (other != s && Abs(s as real - v) == Abs(other as real - v) ==>
            if v > 0.0 then s > other else s < other)
  {
    hide HalfAway, StepValue, Clamp, Clip, Abs, ExactStep;
    ExactIsValue(j, k, q);
    NearestClamped(ExactStep(j, k, q), j.minStep, j.maxStep, other);
  }

  lemma ExactIsValue(j: Joint, k: real, q: real)
    requires Valid(j)
    ensures ExactStep(j, k, q) == StepValue(j, k, ClampRad(j, q), j.center)
  {
  }

  lemma NearestClamped(v: real, lo: int, hi: int, other: int)
    requires lo <= other <= hi
    ensures
      var s := Clamp(HalfAway(v), lo, hi);
      && lo <= s <= hi && Abs(s as real - v) <= Abs(other as real - v)
      && (other != s && Abs(s as real - v) == Abs(other as real - v) ==>
            if v > 0.0 then s > other else s < other)
  {
    var s := HalfAway(v);
    NearestAway(v);
    hide HalfAway;
    if lo <= s <= hi {
      if other != s {
        NearestOther(v, s, other);
      }
    } else if s < lo {
      assert v <= s as real + 0.5 < lo as real;
    } else {
      assert v >= s as real - 0.5 > hi as real;
    }
  }

  // An integer other than the nearest is at least half a unit away.
  lemma NearestOther(v: real, s: int, other: int)
    requires -0.5 <= s as real - v <= 0.5 && other != s
    ensures other > s ==> other as real - v >= 0.5
    ensures other < s ==> v - other as real >= 0.5
  {
  }

  // And stepsToRadians the angle at which a raw step lies.
  lemma AngleOfStep(j: Joint, k: real, s: int)
    requires Valid(j) && k > 0.0
    ensures var angle := StepsToRadians(j, k, s as real, j.center);
            j.center as real + j.sign as real * (angle - j.zero) * k == s as real
  {
    hide StepsToRadians;
    ValueOfAngle(j, k, s as real, j.center);
  }

  // radiansToSteps is monotone in the direction the servo turns.
  lemma StepsFollowServo(j: Joint, k: real, q: real, p: real)
    requires Valid(j) && k > 0.0 && q <= p
    ensures j.sign == 1 ==> RadiansToSteps(j, k, q) <= RadiansToSteps(j, k, p)
    ensures j.sign == -1 ==> RadiansToSteps(j, k, q) >= RadiansToSteps(j, k, p)
  {
    hide HalfAway, StepValue;
    var x, y := ClampRad(j, q), ClampRad(j, p);
    StepValueMonotone(j, k, x, y, j.center);
    if j.sign == 1 {
      AwayMonotone(StepValue(j, k, x, j.center), StepValue(j, k, y, j.center));
    } else {
      AwayMonotone(StepValue(j, k, y, j.center), StepValue(j, k, x, j.center));
    }
  }

  // Every raw step whose angle lies within the joint limits is recovered exactly.
  lemma StepsRoundTrip(j: Joint, k: real, s: int)
    requires Valid(j) && k > 0.0 && j.minStep <= s <= j.maxStep
    requires j.minRad <= StepsToRadians(j, k, s as real, j.center) <= j.maxRad
    ensures RadiansToSteps(j, k, StepsToRadians(j, k, s as real, j.center)) == s
  {
    hide StepValue, StepsToRadians, HalfAway;
    ValueOfAngle(j, k, s as real, j.center);
    CloseToInteger(s as real, s);
  }

  // With derived limits the value of every angle lies between the limits' own unrounded values.
  lemma ValueWithinLimits(j: Joint, k: real, q: real) returns (lo: real, hi: real)
    requires Valid(j) && k > 0.0 && HasDerivedLimits(j, k) && j.minRad <= q <= j.maxRad
    ensures lo <= StepValue(j, k, q, j.center) <= hi
    ensures j.minStep == HalfEven(lo) && j.maxStep == HalfEven(hi)
  {
    hide StepValue, HalfEven;
    var a, b := StepValue(j, k, j.minRad, j.center), StepValue(j, k, j.maxRad, j.center);
    StepValueMonotone(j, k, j.minRad, q, j.center);
    StepValueMonotone(j, k, q, j.maxRad, j.center);
    lo, hi := if j.sign == 1 then a else b, if j.sign == 1 then b else a;
    EvenMonotone(lo, hi);
  }

  // What the raw clamp does to a rounded value between the limits: at most one step, and only
  // where the value is halfway, so that either neighbour is as near.
  lemma ClampIsHarmless(v: real, lo: real, hi: real, j: Joint)
    requires lo <= v <= hi && j.minStep == HalfEven(lo) && j.maxStep == HalfEven(hi)
    ensures -1 <= ClampStep(j, HalfAway(v)) - HalfAway(v) <= 1
    ensures -0.5 <= ClampStep(j, HalfAway(v)) as real - v <= 0.5
  {
    hide HalfAway, HalfEven;
    EvenMonotone(lo, v);
    EvenMonotone(v, hi);
    RoundingsDiffer(v);
    NearestAway(v);
    NearestEven(v);
  }

  // With derived limits the raw clamp moves a converted angle by at most one step, and an angle
  // within the joint limits comes back to within half a step.
  lemma AngleRoundTrip(j: Joint, k: real, q: real)
    requires Valid(j) && k > 0.0 && HasDerivedLimits(j, k)
    ensures -1 <= RadiansToSteps(j, k, q)
                  - HalfAway(StepValue(j, k, ClampRad(j, q), j.center)) <= 1
    ensures j.minRad <= q <= j.maxRad ==>
              Abs(StepsToRadians(j, k, RadiansToSteps(j, k, q) as real, j.center) - q) <= 0.5 * (1.0 / k)
  {
    hide StepValue, HalfAway, HalfEven, StepsToRadians, DerivedLimits;
    var r := ClampRad(j, q);
    var lo, hi := ValueWithinLimits(j, k, r);
    var v := StepValue(j, k, r, j.center);
    ClampIsHarmless(v, lo, hi, j);
    WithinHalfAStep(j, k, RadiansToSteps(j, k, q) as real, r, j.center);
  }

  // ------------------------------------------------------------------------------- calibration

  // With the proposed center, the measured step maps to within half a step of the reference
  // angle, and the step then expected there is within one step of the measured one.
  lemma ProposedCenterFits(j: Joint, k: real, measured: real, r: Reference)
    requires Valid(j) && k > 0.0
    ensures var center := ProposedCenter(j, k, measured, r);
            && Abs(StepsToRadians(j, k, measured, center) - ReferenceAngle(j, r)) <= 0.5 * (1.0 / k)
            && -1.0 <= ExpectedStep(j, k, r, center) as real - measured <= 1.0
  {
    hide HalfEven, StepsToRadians, Offset;
    var angle, center := ReferenceAngle(j, r), ProposedCenter(j, k, measured, r);
    NearestEven(measured - Offset(j, k, angle));
    var v := StepValue(j, k, angle, center);
    NearestEven(v);
    WithinHalfAStep(j, k, measured, angle, center);
  }

  // Calibrating again at the step the map expects proposes the same center exactly when the
  // reference does not fall halfway between two steps, or the center is even.
  lemma CalibrationIsStable(j: Joint, k: real, r: Reference, center: int)
    requires Valid(j)
    ensures ProposedCenter(j, k, ExpectedStep(j, k, r, center) as real, r) == center
            <==> !Halfway(StepValue(j, k, ReferenceAngle(j, r), center)) || center % 2 == 0
  {
    hide HalfEven, Offset, Halfway;
    var v := StepValue(j, k, ReferenceAngle(j, r), center);
    var e := HalfEven(v);
    NearestEven(v);
    if Halfway(v) {
      TieRounds(v);
      EvenBesideTie(e as real - (v - center as real), center);
    } else {
      HalfIsTie(v, e);
      CloseToInteger(e as real - (v - center as real), center);
    }
  }

  lemma TieRounds(x: real)
    requires Halfway(x)
    ensures HalfEven(x) as real - x == 0.5 || HalfEven(x) as real - x == -0.5
  {
  }

  // Half a step beside an integer, rounding to even finds that integer exactly when it is even.
  lemma EvenBesideTie(x: real, n: int)
    requires x - n as real == 0.5 || x - n as real == -0.5
    ensures HalfEven(x) == n <==> n % 2 == 0
  {
    FloorUnique(x, if x > n as real then n else n - 1);
  }

  lemma HalfIsTie(x: real, n: int)
    requires -0.5 <= n as real - x <= 0.5 && !Halfway(x)
    ensures -0.5 < n as real - x < 0.5
  {
    if n as real - x == 0.5 {
      FloorUnique(x, n - 1);
    } else if n as real - x == -0.5 {
      FloorUnique(x, n);
    }
  }

  // So an odd center can move, whatever the number of steps per radian: with center 2049 and a
  // default pose half a step above it, the map expects step 2050, and calibrating at that step
  // proposes center 2050.
  lemma TieMovesTheCenter(j: Joint, k: real)
    requires k > 0.0 && j == Joint(1, 0.0, 0.5 / k, 2049, -1.0 / k, 1.0 / k, 0, 4095)
    ensures Valid(j) && j.minRad <= j.trainingDefault <= j.maxRad
    ensures ExpectedStep(j, k, PolicyDefault, j.center) == 2050
    ensures ProposedCenter(j, k, 2050.0, PolicyDefault) == 2050
  {
    assert 1.0 * (0.5 / k - 0.0) * k == 0.5;
    FloorUnique(2049.5, 2049);
    DivideMonotone(-1.0, 0.5, k);
    DivideMonotone(0.5, 1.0, k);
  }

  lemma DivideMonotone(a: real, b: real, k: real)
    requires k > 0.0 && a <= b
    ensures a / k <= b / k
  {
    assert b / k - a / k == (b - a) / k;
  }
}
