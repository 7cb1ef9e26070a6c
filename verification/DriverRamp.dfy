/** The ramp loop of the driver node, run to its end or stopped. */
module DriverRamp {
  import opened Poses
  import opened Reals
  import opened Smoothstep

  function Ceiling(x: real): int { -((-x).Floor) }

  // The number of ramp steps for a configured duration and rate.
  function StepCount(duration: real, rate: real): (n: nat)
    ensures n >= 1 && duration * rate <= n as real && (n > 1 ==> (n - 1) as real < duration * rate)
  {
    if Ceiling(duration * rate) > 1 then Ceiling(duration * rate) else 1
  }

  function Points(start: Pose, goal: Pose, n: nat, k: nat): (s: seq<Pose>)
    ensures |s| == k
  {
    seq(k, j requires 0 <= j < k => RampPoint(start, goal, j + 1, n))
  }

  // runPoseRamp's stores, in order. The stop flag reads false `stopAt` times, then true: the loop
  // reads it before each step and the code after the loop once more.
  method RunPoseRamp(start: Pose, goal: Pose, duration: real, rate: real, stopAt: nat)
    returns (stored: seq<Pose>, aborted: bool)
    ensures var n := StepCount(duration, rate);
            && aborted == (stopAt <= n)
            && stored == Points(start, goal, n, if stopAt < n then stopAt else n)
                         + (if aborted then [] else [goal])
  {
    hide RampPoint;
    var stepCount := StepCount(duration, rate);
    var tested := 0;
    stored := [];
    var step := 1;
    while step <= stepCount && tested < stopAt
      invariant 1 <= step <= stepCount + 1 && tested == step - 1 <= stopAt
      invariant stored == Points(start, goal, stepCount, step - 1)
    {
      tested := tested + 1;
      stored := stored + [RampPoint(start, goal, step, stepCount)];
      step := step + 1;
    }
    aborted := tested >= stopAt;
    if !aborted {
      stored := stored + [goal];
    }
  }

  // The k-th target stored is k of n steps along the curve.
  lemma StoresExactly(start: Pose, goal: Pose, n: nat, count: nat, p: nat, i: nat)
    requires p < count <= n && i < NUM_JOINTS
    ensures Points(start, goal, n, count)[p][i]
         == Eased(start[i], goal[i], (p + 1) as real / n as real)
  {
    hide Eased, Smooth, Lerp;
    LerpIsEased(start[i], goal[i], (p + 1) as real / n as real);
  }

  // Everything a ramp stores lies on the way from start to goal, in order; neighbouring targets
  // differ by at most 3/2 of one step's share; and an unstopped ramp ends exactly at the goal.
  lemma RampIsSafe(start: Pose, goal: Pose, n: nat, k: nat, completed: bool, p: nat, i: nat)
    requires n >= 1 && k <= n && (completed ==> k == n) && i < NUM_JOINTS
    requires p < k + (if completed then 1 else 0)
    ensures var stored := Points(start, goal, n, k) + (if completed then [goal] else []);
            var before := if p == 0 then start else stored[p - 1];
            && Between(start[i], before[i], stored[p][i]) && Between(before[i], stored[p][i], goal[i])
            && Abs(stored[p][i] - before[i]) <= 1.5 * Abs(goal[i] - start[i]) / n as real
            && (completed ==> stored[|stored| - 1] == goal)
  {
    hide Smooth, LerpPose;
    var far := Abs(goal[i] - start[i]);
    if p < k {
      RampSteps(start, goal, p, p + 1, n, i);
      RampSteps(start, goal, 0, p, n, i);
      if p == 0 {
        RampStarts(start, goal, n);
      }
      OneShare(far, n);
    } else {
      RampSteps(start, goal, n, n, n, i);
      RampSteps(start, goal, 0, n, n, i);
      ProductOfNonNegatives(far, 1.0 / n as real);
      OneShare(far, n);
    }
  }

  lemma OneShare(far: real, n: nat)
    requires n >= 1 && far >= 0.0
    ensures 1.5 * (1 as real / n as real) * far == 1.5 * far / n as real >= 0.0
  {
    var share := 1.0 / n as real;
    ProductOfNonNegatives(far, share);
    assert 1.5 * far / n as real == 1.5 * far * share;
  }

  lemma RampStarts(start: Pose, goal: Pose, n: nat)
    requires n >= 1
    ensures RampPoint(start, goal, 0, n) == start
  {
    assert 0 as real / n as real == 0.0;
    SmoothEnds(0.0);
    assert forall q :: 0 <= q < NUM_JOINTS ==> Lerp(start[q], goal[q], 0.0) == start[q];
  }
}
