/** The observation vector and the action post-processing of the policy node. */
module PolicyVectors {
  import opened Outcome
  import opened Poses
  import opened Reals

  // build_policy_observation: 45 values, or 47 with a phase pair.
  function Observation(
    command: seq<real>, angularVelocity: seq<real>, gravity: seq<real>, relative: Pose,
    velocities: Pose, previous: Pose, phase: Option<(real, real)>): (o: seq<real>)
    requires |command| == 3 && |angularVelocity| == 3 && |gravity| == 3
    ensures |o| == if phase.Some? then 47 else 45
    ensures o[0..3] == command && o[3..6] == angularVelocity && o[6..9] == gravity
    ensures o[9..21] == relative && o[21..33] == velocities && o[33..45] == previous
    ensures phase.Some? ==> o[45] == phase.value.0 && o[46] == phase.value.1
  {
    command + angularVelocity + gravity + relative + velocities + previous
    + if phase.Some? then [phase.value.0, phase.value.1] else []
  }

  datatype Actions = Actions(
    actionLower: Pose, actionUpper: Pose, defaults: Pose, scale: Pose, jointLower: Pose, jointUpper: Pose)
  {
    predicate Valid() {
      forall i :: 0 <= i < NUM_JOINTS ==>
        actionLower[i] <= actionUpper[i] && jointLower[i] <= jointUpper[i]
    }
  }

  function Bounded(a: Actions, raw: Pose): (p: Pose)
    requires a.Valid()
    ensures forall i :: 0 <= i < NUM_JOINTS ==> a.actionLower[i] <= p[i] <= a.actionUpper[i]
    ensures forall i :: 0 <= i < NUM_JOINTS ==>
              a.actionLower[i] <= raw[i] <= a.actionUpper[i] ==> p[i] == raw[i]
  {
    seq(NUM_JOINTS, i requires 0 <= i < NUM_JOINTS =>
      Clip(raw[i], a.actionLower[i], a.actionUpper[i]))
  }

  function TargetOf(a: Actions, bounded: Pose): (p: Pose)
    requires a.Valid()
    ensures forall i :: 0 <= i < NUM_JOINTS ==> a.jointLower[i] <= p[i] <= a.jointUpper[i]
    ensures forall i :: 0 <= i < NUM_JOINTS ==>
              var q := Unclipped(a, bounded[i], i);
              && (a.jointLower[i] <= q <= a.jointUpper[i] ==> p[i] == q)
              && (q < a.jointLower[i] ==> p[i] == a.jointLower[i])
              && (q > a.jointUpper[i] ==> p[i] == a.jointUpper[i])
  {
    seq(NUM_JOINTS, i requires 0 <= i < NUM_JOINTS =>
      Clip(Unclipped(a, bounded[i], i), a.jointLower[i], a.jointUpper[i]))
  }

  function Unclipped(a: Actions, bounded: real, i: nat): real
    requires i < NUM_JOINTS
  {
    a.defaults[i] + a.scale[i] * bounded
  }

  function UnclippedPose(a: Actions, bounded: Pose): Pose {
    seq(NUM_JOINTS, i requires 0 <= i < NUM_JOINTS => Unclipped(a, bounded[i], i))
  }

  // Bit 0: the action was outside its limits. Bits 1 and 2: the target was below or above its own.
  predicate MaskSays(a: Actions, raw: Pose, unclipped: Pose, mask: bv8, i: nat)
    requires i < NUM_JOINTS
  {
    && mask < 8
    && (mask & 1 != 0 <==> !(a.actionLower[i] <= raw[i] <= a.actionUpper[i]))
    && (mask & 2 != 0 <==> unclipped[i] < a.jointLower[i])
    && (mask & 4 != 0 <==> unclipped[i] > a.jointUpper[i])
  }

  // compute_target_joint_radians
  method ComputeTarget(a: Actions, raw: Pose)
    returns (bounded: Pose, unclipped: Pose, target: Pose, mask: seq<bv8>)
    requires a.Valid()
    ensures bounded == Bounded(a, raw) && unclipped == UnclippedPose(a, bounded)
    ensures target == TargetOf(a, bounded)
    ensures |mask| == NUM_JOINTS
    ensures forall i :: 0 <= i < NUM_JOINTS ==> MaskSays(a, raw, unclipped, mask[i], i)
  {
    var b: seq<real>, u: seq<real>, t: seq<real> := [], [], [];
    mask := [];
    for i := 0 to NUM_JOINTS
      invariant |b| == |u| == |t| == |mask| == i
      invariant b == Bounded(a, raw)[..i]
      invariant u == UnclippedPose(a, Bounded(a, raw))[..i]
      invariant t == TargetOf(a, Bounded(a, raw))[..i]
      invariant forall j :: 0 <= j < i ==>
                  MaskSays(a, raw, UnclippedPose(a, Bounded(a, raw)), mask[j], j)
    {
      hide Unclipped, Clip, MaskSays;
      var x := Clip(raw[i], a.actionLower[i], a.actionUpper[i]);
      var q := Unclipped(a, x, i);
      var m := SaturationMask(a, raw, Bounded(a, raw), i);
      b, u := b + [x], u + [q];
      t := t + [Clip(q, a.jointLower[i], a.jointUpper[i])];
      mask := mask + [m];
    }
    bounded, unclipped, target := b, u, t;
  }

  method SaturationMask(a: Actions, raw: Pose, bounded: Pose, i: nat) returns (mask: bv8)
    requires a.Valid() && i < NUM_JOINTS && bounded == Bounded(a, raw)
    ensures MaskSays(a, raw, UnclippedPose(a, bounded), mask, i)
  {
    var q := Unclipped(a, bounded[i], i);
    mask := 0;
    if bounded[i] != raw[i] {
      mask := mask | 1;
    }
    if q < a.jointLower[i] {
      mask := mask | 2;
    }
    if q > a.jointUpper[i] {
      mask := mask | 4;
    }
  }
}
