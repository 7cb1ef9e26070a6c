/**
 The policy handoff profile: the installer that produces it, and the three programs that check it,
 namely the handoff tool's loader, the bundle audit and the policy node.
 */
module HandoffProfile {
  import opened Outcome
  import opened Poses
  import opened Reals

  const TOLERANCE := 0.000001
  const CLAMP_ALLOWANCE := 0.002
  const MODE := "learned_zero_command"

  // A joint of the map, in policy order.
  datatype Joint = Joint(name: string, lower: real, upper: real)

  type Joints = j: seq<Joint> | |j| == NUM_JOINTS witness seq(NUM_JOINTS, _ => Joint("", 0.0, 0.0))

  datatype Clamp = Clamp(index: int, joint: string, pre: real, effective: real, delta: real)

  datatype Profile = Profile(
    schemaVersion: int, mode: string, task: string, sha: string, jointOrder: seq<string>,
    source: seq<real>, trim: seq<real>, pose: seq<real>, clamps: seq<Clamp>,
    previous: seq<real>, command: seq<real>, phase: seq<real>, crosscheck: Option<real>)

  // A locomotion policy; without a checksum its `sha` is None.
  datatype Policy = Policy(task: string, sha: Option<string>, neutralStatic: bool, defaults: seq<real>)

  // The analyzer's JSON.
  datatype Source = Source(
    schemaVersion: int, crosscheck: Option<real>, task: string, jointOrder: seq<string>,
    pose: seq<real>, previous: seq<real>, defaults: seq<real>, command: seq<real>)

  function Names(joints: seq<Joint>): (n: seq<string>)
    ensures |n| == |joints| && forall i :: 0 <= i < |n| ==> n[i] == joints[i].name
  {
    seq(|joints|, i requires 0 <= i < |joints| => joints[i].name)
  }

  function Limit(j: Joint, q: real): real { Clip(q, j.lower, j.upper) }

  predicate Close(x: real, y: real) { Abs(x - y) <= TOLERANCE }

  predicate InUnit(s: seq<real>) { forall i :: 0 <= i < |s| ==> -1.0 <= s[i] <= 1.0 }

  // ------------------------------------------------------------------------------- installer

  function NoTrim(): (t: seq<real>)
    ensures |t| == NUM_JOINTS && forall i :: 0 <= i < |t| ==> t[i] == 0.0
  {
    seq(NUM_JOINTS, _ => 0.0)
  }

  function ShaText(policy: Policy): string { if policy.sha.Some? then policy.sha.value else "" }

  predicate SameSource(a: seq<real>, b: seq<real>) {
    |a| == NUM_JOINTS == |b| && forall i :: 0 <= i < NUM_JOINTS ==> Close(a[i], b[i])
  }

  predicate KeepsTrim(source: Source, policy: Policy, existing: Option<Profile>) {
    && existing.Some?
    && existing.value.task == policy.task && existing.value.sha == ShaText(policy)
    && SameSource(existing.value.source, source.pose)
    && |existing.value.trim| == NUM_JOINTS
  }

  function TrimFor(source: Source, policy: Policy, existing: Option<Profile>): (t: seq<real>)
    ensures |t| == NUM_JOINTS
  {
    if KeepsTrim(source, policy, existing) then existing.value.trim else NoTrim()
  }

  predicate GoodSource(source: Source, policy: Policy, joints: Joints) {
    && source.schemaVersion == 2
    && source.crosscheck.Some? && source.crosscheck.value <= TOLERANCE
    && source.task == policy.task && source.jointOrder == Names(joints)
    && |source.pose| == |source.previous| == |source.defaults| == |policy.defaults| == NUM_JOINTS
    && (forall i :: 0 <= i < NUM_JOINTS ==> Abs(source.defaults[i] - policy.defaults[i]) <= 0.00001)
    && InUnit(source.previous)
    && source.command == [0.0, 0.0, 0.0]
  }

  predicate Reachable(joints: Joints, pose: seq<real>, trim: seq<real>)
    requires |pose| == |trim| == NUM_JOINTS
  {
    forall i :: 0 <= i < NUM_JOINTS ==>
      Abs(Limit(joints[i], pose[i] + trim[i]) - (pose[i] + trim[i])) <= CLAMP_ALLOWANCE
  }

  function EffectivePose(joints: Joints, pose: seq<real>, trim: seq<real>, n: nat): (r: seq<real>)
    requires |pose| == |trim| == NUM_JOINTS && n <= NUM_JOINTS
    ensures |r| == n && forall i :: 0 <= i < n ==> r[i] == Limit(joints[i], pose[i] + trim[i])
  {
    seq(n, i requires 0 <= i < n => Limit(joints[i], pose[i] + trim[i]))
  }

  // The record of a joint that had to be clamped.
  function RecordFor(j: Joint, q: real, i: nat): (c: Option<Clamp>)
    ensures c.Some? ==> c.value.index == i
  {
    if Limit(j, q) != q then Some(Clamp(i, j.name, q, Limit(j, q), Limit(j, q) - q)) else None
  }

  function ClampRecords(joints: Joints, pose: seq<real>, trim: seq<real>, n: nat): seq<Clamp>
    requires |pose| == |trim| == NUM_JOINTS && n <= NUM_JOINTS
  {
    if n == 0 then []
    else
      var before := ClampRecords(joints, pose, trim, n - 1);
      var j, q := joints[n - 1], pose[n - 1] + trim[n - 1];
      var record := RecordFor(j, q, n - 1);
      if record.Some? then before + [record.value] else before
  }

  predicate Installable(source: Source, policy: Policy, joints: Joints, existing: Option<Profile>) {
    GoodSource(source, policy, joints)
    && Reachable(joints, source.pose, TrimFor(source, policy, existing))
  }

  function Installed(source: Source, policy: Policy, joints: Joints, existing: Option<Profile>): Profile
    requires Installable(source, policy, joints, existing)
  {
    var trim := TrimFor(source, policy, existing);
    Profile(1, MODE, policy.task, ShaText(policy), Names(joints), source.pose, trim,
            EffectivePose(joints, source.pose, trim, NUM_JOINTS),
            ClampRecords(joints, source.pose, trim, NUM_JOINTS),
            source.previous, source.command, [0.0, 1.0], source.crosscheck)
  }

  // The loop over the joints: the effective pose and the records of what was clamped.
  method ClampPose(joints: Joints, pose: seq<real>, trim: seq<real>)
    returns (r: Result<(seq<real>, seq<Clamp>)>)
    requires |pose| == |trim| == NUM_JOINTS
    ensures r.Ok? <==> Reachable(joints, pose, trim)
    ensures r.Ok? ==> r.value == (EffectivePose(joints, pose, trim, NUM_JOINTS),
                                  ClampRecords(joints, pose, trim, NUM_JOINTS))
  {
    hide Limit;
    var effectivePose: seq<real> := [];
    var clamps: seq<Clamp> := [];
    for i := 0 to NUM_JOINTS
      invariant effectivePose == EffectivePose(joints, pose, trim, i)
      invariant clamps == ClampRecords(joints, pose, trim, i)
      invariant forall j :: 0 <= j < i ==>
        Abs(Limit(joints[j], pose[j] + trim[j]) - (pose[j] + trim[j])) <= CLAMP_ALLOWANCE
    {
      var q := pose[i] + trim[i];
      var qc := Limit(joints[i], q);
      if Abs(qc - q) > CLAMP_ALLOWANCE {
        return Error("handoff exceeds physical limit");
      }
      effectivePose := effectivePose + [qc];
      if qc != q {
        clamps := clamps + [Clamp(i, joints[i].name, q, qc, qc - q)];
      }
    }
    return Ok((effectivePose, clamps));
  }

  // normalize_handoff_profile
  method NormalizeHandoffProfile(source: Source, policy: Policy, joints: Joints, existing: Option<Profile>)
    returns (r: Result<Profile>)
    ensures r.Ok? <==> Installable(source, policy, joints, existing)
    ensures r.Ok? ==> r.value == Installed(source, policy, joints, existing)
  {
    hide Limit, Close, SameSource;
    if source.schemaVersion != 2 {
      return Error("analyzer schema_version 2 required");
    }
    if source.crosscheck.None? || source.crosscheck.value > TOLERANCE {
      return Error("previous-action cross-check is not zero");
    }
    if source.task != policy.task || source.jointOrder != Names(joints) {
      return Error("task or joint order mismatch");
    }
    if |source.pose| != 12 || |source.previous| != 12 || |source.defaults| != 12 || |policy.defaults| != 12 {
      return Error("12 values required");
    }
    for i := 0 to NUM_JOINTS
      invariant forall j :: 0 <= j < i ==> Abs(source.defaults[j] - policy.defaults[j]) <= 0.00001
    {
      if Abs(source.defaults[i] - policy.defaults[i]) > 0.00001 {
        return Error("q_default mismatch");
      }
    }
    var trim := TrimFor(source, policy, existing);
    var clamped := ClampPose(joints, source.pose, trim);
    if clamped.Error? {
      return Error(clamped.reason);
    }
    for i := 0 to NUM_JOINTS
      invariant forall j :: 0 <= j < i ==> -1.0 <= source.previous[j] <= 1.0
    {
      if source.previous[i] < -1.0 || source.previous[i] > 1.0 {
        return Error("previous-action seed outside [-1,1]");
      }
    }
    if source.command != [0.0, 0.0, 0.0] {
      return Error("command must be zero");
    }
    return Ok(Profile(
      1, MODE, policy.task, ShaText(policy), Names(joints), source.pose, trim,
      clamped.value.0, clamped.value.1,
      source.previous, source.command, [0.0, 1.0], source.crosscheck));
  }

  // ------------------------------------------------------------------------------- checkers

  predicate GoodIndices(clamps: seq<Clamp>) {
    && (forall k :: 0 <= k < |clamps| ==> 0 <= clamps[k].index < NUM_JOINTS)
    && (forall k, l :: 0 <= k < l < |clamps| ==> clamps[k].index != clamps[l].index)
  }

  // The first record for a joint.
  function ClampAt(clamps: seq<Clamp>, i: int): (c: Option<Clamp>)
    ensures c.Some? ==> c.value in clamps && c.value.index == i
    ensures c.None? ==> forall k :: 0 <= k < |clamps| ==> clamps[k].index != i
  {
    if clamps == [] then None
    else if ClampAt(clamps[..|clamps| - 1], i).Some? then ClampAt(clamps[..|clamps| - 1], i)
    else if clamps[|clamps| - 1].index == i then Some(clamps[|clamps| - 1])
    else None
  }

  predicate Twelve(p: Profile) {
    |p.source| == |p.trim| == |p.pose| == |p.previous| == NUM_JOINTS
  }

  // What the pose of a joint must be: source plus trim, or what a clamp record declares, if the
  // record agrees with source plus trim and with itself.
  predicate Decomposes(p: Profile, i: nat, clamp: Option<Clamp>)
    requires Twelve(p) && i < NUM_JOINTS
  {
    match clamp
    case None => Close(p.pose[i], p.source[i] + p.trim[i])
    case Some(c) =>
      && Close(c.pre, p.source[i] + p.trim[i])
      && Close(c.effective - c.pre, c.delta)
      && Close(p.pose[i], c.effective)
  }

  // load_profile of the handoff tool
  predicate ToolAccepts(p: Profile) {
    && p.schemaVersion == 1 && p.mode == MODE && Twelve(p)
    && GoodIndices(p.clamps)
    && forall i :: 0 <= i < NUM_JOINTS ==> Decomposes(p, i, ClampAt(p.clamps, i))
  }

  predicate AuditedJoint(joints: Joints, p: Profile, i: nat, clamp: Option<Clamp>)
    requires Twelve(p) && i < NUM_JOINTS
  {
    && Decomposes(p, i, clamp)
    && (clamp.Some? ==> clamp.value.joint == joints[i].name)
    && joints[i].lower <= p.pose[i] <= joints[i].upper
    && -1.0 <= p.previous[i] <= 1.0
  }

  predicate AuditedAt(joints: Joints, p: Profile, i: nat)
    requires Twelve(p) && i < NUM_JOINTS
  {
    AuditedJoint(joints, p, i, ClampAt(p.clamps, i))
  }

  // validate_policy_handoff finds no error.
  predicate AuditAccepts(policy: Policy, joints: Joints, p: Profile) {
    && p.schemaVersion == 1 && p.mode == MODE
    && p.task == policy.task && policy.sha == Some(p.sha) && p.jointOrder == Names(joints)
    && Twelve(p) && GoodIndices(p.clamps)
    && (forall i :: 0 <= i < NUM_JOINTS ==> AuditedAt(joints, p, i))
    && p.command == [0.0, 0.0, 0.0]
    && (policy.neutralStatic ==> p.phase == [0.0, 1.0])
    && (p.crosscheck.Some? ==> p.crosscheck.value <= TOLERANCE)
  }

  // The node recomputes the clamp instead of reading the records.
  predicate Recomputes(joints: Joints, p: Profile, i: nat)
    requires Twelve(p) && i < NUM_JOINTS
  {
    Close(p.pose[i], Limit(joints[i], p.source[i] + p.trim[i]))
  }

  // configure_policy_handoff loads the profile; a missing checksum reads as the empty string.
  predicate NodeAccepts(policy: Policy, joints: Joints, p: Profile) {
    && p.schemaVersion == 1 && p.mode == MODE
    && p.task == policy.task && p.sha == ShaText(policy)
    && Twelve(p) && |p.command| == 3 && |p.phase| == 2
    && p.jointOrder == Names(joints)
    && (forall i :: 0 <= i < NUM_JOINTS ==>
          Recomputes(joints, p, i) && joints[i].lower <= p.pose[i] <= joints[i].upper)
    && InUnit(p.previous)
    && (forall i :: 0 <= i < 3 ==> Abs(p.command[i]) <= TOLERANCE)
    && (policy.neutralStatic ==> Close(p.phase[0], 0.0) && Close(p.phase[1], 1.0))
  }

  // ------------------------------------------------------------------------------- loops

  // One more record.
  lemma ClampAtMore(clamps: seq<Clamp>, c: Clamp, i: int)
    ensures ClampAt(clamps + [c], i) ==
              if ClampAt(clamps, i).Some? then ClampAt(clamps, i)
              else if c.index == i then Some(c) else None
  {
    assert (clamps + [c])[..|clamps|] == clamps;
  }

  lemma GoodMore(clamps: seq<Clamp>, c: Clamp)
    ensures GoodIndices(clamps + [c]) <==>
              GoodIndices(clamps) && 0 <= c.index < NUM_JOINTS && ClampAt(clamps, c.index).None?
  {
    var more := clamps + [c];
    assert forall k :: 0 <= k < |clamps| ==> more[k] == clamps[k];
    assert more[|clamps|] == c;
    if ClampAt(clamps, c.index).Some? {
      var k :| 0 <= k < |clamps| && clamps[k] == ClampAt(clamps, c.index).value;
      assert more[k].index == more[|clamps|].index;
    }
  }

  lemma GoodPrefix(clamps: seq<Clamp>, k: nat)
    requires k <= |clamps| && GoodIndices(clamps)
    ensures GoodIndices(clamps[..k])
  {
  }

  // The dictionary of clamp records both Python checkers build; an index out of range or seen
  // before is an error.
  method ClampByIndex(clamps: seq<Clamp>) returns (m: map<int, Clamp>, ok: bool)
    ensures ok == GoodIndices(clamps)
    ensures ok ==> forall i :: i in m <==> ClampAt(clamps, i).Some?
    ensures ok ==> forall i :: i in m ==> m[i] == ClampAt(clamps, i).value
  {
    hide GoodIndices, ClampAt;
    m := map[];
    assert GoodIndices([]) && forall i :: ClampAt([], i).None? by { NoRecords(); }
    for k := 0 to |clamps|
      invariant GoodIndices(clamps[..k])
      invariant forall i :: i in m <==> ClampAt(clamps[..k], i).Some?
      invariant forall i :: i in m ==> m[i] == ClampAt(clamps[..k], i).value
    {
      var index := clamps[k].index;
      assert clamps[..k + 1] == clamps[..k] + [clamps[k]];
      GoodMore(clamps[..k], clamps[k]);
      if index < 0 || index >= NUM_JOINTS || index in m {
        assert !GoodIndices(clamps) by {
          if GoodIndices(clamps) {
            GoodPrefix(clamps, k + 1);
          }
        }
        return m, false;
      }
      forall i ensures ClampAt(clamps[..k + 1], i) ==
                         if ClampAt(clamps[..k], i).Some? then ClampAt(clamps[..k], i)
                         else if index == i then Some(clamps[k]) else None
      {
        ClampAtMore(clamps[..k], clamps[k], i);
      }
      m := m[index := clamps[k]];
    }
    assert clamps[..|clamps|] == clamps;
    return m, true;
  }

  lemma NoRecords()
    ensures GoodIndices([]) && forall i :: ClampAt([], i).None?
  {
  }

  method LoadProfile(p: Profile) returns (ok: bool)
    ensures ok == ToolAccepts(p)
  {
    hide GoodIndices, ClampAt, Decomposes;
    if p.schemaVersion != 1 || p.mode != MODE {
      return false;
    }
    if |p.pose| != 12 || |p.source| != 12 || |p.trim| != 12 || |p.previous| != 12 {
      return false;
    }
    var clampByIndex, good := ClampByIndex(p.clamps);
    if !good {
      return false;
    }
    for i := 0 to NUM_JOINTS
      invariant forall j :: 0 <= j < i ==> Decomposes(p, j, ClampAt(p.clamps, j))
    {
      var fits := CheckDecomposition(p, i, if i in clampByIndex then Some(clampByIndex[i]) else None);
      if !fits {
        return false;
      }
    }
    return true;
  }

  method CheckDecomposition(p: Profile, i: nat, clamp: Option<Clamp>) returns (ok: bool)
    requires Twelve(p) && i < NUM_JOINTS
    ensures ok == Decomposes(p, i, clamp)
  {
    var expected := p.source[i] + p.trim[i];
    if clamp.Some? {
      var c := clamp.value;
      if Abs(c.pre - expected) > TOLERANCE {
        return false;
      }
      if Abs(c.effective - c.pre - c.delta) > TOLERANCE {
        return false;
      }
      expected := c.effective;
    }
    return !(Abs(p.pose[i] - expected) > TOLERANCE);
  }

  method Demand(errors: seq<string>, condition: bool, message: string) returns (more: seq<string>)
    ensures more == [] <==> errors == [] && condition
  {
    more := if condition then errors else errors + [message];
  }

  // validate_policy_handoff, with the errors it collects.
  method ValidatePolicyHandoff(policy: Policy, joints: Joints, p: Profile) returns (errors: seq<string>)
    ensures errors == [] <==> AuditAccepts(policy, joints, p)
  {
    hide GoodIndices, AuditedAt;
    errors := Demand([], p.schemaVersion == 1, "schema_version must be 1");
    errors := Demand(errors, p.mode == MODE, "mode must be learned_zero_command");
    errors := Demand(errors, p.task == policy.task, "task does not match active policy");
    errors := Demand(errors, policy.sha == Some(p.sha), "SHA does not match active policy");
    errors := Demand(errors, p.jointOrder == Names(joints), "joint_order does not match");
    errors := Demand(errors, |p.pose| == 12, "joint_position_rad must contain 12 values");
    errors := Demand(errors, |p.source| == 12, "source pose must contain 12 values");
    errors := Demand(errors, |p.trim| == 12, "hardware_trim_rad must contain 12 values");
    errors := Demand(errors, |p.previous| == 12, "previous_action_bounded must contain 12 values");
    if Twelve(p) {
      errors := CheckJoints(joints, p, errors);
    }
    errors := Demand(errors, p.command == [0.0, 0.0, 0.0], "command must be [0,0,0]");
    errors := Demand(errors, !policy.neutralStatic || p.phase == [0.0, 1.0], "phase must be [0,1]");
    errors := Demand(errors, p.crosscheck.None? || p.crosscheck.value <= TOLERANCE, "cross-check");
  }

  method CheckJoints(joints: Joints, p: Profile, before: seq<string>) returns (errors: seq<string>)
    requires Twelve(p)
    ensures errors == [] <==>
              && before == [] && GoodIndices(p.clamps)
              && forall i :: 0 <= i < NUM_JOINTS ==> AuditedAt(joints, p, i)
  {
    hide GoodIndices, ClampAt, AuditedJoint;
    var clampByIndex, good := ClampByIndex(p.clamps);
    errors := Demand(before, good, "physical_limit_clamps invalid or duplicate index");
    for i := 0 to NUM_JOINTS
      invariant errors == [] ==> good
      invariant good ==>
        (errors == [] <==>
          before == [] && forall j :: 0 <= j < i ==> AuditedAt(joints, p, j))
    {
      var clamp := if i in clampByIndex then Some(clampByIndex[i]) else None;
      errors := CheckJoint(joints, p, i, clamp, errors);
      assert good ==> AuditedAt(joints, p, i) == AuditedJoint(joints, p, i, clamp);
    }
  }

  method CheckJoint(joints: Joints, p: Profile, i: nat, clamp: Option<Clamp>, before: seq<string>)
    returns (errors: seq<string>)
    requires Twelve(p) && i < NUM_JOINTS
    ensures errors == [] <==> before == [] && AuditedJoint(joints, p, i, clamp)
  {
    hide Decomposes;
    errors := Demand(before, clamp.None? || clamp.value.joint == joints[i].name, "clamp joint mismatch");
    var fits := CheckDecomposition(p, i, clamp);
    errors := Demand(errors, fits, "effective pose is not source+trim(+clamp)");
    errors := Demand(errors, !(p.pose[i] < joints[i].lower || p.pose[i] > joints[i].upper),
                     "joint target outside physical limits");
    errors := Demand(errors, !(p.previous[i] < -1.0 || p.previous[i] > 1.0),
                     "previous action outside [-1,1]");
  }

  // configure_policy_handoff, from the loaded profile on.
  method ConfigureHandoff(policy: Policy, joints: Joints, p: Profile) returns (ok: bool)
    ensures ok == NodeAccepts(policy, joints, p)
  {
    hide Limit;
    if p.schemaVersion != 1 || p.mode != MODE || p.task != policy.task || p.sha != ShaText(policy) {
      return false;
    }
    if |p.source| != 12 || |p.trim| != 12 || |p.pose| != 12 || |p.previous| != 12
       || |p.command| != 3 || |p.phase| != 2 || p.jointOrder != Names(joints) {
      return false;
    }
    for i := 0 to NUM_JOINTS
      invariant forall j :: 0 <= j < i ==>
        Recomputes(joints, p, j) && joints[j].lower <= p.pose[j] <= joints[j].upper
      invariant forall j :: 0 <= j < i ==> -1.0 <= p.previous[j] <= 1.0
    {
      var expected := Limit(joints[i], p.source[i] + p.trim[i]);
      if Abs(p.pose[i] - expected) > TOLERANCE {
        return false;
      }
      if p.pose[i] < joints[i].lower || p.pose[i] > joints[i].upper {
        return false;
      }
      if p.previous[i] < -1.0 || p.previous[i] > 1.0 {
        return false;
      }
    }
    if Abs(p.command[0]) > TOLERANCE || Abs(p.command[1]) > TOLERANCE || Abs(p.command[2]) > TOLERANCE {
      return false;
    }
    return !(policy.neutralStatic && (Abs(p.phase[0]) > TOLERANCE || Abs(p.phase[1] - 1.0) > TOLERANCE));
  }

  // ------------------------------------------------------------------------------- theorems

  predicate ProperLimits(joints: Joints) {
    forall i :: 0 <= i < NUM_JOINTS ==> joints[i].lower <= joints[i].upper
  }

  // The records name exactly the joints that were clamped, once each.
  lemma {:induction false} RecordsByIndex(joints: Joints, pose: seq<real>, trim: seq<real>, n: nat)
    requires |pose| == |trim| == NUM_JOINTS && n <= NUM_JOINTS
    ensures GoodIndices(ClampRecords(joints, pose, trim, n))
    ensures forall i: nat :: i < NUM_JOINTS ==>
              ClampAt(ClampRecords(joints, pose, trim, n), i) ==
                if i < n then RecordFor(joints[i], pose[i] + trim[i], i) else None
  {
    hide GoodIndices, ClampAt, RecordFor;
    if n == 0 {
      NoRecords();
    } else {
      RecordsByIndex(joints, pose, trim, n - 1);
      var before := ClampRecords(joints, pose, trim, n - 1);
      var record := RecordFor(joints[n - 1], pose[n - 1] + trim[n - 1], n - 1);
      if record.Some? {
        GoodMore(before, record.value);
        forall i: nat | i < NUM_JOINTS
          ensures ClampAt(before + [record.value], i) ==
                    if ClampAt(before, i).Some? then ClampAt(before, i)
                    else if n - 1 == i then record else None
        {
          ClampAtMore(before, record.value, i);
        }
      }
    }
  }

  predicate WithinMicro(x: real, y: real) { -0.000001 <= x - y <= 0.000001 }

  // An installed profile keeps the calibrated trim of the one it replaces exactly if that is for the
  // same policy and the same analyzer pose.
  predicate Inherits(source: Source, policy: Policy, existing: Option<Profile>) {
    && existing.Some? && |existing.value.source| == |source.pose| == |existing.value.trim| == 12
    && existing.value.task == policy.task
    && existing.value.sha == (if policy.sha.Some? then policy.sha.value else "")
    && forall i :: 0 <= i < 12 ==> WithinMicro(existing.value.source[i], source.pose[i])
  }

  // What the installer accepts: the analyzer's report is for this policy and these joints, its
  // pose with the trim exceeds no joint limit by more than 0.002 rad, its actions are bounded and
  // its command is zero.
  lemma InstallsExactly(source: Source, policy: Policy, joints: Joints, existing: Option<Profile>)
    requires ProperLimits(joints)
    ensures Installable(source, policy, joints, existing) <==>
      && source.schemaVersion == 2 && source.task == policy.task
      && source.crosscheck.Some? && source.crosscheck.value <= 0.000001
      && |source.jointOrder| == 12 && (forall i :: 0 <= i < 12 ==> source.jointOrder[i] == joints[i].name)
      && |source.pose| == 12 && |source.previous| == 12 && |source.defaults| == 12 && |policy.defaults| == 12
      && (forall i :: 0 <= i < 12 ==> -0.00001 <= source.defaults[i] - policy.defaults[i] <= 0.00001)
      && (forall i :: 0 <= i < 12 ==> -1.0 <= source.previous[i] <= 1.0)
      && source.command == [0.0, 0.0, 0.0]
      && forall i :: 0 <= i < 12 ==>
           var q := source.pose[i] + if Inherits(source, policy, existing) then existing.value.trim[i] else 0.0;
           joints[i].lower - 0.002 <= q <= joints[i].upper + 0.002
  {
    SameTrim(source, policy, existing);
    if |source.jointOrder| == 12 && forall i :: 0 <= i < 12 ==> source.jointOrder[i] == joints[i].name {
      assert source.jointOrder == Names(joints);
    }
  }

  lemma SameTrim(source: Source, policy: Policy, existing: Option<Profile>)
    ensures |source.pose| == 12 ==> (KeepsTrim(source, policy, existing) <==> Inherits(source, policy, existing))
    ensures !Inherits(source, policy, existing) && |source.pose| == 12 ==>
              forall i :: 0 <= i < 12 ==> TrimFor(source, policy, existing)[i] == 0.0
  {
  }

  // And what it installs, joint by joint.
  lemma InstalledProfile(
    source: Source, policy: Policy, joints: Joints, existing: Option<Profile>, i: nat)
    requires Installable(source, policy, joints, existing) && ProperLimits(joints) && i < 12
    ensures var p := Installed(source, policy, joints, existing);
      && p.schemaVersion == 1 && p.mode == "learned_zero_command" && p.task == policy.task
      && p.sha == (if policy.sha.Some? then policy.sha.value else "")
      && p.jointOrder == source.jointOrder && p.source == source.pose && p.previous == source.previous
      && p.command == [0.0, 0.0, 0.0] && p.phase == [0.0, 1.0] && p.crosscheck == source.crosscheck
      && |p.trim| == 12 && |p.pose| == 12
      && p.trim[i] == (if Inherits(source, policy, existing) then existing.value.trim[i] else 0.0)
      && var q := p.source[i] + p.trim[i];
         p.pose[i] == if q < joints[i].lower then joints[i].lower
                      else if q > joints[i].upper then joints[i].upper else q
  {
    hide ClampRecords, Reachable;
    SameTrim(source, policy, existing);
  }

  // The records the checkers read: indices of joints, no joint twice.
  ghost predicate OneRecordEach(clamps: seq<Clamp>) {
    && (forall k :: 0 <= k < |clamps| ==> 0 <= clamps[k].index < 12)
    && (forall k, l :: 0 <= k < l < |clamps| ==> clamps[k].index != clamps[l].index)
  }

  // The pose of joint i is source plus trim, or what its record declares, where the record agrees
  // with source plus trim and with itself; all to a millionth of a radian.
  ghost predicate PoseExplained(p: Profile, i: nat)
    requires i < |p.source| && i < |p.trim| && i < |p.pose|
  {
    var q := p.source[i] + p.trim[i];
    && ((forall k :: 0 <= k < |p.clamps| ==> p.clamps[k].index != i) ==> WithinMicro(p.pose[i], q))
    && forall k :: 0 <= k < |p.clamps| && p.clamps[k].index == i ==>
         && WithinMicro(p.clamps[k].pre, q)
         && WithinMicro(p.clamps[k].effective - p.clamps[k].pre, p.clamps[k].delta)
         && WithinMicro(p.pose[i], p.clamps[k].effective)
  }

  lemma OneRecordOnly(clamps: seq<Clamp>, i: nat, k: nat)
    requires OneRecordEach(clamps) && k < |clamps| && clamps[k].index == i
    ensures ClampAt(clamps, i) == Some(clamps[k])
  {
  }

  lemma ExplainedIsDecomposed(p: Profile, i: nat)
    requires Twelve(p) && i < 12 && OneRecordEach(p.clamps)
    ensures Decomposes(p, i, ClampAt(p.clamps, i)) <==> PoseExplained(p, i)
  {
    hide ClampAt;
    forall k: nat | k < |p.clamps| && p.clamps[k].index == i
      ensures ClampAt(p.clamps, i) == Some(p.clamps[k])
    {
      OneRecordOnly(p.clamps, i, k);
    }
  }

  // What the handoff tool demands of a profile.
  lemma ToolAcceptsExactly(p: Profile)
    ensures ToolAccepts(p) <==>
      && p.schemaVersion == 1 && p.mode == "learned_zero_command"
      && |p.source| == 12 && |p.trim| == 12 && |p.pose| == 12 && |p.previous| == 12
      && OneRecordEach(p.clamps)
      && forall i :: 0 <= i < 12 ==> PoseExplained(p, i)
  {
    hide ClampAt, Decomposes, PoseExplained;
    if Twelve(p) && OneRecordEach(p.clamps) {
      forall i: nat | i < 12
        ensures Decomposes(p, i, ClampAt(p.clamps, i)) <==> PoseExplained(p, i)
      {
        ExplainedIsDecomposed(p, i);
      }
    }
  }

  // What the audit demands beyond that: the active policy and joints, named records, a pose inside
  // the joint limits, bounded actions, a zero command, the neutral phase and the cross-check.
  lemma AuditAcceptsExactly(policy: Policy, joints: Joints, p: Profile)
    ensures AuditAccepts(policy, joints, p) <==>
      && ToolAccepts(p)
      && p.task == policy.task && policy.sha == Some(p.sha)
      && |p.jointOrder| == 12 && (forall i :: 0 <= i < 12 ==> p.jointOrder[i] == joints[i].name)
      && (forall k :: 0 <= k < |p.clamps| ==> p.clamps[k].joint == joints[p.clamps[k].index].name)
      && (forall i :: 0 <= i < 12 ==> joints[i].lower <= p.pose[i] <= joints[i].upper)
      && (forall i :: 0 <= i < 12 ==> -1.0 <= p.previous[i] <= 1.0)
      && p.command == [0.0, 0.0, 0.0]
      && (policy.neutralStatic ==> p.phase == [0.0, 1.0])
      && (p.crosscheck.Some? ==> p.crosscheck.value <= 0.000001)
  {
    if |p.jointOrder| == 12 && forall i :: 0 <= i < 12 ==> p.jointOrder[i] == joints[i].name {
      assert p.jointOrder == Names(joints);
    }
    if Twelve(p) && GoodIndices(p.clamps) {
      AuditedJoints(joints, p);
    }
    if AuditAccepts(policy, joints, p) {
      assert forall i :: 0 <= i < 12 ==> Decomposes(p, i, ClampAt(p.clamps, i));
    }
  }

  lemma AuditedJoints(joints: Joints, p: Profile)
    requires Twelve(p) && OneRecordEach(p.clamps)
    ensures (forall i :: 0 <= i < 12 ==> AuditedAt(joints, p, i)) <==>
      && (forall i :: 0 <= i < 12 ==> Decomposes(p, i, ClampAt(p.clamps, i)))
      && (forall k :: 0 <= k < |p.clamps| ==> p.clamps[k].joint == joints[p.clamps[k].index].name)
      && (forall i :: 0 <= i < 12 ==> joints[i].lower <= p.pose[i] <= joints[i].upper)
      && (forall i :: 0 <= i < 12 ==> -1.0 <= p.previous[i] <= 1.0)
  {
    hide ClampAt, Decomposes;
    NamedRecords(joints, p.clamps);
    forall i: nat | i < 12
      ensures AuditedAt(joints, p, i) <==>
        && Decomposes(p, i, ClampAt(p.clamps, i))
        && (ClampAt(p.clamps, i).Some? ==> ClampAt(p.clamps, i).value.joint == joints[i].name)
        && joints[i].lower <= p.pose[i] <= joints[i].upper && -1.0 <= p.previous[i] <= 1.0
    {
    }
  }

  lemma NamedRecords(joints: Joints, clamps: seq<Clamp>)
    requires OneRecordEach(clamps)
    ensures (forall k :: 0 <= k < |clamps| ==> clamps[k].joint == joints[clamps[k].index].name) <==>
            (forall i: nat :: i < 12 && ClampAt(clamps, i).Some? ==>
               ClampAt(clamps, i).value.joint == joints[i].name)
  {
    hide ClampAt;
    forall k: nat | k < |clamps| ensures ClampAt(clamps, clamps[k].index) == Some(clamps[k]) {
      OneRecordOnly(clamps, clamps[k].index, k);
    }
    forall i: nat | i < 12 && ClampAt(clamps, i).Some?
      ensures exists k :: 0 <= k < |clamps| && clamps[k] == ClampAt(clamps, i).value && clamps[k].index == i
    {
    }
  }

  // What the node demands: it recomputes the clamp and reads no records.
  lemma NodeAcceptsExactly(policy: Policy, joints: Joints, p: Profile)
    requires ProperLimits(joints)
    ensures NodeAccepts(policy, joints, p) <==>
      && p.schemaVersion == 1 && p.mode == "learned_zero_command" && p.task == policy.task
      && p.sha == (if policy.sha.Some? then policy.sha.value else "")
      && |p.source| == 12 && |p.trim| == 12 && |p.pose| == 12 && |p.previous| == 12
      && |p.command| == 3 && |p.phase| == 2
      && |p.jointOrder| == 12 && (forall i :: 0 <= i < 12 ==> p.jointOrder[i] == joints[i].name)
      && (forall i :: 0 <= i < 12 ==>
            && joints[i].lower <= p.pose[i] <= joints[i].upper && -1.0 <= p.previous[i] <= 1.0
            && var q := p.source[i] + p.trim[i];
               WithinMicro(p.pose[i], if q < joints[i].lower then joints[i].lower
                                      else if q > joints[i].upper then joints[i].upper else q))
      && (forall i :: 0 <= i < 3 ==> WithinMicro(p.command[i], 0.0))
      && (policy.neutralStatic ==> WithinMicro(p.phase[0], 0.0) && WithinMicro(p.phase[1], 1.0))
  {
    if |p.jointOrder| == 12 && forall i :: 0 <= i < 12 ==> p.jointOrder[i] == joints[i].name {
      assert p.jointOrder == Names(joints);
    }
  }

  // Every profile the installer produces for a policy with a checksum is accepted by the handoff
  // tool, by the audit and by the node.
  lemma InstalledIsAccepted(source: Source, policy: Policy, joints: Joints, existing: Option<Profile>)
    requires Installable(source, policy, joints, existing)
    requires policy.sha.Some? && ProperLimits(joints)
    ensures var p := Installed(source, policy, joints, existing);
            ToolAccepts(p) && AuditAccepts(policy, joints, p) && NodeAccepts(policy, joints, p)
  {
    hide ClampAt, GoodIndices, ClampRecords, KeepsTrim;
    var p := Installed(source, policy, joints, existing);
    RecordsByIndex(joints, p.source, p.trim, NUM_JOINTS);
    forall i | 0 <= i < NUM_JOINTS
      ensures AuditedAt(joints, p, i) && Recomputes(joints, p, i)
    {
      assert p.pose[i] == Limit(joints[i], p.source[i] + p.trim[i]);
    }
  }

  // Installing again over one's own result changes nothing: the calibrated trim survives.
  lemma ReinstallKeepsTrim(source: Source, policy: Policy, joints: Joints, existing: Option<Profile>)
    requires Installable(source, policy, joints, existing)
    ensures var p := Installed(source, policy, joints, existing);
            && Installable(source, policy, joints, Some(p))
            && Installed(source, policy, joints, Some(p)) == p
  {
    hide Limit, ClampRecords, EffectivePose;
  }

  // A profile of another policy, or of another analyzer pose, contributes no trim.
  lemma NewIdentityStartsUntrimmed(source: Source, policy: Policy, joints: Joints, existing: Profile)
    requires Installable(source, policy, joints, Some(existing))
    requires existing.task != policy.task || existing.sha != ShaText(policy)
             || !SameSource(existing.source, source.pose)
    ensures forall i :: 0 <= i < NUM_JOINTS ==>
              Installed(source, policy, joints, Some(existing)).trim[i] == 0.0
  {
  }

  // So a policy switched away from and back starts without the trim it had.
  lemma SwitchingForgetsTrim(
    source: Source, policy: Policy, other: Source, between: Policy, joints: Joints, existing: Profile)
    requires policy.task != between.task || ShaText(policy) != ShaText(between)
    requires Installable(other, between, joints, Some(existing))
    requires var p := Installed(other, between, joints, Some(existing));
             Installable(source, policy, joints, Some(p))
    ensures var p := Installed(other, between, joints, Some(existing));
            Installed(source, policy, joints, Some(p)).trim == NoTrim()
  {
    hide Installable, ClampRecords, EffectivePose;
    var p := Installed(other, between, joints, Some(existing));
    NewIdentityStartsUntrimmed(source, policy, joints, p);
  }

  // Whatever the audit accepts, the tool's loader accepts.
  lemma AuditCoversTool(policy: Policy, joints: Joints, p: Profile)
    requires AuditAccepts(policy, joints, p)
    ensures ToolAccepts(p)
  {
    hide ClampAt, GoodIndices, Decomposes;
    forall i | 0 <= i < NUM_JOINTS ensures Decomposes(p, i, ClampAt(p.clamps, i)) {
      assert AuditedAt(joints, p, i);
    }
  }

  // Limiting brings a value no further from anything inside the limits.
  lemma LimitIsNearer(j: Joint, q: real, x: real)
    requires j.lower <= q <= j.upper && Close(q, x)
    ensures Close(q, Limit(j, x))
  {
  }

  // A profile the audit accepts is accepted by the node exactly when its phase has two values and
  // every joint with a declared clamp record stands where the node's own clamp puts it. Joints
  // without a record never make a difference.
  lemma AuditedProfileOnNode(policy: Policy, joints: Joints, p: Profile)
    requires AuditAccepts(policy, joints, p)
    ensures NodeAccepts(policy, joints, p) <==>
              && |p.phase| == 2
              && forall i :: 0 <= i < NUM_JOINTS && ClampAt(p.clamps, i).Some? ==> Recomputes(joints, p, i)
  {
    hide ClampAt, GoodIndices, Limit;
    forall i | 0 <= i < NUM_JOINTS
      ensures joints[i].lower <= p.pose[i] <= joints[i].upper && -1.0 <= p.previous[i] <= 1.0
      ensures ClampAt(p.clamps, i).None? ==> Close(p.pose[i], p.source[i] + p.trim[i])
    {
      assert AuditedAt(joints, p, i);
    }
    forall i | 0 <= i < NUM_JOINTS && ClampAt(p.clamps, i).None? ensures Recomputes(joints, p, i) {
      LimitIsNearer(joints[i], p.pose[i], p.source[i] + p.trim[i]);
    }
  }

  // The audit trusts a declared clamp: one that moves a joint half a radian within its limits
  // passes the audit and the tool, and fails on the node.
  lemma DeclaredClampFoolsAudit(policy: Policy, joints: Joints, p: Profile)
    requires policy == Policy("walk", Some("00"), true, NoTrim())
    requires joints == seq(NUM_JOINTS, _ => Joint("joint", -1.0, 1.0))
    requires p == Profile(1, MODE, "walk", "00", Names(joints), NoTrim(), NoTrim(), NoTrim()[0 := 0.5],
                          [Clamp(0, "joint", 0.0, 0.5, 0.5)], NoTrim(), [0.0, 0.0, 0.0], [0.0, 1.0], None)
    ensures AuditAccepts(policy, joints, p) && ToolAccepts(p) && !NodeAccepts(policy, joints, p)
  {
    assert p.clamps[..0] == [];
    assert ClampAt(p.clamps, 0) == Some(p.clamps[0]);
    assert !Recomputes(joints, p, 0);
  }
}
