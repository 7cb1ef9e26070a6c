/**
 The authority and IMU gates of the policy node. Its callbacks share one mutually exclusive group,
 so each runs to its end before the next begins. Times are nanoseconds of the steady clock.
 */
module PolicyGate {
  import opened Outcome
  import opened Poses
  import opened Reals
  import opened PolicyVectors

  datatype Mode = Live | Shadow | Disabled

  datatype Profile = Profile(pose: Pose, previousAction: Pose)

  datatype Config = Config(
    mode: Mode, handoffRequired: bool, latchOnDiscontinuity: bool, overrideImu: bool,
    startupHold: nat, recoveryHold: nat, imuTimeout: nat, gapReset: nat,
    jumpThreshold: real, stationaryGyro: real,
    profile: Option<Profile>, jointTolerance: real, velocityLimit: real, commandTolerance: real,
    gyroLimit: real, tiltLimit: real, actions: Actions)

  // What make_ready_snapshot copies besides the previous action, and whether every joint
  // feedback it checks is present and recent. Tilt and angular speed arrive computed.
  datatype Snapshot = Snapshot(
    jointsReady: bool, positions: Pose, velocities: Pose, command: seq<real>,
    angularVelocity: seq<real>, gravity: seq<real>, angularSpeed: real, tilt: real,
    phase: Option<(real, real)>)

  predicate WellFormed(v: Snapshot) {
    |v.command| == 3 && |v.angularVelocity| == 3 && |v.gravity| == 3
  }

  datatype Gate = Gate(
    armed: bool, authority: bool, previous: Pose,
    haveImu: bool, lastImu: int, inhibitUntil: int)

  // What the node is asked to do, each at a time.
  datatype Request =
    | Imu(valid: bool, jump: real, angularSpeed: real)
    | Arm(view: Snapshot) | Enable(view: Snapshot) | Disable
    | Tick(view: Snapshot, output: Option<Pose>)  // None: inference failed or was rejected

  datatype Event = Event(time: int, request: Request)

  // What a callback shows outside: a service reply, the observation given to inference, and a
  // published target.
  datatype Output = Output(reply: Option<bool>, observed: Option<seq<real>>, published: Option<Pose>)

  const SILENT := Output(None, None, None)

  function Initial(c: Config): Gate {
    Gate(false, !c.handoffRequired, seq(NUM_JOINTS, _ => 0.0), false, 0, 0)
  }

  predicate Discontinuity(c: Config, g: Gate, e: Event) {
    e.request.Imu? && e.request.valid && g.haveImu &&
    (e.time - g.lastImu > c.gapReset
     || (e.request.jump > c.jumpThreshold && e.request.angularSpeed < c.stationaryGyro))
  }

  predicate Latches(c: Config) { c.mode == Live && c.handoffRequired && c.latchOnDiscontinuity }

  predicate Ready(c: Config, g: Gate, now: int, v: Snapshot) {
    && (c.overrideImu || (g.haveImu && now - g.lastImu <= c.imuTimeout && now >= g.inhibitUntil))
    && v.jointsReady
  }

  // validate_policy_handoff_state
  predicate AtHandoffPose(c: Config, v: Snapshot) {
    && c.profile.Some?
    && (forall i :: 0 <= i < NUM_JOINTS ==> Abs(v.velocities[i]) <= c.velocityLimit)
    && (0.0 <= c.jointTolerance
        && forall i :: 0 <= i < NUM_JOINTS ==>
             Abs(v.positions[i] - c.profile.value.pose[i]) <= c.jointTolerance)
    && (forall i :: 0 <= i < |v.command| ==> Abs(v.command[i]) <= c.commandTolerance)
    && v.angularSpeed <= c.gyroLimit
    && v.tilt <= c.tiltLimit
  }

  function NextImu(c: Config, g: Gate, e: Event): Gate
    requires e.request.Imu?
  {
    if !e.request.valid then g
    else
      var h := g.(haveImu := true, lastImu := e.time);
      if !g.haveImu then h.(inhibitUntil := e.time + c.startupHold)
      else if Discontinuity(c, g, e) then
        var k := h.(inhibitUntil := e.time + c.recoveryHold);
        if Latches(c) then k.(authority := false, armed := false) else k
      else h
  }

  function NextArm(c: Config, g: Gate, now: int, v: Snapshot): (Gate, bool) {
    if !c.handoffRequired then (g, false)
    else
      var h := g.(authority := false);
      if !Ready(c, h, now, v) || !AtHandoffPose(c, v) then (h, false)
      else (h.(previous := c.profile.value.previousAction, armed := true), true)
  }

  function NextEnable(c: Config, g: Gate, now: int, v: Snapshot): (Gate, bool) {
    if !c.handoffRequired || !g.armed || !Ready(c, g, now, v) then (g, false)
    else if !AtHandoffPose(c, v) then (g.(armed := false), false)
    else (g.(previous := c.profile.value.previousAction, authority := true), true)
  }

  predicate Infers(c: Config, g: Gate, now: int, v: Snapshot) {
    Ready(c, g, now, v) && c.mode != Disabled && (c.handoffRequired ==> g.authority)
  }

  function Observed(c: Config, g: Gate, v: Snapshot): seq<real>
    requires WellFormed(v)
  {
    var relative := seq(NUM_JOINTS, i requires 0 <= i < NUM_JOINTS =>
      v.positions[i] - c.actions.defaults[i]);
    Observation(v.command, if c.overrideImu then [0.0, 0.0, 0.0] else v.angularVelocity,
                if c.overrideImu then [0.0, 0.0, -1.0] else v.gravity,
                relative, v.velocities, g.previous, v.phase)
  }

  function NextTick(c: Config, g: Gate, now: int, v: Snapshot, output: Option<Pose>): (Gate, Output)
    requires c.actions.Valid() && WellFormed(v)
  {
    if !Infers(c, g, now, v) then (g, SILENT)
    else if output == None then (g, Output(None, Some(Observed(c, g, v)), None))
    else
      var bounded := Bounded(c.actions, output.value);
      (g.(previous := bounded),
       Output(None, Some(Observed(c, g, v)),
              if c.mode == Live then Some(TargetOf(c.actions, bounded)) else None))
  }

  predicate Admissible(c: Config, e: Event) {
    && c.actions.Valid()
    && (e.request.Tick? ==> WellFormed(e.request.view))
  }

  function Next(c: Config, g: Gate, e: Event): (Gate, Output)
    requires Admissible(c, e)
  {
    match e.request
    case Imu(_, _, _) => (NextImu(c, g, e), SILENT)
    case Arm(v) => var (h, ok) := NextArm(c, g, e.time, v); (h, Output(Some(ok), None, None))
    case Enable(v) => var (h, ok) := NextEnable(c, g, e.time, v); (h, Output(Some(ok), None, None))
    case Disable => (g.(authority := false, armed := false), Output(Some(true), None, None))
    case Tick(v, output) => NextTick(c, g, e.time, v, output)
  }

  // The node as its methods run it: the shadow topic apart, one field per variable of the source.
  class PolicyNode {
    const config: Config
    var armed: bool
    var authority: bool
    var previous: Pose
    var haveImu: bool
    var lastImu: int
    var inhibitUntil: int

    function State(): Gate
      reads this
    {
      Gate(armed, authority, previous, haveImu, lastImu, inhibitUntil)
    }

    constructor (config: Config)
      ensures this.config == config && State() == Initial(config)
    {
      this.config := config;
      armed, authority := false, !config.handoffRequired;
      previous := seq(NUM_JOINTS, _ => 0.0);
      haveImu, lastImu, inhibitUntil := false, 0, 0;
    }

    method ImuCallback(e: Event)
      requires e.request.Imu?
      modifies this
      ensures State() == NextImu(config, old(State()), e)
    {
      if !e.request.valid {
        return;
      }
      if !haveImu {
        inhibitUntil := e.time + config.startupHold;
      } else {
        var gap := e.time - lastImu;
        var discontinuity := gap > config.gapReset
          || (e.request.jump > config.jumpThreshold && e.request.angularSpeed < config.stationaryGyro);
        if discontinuity {
          inhibitUntil := e.time + config.recoveryHold;
          if config.mode == Live && config.handoffRequired && config.latchOnDiscontinuity {
            authority := false;
            armed := false;
          }
        }
      }
      haveImu := true;
      lastImu := e.time;
    }

    method MakeReadySnapshot(now: int, view: Snapshot) returns (ready: bool)
      ensures ready == Ready(config, State(), now, view)
    {
      if !config.overrideImu {
        if !haveImu {
          return false;
        }
        if now - lastImu > config.imuTimeout {
          return false;
        }
        if now < inhibitUntil {
          return false;
        }
      }
      return view.jointsReady;
    }

    method ValidateHandoffState(view: Snapshot) returns (ok: bool)
      ensures ok == AtHandoffPose(config, view)
    {
      if config.profile.None? {
        return false;
      }
      var pose := config.profile.value.pose;
      var maxError := 0.0;
      for i := 0 to NUM_JOINTS
        invariant maxError >= 0.0
        invariant forall j :: 0 <= j < i ==> Abs(view.positions[j] - pose[j]) <= maxError
        invariant maxError == 0.0 || exists j :: 0 <= j < i && maxError == Abs(view.positions[j] - pose[j])
        invariant forall j :: 0 <= j < i ==> Abs(view.velocities[j]) <= config.velocityLimit
      {
        maxError := Max(maxError, Abs(view.positions[i] - pose[i]));
        if Abs(view.velocities[i]) > config.velocityLimit {
          return false;
        }
      }
      if maxError > config.jointTolerance {
        return false;
      }
      for i := 0 to |view.command|
        invariant forall j :: 0 <= j < i ==> Abs(view.command[j]) <= config.commandTolerance
      {
        if Abs(view.command[i]) > config.commandTolerance {
          return false;
        }
      }
      return view.angularSpeed <= config.gyroLimit && view.tilt <= config.tiltLimit;
    }

    method ArmHandoff(now: int, view: Snapshot) returns (success: bool)
      modifies this
      ensures (State(), success) == NextArm(config, old(State()), now, view)
    {
      if !config.handoffRequired {
        return false;
      }
      authority := false;
      var ready := MakeReadySnapshot(now, view);
      if !ready {
        return false;
      }
      var valid := ValidateHandoffState(view);
      if !valid {
        return false;
      }
      previous := config.profile.value.previousAction;
      armed := true;
      return true;
    }

    method EnableAuthority(now: int, view: Snapshot) returns (success: bool)
      modifies this
      ensures (State(), success) == NextEnable(config, old(State()), now, view)
    {
      if !config.handoffRequired || !armed {
        return false;
      }
      var ready := MakeReadySnapshot(now, view);
      if !ready {
        return false;
      }
      var valid := ValidateHandoffState(view);
      if !valid {
        armed := false;
        return false;
      }
      previous := config.profile.value.previousAction;
      authority := true;
      return true;
    }

    method DisableAuthority()
      modifies this
      ensures State() == old(State()).(authority := false, armed := false)
    {
      authority := false;
      armed := false;
    }

    method RunPolicyAndPublish(now: int, view: Snapshot, inference: Option<Pose>) returns (out: Output)
      requires config.actions.Valid() && WellFormed(view)
      modifies this
      ensures (State(), out) == NextTick(config, old(State()), now, view, inference)
    {
      hide Bounded, TargetOf, Observed;
      var ready := MakeReadySnapshot(now, view);
      if !ready || config.mode == Disabled || (config.handoffRequired && !authority) {
        return SILENT;
      }
      var observation := Observed(config, State(), view);
      if inference.None? {
        return Output(None, Some(observation), None);
      }
      var bounded, _, target, _ := ComputeTarget(config.actions, inference.value);
      out := Output(None, Some(observation), if config.mode == Live then Some(target) else None);
      previous := bounded;
    }
  }

  // ------------------------------------------------------------------------------- runs

  // Any finite sequence of callbacks in the order they ran, by a clock that never goes back.
  ghost predicate IsRun(c: Config, states: seq<Gate>, events: seq<Event>) {
    && |states| == |events| + 1
    && states[0] == Initial(c)
    && (forall i :: 0 <= i < |events| ==>
          Admissible(c, events[i]) && states[i + 1] == Next(c, states[i], events[i]).0)
    && (forall i, j :: 0 <= i <= j < |events| ==> events[i].time <= events[j].time)
  }

  predicate Arms(c: Config, g: Gate, e: Event) {
    e.request.Arm? && NextArm(c, g, e.time, e.request.view).1
  }

  predicate Enables(c: Config, g: Gate, e: Event) {
    e.request.Enable? && NextEnable(c, g, e.time, e.request.view).1
  }

  // A disable, or a discontinuity where discontinuities latch.
  predicate Revokes(c: Config, g: Gate, e: Event) {
    e.request.Disable? || (Latches(c) && Discontinuity(c, g, e))
  }

  // An enable that found the robot moved away from the handoff pose.
  predicate RejectsPose(c: Config, g: Gate, e: Event) {
    && e.request.Enable? && g.armed
    && Ready(c, g, e.time, e.request.view) && !AtHandoffPose(c, e.request.view)
  }

  // A tick whose inference succeeded.
  predicate Infer(c: Config, g: Gate, e: Event) {
    e.request.Tick? && Infers(c, g, e.time, e.request.view) && e.request.output.Some?
  }

  // What one callback does to each part of the gate.
  lemma GateStep(c: Config, g: Gate, e: Event)
    requires Admissible(c, e) && c.handoffRequired
    ensures var h := Next(c, g, e).0;
            && (Arms(c, g, e) ==> h.armed && !Revokes(c, g, e) && !RejectsPose(c, g, e))
            && (Enables(c, g, e) ==> h.authority && g.armed && h.armed && !Revokes(c, g, e))
            && (Revokes(c, g, e) ==> !h.armed && !h.authority)
            && (RejectsPose(c, g, e) ==> !h.armed && h.authority == g.authority)
            && (e.request.Arm? ==> !h.authority)
            && (!Arms(c, g, e) && !Revokes(c, g, e) && !RejectsPose(c, g, e) ==> h.armed == g.armed)
            && (!Enables(c, g, e) && !Revokes(c, g, e) && !e.request.Arm? ==> h.authority == g.authority)
  {
    hide Bounded, TargetOf, Observed, Ready, AtHandoffPose;
  }

  ghost predicate ArmedSince(c: Config, states: seq<Gate>, events: seq<Event>, n: nat, k: nat)
    requires n <= |events| < |states|
  {
    && k < n && Arms(c, states[k], events[k])
    && forall m :: k < m < n ==>
         !Revokes(c, states[m], events[m]) && !RejectsPose(c, states[m], events[m])
  }

  ghost predicate EnabledSince(c: Config, states: seq<Gate>, events: seq<Event>, n: nat, k: nat)
    requires n <= |events| < |states|
  {
    && k < n && Enables(c, states[k], events[k])
    && forall m :: k < m < n ==> !Revokes(c, states[m], events[m]) && !events[m].request.Arm?
  }

  // The gate is armed exactly when an arm succeeded and, since the last success, nothing was
  // disabled, latched off, or rejected for its pose.
  lemma {:induction false} ArmedExactlySince(c: Config, states: seq<Gate>, events: seq<Event>, n: nat)
    requires IsRun(c, states, events) && n <= |events| && c.handoffRequired
    ensures states[n].armed <==> exists k: nat :: ArmedSince(c, states, events, n, k)
  {
    hide Next, Arms, Revokes, RejectsPose, Enables;
    if n > 0 {
      var g, e := states[n - 1], events[n - 1];
      ArmedExactlySince(c, states, events, n - 1);
      GateStep(c, g, e);
      forall k: nat
        ensures ArmedSince(c, states, events, n, k) <==>
                  if k == n - 1 then Arms(c, g, e)
                  else ArmedSince(c, states, events, n - 1, k)
                       && !Revokes(c, g, e) && !RejectsPose(c, g, e)
      {
      }
      assert Arms(c, g, e) ==> ArmedSince(c, states, events, n, n - 1);
      if states[n].armed && !Arms(c, g, e) {
        var k: nat :| ArmedSince(c, states, events, n - 1, k);
        assert ArmedSince(c, states, events, n, k);
      }
    }
  }

  // Authority is held exactly when an enable succeeded and, since then, there was no disable, no
  // latched discontinuity and no attempt to arm again.
  lemma {:induction false} AuthorityExactlySince(
    c: Config, states: seq<Gate>, events: seq<Event>, n: nat)
    requires IsRun(c, states, events) && n <= |events| && c.handoffRequired
    ensures states[n].authority <==> exists k: nat :: EnabledSince(c, states, events, n, k)
  {
    hide Next, Arms, Revokes, RejectsPose, Enables;
    if n > 0 {
      var g, e := states[n - 1], events[n - 1];
      AuthorityExactlySince(c, states, events, n - 1);
      GateStep(c, g, e);
      forall k: nat
        ensures EnabledSince(c, states, events, n, k) <==>
                  if k == n - 1 then Enables(c, g, e)
                  else EnabledSince(c, states, events, n - 1, k)
                       && !Revokes(c, g, e) && !e.request.Arm?
      {
      }
      assert Enables(c, g, e) ==> EnabledSince(c, states, events, n, n - 1);
      if states[n].authority && !Enables(c, g, e) {
        var k: nat :| EnabledSince(c, states, events, n - 1, k);
        assert EnabledSince(c, states, events, n, k);
      }
    }
  }

  // ------------------------------------------------------------------------------- IMU gate

  predicate ValidImu(e: Event) { e.request.Imu? && e.request.valid }

  // A sample that starts a hold: the first valid one, or a discontinuity.
  predicate StartsHold(c: Config, g: Gate, e: Event) {
    ValidImu(e) && (!g.haveImu || Discontinuity(c, g, e))
  }

  function HoldOf(c: Config, g: Gate): nat { if g.haveImu then c.recoveryHold else c.startupHold }

  ghost predicate InhibitedBy(c: Config, states: seq<Gate>, events: seq<Event>, n: nat, k: nat)
    requires n <= |events| < |states|
  {
    && k < n && StartsHold(c, states[k], events[k])
    && (forall m :: k < m < n ==> !StartsHold(c, states[m], events[m]))
    && states[n].inhibitUntil == events[k].time + HoldOf(c, states[k])
  }

  ghost predicate LastImu(states: seq<Gate>, events: seq<Event>, n: nat, k: nat)
    requires n <= |events| < |states|
  {
    && k < n && ValidImu(events[k]) && states[n].lastImu == events[k].time
    && forall m :: k < m < n ==> !ValidImu(events[m])
  }

  lemma ImuStep(c: Config, g: Gate, e: Event)
    requires Admissible(c, e)
    ensures var h := Next(c, g, e).0;
            && h.haveImu == (g.haveImu || ValidImu(e))
            && h.lastImu == (if ValidImu(e) then e.time else g.lastImu)
            && h.inhibitUntil ==
                 (if StartsHold(c, g, e) then e.time + HoldOf(c, g) else g.inhibitUntil)
  {
    hide Bounded, TargetOf, Observed, Ready, AtHandoffPose;
  }

  // The hold in force is always that of the latest sample that started one.
  lemma {:induction false} HoldIsTheLatest(c: Config, states: seq<Gate>, events: seq<Event>, n: nat)
    requires IsRun(c, states, events) && n <= |events|
    ensures states[n].haveImu <==> exists k :: 0 <= k < n && ValidImu(events[k])
    ensures states[n].haveImu ==> exists k: nat :: InhibitedBy(c, states, events, n, k)
    ensures states[n].haveImu ==> exists k: nat :: LastImu(states, events, n, k)
  {
    hide Next, StartsHold, ValidImu, HoldOf;
    if n > 0 {
      var g, e := states[n - 1], events[n - 1];
      HoldIsTheLatest(c, states, events, n - 1);
      ImuStep(c, g, e);
      if states[n].haveImu {
        assert StartsHold(c, g, e) ==> ValidImu(e) by { StartIsValid(c, g, e); }
        if StartsHold(c, g, e) {
          assert InhibitedBy(c, states, events, n, n - 1);
        } else {
          StartIsValid(c, g, e);
          var k: nat :| InhibitedBy(c, states, events, n - 1, k);
          assert InhibitedBy(c, states, events, n, k);
        }
        if ValidImu(e) {
          assert LastImu(states, events, n, n - 1);
        } else {
          var k: nat :| LastImu(states, events, n - 1, k);
          assert LastImu(states, events, n, k);
        }
      }
    }
  }

  lemma StartIsValid(c: Config, g: Gate, e: Event)
    ensures StartsHold(c, g, e) ==> ValidImu(e)
    ensures ValidImu(e) && !g.haveImu ==> StartsHold(c, g, e)
    ensures Discontinuity(c, g, e) ==> StartsHold(c, g, e) && g.haveImu
  {
  }

  // ------------------------------------------------------------------------------- theorems

  // Every inference, and so every publication, of a gated live node follows a successful arm and
  // then a successful enable, with no disable and no discontinuity after the arm and no further
  // arm attempt after the enable; it lies at least the recovery hold after every earlier
  // discontinuity, and within the IMU timeout of a valid sample.
  lemma InferenceIsAuthorised(c: Config, states: seq<Gate>, events: seq<Event>, n: nat)
    returns (arm: nat, enable: nat, imu: nat)
    requires IsRun(c, states, events) && n < |events|
    requires Latches(c) && !c.overrideImu
    requires events[n].request.Tick?
    requires var out := Next(c, states[n], events[n]).1; out.observed.Some? || out.published.Some?
    ensures arm < enable < n && imu < n
    ensures Arms(c, states[arm], events[arm]) && Enables(c, states[enable], events[enable])
    ensures forall m :: arm < m < n ==>
              !events[m].request.Disable? && !Discontinuity(c, states[m], events[m])
    ensures forall m :: enable < m < n ==> !events[m].request.Arm?
    ensures forall m :: 0 <= m < n && Discontinuity(c, states[m], events[m]) ==>
              events[n].time >= events[m].time + c.recoveryHold
    ensures ValidImu(events[imu]) && events[n].time <= events[imu].time + c.imuTimeout
  {
    hide NextImu, NextArm, NextEnable, AtHandoffPose, Bounded, TargetOf, Observed, Arms, Enables,
         StartsHold, ValidImu, Discontinuity, HoldOf, Initial, RejectsPose;
    AuthorityExactlySince(c, states, events, n);
    enable :| EnabledSince(c, states, events, n, enable);
    GateStep(c, states[enable], events[enable]);
    ArmedExactlySince(c, states, events, enable);
    arm :| ArmedSince(c, states, events, enable, arm);
    HoldIsTheLatest(c, states, events, n);
    imu :| LastImu(states, events, n, imu);
    var k: nat :| InhibitedBy(c, states, events, n, k);
    forall m | 0 <= m < n && Discontinuity(c, states[m], events[m])
      ensures events[n].time >= events[m].time + c.recoveryHold
    {
      StartIsValid(c, states[m], events[m]);
      HoldAfter(c, states, events, m, k);
    }
  }

  // If a discontinuity at m comes no later than the hold started at k, that hold is a recovery hold.
  lemma HoldAfter(c: Config, states: seq<Gate>, events: seq<Event>, m: nat, k: nat)
    requires IsRun(c, states, events) && m <= k < |events| && states[m].haveImu
    ensures HoldOf(c, states[k]) == c.recoveryHold && events[m].time <= events[k].time
  {
    hide Next;
    HoldIsTheLatest(c, states, events, m);
    HoldIsTheLatest(c, states, events, k);
  }

  // What inference sees as its previous action, since the last event that set it: the profile's
  // seed after an arm or an enable, the bounded action after a successful inference.
  lemma {:induction false} PreviousActionSince(
    c: Config, states: seq<Gate>, events: seq<Event>, k: nat, n: nat)
    requires IsRun(c, states, events) && k < n <= |events|
    requires forall m :: k < m < n ==>
               && !Arms(c, states[m], events[m]) && !Enables(c, states[m], events[m])
               && !Infer(c, states[m], events[m])
    ensures Arms(c, states[k], events[k]) || Enables(c, states[k], events[k]) ==>
              c.profile.Some? && states[n].previous == c.profile.value.previousAction
    ensures Infer(c, states[k], events[k]) ==>
              states[n].previous == Bounded(c.actions, events[k].request.output.value)
  {
    hide Next, Arms, Enables, Infer;
    PreviousStep(c, states[n - 1], events[n - 1]);
    if k < n - 1 {
      PreviousActionSince(c, states, events, k, n - 1);
    }
  }

  lemma PreviousStep(c: Config, g: Gate, e: Event)
    requires Admissible(c, e)
    ensures var h := Next(c, g, e).0;
            && (Arms(c, g, e) || Enables(c, g, e) ==>
                  c.profile.Some? && h.previous == c.profile.value.previousAction)
            && (Infer(c, g, e) ==> h.previous == Bounded(c.actions, e.request.output.value))
            && (!Arms(c, g, e) && !Enables(c, g, e) && !Infer(c, g, e) ==> h.previous == g.previous)
  {
    hide Bounded, TargetOf, Observed, Ready, Discontinuity;
  }

  // Before any such event inference sees twelve zeros.
  lemma {:induction false} PreviousAtFirst(c: Config, states: seq<Gate>, events: seq<Event>, n: nat)
    requires IsRun(c, states, events) && n <= |events|
    requires forall m :: 0 <= m < n ==>
               && !Arms(c, states[m], events[m]) && !Enables(c, states[m], events[m])
               && !Infer(c, states[m], events[m])
    ensures |states[n].previous| == 12 && forall i :: 0 <= i < 12 ==> states[n].previous[i] == 0.0
  {
    hide Next, Arms, Enables, Infer;
    if n > 0 {
      PreviousStep(c, states[n - 1], events[n - 1]);
      PreviousAtFirst(c, states, events, n - 1);
    }
  }

  // The first inference after an enable, and each repeat until one succeeds, is given exactly the
  // profile's previous-action seed in places 33 to 44 of its observation.
  lemma FirstInferenceSeesSeed(
    c: Config, states: seq<Gate>, events: seq<Event>, enable: nat, n: nat)
    requires IsRun(c, states, events) && enable < n < |events|
    requires Enables(c, states[enable], events[enable])
    requires forall m :: enable < m < n ==> !Infer(c, states[m], events[m])
    requires events[n].request.Tick? && Next(c, states[n], events[n]).1.observed.Some?
    ensures c.profile.Some?
    ensures Next(c, states[n], events[n]).1.observed.value[33..45] == c.profile.value.previousAction
  {
    hide Arms, Enables, Infer, NextImu, NextArm, NextEnable, Bounded, TargetOf, AtHandoffPose,
         Discontinuity, Ready, Initial, Observation;
    SeedStays(c, states, events, enable, n);
  }

  lemma {:induction false} SeedStays(
    c: Config, states: seq<Gate>, events: seq<Event>, enable: nat, n: nat)
    requires IsRun(c, states, events) && enable < n <= |events|
    requires Enables(c, states[enable], events[enable])
    requires forall m :: enable < m < n ==> !Infer(c, states[m], events[m])
    ensures c.profile.Some? && states[n].previous == c.profile.value.previousAction
  {
    hide Next, Arms, Enables, Infer;
    PreviousStep(c, states[n - 1], events[n - 1]);
    if enable < n - 1 {
      SeedStays(c, states, events, enable, n - 1);
    }
  }

  // Only a live, authorised tick publishes, and what it publishes lies within the joint limits;
  // the action it remembers lies within the action limits.
  lemma PublicationIsBounded(c: Config, g: Gate, e: Event, i: nat)
    requires Admissible(c, e) && i < NUM_JOINTS
    ensures var (h, out) := Next(c, g, e);
            out.published.Some? ==>
              && c.mode == Live && (c.handoffRequired ==> g.authority) && Infer(c, g, e)
              && out.observed.Some?
              && c.actions.jointLower[i] <= out.published.value[i] <= c.actions.jointUpper[i]
              && c.actions.actionLower[i] <= h.previous[i] <= c.actions.actionUpper[i]
              && out.published.value == TargetOf(c.actions, h.previous)
  {
    hide Observed, AtHandoffPose, Discontinuity;
  }

  // ------------------------------------------------------------------------------- inputs and outputs

  // What is published for a joint: the default position plus the scaled action remembered, or the
  // joint limit it exceeds; and the action remembered is the one inferred, or the limit it exceeds.
  lemma PublishedTarget(c: Config, g: Gate, e: Event, i: nat)
    requires Admissible(c, e) && i < NUM_JOINTS && Next(c, g, e).1.published.Some?
    ensures e.request.Tick? && e.request.output.Some?
    ensures
      var a, h, target := c.actions, Next(c, g, e).0, Next(c, g, e).1.published.value[i];
      var q := a.defaults[i] + a.scale[i] * h.previous[i];
      var action := e.request.output.value[i];
      && target == (if q < a.jointLower[i] then a.jointLower[i]
                    else if q > a.jointUpper[i] then a.jointUpper[i] else q)
      && h.previous[i] == (if action < a.actionLower[i] then a.actionLower[i]
                           else if action > a.actionUpper[i] then a.actionUpper[i] else action)
  {
    hide Observed, AtHandoffPose, Discontinuity, Ready, Bounded, TargetOf, Unclipped;
    BoundedAt(c.actions, e.request.output.value, i);
    TargetAt(c.actions, Next(c, g, e).0.previous, i);
  }

  lemma BoundedAt(a: Actions, raw: Pose, i: nat)
    requires a.Valid() && i < NUM_JOINTS
    ensures Bounded(a, raw)[i] ==
              if raw[i] < a.actionLower[i] then a.actionLower[i]
              else if raw[i] > a.actionUpper[i] then a.actionUpper[i] else raw[i]
  {
  }

  lemma TargetAt(a: Actions, bounded: Pose, i: nat)
    requires a.Valid() && i < NUM_JOINTS
    ensures var q := a.defaults[i] + a.scale[i] * bounded[i];
            TargetOf(a, bounded)[i] ==
              if q < a.jointLower[i] then a.jointLower[i]
              else if q > a.jointUpper[i] then a.jointUpper[i] else q
  {
    hide Clip;
    assert Unclipped(a, bounded[i], i) == a.defaults[i] + a.scale[i] * bounded[i];
  }

  // What inference is given: command, rate and gravity (or a level robot at rest, with the IMU
  // overridden), each joint's offset from its default, its velocity, the action before, the phase.
  lemma ObservedState(c: Config, g: Gate, e: Event, i: nat)
    requires Admissible(c, e) && i < NUM_JOINTS && Next(c, g, e).1.observed.Some?
    ensures e.request.Tick?
    ensures
      var v, o := e.request.view, Next(c, g, e).1.observed.value;
      && |o| == (if v.phase.Some? then 47 else 45)
      && o[0..3] == v.command
      && o[3..6] == (if c.overrideImu then [0.0, 0.0, 0.0] else v.angularVelocity)
      && o[6..9] == (if c.overrideImu then [0.0, 0.0, -1.0] else v.gravity)
      && o[9..21][i] == v.positions[i] - c.actions.defaults[i]
      && o[21..33][i] == v.velocities[i] && o[33..45][i] == g.previous[i]
      && (v.phase.Some? ==> (o[45], o[46]) == v.phase.value)
  {
    hide Bounded, TargetOf, AtHandoffPose, Discontinuity, Ready;
  }

  // The state is good enough to act on: the IMU is overridden, or has been heard recently and is
  // past every hold; and every joint has been heard recently.
  predicate Trusted(c: Config, g: Gate, now: int, v: Snapshot) {
    && v.jointsReady
    && (!c.overrideImu ==> g.haveImu && g.lastImu >= now - c.imuTimeout && g.inhibitUntil <= now)
  }

  // Inference runs in a tick, and its result is published, exactly under these conditions.
  lemma PublishesExactly(c: Config, g: Gate, e: Event)
    requires Admissible(c, e)
    ensures Next(c, g, e).1.observed.Some? <==>
              && e.request.Tick? && Trusted(c, g, e.time, e.request.view)
              && c.mode != Disabled && (c.handoffRequired ==> g.authority)
    ensures Next(c, g, e).1.published.Some? <==>
              Next(c, g, e).1.observed.Some? && e.request.output.Some? && c.mode == Live
  {
    hide Bounded, TargetOf, Observed, AtHandoffPose, Discontinuity;
  }

  // The robot stands still at the handoff pose, upright, with no command.
  predicate StandsAtPose(c: Config, v: Snapshot) {
    && c.profile.Some? && c.jointTolerance >= 0.0
    && v.angularSpeed <= c.gyroLimit && v.tilt <= c.tiltLimit
    && (forall i :: 0 <= i < NUM_JOINTS ==>
          -c.jointTolerance <= v.positions[i] - c.profile.value.pose[i] <= c.jointTolerance)
    && (forall i :: 0 <= i < NUM_JOINTS ==> -c.velocityLimit <= v.velocities[i] <= c.velocityLimit)
    && (forall i :: 0 <= i < |v.command| ==> -c.commandTolerance <= v.command[i] <= c.commandTolerance)
  }

  // Arm and enable are granted exactly where the handoff is required, the state can be trusted and
  // the robot stands at its pose; an enable also needs an armed node.
  lemma GrantsExactly(c: Config, g: Gate, e: Event)
    requires Admissible(c, e)
    ensures Arms(c, g, e) <==>
              && e.request.Arm? && c.handoffRequired
              && Trusted(c, g, e.time, e.request.view) && StandsAtPose(c, e.request.view)
    ensures Enables(c, g, e) <==>
              && e.request.Enable? && c.handoffRequired && g.armed
              && Trusted(c, g, e.time, e.request.view) && StandsAtPose(c, e.request.view)
    ensures e.request.Arm? ==> Next(c, g, e).1.reply == Some(Arms(c, g, e))
    ensures e.request.Enable? ==> Next(c, g, e).1.reply == Some(Enables(c, g, e))
    ensures e.request.Disable? ==> Next(c, g, e).1.reply == Some(true)
  {
    hide Discontinuity, NextTick;
    if e.request.Arm? || e.request.Enable? {
      SamePose(c, e.request.view);
    }
  }

  lemma SamePose(c: Config, v: Snapshot)
    ensures AtHandoffPose(c, v) <==> StandsAtPose(c, v)
  {
  }

  // A valid sample after the first starts a hold exactly after too long a gap since the last one,
  // or at a jump of the orientation that the gyro did not see.
  lemma HoldStartsExactly(c: Config, states: seq<Gate>, events: seq<Event>, k: nat, n: nat)
    requires IsRun(c, states, events) && k < n < |events| && ValidImu(events[n]) && ValidImu(events[k])
    requires forall m :: k < m < n ==> !ValidImu(events[m])
    ensures StartsHold(c, states[n], events[n]) <==>
              || events[n].time > events[k].time + c.gapReset
              || (events[n].request.jump > c.jumpThreshold
                  && events[n].request.angularSpeed < c.stationaryGyro)
    ensures HoldOf(c, states[n]) == c.recoveryHold
  {
    hide Next;
    HoldIsTheLatest(c, states, events, n);
    var j: nat :| LastImu(states, events, n, j);
  }

  // A discontinuity takes authority and arming away exactly in a live node with the handoff gate
  // and the latch configured.
  lemma DiscontinuityRevokes(c: Config, g: Gate, e: Event)
    requires Admissible(c, e) && Discontinuity(c, g, e)
    ensures var h, latches := Next(c, g, e).0, c.mode == Live && c.handoffRequired && c.latchOnDiscontinuity;
            h.authority == (g.authority && !latches) && h.armed == (g.armed && !latches)
  {
    hide NextTick, NextArm, NextEnable;
  }

  // ------------------------------------------------------------------------------- startup hold

  // The first valid sample of a run.
  ghost predicate FirstSample(states: seq<Gate>, events: seq<Event>, first: nat)
    requires |events| < |states|
  {
    first < |events| && ValidImu(events[first]) && !states[first].haveImu
  }

  // The latest sample that started a hold before n.
  ghost predicate LatestHold(c: Config, states: seq<Gate>, events: seq<Event>, n: nat, k: nat)
    requires n <= |events| < |states|
  {
    && k < n && StartsHold(c, states[k], events[k])
    && forall m :: k < m < n ==> !StartsHold(c, states[m], events[m])
  }

  lemma LatestHoldInhibits(c: Config, states: seq<Gate>, events: seq<Event>, first: nat, n: nat, k: nat)
    requires IsRun(c, states, events) && first < n <= |events| && FirstSample(states, events, first)
    requires LatestHold(c, states, events, n, k)
    ensures first <= k && (first < k <==> states[k].haveImu)
    ensures states[n].inhibitUntil == events[k].time + HoldOf(c, states[k])
  {
    hide Next, StartsHold, ValidImu, HoldOf, Initial;
    StartIsValid(c, states[first], events[first]);
    StartIsValid(c, states[k], events[k]);
    HoldIsTheLatest(c, states, events, n);
    HoldIsTheLatest(c, states, events, first);
    HoldIsTheLatest(c, states, events, k);
    assert states[n].haveImu;
    var i: nat :| InhibitedBy(c, states, events, n, i);
  }

  // The hold in force ends before the startup hold would exactly when a later discontinuity
  // replaced it with a recovery hold that ends before it.
  lemma StartupHoldEndsEarly(c: Config, states: seq<Gate>, events: seq<Event>, first: nat, n: nat)
    requires IsRun(c, states, events) && first < n <= |events| && FirstSample(states, events, first)
    ensures states[n].inhibitUntil < events[first].time + c.startupHold <==>
            exists k: nat :: first < k && LatestHold(c, states, events, n, k)
              && events[k].time + c.recoveryHold < events[first].time + c.startupHold
  {
    hide Next, StartsHold, ValidImu, Initial;
    StartIsValid(c, states[first], events[first]);
    HoldIsTheLatest(c, states, events, n);
    assert states[n].haveImu;
    var k: nat :| InhibitedBy(c, states, events, n, k);
    LatestHoldInhibits(c, states, events, first, n, k);
    assert k == first ==> states[n].inhibitUntil == events[first].time + c.startupHold;
    forall j: nat | LatestHold(c, states, events, n, j)
      ensures j == k
    {
    }
  }

  // So with a recovery hold no shorter than the startup hold, no run is ready before the startup
  // hold has passed.
  lemma StartupHoldLasts(
    c: Config, states: seq<Gate>, events: seq<Event>, first: nat, n: nat, now: int, v: Snapshot)
    requires IsRun(c, states, events) && first < n <= |events| && FirstSample(states, events, first)
    requires !c.overrideImu && c.recoveryHold >= c.startupHold && Ready(c, states[n], now, v)
    ensures now >= events[first].time + c.startupHold
  {
    hide Next, StartsHold, ValidImu, Initial;
    StartupHoldEndsEarly(c, states, events, first, n);
  }

  // A run of samples one nanosecond apart, the second of which jumps.
  function Samples(c: Config, start: int, jump: real, speed: real): seq<Event> {
    seq(c.recoveryHold + 2, i requires 0 <= i =>
      Event(start + if i <= 1 then 0 else i - 1,
            if i == 1 then Imu(true, jump, speed) else Imu(true, c.jumpThreshold, speed)))
  }

  function AfterSamples(c: Config, start: int, i: nat): Gate {
    if i == 0 then Initial(c)
    else if i == 1 then Initial(c).(haveImu := true, lastImu := start, inhibitUntil := start + c.startupHold)
    else
      var g := Initial(c).(haveImu := true, lastImu := start + (i - 2), inhibitUntil := start + c.recoveryHold);
      if Latches(c) then g.(authority := false, armed := false) else g
  }

  // With a shorter recovery hold some run is ready early, whatever the IMU timeout: one jump just
  // after the first sample, then samples without a gap until the recovery hold is over.
  lemma RecoveryCanShortenStartup(c: Config, start: int, jump: real, speed: real, v: Snapshot)
    returns (states: seq<Gate>, events: seq<Event>)
    requires c.actions.Valid() && v.jointsReady && c.gapReset > 0
    requires jump > c.jumpThreshold && speed < c.stationaryGyro
    requires c.recoveryHold < c.startupHold
    ensures IsRun(c, states, events) && FirstSample(states, events, 0) && events[0].time == start
    ensures Ready(c, states[|events|], start + c.recoveryHold, v)
    ensures start + c.recoveryHold < events[0].time + c.startupHold
  {
    events := Samples(c, start, jump, speed);
    states := seq(|events| + 1, i requires 0 <= i => AfterSamples(c, start, i));
    forall i | 0 <= i < |events|
      ensures Admissible(c, events[i]) && states[i + 1] == Next(c, states[i], events[i]).0
    {
      SampleStep(c, start, jump, speed, i);
    }
  }

  lemma SampleStep(c: Config, start: int, jump: real, speed: real, i: nat)
    requires c.actions.Valid() && c.gapReset > 0 && jump > c.jumpThreshold && speed < c.stationaryGyro
    requires i < |Samples(c, start, jump, speed)|
    ensures var e := Samples(c, start, jump, speed)[i];
            Admissible(c, e) && Next(c, AfterSamples(c, start, i), e).0 == AfterSamples(c, start, i + 1)
  {
  }
}
