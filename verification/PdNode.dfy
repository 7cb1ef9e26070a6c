/** The PD node: its command callback, its reset service and its control loop, joint by joint. */
module PdNode {
  import opened Outcome
  import opened Reals
  import O = OuterController
  import R = ReferenceShaper

  datatype Mode = SafetyOnly | OuterPd | OuterPid

  datatype Config = Config(
    mode: Mode, shaper: R.Params, outer: O.Params, default: real,
    commandTimeout: real, requireFeedback: bool, initializeFromFeedback: bool)

  predicate Valid(c: Config) {
    && R.Valid(c.shaper) && O.Valid(c.outer)
    && c.outer.lower == c.shaper.lower && c.outer.upper == c.shaper.upper
  }

  // One joint's share of the node's fields; the three flags and the time are common to all.
  datatype Loop = Loop(
    desired: real, hasDesired: bool, lastDesired: real, initialized: bool,
    reference: R.Reference, target: real, outer: O.Joint, outerReady: bool)

  function Created(c: Config): Loop {
    Loop(c.default, false, 0.0, false, R.Reference(c.default, 0.0), c.default,
         O.Joint(0.0, 0.0, 0.0), false)
  }

  // A command, a call of the reset service, or a tick, with the feedback it finds.
  datatype Event =
    | Command(value: real, now: real)
    | ResetService(feedbackReady: bool, position: real)
    | Tick(now: real, feedbackReady: bool, position: real, velocity: real)

  function Limit(c: Config, x: real): real { Clip(x, c.shaper.lower, c.shaper.upper) }

  // _reset_controller_state_to_feedback
  function AlignedTo(c: Config, s: Loop, position: real): Loop {
    var feedback := Limit(c, position);
    s.(reference := R.Reference(feedback, 0.0), target := feedback,
       outer := O.ResetJoint(c.outer, feedback, None), outerReady := true, initialized := true)
  }

  // _get_timeout_safe_desired
  function SafeDesired(c: Config, s: Loop, now: real): real {
    if !s.hasDesired then (if s.initialized then s.reference.position else c.default)
    else if now - s.lastDesired > c.commandTimeout then s.reference.position
    else s.desired
  }

  predicate Aligns(c: Config, s: Loop, e: Event) {
    e.Tick? && c.initializeFromFeedback && e.feedbackReady && !s.initialized
  }

  predicate Holds(c: Config, e: Event) {
    e.Tick? && c.mode != SafetyOnly && c.requireFeedback && !e.feedbackReady
  }

  // The outer controller's part of a tick.
  function OuterStep(c: Config, s: Loop, reference: R.Reference, e: Event): O.Joint
    requires Valid(c) && e.Tick?
  {
    var before := if s.outerReady then s.outer else O.ResetJoint(c.outer, e.position, None);
    O.ComputeJoint(c.outer, before,
                   O.Input(reference.position, reference.velocity, e.position, e.velocity),
                   c.shaper.dt, c.mode == OuterPid)
  }

  // The stages of a tick: align once to feedback, shape the reference, and produce the output.
  function AlignStage(c: Config, s: Loop, e: Event): Loop
    requires e.Tick?
  {
    if Aligns(c, s, e) then AlignedTo(c, s, e.position) else s
  }

  function ShapeStage(c: Config, s: Loop, e: Event): Loop
    requires Valid(c) && e.Tick?
  {
    s.(reference := R.Shape(c.shaper, s.reference, Limit(c, SafeDesired(c, s, e.now))))
  }

  function OutputStage(c: Config, s: Loop, e: Event): Loop
    requires Valid(c) && e.Tick?
  {
    if c.mode == SafetyOnly then
      s.(outer := O.ResetJoint(c.outer, s.reference.position, Some(s.reference.velocity)),
         outerReady := true, target := Limit(c, s.reference.position))
    else if Holds(c, e) then s.(target := Limit(c, s.target))
    else
      var outer := OuterStep(c, s, s.reference, e);
      s.(outer := outer, outerReady := true, target := Limit(c, outer.position))
  }

  // control_loop; what it publishes is the new target.
  function NextTick(c: Config, s: Loop, e: Event): Loop
    requires Valid(c) && e.Tick?
  {
    OutputStage(c, ShapeStage(c, AlignStage(c, s, e), e), e)
  }

  function Next(c: Config, s: Loop, e: Event): Loop
    requires Valid(c)
  {
    match e
    case Command(value, now) => s.(desired := Limit(c, value), lastDesired := now, hasDesired := true)
    case ResetService(ready, position) => if ready then AlignedTo(c, s, position) else s
    case Tick(_, _, _, _) => NextTick(c, s, e)
  }

  // ------------------------------------------------------------------------------- runs

  ghost predicate IsRun(c: Config, states: seq<Loop>, events: seq<Event>) {
    && Valid(c)
    && |states| == |events| + 1 && states[0] == Created(c)
    && forall n :: 0 <= n < |events| ==> states[n + 1] == Next(c, states[n], events[n])
  }

  // The outer controller, once in use, is in a safe state and stands at the published target; in
  // safety mode the target is the reference.
  ghost predicate Inv(c: Config, s: Loop) {
    && (s.outerReady ==> O.Safe(c.outer, s.outer) && s.target == s.outer.position)
    && (c.mode == SafetyOnly ==> s.target == s.reference.position)
  }

  // Reference and target are inside the limits.
  predicate Settled(c: Config, s: Loop) {
    R.Inside(c.shaper, s.reference.position) && R.Inside(c.shaper, s.target)
  }

  // A tick or an accepted reset has been before event n.
  ghost predicate Placed(events: seq<Event>, n: nat)
    requires n <= |events|
  {
    exists k :: 0 <= k < n && (events[k].Tick? || (events[k].ResetService? && events[k].feedbackReady))
  }

  lemma AlignKeeps(c: Config, s: Loop, position: real)
    requires Valid(c)
    ensures Inv(c, AlignedTo(c, s, position)) && Settled(c, AlignedTo(c, s, position))
  {
    O.ResetIsSafe(c.outer, Limit(c, position), None);
  }

  // The speed bounds of a tick: maxSpeed * dt in safety mode with the rate limit on, the outer
  // controller's maxVelocity * dt once that is in use, and no move while feedback is missing.
  predicate SpeedKept(c: Config, s: Loop, e: Event, target: real) {
    && (c.mode == SafetyOnly && c.shaper.rateLimit ==>
          Abs(target - s.target) <= R.Reach(c.shaper))
    && (c.mode != SafetyOnly && s.outerReady ==>
          Abs(target - s.target) <= O.Way(c.outer.maxVelocity, c.shaper.dt))
    && (Holds(c, e) ==> target == s.target)
  }

  // One tick without an alignment keeps the invariant and settles; from a settled state it keeps
  // the speed bounds.
  lemma TickKeeps(c: Config, s: Loop, e: Event)
    requires Valid(c) && Inv(c, s) && e.Tick? && !Aligns(c, s, e)
    ensures var t := NextTick(c, s, e);
            Inv(c, t) && Settled(c, t) && (Settled(c, s) ==> SpeedKept(c, s, e, t.target))
  {
    hide R.Shape, O.ResetJoint, Clip, O.Safe, OuterStep, Abs, SafeDesired, Aligns, SpeedKept;
    var desired := Limit(c, SafeDesired(c, s, e.now));
    var reference := R.Shape(c.shaper, s.reference, desired);
    ShapedInside(c, s.reference, desired);
    if Settled(c, s) {
      R.ShapeIsBounded(c.shaper, s.reference, desired);
    }
    if c.mode == SafetyOnly {
      SafetyKeeps(c, reference);
      if Settled(c, s) {
        SafetySpeed(c, s, e, reference);
      }
    } else if Holds(c, e) {
      HoldSpeed(c, s, e);
    } else {
      OuterKeeps(c, s.(reference := reference), reference, e);
      OuterSpeed(c, s, e, OuterStep(c, s.(reference := reference), reference, e).position);
    }
  }

  lemma ShapedInside(c: Config, r: R.Reference, desired: real)
    requires Valid(c)
    ensures R.Inside(c.shaper, R.Shape(c.shaper, r, desired).position)
  {
    hide R.Velocity, O.Integrate, O.VelocityOf;
  }

  lemma SafetySpeed(c: Config, s: Loop, e: Event, reference: R.Reference)
    requires Valid(c) && Inv(c, s) && c.mode == SafetyOnly
    requires c.shaper.rateLimit ==>
               Abs(reference.position - s.reference.position) <= R.Reach(c.shaper)
    ensures SpeedKept(c, s, e, reference.position)
  {
  }

  lemma HoldSpeed(c: Config, s: Loop, e: Event)
    requires Valid(c) && Inv(c, s) && c.mode != SafetyOnly
    ensures SpeedKept(c, s, e, s.target)
    ensures s.outerReady ==> R.Inside(c.shaper, s.target)
  {
    ProductOfNonNegatives(c.outer.maxVelocity, c.shaper.dt);
  }

  lemma OuterSpeed(c: Config, s: Loop, e: Event, position: real)
    requires Valid(c) && Inv(c, s) && c.mode != SafetyOnly && !Holds(c, e)
    requires s.outerReady ==> Abs(position - s.outer.position) <= O.Way(c.outer.maxVelocity, c.shaper.dt)
    ensures SpeedKept(c, s, e, position)
  {
  }

  lemma SafetyKeeps(c: Config, reference: R.Reference)
    requires Valid(c) && R.Inside(c.shaper, reference.position)
    ensures var o := O.ResetJoint(c.outer, reference.position, Some(reference.velocity));
            O.Safe(c.outer, o) && o.position == reference.position
  {
    O.ResetIsSafe(c.outer, reference.position, Some(reference.velocity));
  }

  lemma OuterKeeps(c: Config, s: Loop, reference: R.Reference, e: Event)
    requires Valid(c) && e.Tick? && (s.outerReady ==> O.Safe(c.outer, s.outer))
    ensures var o := OuterStep(c, s, reference, e);
            && O.Safe(c.outer, o) && R.Inside(c.shaper, o.position)
            && (s.outerReady ==> Abs(o.position - s.outer.position) <= O.Way(c.outer.maxVelocity, c.shaper.dt))
  {
    hide O.ComputeJoint, O.ResetJoint, O.Command;
    O.ResetIsSafe(c.outer, e.position, None);
    var before := if s.outerReady then s.outer else O.ResetJoint(c.outer, e.position, None);
    O.ComputeIsSafe(c.outer, before,
                    O.Input(reference.position, reference.velocity, e.position, e.velocity),
                    c.shaper.dt, c.mode == OuterPid);
  }

  lemma {:induction false} InvRun(c: Config, states: seq<Loop>, events: seq<Event>, n: nat)
    requires IsRun(c, states, events) && n < |states|
    ensures Inv(c, states[n])
    ensures R.Inside(c.shaper, c.default) || Placed(events, n) ==> Settled(c, states[n])
  {
    hide NextTick, AlignedTo;
    if n > 0 {
      var s, e := states[n - 1], events[n - 1];
      InvRun(c, states, events, n - 1);
      match e {
        case Command(_, _) =>
        case ResetService(_, position) => AlignKeeps(c, s, position);
        case Tick(_, _, _, _) => AnyTickKeeps(c, s, e);
      }
    }
  }

  // A tick that first aligns to feedback goes on like any other from the aligned state.
  lemma AnyTickKeeps(c: Config, s: Loop, e: Event)
    requires Valid(c) && Inv(c, s) && e.Tick?
    ensures Inv(c, NextTick(c, s, e)) && Settled(c, NextTick(c, s, e))
    ensures Aligns(c, s, e) ==> NextTick(c, s, e) == NextTick(c, AlignedTo(c, s, e.position), e)
  {
    hide Inv, Settled;
    if Aligns(c, s, e) {
      AlignKeeps(c, s, e.position);
      TickKeeps(c, AlignedTo(c, s, e.position), e);
    } else {
      TickKeeps(c, s, e);
    }
  }

  // Every target the loop publishes lies inside the joint limits. A target published with no
  // alignment since the one before respects the speed bound of the mode; so does the first one,
  // if the node started from a default pose inside the limits.
  lemma TargetsAreBounded(c: Config, states: seq<Loop>, events: seq<Event>, n: nat)
    requires IsRun(c, states, events) && n < |events| && events[n].Tick?
    ensures R.Inside(c.shaper, states[n + 1].target)
    ensures !Aligns(c, states[n], events[n]) && (R.Inside(c.shaper, c.default) || Placed(events, n)) ==>
              SpeedKept(c, states[n], events[n], states[n + 1].target)
  {
    hide NextTick, Aligns, SpeedKept;
    InvRun(c, states, events, n);
    AnyTickKeeps(c, states[n], events[n]);
    if !Aligns(c, states[n], events[n]) {
      TickKeeps(c, states[n], events[n]);
    }
  }

  // ------------------------------------------------------------------------------- what a tick does

  // The joint a tick works on: aligned to the measurement if that is due, else as it was.
  ghost function Begun(c: Config, s: Loop, e: Event): Loop
    requires e.Tick?
  {
    var position := Clip(e.position, c.shaper.lower, c.shaper.upper);
    if c.initializeFromFeedback && e.feedbackReady && !s.initialized then
      s.(reference := R.Reference(position, 0.0), target := position,
         outer := O.Joint(position, 0.0, 0.0), outerReady := true, initialized := true)
    else s
  }

  // The command in force: the last one received, while it is in time; otherwise the reference
  // stays, or before any command and any alignment goes to the default pose.
  ghost function InForce(c: Config, s: Loop, now: real): real {
    if s.hasDesired && now - s.lastDesired <= c.commandTimeout then s.desired
    else if s.hasDesired || s.initialized then s.reference.position
    else c.default
  }

  // In every run a tick moves the reference as the shaping law says, towards the command in force.
  // In safety mode the target is the reference, and the outer controller waits there; without the
  // feedback it needs the node repeats its target; otherwise the target is the position of the
  // outer controller, which obeys its control law on the reference and the measurement.
  lemma TickDoes(c: Config, states: seq<Loop>, events: seq<Event>, n: nat) returns (v: real)
    requires IsRun(c, states, events) && n < |events| && events[n].Tick?
    ensures
      var e, t := events[n], states[n + 1];
      var s := Begun(c, states[n], e);
      var lower, upper := c.shaper.lower, c.shaper.upper;
      && t.reference == R.Shape(c.shaper, s.reference, Clip(InForce(c, s, e.now), lower, upper))
      && (t.desired, t.hasDesired, t.lastDesired, t.initialized) ==
           (s.desired, s.hasDesired, s.lastDesired, s.initialized)
      && if c.mode == SafetyOnly then
           && t.target == t.reference.position && t.outerReady
           && t.outer.position == t.reference.position && t.outer.integral == 0.0
         else if c.requireFeedback && !e.feedbackReady then
           t.target == Clip(s.target, lower, upper) && t.outer == s.outer
         else
           && t.target == t.outer.position && t.outerReady
           && var before := if s.outerReady then s.outer
                            else O.Joint(Clip(e.position, lower, upper), 0.0, 0.0);
              O.Obeys(c.outer, before,
                      O.Input(t.reference.position, t.reference.velocity, e.position, e.velocity),
                      c.shaper.dt, c.mode == OuterPid, v, t.outer)
  {
    hide R.Shape, O.ComputeJoint, O.Obeys, O.Safe, Clip;
    InvRun(c, states, events, n);
    var e := events[n];
    var s := Begun(c, states[n], e);
    assert s == AlignStage(c, states[n], e);
    var reference := R.Shape(c.shaper, s.reference, Limit(c, SafeDesired(c, s, e.now)));
    ShapedInside(c, s.reference, Limit(c, SafeDesired(c, s, e.now)));
    O.ResetIsSafe(c.outer, e.position, None);
    v := 0.0;
    if c.mode != SafetyOnly && !Holds(c, e) {
      var before := if s.outerReady then s.outer else O.ResetJoint(c.outer, e.position, None);
      var x := O.Input(reference.position, reference.velocity, e.position, e.velocity);
      v := O.ComputeLaw(c.outer, before, x, c.shaper.dt, c.mode == OuterPid);
      OuterKeeps(c, s.(reference := reference), reference, e);
    }
  }

  // Commands are clipped, kept and timed; a reset with feedback puts everything at the measurement.
  lemma OtherEventsDo(c: Config, states: seq<Loop>, events: seq<Event>, n: nat)
    requires IsRun(c, states, events) && n < |events| && !events[n].Tick?
    ensures
      match events[n]
      case Command(value, now) =>
        states[n + 1] == states[n].(desired := Clip(value, c.shaper.lower, c.shaper.upper),
                                    hasDesired := true, lastDesired := now)
      case ResetService(ready, position) =>
        var x := Clip(position, c.shaper.lower, c.shaper.upper);
        states[n + 1] == if ready then
            states[n].(reference := R.Reference(x, 0.0), target := x,
                       outer := O.Joint(x, 0.0, 0.0), outerReady := true, initialized := true)
          else states[n]
      case _ => true
  {
  }

  // What the node remembers of commands: the last one received, clipped, and when.
  lemma {:induction false} RemembersCommand(c: Config, states: seq<Loop>, events: seq<Event>, n: nat)
    requires IsRun(c, states, events) && n < |states|
    ensures states[n].hasDesired <==> exists k :: 0 <= k < n && events[k].Command?
    ensures forall k :: 0 <= k < n && events[k].Command? && (forall m :: k < m < n ==> !events[m].Command?) ==>
              && states[n].desired == Clip(events[k].value, c.shaper.lower, c.shaper.upper)
              && states[n].lastDesired == events[k].now
  {
    hide NextTick;
    if n > 0 {
      RemembersCommand(c, states, events, n - 1);
      if events[n - 1].Tick? {
        TickForgetsNothing(c, states[n - 1], events[n - 1]);
      }
    }
  }

  // The node is aligned by a reset with feedback, and where configured by the first tick with it.
  predicate AlignsAt(c: Config, e: Event) {
    match e
    case ResetService(ready, _) => ready
    case Tick(_, ready, _, _) => ready && c.initializeFromFeedback
    case Command(_, _) => false
  }

  // It knows whether it was ever aligned to feedback. Until the first tick or alignment it stands at
  // the default pose.
  lemma {:induction false} RemembersAlignment(c: Config, states: seq<Loop>, events: seq<Event>, n: nat)
    requires IsRun(c, states, events) && n < |states|
    ensures states[n].initialized <==> exists k :: 0 <= k < n && AlignsAt(c, events[k])
    ensures (forall k :: 0 <= k < n ==> !events[k].Tick? && !AlignsAt(c, events[k])) ==>
              && states[n].reference == R.Reference(c.default, 0.0) && states[n].target == c.default
              && !states[n].outerReady
  {
    hide NextTick;
    if n > 0 {
      RemembersAlignment(c, states, events, n - 1);
      if events[n - 1].Tick? {
        TickForgetsNothing(c, states[n - 1], events[n - 1]);
      }
    }
  }

  lemma TickForgetsNothing(c: Config, s: Loop, e: Event)
    requires Valid(c) && e.Tick?
    ensures var t := NextTick(c, s, e);
            && (t.desired, t.hasDesired, t.lastDesired) == (s.desired, s.hasDesired, s.lastDesired)
            && t.initialized == (s.initialized || AlignsAt(c, e))
  {
    hide R.Shape, O.ResetJoint, Clip, OuterStep, SafeDesired;
  }

  // ------------------------------------------------------------------------------- timeout

  // A tick that neither aligns nor has a command to follow: the last is too old, or there was
  // none since the node was aligned.
  predicate TimedOut(c: Config, s: Loop, e: Event) {
    && e.Tick? && !Aligns(c, s, e)
    && if s.hasDesired then e.now - s.lastDesired > c.commandTimeout else s.initialized
  }

  lemma TimedOutTick(c: Config, s: Loop, e: Event)
    requires Valid(c) && TimedOut(c, s, e) && R.Inside(c.shaper, s.reference.position)
    ensures var t := NextTick(c, s, e);
            t.reference == R.Coast(c.shaper, s.reference) && R.Inside(c.shaper, t.reference.position)
  {
    hide R.Shape, OuterStep, O.ResetJoint;
    assert Limit(c, s.reference.position) == s.reference.position;
    ShapedInside(c, s.reference, s.reference.position);
  }

  // From the timeout on, with no new command and no alignment, the reference coasts: tick by tick
  // its speed falls by maxAccel * dt to zero, and its further travel is at most v0^2 / 2 maxAccel.
  // It has to be inside the limits, which it is from the first tick or alignment on.
  lemma {:induction false} TimeoutStops(
    c: Config, states: seq<Loop>, events: seq<Event>, m: nat, n: nat)
    requires IsRun(c, states, events) && m <= n < |states| && c.shaper.accelLimit
    requires R.Inside(c.shaper, states[m].reference.position)
    requires forall k :: m <= k < n ==> TimedOut(c, states[k], events[k])
    ensures states[n].reference == R.Coasting(c.shaper, states[m].reference, n - m)
    ensures R.Inside(c.shaper, states[n].reference.position)
    ensures var a, r, s := c.shaper.maxAccel, states[m].reference, states[n].reference;
            && (s.velocity == 0.0 || Abs(s.velocity) <= Abs(r.velocity) - (n - m) as real * (a * c.shaper.dt))
            && 2.0 * a * Abs(s.position - r.position) + s.velocity * s.velocity <= r.velocity * r.velocity
  {
    hide NextTick, R.Coast, TimedOut, Abs;
    if m < n {
      TimeoutStops(c, states, events, m, n - 1);
      assert events[n - 1].Tick? by { TimedOutIsTick(c, states[n - 1], events[n - 1]); }
      TimedOutTick(c, states[n - 1], events[n - 1]);
    }
    R.CoastingLaw(c.shaper, states[m].reference, n - m);
  }

  lemma TimedOutIsTick(c: Config, s: Loop, e: Event)
    ensures TimedOut(c, s, e) ==> e.Tick?
  {
  }

  // ------------------------------------------------------------------------------- the node

  // All joints share the mode, the flags, the timeout and the period.
  predicate Alike(cs: seq<Config>) {
    && (forall i :: 0 <= i < |cs| ==> Valid(cs[i]))
    && forall i, j :: 0 <= i < |cs| && 0 <= j < |cs| ==>
         && cs[i].mode == cs[j].mode && cs[i].commandTimeout == cs[j].commandTimeout
         && cs[i].requireFeedback == cs[j].requireFeedback
         && cs[i].initializeFromFeedback == cs[j].initializeFromFeedback
         && cs[i].shaper.dt == cs[j].shaper.dt
  }

  function OuterParams(cs: seq<Config>): (ps: seq<O.Params>)
    ensures |ps| == |cs| && forall i :: 0 <= i < |cs| ==> ps[i] == cs[i].outer
  {
    seq(|cs|, i requires 0 <= i < |cs| => cs[i].outer)
  }

  function OuterMode(m: Mode): O.Mode {
    match m case SafetyOnly => O.OtherMode case OuterPd => O.OuterPd case OuterPid => O.OuterPid
  }

  // The arrays of the node and its outer controller. What a joint sees of them is its Loop.
  class PdControllerNode {
    const config: seq<Config>
    const outer: O.OuterLoopPositionController
    var desired: seq<real>
    var referencePosition: seq<real>
    var referenceVelocity: seq<real>
    var target: seq<real>
    var hasDesired: bool
    var lastDesired: real
    var initialized: bool

    ghost predicate Shaped()
      reads this, outer
    {
      && |config| > 0 && Alike(config)
      && |desired| == |referencePosition| == |referenceVelocity| == |target| == |config|
      && outer.params == OuterParams(config) && outer.Shaped()
    }

    ghost function View(i: nat): Loop
      requires Shaped() && i < |config|
      reads this, outer
    {
      Loop(desired[i], hasDesired, lastDesired, initialized,
           R.Reference(referencePosition[i], referenceVelocity[i]), target[i],
           O.Joint(outer.outputPosition[i], outer.outputVelocity[i], outer.integralError[i]),
           outer.initialized)
    }

    constructor (config: seq<Config>)
      requires |config| > 0 && Alike(config)
      ensures Shaped() && this.config == config && fresh(outer)
      ensures forall i :: 0 <= i < |config| ==> View(i) == Created(config[i])
    {
      this.config := config;
      outer := new O.OuterLoopPositionController(OuterParams(config));
      desired := seq(|config|, i requires 0 <= i < |config| => config[i].default);
      referencePosition := seq(|config|, i requires 0 <= i < |config| => config[i].default);
      referenceVelocity := seq(|config|, _ => 0.0);
      target := seq(|config|, i requires 0 <= i < |config| => config[i].default);
      hasDesired, lastDesired, initialized := false, 0.0, false;
      new;
      forall i | 0 <= i < |config| ensures View(i) == Created(config[i]) {
        assert outer.State().joints[i] == O.Joint(0.0, 0.0, 0.0);
      }
    }

    // A message with too few values is ignored, further ones are not looked at.
    method DesiredPosition(values: seq<real>, now: real)
      requires Shaped()
      modifies this
      ensures Shaped()
      ensures forall i :: 0 <= i < |config| ==>
                View(i) == if |values| < |config| then old(View(i))
                           else Next(config[i], old(View(i)), Command(values[i], now))
    {
      if |values| < |config| {
        return;
      }
      desired := seq(|config|, i requires 0 <= i < |config| => Limit(config[i], values[i]));
      lastDesired := now;
      hasDesired := true;
    }

    method AlignToFeedback(position: seq<real>)
      requires Shaped() && |position| == |config|
      modifies this, outer
      ensures Shaped()
      ensures forall i :: 0 <= i < |config| ==>
                View(i) == AlignedTo(config[i], old(View(i)), position[i])
    {
      hide Clip;
      var feedback := seq(|config|, i requires 0 <= i < |config| => Limit(config[i], position[i]));
      referencePosition := feedback;
      referenceVelocity := seq(|config|, _ => 0.0);
      target := feedback;
      var _ := outer.ResetTo(feedback, None);
      initialized := true;
      OuterAfterReset(feedback, None);
    }

    // reset_to_feedback_callback
    method ResetToFeedback(feedbackReady: bool, position: seq<real>) returns (success: bool)
      requires Shaped() && |position| == |config|
      modifies this, outer
      ensures Shaped() && success == feedbackReady
      ensures forall i :: 0 <= i < |config| ==>
                View(i) == Next(config[i], old(View(i)), ResetService(feedbackReady, position[i]))
    {
      if !feedbackReady {
        return false;
      }
      AlignToFeedback(position);
      return true;
    }

    lemma OuterAfterReset(position: seq<real>, velocity: Option<seq<real>>)
      requires Shaped() && |position| == |config| && (velocity.Some? ==> |velocity.value| == |config|)
      requires outer.initialized
      requires forall i :: 0 <= i < |config| ==>
        outer.State().joints[i] ==
          O.ResetJoint(config[i].outer, position[i], if velocity.Some? then Some(velocity.value[i]) else None)
      ensures forall i :: 0 <= i < |config| ==>
        View(i).outer ==
          O.ResetJoint(config[i].outer, position[i], if velocity.Some? then Some(velocity.value[i]) else None)
    {
    }

    // _shape_reference on the whole arrays.
    method ShapeReference(wanted: seq<real>)
      requires Shaped() && |wanted| == |config|
      modifies this`referencePosition, this`referenceVelocity
      ensures Shaped()
      ensures forall i :: 0 <= i < |config| ==>
                R.Reference(referencePosition[i], referenceVelocity[i]) ==
                  R.Shape(config[i].shaper,
                          old(R.Reference(referencePosition[i], referenceVelocity[i])), wanted[i])
    {
      hide R.Shape;
      var shaped := seq(|config|, i requires 0 <= i < |config| && Shaped() reads this, outer =>
        R.Shape(config[i].shaper, R.Reference(referencePosition[i], referenceVelocity[i]), wanted[i]));
      referencePosition := seq(|config|, i requires 0 <= i < |config| => shaped[i].position);
      referenceVelocity := seq(|config|, i requires 0 <= i < |config| => shaped[i].velocity);
    }

    method TimeoutSafeDesired(now: real) returns (wanted: seq<real>)
      requires Shaped()
      ensures |wanted| == |config|
      ensures forall i :: 0 <= i < |config| ==>
                wanted[i] == Limit(config[i], SafeDesired(config[i], View(i), now))
    {
      hide Clip;
      var source := desired;
      if !hasDesired {
        if initialized {
          source := referencePosition;
        } else {
          source := seq(|config|, i requires 0 <= i < |config| => config[i].default);
        }
      } else if now - lastDesired > config[0].commandTimeout {
        source := referencePosition;
      }
      wanted := seq(|config|, i requires 0 <= i < |config| => Limit(config[i], source[i]));
    }

    method OuterFollows()
      requires Shaped()
      modifies outer
      ensures Shaped() && outer.initialized
      ensures forall i :: 0 <= i < |config| ==>
                View(i).outer ==
                  O.ResetJoint(config[i].outer, referencePosition[i], Some(referenceVelocity[i]))
    {
      hide Clip;
      var _ := outer.ResetTo(referencePosition, Some(referenceVelocity));
      OuterAfterReset(referencePosition, Some(referenceVelocity));
    }

    method OuterComputes(e: Event, position: seq<real>, velocity: seq<real>) returns (output: seq<real>)
      requires Shaped() && e.Tick? && |position| == |velocity| == |config|
      requires config[0].mode != SafetyOnly
      modifies outer
      ensures Shaped() && outer.initialized && |output| == |config|
      ensures forall i :: 0 <= i < |config| ==>
                && View(i).outer == OuterStep(config[i], old(View(i)), old(View(i)).reference,
                                              At(e, position[i], velocity[i]))
                && output[i] == View(i).outer.position
    {
      hide Clip, O.ComputeJoint, O.ResetJoint;
      var call := O.Compute(referencePosition, referenceVelocity, position, velocity,
                            config[0].shaper.dt, OuterMode(config[0].mode));
      ghost var ready := O.Ready(OuterParams(config), outer.State(), call);
      forall i | 0 <= i < |config|
        ensures ready.joints[i] ==
                  if View(i).outerReady then View(i).outer
                  else O.ResetJoint(config[i].outer, position[i], None)
      {
        assert outer.State().joints[i] == View(i).outer;
      }
      var result := outer.ComputeNext(call);
      output := result.value;
      forall i | 0 <= i < |config| ensures View(i).outer == outer.State().joints[i] {
      }
    }

    method Output(e: Event, position: seq<real>, velocity: seq<real>)
      requires Shaped() && e.Tick? && |position| == |velocity| == |config|
      modifies this`target, outer
      ensures Shaped()
      ensures forall i :: 0 <= i < |config| ==>
                View(i) == OutputStage(config[i], old(View(i)), At(e, position[i], velocity[i]))
    {
      hide Limit, OuterStep, O.ResetJoint;
      var output := target;
      if config[0].mode == SafetyOnly {
        output := referencePosition;
        OuterFollows();
      } else if !(config[0].requireFeedback && !e.feedbackReady) {
        output := OuterComputes(e, position, velocity);
      }
      target := seq(|config|, i requires 0 <= i < |config| => Limit(config[i], output[i]));
    }

    method AlignIfNeeded(e: Event, position: seq<real>, velocity: seq<real>)
      requires Shaped() && e.Tick? && |position| == |velocity| == |config|
      modifies this, outer
      ensures Shaped()
      ensures forall i :: 0 <= i < |config| ==>
                View(i) == AlignStage(config[i], old(View(i)), At(e, position[i], velocity[i]))
    {
      hide AlignedTo;
      if config[0].initializeFromFeedback && e.feedbackReady && !initialized {
        AlignToFeedback(position);
      }
    }

    method Reshape(e: Event, position: seq<real>, velocity: seq<real>)
      requires Shaped() && e.Tick? && |position| == |velocity| == |config|
      modifies this`referencePosition, this`referenceVelocity
      ensures Shaped()
      ensures forall i :: 0 <= i < |config| ==>
                View(i) == ShapeStage(config[i], old(View(i)), At(e, position[i], velocity[i]))
    {
      hide R.Shape, SafeDesired, Limit;
      var wanted := TimeoutSafeDesired(e.now);
      ShapeReference(wanted);
    }

    // control_loop
    method ControlLoop(e: Event, position: seq<real>, velocity: seq<real>)
      requires Shaped() && e.Tick? && |position| == |velocity| == |config|
      modifies this, outer
      ensures Shaped()
      ensures forall i :: 0 <= i < |config| ==>
                View(i) == NextTick(config[i], old(View(i)), At(e, position[i], velocity[i]))
    {
      hide OutputStage, AlignStage, ShapeStage, Shaped, At;
      AlignIfNeeded(e, position, velocity);
      Reshape(e, position, velocity);
      Output(e, position, velocity);
    }
  }

  // A tick as one joint sees it.
  function At(e: Event, position: real, velocity: real): (t: Event)
    requires e.Tick?
    ensures t.Tick? && t.now == e.now && t.feedbackReady == e.feedbackReady
  {
    Tick(e.now, e.feedbackReady, position, velocity)
  }
}
