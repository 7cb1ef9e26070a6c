/**
 The outer position loop of the PD node: position and velocity errors become a bounded joint
 velocity, which is integrated into the next position target. numpy works joint by joint, so the
 step is given for one joint and lifted to all of them by the class.
 */
module OuterController {
  import opened Outcome
  import opened Reals

  datatype Params = Params(
    kp: real, kd: real, ki: real, maxVelocity: real, maxAcceleration: real, integralLimit: real,
    lower: real, upper: real)

  // The constructor makes the three bounds non-negative; the limits come from the joint map.
  predicate Valid(p: Params) {
    && p.maxVelocity >= 0.0 && p.maxAcceleration >= 0.0 && p.integralLimit >= 0.0
    && p.lower <= p.upper
  }

  datatype Joint = Joint(position: real, velocity: real, integral: real)

  datatype Input = Input(reference: real, referenceVelocity: real, position: real, velocity: real)

  // What a rate adds up to in dt, and the rate that does so.
  function Way(v: real, dt: real): real { v * dt }

  function Rate(way: real, dt: real): real
    requires dt > 0.0
  {
    way / dt
  }

  function ResetJoint(p: Params, position: real, velocity: Option<real>): Joint {
    Joint(Clip(position, p.lower, p.upper),
          if velocity.Some? then Clip(velocity.value, -p.maxVelocity, p.maxVelocity) else 0.0,
          0.0)
  }

  function Integrated(p: Params, s: Joint, error: real, dt: real, pid: bool): (i: real)
    ensures p.integralLimit >= 0.0 ==> -p.integralLimit <= i <= p.integralLimit
  {
    if pid then Clip(s.integral + Way(error, dt), -p.integralLimit, p.integralLimit) else 0.0
  }

  function RawVelocity(p: Params, x: Input, integral: real): real {
    p.kp * (x.reference - x.position) + p.kd * (x.referenceVelocity - x.velocity) + p.ki * integral
  }

  // The velocity command: bounded, then no further from the last than the acceleration allows.
  function Commanded(p: Params, s: Joint, raw: real, dt: real): real {
    var wanted := Clip(raw, -p.maxVelocity, p.maxVelocity);
    var maxDv := Way(p.maxAcceleration, dt);
    Clip(s.velocity + Clip(wanted - s.velocity, -maxDv, maxDv), -p.maxVelocity, p.maxVelocity)
  }

  predicate Unwinds(p: Params, unclipped: real, error: real) {
    (unclipped < p.lower && error < 0.0) || (unclipped > p.upper && error > 0.0)
  }

  function Command(p: Params, s: Joint, x: Input, dt: real, pid: bool): real {
    Commanded(p, s, RawVelocity(p, x, Integrated(p, s, x.reference - x.position, dt, pid)), dt)
  }

  // Where a velocity leads in dt, not clipped.
  function Integrate(x: real, v: real, dt: real): real { x + Way(v, dt) }

  function VelocityOf(x: real, y: real, dt: real): real
    requires dt > 0.0
  {
    Rate(y - x, dt)
  }

  function ComputeJoint(p: Params, s: Joint, x: Input, dt: real, pid: bool): Joint
    requires dt > 0.0
  {
    var error := x.reference - x.position;
    var integral := Integrated(p, s, error, dt, pid);
    var unclipped := Integrate(s.position, Command(p, s, x, dt, pid), dt);
    var position := Clip(unclipped, p.lower, p.upper);
    Joint(position, VelocityOf(s.position, position, dt),
          if pid && Unwinds(p, unclipped, error) then s.integral else integral)
  }

  // ------------------------------------------------------------------------------- one step

  predicate Safe(p: Params, s: Joint) {
    && p.lower <= s.position <= p.upper
    && -p.maxVelocity <= s.velocity <= p.maxVelocity
    && -p.integralLimit <= s.integral <= p.integralLimit
  }

  lemma ResetIsSafe(p: Params, position: real, velocity: Option<real>)
    requires Valid(p)
    ensures Safe(p, ResetJoint(p, position, velocity))
  {
  }

  lemma CommandBounds(p: Params, s: Joint, raw: real, dt: real)
    requires Valid(p) && dt > 0.0 && -p.maxVelocity <= s.velocity <= p.maxVelocity
    ensures var v := Commanded(p, s, raw, dt);
            && -p.maxVelocity <= v <= p.maxVelocity
            && Abs(v - s.velocity) <= Way(p.maxAcceleration, dt)
  {
    hide Way;
    WaySign(p.maxAcceleration, dt);
  }

  // Clipping a position that starts inside the limits only shortens the move.
  lemma ClipShortens(x: real, move: real, lo: real, hi: real)
    requires lo <= x <= hi
    ensures Between(0.0, Clip(x + move, lo, hi) - x, move)
    ensures lo <= x + move <= hi ==> Clip(x + move, lo, hi) - x == move
  {
  }

  lemma RateOfWay(v: real, dt: real)
    requires dt > 0.0
    ensures Rate(Way(v, dt), dt) == v
  {
  }

  lemma WayOfRate(way: real, dt: real)
    requires dt > 0.0
    ensures Way(Rate(way, dt), dt) == way
  {
  }

  lemma RateMonotone(x: real, y: real, dt: real)
    requires dt > 0.0 && x <= y
    ensures Rate(x, dt) <= Rate(y, dt)
    ensures Rate(0.0, dt) == 0.0
  {
    QuotientMonotone(x, y, dt);
  }

  // A cut move has a velocity between rest and the commanded one.
  lemma RateBetween(way: real, v: real, dt: real)
    requires dt > 0.0 && Between(0.0, way, Way(v, dt))
    ensures Between(0.0, Rate(way, dt), v)
  {
    hide Rate, Way;
    RateOfWay(v, dt);
    if 0.0 <= way <= Way(v, dt) {
      RateMonotone(0.0, way, dt);
      RateMonotone(way, Way(v, dt), dt);
    } else {
      RateMonotone(way, 0.0, dt);
      RateMonotone(Way(v, dt), way, dt);
    }
  }

  lemma WayBounded(v: real, vMax: real, dt: real)
    requires dt > 0.0 && -vMax <= v <= vMax
    ensures Abs(Way(v, dt)) <= Way(vMax, dt)
  {
    ProductMonotone(v, vMax, dt);
    ProductMonotone(-v, vMax, dt);
    assert -v * dt == -(v * dt);
  }

  // Integrating a bounded velocity for dt and clipping the position.
  lemma MoveIsSafe(x: real, v: real, dt: real, lo: real, hi: real, vMax: real)
    requires dt > 0.0 && lo <= x <= hi && -vMax <= v <= vMax
    ensures var y := Clip(Integrate(x, v, dt), lo, hi);
            && lo <= y <= hi && Abs(y - x) <= Way(vMax, dt)
            && Between(0.0, VelocityOf(x, y, dt), v) && Way(VelocityOf(x, y, dt), dt) == y - x
            && -vMax <= VelocityOf(x, y, dt) <= vMax
            && (lo <= Integrate(x, v, dt) <= hi ==> VelocityOf(x, y, dt) == v)
  {
    hide Clip, Way, Rate;
    ClipShortens(x, Way(v, dt), lo, hi);
    var way := Clip(x + Way(v, dt), lo, hi) - x;
    RateBetween(way, v, dt);
    RateOfWay(v, dt);
    WayOfRate(way, dt);
    WayBounded(v, vMax, dt);
  }

  lemma CommandIsBounded(p: Params, s: Joint, x: Input, dt: real, pid: bool)
    requires Valid(p) && Safe(p, s) && dt > 0.0
    ensures var v := Command(p, s, x, dt, pid);
            -p.maxVelocity <= v <= p.maxVelocity && Abs(v - s.velocity) <= Way(p.maxAcceleration, dt)
  {
    hide Commanded, RawVelocity, Integrated;
    CommandBounds(p, s, RawVelocity(p, x, Integrated(p, s, x.reference - x.position, dt, pid)), dt);
  }

  // One compute: the state stays inside its bounds; the position moves no further than
  // maxVelocity * dt; the velocity is the one commanded, within the acceleration bound, except
  // that the position limit may cut it towards rest.
  lemma ComputeIsSafe(p: Params, s: Joint, x: Input, dt: real, pid: bool)
    requires Valid(p) && Safe(p, s) && dt > 0.0
    ensures var t, v := ComputeJoint(p, s, x, dt, pid), Command(p, s, x, dt, pid);
            && Safe(p, t)
            && Abs(t.position - s.position) <= Way(p.maxVelocity, dt)
            && Way(t.velocity, dt) == t.position - s.position
            && Abs(v - s.velocity) <= Way(p.maxAcceleration, dt)
            && Between(0.0, t.velocity, v)
            && (p.lower <= Integrate(s.position, v, dt) <= p.upper ==> t.velocity == v)
  {
    hide Command, Integrated, Clip, Unwinds, Between, Abs, Integrate, VelocityOf, Way;
    CommandIsBounded(p, s, x, dt, pid);
    MoveIsSafe(s.position, Command(p, s, x, dt, pid), dt, p.lower, p.upper, p.maxVelocity);
  }

  // Anti-windup: while the unclipped command overshoots a position limit, the integral does not
  // move any further in that direction.
  lemma NoWindup(p: Params, s: Joint, x: Input, dt: real)
    requires Valid(p) && Safe(p, s) && dt > 0.0
    ensures var t := ComputeJoint(p, s, x, dt, true);
            var unclipped := Integrate(s.position, Command(p, s, x, dt, true), dt);
            && (unclipped > p.upper ==> t.integral <= s.integral)
            && (unclipped < p.lower ==> t.integral >= s.integral)
  {
    hide Command, Integrate, VelocityOf, Safe, Way;
    var error := x.reference - x.position;
    SafeIntegral(p, s);
    WaySign(error, dt);
  }

  lemma WaySign(v: real, dt: real)
    requires dt > 0.0
    ensures v >= 0.0 ==> Way(v, dt) >= 0.0
    ensures v <= 0.0 ==> Way(v, dt) <= 0.0
  {
  }

  lemma SafeIntegral(p: Params, s: Joint)
    requires Safe(p, s)
    ensures -p.integralLimit <= s.integral <= p.integralLimit
  {
  }

  // ------------------------------------------------------------------------------- the control law

  // The velocities one compute may command after the last one.
  predicate Allowed(p: Params, last: real, dt: real, v: real) {
    -p.maxVelocity <= v <= p.maxVelocity && -p.maxAcceleration * dt <= v - last <= p.maxAcceleration * dt
  }

  // v is the allowed velocity nearest to the one wanted.
  ghost predicate NearestAllowed(p: Params, last: real, dt: real, wanted: real, v: real) {
    Allowed(p, last, dt, v) && forall u :: Allowed(p, last, dt, u) ==> Abs(v - wanted) <= Abs(u - wanted)
  }

  lemma CommandedIsNearest(p: Params, s: Joint, raw: real, dt: real)
    requires Valid(p) && Safe(p, s) && dt > 0.0
    ensures NearestAllowed(p, s.velocity, dt, raw, Commanded(p, s, raw, dt))
  {
    WaySign(p.maxAcceleration, dt);
    var maxDv := Way(p.maxAcceleration, dt);
    assert -p.maxAcceleration * dt == -maxDv;
    hide Way;
  }

  // The control law from state s to t: the integral is the clipped sum, the wanted velocity the
  // weighted errors, the commanded one, v, the nearest allowed, and the position what it leads to
  // within the limits; an integral that would wind up is given back.
  ghost predicate Obeys(p: Params, s: Joint, x: Input, dt: real, pid: bool, v: real, t: Joint) {
    var error := x.reference - x.position;
    var sum := SumOf(p, s, x, dt, pid);
    var reached := s.position + v * dt;
    && NearestAllowed(p, s.velocity, dt, Wanted(p, x, sum), v)
    && t.position == Clip(reached, p.lower, p.upper)
    && t.velocity * dt == t.position - s.position
    && t.integral ==
         if pid && ((reached > p.upper && error > 0.0) || (reached < p.lower && error < 0.0))
         then s.integral else sum
  }

  ghost function SumOf(p: Params, s: Joint, x: Input, dt: real, pid: bool): real {
    if pid then Clip(s.integral + (x.reference - x.position) * dt, -p.integralLimit, p.integralLimit)
    else 0.0
  }

  ghost function Wanted(p: Params, x: Input, sum: real): real {
    p.kp * (x.reference - x.position) + p.kd * (x.referenceVelocity - x.velocity) + p.ki * sum
  }

  lemma ComputeLaw(p: Params, s: Joint, x: Input, dt: real, pid: bool) returns (v: real)
    requires Valid(p) && Safe(p, s) && dt > 0.0
    ensures Obeys(p, s, x, dt, pid, v, ComputeJoint(p, s, x, dt, pid))
  {
    hide NearestAllowed, Commanded, Clip, VelocityOf;
    var sum := Integrated(p, s, x.reference - x.position, dt, pid);
    assert sum == SumOf(p, s, x, dt, pid);
    v := Commanded(p, s, RawVelocity(p, x, sum), dt);
    assert RawVelocity(p, x, sum) == Wanted(p, x, sum);
    CommandedIsNearest(p, s, RawVelocity(p, x, sum), dt);
    var y := Clip(Integrate(s.position, v, dt), p.lower, p.upper);
    VelocityLeads(s.position, y, dt);
  }

  lemma VelocityLeads(x: real, y: real, dt: real)
    requires dt > 0.0
    ensures VelocityOf(x, y, dt) * dt == y - x
  {
    WayOfRate(y - x, dt);
  }

  // While no limit binds, the joint moves with exactly the velocity wanted.
  lemma UnlimitedLaw(p: Params, s: Joint, x: Input, dt: real, pid: bool)
    requires Valid(p) && Safe(p, s) && dt > 0.0
    requires var wanted := Wanted(p, x, SumOf(p, s, x, dt, pid));
             Allowed(p, s.velocity, dt, wanted) && p.lower <= s.position + wanted * dt <= p.upper
    ensures var sum := SumOf(p, s, x, dt, pid);
            var wanted := Wanted(p, x, sum);
            ComputeJoint(p, s, x, dt, pid) == Joint(s.position + wanted * dt, wanted, sum)
  {
    hide ComputeJoint, SumOf, Wanted, Safe;
    var v := ComputeLaw(p, s, x, dt, pid);
    var wanted := Wanted(p, x, SumOf(p, s, x, dt, pid));
    assert v == wanted by {
      assert Abs(v - wanted) <= Abs(wanted - wanted);
    }
    SameRate(ComputeJoint(p, s, x, dt, pid).velocity, v, dt);
  }

  lemma SameRate(v: real, w: real, dt: real)
    requires dt > 0.0
    ensures v * dt == w * dt ==> v == w
  {
    RateOfWay(v, dt);
    RateOfWay(w, dt);
  }

  // Under any limits the loop heads for its reference: a joint at rest, with a proportional gain
  // only, moves towards it, and does move if the bounds and the joint limit leave room.
  lemma HeadsForReference(p: Params, s: Joint, x: Input, dt: real)
    requires Valid(p) && Safe(p, s) && dt > 0.0
    requires p.kp > 0.0 && p.kd == p.ki == 0.0 && s.velocity == 0.0
    ensures var t := ComputeJoint(p, s, x, dt, false);
            && (x.reference >= x.position ==> t.position >= s.position)
            && (x.reference <= x.position ==> t.position <= s.position)
            && (p.maxVelocity > 0.0 && p.maxAcceleration > 0.0 ==>
                  && (x.reference > x.position && s.position < p.upper ==> t.position > s.position)
                  && (x.reference < x.position && s.position > p.lower ==> t.position < s.position))
  {
    hide ComputeJoint, NearestAllowed, Wanted;
    var v := ComputeLaw(p, s, x, dt, false);
    ProportionalOnly(p, x);
    NearestSide(p, dt, Wanted(p, x, 0.0), v);
    ProductSign(dt, v);
  }

  lemma ProportionalOnly(p: Params, x: Input)
    requires p.kp > 0.0 && p.kd == p.ki == 0.0
    ensures x.reference > x.position ==> Wanted(p, x, 0.0) > 0.0
    ensures x.reference < x.position ==> Wanted(p, x, 0.0) < 0.0
    ensures x.reference == x.position ==> Wanted(p, x, 0.0) == 0.0
  {
    ProductSign(p.kp, x.reference - x.position);
    assert 0.0 * (x.referenceVelocity - x.velocity) == 0.0;
  }

  lemma ProductSign(a: real, b: real)
    requires a > 0.0
    ensures b > 0.0 ==> a * b > 0.0
    ensures b < 0.0 ==> a * b < 0.0
    ensures b == 0.0 ==> a * b == 0.0
  {
  }

  // From rest the nearest allowed velocity is on the side of the wanted one, and off zero where
  // the bounds leave room.
  lemma NearestSide(p: Params, dt: real, wanted: real, v: real)
    requires Valid(p) && dt > 0.0 && NearestAllowed(p, 0.0, dt, wanted, v)
    ensures wanted >= 0.0 ==> v >= 0.0
    ensures wanted <= 0.0 ==> v <= 0.0
    ensures p.maxVelocity > 0.0 && p.maxAcceleration > 0.0 && wanted != 0.0 ==> v != 0.0
  {
    WaySign(p.maxAcceleration, dt);
    var maxDv := p.maxAcceleration * dt;
    assert -p.maxAcceleration * dt == -maxDv;
    assert Allowed(p, 0.0, dt, 0.0);
    if p.maxVelocity > 0.0 && p.maxAcceleration > 0.0 && wanted != 0.0 {
      ProductSign(p.maxAcceleration, dt);
      var u := Min(Abs(wanted), Min(p.maxVelocity, maxDv));
      assert Allowed(p, 0.0, dt, u) && Allowed(p, 0.0, dt, -u);
    }
  }

  // ------------------------------------------------------------------------------- all joints

  datatype Mode = OuterPd | OuterPid | OtherMode

  datatype Call =
    | Reset(target: seq<real>, targetVelocity: Option<seq<real>>)
    | Compute(reference: seq<real>, referenceVelocity: seq<real>,
              position: seq<real>, velocity: seq<real>, dt: real, mode: Mode)

  datatype Controller = Controller(joints: seq<Joint>, initialized: bool)

  function Created(ps: seq<Params>): Controller {
    Controller(seq(|ps|, i => Joint(0.0, 0.0, 0.0)), false)
  }

  // A reset with a velocity of the wrong length raises after the position was taken over.
  function AfterReset(ps: seq<Params>, c: Controller, position: seq<real>, velocity: Option<seq<real>>)
    : (r: Controller)
    requires |c.joints| == |ps|
    ensures |r.joints| == |ps|
  {
    if |position| != |ps| then c
    else if velocity.Some? && |velocity.value| != |ps| then
      c.(joints := seq(|ps|, i requires 0 <= i < |ps| =>
           c.joints[i].(position := Clip(position[i], ps[i].lower, ps[i].upper))))
    else
      Controller(seq(|ps|, i requires 0 <= i < |ps| =>
        ResetJoint(ps[i], position[i], if velocity.Some? then Some(velocity.value[i]) else None)), true)
  }

  predicate Accepted(ps: seq<Params>, call: Call) {
    call.Compute? && call.mode != OtherMode && call.dt > 0.0
    && |call.reference| == |call.referenceVelocity| == |call.position| == |call.velocity| == |ps|
  }

  function InputOf(call: Call, i: nat): Input
    requires call.Compute? && i < |call.reference|
    requires |call.reference| == |call.referenceVelocity| == |call.position| == |call.velocity|
  {
    Input(call.reference[i], call.referenceVelocity[i], call.position[i], call.velocity[i])
  }

  // The state a compute works on: an uninitialised controller first resets to the measurement.
  function Ready(ps: seq<Params>, c: Controller, call: Call): (r: Controller)
    requires |c.joints| == |ps| && Accepted(ps, call)
    ensures |r.joints| == |ps| && r.initialized
  {
    if c.initialized then c else AfterReset(ps, c, call.position, None)
  }

  function Apply(ps: seq<Params>, c: Controller, call: Call): (r: Controller)
    requires |c.joints| == |ps|
    ensures |r.joints| == |ps|
  {
    match call
    case Reset(position, velocity) => AfterReset(ps, c, position, velocity)
    case Compute(_, _, _, _, dt, mode) =>
      if !Accepted(ps, call) then c
      else
        var b := Ready(ps, c, call);
        b.(joints := seq(|ps|, i requires 0 <= i < |ps| =>
             ComputeJoint(ps[i], b.joints[i], InputOf(call, i), dt, mode == OuterPid)))
  }

  class OuterLoopPositionController {
    const params: seq<Params>
    var outputPosition: seq<real>
    var outputVelocity: seq<real>
    var integralError: seq<real>
    var initialized: bool

    ghost predicate Shaped()
      reads this
    {
      |outputPosition| == |outputVelocity| == |integralError| == |params|
    }

    function State(): (c: Controller)
      reads this
      requires Shaped()
      ensures |c.joints| == |params|
    {
      Controller(seq(|params|, i requires 0 <= i < |params| reads this
                       requires Shaped() =>
                   Joint(outputPosition[i], outputVelocity[i], integralError[i])), initialized)
    }

    constructor (params: seq<Params>)
      ensures this.params == params && Shaped() && State() == Created(params)
      ensures !initialized && forall i :: 0 <= i < |params| ==>
                outputPosition[i] == outputVelocity[i] == integralError[i] == 0.0
    {
      this.params := params;
      outputPosition, outputVelocity := seq(|params|, _ => 0.0), seq(|params|, _ => 0.0);
      integralError, initialized := seq(|params|, _ => 0.0), false;
    }

    method ResetTo(position: seq<real>, velocity: Option<seq<real>>) returns (ok: bool)
      requires Shaped()
      modifies this
      ensures Shaped() && State() == AfterReset(params, old(State()), position, velocity)
      ensures ok == (|position| == |params| && (velocity.Some? ==> |velocity.value| == |params|))
    {
      if |position| != |params| {
        return false;
      }
      outputPosition := seq(|params|, i requires 0 <= i < |params| =>
        Clip(position[i], params[i].lower, params[i].upper));
      if velocity.None? {
        outputVelocity := seq(|params|, _ => 0.0);
      } else {
        if |velocity.value| != |params| {
          return false;
        }
        outputVelocity := seq(|params|, i requires 0 <= i < |params| =>
          Clip(velocity.value[i], -params[i].maxVelocity, params[i].maxVelocity));
      }
      integralError := seq(|params|, _ => 0.0);
      initialized := true;
      return true;
    }

    method ComputeNext(call: Call) returns (r: Result<seq<real>>)
      requires Shaped() && call.Compute?
      modifies this
      ensures Shaped() && State() == Apply(params, old(State()), call)
      ensures r.Ok? == Accepted(params, call)
      ensures r.Ok? ==> r.value == outputPosition
    {
      hide Command, ComputeJoint, Clip;
      if call.mode == OtherMode {
        return Error("Unsupported outer-loop mode");
      }
      if call.dt <= 0.0 {
        return Error("dt must be positive");
      }
      if |call.reference| != |params| || |call.referenceVelocity| != |params|
         || |call.position| != |params| || |call.velocity| != |params| {
        return Error("wrong number of values");
      }
      if !initialized {
        var _ := ResetTo(call.position, None);
      }
      var next := seq(|params|, i requires 0 <= i < |params| && Shaped() reads this =>
        ComputeJoint(params[i], Joint(outputPosition[i], outputVelocity[i], integralError[i]),
                     InputOf(call, i), call.dt, call.mode == OuterPid));
      outputPosition := seq(|params|, i requires 0 <= i < |params| => next[i].position);
      outputVelocity := seq(|params|, i requires 0 <= i < |params| => next[i].velocity);
      integralError := seq(|params|, i requires 0 <= i < |params| => next[i].integral);
      return Ok(outputPosition);
    }
  }

  // ------------------------------------------------------------------------------- runs

  ghost predicate IsRun(ps: seq<Params>, states: seq<Controller>, calls: seq<Call>) {
    && (forall i :: 0 <= i < |ps| ==> Valid(ps[i]))
    && |states| == |calls| + 1
    && states[0] == Created(ps)
    && (forall n :: 0 <= n < |states| ==> |states[n].joints| == |ps|)
    && (forall n :: 0 <= n < |calls| ==> states[n + 1] == Apply(ps, states[n], calls[n]))
  }

  ghost predicate AllSafe(ps: seq<Params>, c: Controller)
    requires |c.joints| == |ps|
  {
    forall i :: 0 <= i < |ps| ==> Safe(ps[i], c.joints[i])
  }

  // After any calls, in any order and with any arguments, an initialised controller holds every
  // output inside the joint limits, and velocity and integral inside their bounds.
  lemma {:induction false} AlwaysSafe(ps: seq<Params>, states: seq<Controller>, calls: seq<Call>, n: nat)
    requires IsRun(ps, states, calls) && n < |states|
    ensures states[n].initialized ==> AllSafe(ps, states[n])
  {
    hide Apply, Safe, Valid;
    if n > 0 {
      AlwaysSafe(ps, states, calls, n - 1);
      CallKeepsSafe(ps, states[n - 1], calls[n - 1]);
    }
  }

  lemma ResetKeepsSafe(ps: seq<Params>, c: Controller, position: seq<real>, velocity: Option<seq<real>>)
    requires |c.joints| == |ps| && forall i :: 0 <= i < |ps| ==> Valid(ps[i])
    requires c.initialized ==> AllSafe(ps, c)
    ensures var d := AfterReset(ps, c, position, velocity); d.initialized ==> AllSafe(ps, d)
  {
    hide ResetJoint, Clip;
    if |position| == |ps| {
      forall i | 0 <= i < |ps| && (velocity.Some? ==> |velocity.value| == |ps|)
        ensures var v := if velocity.Some? then Some(velocity.value[i]) else None;
                Safe(ps[i], ResetJoint(ps[i], position[i], v))
      {
        ResetIsSafe(ps[i], position[i], if velocity.Some? then Some(velocity.value[i]) else None);
      }
    }
  }

  lemma CallKeepsSafe(ps: seq<Params>, c: Controller, call: Call)
    requires |c.joints| == |ps| && forall i :: 0 <= i < |ps| ==> Valid(ps[i])
    requires c.initialized ==> AllSafe(ps, c)
    ensures var d := Apply(ps, c, call); d.initialized ==> AllSafe(ps, d)
  {
    hide AfterReset, ComputeJoint, Safe, Valid, Command;
    match call
    case Reset(position, velocity) => ResetKeepsSafe(ps, c, position, velocity);
    case Compute(_, _, _, _, dt, mode) =>
      if Accepted(ps, call) {
        ResetKeepsSafe(ps, c, call.position, None);
        var b := Ready(ps, c, call);
        forall i | 0 <= i < |ps|
          ensures Safe(ps[i], ComputeJoint(ps[i], b.joints[i], InputOf(call, i), dt, mode == OuterPid))
        {
          ComputeIsSafe(ps[i], b.joints[i], InputOf(call, i), dt, mode == OuterPid);
        }
      }
  }

  // What a compute of a run works on: the last state, or the measurement if there was no reset.
  ghost function Before(ps: seq<Params>, c: Controller, call: Call, i: nat): Joint
    requires i < |ps| == |c.joints| && call.Compute? && |call.position| == |ps|
  {
    if c.initialized then c.joints[i]
    else Joint(Clip(call.position[i], ps[i].lower, ps[i].upper), 0.0, 0.0)
  }

  // In any run every compute in a known mode, with a positive period and a value for each joint, obeys
  // the control law, joint by joint, on the arguments of its own call. Any other changes nothing.
  lemma ComputesObey(ps: seq<Params>, states: seq<Controller>, calls: seq<Call>, n: nat, i: nat)
    returns (v: real)
    requires IsRun(ps, states, calls) && n < |calls| && i < |ps|
    requires calls[n].Compute?
    ensures
      var call := calls[n];
      if call.mode != OtherMode && call.dt > 0.0 && |call.reference| == |ps|
         && |call.referenceVelocity| == |ps| && |call.position| == |ps| && |call.velocity| == |ps|
      then
        var x := Input(call.reference[i], call.referenceVelocity[i], call.position[i], call.velocity[i]);
        && states[n + 1].initialized
        && Obeys(ps[i], Before(ps, states[n], call, i), x, call.dt, call.mode == OuterPid, v,
                 states[n + 1].joints[i])
      else states[n + 1] == states[n]
  {
    hide ComputeJoint, Safe, Valid, Obeys, Clip;
    var call := calls[n];
    v := 0.0;
    if Accepted(ps, call) {
      AlwaysSafe(ps, states, calls, n);
      ResetKeepsSafe(ps, states[n], call.position, None);
      v := ComputeLaw(ps[i], Ready(ps, states[n], call).joints[i], InputOf(call, i), call.dt,
                      call.mode == OuterPid);
    }
  }

  // A reset puts every joint where it is told, within the limits, with no integral; with a target
  // of the wrong length it changes nothing.
  lemma ResetsStand(ps: seq<Params>, states: seq<Controller>, calls: seq<Call>, n: nat, i: nat)
    requires IsRun(ps, states, calls) && n < |calls| && i < |ps| && calls[n].Reset?
    ensures
      var p, call, t := ps[i], calls[n], states[n + 1].joints[i];
      if |call.target| != |ps| then states[n + 1] == states[n]
      else if call.targetVelocity.Some? && |call.targetVelocity.value| != |ps| then
        && states[n + 1].initialized == states[n].initialized
        && t == states[n].joints[i].(position := Clip(call.target[i], p.lower, p.upper))
      else
        && states[n + 1].initialized
        && t.position == Clip(call.target[i], p.lower, p.upper) && t.integral == 0.0
        && t.velocity == if call.targetVelocity.None? then 0.0
                         else Clip(call.targetVelocity.value[i], -p.maxVelocity, p.maxVelocity)
  {
    hide Clip, Valid;
  }

  // In any run, a compute moves each joint at most maxVelocity * dt, and its velocity changes by
  // at most maxAcceleration * dt unless the position limit stops it short.
  lemma ComputesAreBounded(ps: seq<Params>, states: seq<Controller>, calls: seq<Call>, n: nat, i: nat)
    requires IsRun(ps, states, calls) && n < |calls| && i < |ps|
    requires Accepted(ps, calls[n])
    ensures var call := calls[n];
            var before, after := Ready(ps, states[n], call).joints[i], states[n + 1].joints[i];
            var v := Command(ps[i], before, InputOf(call, i), call.dt, call.mode == OuterPid);
            && Abs(after.position - before.position) <= Way(ps[i].maxVelocity, call.dt)
            && Way(after.velocity, call.dt) == after.position - before.position
            && Abs(v - before.velocity) <= Way(ps[i].maxAcceleration, call.dt)
            && Between(0.0, after.velocity, v)
            && (ps[i].lower <= Integrate(before.position, v, call.dt) <= ps[i].upper ==>
                  after.velocity == v)
  {
    hide AfterReset, ComputeJoint, Safe, Valid, Command;
    AlwaysSafe(ps, states, calls, n);
    ResetKeepsSafe(ps, states[n], calls[n].position, None);
    ComputeIsSafe(ps[i], Ready(ps, states[n], calls[n]).joints[i], InputOf(calls[n], i),
                  calls[n].dt, calls[n].mode == OuterPid);
  }
}
