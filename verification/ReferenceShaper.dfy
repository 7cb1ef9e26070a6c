/**
 The reference shaper of the PD node and its control loop, for one joint; numpy applies the same
 step to all twelve.
 */
module ReferenceShaper {
  import opened Reals
  import O = OuterController

  datatype Params = Params(
    alpha: real, rateLimit: bool, accelLimit: bool, maxSpeed: real, maxAccel: real, dt: real,
    lower: real, upper: real)

  // What the constructor makes of its parameters; the limits come from the joint map.
  predicate Valid(p: Params) {
    && 0.0 <= p.alpha <= 1.0 && p.maxSpeed >= 0.0 && p.maxAccel >= 0.0 && p.dt > 0.0
    && p.lower < p.upper
  }

  // The reference position and velocity.
  datatype Reference = Reference(position: real, velocity: real)

  // The most the position can move in one tick under the rate limit.
  function Reach(p: Params): real { O.Way(p.maxSpeed, p.dt) }

  // The move towards the filtered command.
  function Delta(p: Params, position: real, desired: real): real {
    var filtered := p.alpha * desired + (1.0 - p.alpha) * position;
    if p.rateLimit then Clip(filtered - position, -Reach(p), Reach(p))
    else filtered - position
  }

  // The most the velocity can change in one tick under the acceleration limit.
  function Drop(p: Params): real { O.Way(p.maxAccel, p.dt) }

  // The velocity one tick can reach from the last, given the one requested.
  function Limited(p: Params, velocity: real, requested: real): real {
    var v := if p.accelLimit
             then velocity + Clip(requested - velocity, -Drop(p), Drop(p))
             else requested;
    if p.rateLimit then Clip(v, -p.maxSpeed, p.maxSpeed) else v
  }

  function Requested(p: Params, r: Reference, desired: real): real
    requires p.dt > 0.0
  {
    O.Rate(Delta(p, r.position, desired), p.dt)
  }

  function Velocity(p: Params, r: Reference, desired: real): real
    requires p.dt > 0.0
  {
    Limited(p, r.velocity, Requested(p, r, desired))
  }

  // _shape_reference
  function Shape(p: Params, r: Reference, desired: real): Reference
    requires p.dt > 0.0
  {
    var position := Clip(O.Integrate(r.position, Velocity(p, r, desired), p.dt), p.lower, p.upper);
    Reference(position, O.VelocityOf(r.position, position, p.dt))
  }

  predicate Inside(p: Params, x: real) { p.lower <= x <= p.upper }

  // ------------------------------------------------------------------------------- one tick

  // Whatever is asked for, the reference stays inside the limits, and with the rate limit on it
  // moves at most maxSpeed * dt.
  lemma ShapeIsBounded(p: Params, r: Reference, desired: real)
    requires Valid(p) && Inside(p, r.position)
    ensures var s := Shape(p, r, desired);
            && Inside(p, s.position) && O.Way(s.velocity, p.dt) == s.position - r.position
            && Between(0.0, s.velocity, Velocity(p, r, desired))
            && (p.rateLimit ==> Abs(s.position - r.position) <= Reach(p)
                                && -p.maxSpeed <= s.velocity <= p.maxSpeed)
  {
    hide Velocity, Clip, O.Integrate, O.VelocityOf, Abs, Between;
    var v := Velocity(p, r, desired);
    if p.rateLimit {
      VelocityIsBounded(p, r, desired);
      O.MoveIsSafe(r.position, v, p.dt, p.lower, p.upper, p.maxSpeed);
    } else {
      O.MoveIsSafe(r.position, v, p.dt, p.lower, p.upper, if v < 0.0 then -v else v);
    }
  }

  lemma VelocityIsBounded(p: Params, r: Reference, desired: real)
    requires Valid(p) && p.rateLimit
    ensures -p.maxSpeed <= Velocity(p, r, desired) <= p.maxSpeed
  {
    hide Requested;
  }

  // ------------------------------------------------------------------------------- the shaping law

  // The low-pass filter's pull towards the command, what the rate limit leaves of it, and what the
  // limits leave of the velocity that would make that move in one tick.
  ghost function Pull(p: Params, r: Reference, desired: real): real { p.alpha * (desired - r.position) }

  ghost function SpeedWay(p: Params): real { p.maxSpeed * p.dt }

  ghost function AccelStep(p: Params): real { p.maxAccel * p.dt }

  ghost function Move(p: Params, r: Reference, desired: real): real {
    if p.rateLimit then Clip(Pull(p, r, desired), -SpeedWay(p), SpeedWay(p)) else Pull(p, r, desired)
  }

  ghost function Within(p: Params, last: real, wanted: real): real {
    var v := if p.accelLimit then last + Clip(wanted - last, -AccelStep(p), AccelStep(p)) else wanted;
    if p.rateLimit then Clip(v, -p.maxSpeed, p.maxSpeed) else v
  }

  // One tick, in these terms.
  lemma ShapeLaw(p: Params, r: Reference, desired: real)
    requires Valid(p)
    ensures var v := Within(p, r.velocity, Move(p, r, desired) / p.dt);
            var s := Shape(p, r, desired);
            && s.position == Clip(r.position + v * p.dt, p.lower, p.upper)
            && s.velocity == (s.position - r.position) / p.dt
  {
    hide Clip, Limited, Within, Move, Delta;
    DeltaIsMove(p, r, desired);
    LimitedIsWithin(p, r.velocity, Move(p, r, desired) / p.dt);
  }

  lemma DeltaIsMove(p: Params, r: Reference, desired: real)
    ensures Delta(p, r.position, desired) == Move(p, r, desired)
  {
    FilterMove(p.alpha, desired, r.position);
    assert Reach(p) == SpeedWay(p);
  }

  lemma LimitedIsWithin(p: Params, last: real, wanted: real)
    ensures Limited(p, last, wanted) == Within(p, last, wanted)
  {
    assert Drop(p) == AccelStep(p);
  }

  lemma FilterMove(alpha: real, desired: real, x: real)
    ensures alpha * desired + (1.0 - alpha) * x - x == alpha * (desired - x)
  {
  }

  // While no limit binds, the reference makes exactly the filter's move; with alpha 1 it stands at
  // the command.
  lemma UnlimitedMove(p: Params, r: Reference, desired: real)
    requires Valid(p)
    requires var pull := Pull(p, r, desired);
             && (p.rateLimit ==> -SpeedWay(p) <= pull <= SpeedWay(p))
             && (p.accelLimit ==> -AccelStep(p) <= pull / p.dt - r.velocity <= AccelStep(p))
             && p.lower <= r.position + pull <= p.upper
    ensures var pull := Pull(p, r, desired);
            Shape(p, r, desired) == Reference(r.position + pull, pull / p.dt)
    ensures p.alpha == 1.0 ==> Shape(p, r, desired).position == desired
  {
    hide Shape, Pull, SpeedWay, AccelStep, Within;
    var pull := Pull(p, r, desired);
    assert Move(p, r, desired) == pull;
    SpeedWithin(p, pull);
    StaysWithin(p, r.velocity, pull / p.dt);
    RateLeads(pull, p.dt);
    WithRoom(p, r, desired, pull);
    FullPull(p, r, desired);
  }

  lemma WithRoom(p: Params, r: Reference, desired: real, way: real)
    requires Valid(p) && Within(p, r.velocity, Move(p, r, desired) / p.dt) * p.dt == way
    requires p.lower <= r.position + way <= p.upper
    ensures Shape(p, r, desired) == Reference(r.position + way, way / p.dt)
  {
    hide Shape, Move, Within;
    ShapeLaw(p, r, desired);
  }

  lemma SpeedWithin(p: Params, way: real)
    requires Valid(p)
    ensures -SpeedWay(p) <= way <= SpeedWay(p) ==> -p.maxSpeed <= way / p.dt <= p.maxSpeed
  {
    RateBounded(way, p.maxSpeed, p.dt);
  }

  lemma StaysWithin(p: Params, last: real, wanted: real)
    requires Valid(p)
    requires p.accelLimit ==> -AccelStep(p) <= wanted - last <= AccelStep(p)
    requires p.rateLimit ==> -p.maxSpeed <= wanted <= p.maxSpeed
    ensures Within(p, last, wanted) == wanted
  {
    hide AccelStep;
  }

  lemma FullPull(p: Params, r: Reference, desired: real)
    ensures p.alpha == 1.0 ==> Pull(p, r, desired) == desired - r.position
  {
  }

  lemma RateLeads(way: real, dt: real)
    requires dt > 0.0
    ensures way / dt * dt == way
  {
  }

  lemma RateBounded(way: real, bound: real, dt: real)
    requires dt > 0.0
    ensures -(bound * dt) <= way <= bound * dt ==> -bound <= way / dt <= bound
  {
    if -(bound * dt) <= way <= bound * dt {
      QuotientMonotone(way, bound * dt, dt);
      QuotientMonotone(-(bound * dt), way, dt);
      assert bound * dt / dt == bound && -(bound * dt) / dt == -bound;
    }
  }

  // Under any limits the reference heads for the command: from rest it moves towards it, and does
  // move where the limits leave room.
  lemma HeadsForCommand(p: Params, r: Reference, desired: real)
    requires Valid(p) && Inside(p, r.position) && r.velocity == 0.0 && p.alpha > 0.0
    ensures var s := Shape(p, r, desired);
            && (desired >= r.position ==> s.position >= r.position)
            && (desired <= r.position ==> s.position <= r.position)
            && ((p.rateLimit ==> p.maxSpeed > 0.0) && (p.accelLimit ==> p.maxAccel > 0.0) ==>
                  && (desired > r.position && r.position < p.upper ==> s.position > r.position)
                  && (desired < r.position && r.position > p.lower ==> s.position < r.position))
  {
    hide Shape, Move, Within;
    ShapeLaw(p, r, desired);
    var wanted := Move(p, r, desired) / p.dt;
    var v := Within(p, 0.0, wanted);
    MoveSign(p, r, desired);
    RateSign(Move(p, r, desired), p.dt);
    WithinSign(p, wanted);
    O.ProductSign(p.dt, v);
  }

  lemma RateSign(way: real, dt: real)
    requires dt > 0.0
    ensures way > 0.0 ==> way / dt > 0.0
    ensures way < 0.0 ==> way / dt < 0.0
    ensures way == 0.0 ==> way / dt == 0.0
  {
  }

  lemma MoveSign(p: Params, r: Reference, desired: real)
    requires Valid(p) && p.alpha > 0.0
    ensures var move := Move(p, r, desired);
            && (desired >= r.position ==> move >= 0.0) && (desired <= r.position ==> move <= 0.0)
            && ((p.rateLimit ==> p.maxSpeed > 0.0) ==>
                  (desired > r.position ==> move > 0.0) && (desired < r.position ==> move < 0.0))
  {
    hide SpeedWay, Pull;
    SpeedWaySign(p);
    PullSign(p, r, desired);
  }

  lemma PullSign(p: Params, r: Reference, desired: real)
    requires p.alpha > 0.0
    ensures desired > r.position ==> Pull(p, r, desired) > 0.0
    ensures desired < r.position ==> Pull(p, r, desired) < 0.0
    ensures desired == r.position ==> Pull(p, r, desired) == 0.0
  {
    O.ProductSign(p.alpha, desired - r.position);
  }

  lemma SpeedWaySign(p: Params)
    requires Valid(p)
    ensures SpeedWay(p) >= 0.0 && (p.maxSpeed > 0.0 ==> SpeedWay(p) > 0.0)
    ensures AccelStep(p) >= 0.0 && (p.maxAccel > 0.0 ==> AccelStep(p) > 0.0)
  {
    O.ProductSign(p.dt, p.maxSpeed);
    O.ProductSign(p.dt, p.maxAccel);
  }

  lemma WithinSign(p: Params, wanted: real)
    requires Valid(p)
    ensures var v := Within(p, 0.0, wanted);
            && (wanted >= 0.0 ==> v >= 0.0) && (wanted <= 0.0 ==> v <= 0.0)
            && ((p.rateLimit ==> p.maxSpeed > 0.0) && (p.accelLimit ==> p.maxAccel > 0.0) ==>
                  (wanted > 0.0 ==> v > 0.0) && (wanted < 0.0 ==> v < 0.0))
  {
    hide AccelStep;
    SpeedWaySign(p);
  }

  // ------------------------------------------------------------------------------- stopping

  // After the command times out the loop asks for the reference itself.
  function Coast(p: Params, r: Reference): Reference
    requires p.dt > 0.0
  {
    Shape(p, r, r.position)
  }

  lemma NothingRequested(p: Params, r: Reference)
    requires Valid(p)
    ensures Requested(p, r, r.position) == 0.0
  {
    assert p.alpha * r.position + (1.0 - p.alpha) * r.position == r.position;
    ProductOfNonNegatives(p.maxSpeed, p.dt);
    assert 0.0 / p.dt == 0.0;
  }

  // The speed left after braking for one tick.
  function Braked(p: Params, speed: real): real {
    if p.accelLimit then Max(speed - Drop(p), 0.0) else 0.0
  }

  lemma BrakingVelocity(p: Params, velocity: real)
    requires Valid(p)
    ensures Between(0.0, Limited(p, velocity, 0.0), velocity)
    ensures Abs(Limited(p, velocity, 0.0)) <= Braked(p, Abs(velocity))
  {
    ProductOfNonNegatives(p.maxAccel, p.dt);
  }

  // One coasting tick: the speed falls by at least maxAccel * dt, to zero and not beyond; the
  // direction is kept; also where the joint limit cuts the move.
  lemma CoastSlows(p: Params, r: Reference)
    requires Valid(p) && Inside(p, r.position)
    ensures var s := Coast(p, r);
            && Inside(p, s.position) && O.Way(s.velocity, p.dt) == s.position - r.position
            && Abs(s.velocity) <= Braked(p, Abs(r.velocity))
            && Between(0.0, s.velocity, r.velocity)
  {
    hide Shape, Limited, Braked, Requested, Valid, Inside;
    ShapeIsBounded(p, r, r.position);
    NothingRequested(p, r);
    BrakingVelocity(p, r.velocity);
  }

  function Coasting(p: Params, r: Reference, n: nat): Reference
    requires p.dt > 0.0
  {
    if n == 0 then r else Coast(p, Coasting(p, r, n - 1))
  }

  // All the way covered in n ticks.
  function Travel(p: Params, r: Reference, n: nat): real
    requires p.dt > 0.0
  {
    if n == 0 then 0.0
    else Travel(p, r, n - 1) + Abs(Coasting(p, r, n).position - Coasting(p, r, n - 1).position)
  }

  // The energy of a motion together with the way it has covered.
  function Energy(a: real, way: real, v: real): real { 2.0 * a * way + v * v }

  // v' dt + v'^2 / 2a <= v^2 / 2a, written without the division.
  lemma BrakingEnergy(v: real, w: real, a: real, dt: real, way: real)
    requires v >= 0.0 && w >= 0.0 && a >= 0.0 && dt > 0.0
    requires w <= Max(v - a * dt, 0.0) && way == w * dt
    ensures Energy(a, way, w) <= Energy(a, 0.0, v)
  {
    var d := a * dt;
    ProductOfNonNegatives(a, dt);
    ProductOfNonNegatives(v, v);
    if w > 0.0 {
      ProductMonotone(w + d, v, w + d);
      ProductMonotone(w + d, v, v);
      assert (w + d) * (w + d) == w * w + 2.0 * (d * w) + d * d;
      assert v * (w + d) == (w + d) * v;
      assert d * d >= 0.0;
      assert 2.0 * a * (w * dt) == 2.0 * (d * w);
    }
  }

  // The speed left after n ticks of braking.
  function SpeedLeft(start: real, n: nat, drop: real): real { Max(start - n as real * drop, 0.0) }

  lemma SpeedStep(start: real, n: nat, drop: real, v: real, w: real)
    requires drop >= 0.0 && v <= SpeedLeft(start, n, drop) && w <= Max(v - drop, 0.0)
    ensures w <= SpeedLeft(start, n + 1, drop)
  {
    assert (n + 1) as real * drop == n as real * drop + drop;
  }

  lemma EnergyStep(a: real, way: real, step: real, v: real, w: real, energy: real)
    requires Energy(a, way, v) <= energy && Energy(a, step, w) <= Energy(a, 0.0, v)
    ensures Energy(a, way + step, w) <= energy
  {
    assert 2.0 * a * (way + step) == 2.0 * a * way + 2.0 * a * step;
    assert 2.0 * a * 0.0 == 0.0;
  }

  lemma EnergyOfAbs(a: real, way: real, v: real)
    ensures Energy(a, way, Abs(v)) == Energy(a, way, v)
  {
    assert Abs(v) * Abs(v) == v * v;
  }

  lemma MoveOfVelocity(x: real, y: real, v: real, dt: real)
    requires v * dt == y - x && dt > 0.0
    ensures Abs(y - x) == Abs(v) * dt
  {
    ScaleKeepsSign(dt, v);
    assert v * dt == dt * v && Abs(v) * dt == dt * Abs(v);
  }

  // What one coasting tick does to speed and energy.
  lemma CoastStep(p: Params, s: Reference)
    requires Valid(p) && Inside(p, s.position) && p.accelLimit
    ensures var t := Coast(p, s);
            && Inside(p, t.position)
            && Abs(t.velocity) <= Max(Abs(s.velocity) - Drop(p), 0.0)
            && Energy(p.maxAccel, Abs(t.position - s.position), t.velocity)
                 <= Energy(p.maxAccel, 0.0, s.velocity)
  {
    hide Coast, Inside, Energy, Abs;
    var t := Coast(p, s);
    CoastSlows(p, s);
    MoveOfVelocity(s.position, t.position, t.velocity, p.dt);
    EnergyOfAbs(p.maxAccel, 0.0, s.velocity);
    EnergyOfAbs(p.maxAccel, Abs(t.position - s.position), t.velocity);
    AbsNotNegative(s.velocity);
    AbsNotNegative(t.velocity);
    BrakingEnergy(Abs(s.velocity), Abs(t.velocity), p.maxAccel, p.dt, Abs(t.position - s.position));
  }

  lemma AbsNotNegative(x: real)
    ensures Abs(x) >= 0.0
  {
  }

  // From the timeout on, with acceleration limit a: after n ticks the speed is at most
  // v0 - n a dt, or zero, and the way covered satisfies 2 a way + v^2 <= v0^2, so that it never
  // exceeds v0^2 / 2a. Joint limits met on the way change none of this.
  lemma {:induction false} CoastingStops(p: Params, r: Reference, n: nat)
    requires Valid(p) && Inside(p, r.position) && p.accelLimit
    ensures var s := Coasting(p, r, n);
            && Inside(p, s.position)
            && Abs(s.velocity) <= SpeedLeft(Abs(r.velocity), n, Drop(p))
            && Energy(p.maxAccel, Travel(p, r, n), s.velocity) <= Energy(p.maxAccel, 0.0, r.velocity)
            && Abs(s.position - r.position) <= Travel(p, r, n)
  {
    hide Coast, Inside, SpeedLeft, Energy, Max;
    if n == 0 {
      StopStart(Abs(r.velocity), Drop(p));
    } else {
      var s, t := Coasting(p, r, n - 1), Coasting(p, r, n);
      CoastingStops(p, r, n - 1);
      CoastStep(p, s);
      ProductOfNonNegatives(p.maxAccel, p.dt);
      SpeedStep(Abs(r.velocity), n - 1, Drop(p), Abs(s.velocity), Abs(t.velocity));
      EnergyStep(p.maxAccel, Travel(p, r, n - 1), Abs(t.position - s.position),
                 s.velocity, t.velocity, Energy(p.maxAccel, 0.0, r.velocity));
    }
  }

  lemma StopStart(speed: real, drop: real)
    ensures speed <= SpeedLeft(speed, 0, drop)
  {
  }

  function StoppingDistance(a: real, v: real): real
    requires a > 0.0
  {
    v * v / (2.0 * a)
  }

  // The total further travel is at most the stopping distance v0^2 / 2a.
  lemma StopsWithinDistance(p: Params, r: Reference, n: nat)
    requires Valid(p) && Inside(p, r.position) && p.accelLimit && p.maxAccel > 0.0
    ensures Abs(Coasting(p, r, n).position - r.position) <= Travel(p, r, n)
              <= StoppingDistance(p.maxAccel, r.velocity)
  {
    hide Coasting, Travel, Inside, Energy, StoppingDistance;
    CoastingStops(p, r, n);
    WayFromEnergy(p.maxAccel, Travel(p, r, n), Coasting(p, r, n).velocity, r.velocity);
  }

  lemma WayFromEnergy(a: real, way: real, v: real, start: real)
    requires a > 0.0 && Energy(a, way, v) <= Energy(a, 0.0, start)
    ensures way <= StoppingDistance(a, start)
  {
    assert v * v >= 0.0;
    QuotientMonotone(2.0 * a * way, start * start, 2.0 * a);
    assert 2.0 * a * way / (2.0 * a) == way;
  }

  // The same, written out: every tick takes at least maxAccel * dt off the speed, until none is
  // left, and the way from the start and the speed that is left share the energy of the start.
  lemma CoastingLaw(p: Params, r: Reference, n: nat)
    requires Valid(p) && Inside(p, r.position) && p.accelLimit
    ensures var s := Coasting(p, r, n);
            && (s.velocity == 0.0 || Abs(s.velocity) <= Abs(r.velocity) - n as real * (p.maxAccel * p.dt))
            && 2.0 * p.maxAccel * Abs(s.position - r.position) + s.velocity * s.velocity
                 <= r.velocity * r.velocity
  {
    hide Coasting, Travel, Inside, Abs;
    CoastingStops(p, r, n);
    var s := Coasting(p, r, n);
    SpeedLeftMeans(Abs(r.velocity), n, Drop(p), s.velocity);
    ProductMonotone(Abs(s.position - r.position), Travel(p, r, n), 2.0 * p.maxAccel);
  }

  lemma SpeedLeftMeans(start: real, n: nat, drop: real, v: real)
    requires Abs(v) <= SpeedLeft(start, n, drop)
    ensures v == 0.0 || Abs(v) <= start - n as real * drop
  {
  }

  // Without the acceleration limit the reference stops at once; with it, once stopped it stays.
  lemma CoastingStays(p: Params, r: Reference)
    requires Valid(p) && Inside(p, r.position) && (!p.accelLimit || r.velocity == 0.0)
    ensures Coast(p, r) == Reference(r.position, 0.0)
  {
    hide Coast, Braked;
    CoastSlows(p, r);
    assert Braked(p, 0.0) == 0.0 by { BrakedAtRest(p); }
    BrakedWithoutLimit(p, Abs(r.velocity));
    assert 0.0 * p.dt == 0.0;
  }

  lemma BrakedAtRest(p: Params)
    requires Valid(p)
    ensures Braked(p, 0.0) == 0.0
  {
    ProductOfNonNegatives(p.maxAccel, p.dt);
  }

  lemma BrakedWithoutLimit(p: Params, speed: real)
    ensures !p.accelLimit ==> Braked(p, speed) == 0.0
  {
  }

  // ------------------------------------------------------------------------------- overshoot

  // The velocity that would reach the command in exactly one tick.
  function ToGo(p: Params, r: Reference, desired: real): real
    requires p.dt > 0.0
  {
    O.Rate(desired - r.position, p.dt)
  }

  lemma RequestedWithin(p: Params, r: Reference, desired: real)
    requires Valid(p)
    ensures Between(0.0, Requested(p, r, desired), ToGo(p, r, desired))
    ensures p.rateLimit ==> -p.maxSpeed <= Requested(p, r, desired) <= p.maxSpeed
  {
    hide Delta;
    DeltaWithin(p, r.position, desired);
    QuotientBetween(Delta(p, r.position, desired), desired - r.position, p.dt);
    if p.rateLimit {
      QuotientBounded(Delta(p, r.position, desired), p.maxSpeed, p.dt);
    }
  }

  lemma QuotientBetween(x: real, y: real, dt: real)
    requires dt > 0.0 && Between(0.0, x, y)
    ensures Between(0.0, x / dt, y / dt)
  {
    if 0.0 <= x <= y {
      QuotientMonotone(0.0, x, dt);
      QuotientMonotone(x, y, dt);
    } else {
      QuotientMonotone(x, 0.0, dt);
      QuotientMonotone(y, x, dt);
    }
  }

  lemma QuotientBounded(x: real, bound: real, dt: real)
    requires dt > 0.0 && -(bound * dt) <= x <= bound * dt
    ensures -bound <= x / dt <= bound
  {
    QuotientMonotone(-(bound * dt), x, dt);
    QuotientMonotone(x, bound * dt, dt);
    assert bound * dt / dt == bound && -(bound * dt) / dt == -bound;
  }

  lemma DeltaWithin(p: Params, position: real, desired: real)
    requires Valid(p)
    ensures Between(0.0, Delta(p, position, desired), desired - position)
    ensures p.rateLimit ==> -Reach(p) <= Delta(p, position, desired) <= Reach(p)
  {
    var gap := desired - position;
    assert p.alpha * desired + (1.0 - p.alpha) * position - position == p.alpha * gap;
    ScaleKeepsSign(p.alpha, gap);
    ScaleKeepsSign(1.0 - p.alpha, gap);
    assert (1.0 - p.alpha) * gap == gap - p.alpha * gap;
    ProductOfNonNegatives(p.maxSpeed, p.dt);
  }

  // A tick passes a command it was approaching exactly when the acceleration limit is on, the
  // last velocity less one tick of braking is still more than the way to go, and there is room
  // beyond the command. Without the acceleration limit a tick never overshoots.
  lemma OvershootsExactly(p: Params, r: Reference, desired: real)
    requires Valid(p) && Inside(p, r.position) && Inside(p, desired) && r.position <= desired
    requires p.rateLimit ==> -p.maxSpeed <= r.velocity <= p.maxSpeed
    ensures Shape(p, r, desired).position > desired <==>
              p.accelLimit && desired < p.upper
              && r.velocity - Drop(p) > ToGo(p, r, desired)
  {
    hide Requested, Velocity, O.Integrate, O.VelocityOf, ToGo;
    VelocityPasses(p, r, desired);
    IntegratePasses(r.position, Velocity(p, r, desired), p.dt, desired);
    ToGoMeaning(p, r, desired);
  }

  lemma VelocityPasses(p: Params, r: Reference, desired: real)
    requires Valid(p) && r.position <= desired
    requires p.rateLimit ==> -p.maxSpeed <= r.velocity <= p.maxSpeed
    ensures Velocity(p, r, desired) > ToGo(p, r, desired) <==>
              p.accelLimit && r.velocity - Drop(p) > ToGo(p, r, desired)
  {
    hide Requested, ToGo;
    RequestedWithin(p, r, desired);
    ProductOfNonNegatives(p.maxAccel, p.dt);
    ToGoSign(p, r, desired);
  }

  lemma ToGoSign(p: Params, r: Reference, desired: real)
    requires p.dt > 0.0 && r.position <= desired
    ensures ToGo(p, r, desired) >= 0.0
  {
    QuotientMonotone(0.0, desired - r.position, p.dt);
  }

  lemma ToGoMeaning(p: Params, r: Reference, desired: real)
    requires p.dt > 0.0
    ensures ToGo(p, r, desired) == O.Rate(desired - r.position, p.dt)
  {
  }

  lemma IntegratePasses(x: real, v: real, dt: real, y: real)
    requires dt > 0.0
    ensures O.Integrate(x, v, dt) > y <==> v > (y - x) / dt
  {
    var q := (y - x) / dt;
    assert q * dt == y - x;
    if v > q {
      assert (v - q) * dt > 0.0;
      assert (v - q) * dt == v * dt - q * dt;
    } else {
      ProductMonotone(v, q, dt);
    }
  }

  lemma UnitTick(p: Params, r: Reference, desired: real)
    requires Valid(p) && p.alpha == p.dt == p.maxAccel == 1.0 && !p.rateLimit && p.accelLimit
    ensures var v := r.velocity + Clip(desired - r.position - r.velocity, -1.0, 1.0);
            var position := Clip(r.position + v, p.lower, p.upper);
            Shape(p, r, desired) == Reference(position, position - r.position)
  {
    hide Clip;
    assert Drop(p) == 1.0 && Delta(p, r.position, desired) == desired - r.position;
  }

  // It does happen: unit acceleration, command 3, three ticks of one second from rest.
  lemma OvershootHappens(p: Params)
    requires p == Params(1.0, false, true, 10.0, 1.0, 1.0, -10.0, 10.0)
    ensures var r1 := Shape(p, Reference(0.0, 0.0), 3.0);
            var r2 := Shape(p, r1, 3.0);
            var r3 := Shape(p, r2, 3.0);
            Valid(p) && r1.position == 1.0 && r2.position == 3.0 && r3.position == 4.0
  {
    hide Shape;
    UnitTick(p, Reference(0.0, 0.0), 3.0);
    UnitTick(p, Reference(1.0, 1.0), 3.0);
    UnitTick(p, Reference(3.0, 2.0), 3.0);
  }

  // Shaping is the same in a mirror, so approaching from above is no different.
  lemma ShapeMirrors(p: Params, r: Reference, desired: real)
    requires Valid(p)
    ensures var mirrored := Shape(p.(lower := -p.upper, upper := -p.lower),
                                  Reference(-r.position, -r.velocity), -desired);
            var s := Shape(p, r, desired);
            mirrored == Reference(-s.position, -s.velocity)
  {
    var q := p.(lower := -p.upper, upper := -p.lower);
    var m := Reference(-r.position, -r.velocity);
    ProductOfNonNegatives(p.maxSpeed, p.dt);
    ProductOfNonNegatives(p.maxAccel, p.dt);
    DeltaMirrors(p, q, r.position, desired);
    QuotientOfNegative(Delta(p, r.position, desired), p.dt);
    LimitedMirrors(p, q, r.velocity, Requested(p, r, desired));
    MoveMirrors(p, q, r.position, Velocity(p, r, desired));
  }

  lemma QuotientOfNegative(x: real, dt: real)
    requires dt > 0.0
    ensures -x / dt == -(x / dt)
  {
  }

  lemma DeltaMirrors(p: Params, q: Params, x: real, desired: real)
    requires Valid(p) && q == p.(lower := -p.upper, upper := -p.lower)
    ensures Delta(q, -x, -desired) == -Delta(p, x, desired)
  {
    ProductOfNonNegatives(p.maxSpeed, p.dt);
    assert p.alpha * -desired == -(p.alpha * desired);
    assert (1.0 - p.alpha) * -x == -((1.0 - p.alpha) * x);
  }

  lemma LimitedMirrors(p: Params, q: Params, v: real, requested: real)
    requires Valid(p) && q == p.(lower := -p.upper, upper := -p.lower)
    ensures Limited(q, -v, -requested) == -Limited(p, v, requested)
  {
    hide Clip, Drop;
    assert Drop(q) == Drop(p) >= 0.0 by { DropSame(p, q); }
    ClipIsOdd(requested - v, Drop(p));
    assert -requested - -v == -(requested - v);
    var w := if p.accelLimit then v + Clip(requested - v, -Drop(p), Drop(p)) else requested;
    ClipIsOdd(w, p.maxSpeed);
  }

  lemma DropSame(p: Params, q: Params)
    requires Valid(p) && q.maxAccel == p.maxAccel && q.dt == p.dt
    ensures Drop(q) == Drop(p) >= 0.0
  {
    ProductOfNonNegatives(p.maxAccel, p.dt);
  }

  lemma ClipIsOdd(x: real, bound: real)
    requires bound >= 0.0
    ensures Clip(-x, -bound, bound) == -Clip(x, -bound, bound)
  {
  }

  lemma MoveMirrors(p: Params, q: Params, x: real, v: real)
    requires Valid(p) && q == p.(lower := -p.upper, upper := -p.lower)
    ensures var y := Clip(O.Integrate(x, v, p.dt), p.lower, p.upper);
            && Clip(O.Integrate(-x, -v, p.dt), q.lower, q.upper) == -y
            && O.VelocityOf(-x, -y, p.dt) == -O.VelocityOf(x, y, p.dt)
  {
    assert -v * p.dt == -(v * p.dt);
    var y := Clip(O.Integrate(x, v, p.dt), p.lower, p.upper);
    QuotientOfNegative(y - x, p.dt);
  }
}
