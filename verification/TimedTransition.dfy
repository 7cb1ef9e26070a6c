/** run_transition: a ramp paced by the clock, for a given peak joint speed. */
module TimedTransition {
  import opened Poses
  import opened Reals
  import opened Smoothstep

  function MaxDelta(start: Pose, target: Pose, n: nat): (d: real)
    requires n <= NUM_JOINTS
    ensures d >= 0.0
    ensures forall i :: 0 <= i < n ==> Abs(target[i] - start[i]) <= d
  {
    if n == 0 then 0.0 else Max(MaxDelta(start, target, n - 1), Abs(target[n - 1] - start[n - 1]))
  }

  function PeakSpeed(speedLimit: real): real { Max(speedLimit, 0.000001) }

  function Duration(start: Pose, target: Pose, minTransition: real, speedLimit: real): real {
    Max(minTransition, 1.5 * MaxDelta(start, target, NUM_JOINTS) / PeakSpeed(speedLimit))
  }

  function Progress(t0: real, duration: real, now: real): (u: real)
    ensures 0.0 <= u <= 1.0
  {
    if duration <= 0.0 then 1.0 else Min(1.0, Max(0.0, (now - t0) / duration))
  }

  // The reference due at a given time.
  function ReferenceAt(start: Pose, target: Pose, t0: real, duration: real, now: real): Pose {
    LerpPose(start, target, Smooth(Progress(t0, duration, now)))
  }

  datatype Publication = Publication(time: real, pose: Pose)

  // One pass of the loop: whether rclpy is still up, the clock at the loop test, whether the
  // operator or the guard stops the run, and the clock at the publication test.
  datatype Tick = Tick(ok: bool, check: real, abort: bool, now: real)

  datatype Ending = Completed | Aborted | ShutDown | StillRunning

  predicate Nondecreasing(t0: real, ticks: seq<Tick>) {
    && (forall i :: 0 <= i < |ticks| ==> t0 <= ticks[i].check <= ticks[i].now)
    && (forall i :: 0 < i < |ticks| ==> ticks[i - 1].now <= ticks[i].check)
  }

  // The loop as far as the ticks go: its publications and how many passes it completed. The
  // publication after the loop happens at `last`; after a shutdown there is no publisher left to
  // send it. While it runs it never lets a whole period pass without a publication.
  method RunTransition(
    start: Pose, target: Pose, minTransition: real, speedLimit: real, period: real,
    t0: real, ticks: seq<Tick>, last: real)
    returns (log: seq<Publication>, ending: Ending, passes: nat)
    requires Nondecreasing(t0, ticks)
    requires t0 <= last && forall i :: 0 <= i < |ticks| ==> ticks[i].now <= last
    ensures var duration := Duration(start, target, minTransition, speedLimit);
            && AllDue(log, start, target, t0, duration, last)
            && passes <= |ticks|
            && (forall j :: 0 <= j < passes ==>
                  ticks[j].ok && ticks[j].check < t0 + duration && !ticks[j].abort)
            && (period > 0.0 ==> forall j :: 0 <= j < passes ==> KeptUp(log, ticks[j].now, period))
            && match ending
               case StillRunning => passes == |ticks|
               case ShutDown => passes < |ticks| && !ticks[passes].ok
               case Aborted => passes < |ticks| && ticks[passes].abort
               case Completed =>
                 && passes < |ticks| && ticks[passes].check >= t0 + duration
                 && log != [] && log[|log| - 1] == Publication(last, target)
  {
    hide LerpPose, Smooth, Duration, Progress, AllDue, KeptUp;
    log := [];
    NoneDue(start, target, t0, Duration(start, target, minTransition, speedLimit), last);
    var duration := Duration(start, target, minTransition, speedLimit);
    var nextTick := t0;
    var end := t0 + duration;
    passes := 0;
    while passes < |ticks|
      invariant passes <= |ticks|
      invariant AllDue(log, start, target, t0, duration, last)
      invariant log != [] ==> passes > 0 && log[|log| - 1].time <= ticks[passes - 1].now
      invariant log == [] ==> passes == 0 && nextTick == t0
      invariant log != [] ==> nextTick <= log[|log| - 1].time + period
      invariant forall j :: 0 <= j < passes ==>
                  ticks[j].ok && ticks[j].check < end && !ticks[j].abort
      invariant period > 0.0 ==> forall j :: 0 <= j < passes ==> KeptUp(log, ticks[j].now, period)
    {
      var tick := ticks[passes];
      if !tick.ok {
        return log, ShutDown, passes;
      }
      if tick.check >= end {
        TargetIsDue(start, target, t0, duration, last);
        OneMoreDue(log, Publication(last, target), start, target, t0, duration, last);
        KeptUpLater(log, Publication(last, target), ticks, passes, period);
        return log + [Publication(last, target)], Completed, passes;
      }
      if tick.abort {
        return log, Aborted, passes;
      }
      var now := tick.now;
      if now >= nextTick {
        var u := Progress(t0, duration, now);
        var reference := Publication(now, LerpPose(start, target, Smooth(u)));
        OneMoreDue(log, reference, start, target, t0, duration, last);
        KeptUpLater(log, reference, ticks, passes, period);
        log := log + [reference];
        nextTick := nextTick + period;
        if now - nextTick > period {
          nextTick := now + period;
        }
      }
      KeptUpNow(log, now, period);
      passes := passes + 1;
    }
    return log, StillRunning, passes;
  }

  // Every publication carries the reference due at its time, in time order.
  ghost predicate AllDue(
    log: seq<Publication>, start: Pose, target: Pose, t0: real, duration: real, last: real)
  {
    && (forall i :: 0 <= i < |log| ==>
          t0 <= log[i].time <= last
          && log[i].pose == ReferenceAt(start, target, t0, duration, log[i].time))
    && (forall i, j :: 0 <= i <= j < |log| ==> log[i].time <= log[j].time)
  }

  // Less than a period before `now` there was a publication.
  ghost predicate KeptUp(log: seq<Publication>, now: real, period: real) {
    exists i :: 0 <= i < |log| && 0.0 <= now - log[i].time < period
  }

  lemma KeptUpNow(log: seq<Publication>, now: real, period: real)
    requires log != []
    ensures 0.0 <= now - log[|log| - 1].time < period ==> KeptUp(log, now, period)
  {
  }

  lemma NoneDue(start: Pose, target: Pose, t0: real, duration: real, last: real)
    ensures AllDue([], start, target, t0, duration, last)
  {
  }

  lemma OneMoreDue(
    log: seq<Publication>, more: Publication, start: Pose, target: Pose, t0: real, duration: real,
    last: real)
    requires AllDue(log, start, target, t0, duration, last)
    requires t0 <= more.time <= last && more.pose == ReferenceAt(start, target, t0, duration, more.time)
    requires log != [] ==> log[|log| - 1].time <= more.time
    ensures AllDue(log + [more], start, target, t0, duration, last)
  {
    hide ReferenceAt;
  }

  lemma KeptUpLater(
    log: seq<Publication>, more: Publication, ticks: seq<Tick>, n: nat, period: real)
    requires n <= |ticks|
    requires period > 0.0 ==> forall j :: 0 <= j < n ==> KeptUp(log, ticks[j].now, period)
    ensures period > 0.0 ==> forall j :: 0 <= j < n ==> KeptUp(log + [more], ticks[j].now, period)
  {
    if period > 0.0 {
      forall j | 0 <= j < n ensures KeptUp(log + [more], ticks[j].now, period) {
        var i :| 0 <= i < |log| && 0.0 <= ticks[j].now - log[i].time < period;
        assert (log + [more])[i] == log[i];
      }
    }
  }

  lemma TargetIsDue(start: Pose, target: Pose, t0: real, duration: real, now: real)
    requires now >= t0 + duration
    ensures ReferenceAt(start, target, t0, duration, now) == target
  {
    if duration > 0.0 {
      QuotientMonotone(duration, now - t0, duration);
      assert duration / duration == 1.0;
    }
    SmoothEnds(1.0);
    assert forall q :: 0 <= q < NUM_JOINTS ==> Lerp(start[q], target[q], 1.0) == target[q];
  }

  // What is published, and when: the target from the end of the duration on, and before that the
  // point of the curve at the share of the duration that has passed.
  lemma PublishesExactly(
    log: seq<Publication>, start: Pose, target: Pose, t0: real, duration: real, last: real,
    q: nat, i: nat)
    requires AllDue(log, start, target, t0, duration, last) && q < |log| && i < NUM_JOINTS
    ensures t0 <= log[q].time <= last
    ensures if log[q].time >= t0 + duration then log[q].pose[i] == target[i]
            else log[q].pose[i] == Eased(start[i], target[i], (log[q].time - t0) / duration)
  {
    hide Smooth, Lerp, Eased;
    var now := log[q].time;
    assert t0 <= now <= last && log[q].pose == ReferenceAt(start, target, t0, duration, now);
    if now >= t0 + duration {
      TargetIsDue(start, target, t0, duration, now);
    } else {
      QuotientMonotone(0.0, now - t0, duration);
      QuotientMonotone(now - t0, duration, duration);
      assert duration / duration == 1.0;
      LerpIsEased(start[i], target[i], (now - t0) / duration);
    }
  }

  // The duration is the shortest that is no less than the minimum and keeps the peak of the curve
  // within the speed limit, or a millionth of a radian per second if that is more, on every joint.
  lemma DurationIsLeast(
    start: Pose, target: Pose, minTransition: real, speedLimit: real, duration: real)
    ensures
      var peak := if speedLimit > 0.000001 then speedLimit else 0.000001;
      duration >= Duration(start, target, minTransition, speedLimit) <==>
        && duration >= minTransition
        && forall i :: 0 <= i < NUM_JOINTS ==> 1.5 * Abs(target[i] - start[i]) <= duration * peak
  {
    hide MaxDelta, Abs;
    var d, v := MaxDelta(start, target, NUM_JOINTS), PeakSpeed(speedLimit);
    var m := MaxDeltaIsReached(start, target, NUM_JOINTS);
    assert duration * v >= 1.5 * d <==> duration >= 1.5 * d / v by {
      QuotientBound(1.5 * d, v, duration);
    }
  }

  lemma QuotientBound(x: real, v: real, t: real)
    requires v > 0.0
    ensures t >= x / v <==> t * v >= x
  {
    var share := x / v;
    assert share * v == x;
    if t >= share {
      ProductMonotone(share, t, v);
    } else {
      assert (share - t) * v > 0.0;
    }
  }

  lemma {:induction false} MaxDeltaIsReached(start: Pose, target: Pose, n: nat) returns (m: nat)
    requires 0 < n <= NUM_JOINTS
    ensures m < n && Abs(target[m] - start[m]) == MaxDelta(start, target, n)
  {
    m := n - 1;
    if n > 1 && MaxDelta(start, target, n - 1) > Abs(target[m] - start[m]) {
      m := MaxDeltaIsReached(start, target, n - 1);
    }
  }

  // Any two references, however far apart in time, differ per joint by no more than the peak
  // speed allows. With RunTransition's postcondition this covers any two publications, the final
  // one included.
  lemma SpeedIsBounded(
    start: Pose, target: Pose, minTransition: real, speedLimit: real,
    t0: real, s: real, t: real, i: nat)
    requires t0 <= s <= t && i < NUM_JOINTS
    ensures var duration := Duration(start, target, minTransition, speedLimit);
            var x := ReferenceAt(start, target, t0, duration, s)[i];
            var y := ReferenceAt(start, target, t0, duration, t)[i];
            Abs(y - x) <= PeakSpeed(speedLimit) * (t - s)
  {
    hide Smooth, MaxDelta, Progress, Duration, PeakSpeed, Lerp;
    var duration := Duration(start, target, minTransition, speedLimit);
    var u, w := Progress(t0, duration, s), Progress(t0, duration, t);
    var far, v := Abs(target[i] - start[i]), PeakSpeed(speedLimit);
    DurationCovers(start, target, minTransition, speedLimit);
    if duration > 0.0 {
      ProgressRate(t0, duration, s, t);
      LerpMoves(start[i], target[i], u, w);
      Chain(w - u, t - s, duration, far, MaxDelta(start, target, NUM_JOINTS), v);
    } else {
      ProductOfNonNegatives(v, t - s);
      LerpNowhere(start[i], Smooth(u), Smooth(w));
      assert start[i] == target[i];
    }
  }

  lemma LerpNowhere(a: real, s: real, t: real)
    ensures Lerp(a, a, s) == Lerp(a, a, t) == a
  {
  }

  lemma DurationCovers(start: Pose, target: Pose, minTransition: real, speedLimit: real)
    ensures var duration := Duration(start, target, minTransition, speedLimit);
            && 1.5 * MaxDelta(start, target, NUM_JOINTS) <= duration * PeakSpeed(speedLimit)
            && PeakSpeed(speedLimit) > 0.0 && 0.0 <= duration
    ensures Duration(start, target, minTransition, speedLimit) == 0.0 ==>
              MaxDelta(start, target, NUM_JOINTS) == 0.0
  {
    hide MaxDelta;
    var d, v := MaxDelta(start, target, NUM_JOINTS), PeakSpeed(speedLimit);
    var share := 1.5 * d / v;
    QuotientMonotone(0.0, 1.5 * d, v);
    ProductMonotone(share, Duration(start, target, minTransition, speedLimit), v);
  }

  lemma ProgressRate(t0: real, duration: real, s: real, t: real)
    requires t0 <= s <= t && duration > 0.0
    ensures 0.0 <= Progress(t0, duration, t) - Progress(t0, duration, s) <= (t - s) / duration
  {
    QuotientMonotone(s - t0, t - t0, duration);
    QuotientMonotone(0.0, s - t0, duration);
    QuotientMonotone(0.0, t - s, duration);
  }

  // (u/T) * 1.5 * far <= v * t when T covers 1.5 * d / v.
  lemma Chain(u: real, t: real, duration: real, far: real, d: real, v: real)
    requires duration > 0.0 && v > 0.0 && 0.0 <= far <= d && 0.0 <= t && 0.0 <= u <= t / duration
    requires 1.5 * d <= duration * v
    ensures 1.5 * u * far <= v * t
  {
    var q := t / duration;
    assert q * duration == t;
    ProductMonotone(far, d, u);
    ProductMonotone(u, q, d);
    ProductMonotone(1.5 * d, duration * v, q);
    assert duration * v * q == v * (q * duration);
    assert 1.5 * d * q == 1.5 * (q * d);
    assert 1.5 * u * far == 1.5 * (far * u);
  }

  // Any two publications of a transition, the final one included, respect the peak speed.
  lemma PublicationsRespectSpeed(
    log: seq<Publication>, start: Pose, target: Pose, minTransition: real, speedLimit: real,
    t0: real, last: real, p: nat, q: nat, i: nat)
    requires AllDue(log, start, target, t0, Duration(start, target, minTransition, speedLimit), last)
    requires p <= q < |log| && i < NUM_JOINTS
    ensures Abs(log[q].pose[i] - log[p].pose[i]) <= PeakSpeed(speedLimit) * (log[q].time - log[p].time)
  {
    hide ReferenceAt, Duration, PeakSpeed;
    SpeedIsBounded(start, target, minTransition, speedLimit, t0, log[p].time, log[q].time, i);
  }
}
