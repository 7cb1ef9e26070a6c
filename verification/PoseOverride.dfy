/**
 The driver node's service callbacks interleaved with its pose-ramp thread.

 The node spins one executor thread, so callbacks run one at a time; the ramp runs on a thread of
 its own. The two share three atomic flags and the command buffer. Every load and store of these
 is a step of its own here, on both sides, and the steps interleave in any order.
 */
module PoseOverride {
  import opened Outcome
  import opened Poses
  import opened Reals
  import opened Smoothstep
  import DriverRamp

  datatype Config = Config(writesEnabled: bool, holdAfterMove: bool, stepCount: nat)

  // Where the ramp thread stands in runPoseRamp.
  datatype RampPc =
    | LoopTest(step: nat)          // about to test step <= step_count and the stop flag
    | StoreStep(step: nat)
    | ReadAborted
    | StoreGoal
    | AssertOverride               // the aborted branch
    | ClearRunning(aborted: bool)
    | ClearOverride                // only when the pose is not held after the move
    | Done

  datatype Ramp = Ramp(start: Pose, goal: Pose, pc: RampPc)

  // Where each callback stands: the names say what its next statement does.
  datatype TargetPc = TestOverride | StoreTarget

  datatype MovePc =
    | MoveTest(ready: bool) | MoveJoin | MoveStore | MoveClearStop | MoveAssertOverride
    | MoveSetRunning | MoveSpawn

  datatype ReleasePc = ReleaseTestRunning | ReleaseTestOverride | ReleaseClear

  datatype HoldPc =
    | HoldSetStop | HoldJoin | HoldClearRunning | HoldStore | HoldAssertOverride | HoldClearStop

  datatype TorqueOffPc = OffSetStop | OffJoin | OffClearRunning | OffAssertOverride | OffRequest

  datatype TorqueOnPc =
    | OnTest(ready: bool) | OnSetStop | OnJoin | OnClearRunning | OnStore | OnAssertOverride
    | OnClearStop | OnRequest

  datatype AbortPc =
    | AbortReadRunning | AbortReadOverride(wasRunning: bool) | AbortSetStop | AbortJoin | AbortStore
    | AbortClearRunning | AbortAssertOverride

  datatype Call =
    | Idle
    | Target(target: TargetPc, pose: Pose)
    | Move(move: MovePc, measured: Pose, goal: Pose)
    | Release(release: ReleasePc)
    | Hold(hold: HoldPc)
    | TorqueOff(off: TorqueOffPc)
    | TorqueOn(on: TorqueOnPc, measured: Pose)
    | Abort(abort: AbortPc)

  // `threads` are all ramp threads ever started; `handle` is the one pose_thread_ can join.
  // `terminated` records what std::thread does when a joinable handle is overwritten.
  datatype State = State(
    override: bool, running: bool, stop: bool,
    buffer: Option<Pose>, sequence: nat,
    threads: seq<Ramp>, handle: Option<nat>, terminated: bool,
    call: Call, reply: Option<bool>)

  function Initial(): State {
    State(false, false, false, None, 0, [], None, false, Idle, None)
  }

  // Invoke begins a callback; CallStep is its next statement, with what the environment supplies
  // there (fresh feedback, or the outcome of the torque request); RampStep advances a thread.
  datatype Step =
    | Invoke(call: Call)
    | CallStep(feedback: Option<Pose>, torqueOk: bool)
    | RampStep(thread: nat)

  predicate Entry(call: Call) {
    match call
    case Idle => false
    case Target(pc, _) => pc == TestOverride
    case Move(pc, _, _) => pc.MoveTest?
    case Release(pc) => pc == ReleaseTestRunning
    case Hold(pc) => pc == HoldSetStop
    case TorqueOff(pc) => pc == OffSetStop
    case TorqueOn(pc, _) => pc.OnTest?
    case Abort(pc) => pc == AbortReadRunning
  }

  predicate Joining(call: Call) {
    (call.Move? && call.move == MoveJoin) || Stopping(call)
  }

  // The callbacks that stop a ramp, between raising the stop flag and joining.
  predicate Stopping(call: Call) {
    || (call.Hold? && call.hold == HoldJoin)
    || (call.TorqueOff? && call.off == OffJoin)
    || (call.TorqueOn? && call.on == OnJoin)
    || (call.Abort? && call.abort == AbortJoin)
  }

  predicate Finished(s: State, thread: nat) {
    thread < |s.threads| && s.threads[thread].pc == Done
  }

  predicate Live(s: State, thread: nat) {
    thread < |s.threads| && s.threads[thread].pc != Done
  }

  // A join waits for its thread.
  predicate Enabled(s: State, step: Step) {
    match step
    case Invoke(call) => s.call == Idle && Entry(call)
    case CallStep(_, _) =>
      && s.call != Idle
      && (Joining(s.call) && s.handle.Some? ==> Finished(s, s.handle.value))
    case RampStep(thread) => Live(s, thread)
  }

  function Store(s: State, pose: Pose): State {
    s.(buffer := Some(pose), sequence := s.sequence + 1)
  }

  // Whether a step stored w, or left the command buffer alone.
  predicate Wrote(s: State, s': State, w: Option<Pose>) {
    if w.Some? then s'.buffer == w && s'.sequence == s.sequence + 1
    else s'.buffer == s.buffer && s'.sequence == s.sequence
  }

  function Return(s: State, success: bool): State { s.(call := Idle, reply := Some(success)) }

  function Next(c: Config, s: State, step: Step): State
    requires Enabled(s, step)
  {
    match step
    case Invoke(call) => s.(call := call, reply := None)
    case CallStep(feedback, torqueOk) => NextCall(c, s, feedback, torqueOk)
    case RampStep(thread) => NextRamp(c, s, thread)
  }

  function NextRamp(c: Config, s: State, thread: nat): State
    requires thread < |s.threads|
  {
    var r := s.threads[thread];
    match r.pc
    case LoopTest(step) =>
      if step <= c.stepCount && !s.stop then Goto(s, thread, StoreStep(step))
      else Goto(s, thread, ReadAborted)
    case StoreStep(step) =>
      Goto(Store(s, RampPoint(r.start, r.goal, step, c.stepCount)), thread, LoopTest(step + 1))
    case ReadAborted => Goto(s, thread, if s.stop then AssertOverride else StoreGoal)
    case StoreGoal => Goto(Store(s, r.goal), thread, ClearRunning(false))
    case AssertOverride => Goto(s.(override := true), thread, ClearRunning(true))
    case ClearRunning(aborted) =>
      Goto(s.(running := false), thread,
           if !aborted && !c.holdAfterMove then ClearOverride else Done)
    case ClearOverride => Goto(s.(override := false), thread, Done)
    case Done => s
  }

  function Goto(s: State, thread: nat, pc: RampPc): State
    requires thread < |s.threads|
  {
    s.(threads := s.threads[thread := s.threads[thread].(pc := pc)])
  }

  function NextCall(c: Config, s: State, feedback: Option<Pose>, torqueOk: bool): State {
    match s.call
    case Idle => s
    case Target(pc, pose) => NextTarget(s, pc, pose)
    case Move(pc, measured, goal) => NextMove(c, s, pc, measured, goal)
    case Release(pc) => NextRelease(s, pc)
    case Hold(pc) => NextHold(c, s, pc, feedback)
    case TorqueOff(pc) => NextTorqueOff(c, s, pc, torqueOk)
    case TorqueOn(pc, measured) => NextTorqueOn(c, s, pc, measured, torqueOk)
    case Abort(pc) => NextAbort(s, pc, feedback)
  }

  // servoTargetCallback, for a message with twelve finite values.
  function NextTarget(s: State, pc: TargetPc, pose: Pose): (s': State)
    ensures Wrote(s, s', if pc == StoreTarget then Some(pose) else None)
    ensures s'.override == s.override && s'.threads == s.threads
  {
    match pc
    case TestOverride =>
      if s.override then Return(s, false) else s.(call := Target(StoreTarget, pose))
    case StoreTarget => Return(Store(s, pose), true)
  }

  // beginGuardedPoseRamp
  function NextMove(c: Config, s: State, pc: MovePc, measured: Pose, goal: Pose): (s': State)
    ensures Wrote(s, s', if pc == MoveStore then Some(measured) else None)
    ensures s.override ==> s'.override
    ensures pc != MoveSpawn ==> s'.threads == s.threads
  {
    match pc
    case MoveTest(ready) =>
      if !c.writesEnabled || s.running || !ready then Return(s, false)
      else s.(call := Move(MoveJoin, measured, goal))
    case MoveJoin => s.(handle := None, call := Move(MoveStore, measured, goal))
    case MoveStore => Store(s, measured).(call := Move(MoveClearStop, measured, goal))
    case MoveClearStop => s.(stop := false, call := Move(MoveAssertOverride, measured, goal))
    case MoveAssertOverride => s.(override := true, call := Move(MoveSetRunning, measured, goal))
    case MoveSetRunning => s.(running := true, call := Move(MoveSpawn, measured, goal))
    case MoveSpawn =>
      Return(s.(threads := s.threads + [Ramp(measured, goal, LoopTest(1))],
                handle := Some(|s.threads|), terminated := s.terminated || s.handle.Some?), true)
  }

  // releasePoseOverrideCallback
  function NextRelease(s: State, pc: ReleasePc): (s': State)
    ensures Wrote(s, s', None)
    ensures pc != ReleaseClear ==> s'.override == s.override
    ensures s'.threads == s.threads
  {
    match pc
    case ReleaseTestRunning =>
      if s.running then Return(s, false) else s.(call := Release(ReleaseTestOverride))
    case ReleaseTestOverride =>
      if !s.override then Return(s, true) else s.(call := Release(ReleaseClear))
    case ReleaseClear => Return(s.(override := false), true)
  }

  // holdCurrentPoseCallback
  function NextHold(c: Config, s: State, pc: HoldPc, feedback: Option<Pose>): (s': State)
    ensures Wrote(s, s', if pc == HoldStore then feedback else None)
    ensures s.override ==> s'.override
    ensures s'.threads == s.threads
  {
    match pc
    case HoldSetStop =>
      if !c.writesEnabled then Return(s, false) else s.(stop := true, call := Hold(HoldJoin))
    case HoldJoin => s.(handle := None, call := Hold(HoldClearRunning))
    case HoldClearRunning => s.(running := false, call := Hold(HoldStore))
    case HoldStore => StoreIfFresh(s, feedback).(call := Hold(HoldAssertOverride))
    case HoldAssertOverride => s.(override := true, call := Hold(HoldClearStop))
    case HoldClearStop => Return(s.(stop := false), true)
  }

  function StoreIfFresh(s: State, feedback: Option<Pose>): State {
    if feedback.Some? then Store(s, feedback.value) else s
  }

  // disableTorqueAllCallback
  function NextTorqueOff(c: Config, s: State, pc: TorqueOffPc, torqueOk: bool): (s': State)
    ensures Wrote(s, s', None)
    ensures s.override ==> s'.override
    ensures s'.threads == s.threads
  {
    match pc
    case OffSetStop =>
      if !c.writesEnabled then Return(s, false) else s.(stop := true, call := TorqueOff(OffJoin))
    case OffJoin => s.(handle := None, call := TorqueOff(OffClearRunning))
    case OffClearRunning => s.(running := false, call := TorqueOff(OffAssertOverride))
    case OffAssertOverride => s.(override := true, call := TorqueOff(OffRequest))
    case OffRequest => Return(s, torqueOk)
  }

  // enableTorqueHoldCurrentCallback
  function NextTorqueOn(c: Config, s: State, pc: TorqueOnPc, measured: Pose, torqueOk: bool)
    : (s': State)
    ensures Wrote(s, s', if pc == OnStore then Some(measured) else None)
    ensures s.override ==> s'.override
    ensures s'.threads == s.threads
  {
    match pc
    case OnTest(ready) =>
      if !c.writesEnabled || !ready then Return(s, false) else s.(call := TorqueOn(OnSetStop, measured))
    case OnSetStop => s.(stop := true, call := TorqueOn(OnJoin, measured))
    case OnJoin => s.(handle := None, call := TorqueOn(OnClearRunning, measured))
    case OnClearRunning => s.(running := false, call := TorqueOn(OnStore, measured))
    case OnStore => Store(s, measured).(call := TorqueOn(OnAssertOverride, measured))
    case OnAssertOverride => s.(override := true, call := TorqueOn(OnClearStop, measured))
    case OnClearStop => s.(stop := false, call := TorqueOn(OnRequest, measured))
    case OnRequest => Return(s, torqueOk)
  }

  // abortPoseMoveCallback
  function NextAbort(s: State, pc: AbortPc, feedback: Option<Pose>): (s': State)
    ensures Wrote(s, s', if pc == AbortStore then feedback else None)
    ensures s.override ==> s'.override
    ensures s'.threads == s.threads
  {
    match pc
    case AbortReadRunning => s.(call := Abort(AbortReadOverride(s.running)))
    case AbortReadOverride(wasRunning) =>
      if !wasRunning && !s.override then Return(s, false) else s.(call := Abort(AbortSetStop))
    case AbortSetStop => s.(stop := true, call := Abort(AbortJoin))
    case AbortJoin => s.(handle := None, call := Abort(AbortStore))
    case AbortStore => StoreIfFresh(s, feedback).(call := Abort(AbortClearRunning))
    case AbortClearRunning => s.(running := false, call := Abort(AbortAssertOverride))
    case AbortAssertOverride => Return(s.(override := true), true)
  }

  // ------------------------------------------------------------------------------- runs

  // The state after any finite sequence of enabled steps.
  ghost predicate IsRun(c: Config, states: seq<State>, steps: seq<Step>) {
    && |states| == |steps| + 1
    && states[0] == Initial()
    && forall i :: 0 <= i < |steps| ==>
         Enabled(states[i], steps[i]) && states[i + 1] == Next(c, states[i], steps[i])
  }

  // ------------------------------------------------------------------------------- invariant

  // The callback has joined: whatever ramp there was is finished and forgotten.
  predicate Joined(call: Call) {
    match call
    case Move(pc, _, _) => !pc.MoveTest? && pc != MoveJoin
    case Hold(pc) => pc != HoldSetStop && pc != HoldJoin
    case TorqueOff(pc) => pc != OffSetStop && pc != OffJoin
    case TorqueOn(pc, _) => !pc.OnTest? && pc != OnSetStop && pc != OnJoin
    case Abort(pc) => pc == AbortStore || pc == AbortClearRunning || pc == AbortAssertOverride
    case _ => false
  }

  predicate Moving(pc: RampPc) { pc != ClearOverride && pc != Done }

  predicate Aborting(pc: RampPc) { pc == AssertOverride || pc == ClearRunning(true) }

  // What the flags must be where a callback stands.
  predicate InvCall(s: State) {
    match s.call
    case Target(pc, _) => pc == StoreTarget ==> !s.override
    case Move(pc, _, _) =>
      && (!pc.MoveTest? ==> s.running == (pc == MoveSpawn))
      && (pc == MoveAssertOverride || pc == MoveSetRunning || pc == MoveSpawn ==> !s.stop)
      && (pc == MoveSetRunning || pc == MoveSpawn ==> s.override)
    case Release(pc) => pc != ReleaseTestRunning ==> !s.running
    case _ => true
  }

  predicate Spawning(call: Call) { call.Move? && call.move == MoveSpawn }

  // The live ramp, if there is one, is the one the handle can join.
  ghost predicate InvThreads(s: State) {
    && !s.terminated
    && (s.handle.Some? ==> s.handle.value < |s.threads|)
    && (forall t: nat :: Live(s, t) ==> s.handle == Some(t))
  }

  ghost predicate LiveRamp(s: State) { s.handle.Some? && Live(s, s.handle.value) }

  ghost predicate InvRamp(c: Config, s: State)
    requires LiveRamp(s)
  {
    var r := s.threads[s.handle.value];
    && (s.stop ==> Stopping(s.call))
    && (Moving(r.pc) ==> s.running && s.override)
    && (r.pc == ClearOverride ==> !s.running && !c.holdAfterMove)
    && (Aborting(r.pc) ==> Stopping(s.call))
    && (r.pc.StoreStep? ==> 1 <= r.pc.step <= c.stepCount)
    && (r.pc.LoopTest? ==> 1 <= r.pc.step <= c.stepCount + 1)
    && (r.pc == ClearRunning(false) ==> s.buffer == Some(r.goal))
  }

  ghost predicate InvFlags(c: Config, s: State) {
    && InvCall(s)
    && (Joined(s.call) ==> s.handle == None)
    && (s.running ==> s.override)
    && (s.running && !Spawning(s.call) ==> LiveRamp(s) && Moving(s.threads[s.handle.value].pc))
    && (LiveRamp(s) ==> InvRamp(c, s))
  }

  ghost predicate Inv(c: Config, s: State) { InvThreads(s) && InvFlags(c, s) }

  lemma InvInitial(c: Config)
    ensures Inv(c, Initial())
  {
  }

  lemma InvRampStep(c: Config, s: State, thread: nat)
    requires Inv(c, s) && Live(s, thread)
    ensures Inv(c, NextRamp(c, s, thread))
  {
    hide RampPoint;
    var s' := NextRamp(c, s, thread);
    forall t: nat | Live(s', t) ensures s'.handle == Some(t) {
      assert Live(s, t);
    }
  }

  lemma InvReturn(s: State, s': State)
    requires InvThreads(s) && s'.threads == s.threads && s'.terminated == s.terminated
    requires s'.handle == s.handle || (s'.handle == None && !LiveRamp(s))
    ensures InvThreads(s')
  {
    forall t: nat | Live(s', t) ensures s'.handle == Some(t) {
      assert Live(s, t);
    }
  }

  lemma InvMoveStep(c: Config, s: State)
    requires Inv(c, s) && s.call.Move? && Enabled(s, CallStep(None, false))
    ensures Inv(c, NextMove(c, s, s.call.move, s.call.measured, s.call.goal))
  {
    if Spawning(s.call) {
      InvSpawn(c, s);
    } else {
      InvReturn(s, NextMove(c, s, s.call.move, s.call.measured, s.call.goal));
    }
  }

  lemma InvSpawn(c: Config, s: State)
    requires Inv(c, s) && Spawning(s.call)
    ensures Inv(c, NextMove(c, s, s.call.move, s.call.measured, s.call.goal))
  {
    var s' := NextMove(c, s, s.call.move, s.call.measured, s.call.goal);
    forall t: nat | Live(s', t) ensures s'.handle == Some(t) {
      assert t < |s.threads| ==> Live(s, t);
    }
  }

  // What a step of any callback but a move does to handle and flags. A callback that meets a live
  // ramp leaves the flags as they are, but for the stop flag it raises before it joins.
  ghost predicate KeepsFlags(s: State, t: State) {
    && t.threads == s.threads && t.terminated == s.terminated
    && (t.handle == s.handle || (t.handle == None && !LiveRamp(s)))
    && InvCall(t) && (Joined(t.call) ==> t.handle == None)
    && !s.call.Move? && !t.call.Move?
    && (t.running ==> s.running && t.override)
    && (LiveRamp(s) ==>
          && t.running == s.running
          && (t.override == s.override || !s.running)
          && (t.buffer == s.buffer || !s.override)
          && (s.stop ==> t.stop) && (t.stop ==> Stopping(t.call))
          && (Stopping(s.call) ==> Stopping(t.call)))
  }

  lemma FlagsKept(c: Config, s: State, t: State)
    requires Inv(c, s) && KeepsFlags(s, t)
    ensures Inv(c, t)
  {
    InvReturn(s, t);
    assert InvFlags(c, t) by {
      hide InvThreads;
    }
  }

  // What the callbacks need to know about the state they step from.
  ghost predicate Ready(s: State) {
    && InvCall(s) && (Joined(s.call) ==> s.handle == None)
    && (s.running ==> s.override)
    && (LiveRamp(s) ==> s.handle.Some? && (s.stop ==> Stopping(s.call)))
    && (s.running && !Spawning(s.call) ==> LiveRamp(s))
    && (Joining(s.call) && s.handle.Some? ==> !LiveRamp(s))
  }

  lemma EnabledIsReady(c: Config, s: State, feedback: Option<Pose>, torqueOk: bool)
    requires Inv(c, s) && Enabled(s, CallStep(feedback, torqueOk))
    ensures Ready(s)
  {
  }

  lemma TargetKeeps(s: State)
    requires s.call.Target? && Ready(s)
    ensures KeepsFlags(s, NextTarget(s, s.call.target, s.call.pose))
  {
    hide LiveRamp;
  }

  lemma ReleaseKeeps(s: State)
    requires s.call.Release? && Ready(s)
    ensures KeepsFlags(s, NextRelease(s, s.call.release))
  {
    hide LiveRamp;
  }

  lemma HoldKeeps(c: Config, s: State, feedback: Option<Pose>)
    requires s.call.Hold? && Ready(s)
    ensures KeepsFlags(s, NextHold(c, s, s.call.hold, feedback))
  {
    hide LiveRamp;
  }

  lemma TorqueOffKeeps(c: Config, s: State, torqueOk: bool)
    requires s.call.TorqueOff? && Ready(s)
    ensures KeepsFlags(s, NextTorqueOff(c, s, s.call.off, torqueOk))
  {
    hide LiveRamp;
  }

  lemma TorqueOnKeeps(c: Config, s: State, torqueOk: bool)
    requires s.call.TorqueOn? && Ready(s)
    ensures KeepsFlags(s, NextTorqueOn(c, s, s.call.on, s.call.measured, torqueOk))
  {
    hide LiveRamp;
  }

  lemma AbortKeeps(s: State, feedback: Option<Pose>)
    requires s.call.Abort? && Ready(s)
    ensures KeepsFlags(s, NextAbort(s, s.call.abort, feedback))
  {
    hide LiveRamp;
  }

  lemma OtherStepKeeps(c: Config, s: State, feedback: Option<Pose>, torqueOk: bool)
    requires Inv(c, s) && Enabled(s, CallStep(feedback, torqueOk)) && !s.call.Move?
    ensures KeepsFlags(s, NextCall(c, s, feedback, torqueOk))
  {
    hide Inv, Ready, KeepsFlags, NextTarget, NextRelease, NextHold, NextTorqueOff, NextTorqueOn, NextAbort;
    EnabledIsReady(c, s, feedback, torqueOk);
    match s.call
    case Target(_, _) => TargetKeeps(s);
    case Release(_) => ReleaseKeeps(s);
    case Hold(_) => HoldKeeps(c, s, feedback);
    case TorqueOff(_) => TorqueOffKeeps(c, s, torqueOk);
    case TorqueOn(_, _) => TorqueOnKeeps(c, s, torqueOk);
    case Abort(_) => AbortKeeps(s, feedback);
  }

  lemma InvStep(c: Config, s: State, step: Step)
    requires Inv(c, s) && Enabled(s, step)
    ensures Inv(c, Next(c, s, step))
  {
    hide NextMove, NextRamp, NextTarget, NextRelease, NextHold, NextTorqueOff, NextTorqueOn, NextAbort;
    match step
    case Invoke(call) => InvReturn(s, Next(c, s, step));
    case RampStep(thread) => InvRampStep(c, s, thread);
    case CallStep(feedback, torqueOk) =>
      if s.call.Move? {
        InvMoveStep(c, s);
      } else {
        OtherStepKeeps(c, s, feedback, torqueOk);
        FlagsKept(c, s, NextCall(c, s, feedback, torqueOk));
      }
  }

  lemma {:induction false} InvRun(c: Config, states: seq<State>, steps: seq<Step>, i: nat)
    requires IsRun(c, states, steps) && i < |states|
    ensures Inv(c, states[i])
  {
    if i == 0 {
      InvInitial(c);
    } else {
      InvRun(c, states, steps, i - 1);
      InvStep(c, states[i - 1], steps[i - 1]);
    }
  }

  // ------------------------------------------------------------------------------- theorems

  // In every interleaving at most one ramp thread is alive, std::thread never terminates the
  // process, and a running move always has the override.
  lemma AtMostOneRamp(c: Config, states: seq<State>, steps: seq<Step>, i: nat, t: nat, u: nat)
    requires IsRun(c, states, steps) && i < |states|
    ensures Live(states[i], t) && Live(states[i], u) ==> t == u
    ensures !states[i].terminated
    ensures states[i].running ==> states[i].override
    ensures states[i].running && !Spawning(states[i].call) ==> LiveRamp(states[i])
  {
    InvRun(c, states, steps, i);
  }

  predicate ExternalWrite(s: State, step: Step) {
    step.CallStep? && s.call.Target? && s.call.target == StoreTarget
  }

  predicate Releases(s: State, step: Step) { step.CallStep? && s.call == Release(ReleaseClear) }

  predicate Spawns(s: State, step: Step) { step.CallStep? && Spawning(s.call) }

  // The values a step may put in the command buffer under the override.
  predicate OwnWrite(c: Config, s: State, step: Step, pose: Pose) {
    match step
    case Invoke(_) => false
    case RampStep(t) =>
      Live(s, t) &&
      var r := s.threads[t];
      || (r.pc == StoreGoal && pose == r.goal)
      || (r.pc.StoreStep? && 1 <= r.pc.step <= c.stepCount
          && pose == RampPoint(r.start, r.goal, r.pc.step, c.stepCount))
    case CallStep(feedback, _) =>
      || (s.call.Move? && s.call.move == MoveStore && pose == s.call.measured)
      || (s.call.TorqueOn? && s.call.on == OnStore && pose == s.call.measured)
      || (s.call == Hold(HoldStore) && feedback == Some(pose))
      || (s.call == Abort(AbortStore) && feedback == Some(pose))
  }

  lemma RampWrite(c: Config, s: State, thread: nat)
    requires Inv(c, s) && Live(s, thread)
    ensures var s' := NextRamp(c, s, thread);
            s'.buffer != s.buffer || s'.sequence != s.sequence ==>
              && s'.buffer.Some? && s'.sequence == s.sequence + 1
              && OwnWrite(c, s, RampStep(thread), s'.buffer.value)
  {
    hide RampPoint, InvThreads;
    LiveIsHandle(s, thread);
  }

  lemma CallWrite(c: Config, s: State, feedback: Option<Pose>, torqueOk: bool)
    ensures var s' := NextCall(c, s, feedback, torqueOk);
            var step := CallStep(feedback, torqueOk);
            s'.buffer != s.buffer || s'.sequence != s.sequence ==>
              && s'.buffer.Some? && s'.sequence == s.sequence + 1
              && (ExternalWrite(s, step) || OwnWrite(c, s, step, s'.buffer.value))
  {
    hide NextTarget, NextMove, NextRelease, NextHold, NextTorqueOff, NextTorqueOn, NextAbort;
  }

  lemma LiveIsHandle(s: State, t: nat)
    requires InvThreads(s) && Live(s, t)
    ensures s.handle == Some(t)
  {
  }

  // External targets reach the buffer only while the override is off. Under the override the
  // buffer changes only to a measured pose or to a point of the ramp.
  lemma OverrideBlocksTargets(c: Config, states: seq<State>, steps: seq<Step>, i: nat)
    requires IsRun(c, states, steps) && i < |steps|
    ensures ExternalWrite(states[i], steps[i]) ==> !states[i].override
    ensures states[i + 1].buffer != states[i].buffer || states[i + 1].sequence != states[i].sequence ==>
              && states[i + 1].buffer.Some? && states[i + 1].sequence == states[i].sequence + 1
              && (states[i].override ==> OwnWrite(c, states[i], steps[i], states[i + 1].buffer.value))
  {
    hide NextCall, NextRamp, OwnWrite;
    InvRun(c, states, steps, i);
    match steps[i]
    case Invoke(_) =>
    case CallStep(feedback, torqueOk) => CallWrite(c, states[i], feedback, torqueOk);
    case RampStep(thread) => RampWrite(c, states[i], thread);
  }

  // The override, once on, goes off only by a release, or by a finished ramp when the node was
  // configured not to hold after a move.
  lemma OverrideGoesOff(c: Config, s: State, step: Step)
    requires Inv(c, s) && Enabled(s, step)
    requires s.override && !Next(c, s, step).override
    ensures Releases(s, step) || (!c.holdAfterMove && step.RampStep?)
  {
    hide NextMove, NextTarget, NextRelease, NextHold, NextTorqueOff, NextTorqueOn, NextAbort, InvThreads,
         InvCall, RampPoint;
    if step.RampStep? {
      LiveIsHandle(s, step.thread);
    }
  }

  lemma {:induction false} HeldUntilReleased(
    c: Config, states: seq<State>, steps: seq<Step>, i: nat, j: nat)
    requires IsRun(c, states, steps) && i <= j < |states|
    requires c.holdAfterMove && states[i].override
    requires forall k :: i <= k < j ==> !Releases(states[k], steps[k])
    ensures states[j].override
  {
    hide Next, Releases;
    if i < j {
      HeldUntilReleased(c, states, steps, i, j - 1);
      InvRun(c, states, steps, j - 1);
      if !states[j].override {
        OverrideGoesOff(c, states[j - 1], steps[j - 1]);
      }
    }
  }

  // The step at which hold, abort or a torque service asserts the override, having joined.
  predicate Asserts(s: State, step: Step) {
    step.CallStep?
    && (|| s.call == Hold(HoldAssertOverride)
        || s.call == TorqueOff(OffAssertOverride)
        || (s.call.TorqueOn? && s.call.on == OnAssertOverride)
        || s.call == Abort(AbortAssertOverride))
  }

  ghost predicate Latched(s: State) { s.override && forall t: nat :: !Live(s, t) }

  lemma LatchedStep(c: Config, s: State, step: Step)
    requires Inv(c, s) && Enabled(s, step) && Latched(s)
    requires !Releases(s, step) && !Spawns(s, step)
    ensures Latched(Next(c, s, step)) && !step.RampStep? && !ExternalWrite(s, step)
  {
    hide NextMove, NextTarget, NextRelease, NextHold, NextTorqueOff, NextTorqueOn, NextAbort, InvThreads,
         InvRamp;
    var s' := Next(c, s, step);
    assert s'.threads == s.threads;
    forall t: nat ensures !Live(s', t) {
      assert !Live(s, t);
    }
  }

  lemma AssertsLatches(c: Config, s: State, step: Step)
    requires Inv(c, s) && Enabled(s, step) && Asserts(s, step)
    ensures Latched(Next(c, s, step))
  {
    var s' := Next(c, s, step);
    assert s'.threads == s.threads && Joined(s.call);
    forall t: nat ensures !Live(s', t) {
      assert !Live(s, t);
    }
  }

  // Once hold, abort or a torque service has asserted the override, then until a release or a new
  // move no ramp thread takes any step at all, no external target is stored, and the override
  // stays on, whatever else is called.
  lemma {:induction false} AssertedOverrideSticks(
    c: Config, states: seq<State>, steps: seq<Step>, i: nat, j: nat)
    requires IsRun(c, states, steps) && i < j < |states|
    requires Asserts(states[i], steps[i])
    requires forall k :: i < k < j ==> !Releases(states[k], steps[k]) && !Spawns(states[k], steps[k])
    ensures Latched(states[j])
    ensures forall k :: i < k < j ==> !steps[k].RampStep? && !ExternalWrite(states[k], steps[k])
  {
    hide Latched, Asserts, Releases, Spawns, ExternalWrite;
    if j == i + 1 {
      InvRun(c, states, steps, i);
      AssertsLatches(c, states[i], steps[i]);
    } else {
      AssertedOverrideSticks(c, states, steps, i, j - 1);
      InvRun(c, states, steps, j - 1);
      LatchedStep(c, states[j - 1], steps[j - 1]);
    }
  }

  // ------------------------------------------------------------------------------- services

  // Once a callback has joined, nothing interleaves with it until it returns or spawns a ramp.
  lemma JoinedRunsAlone(c: Config, states: seq<State>, steps: seq<Step>, k: nat)
    requires IsRun(c, states, steps) && k < |steps| && Joined(states[k].call)
    ensures steps[k].CallStep?
    ensures states[k + 1] == NextCall(c, states[k], steps[k].feedback, steps[k].torqueOk)
  {
    hide NextCall, NextRamp, InvRamp, InvCall;
    InvRun(c, states, steps, k);
  }

  lemma JoinStep(c: Config, states: seq<State>, steps: seq<Step>, k: nat)
    requires IsRun(c, states, steps) && k < |steps| && Joining(states[k].call) && steps[k].CallStep?
    ensures states[k + 1] == NextCall(c, states[k], steps[k].feedback, steps[k].torqueOk)
    ensures forall t: nat :: !Live(states[k], t)
  {
    hide NextCall, NextRamp, InvRamp, InvCall;
    InvRun(c, states, steps, k);
  }

  // A hold that has joined returns true with the override on, every flag of the ramp down, no ramp
  // alive, and the measured pose in the buffer if the feedback was fresh.
  lemma HoldCompletes(c: Config, states: seq<State>, steps: seq<Step>, k: nat)
    requires IsRun(c, states, steps) && k + 5 <= |steps|
    requires states[k].call == Hold(HoldJoin) && steps[k].CallStep?
    ensures steps[k + 2].CallStep?
    ensures var t, measured := states[k + 5], steps[k + 2].feedback;
            && t.call == Idle && t.reply == Some(true)
            && t.override && !t.running && !t.stop && t.threads == states[k].threads && Latched(t)
            && t.buffer == if measured.Some? then measured else states[k].buffer
  {
    hide NextTarget, NextMove, NextRelease, NextTorqueOff, NextTorqueOn, NextAbort,
         NextRamp, Enabled, Next, Live;
    JoinStep(c, states, steps, k);
    JoinedRunsAlone(c, states, steps, k + 1);
    JoinedRunsAlone(c, states, steps, k + 2);
    JoinedRunsAlone(c, states, steps, k + 3);
    JoinedRunsAlone(c, states, steps, k + 4);
    SameThreads(states[k], states[k + 5]);
  }

  lemma SameThreads(s: State, t: State)
    requires t.threads == s.threads && forall u: nat :: !Live(s, u)
    ensures forall u: nat :: !Live(t, u)
  {
    forall u: nat ensures !Live(t, u) {
      assert !Live(s, u);
    }
  }

  // Torque goes off with the override on and no ramp alive; the reply is the bus's own.
  lemma TorqueOffCompletes(c: Config, states: seq<State>, steps: seq<Step>, k: nat)
    requires IsRun(c, states, steps) && k + 4 <= |steps|
    requires states[k].call == TorqueOff(OffJoin) && steps[k].CallStep?
    ensures states[k + 3].call == TorqueOff(OffRequest) && steps[k + 3].CallStep?
    ensures Latched(states[k + 3]) && !states[k + 3].running
    ensures states[k + 4] == Return(states[k + 3], steps[k + 3].torqueOk)
    ensures states[k + 4].buffer == states[k].buffer
  {
    hide NextTarget, NextMove, NextRelease, NextHold, NextTorqueOn, NextAbort,
         NextRamp, Enabled, Next, Live;
    JoinStep(c, states, steps, k);
    JoinedRunsAlone(c, states, steps, k + 1);
    JoinedRunsAlone(c, states, steps, k + 2);
    JoinedRunsAlone(c, states, steps, k + 3);
    SameThreads(states[k], states[k + 3]);
  }

  lemma TorqueOnStores(c: Config, states: seq<State>, steps: seq<Step>, k: nat)
    requires IsRun(c, states, steps) && k + 3 <= |steps|
    requires states[k].call.TorqueOn? && states[k].call.on == OnJoin && steps[k].CallStep?
    ensures var s, pose := states[k], states[k].call.measured;
            states[k + 3] == s.(handle := None, running := false, buffer := Some(pose),
                                sequence := s.sequence + 1, call := TorqueOn(OnAssertOverride, pose))
  {
    hide NextTarget, NextMove, NextRelease, NextHold, NextTorqueOff, NextAbort,
         NextRamp, Enabled, Next, Live;
    JoinStep(c, states, steps, k);
    JoinedRunsAlone(c, states, steps, k + 1);
    JoinedRunsAlone(c, states, steps, k + 2);
  }

  // Torque comes on only with the measured pose in the buffer, the override on, no ramp alive and
  // the stop flag down again.
  lemma TorqueOnCompletes(c: Config, states: seq<State>, steps: seq<Step>, k: nat)
    requires IsRun(c, states, steps) && k + 6 <= |steps|
    requires states[k].call.TorqueOn? && states[k].call.on == OnJoin && steps[k].CallStep?
    ensures var pose := states[k].call.measured;
            && states[k + 5].call == TorqueOn(OnRequest, pose) && steps[k + 5].CallStep?
            && states[k + 5].buffer == Some(pose) && Latched(states[k + 5])
            && !states[k + 5].running && !states[k + 5].stop
    ensures states[k + 6] == Return(states[k + 5], steps[k + 5].torqueOk)
  {
    hide NextTarget, NextMove, NextRelease, NextHold, NextTorqueOff, NextAbort,
         NextRamp, Enabled, Next, Live;
    JoinStep(c, states, steps, k);
    TorqueOnStores(c, states, steps, k);
    JoinedRunsAlone(c, states, steps, k + 3);
    JoinedRunsAlone(c, states, steps, k + 4);
    JoinedRunsAlone(c, states, steps, k + 5);
    SameThreads(states[k], states[k + 5]);
  }

  // An abort that has joined returns true with the override on, no ramp alive, and the measured
  // pose in the buffer if the feedback was fresh.
  lemma AbortCompletes(c: Config, states: seq<State>, steps: seq<Step>, k: nat)
    requires IsRun(c, states, steps) && k + 4 <= |steps|
    requires states[k].call == Abort(AbortJoin) && steps[k].CallStep?
    ensures steps[k + 1].CallStep?
    ensures var t, measured := states[k + 4], steps[k + 1].feedback;
            && t.call == Idle && t.reply == Some(true)
            && t.override && !t.running && t.threads == states[k].threads && Latched(t)
            && t.buffer == if measured.Some? then measured else states[k].buffer
  {
    hide NextTarget, NextMove, NextRelease, NextHold, NextTorqueOff, NextTorqueOn,
         NextRamp, Enabled, Next, Live;
    JoinStep(c, states, steps, k);
    JoinedRunsAlone(c, states, steps, k + 1);
    JoinedRunsAlone(c, states, steps, k + 2);
    JoinedRunsAlone(c, states, steps, k + 3);
    SameThreads(states[k], states[k + 4]);
  }

  // A move that has joined returns true having stored the measured pose, taken the override and
  // started exactly one ramp from there to its goal, at its first step.
  lemma MoveCompletes(c: Config, states: seq<State>, steps: seq<Step>, k: nat)
    requires IsRun(c, states, steps) && k + 6 <= |steps|
    requires states[k].call.Move? && states[k].call.move == MoveJoin && steps[k].CallStep?
    ensures var t, m := states[k + 6], states[k].call;
            && t.call == Idle && t.reply == Some(true)
            && t.override && t.running && !t.stop && t.buffer == Some(m.measured)
            && t.threads == states[k].threads + [Ramp(m.measured, m.goal, LoopTest(1))]
            && t.handle == Some(|states[k].threads|)
  {
    hide NextTarget, NextRelease, NextHold, NextTorqueOff, NextTorqueOn, NextAbort,
         NextRamp, Enabled, Next, Live;
    JoinStep(c, states, steps, k);
    JoinedRunsAlone(c, states, steps, k + 1);
    JoinedRunsAlone(c, states, steps, k + 2);
    JoinedRunsAlone(c, states, steps, k + 3);
    JoinedRunsAlone(c, states, steps, k + 4);
    JoinedRunsAlone(c, states, steps, k + 5);
  }

  // Which calls are refused at their first test, with nothing changed but the reply.
  predicate RefusedAtOnce(c: Config, s: State) {
    match s.call
    case Target(TestOverride, _) => s.override
    case Move(MoveTest(ready), _, _) => !c.writesEnabled || s.running || !ready
    case Release(ReleaseTestRunning) => s.running
    case Hold(HoldSetStop) => !c.writesEnabled
    case TorqueOff(OffSetStop) => !c.writesEnabled
    case TorqueOn(OnTest(ready), _) => !c.writesEnabled || !ready
    case Abort(AbortReadOverride(wasRunning)) => !wasRunning && !s.override
    case _ => false
  }

  lemma RefusedExactly(c: Config, s: State, feedback: Option<Pose>, torqueOk: bool)
    requires s.call != Idle && !Joined(s.call)
    ensures var t := NextCall(c, s, feedback, torqueOk);
            && (RefusedAtOnce(c, s) ==> t == s.(call := Idle, reply := Some(false)))
            && (!RefusedAtOnce(c, s) && t.call == Idle ==>
                  t.reply == Some(true) && (s.call.Target? || s.call.Release?))
  {
  }

  // A release that is granted leaves the override off, and a target that is accepted its pose in
  // the buffer.
  lemma GrantedAtOnce(c: Config, s: State, feedback: Option<Pose>, torqueOk: bool)
    requires s.call.Release? || s.call.Target?
    ensures var t := NextCall(c, s, feedback, torqueOk);
            t.call == Idle && t.reply == Some(true) ==>
              && (s.call.Release? ==> !t.override)
              && (s.call.Target? ==> t.buffer == Some(s.call.pose) && t.sequence == s.sequence + 1)
  {
  }

  // A release never takes the override from under a moving ramp.
  lemma ReleaseNeverCutsARampShort(c: Config, states: seq<State>, steps: seq<Step>, i: nat, t: nat)
    requires IsRun(c, states, steps) && i < |steps|
    requires Releases(states[i], steps[i]) && Live(states[i], t)
    ensures states[i].threads[t].pc == ClearOverride && !c.holdAfterMove
  {
    InvRun(c, states, steps, i);
  }

  // A ramp that ends by itself leaves exactly its goal in the buffer.
  lemma CompletedRampReachesGoal(c: Config, states: seq<State>, steps: seq<Step>, i: nat, t: nat)
    requires IsRun(c, states, steps) && i < |states|
    requires Live(states[i], t) && states[i].threads[t].pc == ClearRunning(false)
    ensures states[i].buffer == Some(states[i].threads[t].goal)
  {
    InvRun(c, states, steps, i);
  }

  // Joins return: every ramp step brings its thread nearer its end.
  function Remaining(c: Config, r: Ramp): int {
    match r.pc
    case LoopTest(step) => 2 * (c.stepCount + 1 - step) + 6
    case StoreStep(step) => 2 * (c.stepCount + 1 - step) + 5
    case ReadAborted => 5
    case StoreGoal => 4
    case AssertOverride => 4
    case ClearRunning(_) => 3
    case ClearOverride => 2
    case Done => 0
  }

  lemma RampAdvances(c: Config, states: seq<State>, steps: seq<Step>, i: nat)
    requires IsRun(c, states, steps) && i < |steps| && steps[i].RampStep?
    ensures var t := steps[i].thread;
            && t < |states[i].threads| && t < |states[i + 1].threads|
            && 0 <= Remaining(c, states[i + 1].threads[t]) < Remaining(c, states[i].threads[t])
  {
    hide NextRamp, Inv, Remaining;
    InvRun(c, states, steps, i);
    ThreadAdvances(c, states[i], steps[i].thread);
  }

  lemma ThreadAdvances(c: Config, s: State, t: nat)
    requires Inv(c, s) && Live(s, t)
    ensures t < |NextRamp(c, s, t).threads|
    ensures 0 <= Remaining(c, NextRamp(c, s, t).threads[t]) < Remaining(c, s.threads[t])
  {
    hide RampPoint, InvThreads;
    LiveIsHandle(s, t);
  }

  // Every step of a callback brings it nearer its return.
  function StepsLeft(call: Call): nat {
    match call
    case Idle => 0
    case Target(pc, _) => if pc == TestOverride then 2 else 1
    case Move(pc, _, _) =>
      (match pc
       case MoveTest(_) => 7 case MoveJoin => 6 case MoveStore => 5 case MoveClearStop => 4
       case MoveAssertOverride => 3 case MoveSetRunning => 2 case MoveSpawn => 1)
    case Release(pc) => if pc == ReleaseTestRunning then 3 else if pc == ReleaseTestOverride then 2 else 1
    case Hold(pc) =>
      (match pc
       case HoldSetStop => 6 case HoldJoin => 5 case HoldClearRunning => 4 case HoldStore => 3
       case HoldAssertOverride => 2 case HoldClearStop => 1)
    case TorqueOff(pc) =>
      (match pc
       case OffSetStop => 5 case OffJoin => 4 case OffClearRunning => 3 case OffAssertOverride => 2
       case OffRequest => 1)
    case TorqueOn(pc, _) =>
      (match pc
       case OnTest(_) => 8 case OnSetStop => 7 case OnJoin => 6 case OnClearRunning => 5
       case OnStore => 4 case OnAssertOverride => 3 case OnClearStop => 2 case OnRequest => 1)
    case Abort(pc) =>
      (match pc
       case AbortReadRunning => 7 case AbortReadOverride(_) => 6 case AbortSetStop => 5
       case AbortJoin => 4 case AbortStore => 3 case AbortClearRunning => 2 case AbortAssertOverride => 1)
  }

  // No deadlock: a callback can step, and its step brings it nearer its return, or it waits in a
  // join for a ramp thread that can.
  lemma CallbacksReturn(c: Config, states: seq<State>, steps: seq<Step>, i: nat, next: Step)
    requires IsRun(c, states, steps) && i < |states| && states[i].call != Idle && next.CallStep?
    ensures Enabled(states[i], next) || (exists t: nat :: Enabled(states[i], RampStep(t)))
    ensures Enabled(states[i], next) ==> StepsLeft(Next(c, states[i], next).call) < StepsLeft(states[i].call)
  {
    var s := states[i];
    InvRun(c, states, steps, i);
    if Enabled(s, next) {
      CallAdvances(c, s, next.feedback, next.torqueOk);
    } else {
      assert Enabled(s, RampStep(s.handle.value));
    }
  }

  // The callback went on or returned; and if it is about to join, the stop flag is up.
  predicate Advances(s: State, t: State) {
    StepsLeft(t.call) < StepsLeft(s.call) && (Stopping(t.call) ==> t.stop)
  }

  lemma TargetAdvances(s: State)
    requires s.call.Target?
    ensures Advances(s, NextTarget(s, s.call.target, s.call.pose))
  {
  }

  lemma MoveAdvances(c: Config, s: State)
    requires s.call.Move?
    ensures Advances(s, NextMove(c, s, s.call.move, s.call.measured, s.call.goal))
  {
  }

  lemma ReleaseAdvances(s: State)
    requires s.call.Release?
    ensures Advances(s, NextRelease(s, s.call.release))
  {
  }

  lemma HoldAdvances(c: Config, s: State, feedback: Option<Pose>)
    requires s.call.Hold?
    ensures Advances(s, NextHold(c, s, s.call.hold, feedback))
  {
  }

  lemma TorqueOffAdvances(c: Config, s: State, torqueOk: bool)
    requires s.call.TorqueOff?
    ensures Advances(s, NextTorqueOff(c, s, s.call.off, torqueOk))
  {
  }

  lemma TorqueOnAdvances(c: Config, s: State, torqueOk: bool)
    requires s.call.TorqueOn?
    ensures Advances(s, NextTorqueOn(c, s, s.call.on, s.call.measured, torqueOk))
  {
  }

  lemma AbortAdvances(s: State, feedback: Option<Pose>)
    requires s.call.Abort?
    ensures Advances(s, NextAbort(s, s.call.abort, feedback))
  {
  }

  lemma CallAdvances(c: Config, s: State, feedback: Option<Pose>, torqueOk: bool)
    requires s.call != Idle
    ensures Advances(s, NextCall(c, s, feedback, torqueOk))
  {
    hide Advances, NextTarget, NextMove, NextRelease, NextHold, NextTorqueOff, NextTorqueOn, NextAbort;
    match s.call
    case Target(_, _) => TargetAdvances(s);
    case Move(_, _, _) => MoveAdvances(c, s);
    case Release(_) => ReleaseAdvances(s);
    case Hold(_) => HoldAdvances(c, s, feedback);
    case TorqueOff(_) => TorqueOffAdvances(c, s, torqueOk);
    case TorqueOn(_, _) => TorqueOnAdvances(c, s, torqueOk);
    case Abort(_) => AbortAdvances(s, feedback);
  }

  // ------------------------------------------------------------------------------- stopping

  // What a callback raises before it joins stays raised until it has joined.
  lemma {:induction false} StopIsRaised(c: Config, states: seq<State>, steps: seq<Step>, n: nat)
    requires IsRun(c, states, steps) && n < |states|
    ensures Stopping(states[n].call) ==> states[n].stop
  {
    hide NextCall, NextRamp;
    if n > 0 {
      StopIsRaised(c, states, steps, n - 1);
      StopStays(c, states[n - 1], steps[n - 1]);
    }
  }

  lemma StopStays(c: Config, s: State, step: Step)
    requires Enabled(s, step) && (Stopping(s.call) ==> s.stop)
    ensures var t := Next(c, s, step); Stopping(t.call) ==> t.stop
  {
    hide RampPoint, NextCall;
    if step.CallStep? {
      CallAdvances(c, s, step.feedback, step.torqueOk);
    }
  }

  predicate RampStores(states: seq<State>, steps: seq<Step>, k: nat)
    requires k < |steps| < |states|
  {
    steps[k].RampStep? && states[k + 1].sequence != states[k].sequence
  }

  // The ramp has nothing more to store if it meets the stop flag.
  ghost predicate Spent(s: State) {
    s.stop && forall t: nat :: Live(s, t) ==> !s.threads[t].pc.StoreStep? && s.threads[t].pc != StoreGoal
  }

  lemma SpentStep(c: Config, s: State, step: Step)
    requires Inv(c, s) && Enabled(s, step) && Spent(s) && Stopping(s.call)
    ensures var t := Next(c, s, step);
            && (step.RampStep? ==> t.sequence == s.sequence)
            && (Stopping(t.call) ==> Spent(t))
  {
    hide RampPoint, InvFlags;
    var t := Next(c, s, step);
    forall u: nat | Live(t, u) ensures Live(s, u) {
    }
  }

  lemma StoringSpends(c: Config, s: State, thread: nat)
    requires Inv(c, s) && Live(s, thread) && s.stop
    ensures var t := NextRamp(c, s, thread);
            t.sequence != s.sequence ==> Spent(t)
  {
    hide RampPoint, InvFlags;
    var t := NextRamp(c, s, thread);
    LiveIsHandle(s, thread);
    forall u: nat | Live(t, u) ensures u == thread {
      assert Live(s, u);
    }
  }

  // While hold, abort or a torque service waits to join, the ramp stores at most one more target:
  // the one it was about to store when the stop flag was raised.
  lemma {:induction false} StopCutsTheRamp(
    c: Config, states: seq<State>, steps: seq<Step>, k: nat, n: nat)
    requires IsRun(c, states, steps) && k < n <= |steps|
    requires forall m :: k <= m <= n ==> Stopping(states[m].call)
    requires RampStores(states, steps, k)
    ensures Spent(states[n])
    ensures forall m :: k < m < n ==> !RampStores(states, steps, m)
  {
    hide NextCall, NextRamp, Spent, Inv;
    if n == k + 1 {
      InvRun(c, states, steps, k);
      StopIsRaised(c, states, steps, k);
      StoringSpends(c, states[k], steps[k].thread);
    } else {
      StopCutsTheRamp(c, states, steps, k, n - 1);
      InvRun(c, states, steps, n - 1);
      SpentStep(c, states[n - 1], steps[n - 1]);
    }
  }

  // Until a move, a hold, an abort or a torque service is called there is no override, no ramp and
  // no flag raised; and before any call nothing has been stored.
  lemma {:induction false} StartsClear(c: Config, states: seq<State>, steps: seq<Step>, n: nat)
    requires IsRun(c, states, steps) && n < |states|
    requires forall m :: 0 <= m < n && steps[m].Invoke? ==> steps[m].call.Target? || steps[m].call.Release?
    ensures var s := states[n];
            && !s.override && !s.running && !s.stop && s.threads == [] && s.handle == None
            && (s.call == Idle || s.call.Target? || s.call.Release?)
            && (n == 0 ==> s.buffer == None && s.sequence == 0 && s.call == Idle)
  {
    hide NextMove, NextHold, NextTorqueOff, NextTorqueOn, NextAbort;
    if n > 0 {
      StartsClear(c, states, steps, n - 1);
    }
  }

  // ------------------------------------------------------------------------------- continuity

  // Where the buffer stands before ramp step k is stored.
  function PointBefore(c: Config, r: Ramp, k: int): Pose {
    if 1 < k <= c.stepCount + 1 then RampPoint(r.start, r.goal, k - 1, c.stepCount) else r.start
  }

  // The buffer holds what the ramp stored last; a ramp about to be started, its start.
  ghost predicate InvPath(c: Config, s: State) {
    && (s.call.Move? && Joined(s.call) && s.call.move != MoveStore ==> s.buffer == Some(s.call.measured))
    && (LiveRamp(s) ==>
          var r := s.threads[s.handle.value];
          match r.pc
          case LoopTest(k) => s.buffer == Some(PointBefore(c, r, k))
          case StoreStep(k) => s.buffer == Some(PointBefore(c, r, k))
          case ReadAborted => s.stop || s.buffer == Some(PointBefore(c, r, c.stepCount + 1))
          case StoreGoal => s.buffer == Some(PointBefore(c, r, c.stepCount + 1))
          case _ => true)
  }

  lemma PathRampStep(c: Config, s: State, thread: nat)
    requires Inv(c, s) && InvPath(c, s) && Live(s, thread)
    ensures InvPath(c, NextRamp(c, s, thread))
  {
    hide RampPoint, InvThreads;
    LiveIsHandle(s, thread);
  }

  lemma PathLeft(c: Config, s: State, t: State)
    requires Inv(c, s) && InvPath(c, s) && KeepsFlags(s, t)
    ensures InvPath(c, t)
  {
    hide RampPoint, InvThreads, PointBefore;
  }

  lemma PathMoveStep(c: Config, s: State)
    requires Inv(c, s) && InvPath(c, s) && s.call.Move? && Enabled(s, CallStep(None, false))
    ensures InvPath(c, NextMove(c, s, s.call.move, s.call.measured, s.call.goal))
  {
    hide RampPoint, InvThreads;
  }

  lemma PathCallStep(c: Config, s: State, feedback: Option<Pose>, torqueOk: bool)
    requires Inv(c, s) && InvPath(c, s) && Enabled(s, CallStep(feedback, torqueOk))
    ensures InvPath(c, NextCall(c, s, feedback, torqueOk))
  {
    if s.call.Move? {
      hide Inv, InvPath, NextMove;
      PathMoveStep(c, s);
    } else {
      hide Inv, InvPath, NextCall, KeepsFlags;
      OtherStepKeeps(c, s, feedback, torqueOk);
      PathLeft(c, s, NextCall(c, s, feedback, torqueOk));
    }
  }

  lemma {:induction false} PathRun(c: Config, states: seq<State>, steps: seq<Step>, i: nat)
    requires IsRun(c, states, steps) && i < |states|
    ensures InvPath(c, states[i])
  {
    hide NextCall, NextRamp, Inv, InvPath;
    if i == 0 {
      assert InvPath(c, Initial()) by { PathInitial(c); }
    } else {
      var s, step := states[i - 1], steps[i - 1];
      InvRun(c, states, steps, i - 1);
      PathRun(c, states, steps, i - 1);
      match step {
        case Invoke(call) => PathInvoke(c, s, call);
        case CallStep(feedback, torqueOk) => PathCallStep(c, s, feedback, torqueOk);
        case RampStep(thread) => PathRampStep(c, s, thread);
      }
    }
  }

  lemma PathInitial(c: Config)
    ensures InvPath(c, Initial())
  {
  }

  lemma PathInvoke(c: Config, s: State, call: Call)
    requires InvPath(c, s) && Entry(call)
    ensures InvPath(c, s.(call := call, reply := None))
  {
    hide RampPoint;
  }

  // In every interleaving a ramp takes the servo target along its path without a jump: each of
  // its stores lies between the target before it and the goal, per joint no further away than
  // 3/2 of one step's share of the whole distance.
  lemma RampNeverJumps(c: Config, states: seq<State>, steps: seq<Step>, i: nat, joint: nat)
    requires IsRun(c, states, steps) && i < |steps| && c.stepCount >= 1 && joint < NUM_JOINTS
    requires steps[i].RampStep? && states[i + 1].sequence != states[i].sequence
    ensures states[i].buffer.Some? && states[i + 1].buffer.Some?
    ensures var r := states[i].threads[steps[i].thread];
            var before, after := states[i].buffer.value[joint], states[i + 1].buffer.value[joint];
            && Between(before, after, r.goal[joint])
            && Abs(after - before) <=
                 1.5 * (1 as real / c.stepCount as real) * Abs(r.goal[joint] - r.start[joint])
  {
    hide NextCall, NextRamp, Inv, InvPath;
    InvRun(c, states, steps, i);
    PathRun(c, states, steps, i);
    RampStoreIsClose(c, states[i], steps[i].thread, joint);
  }

  lemma RampStoreIsClose(c: Config, s: State, thread: nat, joint: nat)
    requires Inv(c, s) && InvPath(c, s) && Live(s, thread) && c.stepCount >= 1 && joint < NUM_JOINTS
    requires NextRamp(c, s, thread).sequence != s.sequence
    ensures s.buffer.Some? && NextRamp(c, s, thread).buffer.Some?
    ensures var r := s.threads[thread];
            var before, after := s.buffer.value[joint], NextRamp(c, s, thread).buffer.value[joint];
            && Between(before, after, r.goal[joint])
            && Abs(after - before) <=
                 1.5 * (1 as real / c.stepCount as real) * Abs(r.goal[joint] - r.start[joint])
  {
    hide RampPoint, InvThreads, Between, Abs;
    LiveIsHandle(s, thread);
    var r := s.threads[thread];
    var n := c.stepCount;
    if r.pc.StoreStep? {
      StepIsClose(c, r, r.pc.step, joint);
    } else {
      RampSteps(r.start, r.goal, n, n, n, joint);
      GoalStays(r.start[joint], r.goal[joint], n);
    }
  }

  lemma StepIsClose(c: Config, r: Ramp, k: nat, joint: nat)
    requires 1 <= k <= c.stepCount && joint < NUM_JOINTS
    ensures var before := PointBefore(c, r, k)[joint];
            var after := RampPoint(r.start, r.goal, k, c.stepCount)[joint];
            && Between(before, after, r.goal[joint])
            && Abs(after - before) <=
                 1.5 * (1 as real / c.stepCount as real) * Abs(r.goal[joint] - r.start[joint])
  {
    hide RampPoint, Between, Abs;
    if k == 1 {
      DriverRamp.RampStarts(r.start, r.goal, c.stepCount);
    }
    RampSteps(r.start, r.goal, k - 1, k, c.stepCount, joint);
  }

  lemma GoalStays(start: real, goal: real, n: nat)
    requires n >= 1
    ensures Between(goal, goal, goal)
    ensures Abs(goal - goal) <= 1.5 * (1 as real / n as real) * Abs(goal - start)
  {
    ProductOfNonNegatives(1.5 * (1 as real / n as real), Abs(goal - start));
  }
}
