/**
 The handoff as a whole: the tool, the driver node with its ramp thread, and the policy node, all
 stepping in any order. Requests and replies travel with any delay and are never lost; no other
 client calls these services; joint targets, IMU samples and inference ticks keep arriving.
 */
module Handoff {
  import opened Outcome
  import opened Poses
  import opened Smoothstep
  import D = PoseOverride
  import P = PolicyGate
  import opened HandoffTool

  datatype Config = Config(stage: Stage, driver: D.Config, policy: P.Config, pose: Pose)

  datatype State = State(
    driver: D.State, gate: P.Gate, now: int, goal: Option<Pose>,
    tool: Pc, request: Option<Service>, response: Option<bool>)

  // Driver advances a callback or a ramp thread, or lets a joint target in. ServeDriver starts the
  // requested driver service; Parameters serves Configure. Policy and ServePolicy are whole
  // callbacks of the policy node. Tool advances the tool, with what the environment decides there.
  datatype Step =
    | Driver(step: D.Step)
    | ServeDriver(ready: bool, measured: Pose)
    | Parameters(ok: bool)
    | Policy(event: P.Event)
    | ServePolicy(event: P.Event)
    | Tool(choice: bool)

  predicate TargetOrIdle(call: D.Call) { call == D.Idle || call.Target? }

  predicate DriverService(service: Service) { service == Move || service == Release || service == Hold }

  function EntryCall(service: Service, goal: Option<Pose>, ready: bool, measured: Pose): D.Call
    requires DriverService(service)
  {
    match service
    case Release => D.Release(D.ReleaseTestRunning)
    case Hold => D.Hold(D.HoldSetStop)
    case Move =>
      D.Move(D.MoveTest(ready && goal.Some?), measured, if goal.Some? then goal.value else measured)
  }

  predicate Asks(service: Service, request: P.Request) {
    match service
    case Arm => request.Arm?
    case Enable => request.Enable?
    case Disable => request.Disable?
    case _ => false
  }

  predicate Enabled(c: Config, s: State, step: Step) {
    match step
    case Driver(d) =>
      && D.Enabled(s.driver, d)
      && (d.Invoke? ==> d.call.Target?)
    case ServeDriver(_, _) =>
      s.driver.call == D.Idle && s.request.Some? && DriverService(s.request.value)
    case Parameters(_) => s.driver.call == D.Idle && s.request == Some(Configure)
    case Policy(e) =>
      s.now <= e.time && P.Admissible(c.policy, e) && (e.request.Imu? || e.request.Tick?)
    case ServePolicy(e) =>
      s.now <= e.time && P.Admissible(c.policy, e) && s.request.Some? && Asks(s.request.value, e.request)
    case Tool(_) => !s.tool.Exited? && (s.tool.Await? ==> s.response.Some?)
  }

  // The service a driver callback answers.
  predicate Serving(call: D.Call) { call.Move? || call.Release? || call.Hold? }

  function Next(c: Config, s: State, step: Step): State
    requires Enabled(c, s, step)
  {
    match step
    case Driver(d) =>
      var driver := D.Next(c.driver, s.driver, d);
      if Serving(s.driver.call) && driver.call == D.Idle
      then s.(driver := driver, response := driver.reply)
      else s.(driver := driver)
    case ServeDriver(ready, measured) =>
      s.(driver := D.Next(c.driver, s.driver,
                          D.Invoke(EntryCall(s.request.value, s.goal, ready, measured))),
         request := None)
    case Parameters(ok) =>
      s.(goal := if ok then Some(c.pose) else s.goal, request := None, response := Some(ok))
    case Policy(e) => s.(gate := P.Next(c.policy, s.gate, e).0, now := e.time)
    case ServePolicy(e) =>
      var (gate, out) := P.Next(c.policy, s.gate, e);
      s.(gate := gate, now := e.time, request := None, response := out.reply)
    case Tool(choice) => NextTool(c, s, choice)
  }

  function NextTool(c: Config, s: State, choice: bool): State
    requires !s.tool.Exited? && (s.tool.Await? ==> s.response.Some?)
  {
    match s.tool
    case Load => s.(tool := AfterLoad(c.stage, choice))
    case Send(service) => s.(tool := Await(service), request := Some(service), response := None)
    case Await(service) =>
      s.(tool := AfterReply(c.stage, service, s.response.value), response := None)
    case Retry(service) => s.(tool := AfterDeadlineTest(service, choice))
    case Wait => s.(tool := AfterWait(c.stage))
  }

  // The tool starts against a driver in any reachable state with no service call under way, and
  // any state of the policy node.
  predicate Initial(c: Config, s: State) {
    && s.tool == Load && s.request == None && s.response == None
    && TargetOrIdle(s.driver.call)
  }

  ghost predicate IsRun(c: Config, states: seq<State>, steps: seq<Step>) {
    && |states| == |steps| + 1
    && Initial(c, states[0]) && D.Inv(c.driver, states[0].driver)
    && forall i :: 0 <= i < |steps| ==>
         Enabled(c, states[i], steps[i]) && states[i + 1] == Next(c, states[i], steps[i])
  }

  // ------------------------------------------------------------------------------- protocol

  // A request or a reply belongs to the service the tool awaits, and at most one of request,
  // callback and reply exists. Move and hold get past their first test only with writes enabled.
  predicate Coherent(c: Config, s: State) {
    && (TargetOrIdle(s.driver.call) || Serving(s.driver.call))
    && (s.request.Some? ==> s.tool == Await(s.request.value) && s.response == None
                            && TargetOrIdle(s.driver.call))
    && (s.response.Some? ==> s.tool.Await? && TargetOrIdle(s.driver.call))
    && (Serving(s.driver.call) ==>
          s.response == None
          && s.tool == Await(if s.driver.call.Move? then Move
                             else if s.driver.call.Release? then Release else Hold))
    && (PastWriteTest(s.driver.call) ==> c.driver.writesEnabled)
    && (s.tool.Retry? ==> s.tool.service == Arm || s.tool.service == Release)
  }

  predicate PastWriteTest(call: D.Call) {
    (call.Move? && !call.move.MoveTest?) || (call.Hold? && call.hold != D.HoldSetStop)
  }

  predicate SameService(call: D.Call, other: D.Call) {
    call.Move? == other.Move? && call.Release? == other.Release? && call.Hold? == other.Hold?
  }

  // A service callback goes on, past its write test only with writes enabled, or returns a reply:
  // a granted release leaves the override off, and a hold is granted if writes are enabled.
  predicate Answers(c: D.Config, s: D.State, t: D.State) {
    && (if t.call == D.Idle then
          && t.reply.Some?
          && (s.call.Release? && t.reply.value ==> !t.override)
          && (s.call.Move? && t.reply.value ==> D.Spawning(s.call))
          && (s.call.Hold? ==> t.reply.value == c.writesEnabled
                               && (t.reply.value ==> s.call.hold == D.HoldClearStop))
        else
          && SameService(s.call, t.call)
          && (PastWriteTest(t.call) ==> c.writesEnabled)
          && (t.call == D.Hold(D.HoldClearStop) ==> s.call == D.Hold(D.HoldAssertOverride)))
    && (s.override && !t.override ==>
          s.call == D.Release(D.ReleaseClear) && t.call == D.Idle && t.reply == Some(true))
    && (!s.override && t.override ==> PastWriteTest(s.call))
    && (!s.stop && t.stop ==> s.call.Hold?)
  }

  lemma MoveAnswers(c: D.Config, s: D.State)
    requires s.call.Move? && (PastWriteTest(s.call) ==> c.writesEnabled)
    ensures Answers(c, s, D.NextMove(c, s, s.call.move, s.call.measured, s.call.goal))
  {
  }

  lemma ReleaseAnswers(c: D.Config, s: D.State)
    requires s.call.Release?
    ensures Answers(c, s, D.NextRelease(s, s.call.release))
  {
  }

  lemma HoldAnswers(c: D.Config, s: D.State, feedback: Option<Pose>)
    requires s.call.Hold? && (PastWriteTest(s.call) ==> c.writesEnabled)
    ensures Answers(c, s, D.NextHold(c, s, s.call.hold, feedback))
  {
  }

  lemma CallbackStep(c: D.Config, s: D.State, feedback: Option<Pose>, torqueOk: bool)
    requires Serving(s.call) && (PastWriteTest(s.call) ==> c.writesEnabled)
    ensures Answers(c, s, D.NextCall(c, s, feedback, torqueOk))
  {
    hide Answers, D.NextMove, D.NextRelease, D.NextHold;
    match s.call
    case Release(_) => ReleaseAnswers(c, s);
    case Hold(_) => HoldAnswers(c, s, feedback);
    case Move(_, _, _) => MoveAnswers(c, s);
  }

  lemma TargetStep(c: D.Config, s: D.State, feedback: Option<Pose>, torqueOk: bool)
    requires s.call.Target?
    ensures var t := D.NextCall(c, s, feedback, torqueOk);
            && TargetOrIdle(t.call)
            && t.override == s.override && t.stop == s.stop && t.threads == s.threads
            && t.handle == s.handle
  {
  }

  lemma RampThreadStep(c: D.Config, s: D.State, thread: nat)
    requires D.Inv(c, s) && D.Live(s, thread)
    ensures var t := D.NextRamp(c, s, thread);
            && t.call == s.call && t.reply == s.reply && t.stop == s.stop
            && (!s.override && t.override ==> D.Stopping(s.call))
            && (s.override && !t.override ==> !c.holdAfterMove)
  {
    hide RampPoint;
  }

  lemma Invoked(c: D.Config, s: D.State, step: D.Step)
    requires D.Enabled(s, step) && step.Invoke?
    ensures D.Next(c, s, step) == s.(call := step.call, reply := None)
  {
  }

  lemma DriverStep(c: Config, s: State, d: D.Step)
    requires Coherent(c, s) && D.Inv(c.driver, s.driver) && Enabled(c, s, Driver(d))
    ensures Coherent(c, Next(c, s, Driver(d))) && D.Inv(c.driver, Next(c, s, Driver(d)).driver)
  {
    hide D.Inv, D.NextCall, D.NextRamp;
    D.InvStep(c.driver, s.driver, d);
    match d
    case Invoke(_) =>
    case CallStep(feedback, torqueOk) =>
      if s.driver.call.Target? {
        TargetStep(c.driver, s.driver, feedback, torqueOk);
      } else {
        CallbackStep(c.driver, s.driver, feedback, torqueOk);
      }
    case RampStep(thread) => RampThreadStep(c.driver, s.driver, thread);
  }

  lemma ProtocolStep(c: Config, s: State, step: Step)
    requires Coherent(c, s) && D.Inv(c.driver, s.driver) && Enabled(c, s, step)
    ensures Coherent(c, Next(c, s, step)) && D.Inv(c.driver, Next(c, s, step).driver)
  {
    hide D.Inv, D.NextCall, D.NextRamp, P.Next;
    match step
    case Driver(d) =>
      hide Coherent, Next, Enabled;
      DriverStep(c, s, d);
    case ServeDriver(ready, measured) =>
      hide Coherent, Next, Enabled;
      ServeDriverStep(c, s, ready, measured);
    case _ =>
  }

  lemma ServeDriverStep(c: Config, s: State, ready: bool, measured: Pose)
    requires Coherent(c, s) && D.Inv(c.driver, s.driver) && Enabled(c, s, ServeDriver(ready, measured))
    ensures var t := Next(c, s, ServeDriver(ready, measured));
            Coherent(c, t) && D.Inv(c.driver, t.driver)
  {
    hide D.Inv, D.NextCall, D.NextRamp;
    var entry := D.Invoke(EntryCall(s.request.value, s.goal, ready, measured));
    Invoked(c.driver, s.driver, entry);
    D.InvStep(c.driver, s.driver, entry);
  }

  lemma {:induction false} ProtocolHolds(c: Config, states: seq<State>, steps: seq<Step>, n: nat)
    requires IsRun(c, states, steps) && n < |states|
    ensures Coherent(c, states[n]) && D.Inv(c.driver, states[n].driver)
  {
    hide D.Inv, Next, Enabled;
    if n > 0 {
      ProtocolHolds(c, states, steps, n - 1);
      ProtocolStep(c, states[n - 1], steps[n - 1]);
    }
  }

  // Each step belongs to one part, which takes its own step; the others stand still.
  lemma EachPartStepsAlone(c: Config, s: State, step: Step)
    requires Enabled(c, s, step)
    ensures
      var t := Next(c, s, step);
      && (match step
          case Driver(d) => t.driver == D.Next(c.driver, s.driver, d)
          case ServeDriver(ready, measured) =>
            t.driver == s.driver.(reply := None, call :=
              match s.request.value
              case Release => D.Release(D.ReleaseTestRunning)
              case Hold => D.Hold(D.HoldSetStop)
              case _ => if s.goal.Some? then D.Move(D.MoveTest(ready), measured, s.goal.value)
                        else D.Move(D.MoveTest(false), measured, measured))
          case _ => t.driver == s.driver)
      && (if step.Policy? || step.ServePolicy?
          then t.gate == P.Next(c.policy, s.gate, step.event).0 && t.now == step.event.time
          else t.gate == s.gate && t.now == s.now)
      && t.goal == (if step == Parameters(true) then Some(c.pose) else s.goal)
      && (if step.Tool? then t.tool != s.tool else t.tool == s.tool)
  {
    hide D.NextCall, D.NextRamp, P.Next;
  }

  // Nothing is lost: while the tool awaits a service, its request is on the way, or the driver is
  // serving it, or its reply is on the way.
  lemma {:induction false} NothingIsLost(c: Config, states: seq<State>, steps: seq<Step>, n: nat)
    requires IsRun(c, states, steps) && n < |states| && states[n].tool.Await?
    ensures var s := states[n];
            s.request == Some(s.tool.service) || Serving(s.driver.call) || s.response.Some?
  {
    hide Next, Enabled, D.Inv, Coherent;
    assert states[0].tool == Load;
    var s, step := states[n - 1], steps[n - 1];
    ProtocolHolds(c, states, steps, n - 1);
    if !step.Tool? {
      EachPartStepsAlone(c, s, step);
      NothingIsLost(c, states, steps, n - 1);
    }
    ExchangeGoesOn(c, s, step);
  }

  lemma ExchangeGoesOn(c: Config, s: State, step: Step)
    requires Coherent(c, s) && D.Inv(c.driver, s.driver) && Enabled(c, s, step)
    requires !step.Tool? ==>
      && s.tool.Await?
      && (s.request == Some(s.tool.service) || Serving(s.driver.call) || s.response.Some?)
    ensures var t := Next(c, s, step);
            t.tool.Await? ==> t.request == Some(t.tool.service) || Serving(t.driver.call) || t.response.Some?
  {
    hide D.Inv, D.NextCall, D.NextRamp, P.Next;
    match step
    case Driver(d) =>
      if d.CallStep? && Serving(s.driver.call) {
        CallbackStep(c.driver, s.driver, d.feedback, d.torqueOk);
      } else if d.CallStep? {
        TargetStep(c.driver, s.driver, d.feedback, d.torqueOk);
      } else if d.RampStep? {
        RampThreadStep(c.driver, s.driver, d.thread);
      }
    case ServePolicy(e) => PolicyReplies(c.policy, s.gate, e);
    case _ =>
  }

  // ------------------------------------------------------------------------------- the calls

  // The calls the tool made in the first n steps.
  ghost function Calls(states: seq<State>, steps: seq<Step>, n: nat): seq<Service>
    requires n <= |steps| < |states|
  {
    if n == 0 then []
    else if steps[n - 1].Tool? && states[n - 1].tool.Send?
    then Calls(states, steps, n - 1) + [states[n - 1].tool.service]
    else Calls(states, steps, n - 1)
  }

  // `ok` is what became of the profile, and reply(k) the reply the tool took for its k-th call.
  ghost predicate Agrees(
    states: seq<State>, steps: seq<Step>, n: nat, ok: bool, reply: nat -> bool)
    requires n <= |steps| < |states|
  {
    forall m :: 0 <= m < n && steps[m].Tool? ==>
      && (states[m].tool == Load ==> steps[m].choice == ok)
      && (states[m].tool.Await? && Calls(states, steps, m) != [] ==>
            states[m].response == Some(reply(|Calls(states, steps, m)| - 1)))
  }

  // Where the tool can stand after its calls so far.
  ghost predicate Stands(stage: Stage, ok: bool, reply: nat -> bool, calls: seq<Service>, tool: Pc) {
    && Follow(stage, ok, reply, calls)
    && match tool
       case Load => calls == []
       case Await(service) => calls != [] && calls[|calls| - 1] == service
       case _ =>
         var before := Before(stage, ok, reply, calls, |calls|);
         Proceeds(stage, before, tool) || (before == Wait && stage != PoseStage && tool == Retry(Arm))
  }

  lemma StandsStep(
    c: Config, s: State, choice: bool, ok: bool, reply: nat -> bool, calls: seq<Service>)
    requires !s.tool.Exited? && (s.tool.Await? ==> s.response.Some?)
    requires Stands(c.stage, ok, reply, calls, s.tool)
    requires s.tool == Load ==> choice == ok
    requires s.tool.Await? ==> s.response == Some(reply(|calls| - 1))
    ensures Stands(c.stage, ok, reply, if s.tool.Send? then calls + [s.tool.service] else calls,
                   NextTool(c, s, choice).tool)
  {
    hide Follow;
    match s.tool
    case Send(service) => FollowMore(c.stage, ok, reply, calls, service);
    case _ =>
  }

  lemma {:induction false} StandsAlways(
    c: Config, states: seq<State>, steps: seq<Step>, n: nat, ok: bool, reply: nat -> bool)
    requires IsRun(c, states, steps) && n <= |steps| && Agrees(states, steps, n, ok, reply)
    ensures Stands(c.stage, ok, reply, Calls(states, steps, n), states[n].tool)
  {
    hide Next, NextTool, Enabled, Stands, D.Inv;
    if n == 0 {
      StandsAtFirst(c.stage, ok, reply);
    } else {
      var s, step := states[n - 1], steps[n - 1];
      StandsAlways(c, states, steps, n - 1, ok, reply);
      ToolStep(c, s, step);
      if step.Tool? {
        AwaitsLastCall(c.stage, ok, reply, Calls(states, steps, n - 1), s.tool);
        StandsStep(c, s, step.choice, ok, reply, Calls(states, steps, n - 1));
      }
    }
  }

  lemma StandsAtFirst(stage: Stage, ok: bool, reply: nat -> bool)
    ensures Stands(stage, ok, reply, [], Load)
  {
  }

  lemma AwaitsLastCall(stage: Stage, ok: bool, reply: nat -> bool, calls: seq<Service>, tool: Pc)
    requires Stands(stage, ok, reply, calls, tool)
    ensures tool.Await? ==> calls != []
  {
    hide Follow;
  }

  lemma ToolStep(c: Config, s: State, step: Step)
    requires Enabled(c, s, step)
    ensures if step.Tool? then
              && !s.tool.Exited? && (s.tool.Await? ==> s.response.Some?)
              && Next(c, s, step) == NextTool(c, s, step.choice)
            else Next(c, s, step).tool == s.tool
  {
    hide D.NextCall, D.NextRamp, P.Next;
  }

  // In every run of the whole system the calls of the tool, with the replies they got, are a trace of
  // main, so that everything said of the stages holds of the system.
  lemma RunIsTrace(
    c: Config, states: seq<State>, steps: seq<Step>, n: nat, ok: bool, reply: nat -> bool)
    requires IsRun(c, states, steps) && n <= |steps| && Agrees(states, steps, n, ok, reply)
    requires states[n].tool.Exited?
    ensures IsTrace(c.stage, ok, reply, Calls(states, steps, n), states[n].tool.code)
  {
    StandsAlways(c, states, steps, n, ok, reply);
    hide Follow;
  }

  // ------------------------------------------------------------------------------- effects

  // What a step of the whole does to the override and to the exchange of request and reply.
  predicate Effect(c: Config, s: State, step: Step, t: State) {
    && (s.driver.override && !t.driver.override ==>
          || (s.tool == Await(Release) && s.response == None && t.response == Some(true))
          || (!c.driver.holdAfterMove && step.Driver? && step.step.RampStep?))
    && (!s.driver.override && t.driver.override ==>
          && (s.tool == Await(Move) || s.tool == Await(Hold))
          && s.response == None && c.driver.writesEnabled)
    && (s.response.Some? && !step.Tool? ==> t.response == s.response)
    && (!step.Tool? ==> t.tool == s.tool)
    && (step.Tool? ==>
          && !s.tool.Exited? && (s.tool.Await? ==> s.response.Some?)
          && t.driver == s.driver && t == NextTool(c, s, step.choice))
    && (s.tool == Await(Release) && s.response == None && t.response == Some(true) ==>
          !t.driver.override)
    && (s.tool == Await(Hold) && s.response == None && t.response.Some? ==>
          && t.response.value == c.driver.writesEnabled
          && (t.response.value ==> s.driver.call == D.Hold(D.HoldClearStop)))
    && (t.driver.call == D.Hold(D.HoldClearStop) ==>
          s.driver.call == t.driver.call || t.driver.override)
    && (s.tool == Await(Move) && s.response == None && t.response == Some(true) ==>
          t.driver.override && c.driver.writesEnabled)
  }

  lemma StepEffect(c: Config, s: State, step: Step)
    requires Coherent(c, s) && D.Inv(c.driver, s.driver) && Enabled(c, s, step)
    ensures Effect(c, s, step, Next(c, s, step))
  {
    hide D.NextCall, D.NextRamp, P.Next, AfterReply, AfterLoad, D.InvThreads, D.InvRamp;
    match step
    case Driver(d) =>
      match d {
        case Invoke(_) =>
        case CallStep(feedback, torqueOk) =>
          if s.driver.call.Target? {
            TargetStep(c.driver, s.driver, feedback, torqueOk);
          } else {
            CallbackStep(c.driver, s.driver, feedback, torqueOk);
            Asserted(c.driver, s.driver, feedback, torqueOk);
          }
        case RampStep(thread) => RampThreadStep(c.driver, s.driver, thread);
      }
    case ServeDriver(ready, measured) =>
      Invoked(c.driver, s.driver, D.Invoke(EntryCall(s.request.value, s.goal, ready, measured)));
    case ServePolicy(e) => PolicyReplies(c.policy, s.gate, e);
    case _ =>
  }

  lemma Asserted(c: D.Config, s: D.State, feedback: Option<Pose>, torqueOk: bool)
    requires D.InvCall(s)
    ensures var t := D.NextCall(c, s, feedback, torqueOk);
            && (s.call == D.Hold(D.HoldAssertOverride) ==> t.override)
            && (D.Spawning(s.call) ==> t.override)
  {
  }

  lemma PolicyReplies(c: P.Config, g: P.Gate, e: P.Event)
    requires P.Admissible(c, e)
    ensures e.request.Arm? || e.request.Enable? || e.request.Disable? ==>
              P.Next(c, g, e).1.reply.Some?
    ensures e.request.Arm? ==> P.Arms(c, g, e) == (P.Next(c, g, e).1.reply == Some(true))
    ensures e.request.Enable? ==> P.Enables(c, g, e) == (P.Next(c, g, e).1.reply == Some(true))
  {
    hide P.NextArm, P.NextEnable, P.NextTick;
  }

  // ------------------------------------------------------------------------------- the override

  // The step at which the driver accepts the move: it starts the ramp thread.
  predicate Accepts(s: State, step: Step) { step.Driver? && D.Spawns(s.driver, step.step) }

  // Where the tool may stand once the move was accepted, and what the override is there.
  predicate Guarded(c: Config, s: State) {
    && c.driver.writesEnabled
    && match s.tool
       case Send(service) =>
         ((service == Arm || service == Release) && s.driver.override)
         || service == Enable || service == Hold
       case Retry(service) => (service == Arm || service == Release) && s.driver.override
       case Wait => s.driver.override
       case Await(Move) => s.response == Some(true) && s.driver.override
       case Await(Arm) => s.driver.override
       case Await(Release) => s.response != Some(true) ==> s.driver.override
       case Await(Enable) => true
       case Await(Hold) => HoldHeld(s)
       case Exited(code) => code != OK ==> s.driver.override
       case _ => false
  }

  predicate HoldHeld(s: State) {
    && (s.response.Some? ==> s.response == Some(true) && s.driver.override)
    && (s.driver.call == D.Hold(D.HoldClearStop) ==> s.driver.override)
  }

  lemma GuardedStep(c: Config, s: State, step: Step)
    requires Coherent(c, s) && D.Inv(c.driver, s.driver) && Enabled(c, s, step)
    requires c.driver.holdAfterMove && Guarded(c, s)
    ensures Guarded(c, Next(c, s, step))
  {
    hide D.Inv, Next, Enabled, Coherent;
    StepEffect(c, s, step);
    AwaitedReply(c, s);
  }

  // A service callback runs only while the tool awaits its service, and so does a reply wait.
  lemma AwaitedReply(c: Config, s: State)
    requires Coherent(c, s)
    ensures s.driver.call == D.Hold(D.HoldClearStop) ==> s.tool == Await(Hold) && s.response == None
    ensures s.response.Some? ==> s.tool.Await?
  {
  }

  lemma AcceptedIsGuarded(c: Config, s: State, step: Step)
    requires Coherent(c, s) && D.Inv(c.driver, s.driver) && Enabled(c, s, step)
    requires Accepts(s, step)
    ensures Guarded(c, Next(c, s, step))
  {
    hide D.InvThreads, D.InvRamp, P.Next;
  }

  // Once the driver accepted the move, and the pose is held after a move, every exit of the tool
  // with a code other than zero leaves the override on.
  lemma {:induction false} FailureKeepsOverride(
    c: Config, states: seq<State>, steps: seq<Step>, i: nat, n: nat)
    requires IsRun(c, states, steps) && i < n < |states|
    requires c.driver.holdAfterMove && Accepts(states[i], steps[i])
    ensures Guarded(c, states[n])
    ensures forall code :: states[n].tool == Exited(code) && code != OK ==> states[n].driver.override
  {
    hide Next, Enabled, Accepts, Coherent, D.Inv;
    ProtocolHolds(c, states, steps, n - 1);
    if n == i + 1 {
      AcceptedIsGuarded(c, states[i], steps[i]);
    } else {
      FailureKeepsOverride(c, states, steps, i, n - 1);
      GuardedStep(c, states[n - 1], steps[n - 1]);
    }
  }

  // After a granted release: where the tool may stand, and what the override is there.
  predicate Granted(c: Config, s: State) {
    match s.tool
    case Await(Release) => s.response == Some(true) && !s.driver.override
    case Await(Enable) => !s.driver.override
    case Send(service) => (service == Enable || service == Hold) && !s.driver.override
    case Await(Hold) =>
      if c.driver.writesEnabled then HoldHeld(s)
      else !s.driver.override && s.response != Some(true)
    case Exited(code) => code != OK ==> (s.driver.override <==> c.driver.writesEnabled)
    case _ => false
  }

  predicate Grants(s: State, step: Step, t: State) {
    s.tool == Await(Release) && s.response == None && t.response == Some(true)
  }

  lemma GrantedStep(c: Config, s: State, step: Step)
    requires Coherent(c, s) && D.Inv(c.driver, s.driver) && Enabled(c, s, step)
    requires c.driver.holdAfterMove && Granted(c, s)
    ensures Granted(c, Next(c, s, step))
  {
    hide D.Inv, Next, Enabled, Coherent;
    StepEffect(c, s, step);
    AwaitedReply(c, s);
  }

  // After a granted release every failure brings the override back if and only if the driver may
  // write: in the release stage, which makes no move, that is not known beforehand.
  lemma {:induction false} FailureAfterRelease(
    c: Config, states: seq<State>, steps: seq<Step>, j: nat, n: nat)
    requires IsRun(c, states, steps) && j < n < |states|
    requires c.driver.holdAfterMove
    requires Grants(states[j], steps[j], states[j + 1])
    ensures Granted(c, states[n])
    ensures forall code :: states[n].tool == Exited(code) && code != OK ==>
              (states[n].driver.override <==> c.driver.writesEnabled)
  {
    hide Next, Enabled, Coherent, D.Inv;
    ProtocolHolds(c, states, steps, n - 1);
    if n == j + 1 {
      StepEffect(c, states[j], steps[j]);
    } else {
      FailureAfterRelease(c, states, steps, j, n - 1);
      GrantedStep(c, states[n - 1], steps[n - 1]);
    }
  }

  // Without holding after a move: the accepted ramp is alive and unaborted, or it is over and has
  // taken the override with it.
  ghost predicate UnheldRamp(d: D.State) { !d.stop && (D.LiveRamp(d) || !d.override) }

  ghost predicate Unheld(s: State) { UnheldRamp(s.driver) }

  lemma UnheldRampStep(c: D.Config, d: D.State, thread: nat)
    requires D.Inv(c, d) && D.Live(d, thread) && !c.holdAfterMove && UnheldRamp(d)
    requires !D.Stopping(d.call)
    ensures UnheldRamp(D.NextRamp(c, d, thread))
  {
    hide RampPoint, D.InvThreads;
    D.LiveIsHandle(d, thread);
  }

  lemma UnheldCallStep(c: D.Config, d: D.State, feedback: Option<Pose>, torqueOk: bool)
    requires (d.call.Target? || d.call.Release?) && UnheldRamp(d)
    ensures UnheldRamp(D.NextCall(c, d, feedback, torqueOk))
  {
  }

  // Past its move and not holding, the tool has at most a release running on the driver.
  lemma UnheldCaller(c: Config, s: State)
    requires Coherent(c, s) && MoveDone(s) && s.tool != Await(Hold)
    ensures TargetOrIdle(s.driver.call) || s.driver.call.Release?
  {
  }

  lemma UnheldStep(c: Config, s: State, step: Step)
    requires Coherent(c, s) && D.Inv(c.driver, s.driver) && Enabled(c, s, step)
    requires !c.driver.holdAfterMove && Unheld(s)
    requires MoveDone(s) && s.tool != Await(Hold)
    ensures Unheld(Next(c, s, step))
  {
    hide P.Next, D.NextCall, D.NextRamp, D.Inv, AfterReply, AfterLoad, Coherent, MoveDone;
    UnheldCaller(c, s);
    match step
    case Driver(RampStep(thread)) => UnheldRampStep(c.driver, s.driver, thread);
    case Driver(CallStep(feedback, torqueOk)) =>
      UnheldCallStep(c.driver, s.driver, feedback, torqueOk);
    case _ =>
  }

  lemma AcceptedIsUnheld(c: Config, s: State, step: Step)
    requires Coherent(c, s) && D.Inv(c.driver, s.driver) && Enabled(c, s, step)
    requires Accepts(s, step)
    ensures Unheld(Next(c, s, step))
  {
    hide P.Next;
  }

  // The stages go forward: once the ramp was accepted the tool does not ask for another.
  predicate MoveDone(s: State) {
    match s.tool
    case Await(service) => service != Configure && (service == Move ==> s.response == Some(true))
    case Send(service) => service != Configure && service != Move
    case Load => false
    case _ => true
  }

  lemma MoveDoneStep(c: Config, s: State, step: Step)
    requires Coherent(c, s) && D.Inv(c.driver, s.driver) && Enabled(c, s, step)
    requires MoveDone(s)
    ensures MoveDone(Next(c, s, step))
  {
    hide D.Inv, Next, Enabled;
    StepEffect(c, s, step);
  }

  // Holding after the move is what the guarantee rests on. Without it, an exit that never reached
  // the hold leaves the override off as soon as the ramp has ended.
  lemma {:induction false} WithoutHoldTheOverrideIsLost(
    c: Config, states: seq<State>, steps: seq<Step>, i: nat, n: nat)
    requires IsRun(c, states, steps) && i < n < |states|
    requires !c.driver.holdAfterMove && Accepts(states[i], steps[i])
    requires forall k :: i <= k < n ==> states[k].tool != Await(Hold)
    ensures MoveDone(states[n]) && Unheld(states[n])
    ensures !D.LiveRamp(states[n].driver) ==> !states[n].driver.override
  {
    hide Next, Enabled, Accepts, Coherent, D.Inv, Unheld, D.LiveRamp;
    ProtocolHolds(c, states, steps, n - 1);
    if n == i + 1 {
      AcceptedIsUnheld(c, states[i], steps[i]);
      AcceptedIsGuarded(c, states[i], steps[i]);
    } else {
      WithoutHoldTheOverrideIsLost(c, states, steps, i, n - 1);
      MoveDoneStep(c, states[n - 1], steps[n - 1]);
      UnheldStep(c, states[n - 1], steps[n - 1]);
    }
    assert Unheld(states[n]) && !D.LiveRamp(states[n].driver) ==> !states[n].driver.override by {
      UnheldMeaning(states[n]);
    }
  }

  lemma UnheldMeaning(s: State)
    ensures Unheld(s) && !D.LiveRamp(s.driver) ==> !s.driver.override
  {
  }

  // ------------------------------------------------------------------------------- authority

  predicate ServesArm(c: Config, s: State, step: Step) {
    step.ServePolicy? && P.Admissible(c.policy, step.event) && P.Arms(c.policy, s.gate, step.event)
  }

  predicate ServesEnable(c: Config, s: State, step: Step) {
    step.ServePolicy? && P.Admissible(c.policy, step.event) && P.Enables(c.policy, s.gate, step.event)
  }

  predicate PastArm(s: State) {
    || (s.tool == Await(Arm) && s.response == Some(true))
    || s.tool == Retry(Release) || s.tool == Send(Release) || s.tool == Await(Release)
  }

  predicate PastRelease(s: State) {
    || (s.tool == Await(Release) && s.response == Some(true))
    || s.tool == Send(Enable) || s.tool == Await(Enable)
  }

  ghost predicate ArmedAt(c: Config, states: seq<State>, steps: seq<Step>, n: nat, i: nat)
    requires n <= |steps| < |states|
  {
    i < n && ServesArm(c, states[i], steps[i])
  }

  // The arm was served at i, the release at j, and the override has been off ever since.
  ghost predicate ReleasedAt(
    c: Config, states: seq<State>, steps: seq<Step>, n: nat, i: nat, j: nat)
    requires n <= |steps| < |states|
  {
    && i < j < n && ServesArm(c, states[i], steps[i])
    && Grants(states[j], steps[j], states[j + 1])
    && forall k :: j < k <= n ==> !states[k].driver.override
  }

  lemma PolicyReply(c: Config, s: State, step: Step)
    requires Coherent(c, s) && Enabled(c, s, step) && s.response == None && s.tool.Await?
    ensures var t := Next(c, s, step);
            t.response == Some(true) ==>
              && (s.tool.service == Arm ==> ServesArm(c, s, step))
              && (s.tool.service == Enable ==> ServesEnable(c, s, step))
  {
    hide D.NextCall, D.NextRamp, P.Next, P.Arms, P.Enables, AfterReply, AfterLoad;
    match step
    case ServePolicy(e) => PolicyReplies(c.policy, s.gate, e);
    case Driver(d) =>
      if s.driver.call.Target? && d.CallStep? {
        TargetStep(c.driver, s.driver, d.feedback, d.torqueOk);
      }
    case _ =>
  }

  lemma AuthorityStep(c: Config, s: State, step: Step)
    requires Coherent(c, s) && D.Inv(c.driver, s.driver) && Enabled(c, s, step)
    ensures var t := Next(c, s, step);
            && (PastArm(t) && !PastArm(s) ==> ServesArm(c, s, step))
            && (PastRelease(t) && PastRelease(s) && !s.driver.override ==> !t.driver.override)
            && (PastRelease(t) && !PastRelease(s) ==>
                  PastArm(s) && Grants(s, step, t) && !t.driver.override)
  {
    hide D.Inv, Next, Enabled, ServesArm, ServesEnable;
    StepEffect(c, s, step);
    if s.tool.Await? && s.response == None {
      PolicyReply(c, s, step);
    }
  }

  lemma {:induction false} AuthorityOrder(c: Config, states: seq<State>, steps: seq<Step>, n: nat)
    requires IsRun(c, states, steps) && n < |states|
    ensures PastArm(states[n]) ==> exists i: nat :: ArmedAt(c, states, steps, n, i)
    ensures PastRelease(states[n]) ==>
              exists i: nat, j: nat :: ReleasedAt(c, states, steps, n, i, j)
  {
    hide Next, Enabled, Coherent, D.Inv, ServesArm, PastArm, PastRelease, Grants;
    if n == 0 {
      NotPastInitially(states[0]);
    } else {
      var s, t := states[n - 1], states[n];
      AuthorityOrder(c, states, steps, n - 1);
      ProtocolHolds(c, states, steps, n - 1);
      AuthorityStep(c, s, steps[n - 1]);
      if PastArm(t) {
        if PastArm(s) {
          var i: nat :| ArmedAt(c, states, steps, n - 1, i);
          assert ArmedAt(c, states, steps, n, i);
        } else {
          assert ArmedAt(c, states, steps, n, n - 1);
        }
      }
      if PastRelease(t) {
        if PastRelease(s) {
          var i: nat, j: nat :| ReleasedAt(c, states, steps, n - 1, i, j);
          assert ReleasedAt(c, states, steps, n, i, j);
        } else {
          var i: nat :| ArmedAt(c, states, steps, n - 1, i);
          assert ReleasedAt(c, states, steps, n, i, n - 1);
        }
      }
    }
  }

  lemma NotPastInitially(s: State)
    requires s.tool == Load
    ensures !PastArm(s) && !PastRelease(s)
  {
  }

  // In every stage the tool enables authority only after a successful arm and then a granted
  // release, with the override off from the release to the enabling and beyond it.
  lemma AuthorityFollowsRelease(c: Config, states: seq<State>, steps: seq<Step>, n: nat)
    returns (arm: nat, release: nat)
    requires IsRun(c, states, steps) && n < |steps| && ServesEnable(c, states[n], steps[n])
    ensures arm < release < n && ServesArm(c, states[arm], steps[arm])
    ensures Grants(states[release], steps[release], states[release + 1])
    ensures forall k :: release < k <= n + 1 ==> !states[k].driver.override
    ensures states[n + 1].gate.authority && states[n].gate.armed
  {
    hide D.Inv, P.NextArm, P.NextImu, P.NextTick, Grants, P.Arms, AfterReply;
    ProtocolHolds(c, states, steps, n);
    AuthorityOrder(c, states, steps, n);
    arm, release :| ReleasedAt(c, states, steps, n, arm, release);
  }

  // A live or release stage that reports success did enable authority.
  lemma {:induction false} SuccessMeansEnabled(
    c: Config, states: seq<State>, steps: seq<Step>, n: nat) returns (enable: nat)
    requires IsRun(c, states, steps) && n < |states| && (c.stage == LiveStage || c.stage == ReleaseStage)
    requires states[n].tool == Exited(OK)
             || (states[n].tool == Await(Enable) && states[n].response == Some(true))
    ensures enable < n && ServesEnable(c, states[enable], steps[enable])
    ensures forall k :: enable < k <= n ==> !states[k].driver.override
  {
    hide Next, Enabled, Coherent, D.Inv, ServesArm, ServesEnable;
    assert n > 0;
    ProtocolHolds(c, states, steps, n - 1);
    var s, step := states[n - 1], steps[n - 1];
    StepEffect(c, s, step);
    if s.tool == Await(Enable) && s.response == None {
      PolicyReply(c, s, step);
      enable := n - 1;
      var _, _ := AuthorityFollowsRelease(c, states, steps, n - 1);
    } else {
      enable := SuccessMeansEnabled(c, states, steps, n - 1);
    }
  }

  // After the disable of a disable stage: no authority, and a granted hold has latched the driver.
  ghost predicate Withdrawn(s: State) {
    && (s.tool == Send(Hold) || s.tool == Await(Hold) || s.tool.Exited?
        || (s.tool == Await(Disable) && s.response == Some(true)))
    && !s.gate.authority && !s.gate.armed
    && ((s.tool == Exited(OK) || (s.tool == Await(Hold) && s.response == Some(true))
         || s.driver.call == D.Hold(D.HoldClearStop)) ==>
          D.Latched(s.driver))
  }

  lemma GateKeepsOff(c: P.Config, g: P.Gate, e: P.Event)
    requires P.Admissible(c, e) && !g.authority && !g.armed && !e.request.Arm? && !e.request.Enable?
    ensures !P.Next(c, g, e).0.authority && !P.Next(c, g, e).0.armed
  {
  }

  lemma DriverKeepsLatch(c: D.Config, s: D.State, d: D.Step)
    requires D.Inv(c, s) && D.Enabled(s, d) && (TargetOrIdle(s.call) || s.call.Hold?)
    ensures D.Latched(s) ==> D.Latched(D.Next(c, s, d))
    ensures s.call == D.Hold(D.HoldAssertOverride) && d.CallStep? ==> D.Latched(D.Next(c, s, d))
  {
    hide D.Inv, D.Next, D.Latched;
    if D.Latched(s) {
      D.LatchedStep(c, s, d);
    }
    if D.Asserts(s, d) {
      D.AssertsLatches(c, s, d);
    }
  }

  lemma WithdrawnStep(c: Config, s: State, step: Step)
    requires Coherent(c, s) && D.Inv(c.driver, s.driver) && Enabled(c, s, step)
    requires c.stage == DisableStage && Withdrawn(s)
    ensures Withdrawn(Next(c, s, step))
  {
    hide D.Inv, D.Latched, D.NextCall, D.NextRamp, P.Next;
    match step
    case Driver(d) =>
      DriverKeepsLatch(c.driver, s.driver, d);
      if d.CallStep? && s.driver.call.Hold? {
        CallbackStep(c.driver, s.driver, d.feedback, d.torqueOk);
      } else if d.CallStep? {
        TargetStep(c.driver, s.driver, d.feedback, d.torqueOk);
      } else if d.RampStep? {
        RampThreadStep(c.driver, s.driver, d.thread);
      }
    case Policy(e) => GateKeepsOff(c.policy, s.gate, e);
    case ServePolicy(e) => GateKeepsOff(c.policy, s.gate, e);
    case _ =>
  }

  lemma DisableWithdraws(c: Config, s: State, step: Step)
    requires Coherent(c, s) && D.Inv(c.driver, s.driver) && Enabled(c, s, step)
    requires s.tool == Await(Disable) && s.response == None && Next(c, s, step).response == Some(true)
    ensures Withdrawn(Next(c, s, step))
  {
    hide D.Inv, D.NextCall, D.NextRamp, P.NextArm, P.NextEnable, P.NextTick;
  }

  // A disable stage that reports success has taken authority and arming away and latched the
  // driver: the override is on and no ramp thread is left to move the robot.
  lemma {:induction false} DisableLatches(c: Config, states: seq<State>, steps: seq<Step>, n: nat)
    requires IsRun(c, states, steps) && n < |states| && c.stage == DisableStage
    ensures match states[n].tool
            case Load => true
            case Send(service) => service == Disable || Withdrawn(states[n])
            case Await(service) =>
              (service == Disable && states[n].response != Some(true)) || Withdrawn(states[n])
            case Exited(code) => code == OK ==> Withdrawn(states[n])
            case _ => false
    ensures states[n].tool == Exited(OK) ==>
              && !states[n].gate.authority && !states[n].gate.armed && D.Latched(states[n].driver)
  {
    hide Next, Enabled, D.Inv, D.Latched;
    if n > 0 {
      var s, step := states[n - 1], steps[n - 1];
      DisableLatches(c, states, steps, n - 1);
      ProtocolHolds(c, states, steps, n - 1);
      StepEffect(c, s, step);
      if Withdrawn(s) {
        WithdrawnStep(c, s, step);
      } else if s.tool == Await(Disable) && s.response == None && states[n].response == Some(true) {
        DisableWithdraws(c, s, step);
      }
    }
  }

  // ------------------------------------------------------------------------------- the pose

  predicate Aimed(c: Config, s: State) {
    && ((s.tool == Send(Move) || s.tool == Await(Move)
         || (s.tool == Await(Configure) && s.response == Some(true))) ==>
          s.goal == Some(c.pose))
    && (s.driver.call.Move? ==> s.driver.call.goal == c.pose)
  }

  lemma AimedStep(c: Config, s: State, step: Step)
    requires Coherent(c, s) && Enabled(c, s, step) && Aimed(c, s)
    ensures Aimed(c, Next(c, s, step))
  {
    hide D.NextHold, D.NextMove, D.NextRelease, D.NextTorqueOff, D.NextTorqueOn, D.NextAbort,
         D.NextRamp, P.Next;
    if step.Driver? && step.step.CallStep? && Serving(s.driver.call) {
      CallbackStep(c.driver, s.driver, step.step.feedback, step.step.torqueOk);
      if s.driver.call.Move? {
        MoveKeepsGoal(c.driver, s.driver);
      }
    } else if step.Driver? && step.step.RampStep? {
      RampKeepsCall(c.driver, s.driver, step.step.thread);
    }
  }

  lemma MoveKeepsGoal(c: D.Config, s: D.State)
    requires s.call.Move?
    ensures var t := D.NextMove(c, s, s.call.move, s.call.measured, s.call.goal);
            t.call.Move? ==> t.call.goal == s.call.goal
  {
  }

  lemma RampKeepsCall(c: D.Config, s: D.State, thread: nat)
    requires thread < |s.threads|
    ensures D.NextRamp(c, s, thread).call == s.call
  {
    hide RampPoint;
  }

  // The ramp an accepted move starts heads for the handoff profile's own pose.
  lemma {:induction false} MoveAimsAtProfile(
    c: Config, states: seq<State>, steps: seq<Step>, n: nat)
    requires IsRun(c, states, steps) && n < |states|
    ensures Aimed(c, states[n])
    ensures n < |steps| && Accepts(states[n], steps[n]) ==>
              var threads := states[n + 1].driver.threads;
              threads != [] && threads[|threads| - 1].goal == c.pose
  {
    hide D.Inv, Next, Enabled, Aimed, Accepts;
    if n > 0 {
      MoveAimsAtProfile(c, states, steps, n - 1);
      ProtocolHolds(c, states, steps, n - 1);
      AimedStep(c, states[n - 1], steps[n - 1]);
    } else {
      AimedAtFirst(c, states[0]);
    }
    if n < |steps| && Accepts(states[n], steps[n]) {
      AcceptedAims(c, states[n], steps[n]);
    }
  }

  lemma AimedAtFirst(c: Config, s: State)
    requires Initial(c, s)
    ensures Aimed(c, s)
  {
  }

  lemma AcceptedAims(c: Config, s: State, step: Step)
    requires Enabled(c, s, step) && Aimed(c, s) && Accepts(s, step)
    ensures var threads := Next(c, s, step).driver.threads;
            threads != [] && threads[|threads| - 1].goal == c.pose
  {
    hide P.Next, D.NextRamp;
  }

  // ------------------------------------------------------------------------------- arm and pose stages

  // Where the tool can stand in the two stages that only prepare the handoff.
  predicate Preparing(c: Config, s: State) {
    match c.stage
    case ArmStage =>
      s.tool == Load || s.tool == Retry(Arm) || s.tool == Send(Arm) || s.tool == Await(Arm) || s.tool.Exited?
    case PoseStage =>
      || s.tool == Load || s.tool == Wait || s.tool.Exited?
      || s.tool == Send(Configure) || s.tool == Await(Configure)
      || s.tool == Send(Move) || s.tool == Await(Move)
    case _ => false
  }

  lemma PreparingStep(c: Config, s: State, step: Step)
    requires Coherent(c, s) && D.Inv(c.driver, s.driver) && Enabled(c, s, step) && Preparing(c, s)
    ensures Preparing(c, Next(c, s, step))
  {
    hide D.Inv, Next, Enabled, Coherent;
    StepEffect(c, s, step);
  }

  lemma {:induction false} PreparingAlways(c: Config, states: seq<State>, steps: seq<Step>, n: nat)
    requires IsRun(c, states, steps) && n < |states| && (c.stage == ArmStage || c.stage == PoseStage)
    ensures Preparing(c, states[n])
  {
    hide Next, Enabled, Coherent, D.Inv;
    if n > 0 {
      PreparingAlways(c, states, steps, n - 1);
      ProtocolHolds(c, states, steps, n - 1);
      PreparingStep(c, states[n - 1], steps[n - 1]);
    }
  }

  lemma AuthorityIsEnabled(c: P.Config, g: P.Gate, e: P.Event)
    requires P.Admissible(c, e)
    ensures P.Next(c, g, e).0.authority ==> g.authority || P.Enables(c, g, e)
  {
    hide P.NextTick, P.Ready, P.AtHandoffPose;
    if e.request.Tick? {
      TickKeepsAuthority(c, g, e);
    }
  }

  lemma TickKeepsAuthority(c: P.Config, g: P.Gate, e: P.Event)
    requires P.Admissible(c, e) && e.request.Tick?
    ensures P.Next(c, g, e).0.authority == g.authority
  {
    hide P.Infers, P.Observed;
  }

  // An arm or a pose stage never gives the policy authority and never asks the driver to release
  // the override: with hold-after-move it stays on through every step, if it was on.
  lemma PreparationKeepsOverride(c: Config, states: seq<State>, steps: seq<Step>, n: nat)
    requires IsRun(c, states, steps) && n < |steps| && (c.stage == ArmStage || c.stage == PoseStage)
    ensures !ServesEnable(c, states[n], steps[n]) && !Grants(states[n], steps[n], states[n + 1])
    ensures states[n + 1].gate.authority ==> states[n].gate.authority
    ensures c.driver.holdAfterMove && states[n].driver.override ==> states[n + 1].driver.override
  {
    hide D.Inv, D.NextCall, D.NextRamp, P.Next, P.Enables, AfterReply, AfterLoad;
    var s, step := states[n], steps[n];
    PreparingAlways(c, states, steps, n);
    ProtocolHolds(c, states, steps, n);
    StepEffect(c, s, step);
    match step
    case Policy(e) => AuthorityIsEnabled(c.policy, s.gate, e); EnablesAsks(c.policy, s.gate, e);
    case ServePolicy(e) => AuthorityIsEnabled(c.policy, s.gate, e); EnablesAsks(c.policy, s.gate, e);
    case _ =>
  }

  lemma EnablesAsks(c: P.Config, g: P.Gate, e: P.Event)
    ensures P.Enables(c, g, e) ==> e.request.Enable?
  {
  }
}
