/**
 The torque handshake of the servo bus: any number of service threads post requests, the worker
 that owns the UART broadcasts them, and the posters wait for the result. Each critical section of
 the torque mutex, the UART write and the store of the atomic state are one step each.
 */
module TorqueHandshake {
  import opened Outcome

  datatype Broadcast = Broadcast(sequence: nat, enabled: bool, ok: bool)

  // Where the worker stands in processTorqueRequest.
  datatype WorkerPc =
    | Between
    | Captured(enabled: bool, sequence: nat)
    | Written(enabled: bool, sequence: nat, ok: bool)
    | Stored(sequence: nat, ok: bool)

  datatype Caller = Waiting | Returned(success: bool)

  // The caller that posted sequence s is callers[s - 1] and asked for posted[s - 1]. `broadcasts`
  // are the torque packets the UART saw. `enabledState` is -1 for unknown, then 0 or 1.
  datatype State = State(
    requested: bool, requestSequence: nat, appliedSequence: nat, lastOk: bool,
    enabledState: int, running: bool, worker: WorkerPc,
    callers: seq<Caller>, posted: seq<bool>, broadcasts: seq<Broadcast>)

  function Initial(): State { State(true, 0, 0, false, -1, true, Between, [], [], []) }

  datatype Step =
    | Post(enabled: bool)
    | Capture | Write(ok: bool) | StoreState | Publish
    | Reply(caller: nat) | TimeOut(caller: nat) | Stop

  predicate Enabled(s: State, step: Step) {
    match step
    case Post(_) => true
    case Capture => s.running && s.worker == Between
    case Write(_) => s.worker.Captured?
    case StoreState => s.worker.Written?
    case Publish => s.worker.Stored?
    case Reply(i) =>
      && i < |s.callers| && s.callers[i] == Waiting
      && (s.appliedSequence >= i + 1 || !s.running)
    case TimeOut(i) =>
      i < |s.callers| && s.callers[i] == Waiting && s.appliedSequence < i + 1 && s.running
    case Stop => s.worker == Between
  }

  function Next(s: State, step: Step): State
    requires Enabled(s, step)
  {
    match step
    case Post(enabled) =>
      s.(requested := enabled, requestSequence := s.requestSequence + 1,
         callers := s.callers + [Waiting], posted := s.posted + [enabled])
    case Capture =>
      if s.requestSequence <= s.appliedSequence then s
      else s.(worker := Captured(s.requested, s.requestSequence))
    case Write(ok) =>
      s.(worker := Written(s.worker.enabled, s.worker.sequence, ok),
         broadcasts := s.broadcasts + [Broadcast(s.worker.sequence, s.worker.enabled, ok)])
    case StoreState =>
      s.(worker := Stored(s.worker.sequence, s.worker.ok),
         enabledState := if s.worker.ok then Code(s.worker.enabled) else s.enabledState)
    case Publish =>
      s.(worker := Between, appliedSequence := s.worker.sequence, lastOk := s.worker.ok)
    case Reply(i) =>
      s.(callers := s.callers[i := Returned(s.appliedSequence >= i + 1 && s.lastOk)])
    case TimeOut(i) => s.(callers := s.callers[i := Returned(false)])
    case Stop => s.(running := false)
  }

  function Code(enabled: bool): int { if enabled then 1 else 0 }

  // What the servos were last told successfully.
  function LastTold(b: seq<Broadcast>): Option<bool> {
    if b == [] then None
    else if b[|b| - 1].ok then Some(b[|b| - 1].enabled)
    else LastTold(b[..|b| - 1])
  }

  // The published state: 1 or 0, or -1 before anything was told.
  function Published(told: Option<bool>): int {
    if told == None then -1 else if told.value then 1 else 0
  }

  ghost predicate IsRun(states: seq<State>, steps: seq<Step>) {
    && |states| == |steps| + 1
    && states[0] == Initial()
    && forall i :: 0 <= i < |steps| ==>
         Enabled(states[i], steps[i]) && states[i + 1] == Next(states[i], steps[i])
  }

  // ------------------------------------------------------------------------------- invariant

  ghost predicate InvRequests(s: State) {
    && s.requestSequence == |s.posted| == |s.callers|
    && (s.posted != [] ==> s.requested == s.posted[|s.posted| - 1])
    && s.appliedSequence <= s.requestSequence
  }

  // Every broadcast carries the value posted with its sequence, and sequences rise.
  ghost predicate InvBroadcasts(s: State) {
    && (forall i :: 0 <= i < |s.broadcasts| ==>
          && 1 <= s.broadcasts[i].sequence <= |s.posted|
          && s.broadcasts[i].enabled == s.posted[s.broadcasts[i].sequence - 1])
    && (forall i, j :: 0 <= i < j < |s.broadcasts| ==>
          s.broadcasts[i].sequence < s.broadcasts[j].sequence)
  }

  function Last(s: State): nat {
    if s.broadcasts == [] then 0 else s.broadcasts[|s.broadcasts| - 1].sequence
  }

  ghost predicate InvWorker(s: State) {
    match s.worker
    case Between => s.appliedSequence == Last(s)
    case Captured(enabled, sequence) =>
      && s.appliedSequence == Last(s) < sequence <= |s.posted| && enabled == s.posted[sequence - 1]
    case Written(enabled, sequence, ok) =>
      && s.appliedSequence < sequence <= |s.posted|
      && s.broadcasts != [] && s.broadcasts[|s.broadcasts| - 1] == Broadcast(sequence, enabled, ok)
    case Stored(sequence, ok) =>
      && s.appliedSequence < sequence <= |s.posted| && s.broadcasts != []
      && var b := s.broadcasts[|s.broadcasts| - 1]; b.sequence == sequence && b.ok == ok
  }

  // The published result is that of the broadcast with the applied sequence.
  ghost predicate InvResult(s: State) {
    s.appliedSequence > 0 ==>
      exists i :: 0 <= i < |s.broadcasts| && s.broadcasts[i].sequence == s.appliedSequence
                  && s.broadcasts[i].ok == s.lastOk
  }

  // The atomic state is the last value told successfully, once the store has caught up.
  ghost predicate InvEnabledState(s: State) {
    if s.worker.Written? then
      s.broadcasts != [] && s.enabledState == Published(LastTold(s.broadcasts[..|s.broadcasts| - 1]))
    else s.enabledState == Published(LastTold(s.broadcasts))
  }

  ghost predicate Inv(s: State) {
    InvRequests(s) && InvBroadcasts(s) && InvWorker(s) && InvResult(s) && InvEnabledState(s)
  }

  lemma InvPost(s: State, step: Step)
    requires Inv(s) && step.Post?
    ensures Inv(Next(s, step))
  {
    hide Inv, Next, InvRequests, InvBroadcasts, InvWorker, InvResult, InvEnabledState;
    LogsAfterPost(s, step);
    ResultAfterPost(s, step);
    InvParts(Next(s, step));
  }

  lemma LogsAfterPost(s: State, step: Step)
    requires Inv(s) && step.Post?
    ensures var t := Next(s, step); InvRequests(t) && InvBroadcasts(t) && InvWorker(t)
  {
    hide InvResult, InvEnabledState;
    var t := Next(s, step);
    assert forall i :: 0 <= i < |s.posted| ==> t.posted[i] == s.posted[i];
  }

  lemma ResultAfterPost(s: State, step: Step)
    requires Inv(s) && step.Post?
    ensures var t := Next(s, step); InvResult(t) && InvEnabledState(t)
  {
    hide InvRequests, InvBroadcasts, InvWorker;
  }

  lemma InvWrite(s: State, step: Step)
    requires Inv(s) && step.Write? && Enabled(s, step)
    ensures Inv(Next(s, step))
  {
    hide Inv, InvResult, InvEnabledState;
    var t := Next(s, step);
    assert InvRequests(t) && InvBroadcasts(t) && InvWorker(t) by {
      LogsAfterWrite(s, step);
    }
    assert InvResult(t) by {
      ResultAfterWrite(s, step);
    }
    assert InvEnabledState(t) by {
      StateAfterWrite(s, step);
    }
    InvParts(t);
  }

  lemma InvParts(s: State)
    ensures Inv(s) <==>
              InvRequests(s) && InvBroadcasts(s) && InvWorker(s) && InvResult(s) && InvEnabledState(s)
  {
  }

  lemma LogsAfterWrite(s: State, step: Step)
    requires Inv(s) && step.Write? && Enabled(s, step)
    ensures var t := Next(s, step); InvRequests(t) && InvBroadcasts(t) && InvWorker(t)
  {
    hide InvResult, InvEnabledState;
  }

  lemma ResultAfterWrite(s: State, step: Step)
    requires Inv(s) && step.Write? && Enabled(s, step)
    ensures InvResult(Next(s, step))
  {
    hide InvRequests, InvBroadcasts, InvWorker, InvEnabledState;
    var t := Next(s, step);
    if s.appliedSequence > 0 {
      var i :| 0 <= i < |s.broadcasts| && s.broadcasts[i].sequence == s.appliedSequence
               && s.broadcasts[i].ok == s.lastOk;
      assert t.broadcasts[i] == s.broadcasts[i];
    }
  }

  lemma StateAfterWrite(s: State, step: Step)
    requires Inv(s) && step.Write? && Enabled(s, step)
    ensures InvEnabledState(Next(s, step))
  {
    hide InvRequests, InvBroadcasts, InvWorker, InvResult, LastTold;
    var t := Next(s, step);
    assert t.broadcasts[..|s.broadcasts|] == s.broadcasts;
  }

  lemma InvPublish(s: State, step: Step)
    requires Inv(s) && step.Publish? && Enabled(s, step)
    ensures Inv(Next(s, step))
  {
    hide LastTold;
    var t := Next(s, step);
    assert t.broadcasts[|t.broadcasts| - 1].ok == t.lastOk;
  }

  // The steps that leave the logs and the published result alone.
  predicate Quiet(step: Step) { !step.Post? && !step.Write? && !step.Publish? }

  lemma LogsWhenQuiet(s: State, step: Step)
    requires Inv(s) && Enabled(s, step) && Quiet(step)
    ensures var t := Next(s, step); InvRequests(t) && InvBroadcasts(t) && InvResult(t)
  {
    hide InvWorker, InvEnabledState;
    var t := Next(s, step);
    assert t.posted == s.posted && t.broadcasts == s.broadcasts;
    assert t.appliedSequence == s.appliedSequence && t.lastOk == s.lastOk;
  }

  lemma WorkerWhenQuiet(s: State, step: Step)
    requires Inv(s) && Enabled(s, step) && Quiet(step)
    ensures var t := Next(s, step); InvWorker(t) && InvEnabledState(t)
  {
    hide InvBroadcasts, InvResult;
  }

  lemma InvQuiet(s: State, step: Step)
    requires Inv(s) && Enabled(s, step) && Quiet(step)
    ensures Inv(Next(s, step))
  {
    hide Inv, Next, Enabled, InvRequests, InvBroadcasts, InvWorker, InvResult, InvEnabledState;
    LogsWhenQuiet(s, step);
    WorkerWhenQuiet(s, step);
    InvParts(Next(s, step));
  }

  lemma InvStep(s: State, step: Step)
    requires Inv(s) && Enabled(s, step)
    ensures Inv(Next(s, step))
  {
    hide Inv, Next, Enabled;
    match step
    case Post(_) => InvPost(s, step);
    case Write(_) => InvWrite(s, step);
    case Publish => InvPublish(s, step);
    case _ => InvQuiet(s, step);
  }

  lemma {:induction false} InvRun(states: seq<State>, steps: seq<Step>, n: nat)
    requires IsRun(states, steps) && n < |states|
    ensures Inv(states[n])
  {
    hide Next, Enabled, Inv;
    if n == 0 {
      assert Inv(Initial()) by { InvInitial(); }
    } else {
      InvRun(states, steps, n - 1);
      InvStep(states[n - 1], steps[n - 1]);
    }
  }

  lemma InvInitial()
    ensures Inv(Initial())
  {
  }

  // ------------------------------------------------------------------------------- theorems

  // Whatever the interleaving: the value broadcast for a sequence is the one posted with it, the
  // sequences broadcast strictly rise, and the applied one never passes the requested one.
  lemma BroadcastsArePosted(states: seq<State>, steps: seq<Step>, n: nat, i: nat)
    requires IsRun(states, steps) && n < |states|
    ensures states[n].appliedSequence <= states[n].requestSequence == |states[n].posted|
    ensures i < |states[n].broadcasts| ==>
              var b := states[n].broadcasts[i];
              && 1 <= b.sequence <= |states[n].posted| && b.enabled == states[n].posted[b.sequence - 1]
              && (i > 0 ==> states[n].broadcasts[i - 1].sequence < b.sequence)
  {
    InvRun(states, steps, n);
  }

  lemma {:induction false} AppliedNeverFalls(states: seq<State>, steps: seq<Step>, m: nat, n: nat)
    requires IsRun(states, steps) && m <= n < |states|
    ensures states[m].appliedSequence <= states[n].appliedSequence
    ensures states[m].posted <= states[n].posted && states[m].broadcasts <= states[n].broadcasts
  {
    hide Next, Enabled, Inv;
    if m < n {
      AppliedNeverFalls(states, steps, m, n - 1);
      InvRun(states, steps, n - 1);
      AppliedStep(states[n - 1], steps[n - 1]);
    }
  }

  lemma AppliedStep(s: State, step: Step)
    requires Inv(s) && Enabled(s, step)
    ensures var t := Next(s, step);
            && s.appliedSequence <= t.appliedSequence
            && s.posted <= t.posted && s.broadcasts <= t.broadcasts
  {
    hide InvBroadcasts, InvResult, InvEnabledState;
  }

  // A caller told "success" can rely on a successful broadcast no older than its own request. If
  // nobody posted after it, that broadcast is its own, with its own value.
  lemma TrueReplyMeansBroadcast(states: seq<State>, steps: seq<Step>, n: nat) returns (i: nat)
    requires IsRun(states, steps) && n < |steps| && steps[n].Reply?
    requires steps[n].caller < |states[n + 1].callers|
    requires states[n + 1].callers[steps[n].caller] == Returned(true)
    ensures steps[n].caller < |states[n].posted|
    ensures i < |states[n].broadcasts| && states[n].broadcasts[i].ok
    ensures states[n].broadcasts[i].sequence >= steps[n].caller + 1
    ensures states[n].requestSequence == steps[n].caller + 1 ==>
              states[n].broadcasts[i] ==
                Broadcast(steps[n].caller + 1, states[n].posted[steps[n].caller], true)
  {
    InvRun(states, steps, n);
    var s := states[n];
    i :| 0 <= i < |s.broadcasts| && s.broadcasts[i].sequence == s.appliedSequence
         && s.broadcasts[i].ok == s.lastOk;
  }

  // The broadcast with the applied sequence succeeded.
  ghost predicate AppliedOk(s: State) {
    exists j :: 0 <= j < |s.broadcasts| && s.broadcasts[j].sequence == s.appliedSequence
                && s.broadcasts[j].ok
  }

  // A caller's wait ends by an answer once its request, or a later one, is applied or the worker was
  // stopped; until then it can only time out.
  lemma WakesExactly(states: seq<State>, steps: seq<Step>, n: nat, i: nat)
    requires IsRun(states, steps) && n < |states|
    requires i < |states[n].callers| && states[n].callers[i] == Waiting
    ensures Enabled(states[n], Reply(i)) <==>
              states[n].appliedSequence >= i + 1 || exists k :: 0 <= k < n && steps[k] == Stop
    ensures Enabled(states[n], TimeOut(i)) <==> !Enabled(states[n], Reply(i))
  {
    RunsUntilStop(states, steps, n);
  }

  lemma {:induction false} RunsUntilStop(states: seq<State>, steps: seq<Step>, n: nat)
    requires IsRun(states, steps) && n < |states|
    ensures states[n].running <==> forall k :: 0 <= k < n ==> steps[k] != Stop
  {
    if n > 0 {
      RunsUntilStop(states, steps, n - 1);
    }
  }

  // What a caller is told, whichever way its wait ends: "success" exactly if a request at least as
  // new as its own has been applied and the broadcast applied last succeeded.
  lemma AnswersExactly(states: seq<State>, steps: seq<Step>, n: nat, i: nat)
    requires IsRun(states, steps) && n < |steps| && i < |states[n].callers| <= |states[n + 1].callers|
    requires states[n].callers[i] == Waiting && states[n + 1].callers[i] != Waiting
    ensures states[n + 1].callers[i] ==
              Returned(states[n].appliedSequence >= i + 1 && AppliedOk(states[n]))
  {
    hide InvRequests, InvWorker, InvEnabledState;
    InvRun(states, steps, n);
    var s := states[n];
    assert states[n + 1] == Next(s, steps[n]);
    if s.appliedSequence > 0 {
      var k :| 0 <= k < |s.broadcasts| && s.broadcasts[k].sequence == s.appliedSequence
               && s.broadcasts[k].ok == s.lastOk;
    }
  }

  // A later post can answer for an earlier one: the caller that asked for torque off is told
  // "success" though only the opposite request was ever broadcast.
  lemma SupersededCallerHearsSuccess(states: seq<State>, steps: seq<Step>)
    requires IsRun(states, steps) && |steps| == 7
    requires steps == [Post(false), Post(true), Capture, Write(true), StoreState, Publish, Reply(0)]
    ensures states[7].callers == [Returned(true), Waiting]
    ensures states[7].broadcasts == [Broadcast(2, true, true)] && states[7].enabledState == 1
  {
    assert states[1] == Next(states[0], steps[0]);
    assert states[2] == Next(states[1], steps[1]);
    assert states[3] == Next(states[2], steps[2]);
    assert states[4] == Next(states[3], steps[3]);
    assert states[5] == Next(states[4], steps[4]);
    assert states[6] == Next(states[5], steps[5]);
  }

  // The worker found q the newest request, and not yet applied.
  predicate Captures(s: State, step: Step, q: nat) {
    step == Capture && s.requestSequence == q && s.appliedSequence < q
  }

  ghost predicate CapturedBefore(states: seq<State>, steps: seq<Step>, n: nat, q: nat)
    requires n <= |steps| < |states|
  {
    exists k :: 0 <= k < n && Captures(states[k], steps[k], q)
  }

  ghost predicate IsBroadcast(s: State, q: nat) {
    exists i :: 0 <= i < |s.broadcasts| && s.broadcasts[i].sequence == q
  }

  predicate Carries(s: State, q: nat) { s.worker.Captured? && s.worker.sequence == q }

  lemma LogStep(s: State, step: Step, q: nat)
    requires Inv(s) && Enabled(s, step)
    ensures IsBroadcast(Next(s, step), q) || Carries(Next(s, step), q) <==>
            IsBroadcast(s, q) || Carries(s, q) || Captures(s, step, q)
  {
    hide InvBroadcasts, InvResult, InvEnabledState;
    var t := Next(s, step);
    assert s.broadcasts <= t.broadcasts;
    if step.Write? {
      assert t.broadcasts[|s.broadcasts|].sequence == s.worker.sequence;
    }
    if IsBroadcast(s, q) {
      var i :| 0 <= i < |s.broadcasts| && s.broadcasts[i].sequence == q;
      assert t.broadcasts[i].sequence == q;
    }
  }

  lemma {:induction false} CapturedAreBroadcast(states: seq<State>, steps: seq<Step>, n: nat, q: nat)
    requires IsRun(states, steps) && n < |states|
    ensures CapturedBefore(states, steps, n, q) <==> IsBroadcast(states[n], q) || Carries(states[n], q)
  {
    hide Next, Enabled, Inv, Captures, IsBroadcast, Carries;
    if n == 0 {
      assert !IsBroadcast(Initial(), q) && !Carries(Initial(), q) by { NothingYet(q); }
    } else {
      CapturedAreBroadcast(states, steps, n - 1, q);
      InvRun(states, steps, n - 1);
      LogStep(states[n - 1], steps[n - 1], q);
      if CapturedBefore(states, steps, n - 1, q) {
        var k :| 0 <= k < n - 1 && Captures(states[k], steps[k], q);
      }
    }
  }

  lemma NothingYet(q: nat)
    ensures !IsBroadcast(Initial(), q) && !Carries(Initial(), q)
  {
  }

  // Exactly when an answered request was itself sent: when some pass of the worker began while it
  // was the newest. Otherwise a later one was applied in its place.
  lemma OwnBroadcastExactly(states: seq<State>, steps: seq<Step>, n: nat, q: nat)
    requires IsRun(states, steps) && n < |states| && q <= states[n].appliedSequence
    ensures IsBroadcast(states[n], q) <==> CapturedBefore(states, steps, n, q)
  {
    hide Captures, IsBroadcast, CapturedBefore;
    CapturedAreBroadcast(states, steps, n, q);
    InvRun(states, steps, n);
  }

  // Nobody posts while another caller still waits.
  ghost predicate OneAtATime(states: seq<State>, steps: seq<Step>) {
    forall k, i :: 0 <= k < |steps| && k < |states| && steps[k].Post? && 0 <= i < |states[k].callers| ==>
      states[k].callers[i] != Waiting
  }

  lemma {:induction false} WaitingIsNewest(states: seq<State>, steps: seq<Step>, n: nat, i: nat)
    requires IsRun(states, steps) && OneAtATime(states, steps) && n < |states|
    requires i < |states[n].callers| && states[n].callers[i] == Waiting
    ensures i + 1 == |states[n].callers|
  {
    hide Inv;
    if n > 0 {
      assert states[n] == Next(states[n - 1], steps[n - 1]);
      if i < |states[n - 1].callers| {
        WaitingIsNewest(states, steps, n - 1, i);
      }
    }
  }

  // With one caller at a time, as this program uses the bus, success always means that the
  // caller's own request was broadcast, with its own value.
  lemma AloneTrueMeansOwn(states: seq<State>, steps: seq<Step>, n: nat) returns (i: nat)
    requires IsRun(states, steps) && OneAtATime(states, steps) && n < |steps| && steps[n].Reply?
    requires steps[n].caller < |states[n + 1].callers|
    requires states[n + 1].callers[steps[n].caller] == Returned(true)
    ensures steps[n].caller < |states[n].posted| && i < |states[n].broadcasts|
    ensures states[n].broadcasts[i] ==
              Broadcast(steps[n].caller + 1, states[n].posted[steps[n].caller], true)
  {
    i := TrueReplyMeansBroadcast(states, steps, n);
    InvRun(states, steps, n);
    WaitingIsNewest(states, steps, n, steps[n].caller);
  }

  // Except between a successful write and its store, the published torque state is the value of
  // the last successful broadcast.
  lemma EnabledStateIsLastTold(states: seq<State>, steps: seq<Step>, n: nat)
    requires IsRun(states, steps) && n < |states|
    ensures !states[n].worker.Written? ==> states[n].enabledState == Published(LastTold(states[n].broadcasts))
    ensures states[n].worker.Written? && !states[n].worker.ok ==>
              states[n].enabledState == Published(LastTold(states[n].broadcasts))
  {
    InvRun(states, steps, n);
  }

  // One pass of the worker, from a capture to its publication, answers every request posted
  // before it began: it applies the newest of them and so supersedes the rest.
  lemma PassAnswersEarlierRequests(states: seq<State>, steps: seq<Step>, i: nat, j: nat)
    requires IsRun(states, steps) && i < j < |steps|
    requires steps[i] == Capture && steps[j] == Publish
    requires forall k :: i < k < j ==> steps[k] != Publish
    ensures states[j + 1].appliedSequence >= states[i].requestSequence
    ensures states[i].requestSequence > states[i].appliedSequence ==>
              states[j + 1].appliedSequence == states[i].requestSequence
  {
    PassKeepsSequence(states, steps, i, j);
  }

  // During a pass: the worker carries the newest request, or there was nothing to do and anything
  // it carries since is newer.
  predicate InPass(s: State, applied: nat, newest: nat) {
    && s.appliedSequence == applied
    && if newest > applied then s.worker != Between && s.worker.sequence == newest
       else s.worker != Between ==> s.worker.sequence > newest
  }

  lemma {:induction false} PassKeepsSequence(states: seq<State>, steps: seq<Step>, i: nat, j: nat)
    requires IsRun(states, steps) && i < j < |states|
    requires steps[i] == Capture && forall k :: i < k < j ==> steps[k] != Publish
    ensures InPass(states[j], states[i].appliedSequence, states[i].requestSequence)
    ensures states[i].requestSequence <= states[j].requestSequence
  {
    hide Inv, Next, Enabled;
    InvRun(states, steps, j - 1);
    if j == i + 1 {
      PassBegins(states[i]);
    } else {
      PassKeepsSequence(states, steps, i, j - 1);
      PassStep(states[j - 1], steps[j - 1], states[i].appliedSequence, states[i].requestSequence);
    }
  }

  lemma PassBegins(s: State)
    requires Enabled(s, Capture)
    ensures InPass(Next(s, Capture), s.appliedSequence, s.requestSequence)
    ensures s.requestSequence <= Next(s, Capture).requestSequence
  {
  }

  lemma PassStep(s: State, step: Step, applied: nat, newest: nat)
    requires Inv(s) && Enabled(s, step) && step != Publish
    requires InPass(s, applied, newest) && newest <= s.requestSequence
    ensures InPass(Next(s, step), applied, newest) && newest <= Next(s, step).requestSequence
  {
    hide Inv;
  }

  // ------------------------------------------------------------------------------- one cycle

  function FailedBroadcasts(b: seq<Broadcast>): nat {
    if b == [] then 0
    else FailedBroadcasts(b[..|b| - 1]) + if b[|b| - 1].ok then 0 else 1
  }

  // From step m to n the worker writes at most once, and with this outcome.
  ghost predicate WroteOnce(steps: seq<Step>, m: nat, n: nat, outcome: Option<bool>)
    requires m <= n <= |steps|
  {
    match outcome
    case None => NoWrite(steps, m, n)
    case Some(ok) =>
      exists w :: m <= w < n && steps[w] == Write(ok) && NoWrite(steps, m, w) && NoWrite(steps, w + 1, n)
  }

  ghost predicate NoWrite(steps: seq<Step>, m: nat, n: nat)
    requires n <= |steps|
  {
    forall k :: m <= k < n ==> !steps[k].Write?
  }

  lemma {:induction false} BroadcastsStay(states: seq<State>, steps: seq<Step>, m: nat, n: nat)
    requires IsRun(states, steps) && m <= n <= |steps| && NoWrite(steps, m, n)
    ensures states[n].broadcasts == states[m].broadcasts
  {
    if m < n {
      BroadcastsStay(states, steps, m, n - 1);
      assert states[n] == Next(states[n - 1], steps[n - 1]);
    }
  }

  lemma NoneYet(states: seq<State>, steps: seq<Step>)
    requires IsRun(states, steps)
    ensures |states| == |steps| + 1 && FailedBroadcasts(states[0].broadcasts) == 0
  {
  }

  // Such a stretch adds a failed broadcast exactly if its outcome is a failure.
  lemma FailuresCounted(states: seq<State>, steps: seq<Step>, m: nat, n: nat, outcome: Option<bool>)
    requires IsRun(states, steps) && m <= n <= |steps| && WroteOnce(steps, m, n, outcome)
    ensures FailedBroadcasts(states[n].broadcasts) ==
              FailedBroadcasts(states[m].broadcasts) + if outcome == Some(false) then 1 else 0
  {
    if outcome == None {
      BroadcastsStay(states, steps, m, n);
    } else {
      var w :| m <= w < n && steps[w] == Write(outcome.value)
               && NoWrite(steps, m, w) && NoWrite(steps, w + 1, n);
      BroadcastsStay(states, steps, m, w);
      BroadcastsStay(states, steps, w + 1, n);
      var before, after := states[w].broadcasts, states[w + 1].broadcasts;
      assert states[w + 1] == Next(states[w], steps[w]);
      assert after[..|after| - 1] == before;
    }
  }

  // ------------------------------------------------------------------------------- the code

  // The fields of the bus the handshake lives in, with its critical sections as methods, and
  // processTorqueRequest run by the worker while nobody posts.
  class TorqueControl {
    var requested: bool
    var requestSequence: nat
    var appliedSequence: nat
    var lastOk: bool
    var enabledState: int

    // The fields agree with a state of the protocol.
    predicate Shows(s: State)
      reads this
    {
      && requested == s.requested && requestSequence == s.requestSequence
      && appliedSequence == s.appliedSequence && lastOk == s.lastOk
      && enabledState == s.enabledState
    }

    constructor ()
      ensures Shows(Initial())
    {
      requested, requestSequence, appliedSequence, lastOk := true, 0, 0, false;
      enabledState := -1;
    }

    method PostRequest(enabled: bool, ghost s: State) returns (sequence: nat)
      requires Shows(s)
      modifies this
      ensures Shows(Next(s, Post(enabled))) && sequence == requestSequence
    {
      requested := enabled;
      requestSequence := requestSequence + 1;
      sequence := requestSequence;
    }

    method ProcessTorqueRequest(writeOk: bool, ghost s: State) returns (attempted: bool)
      requires Shows(s) && s.running && s.worker == Between
      modifies this
      ensures attempted == (s.requestSequence > s.appliedSequence)
      ensures Shows(Pass(s, writeOk))
    {
      if requestSequence <= appliedSequence {
        return false;
      }
      var enabled, sequence := requested, requestSequence;
      if writeOk {
        enabledState := if enabled then 1 else 0;
      }
      appliedSequence := sequence;
      lastOk := writeOk;
      return true;
    }
  }

  // A whole pass in which no other thread takes a step.
  ghost function Pass(s: State, ok: bool): State
    requires Enabled(s, Capture)
  {
    var captured := Next(s, Capture);
    if captured.worker == Between then captured
    else Next(Next(Next(captured, Write(ok)), StoreState), Publish)
  }
}
