/**
 The handoff tool: which service it calls next, given its stage and the replies so far.
 */
module HandoffTool {
  datatype Stage = PoseStage | ArmStage | LiveStage | ReleaseStage | DisableStage

  datatype Service = Configure | Move | Arm | Release | Enable | Hold | Disable

  // Where the tool stands between service calls. Retry is the deadline test at the head of the
  // arm and release loops; Wait is the sleep while the ramp runs.
  datatype Pc = Load | Send(service: Service) | Await(service: Service) | Retry(service: Service)
    | Wait | Exited(code: int)

  const OK := 0
  const FAILED := 2
  const CONFIG_ERROR := 5

  function AfterLoad(stage: Stage, profileOk: bool): Pc {
    if !profileOk then Exited(CONFIG_ERROR)
    else match stage
      case DisableStage => Send(Disable)
      case ArmStage => Retry(Arm)
      case _ => Send(Configure)
  }

  function AfterReply(stage: Stage, service: Service, ok: bool): Pc {
    match service
    case Configure =>
      if !ok then Exited(FAILED) else if stage == ReleaseStage then Retry(Arm) else Send(Move)
    case Move => if ok then Wait else Exited(FAILED)
    case Arm => if !ok then Retry(Arm) else if stage == ArmStage then Exited(OK) else Retry(Release)
    case Release => if ok then Send(Enable) else Retry(Release)
    case Enable => if ok then Exited(OK) else Send(Hold)
    case Hold => if ok && stage == DisableStage then Exited(OK) else Exited(FAILED)
    case Disable => if ok then Send(Hold) else Exited(FAILED)
  }

  function AfterWait(stage: Stage): Pc { if stage == PoseStage then Exited(OK) else Retry(Arm) }

  function AfterDeadlineTest(service: Service, late: bool): Pc {
    if late then Exited(FAILED) else Send(service)
  }

  // One step of the tool that is neither a call nor a reply.
  predicate Proceeds(stage: Stage, pc: Pc, next: Pc) {
    || pc == next
    || (pc.Retry? && (next == Send(pc.service) || next == Exited(FAILED)))
    || (pc == Wait && (next == AfterWait(stage)
                       || (stage != PoseStage && (next == Send(Arm) || next == Exited(FAILED)))))
  }

  // Every call followed from the replies before it.
  ghost predicate Follow(stage: Stage, profileOk: bool, reply: nat -> bool, calls: seq<Service>) {
    forall i :: 0 <= i < |calls| ==> FollowsAt(stage, profileOk, reply, calls, i)
  }

  predicate FollowsAt(stage: Stage, profileOk: bool, reply: nat -> bool, calls: seq<Service>, i: nat)
    requires i < |calls|
  {
    Proceeds(stage, Before(stage, profileOk, reply, calls, i), Send(calls[i]))
  }

  // A whole run of main, seen from outside: the calls it made, in order, and its exit code.
  ghost predicate IsTrace(
    stage: Stage, profileOk: bool, reply: nat -> bool, calls: seq<Service>, code: int)
  {
    && Follow(stage, profileOk, reply, calls)
    && Proceeds(stage, Before(stage, profileOk, reply, calls, |calls|), Exited(code))
  }

  lemma FollowMore(
    stage: Stage, profileOk: bool, reply: nat -> bool, calls: seq<Service>, service: Service)
    requires Follow(stage, profileOk, reply, calls)
    requires Proceeds(stage, Before(stage, profileOk, reply, calls, |calls|), Send(service))
    ensures Follow(stage, profileOk, reply, calls + [service])
  {
    hide Proceeds, Before;
    forall i | 0 <= i <= |calls|
      ensures FollowsAt(stage, profileOk, reply, calls + [service], i)
    {
      BeforeDependsOnPast(stage, profileOk, reply, calls, [service], i);
      assert i < |calls| ==> FollowsAt(stage, profileOk, reply, calls, i);
    }
  }

  lemma BeforeDependsOnPast(
    stage: Stage, profileOk: bool, reply: nat -> bool, calls: seq<Service>, more: seq<Service>, i: nat)
    requires i <= |calls|
    ensures Before(stage, profileOk, reply, calls + more, i) == Before(stage, profileOk, reply, calls, i)
  {
  }

  // Where the tool stands after its first i calls.
  function Before(
    stage: Stage, profileOk: bool, reply: nat -> bool, calls: seq<Service>, i: nat): Pc
    requires i <= |calls|
  {
    if i == 0 then AfterLoad(stage, profileOk) else AfterReply(stage, calls[i - 1], reply(i - 1))
  }

  // main and its two retry loops. `reply(k)` answers the k-th call; the deadline of each loop
  // falls after the given number of tries.
  class HandoffController {
    const stage: Stage
    const profileOk: bool
    const reply: nat -> bool
    var calls: seq<Service>

    constructor (stage: Stage, profileOk: bool, reply: nat -> bool)
      ensures this.stage == stage && this.profileOk == profileOk && this.reply == reply
      ensures calls == []
    {
      this.stage, this.profileOk, this.reply := stage, profileOk, reply;
      calls := [];
    }

    ghost function Here(): Pc
      reads this
    {
      Before(stage, profileOk, reply, calls, |calls|)
    }

    ghost predicate Faithful()
      reads this
    {
      Follow(stage, profileOk, reply, calls)
    }

    method CallTrigger(service: Service) returns (success: bool)
      requires Faithful() && Proceeds(stage, Here(), Send(service))
      modifies this
      ensures Faithful() && calls == old(calls) + [service] && success == reply(|old(calls)|)
      ensures Here() == AfterReply(stage, service, success)
    {
      hide Proceeds, AfterReply, AfterLoad, Follow;
      success := reply(|calls|);
      FollowMore(stage, profileOk, reply, calls, service);
      calls := calls + [service];
    }

    method CallWithRetry(service: Service, tries: nat) returns (success: bool)
      requires service == Arm || service == Release
      requires Faithful()
      requires Proceeds(stage, Here(), Send(service)) && Proceeds(stage, Here(), Exited(FAILED))
      modifies this
      ensures Faithful() && old(calls) <= calls
      ensures success ==> Here() == AfterReply(stage, service, true)
      ensures !success ==> Proceeds(stage, Here(), Exited(FAILED))
    {
      hide Before, IsTrace;
      var left := tries;
      while left > 0
        invariant Faithful() && old(calls) <= calls
        invariant Proceeds(stage, Here(), Send(service)) && Proceeds(stage, Here(), Exited(FAILED))
      {
        success := CallTrigger(service);
        if success {
          return true;
        }
        left := left - 1;
      }
      return false;
    }

    method Run(armTries: nat, releaseTries: nat) returns (code: int)
      requires calls == []
      modifies this
      ensures IsTrace(stage, profileOk, reply, calls, code)
    {
      code := RunStage(armTries, releaseTries);
    }

    method RunStage(armTries: nat, releaseTries: nat) returns (code: int)
      requires Faithful() && Here() == AfterLoad(stage, profileOk)
      modifies this
      ensures Faithful() && Proceeds(stage, Here(), Exited(code))
    {
      hide Faithful, Here;
      if !profileOk {
        return CONFIG_ERROR;
      }
      if stage == DisableStage {
        var disabled := CallTrigger(Disable);
        if !disabled {
          return FAILED;
        }
        var held := CallTrigger(Hold);
        return if held then OK else FAILED;
      }
      if stage == PoseStage || stage == LiveStage {
        var configured := CallTrigger(Configure);
        if !configured {
          return FAILED;
        }
        var moving := CallTrigger(Move);
        if !moving {
          return FAILED;
        }
        if stage == PoseStage {
          return OK;
        }
      }
      if stage == ArmStage {
        var armed := CallWithRetry(Arm, armTries);
        return if armed then OK else FAILED;
      }
      if stage == ReleaseStage {
        var configured := CallTrigger(Configure);
        if !configured {
          return FAILED;
        }
      }
      var armed := CallWithRetry(Arm, armTries);
      if !armed {
        return FAILED;
      }
      var released := CallWithRetry(Release, releaseTries);
      if !released {
        return FAILED;
      }
      var enabled := CallTrigger(Enable);
      if !enabled {
        var _ := CallTrigger(Hold);
        return FAILED;
      }
      return OK;
    }
  }

  // ------------------------------------------------------------------------------- what each stage calls

  // Without an accepted profile nothing is called.
  lemma NoProfileNoCalls(stage: Stage, reply: nat -> bool, calls: seq<Service>, code: int)
    requires IsTrace(stage, false, reply, calls, code)
    ensures calls == [] && code == 5
  {
    if calls != [] {
      CallFollows(stage, false, reply, calls, 0);
    }
  }

  lemma CallFollows(stage: Stage, profileOk: bool, reply: nat -> bool, calls: seq<Service>, i: nat)
    requires Follow(stage, profileOk, reply, calls) && i < |calls|
    ensures Proceeds(stage, Before(stage, profileOk, reply, calls, i), Send(calls[i]))
  {
    assert FollowsAt(stage, profileOk, reply, calls, i);
  }

  // The arm stage calls nothing but arm, again after each refusal and never after a grant.
  lemma ArmStageOnlyArms(reply: nat -> bool, calls: seq<Service>, code: int)
    requires IsTrace(ArmStage, true, reply, calls, code)
    ensures forall i :: 0 <= i < |calls| ==> calls[i] == Arm
    ensures forall i :: 0 <= i < |calls| - 1 ==> !reply(i)
    ensures code == if calls != [] && reply(|calls| - 1) then 0 else 2
  {
    forall i | 0 <= i < |calls| ensures calls[i] == Arm && (i > 0 ==> !reply(i - 1)) {
      ArmCall(reply, calls, i);
    }
    forall i | 0 <= i < |calls| - 1 ensures !reply(i) {
      ArmCall(reply, calls, i + 1);
    }
  }

  lemma {:induction false} ArmCall(reply: nat -> bool, calls: seq<Service>, i: nat)
    requires Follow(ArmStage, true, reply, calls) && i < |calls|
    ensures calls[i] == Arm && (i > 0 ==> !reply(i - 1))
  {
    hide Follow;
    CallFollows(ArmStage, true, reply, calls, i);
    if i > 0 {
      ArmCall(reply, calls, i - 1);
    }
  }

  // The pose stage configures, then moves, and stops at the first refusal.
  lemma PoseStageOnlyMoves(reply: nat -> bool, calls: seq<Service>, code: int)
    requires IsTrace(PoseStage, true, reply, calls, code)
    ensures calls == [Configure] || (calls == [Configure, Move] && reply(0))
    ensures code == if |calls| == 2 && reply(1) then 0 else 2
  {
    AtMostTwo(PoseStage, reply, calls);
  }

  // The disable stage disables, then holds, and stops at the first refusal.
  lemma DisableStageOnlyHolds(reply: nat -> bool, calls: seq<Service>, code: int)
    requires IsTrace(DisableStage, true, reply, calls, code)
    ensures calls == [Disable] || (calls == [Disable, Hold] && reply(0))
    ensures code == if |calls| == 2 && reply(1) then 0 else 2
  {
    AtMostTwo(DisableStage, reply, calls);
  }

  lemma AtMostTwo(stage: Stage, reply: nat -> bool, calls: seq<Service>)
    requires Follow(stage, true, reply, calls) && (stage == PoseStage || stage == DisableStage)
    ensures |calls| <= 2
    ensures |calls| > 0 ==> calls[0] == if stage == PoseStage then Configure else Disable
    ensures |calls| > 1 ==> reply(0) && calls[1] == if stage == PoseStage then Move else Hold
  {
    hide Follow;
    if |calls| > 0 {
      CallFollows(stage, true, reply, calls, 0);
    }
    if |calls| > 1 {
      CallFollows(stage, true, reply, calls, 1);
    }
    if |calls| > 2 {
      CallFollows(stage, true, reply, calls, 2);
    }
  }

  // The order of calls on the way to live authority: arm and release are repeated until granted,
  // everything else is called once; an enable that is refused is followed by a hold, and nothing
  // follows that.
  predicate NextOnTheWay(stage: Stage, service: Service, granted: bool, next: Service) {
    match service
    case Configure => granted && next == if stage == ReleaseStage then Arm else Move
    case Move => granted && next == Arm
    case Arm => next == if granted then Release else Arm
    case Release => next == if granted then Enable else Release
    case Enable => !granted && next == Hold
    case _ => false
  }

  lemma LiveStagesInOrder(stage: Stage, reply: nat -> bool, calls: seq<Service>, code: int)
    requires stage == LiveStage || stage == ReleaseStage
    requires IsTrace(stage, true, reply, calls, code)
    ensures calls != [] && calls[0] == Configure
    ensures forall i :: 0 <= i < |calls| - 1 ==> NextOnTheWay(stage, calls[i], reply(i), calls[i + 1])
    ensures code == if calls[|calls| - 1] == Enable && reply(|calls| - 1) then 0 else 2
  {
    hide NextOnTheWay, Follow;
    if calls != [] {
      CallFollows(stage, true, reply, calls, 0);
      OnTheWay(stage, reply, calls, |calls| - 1);
    }
    forall i | 0 <= i < |calls| - 1
      ensures NextOnTheWay(stage, calls[i], reply(i), calls[i + 1])
    {
      OnTheWay(stage, reply, calls, i + 1);
    }
  }

  // Services of the live and release stages.
  predicate OfTheWay(stage: Stage, service: Service) {
    service != Disable && (stage == ReleaseStage ==> service != Move)
  }

  lemma WayStep(stage: Stage, service: Service, granted: bool, next: Service)
    requires stage == LiveStage || stage == ReleaseStage
    requires OfTheWay(stage, service)
    requires Proceeds(stage, AfterReply(stage, service, granted), Send(next))
    ensures NextOnTheWay(stage, service, granted, next) && OfTheWay(stage, next)
  {
  }

  lemma {:induction false} OnTheWay(stage: Stage, reply: nat -> bool, calls: seq<Service>, i: nat)
    requires stage == LiveStage || stage == ReleaseStage
    requires Follow(stage, true, reply, calls) && i < |calls|
    ensures OfTheWay(stage, calls[i])
    ensures i > 0 ==> NextOnTheWay(stage, calls[i - 1], reply(i - 1), calls[i])
  {
    hide Follow, NextOnTheWay;
    CallFollows(stage, true, reply, calls, i);
    if i > 0 {
      OnTheWay(stage, reply, calls, i - 1);
      hide Proceeds, AfterReply, OfTheWay;
      WayStep(stage, calls[i - 1], reply(i - 1), calls[i]);
    }
  }
}
