/**
 The servo bus worker: one thread that owns the UART and, cycle by cycle, answers torque requests,
 decides what to write, writes it, sweeps the feedback and plans its next cycle. What the world
 supplies to a cycle (times, the command buffer's content, I/O results) is its input.
 */
module BusWorker {
  import opened Outcome
  import opened Poses
  import opened BusSchedule
  import opened FeedbackSweep
  import opened Bytes
  import opened Protocol
  import Calibration
  import T = TorqueHandshake

  type Steps = s: seq<int> | |s| == NUM_JOINTS witness seq(NUM_JOINTS, _ => 0)

  datatype Joint = Joint(
    servoId: Byte, calibration: Calibration.Joint, speed: UInt16, acceleration: Byte)

  // Times are nanoseconds, timeouts milliseconds, `stepsPerRadian` positive.
  datatype Config = Config(
    joints: seq<Joint>, stepsPerRadian: real,
    cyclePeriod: int, commandPeriod: int, commandTimeoutMs: int, holdLast: bool,
    writesEnabled: bool, requireFullFeedback: bool, startupHold: bool,
    rotates: bool, stride: nat, skipUnchanged: bool, keepaliveMs: int)
  {
    predicate Valid() {
      && |joints| == NUM_JOINTS && stepsPerRadian > 0.0
      && (forall i :: 0 <= i < NUM_JOINTS ==> Calibration.Valid(joints[i].calibration))
      && cyclePeriod > 0 && commandPeriod > 0
    }
  }

  // A copy of the command buffer.
  datatype Command = Command(target: Pose, receipt: int, sequence: nat, valid: bool)

  // One cycle's input: when it starts; the outcome of a torque broadcast, if one was pending; the
  // command copied; the outcome and end of the SyncWrite, should there be one; the twelve feedback
  // transactions; and the time at the end.
  datatype Cycle = Cycle(
    start: int, torque: Option<bool>, command: Command, writeOk: bool, writeEnd: int,
    replies: Replies, end: int)

  // The worker's local variables.
  datatype Worker = Worker(
    bus: Bus, ready: bool,
    lastSafe: Option<Steps>, lastWritten: Option<Steps>, lastWriteTime: int, writtenSequence: nat,
    writes: nat, writeErrors: nat, cycles: nat,
    nextCycle: int, nextWrite: int)

  function Started(now: int): Worker {
    Worker(Bus(seq(NUM_JOINTS, _ => Sample(0, false, false, 0, 0)), NO_COUNTS, 0), false,
           None, None, 0, 0, 0, 0, 0, now, now)
  }

  const NS_PER_MS := 1_000_000

  predicate Stale(c: Config, x: Cycle) {
    !x.command.valid || x.start - x.command.receipt > c.commandTimeoutMs * NS_PER_MS
  }

  function CommandSteps(c: Config, target: Pose): (s: Steps)
    requires c.Valid()
    ensures forall i :: 0 <= i < NUM_JOINTS ==>
              c.joints[i].calibration.minStep <= s[i] <= c.joints[i].calibration.maxStep
  {
    seq(NUM_JOINTS, i requires 0 <= i < NUM_JOINTS =>
      Calibration.RadiansToSteps(c.joints[i].calibration, c.stepsPerRadian, target[i]))
  }

  function RawSteps(samples: Samples): (s: Steps)
    ensures forall i :: 0 <= i < NUM_JOINTS ==> s[i] == samples[i].raw
  {
    seq(NUM_JOINTS, i requires 0 <= i < NUM_JOINTS => samples[i].raw)
  }

  predicate AllSampled(samples: Samples) {
    forall i :: 0 <= i < NUM_JOINTS ==> samples[i].hasSample
  }

  // ------------------------------------------------------------------------------- the cycle

  function AfterTorque(w: Worker, torque: Option<bool>): Worker {
    if torque == Some(false)
    then w.(bus := w.bus.(counters := w.bus.counters.(ioErrors := w.bus.counters.ioErrors + 1)))
    else w
  }

  predicate WriteDue(w: Worker, x: Cycle) { x.start >= w.nextWrite }

  predicate MayWrite(c: Config, w: Worker, x: Cycle) {
    WriteDue(w, x) && c.writesEnabled && (!c.requireFullFeedback || w.ready)
  }

  // The vector to write, and the command sequence it stands for.
  datatype Selection = Selection(steps: Steps, sequence: nat)

  function Select(c: Config, w: Worker, x: Cycle): Option<Selection>
    requires c.Valid()
  {
    if x.command.valid && !Stale(c, x) then
      Some(Selection(CommandSteps(c, x.command.target), x.command.sequence))
    else if x.command.valid then
      if c.holdLast && w.lastSafe.Some? then Some(Selection(w.lastSafe.value, w.writtenSequence))
      else None
    else if c.startupHold && w.ready then Some(Selection(RawSteps(w.bus.samples), 0))
    else if c.holdLast && w.lastSafe.Some? then Some(Selection(w.lastSafe.value, w.writtenSequence))
    else None
  }

  // Whether a selected vector is sent: always, or if it changed or the keepalive is due.
  predicate Sends(c: Config, w: Worker, x: Cycle, steps: Steps) {
    || !c.skipUnchanged
    || w.lastWritten != Some(steps)
    || (c.keepaliveMs > 0 && (w.lastWritten == None
                              || x.start - w.lastWriteTime >= c.keepaliveMs * NS_PER_MS))
  }

  // The SyncWrite of a cycle, if it makes one.
  function Attempt(c: Config, w: Worker, x: Cycle): Option<Selection>
    requires c.Valid()
  {
    if MayWrite(c, w, x) then
      var selected := Select(c, w, x);
      if selected.Some? && Sends(c, w, x, selected.value.steps) then selected else None
    else None
  }

  function AfterWrite(c: Config, w: Worker, x: Cycle): (v: Worker)
    requires c.Valid()
    ensures v.bus == w.bus && v.ready == w.ready && v.cycles == w.cycles
    ensures v.nextCycle == w.nextCycle && v.nextWrite == w.nextWrite
  {
    if !MayWrite(c, w, x) || Select(c, w, x) == None then w
    else
      var s := Select(c, w, x).value;
      var v := w.(lastSafe := Some(s.steps));
      if !Sends(c, w, x, s.steps) then v
      else if x.writeOk then
        v.(lastWritten := Some(s.steps), lastWriteTime := x.writeEnd, writtenSequence := s.sequence,
           writes := v.writes + 1)
      else v.(writeErrors := v.writeErrors + 1)
  }

  function AfterSweep(c: Config, w: Worker, x: Cycle): Worker {
    var bus := FullSweep(w.bus, x.replies, c.rotates, c.stride);
    var ready := AllSampled(bus.samples);
    w.(bus := bus, ready := ready,
       lastSafe := if ready && w.lastSafe == None && c.startupHold then Some(RawSteps(bus.samples))
                   else w.lastSafe)
  }

  function NextWorker(c: Config, w: Worker, x: Cycle): Worker
    requires c.Valid()
  {
    var v := AfterSweep(c, AfterWrite(c, AfterTorque(w, x.torque), x), x);
    v.(cycles := w.cycles + 1,
       nextWrite := BusSchedule.NextWrite(w.nextWrite, c.commandPeriod, x.start),
       nextCycle := BusSchedule.NextCycle(w.nextCycle, c.cyclePeriod, x.end))
  }

  // The worker's loop body, on its own variables.
  class ServoBus {
    const config: Config
    const reader: Reader
    var ready: bool
    var lastSafe: Option<Steps>
    var lastWritten: Option<Steps>
    var lastWriteTime: int
    var writtenSequence: nat
    var writes: nat
    var writeErrors: nat
    var cycles: nat
    var nextCycle: int
    var nextWrite: int

    function State(): Worker
      reads this, reader
    {
      Worker(reader.State(), ready, lastSafe, lastWritten, lastWriteTime, writtenSequence,
             writes, writeErrors, cycles, nextCycle, nextWrite)
    }

    constructor (config: Config, now: int)
      requires config.Valid()
      ensures this.config == config && State() == Started(now) && fresh(reader)
    {
      this.config := config;
      reader := new Reader();
      ready, lastSafe, lastWritten := false, None, None;
      lastWriteTime, writtenSequence, writes, writeErrors, cycles := 0, 0, 0, 0, 0;
      nextCycle, nextWrite := now, now;
    }

    method WorkerCycle(x: Cycle)
      requires config.Valid()
      modifies this, reader
      ensures State() == NextWorker(config, old(State()), x)
    {
      hide AfterWrite, FullSweep, BusSchedule.NextCycle, BusSchedule.NextWrite;
      if x.torque == Some(false) {
        reader.counters := reader.counters.(ioErrors := reader.counters.ioErrors + 1);
      }
      assert State() == AfterTorque(old(State()), x.torque);
      var writeDue := x.start >= nextWrite;
      WriteStage(x);
      reader.PerformFeedbackSweep(x.replies, config.rotates, config.stride);
      ready := AllFeedbackReady();
      if ready && lastSafe == None && config.startupHold {
        lastSafe := Some(RawSteps(reader.samples));
      }
      cycles := cycles + 1;
      AdvanceClocks(x, writeDue);
    }

    method AdvanceClocks(x: Cycle, writeDue: bool)
      requires config.Valid() && writeDue == (x.start >= nextWrite)
      modifies this
      ensures State() == old(State()).(
        nextWrite := BusSchedule.NextWrite(old(nextWrite), config.commandPeriod, x.start),
        nextCycle := BusSchedule.NextCycle(old(nextCycle), config.cyclePeriod, x.end))
    {
      if writeDue {
        nextWrite := AdvanceNextWrite(nextWrite, config.commandPeriod, x.start);
      }
      nextCycle := nextCycle + config.cyclePeriod;
      if x.end - nextCycle > config.cyclePeriod {
        var periodsBehind := (x.end - nextCycle) / config.cyclePeriod + 1;
        nextCycle := nextCycle + config.cyclePeriod * periodsBehind;
      }
    }

    method AllFeedbackReady() returns (all: bool)
      ensures all == AllSampled(reader.samples)
    {
      for i := 0 to NUM_JOINTS
        invariant forall j :: 0 <= j < i ==> reader.samples[j].hasSample
      {
        if !reader.samples[i].hasSample {
          return false;
        }
      }
      return true;
    }

    method WriteStage(x: Cycle)
      requires config.Valid()
      modifies this
      ensures State() == AfterWrite(config, old(State()), x)
    {
      hide CommandSteps, RawSteps;
      var stale := !x.command.valid
        || x.start - x.command.receipt > config.commandTimeoutMs * NS_PER_MS;
      if !(x.start >= nextWrite && config.writesEnabled && (!config.requireFullFeedback || ready)) {
        return;
      }
      var target: Option<Steps> := None;
      var sequence := writtenSequence;
      if x.command.valid && !stale {
        target := Some(CommandSteps(config, x.command.target));
        sequence := x.command.sequence;
      } else if x.command.valid {
        if config.holdLast && lastSafe.Some? {
          target := lastSafe;
        }
      } else if config.startupHold && ready {
        target := Some(RawSteps(reader.samples));
        sequence := 0;
      } else if config.holdLast && lastSafe.Some? {
        target := lastSafe;
      }
      assert (if target.Some? then Some(Selection(target.value, sequence)) else None)
             == Select(config, old(State()), x);
      if target.Some? {
        lastSafe := target;
        SendIfNeeded(x, target.value, sequence);
      }
    }

    method SendIfNeeded(x: Cycle, steps: Steps, sequence: nat)
      modifies this
      ensures
        var w := old(State());
        State() ==
          if !Sends(config, w, x, steps) then w
          else if x.writeOk then
            w.(lastWritten := Some(steps), lastWriteTime := x.writeEnd,
               writtenSequence := sequence, writes := w.writes + 1)
          else w.(writeErrors := w.writeErrors + 1)
    {
      var changed := lastWritten != Some(steps);
      var keepaliveDue := config.keepaliveMs > 0
        && (lastWritten == None || x.start - lastWriteTime >= config.keepaliveMs * NS_PER_MS);
      if !config.skipUnchanged || changed || keepaliveDue {
        if x.writeOk {
          writes := writes + 1;
          lastWritten, lastWriteTime, writtenSequence := Some(steps), x.writeEnd, sequence;
        } else {
          writeErrors := writeErrors + 1;
        }
      }
    }
  }

  // ------------------------------------------------------------------------------- runs

  // Successive copies of the command buffer: it is valid from its first store on, and every store
  // raises its sequence number.
  ghost predicate FromBuffer(cycles: seq<Cycle>) {
    && (forall i :: 0 <= i < |cycles| ==>
          (cycles[i].command.valid <==> cycles[i].command.sequence > 0))
    && (forall i, j :: 0 <= i <= j < |cycles| ==>
          cycles[i].command.sequence <= cycles[j].command.sequence)
    && (forall i, j :: 0 <= i <= j < |cycles| ==>
          cycles[i].command.sequence == cycles[j].command.sequence ==>
            cycles[i].command == cycles[j].command)
  }

  function Starts(cycles: seq<Cycle>): (s: seq<int>)
    ensures |s| == |cycles| && forall i :: 0 <= i < |s| ==> s[i] == cycles[i].start
  {
    seq(|cycles|, i requires 0 <= i < |cycles| => cycles[i].start)
  }

  ghost predicate IsRun(c: Config, t0: int, workers: seq<Worker>, cycles: seq<Cycle>) {
    && c.Valid() && |workers| == |cycles| + 1
    && workers[0] == Started(t0)
    && (forall i :: 0 <= i < |cycles| ==> workers[i + 1] == NextWorker(c, workers[i], cycles[i]))
    && Rising(t0, Starts(cycles))
    && FromBuffer(cycles)
  }

  // ------------------------------------------------------------------------------- when

  lemma {:induction false} DeadlineAgrees(
    c: Config, t0: int, workers: seq<Worker>, cycles: seq<Cycle>, n: nat)
    requires IsRun(c, t0, workers, cycles) && n <= |cycles|
    ensures workers[n].nextWrite == Deadline(t0, c.commandPeriod, Starts(cycles), n)
  {
    hide AfterWrite, AfterSweep, AfterTorque, FromBuffer, BusSchedule.NextCycle, BusSchedule.NextWrite;
    if n > 0 {
      DeadlineAgrees(c, t0, workers, cycles, n - 1);
    }
  }

  // A cycle of the worker is write-due exactly when it is the first to start in its slot of the
  // command period, so by time t there were at most floor((t - t0) / period) + 1 such cycles.
  lemma WriteDueOncePerSlot(
    c: Config, t0: int, workers: seq<Worker>, cycles: seq<Cycle>, n: nat, t: int)
    requires IsRun(c, t0, workers, cycles) && n < |cycles| && cycles[n].start <= t
    ensures WriteDue(workers[n], cycles[n]) <==>
              forall m :: 0 <= m < n ==>
                Slot(t0, c.commandPeriod, cycles[m].start) != Slot(t0, c.commandPeriod, cycles[n].start)
    ensures DueCount(t0, c.commandPeriod, Starts(cycles), n + 1) <= (t - t0) / c.commandPeriod + 1
  {
    hide NextWorker, Slot, Deadline, FromBuffer, DueCount;
    DeadlineAgrees(c, t0, workers, cycles, n);
    DueIsFirstInSlot(t0, c.commandPeriod, Starts(cycles), n);
    AtMostOnePerSlot(t0, c.commandPeriod, Starts(cycles), n + 1, t);
  }

  // The cycle start stays on its grid, and never falls behind by more than one period.
  lemma {:induction false} CyclesOnGrid(
    c: Config, t0: int, workers: seq<Worker>, cycles: seq<Cycle>, n: nat)
    requires IsRun(c, t0, workers, cycles) && n <= |cycles|
    ensures (workers[n].nextCycle - t0) % c.cyclePeriod == 0
    ensures n > 0 ==> cycles[n - 1].end - workers[n].nextCycle <= c.cyclePeriod
  {
    hide AfterWrite, AfterSweep, AfterTorque, FromBuffer, BusSchedule.NextCycle, BusSchedule.NextWrite,
         Rising;
    if n > 0 {
      CyclesOnGrid(c, t0, workers, cycles, n - 1);
      CatchUp(t0, c.cyclePeriod, workers[n - 1].nextCycle, cycles[n - 1].end);
    }
  }

  // ------------------------------------------------------------------------------- what

  // The cycle selects a fresh command.
  predicate Fresh(c: Config, w: Worker, x: Cycle) {
    MayWrite(c, w, x) && x.command.valid && !Stale(c, x)
  }

  // What a cycle does to the vector to fall back on.
  lemma SafeStep(c: Config, w: Worker, x: Cycle)
    requires c.Valid() && w.ready == AllSampled(w.bus.samples)
    ensures var v := NextWorker(c, w, x);
            && v.ready == AllSampled(v.bus.samples)
            && (Fresh(c, w, x) ==> v.lastSafe == Some(CommandSteps(c, x.command.target)))
            && (!Fresh(c, w, x) ==>
                  || v.lastSafe == w.lastSafe
                  || (!x.command.valid && w.ready && v.lastSafe == Some(RawSteps(w.bus.samples)))
                  || (w.lastSafe == None && v.ready && v.lastSafe == Some(RawSteps(v.bus.samples))))
  {
    hide CommandSteps, RawSteps, AllSampled, FullSweep, BusSchedule.NextCycle, BusSchedule.NextWrite;
  }

  // The last of the first n cycles that selected a fresh command.
  function LastFresh(c: Config, workers: seq<Worker>, cycles: seq<Cycle>, n: nat): (last: Option<nat>)
    requires n <= |cycles| < |workers|
    ensures last.Some? ==> last.value < n && Fresh(c, workers[last.value], cycles[last.value])
    ensures forall k :: (if last.Some? then last.value < k else 0 <= k) && k < n ==>
              !Fresh(c, workers[k], cycles[k])
  {
    if n == 0 then None
    else if Fresh(c, workers[n - 1], cycles[n - 1]) then Some(n - 1)
    else LastFresh(c, workers, cycles, n - 1)
  }

  // The raw positions of a state, no later than n, in which every joint had a sample.
  ghost predicate IsRaw(workers: seq<Worker>, n: nat, steps: Steps)
    requires n < |workers|
  {
    exists k :: 0 <= k <= n && AllSampled(workers[k].bus.samples) && RawSteps(workers[k].bus.samples) == steps
  }

  // What the worker would fall back on: the conversion of the last fresh command selected, or,
  // before any, raw positions.
  lemma {:induction false} SafeIsLastFresh(
    c: Config, t0: int, workers: seq<Worker>, cycles: seq<Cycle>, n: nat)
    requires IsRun(c, t0, workers, cycles) && n <= |cycles|
    ensures workers[n].ready == AllSampled(workers[n].bus.samples)
    ensures match LastFresh(c, workers, cycles, n)
            case Some(m) => workers[n].lastSafe == Some(CommandSteps(c, cycles[m].command.target))
            case None => workers[n].lastSafe.Some? ==> IsRaw(workers, n, workers[n].lastSafe.value)
  {
    hide NextWorker, Fresh, CommandSteps, RawSteps, AllSampled, Rising;
    if n == 0 {
      NothingSampled(workers[0], t0);
    } else {
      SafeIsLastFresh(c, t0, workers, cycles, n - 1);
      SafeStep(c, workers[n - 1], cycles[n - 1]);
      ValidSinceFresh(c, workers, cycles, n - 1);
    }
  }

  lemma NothingSampled(w: Worker, t0: int)
    requires w == Started(t0)
    ensures w.ready == AllSampled(w.bus.samples) && w.lastSafe == None
  {
    assert !w.bus.samples[0].hasSample;
  }

  lemma ValidSinceFresh(c: Config, workers: seq<Worker>, cycles: seq<Cycle>, n: nat)
    requires n < |cycles| < |workers| && FromBuffer(cycles)
    ensures LastFresh(c, workers, cycles, n).Some? ==> cycles[n].command.valid
  {
    hide MayWrite;
  }

  // What a SyncWrite sends, by what the command buffer held.
  lemma AttemptCases(c: Config, w: Worker, x: Cycle)
    requires c.Valid()
    ensures var a := Attempt(c, w, x);
            a.Some? ==>
              || (Fresh(c, w, x) && a.value.steps == CommandSteps(c, x.command.target)
                  && a.value.sequence == x.command.sequence)
              || (!Fresh(c, w, x) && c.holdLast && w.lastSafe == Some(a.value.steps)
                  && a.value.sequence == w.writtenSequence)
              || (!x.command.valid && w.ready && a.value.steps == RawSteps(w.bus.samples)
                  && a.value.sequence == 0)
  {
    hide CommandSteps, RawSteps, Sends;
  }

  // Where every SyncWrite vector comes from: the conversion of the last fresh command selected at
  // this or an earlier write-due cycle; only if there never was one, the raw positions of a state
  // in which every joint had been sampled.
  lemma WriteProvenance(c: Config, t0: int, workers: seq<Worker>, cycles: seq<Cycle>, n: nat)
    requires IsRun(c, t0, workers, cycles) && n < |cycles|
    requires Attempt(c, workers[n], cycles[n]).Some?
    ensures var steps := Attempt(c, workers[n], cycles[n]).value.steps;
            match LastFresh(c, workers, cycles, n + 1)
            case Some(m) =>
              && WriteDue(workers[m], cycles[m]) && !Stale(c, cycles[m])
              && steps == CommandSteps(c, cycles[m].command.target)
            case None => IsRaw(workers, n, steps)
  {
    hide Attempt, NextWorker, Fresh, CommandSteps, RawSteps, AllSampled, Rising, Stale;
    SafeIsLastFresh(c, t0, workers, cycles, n);
    ValidSinceFresh(c, workers, cycles, n);
    AttemptCases(c, workers[n], cycles[n]);
    var last := LastFresh(c, workers, cycles, n + 1);
    if last.Some? {
      FreshMeans(c, workers[last.value], cycles[last.value]);
    }
  }

  lemma FreshMeans(c: Config, w: Worker, x: Cycle)
    ensures Fresh(c, w, x) ==> WriteDue(w, x) && !Stale(c, x) && x.command.valid
  {
  }

  // With stop_writes a stale cycle writes nothing from the first command on.
  lemma StaleStopsWrites(
    c: Config, t0: int, workers: seq<Worker>, cycles: seq<Cycle>, m: nat, n: nat)
    requires IsRun(c, t0, workers, cycles) && m <= n < |cycles|
    requires !c.holdLast && cycles[m].command.valid && Stale(c, cycles[n])
    ensures Attempt(c, workers[n], cycles[n]) == None
    ensures workers[n + 1].writes == workers[n].writes
    ensures workers[n + 1].lastWritten == workers[n].lastWritten
  {
    hide CommandSteps, RawSteps, FullSweep, AllSampled, BusSchedule.NextCycle, BusSchedule.NextWrite,
         Rising;
  }

  // The sequence number published for the last write never decreases, and never runs ahead of the
  // command buffer.
  lemma {:induction false} WrittenSequenceRises(
    c: Config, t0: int, workers: seq<Worker>, cycles: seq<Cycle>, m: nat, n: nat)
    requires IsRun(c, t0, workers, cycles) && m <= n <= |cycles|
    ensures workers[m].writtenSequence <= workers[n].writtenSequence
    ensures workers[n].writtenSequence <= if n == 0 then 0 else cycles[n - 1].command.sequence
    decreases n
  {
    hide NextWorker, Rising;
    if n > 0 {
      WrittenSequenceRises(c, t0, workers, cycles, if m < n then m else n - 1, n - 1);
      SequenceStep(c, workers[n - 1], cycles[n - 1]);
    }
  }

  lemma SequenceStep(c: Config, w: Worker, x: Cycle)
    requires c.Valid() && w.writtenSequence <= x.command.sequence
    requires x.command.valid <==> x.command.sequence > 0
    ensures w.writtenSequence <= NextWorker(c, w, x).writtenSequence <= x.command.sequence
  {
    hide CommandSteps, RawSteps, FullSweep, AllSampled, BusSchedule.NextCycle, BusSchedule.NextWrite;
  }

  // ------------------------------------------------------------------------------- in force

  // The vector the servos were last sent successfully is the last one selected, except after a
  // failed write: a vector is skipped only if it is already in force.
  lemma SelectedIsInForce(c: Config, w: Worker, x: Cycle)
    requires c.Valid() && MayWrite(c, w, x) && Select(c, w, x).Some?
    requires Attempt(c, w, x).Some? ==> x.writeOk
    ensures NextWorker(c, w, x).lastWritten == Some(Select(c, w, x).value.steps)
  {
    hide CommandSteps, RawSteps, FullSweep, AllSampled, BusSchedule.NextCycle, BusSchedule.NextWrite;
  }

  // The published sequence number names the command whose conversion was last written.
  ghost predicate Named(c: Config, cycles: seq<Cycle>, n: nat, w: Worker)
    requires c.Valid() && n <= |cycles|
  {
    exists m :: 0 <= m < n && cycles[m].command.sequence == w.writtenSequence
                && w.lastWritten == Some(CommandSteps(c, cycles[m].command.target))
  }

  // A write that succeeds on a stale command.
  predicate HeldWrite(c: Config, w: Worker, x: Cycle)
    requires c.Valid()
  {
    Attempt(c, w, x).Some? && x.writeOk && !Fresh(c, w, x)
  }

  // Whether the vector last written was selected from a command, at its own cycle or held since;
  // otherwise it was raw positions, or nothing was written yet.
  function CommandWritten(c: Config, workers: seq<Worker>, cycles: seq<Cycle>, n: nat): bool
    requires c.Valid() && n <= |cycles| < |workers|
  {
    if n == 0 then false
    else if Attempt(c, workers[n - 1], cycles[n - 1]).Some? && cycles[n - 1].writeOk
    then LastFresh(c, workers, cycles, n).Some?
    else CommandWritten(c, workers, cycles, n - 1)
  }

  // The published number is right: it names what was last written, and it is 0 only while that
  // is no command's.
  ghost predicate Truthful(c: Config, workers: seq<Worker>, cycles: seq<Cycle>, n: nat)
    requires c.Valid() && n <= |cycles| < |workers|
  {
    if workers[n].writtenSequence > 0 then Named(c, cycles, n, workers[n])
    else !CommandWritten(c, workers, cycles, n)
  }

  // A held write of a command whose own write had failed.
  predicate Misnames(c: Config, workers: seq<Worker>, cycles: seq<Cycle>, n: nat)
    requires c.Valid() && n < |cycles| < |workers|
  {
    HeldWrite(c, workers[n], cycles[n]) &&
    if workers[n].writtenSequence > 0 then workers[n].lastSafe != workers[n].lastWritten
    else LastFresh(c, workers, cycles, n).Some?
  }

  // A cycle breaks the naming exactly when it succeeds in holding a command other than the one
  // last written, or, while the number is still 0, in holding any command.
  lemma NamingBreaksExactlyOnHeldRetry(
    c: Config, t0: int, workers: seq<Worker>, cycles: seq<Cycle>, n: nat)
    requires IsRun(c, t0, workers, cycles) && n < |cycles| && Truthful(c, workers, cycles, n)
    ensures Truthful(c, workers, cycles, n + 1) <==> !Misnames(c, workers, cycles, n)
  {
    hide NextWorker, Attempt, Fresh, CommandSteps, RawSteps, AllSampled, Rising, Stale;
    var w, x, v := workers[n], cycles[n], workers[n + 1];
    WriteEffect(c, w, x);
    AttemptCases(c, w, x);
    WrittenSequenceRises(c, t0, workers, cycles, n, n);
    ValidSinceFresh(c, workers, cycles, n);
    FreshMeans(c, w, x);
    if Named(c, cycles, n, w) {
      var m :| 0 <= m < n && cycles[m].command.sequence == w.writtenSequence
               && w.lastWritten == Some(CommandSteps(c, cycles[m].command.target));
    }
    if Attempt(c, w, x).Some? && x.writeOk && Fresh(c, w, x) {
      assert v.lastWritten == Some(CommandSteps(c, cycles[n].command.target));
    }
  }

  // So over a run the number has always been right exactly if no cycle held a failed command.
  lemma {:induction false} NamingHoldsExactly(
    c: Config, t0: int, workers: seq<Worker>, cycles: seq<Cycle>, n: nat)
    requires IsRun(c, t0, workers, cycles) && n <= |cycles|
    ensures (forall k: nat :: k <= n ==> Truthful(c, workers, cycles, k)) <==>
            (forall k: nat :: k < n ==> !Misnames(c, workers, cycles, k))
  {
    hide NextWorker, Attempt, Misnames, Rising, FromBuffer;
    if n == 0 {
      assert Truthful(c, workers, cycles, 0);
    } else {
      hide Truthful;
      NamingHoldsExactly(c, t0, workers, cycles, n - 1);
      if forall k: nat :: k <= n - 1 ==> Truthful(c, workers, cycles, k) {
        NamingBreaksExactlyOnHeldRetry(c, t0, workers, cycles, n - 1);
      }
    }
  }

  lemma WriteEffect(c: Config, w: Worker, x: Cycle)
    requires c.Valid()
    ensures var v, a := NextWorker(c, w, x), Attempt(c, w, x);
            if a.Some? && x.writeOk
            then v.lastWritten == Some(a.value.steps) && v.writtenSequence == a.value.sequence
                 && v.lastWriteTime == x.writeEnd
            else v.lastWritten == w.lastWritten && v.writtenSequence == w.writtenSequence
                 && v.lastWriteTime == w.lastWriteTime
  {
    hide CommandSteps, RawSteps, FullSweep, AllSampled, BusSchedule.NextCycle, BusSchedule.NextWrite;
  }

  // It does break, in a run of three cycles: every joint answers, the first command's write fails,
  // and when it has grown stale a hold of it succeeds. The servos then follow command 1 while the
  // published number still says that none was written.
  lemma FailedFirstWriteMisnames(c: Config, t0: int, target: Pose, replies: Replies)
    returns (workers: seq<Worker>, cycles: seq<Cycle>)
    requires c.Valid() && c.holdLast && c.writesEnabled && c.commandTimeoutMs >= 0
    requires forall i :: 0 <= i < NUM_JOINTS ==> replies[i].Reply?
    ensures IsRun(c, t0, workers, cycles) && |cycles| == 3
    ensures workers[3].lastWritten == Some(CommandSteps(c, target)) && workers[3].writtenSequence == 0
    ensures cycles[1].command.sequence == 1 && cycles[1].command.target == target
    ensures !Truthful(c, workers, cycles, 3)
  {
    hide NextWorker, CommandSteps, AllSampled, Attempt, Truthful;
    var t1 := t0 + c.commandPeriod;
    var t2 := t1 + c.commandPeriod + c.commandTimeoutMs * NS_PER_MS + 1;
    var none, command := Command(target, 0, 0, false), Command(target, t1, 1, true);
    var x0 := Cycle(t0, None, none, true, t0, replies, t0);
    var x1 := Cycle(t1, None, command, false, t1, replies, t1);
    var x2 := Cycle(t2, None, command, true, t2, replies, t2);
    var w0 := Started(t0);
    var w1 := NextWorker(c, w0, x0);
    var w2 := NextWorker(c, w1, x1);
    var w3 := NextWorker(c, w2, x2);
    workers, cycles := [w0, w1, w2, w3], [x0, x1, x2];
    FirstCycleWaits(c, w0, x0);
    FreshWriteFails(c, w1, x1);
    HeldWriteSucceeds(c, w2, x2, CommandSteps(c, target));
    assert LastFresh(c, workers, cycles, 2) == Some(1);
    StaysMisnamed(c, workers, cycles);
  }

  // Before any command and any sample there is nothing to write.
  lemma FirstCycleWaits(c: Config, w: Worker, x: Cycle)
    requires c.Valid() && !x.command.valid && !w.ready && w.lastSafe == None
    requires x.start >= w.nextWrite && forall i :: 0 <= i < NUM_JOINTS ==> x.replies[i].Reply?
    ensures var v := NextWorker(c, w, x);
            && v.ready && v.lastWritten == w.lastWritten && v.writtenSequence == w.writtenSequence
            && v.nextWrite <= x.start + c.commandPeriod
  {
    hide RawSteps, FullSweep, BusSchedule.NextCycle, BusSchedule.NextWrite, AllSampled;
    AllAnswer(c, w, x);
  }

  lemma AllAnswer(c: Config, w: Worker, x: Cycle)
    requires c.Valid() && forall i :: 0 <= i < NUM_JOINTS ==> x.replies[i].Reply?
    ensures NextWorker(c, w, x).ready
  {
    hide AfterTorque, AfterWrite, RawSteps, FullSweep, BusSchedule.NextCycle, BusSchedule.NextWrite,
         VisitOf;
    var v := NextWorker(c, w, x);
    forall joint: JointIndex ensures v.bus.samples[joint].hasSample {
      SampleStep(c, w, x, joint);
    }
  }

  lemma FreshWriteFails(c: Config, w: Worker, x: Cycle)
    requires c.Valid() && Fresh(c, w, x) && !x.writeOk && w.lastWritten == None
    requires forall i :: 0 <= i < NUM_JOINTS ==> x.replies[i].Reply?
    ensures var v := NextWorker(c, w, x);
            && v.ready && v.lastSafe == Some(CommandSteps(c, x.command.target))
            && v.lastWritten == None && v.writtenSequence == w.writtenSequence
            && v.nextWrite <= x.start + c.commandPeriod
  {
    hide CommandSteps, RawSteps, FullSweep, BusSchedule.NextCycle, BusSchedule.NextWrite, AllSampled;
    AllAnswer(c, w, x);
  }

  lemma HeldWriteSucceeds(c: Config, w: Worker, x: Cycle, steps: Steps)
    requires c.Valid() && c.holdLast && MayWrite(c, w, x) && x.command.valid && Stale(c, x) && x.writeOk
    requires w.lastSafe == Some(steps) && w.lastWritten == None
    ensures Attempt(c, w, x).Some? && !Fresh(c, w, x)
    ensures NextWorker(c, w, x).lastWritten == Some(steps)
    ensures NextWorker(c, w, x).writtenSequence == w.writtenSequence
  {
    hide CommandSteps, RawSteps, FullSweep, AllSampled, BusSchedule.NextCycle, BusSchedule.NextWrite;
    WriteEffect(c, w, x);
  }

  lemma StaysMisnamed(c: Config, workers: seq<Worker>, cycles: seq<Cycle>)
    requires c.Valid() && |workers| == 4 && |cycles| == 3 && LastFresh(c, workers, cycles, 2) == Some(1)
    requires Attempt(c, workers[2], cycles[2]).Some? && cycles[2].writeOk && !Fresh(c, workers[2], cycles[2])
    requires workers[3].writtenSequence == 0
    ensures !Truthful(c, workers, cycles, 3)
  {
    hide Attempt, Fresh;
  }

  // ------------------------------------------------------------------------------- accounting

  function TorqueFailures(cycles: seq<Cycle>, n: nat): nat
    requires n <= |cycles|
  {
    if n == 0 then 0
    else TorqueFailures(cycles, n - 1) + if cycles[n - 1].torque == Some(false) then 1 else 0
  }

  function Attempts(c: Config, workers: seq<Worker>, cycles: seq<Cycle>, n: nat): nat
    requires c.Valid() && n <= |cycles| < |workers|
  {
    if n == 0 then 0
    else Attempts(c, workers, cycles, n - 1)
         + if Attempt(c, workers[n - 1], cycles[n - 1]).Some? then 1 else 0
  }

  lemma CountStep(c: Config, w: Worker, x: Cycle, other: nat)
    requires c.Valid() && Balanced(w.bus, other)
    ensures var v := NextWorker(c, w, x);
            && v.cycles == w.cycles + 1
            && Balanced(v.bus, other + if x.torque == Some(false) then 1 else 0)
            && (forall i :: 0 <= i < NUM_JOINTS ==>
                  v.bus.samples[i].okCount + v.bus.samples[i].failCount ==
                    w.bus.samples[i].okCount + w.bus.samples[i].failCount + 1)
            && v.writes + v.writeErrors ==
                 w.writes + w.writeErrors + if Attempt(c, w, x).Some? then 1 else 0
  {
    hide CommandSteps, RawSteps, AllSampled, BusSchedule.NextCycle, BusSchedule.NextWrite, Sweep, Balanced,
         AfterWrite, Attempt;
    WriteCounted(c, w, x);
    var a := AfterTorque(w, x.torque).bus;
    TorqueBalances(w, x.torque, other);
    SweepBalances(a, x.replies, NUM_JOINTS, other + if x.torque == Some(false) then 1 else 0);
    BalanceIgnoresStart(Sweep(a, x.replies, NUM_JOINTS),
                        Rotate(a.readStart, c.rotates, c.stride),
                        other + if x.torque == Some(false) then 1 else 0);
    forall i | 0 <= i < NUM_JOINTS
      ensures var s := Sweep(a, x.replies, NUM_JOINTS).samples[i];
              s.okCount + s.failCount == a.samples[i].okCount + a.samples[i].failCount + 1
    {
      SweepVisitsOnce(a, x.replies, NUM_JOINTS, i);
    }
  }

  lemma WriteCounted(c: Config, w: Worker, x: Cycle)
    requires c.Valid()
    ensures var v := AfterWrite(c, AfterTorque(w, x.torque), x);
            v.writes + v.writeErrors ==
              w.writes + w.writeErrors + if Attempt(c, w, x).Some? then 1 else 0
  {
    hide CommandSteps, RawSteps;
  }

  lemma TorqueBalances(w: Worker, torque: Option<bool>, other: nat)
    requires Balanced(w.bus, other)
    ensures Balanced(AfterTorque(w, torque).bus, other + if torque == Some(false) then 1 else 0)
  {
  }

  lemma BalanceIgnoresStart(b: Bus, start: JointIndex, other: nat)
    ensures Balanced(b.(readStart := start), other) == Balanced(b, other)
  {
  }

  lemma StartsBalanced(t0: int)
    ensures Balanced(Started(t0).bus, 0)
  {
    var s := Started(t0).bus.samples;
    ZeroSums(s);
  }

  lemma {:induction false} ZeroSums(s: seq<Sample>)
    requires forall i :: 0 <= i < |s| ==> s[i].okCount == s[i].failCount == 0
    ensures SumOk(s) == SumFail(s) == 0
  {
    if s != [] {
      ZeroSums(s[1..]);
    }
  }

  // After n cycles every joint's ok and fail counts add up to n; the ok counts sum to the read
  // successes; the five error counters sum to the fail counts and the failed torque writes; and
  // every SyncWrite attempted was counted as written or failed.
  lemma {:induction false} CountersAddUp(
    c: Config, t0: int, workers: seq<Worker>, cycles: seq<Cycle>, n: nat)
    requires IsRun(c, t0, workers, cycles) && n <= |cycles|
    ensures var b := workers[n].bus;
            && workers[n].cycles == n
            && (forall i :: 0 <= i < NUM_JOINTS ==> b.samples[i].okCount + b.samples[i].failCount == n)
            && SumOk(b.samples) == b.counters.readSuccess
            && SumFail(b.samples) + TorqueFailures(cycles, n) == Errors(b.counters)
            && workers[n].writes + workers[n].writeErrors == Attempts(c, workers, cycles, n)
  {
    hide NextWorker, Attempt, Rising, FromBuffer, SumOk, SumFail, Errors;
    if n == 0 {
      StartsBalanced(t0);
    } else {
      CountersAddUp(c, t0, workers, cycles, n - 1);
      CountStep(c, workers[n - 1], cycles[n - 1], TorqueFailures(cycles, n - 1));
    }
  }

  // The cycles of the worker as stretches of a run of the torque handshake, between marks[i] and
  // marks[i + 1]: what a cycle takes for the outcome of its torque write is what the handshake did.
  ghost predicate Answers(
    states: seq<T.State>, steps: seq<T.Step>, marks: seq<nat>, cycles: seq<Cycle>)
  {
    && T.IsRun(states, steps) && |marks| == |cycles| + 1 && marks[0] == 0
    && forall i :: 0 <= i < |cycles| ==> Stretch(steps, marks, cycles, i)
  }

  ghost predicate Stretch(steps: seq<T.Step>, marks: seq<nat>, cycles: seq<Cycle>, i: nat)
    requires i < |cycles| && |marks| == |cycles| + 1
  {
    && marks[i] <= marks[i + 1] <= |steps|
    && T.WroteOnce(steps, marks[i], marks[i + 1], cycles[i].torque)
  }

  // Then the torque failures counted are the failed broadcasts of the handshake.
  lemma {:induction false} TorqueFailuresAreBroadcasts(
    states: seq<T.State>, steps: seq<T.Step>, marks: seq<nat>, cycles: seq<Cycle>, n: nat)
    requires Answers(states, steps, marks, cycles) && n <= |cycles|
    ensures marks[n] < |states|
    ensures TorqueFailures(cycles, n) == T.FailedBroadcasts(states[marks[n]].broadcasts)
  {
    hide T.IsRun, T.WroteOnce, T.FailedBroadcasts;
    if n == 0 {
      assert T.FailedBroadcasts(states[0].broadcasts) == 0 by { T.NoneYet(states, steps); }
    } else {
      TorqueFailuresAreBroadcasts(states, steps, marks, cycles, n - 1);
      assert Stretch(steps, marks, cycles, n - 1);
      T.FailuresCounted(states, steps, marks[n - 1], marks[n], cycles[n - 1].torque);
    }
    assert |states| == |steps| + 1 by { T.NoneYet(states, steps); }
  }

  // The position in the last good reply of a joint among the first n cycles.
  function LastReply(workers: seq<Worker>, cycles: seq<Cycle>, n: nat, joint: JointIndex): Option<Position>
    requires n <= |cycles| < |workers|
  {
    if n == 0 then None
    else
      var reply := cycles[n - 1].replies[VisitOf(workers[n - 1].bus.readStart, joint)];
      if reply.Reply? then Some(reply.position) else LastReply(workers, cycles, n - 1, joint)
  }

  // The raw position of a joint is that of its last good reply, and it has a sample exactly if
  // there was one; so raw vectors are made of what the servos last reported.
  lemma {:induction false} RawIsLastReply(
    c: Config, t0: int, workers: seq<Worker>, cycles: seq<Cycle>, n: nat, joint: JointIndex)
    requires IsRun(c, t0, workers, cycles) && n <= |cycles|
    ensures var sample := workers[n].bus.samples[joint];
            match LastReply(workers, cycles, n, joint)
            case None => !sample.hasSample
            case Some(position) => sample.hasSample && sample.raw == position
  {
    hide NextWorker, Rising, FromBuffer, VisitOf;
    if n > 0 {
      RawIsLastReply(c, t0, workers, cycles, n - 1, joint);
      SampleStep(c, workers[n - 1], cycles[n - 1], joint);
    }
  }

  lemma SampleStep(c: Config, w: Worker, x: Cycle, joint: JointIndex)
    requires c.Valid()
    ensures NextWorker(c, w, x).bus.samples[joint] ==
              RecordSample(w.bus.samples[joint], x.replies[VisitOf(w.bus.readStart, joint)])
  {
    hide AfterWrite, Sweep, VisitOf, RecordSample, AllSampled, RawSteps, BusSchedule.NextCycle,
         BusSchedule.NextWrite;
    SweepVisitsOnce(AfterTorque(w, x.torque).bus, x.replies, NUM_JOINTS, joint);
  }

  // ------------------------------------------------------------------------------- every reply

  ghost function Counted(cycles: seq<Cycle>, n: nat, kind: Kind): nat
    requires n <= |cycles|
  {
    if n == 0 then 0 else Counted(cycles, n - 1, kind) + CountOf(cycles[n - 1].replies, kind)
  }

  // Each counter is the number of transactions of its kind in all sweeps so far; failed torque
  // writes count as I/O errors too.
  lemma {:induction false} EveryReplyCounted(
    c: Config, t0: int, workers: seq<Worker>, cycles: seq<Cycle>, n: nat, kind: Kind)
    requires IsRun(c, t0, workers, cycles) && n <= |cycles|
    ensures CounterOf(workers[n].bus.counters, kind)
         == Counted(cycles, n, kind) + if kind == IoErrors then TorqueFailures(cycles, n) else 0
  {
    hide NextWorker, Rising, FromBuffer, CountOf;
    if n > 0 {
      EveryReplyCounted(c, t0, workers, cycles, n - 1, kind);
      CounterStep(c, workers[n - 1], cycles[n - 1], kind);
    }
  }

  lemma CounterStep(c: Config, w: Worker, x: Cycle, kind: Kind)
    requires c.Valid()
    ensures CounterOf(NextWorker(c, w, x).bus.counters, kind)
         == CounterOf(w.bus.counters, kind) + CountOf(x.replies, kind)
            + if kind == IoErrors && x.torque == Some(false) then 1 else 0
  {
    hide AfterWrite, Sweep, CountOf, AllSampled, RawSteps, BusSchedule.NextCycle, BusSchedule.NextWrite;
    SweepCounts(AfterTorque(w, x.torque).bus, x.replies, NUM_JOINTS, kind);
    assert x.replies[..NUM_JOINTS] == x.replies;
  }

  // Cycle n begins its sweep at joint n * stride modulo twelve, or always at joint 0.
  lemma {:induction false} SweepsRotate(
    c: Config, t0: int, workers: seq<Worker>, cycles: seq<Cycle>, n: nat)
    requires IsRun(c, t0, workers, cycles) && n <= |cycles|
    ensures workers[n].bus.readStart == if c.rotates then (n * c.stride) % 12 else 0
  {
    hide NextWorker, Rising, FromBuffer;
    if n > 0 {
      SweepsRotate(c, t0, workers, cycles, n - 1);
      StartStep(c, workers[n - 1], cycles[n - 1]);
      LaterByOne(0, c.stride, n - 1);
    }
  }

  lemma StartStep(c: Config, w: Worker, x: Cycle)
    requires c.Valid()
    ensures NextWorker(c, w, x).bus.readStart
         == if c.rotates then (w.bus.readStart + c.stride) % 12 else w.bus.readStart
  {
    hide AfterWrite, Sweep, AllSampled, RawSteps, BusSchedule.NextCycle, BusSchedule.NextWrite;
  }

  // What a sweep leaves of a joint: its last_read_ok and counts are those of its own transaction,
  // the one as many places after the start of the sweep as the joint is.
  lemma TransactionOfJoint(
    c: Config, t0: int, workers: seq<Worker>, cycles: seq<Cycle>, n: nat, offset: JointIndex)
    requires IsRun(c, t0, workers, cycles) && n < |cycles|
    ensures
      var joint := (workers[n].bus.readStart + offset) % 12;
      var s, t, r := workers[n].bus.samples[joint], workers[n + 1].bus.samples[joint], cycles[n].replies[offset];
      match r
      case Reply(position, _) => t == Sample(position, true, true, s.okCount + 1, s.failCount)
      case _ => t == Sample(s.raw, s.hasSample, false, s.okCount, s.failCount + 1)
  {
    hide NextWorker, Rising, FromBuffer;
    var joint := Visited(workers[n].bus.readStart, offset);
    SampleStep(c, workers[n], cycles[n], joint);
  }

  // ------------------------------------------------------------------------------- when exactly

  // Every joint has answered at least once in the first n cycles.
  ghost predicate AllAnswered(workers: seq<Worker>, cycles: seq<Cycle>, n: nat)
    requires n <= |cycles| < |workers|
  {
    forall joint: JointIndex :: LastReply(workers, cycles, n, joint).Some?
  }

  // A command was received, at most the timeout before the cycle started.
  predicate CommandFresh(c: Config, x: Cycle) {
    x.command.valid && x.start - x.command.receipt <= c.commandTimeoutMs * 1_000_000
  }

  // There is a vector to hold: a command was selected before, or the startup hold has taken the
  // measured positions.
  ghost predicate CanHold(c: Config, workers: seq<Worker>, cycles: seq<Cycle>, n: nat)
    requires n <= |cycles| < |workers|
  {
    LastFresh(c, workers, cycles, n).Some? || (c.startupHold && AllAnswered(workers, cycles, n))
  }

  ghost predicate HasVector(c: Config, workers: seq<Worker>, cycles: seq<Cycle>, n: nat)
    requires n < |cycles| < |workers|
  {
    || CommandFresh(c, cycles[n])
    || (c.holdLast && CanHold(c, workers, cycles, n))
    || (!cycles[n].command.valid && c.startupHold && AllAnswered(workers, cycles, n))
  }

  // What the worker knows of the past is what happened: whether all joints answered, whether it
  // has a vector to hold.
  lemma {:induction false} KnowsItsPast(
    c: Config, t0: int, workers: seq<Worker>, cycles: seq<Cycle>, n: nat)
    requires IsRun(c, t0, workers, cycles) && n <= |cycles|
    ensures workers[n].ready <==> AllAnswered(workers, cycles, n)
    ensures workers[n].lastSafe.Some? <==> CanHold(c, workers, cycles, n)
  {
    hide NextWorker, Fresh, CommandSteps, RawSteps, Rising, AllSampled, LastReply;
    ReadyIsAnswered(c, t0, workers, cycles, n);
    if n == 0 {
      NothingSampled(workers[0], t0);
    } else {
      KnowsItsPast(c, t0, workers, cycles, n - 1);
      ReadyIsAnswered(c, t0, workers, cycles, n - 1);
      HoldStep(c, workers[n - 1], cycles[n - 1]);
    }
  }

  lemma ReadyIsAnswered(c: Config, t0: int, workers: seq<Worker>, cycles: seq<Cycle>, n: nat)
    requires IsRun(c, t0, workers, cycles) && n <= |cycles|
    ensures workers[n].ready == AllSampled(workers[n].bus.samples)
    ensures workers[n].ready <==> AllAnswered(workers, cycles, n)
  {
    hide NextWorker, Fresh, CommandSteps, RawSteps, Rising, LastReply;
    SafeIsLastFresh(c, t0, workers, cycles, n);
    forall joint: JointIndex
      ensures workers[n].bus.samples[joint].hasSample <==> LastReply(workers, cycles, n, joint).Some?
    {
      RawIsLastReply(c, t0, workers, cycles, n, joint);
    }
  }

  lemma HoldStep(c: Config, w: Worker, x: Cycle)
    requires c.Valid() && w.ready == AllSampled(w.bus.samples)
    ensures var v := NextWorker(c, w, x);
            && (w.ready ==> v.ready)
            && (v.lastSafe.Some? <==> w.lastSafe.Some? || Fresh(c, w, x) || (c.startupHold && v.ready))
  {
    hide CommandSteps, RawSteps, FullSweep, AllSampled, BusSchedule.NextCycle, BusSchedule.NextWrite;
    if w.ready {
      SamplesStay(c, w, x);
    }
  }

  lemma SamplesStay(c: Config, w: Worker, x: Cycle)
    requires c.Valid() && AllSampled(w.bus.samples)
    ensures AllSampled(NextWorker(c, w, x).bus.samples)
  {
    hide NextWorker, VisitOf;
    forall i | 0 <= i < NUM_JOINTS ensures NextWorker(c, w, x).bus.samples[i].hasSample {
      SampleStep(c, w, x, i);
    }
  }

  // The last of the first n cycles whose SyncWrite succeeded.
  function LastSent(c: Config, workers: seq<Worker>, cycles: seq<Cycle>, n: nat): (last: Option<nat>)
    requires c.Valid() && n <= |cycles| < |workers|
    ensures last.Some? ==> last.value < n && Attempt(c, workers[last.value], cycles[last.value]).Some?
  {
    if n == 0 then None
    else if Attempt(c, workers[n - 1], cycles[n - 1]).Some? && cycles[n - 1].writeOk then Some(n - 1)
    else LastSent(c, workers, cycles, n - 1)
  }

  // The vector in force and its time are those of the last SyncWrite that succeeded.
  lemma {:induction false} InForceIsLastSent(
    c: Config, t0: int, workers: seq<Worker>, cycles: seq<Cycle>, n: nat)
    requires IsRun(c, t0, workers, cycles) && n <= |cycles|
    ensures match LastSent(c, workers, cycles, n)
            case None => workers[n].lastWritten == None
            case Some(k) =>
              && workers[n].lastWritten == Some(Attempt(c, workers[k], cycles[k]).value.steps)
              && workers[n].lastWriteTime == cycles[k].writeEnd
  {
    hide NextWorker, Attempt, Rising, FromBuffer;
    if n > 0 {
      InForceIsLastSent(c, t0, workers, cycles, n - 1);
      WriteEffect(c, workers[n - 1], cycles[n - 1]);
    }
  }

  // When a cycle writes: exactly if it is the first to start in its slot of the command period,
  // writes are enabled, every joint has answered where that is required, there is a vector to
  // write, and it differs from the one in force or the keepalive is due. The vector is what the
  // worker falls back on afterwards.
  lemma WritesExactly(c: Config, t0: int, workers: seq<Worker>, cycles: seq<Cycle>, n: nat)
    requires IsRun(c, t0, workers, cycles) && n < |cycles|
    ensures var w, x, v := workers[n], cycles[n], workers[n + 1];
            Attempt(c, w, x).Some? <==>
              && (forall m :: 0 <= m < n ==>
                    Slot(t0, c.commandPeriod, cycles[m].start) != Slot(t0, c.commandPeriod, x.start))
              && c.writesEnabled
              && (c.requireFullFeedback ==> AllAnswered(workers, cycles, n))
              && HasVector(c, workers, cycles, n)
              && (!c.skipUnchanged || v.lastSafe != w.lastWritten
                  || (c.keepaliveMs > 0 && x.start - w.lastWriteTime >= c.keepaliveMs * 1_000_000))
    ensures Attempt(c, workers[n], cycles[n]).Some? ==>
              workers[n + 1].lastSafe == Some(Attempt(c, workers[n], cycles[n]).value.steps)
  {
    hide Attempt, NextWorker, Slot, AllAnswered, LastFresh, Rising, FromBuffer, WriteDue, DueCount;
    WriteDueOncePerSlot(c, t0, workers, cycles, n, cycles[n].start);
    KnowsItsPast(c, t0, workers, cycles, n);
    FollowsSelection(c, workers[n], cycles[n]);
  }

  // A write attempt by the worker's own fields.
  lemma FollowsSelection(c: Config, w: Worker, x: Cycle)
    requires c.Valid()
    ensures var v := NextWorker(c, w, x);
            && (Attempt(c, w, x).Some? <==>
                  && WriteDue(w, x) && c.writesEnabled && (c.requireFullFeedback ==> w.ready)
                  && (|| CommandFresh(c, x) || (c.holdLast && w.lastSafe.Some?)
                      || (!x.command.valid && c.startupHold && w.ready))
                  && (!c.skipUnchanged || v.lastSafe != w.lastWritten
                      || (c.keepaliveMs > 0 && x.start - w.lastWriteTime >= c.keepaliveMs * 1_000_000)))
            && (Attempt(c, w, x).Some? ==> v.lastSafe == Some(Attempt(c, w, x).value.steps))
  {
    hide CommandSteps, RawSteps, FullSweep, AllSampled, BusSchedule.NextCycle, BusSchedule.NextWrite;
  }

  // What it writes, by what came before: the conversion of a fresh command; the measured positions
  // at a startup hold, before any command; otherwise what it fell back on before.
  lemma WritesWhat(c: Config, t0: int, workers: seq<Worker>, cycles: seq<Cycle>, n: nat, i: nat)
    requires IsRun(c, t0, workers, cycles) && n < |cycles| && i < NUM_JOINTS
    requires Attempt(c, workers[n], cycles[n]).Some?
    ensures var steps := Attempt(c, workers[n], cycles[n]).value.steps;
            if CommandFresh(c, cycles[n]) then
              steps[i] == Calibration.RadiansToSteps(
                            c.joints[i].calibration, c.stepsPerRadian, cycles[n].command.target[i])
            else if !cycles[n].command.valid && c.startupHold && AllAnswered(workers, cycles, n) then
              LastReply(workers, cycles, n, i) == Some(steps[i])
            else workers[n].lastSafe == Some(steps)
  {
    hide NextWorker, WriteDue, Sends, Rising, FromBuffer, LastReply, AllAnswered,
         Calibration.RadiansToSteps;
    RawIsLastReply(c, t0, workers, cycles, n, i);
    ReadyIsAnswered(c, t0, workers, cycles, n);
  }

  // So with require_full_feedback no servo is written to before every joint has answered.
  lemma FullFeedbackFirst(
    c: Config, t0: int, workers: seq<Worker>, cycles: seq<Cycle>, n: nat, joint: JointIndex)
    requires IsRun(c, t0, workers, cycles) && n < |cycles|
    requires c.requireFullFeedback && Attempt(c, workers[n], cycles[n]).Some?
    ensures LastReply(workers, cycles, n, joint).Some?
  {
    hide Attempt, NextWorker, LastReply, HasVector, Slot;
    WritesExactly(c, t0, workers, cycles, n);
  }

  // ------------------------------------------------------------------------------- on the wire

  // static_cast<int16_t>
  function ToInt16(x: int): Int16 { (x + 0x8000) % 0x1_0000 - 0x8000 }

  function Targets(c: Config, steps: Steps): (t: seq<Target>)
    requires c.Valid()
    ensures |t| == NUM_JOINTS
    ensures forall i :: 0 <= i < NUM_JOINTS ==>
              t[i] == Target(c.joints[i].servoId, ToInt16(steps[i]),
                             c.joints[i].speed, c.joints[i].acceleration)
  {
    seq(NUM_JOINTS, i requires 0 <= i < NUM_JOINTS =>
      Target(c.joints[i].servoId, ToInt16(steps[i]), c.joints[i].speed, c.joints[i].acceleration))
  }

  method PerformSyncWrite(c: Config, steps: Steps) returns (packet: seq<Byte>)
    requires c.Valid()
    ensures packet == SyncWritePacket(Targets(c, steps))
  {
    hide ToInt16;
    var targets: seq<Target> := [];
    for i := 0 to NUM_JOINTS
      invariant targets == Targets(c, steps)[..i]
    {
      var joint := c.joints[i];
      targets := targets + [Target(joint.servoId, ToInt16(steps[i]), joint.speed, joint.acceleration)];
    }
    assert targets == Targets(c, steps);
    var built := BuildSyncWritePositionEx(targets);
    packet := built.value;
  }

  predicate FitsServo(steps: Steps) {
    forall i :: 0 <= i < NUM_JOINTS ==> -0x7FFF <= steps[i] <= 0x7FFF
  }

  predicate LimitsFit(c: Config)
    requires |c.joints| == NUM_JOINTS
  {
    forall i :: 0 <= i < NUM_JOINTS ==>
      -0x7FFF <= c.joints[i].calibration.minStep && c.joints[i].calibration.maxStep <= 0x7FFF
  }

  function Positions(targets: seq<Target>): (s: seq<int>)
    ensures |s| == |targets| && forall i :: 0 <= i < |s| ==> s[i] == targets[i].position
  {
    seq(|targets|, i requires 0 <= i < |targets| => targets[i].position)
  }

  // Every SyncWrite of every run decodes on the servos' side, and they receive the very vector
  // selected, each joint with its own id, speed and acceleration, exactly if all its steps fit
  // 15 bits and a sign; with raw limits that fit, they always do.
  lemma WritesReachServos(c: Config, t0: int, workers: seq<Worker>, cycles: seq<Cycle>, n: nat)
    requires IsRun(c, t0, workers, cycles) && n < |cycles|
    requires Attempt(c, workers[n], cycles[n]).Some?
    ensures var steps := Attempt(c, workers[n], cycles[n]).value.steps;
            var received := DecodeSyncWrite(SyncWritePacket(Targets(c, steps)));
            && received.Ok? && (Positions(received.value) == steps <==> FitsServo(steps))
            && (FitsServo(steps) ==> received.value == Targets(c, steps))
            && (LimitsFit(c) ==> FitsServo(steps))
  {
    hide Attempt, NextWorker, Fresh, Rising, Stale, FromBuffer, AllSampled, WriteDue, DecodeSyncWrite,
         SyncWritePacket, CommandSteps, RawSteps;
    var steps := Attempt(c, workers[n], cycles[n]).value.steps;
    WriteProvenance(c, t0, workers, cycles, n);
    ReceivedSteps(c, steps);
  }

  lemma ReceivedSteps(c: Config, steps: Steps)
    requires c.Valid()
    ensures var received := DecodeSyncWrite(SyncWritePacket(Targets(c, steps)));
            && received.Ok? && (Positions(received.value) == steps <==> FitsServo(steps))
            && (FitsServo(steps) ==> received.value == Targets(c, steps))
  {
    hide DecodeSyncWrite, SyncWritePacket;
    var sent := Targets(c, steps);
    SyncWriteRoundTrip(sent);
    if FitsServo(steps) {
      assert RepresentableAll(sent) == sent;
      assert Positions(sent) == steps;
    } else {
      var i :| 0 <= i < NUM_JOINTS && !(-0x7FFF <= steps[i] <= 0x7FFF);
      assert Positions(RepresentableAll(sent))[i] != steps[i];
    }
  }
}
