# Motion authority and servo bus of LittleGreen, verified

This project models the part of LittleGreen that decides whether, when and how a joint target
reaches a servo, and proves properties of it in Dafny 4.11:

* the policy node: IMU gate, handoff arm/enable/disable, previous-action seed, observation and target
  vectors (`PolicyGate.dfy`, `PolicyVectors.dfy`), and the streaming SHA-256 that binds a profile to a
  policy (`Sha256Stream.dfy`), measured against FIPS 180-4 (`Fips180.dfy`, `HashConstants.dfy`,
  `HashExample.dfy`);
* the handoff profile, from the installer through the audit and the handoff tool to the node
  (`HandoffProfile.dfy`), the handoff tool (`HandoffTool.dfy`), and the handoff itself as one system of
  tool, driver and policy node (`Handoff.dfy`), with the protobuf and ONNX readers of the audit
  (`Protobuf.dfy`, `OnnxContract.dfy`);
* the PD node: outer position controller, reference shaper and control loop (`OuterController.dfy`,
  `ReferenceShaper.dfy`, `PdNode.dfy`);
* the driver node: pose ramps, the pose override and its services (`Smoothstep.dfy`, `DriverRamp.dfy`,
  `PoseOverride.dfy`), and the timed transition of the characterization tool (`TimedTransition.dfy`);
* the servo bus worker: write selection and schedule, feedback sweeps, torque handshake
  (`BusWorker.dfy`, `BusSchedule.dfy`, `FeedbackSweep.dfy`, `TorqueHandshake.dfy`);
* the wire: ST3215 packets, frame extraction, angle conversion and calibration (`Protocol.dfy`,
  `SerialPort.dfy`, `Rounding.dfy`, `Calibration.dfy`, `JointMap.dfy`).

`Common.dfy` holds results, optional values, poses and octets; `Arithmetic.dfy` and `Reals.dfy` the
few facts about products and quotients that several modules need.
`dafny verify dfyconfig.toml` checks everything.

## How the code is modelled

Objects that update their fields are classes with the same fields; their methods, with the source's
loops, are proved against specification functions, and the properties of whole runs are lemmas about
those functions. Where threads interleave (driver callbacks with the ramp thread, service threads
with the bus worker, the handoff tool with both nodes) the system is a transition system: one step
for each access to shared state, or for each critical section, in any order. The callbacks of the
driver are therefore step functions and not methods; the pose ramp is both, a method for what it
stores and steps for when.

Clocks, I/O results, inference outputs and the arrival of messages are inputs, arbitrary unless a
lemma says otherwise. Times are integers in nanoseconds in the bus worker and the policy gate, and
reals in the Python nodes. Floating-point numbers are reals. Steps per radian are an arbitrary
positive real. Orientation jump, tilt and angular speed reach the policy gate computed.

## What turned out not to hold

Each of these is stated with the exact condition under which the code does what one would expect.

* With two callers of `ServoBus::requestTorqueEnabled` waiting at once, one can be told "success" for
  a request that was never broadcast (`TorqueHandshake.SupersededCallerHearsSuccess`). An answered
  request was broadcast if and only if a pass of the worker began while it was the newest
  (`OwnBroadcastExactly`). The driver node calls it only from service callbacks
  (`servo_driver_node.cpp:721` and `:780`) on one executor thread (`:1283`), each of which waits for
  its reply, so there it does not happen: a caller alone hears "success" only for its own broadcast
  (`AloneTrueMeansOwn`).
* `written_command_sequence` does not always name the command whose steps were last written. It goes
  wrong exactly when a held write succeeds for a command whose own write had failed
  (`BusWorker.NamingHoldsExactly`); the first command of a run can be held under number 0
  (`BusWorker.FailedFirstWriteMisnames`).
* A stray header byte in front of a packet usually loses the packet: all but those with an ID below 2
  (`SerialFrames.StrayHeader`, `SerialFrames.StrayHeaderAlone`).
* A profile the audit accepts may be refused by the node, and only a declared clamp record or a
  missing phase can be the reason (`HandoffProfile.AuditedProfileOnNode`).
* The reference shaper can overshoot its command (`ReferenceShaper.OvershootsExactly`).
* The startup stability hold of the IMU can end early, exactly when a discontinuity replaced it with a
  recovery hold that ends before it (`PolicyGate.StartupHoldEndsEarly`). A recovery hold at least as
  long excludes that (`PolicyGate.StartupHoldLasts`), and the 1.5 s and 1.0 s of
  `policy_runtime.yaml:58-59` are such a pair; any shorter one allows it
  (`PolicyGate.RecoveryCanShortenStartup`).
* Recalibrating at the expected step moves the center exactly at a tie with an odd center
  (`Calibration.CalibrationIsStable`, `Calibration.TieMovesTheCenter`).
* The protobuf reader does not notice a truncated field (`Protobuf.TruncationGoesUnnoticed`).
* A SyncWrite reaches the servos unchanged exactly if its steps fit 15 bits and a sign, which the joint
  map loader does not enforce (`BusWorker.WritesReachServos`).

## Model

| member | source | states |
|---|---|---|
| Sha256Stream.Sha256.constructor | src/littlegreen_biped_pkg/src/littlegreen_biped_node.cpp:96-101 | a new hash object has absorbed the empty message |
| Sha256Stream.Sha256.Update | src/littlegreen_biped_pkg/src/littlegreen_biped_node.cpp:103-113 | the absorbed message grows by exactly the bytes given, whatever the block buffer held |
| Sha256Stream.Sha256.Final | src/littlegreen_biped_pkg/src/littlegreen_biped_node.cpp:115-146 | the result is the FIPS 180-4 digest of everything absorbed, for every message below 2^61 bytes and every split into updates |
| Sha256Stream.Sha256.Pad | src/littlegreen_biped_pkg/src/littlegreen_biped_node.cpp:117-136 | absorbed bytes plus the padding of section 5.1.1 fill whole blocks, in both the one-block and the two-block case |
| Sha256Stream.Sha256.AppendMarker | src/littlegreen_biped_pkg/src/littlegreen_biped_node.cpp:117-126 | the 0x80 octet, and the extra block exactly if the length no longer fits behind it |
| Sha256Stream.Sha256.WriteLength | src/littlegreen_biped_pkg/src/littlegreen_biped_node.cpp:131-135 | the last eight bytes are the 64-bit big-endian bit count |
| Sha256Stream.Sha256.ExpandSchedule | src/littlegreen_biped_pkg/src/littlegreen_biped_node.cpp:204-216 | the schedule array holds the recursive message schedule of section 6.2.2 |
| Sha256Stream.Sha256.RunRounds | src/littlegreen_biped_pkg/src/littlegreen_biped_node.cpp:218-239 | the loop over eight rotating variables computes the 64 rounds of the recursive definition |
| Sha256Stream.Sha256.Transform | src/littlegreen_biped_pkg/src/littlegreen_biped_node.cpp:184-248 | the loop and the final additions, in place, refine the recursive compression function |
| Sha256Stream.Sha256.WriteDigest | src/littlegreen_biped_pkg/src/littlegreen_biped_node.cpp:138-145 | the eight words leave in big-endian order |
| Sha256Stream.HashFile | src/littlegreen_biped_pkg/src/littlegreen_biped_node.cpp:256-275 | a file read in any chunks hashes to the digest of its whole content |
| Sha256Stream.BitCountField | src/littlegreen_biped_pkg/src/littlegreen_biped_node.cpp:131-135 | the wrapping 64-bit counter still yields the length field the standard asks for |
| HashConstants.RoundConstantsAreRoots | src/littlegreen_biped_pkg/src/littlegreen_biped_node.cpp:186-202 | each round constant is the first 32 bits of the fractional part of the cube root of the t-th prime (section 4.2.2), the primes from 2 on with none left out |
| HashConstants.InitialHashIsRoots | src/littlegreen_biped_pkg/src/littlegreen_biped_node.cpp:96-101 | the initial state is the same of the square roots of the first eight primes (section 5.3.3) |
| HashExample.DigestOfAbc | src/littlegreen_biped_pkg/src/littlegreen_biped_node.cpp:150-248 | the definition the code refines maps "abc" to the digest published for it, which fixes rotations, shifts, schedule and rounds |
| Fips180.PaddingInjective | src/littlegreen_biped_pkg/src/littlegreen_biped_node.cpp:115-136 | different messages never pad to the same blocks |
| Fips180.PaddedBlocks | src/littlegreen_biped_pkg/src/littlegreen_biped_node.cpp:115-136 | one or two final blocks, exactly by whether the tail leaves room for the length |
| Protocol.ComputeChecksum | src/lgh_st3215_driver/src/protocol.cpp:9-15 | the loop computes the complement of the byte sum |
| Protocol.BuildPacket | src/lgh_st3215_driver/src/protocol.cpp:17-40 | succeeds for at most 253 parameter bytes, with header, ID, length, instruction, parameters and checksum in place |
| Protocol.ValidateFrameChecksum | src/lgh_st3215_driver/src/protocol.cpp:117-127 | true exactly for frames with both headers whose bytes from the ID on sum to 255 modulo 256 |
| Protocol.FrameIsPacket | src/lgh_st3215_driver/src/protocol.cpp:17-40 | the valid frames with an honest length field are exactly the packets the builder makes |
| Protocol.PacketIsValid | src/lgh_st3215_driver/src/protocol.cpp:17-40 | every packet built validates and states its own length |
| Protocol.OneByteChangeDetected | src/lgh_st3215_driver/src/protocol.cpp:117-127 | changing any one byte of a valid frame, headers included, makes it invalid |
| Protocol.SignedBit15RoundTrip | src/lgh_st3215_driver/src/protocol.cpp:67-81 | encoding saturates at 15 bits of magnitude and otherwise loses nothing; decoding loses only the second zero |
| Protocol.SignedBit10RoundTrip | src/lgh_st3215_driver/src/protocol.cpp:83-86 | the load register decodes every magnitude up to 1023 with its sign |
| Protocol.BuildSyncWritePositionEx | src/lgh_st3215_driver/src/protocol.cpp:88-115 | accepts 1 to 31 targets and lays them out register by register |
| Protocol.SyncWriteRoundTrip | src/lgh_st3215_driver/src/protocol.cpp:88-115 | the packet fits its length byte, validates, and decodes to exactly the targets sent if and only if none asks for -32768 |
| Protocol.SyncWriteLayout | src/lgh_st3215_driver/src/protocol.cpp:88-115 | every byte of a SyncWrite packet, with the sign of a position in bit 15 of its word |
| Protocol.ParseReadReply | src/lgh_st3215_driver/src/protocol.cpp:130-162 | accepts exactly the packets from the expected servo with the expected data length, and returns their status and data |
| Protocol.ParsePresentFeedbackReply | src/lgh_st3215_driver/src/protocol.cpp:164-213 | accepts exactly the 21-byte feedback packets of the expected servo and decodes their registers |
| Protocol.FeedbackRoundTrip | src/lgh_st3215_driver/src/protocol.cpp:194-210 | what a servo measures survives its registers and the parser |
| Protocol.FeedbackLayout | src/lgh_st3215_driver/src/protocol.cpp:194-210 | which bytes of a feedback reply each field is read from, and where its sign is |
| SerialFrames.SerialPort.ExtractFrame | src/lgh_st3215_driver/src/serial_port.cpp:230-257 | one call skips to the first header pair and takes a frame, drops a byte of a malformed one, or waits for more |
| SerialFrames.SerialPort.ReadFrame | src/lgh_st3215_driver/src/serial_port.cpp:259-332 | status, frame and buffer after any arrivals, timeouts and errors; an accepted frame validates and has the expected ID |
| SerialFrames.ReadsExactly | src/lgh_st3215_driver/src/serial_port.cpp:259-332 | what readFrame returns and leaves buffered, by the first pass whose bytes hold a frame or a malformed length, or that delivers none |
| SerialFrames.SerialPort.FlushInput | src/lgh_st3215_driver/src/serial_port.cpp:334-336 | the receive buffer is emptied after a failed transaction; the descriptor flush is not part of this model |
| SerialFrames.ChunkIndependent | src/lgh_st3215_driver/src/serial_port.cpp:230-257 | draining chunk by chunk yields the frames, malformed events and leftover of the whole stream |
| SerialFrames.SplitsAgree | src/lgh_st3215_driver/src/serial_port.cpp:230-257 | any two splits of the same bytes give the same events and leftover |
| SerialFrames.ExtractedFrameIsSlice | src/lgh_st3215_driver/src/serial_port.cpp:230-257 | a frame is an unbroken slice of the stream from its first header pair, as long as its length field says |
| SerialFrames.PacketsDecode | src/lgh_st3215_driver/src/serial_port.cpp:230-257 | any concatenation of built packets decodes to exactly those packets |
| SerialFrames.NoisyPacketsDecode | src/lgh_st3215_driver/src/serial_port.cpp:230-257 | also in any chunks and after noise with no header pair that does not end in a header byte |
| SerialFrames.StrayHeader | src/lgh_st3215_driver/src/serial_port.cpp:231-248 | after one stray header byte, whatever follows, a packet with an ID below 2 still comes out whole with everything behind it; any other ID is taken for a length |
| SerialFrames.StrayHeaderAlone | src/lgh_st3215_driver/src/serial_port.cpp:231-248 | with nothing behind it the packet survives if and only if its ID is below 2 or it consists of header bytes |
| SerialFrames.OutcomeIsFirstEvent | src/lgh_st3215_driver/src/serial_port.cpp:271-327 | a reported reply is the first event of everything delivered, however it arrived |
| SerialFrames.FirstEventIsReported | src/lgh_st3215_driver/src/serial_port.cpp:271-327 | a first event complete before the deadline is always reported |
| SerialFrames.DeliveredPacketIsRead | src/lgh_st3215_driver/src/serial_port.cpp:271-327 | a packet delivered in any pieces in time is read whole |
| SerialFrames.FeedbackTransaction | src/lgh_st3215_driver/src/servo_bus.cpp:319-393 | a servo reply delivered in any pieces is read and parsed back to what the servo measured |
| JointMap.Load | src/lgh_st3215_driver/src/joint_map.cpp:47-125 | accepts exactly twelve valid entries with policy indices 0 to 11 and no servo twice, and returns them in policy order |
| JointMap.AcceptsExactly | src/lgh_st3215_driver/src/joint_map.cpp:47-120 | the twelve accepted entries, condition by condition: every index 0 to 11 present, no servo twice, every bound of every field |
| JointMap.CheckOrder | src/lgh_st3215_driver/src/joint_map.cpp:110-120 | the loop with the set of servo IDs accepts exactly contiguous indices and distinct IDs |
| JointMap.SortedIndices | src/lgh_st3215_driver/src/joint_map.cpp:104-115 | sorting leaves index i at place i if and only if the indices are a permutation of 0 to n-1 |
| Calibration.StepsFollowServo | src/lgh_st3215_driver/src/joint_map.cpp:135-144 | radiansToSteps is monotone in the direction the servo turns |
| Calibration.RadiansToSteps | src/lgh_st3215_driver/src/joint_map.cpp:135-144 | the result always lies in the raw limits |
| Calibration.NearestStep | src/lgh_st3215_driver/src/joint_map.cpp:135-144 | the result is the raw step nearest to center + sign * (angle - zero) * k among those within the raw limits, with ties away from zero |
| Calibration.AngleOfStep | src/lgh_st3215_driver/src/joint_map.cpp:146-151 | stepsToRadians gives the angle at which that expression is the step |
| Calibration.StepsRoundTrip | src/lgh_st3215_driver/src/joint_map.cpp:135-151 | every raw step whose angle is within the joint limits is recovered exactly |
| Calibration.AngleRoundTrip | src/lgh_st3215_driver/src/joint_map.cpp:135-151 | with derived limits the raw clamp moves a value by at most one step, and an in-limit angle comes back to within half a step |
| Calibration.ClampIsHarmless | src/lgh_st3215_tools/lgh_st3215_tools/calibration_common.py:172-179 | the derived raw limits cut a rounded value only where it is halfway between two steps |
| Calibration.ProposedCenterFits | src/lgh_st3215_tools/lgh_st3215_tools/calibration_common.py:150-159 | the proposed center maps the measured step to within half a step of the reference, and the expected step to within one of the measured |
| Calibration.CalibrationIsStable | src/lgh_st3215_tools/lgh_st3215_tools/calibration_common.py:134-159 | calibrating at the expected step proposes the same center if and only if the reference is not halfway between two steps or the center is even |
| Calibration.TieMovesTheCenter | src/lgh_st3215_tools/lgh_st3215_tools/calibration_common.py:134-159 | for every number of steps per radian a joint with an odd center whose recalibration proposes the next one |
| Rounding.RoundingsDiffer | src/lgh_st3215_tools/lgh_st3215_tools/calibration_common.py:134-139 | the tools and the driver round differently exactly at halves whose neighbour away from zero is odd, and then by one |
| Smoothstep.SmoothSlope | src/lgh_st3215_driver/src/servo_driver_node.cpp:879-880 | the smoothstep curve rises on [0,1], never faster than 3/2 |
| Smoothstep.EasesInAndOut | src/lgh_st3215_driver/src/servo_driver_node.cpp:879-880 | near either end the way left is of second order, and the curve is its own mirror image |
| DriverRamp.RunPoseRamp | src/lgh_st3215_driver/src/servo_driver_node.cpp:867-892 | the targets stored, up to the stop flag, and the goal itself if the flag was never raised |
| DriverRamp.StoresExactly | src/lgh_st3215_driver/src/servo_driver_node.cpp:878-889 | the k-th target stored is the point of the cubic at k/n |
| DriverRamp.RampIsSafe | src/lgh_st3215_driver/src/servo_driver_node.cpp:867-892 | every stored target lies between start and goal, in order, at most 1.5*|goal-start|/N from the one before; an unstopped ramp ends at the goal |
| TimedTransition.RunTransition | src/lgh_st3215_tools/lgh_st3215_tools/standing_characterization.py:1094-1129 | every publication carries the reference due at its time, none is later than a period, and only a completed transition publishes the target itself |
| TimedTransition.PublishesExactly | src/lgh_st3215_tools/lgh_st3215_tools/standing_characterization.py:1116-1129 | each publication is the point of the cubic at the share of the duration that has passed, and the target itself from the end on |
| TimedTransition.DurationIsLeast | src/lgh_st3215_tools/lgh_st3215_tools/standing_characterization.py:1094-1097 | the duration is the shortest that is no less than the minimum and keeps the peak speed on every joint |
| TimedTransition.PublicationsRespectSpeed | src/lgh_st3215_tools/lgh_st3215_tools/standing_characterization.py:1094-1128 | any two publications differ per joint by at most max(speed, 1e-6) times their distance in time |
| TimedTransition.DurationCovers | src/lgh_st3215_tools/lgh_st3215_tools/standing_characterization.py:1094-1097 | the duration chosen is long enough for the peak of the curve |
| TorqueHandshake.BroadcastsArePosted | src/lgh_st3215_driver/src/servo_bus.cpp:93-163 | in every interleaving the value broadcast for a sequence is the one posted with it, sequences broadcast rise, and applied never exceeds requested |
| TorqueHandshake.AppliedNeverFalls | src/lgh_st3215_driver/src/servo_bus.cpp:156-161 | the applied sequence never falls |
| TorqueHandshake.TrueReplyMeansBroadcast | src/lgh_st3215_driver/src/servo_bus.cpp:104-121 | a true reply means a broadcast at least as new as the request succeeded; its very own if nobody posted later |
| TorqueHandshake.AnswersExactly | src/lgh_st3215_driver/src/servo_bus.cpp:104-121 | a caller hears success if and only if a request at least as new as its own is applied and the broadcast applied last succeeded, however its wait ends |
| TorqueHandshake.WakesExactly | src/lgh_st3215_driver/src/servo_bus.cpp:104-118 | a wait ends by an answer if and only if the request or a later one is applied or the worker was stopped before; otherwise it can only time out |
| TorqueHandshake.SupersededCallerHearsSuccess | src/lgh_st3215_driver/src/servo_bus.cpp:93-121 | with two callers waiting, a later opposite request answers for an earlier one: the run in which torque-off is answered true and only torque-on was broadcast |
| TorqueHandshake.OwnBroadcastExactly | src/lgh_st3215_driver/src/servo_bus.cpp:93-163 | an answered request was itself broadcast if and only if some pass of the worker began while it was the newest |
| TorqueHandshake.AloneTrueMeansOwn | src/lgh_st3215_driver/src/servo_bus.cpp:93-121 | if nobody posts while another caller waits, a true reply means a successful broadcast of the caller's own request with its own value |
| TorqueHandshake.EnabledStateIsLastTold | src/lgh_st3215_driver/src/servo_bus.cpp:142-154 | the published torque state is the value of the last successful broadcast, but for the moment between write and store |
| TorqueHandshake.PassAnswersEarlierRequests | src/lgh_st3215_driver/src/servo_bus.cpp:123-163 | one worker pass applies or supersedes every request posted before it |
| TorqueHandshake.FailuresCounted | src/lgh_st3215_driver/src/servo_bus.cpp:123-163 | a stretch with one torque write adds a failed broadcast exactly if that write failed |
| TorqueHandshake.TorqueControl.PostRequest | src/lgh_st3215_driver/src/servo_bus.cpp:97-100 | the posting section |
| TorqueHandshake.TorqueControl.ProcessTorqueRequest | src/lgh_st3215_driver/src/servo_bus.cpp:123-163 | processTorqueRequest run alone is the composition of the protocol steps |
| BusSchedule.AdvanceNextWrite | src/lgh_st3215_driver/src/servo_bus.cpp:523-527 | the do-while loop reaches the first deadline after the cycle start |
| BusSchedule.CatchUp | src/lgh_st3215_driver/src/servo_bus.cpp:674-680 | the next cycle stays on its grid, at most one period behind, and skips only when more than two periods late |
| BusSchedule.DueIsFirstInSlot | src/lgh_st3215_driver/src/servo_bus.cpp:522-527 | a cycle is write-due exactly when it is the first to start in its slot |
| BusSchedule.AtMostOnePerSlot | src/lgh_st3215_driver/src/servo_bus.cpp:522-527 | at most floor((t-t0)/P)+1 cycles are write-due by time t |
| BusWorker.WriteDueOncePerSlot | src/lgh_st3215_driver/src/servo_bus.cpp:490-527 | both, for the cycles of every run of the worker |
| BusWorker.CyclesOnGrid | src/lgh_st3215_driver/src/servo_bus.cpp:674-680 | in every run the planned start is on the grid and at most one period behind |
| FeedbackSweep.Reader.PerformFeedbackSweep | src/lgh_st3215_driver/src/servo_bus.cpp:290-407 | the twelve transactions and the rotation of the start index |
| FeedbackSweep.Reader.RecordTransaction | src/lgh_st3215_driver/src/servo_bus.cpp:306-397 | what each outcome of a transaction does to the joint and the counters |
| FeedbackSweep.SweepVisitsOnce | src/lgh_st3215_driver/src/servo_bus.cpp:294-295 | from any start index every joint is visited exactly once, with its own outcome |
| FeedbackSweep.SweepBalances | src/lgh_st3215_driver/src/servo_bus.cpp:306-397 | ok counts keep matching read successes, fail counts the five error counters |
| FeedbackSweep.LeadLater | src/lgh_st3215_driver/src/servo_bus.cpp:402-406 | which joint leads a later sweep |
| FeedbackSweep.LeadsFairly | src/lgh_st3215_driver/src/servo_bus.cpp:402-406 | every joint leads exactly once in any twelve sweeps if and only if the stride is coprime to twelve |
| BusWorker.ServoBus.constructor | src/lgh_st3215_driver/src/servo_bus.cpp:466-493 | the state in which the worker enters its loop |
| BusWorker.ServoBus.WorkerCycle | src/lgh_st3215_driver/src/servo_bus.cpp:495-681 | one pass of the loop: torque, schedule, write, sweep, startup hold and catch-up |
| BusWorker.ServoBus.WriteStage | src/lgh_st3215_driver/src/servo_bus.cpp:516-604 | which vector a cycle selects and whether it is sent |
| BusWorker.ServoBus.SendIfNeeded | src/lgh_st3215_driver/src/servo_bus.cpp:574-603 | skipping of unchanged vectors, keepalive, and what a failed write leaves unchanged |
| BusWorker.SafeIsLastFresh | src/lgh_st3215_driver/src/servo_bus.cpp:546-631 | the fallback vector is the conversion of the last fresh command selected or, before any, raw positions of a fully sampled state |
| BusWorker.WriteProvenance | src/lgh_st3215_driver/src/servo_bus.cpp:546-603 | every SyncWrite vector is the conversion of the last command selected fresh at a write-due cycle; raw positions only if there never was one |
| BusWorker.StaleStopsWrites | src/lgh_st3215_driver/src/servo_bus.cpp:558-562 | with stop_writes a stale cycle after the first command writes nothing |
| BusWorker.WritesExactly | src/lgh_st3215_driver/src/servo_bus.cpp:516-603 | a cycle attempts a SyncWrite if and only if it is the first in its slot, writes are enabled, all joints have answered where that is required, there is a fresh command, a vector to hold or a startup hold, and the vector is new or the keepalive due |
| BusWorker.WritesWhat | src/lgh_st3215_driver/src/servo_bus.cpp:550-572 | the vector it attempts: the conversion of a fresh command, the measured positions at a startup hold, otherwise the fallback vector |
| BusWorker.FullFeedbackFirst | src/lgh_st3215_driver/src/servo_bus.cpp:546-547 | with require_full_feedback no servo is written to before every joint has answered |
| BusWorker.InForceIsLastSent | src/lgh_st3215_driver/src/servo_bus.cpp:574-603 | the vector in force and its time are those of the last SyncWrite that succeeded |
| BusWorker.WrittenSequenceRises | src/lgh_st3215_driver/src/servo_bus.cpp:550-601 | the written sequence number never decreases |
| BusWorker.SelectedIsInForce | src/lgh_st3215_driver/src/servo_bus.cpp:574-603 | after a cycle without a failed write the vector in force is the one selected, also when the write was skipped |
| BusWorker.NamingBreaksExactlyOnHeldRetry | src/lgh_st3215_driver/src/servo_bus.cpp:550-601 | a cycle makes the written sequence number wrong if and only if it succeeds in holding a command other than the one last written, or any command while the number is 0 |
| BusWorker.NamingHoldsExactly | src/lgh_st3215_driver/src/servo_bus.cpp:550-601 | over every run the number has always been right if and only if no cycle did that |
| BusWorker.FailedFirstWriteMisnames | src/lgh_st3215_driver/src/servo_bus.cpp:550-601 | a run from the start of the worker in which the servos follow command 1 while the published number still says 0 |
| BusWorker.CountersAddUp | src/lgh_st3215_driver/src/servo_bus.cpp:306-397 | after n cycles ok + fail is n for each joint, the ok counts sum to the successes, and the error counters to the fail counts plus failed torque writes |
| BusWorker.EveryReplyCounted | src/lgh_st3215_driver/src/servo_bus.cpp:306-397 | over every run each counter is the number of transactions of its kind, a failed torque write counting as an I/O error |
| BusWorker.SweepsRotate | src/lgh_st3215_driver/src/servo_bus.cpp:402-406 | cycle n starts its sweep at joint n * stride modulo twelve, or always at joint 0 |
| BusWorker.TransactionOfJoint | src/lgh_st3215_driver/src/servo_bus.cpp:290-397 | what a sweep leaves of a joint is what its own transaction says, the one as many places after the start as the joint is |
| BusWorker.TorqueFailuresAreBroadcasts | src/lgh_st3215_driver/src/servo_bus.cpp:123-163 | the torque failures counted are the failed broadcasts of the handshake the cycles are taken from |
| BusWorker.RawIsLastReply | src/lgh_st3215_driver/src/servo_bus.cpp:374-393 | the raw position of a joint is that of its last good reply, and it counts as sampled exactly if there was one |
| BusWorker.PerformSyncWrite | src/lgh_st3215_driver/src/servo_bus.cpp:216-252 | the packet of a vector, with the 16-bit cast of each step |
| BusWorker.WritesReachServos | src/lgh_st3215_driver/src/servo_bus.cpp:216-231 | every SyncWrite of every run decodes; the servos receive exactly the vector selected if and only if all its steps fit 15 bits and a sign, as they do with raw limits that fit |
| PoseOverride.InvStep | src/lgh_st3215_driver/src/servo_driver_node.cpp:469-909 | every step of every callback and of the ramp thread keeps the invariant |
| PoseOverride.AtMostOneRamp | src/lgh_st3215_driver/src/servo_driver_node.cpp:543-583 | at most one ramp thread lives, no joinable handle is overwritten, and a running move has the override |
| PoseOverride.OverrideBlocksTargets | src/lgh_st3215_driver/src/servo_driver_node.cpp:491-497 | under the override external targets never change the command buffer; only measured poses and ramp points do |
| PoseOverride.RefusedExactly | src/lgh_st3215_driver/src/servo_driver_node.cpp:469-640 | which calls are refused at once, with nothing changed |
| PoseOverride.GrantedAtOnce | src/lgh_st3215_driver/src/servo_driver_node.cpp:469-640 | a target or release that is granted leaves its pose in the buffer, or the override off |
| PoseOverride.OverrideGoesOff | src/lgh_st3215_driver/src/servo_driver_node.cpp:618-640 | the override goes off only by a release, or by a finished ramp that was configured not to hold |
| PoseOverride.HeldUntilReleased | src/lgh_st3215_driver/src/servo_driver_node.cpp:618-640 | with hold-after-move it stays on until a release |
| PoseOverride.AssertedOverrideSticks | src/lgh_st3215_driver/src/servo_driver_node.cpp:642-856 | once hold, abort or a torque service has asserted it, no ramp step and no external write follows until a release or a new move |
| PoseOverride.HoldCompletes | src/lgh_st3215_driver/src/servo_driver_node.cpp:642-700 | a hold that has joined returns true with override on, no ramp alive and the measured pose in the buffer |
| PoseOverride.AbortCompletes | src/lgh_st3215_driver/src/servo_driver_node.cpp:794-856 | the same for an abort |
| PoseOverride.TorqueOffCompletes | src/lgh_st3215_driver/src/servo_driver_node.cpp:702-733 | torque goes off with the override on and no ramp alive; the reply is that of the bus |
| PoseOverride.TorqueOnCompletes | src/lgh_st3215_driver/src/servo_driver_node.cpp:735-792 | torque comes on only with the measured pose in the buffer, the override on and no ramp alive |
| PoseOverride.MoveCompletes | src/lgh_st3215_driver/src/servo_driver_node.cpp:543-584 | a move that has joined starts one ramp from the measured pose to its goal, with the override on |
| PoseOverride.ReleaseNeverCutsARampShort | src/lgh_st3215_driver/src/servo_driver_node.cpp:618-640 | a release finds no ramp still moving |
| PoseOverride.CompletedRampReachesGoal | src/lgh_st3215_driver/src/servo_driver_node.cpp:890-892 | a ramp that ends by itself leaves its goal in the buffer |
| PoseOverride.RampNeverJumps | src/lgh_st3215_driver/src/servo_driver_node.cpp:571-892 | in every interleaving each store of a ramp lies between the target before it and the goal, at most 1.5*|goal-start|/N away |
| PoseOverride.RampAdvances | src/lgh_st3215_driver/src/servo_driver_node.cpp:878-909 | every ramp step brings the thread nearer its end, so joins return |
| PoseOverride.CallbacksReturn | src/lgh_st3215_driver/src/servo_driver_node.cpp:469-856 | no deadlock: a callback can step, each of its steps brings it nearer its return, or it waits in a join for a ramp thread that can step |
| PoseOverride.StopIsRaised | src/lgh_st3215_driver/src/servo_driver_node.cpp:642-856 | every callback that is about to join has the stop flag raised |
| PoseOverride.StopCutsTheRamp | src/lgh_st3215_driver/src/servo_driver_node.cpp:642-892 | while it waits to join, the ramp stores at most one more target in every interleaving |
| PoseOverride.StartsClear | src/lgh_st3215_driver/src/servo_driver_node.cpp:469-640 | until a move, hold, abort or torque service is called there is no override, no ramp and no flag raised |
| PolicyGate.PolicyNode.ImuCallback | src/littlegreen_biped_pkg/src/littlegreen_biped_node.cpp:1928-1972 | startup and recovery hold, discontinuity and latch |
| PolicyGate.PolicyNode.MakeReadySnapshot | src/littlegreen_biped_pkg/src/littlegreen_biped_node.cpp:2189-2228 | ready exactly with a valid, recent, uninhibited IMU (or the override) and recent joints |
| PolicyGate.PolicyNode.ValidateHandoffState | src/littlegreen_biped_pkg/src/littlegreen_biped_node.cpp:2489-2543 | true exactly at the handoff pose: position, velocity, command, rate and tilt within tolerance |
| PolicyGate.PolicyNode.ArmHandoff | src/littlegreen_biped_pkg/src/littlegreen_biped_node.cpp:2545-2585 | what an arm changes, accepted or not |
| PolicyGate.PolicyNode.EnableAuthority | src/littlegreen_biped_pkg/src/littlegreen_biped_node.cpp:2587-2628 | what an enable changes, accepted or not |
| PolicyGate.PolicyNode.DisableAuthority | src/littlegreen_biped_pkg/src/littlegreen_biped_node.cpp:2630-2641 | a disable takes authority and arming away and nothing else |
| PolicyGate.PolicyNode.RunPolicyAndPublish | src/littlegreen_biped_pkg/src/littlegreen_biped_node.cpp:2742-2903 | when inference runs, what it observes, what is published and what is remembered |
| PolicyGate.PublishedTarget | src/littlegreen_biped_pkg/src/littlegreen_biped_node.cpp:2347-2395 | the published target of a joint is default + scale * remembered action, or the joint limit that exceeds; the action remembered is the one inferred, or its limit |
| PolicyGate.PublishesExactly | src/littlegreen_biped_pkg/src/littlegreen_biped_node.cpp:2742-2903 | inference and publication happen exactly in a trusted state, enabled, with authority where the handoff is required, and in live mode |
| PolicyGate.ObservedState | src/littlegreen_biped_pkg/include/littlegreen_biped_pkg/policy_observation_contract.hpp:62-101 | every value of the observation: command, rate, gravity, position minus default, velocity, action before, phase |
| PolicyGate.GrantsExactly | src/littlegreen_biped_pkg/src/littlegreen_biped_node.cpp:2489-2628 | an arm or enable is granted exactly where the handoff is required, the state can be trusted and the robot stands still and upright at the pose; an enable also needs an armed node |
| PolicyGate.HoldStartsExactly | src/littlegreen_biped_pkg/src/littlegreen_biped_node.cpp:1928-1960 | in every run a sample starts a hold exactly after too long a gap, or at a jump of the orientation without rotation |
| PolicyGate.DiscontinuityRevokes | src/littlegreen_biped_pkg/src/littlegreen_biped_node.cpp:1950-1972 | a discontinuity takes authority and arming away exactly in a live node with the gate and the latch |
| PolicyGate.ArmedExactlySince | src/littlegreen_biped_pkg/src/littlegreen_biped_node.cpp:2545-2641 | armed if and only if an arm succeeded with no disable, latched discontinuity or rejected pose since |
| PolicyGate.AuthorityExactlySince | src/littlegreen_biped_pkg/src/littlegreen_biped_node.cpp:2545-2641 | authority if and only if an enable succeeded with no disable, latched discontinuity or arm attempt since |
| PolicyGate.HoldIsTheLatest | src/littlegreen_biped_pkg/src/littlegreen_biped_node.cpp:1931-1948 | the inhibit time is always that of the latest sample that started a hold |
| PolicyGate.StartupHoldEndsEarly | src/littlegreen_biped_pkg/src/littlegreen_biped_node.cpp:1931-1948 | in every run the inhibition ends before the startup hold would if and only if the latest hold is a recovery hold that ends before it |
| PolicyGate.StartupHoldLasts | src/littlegreen_biped_pkg/src/littlegreen_biped_node.cpp:1931-1948 | with a recovery hold no shorter than the startup hold no run is ready before the startup hold has passed |
| PolicyGate.InferenceIsAuthorised | src/littlegreen_biped_pkg/src/littlegreen_biped_node.cpp:1928-2763 | every inference and publication of a gated live node follows an arm and then an enable with no disable or discontinuity since the arm, the recovery hold after every discontinuity, and a recent sample |
| PolicyGate.FirstInferenceSeesSeed | src/littlegreen_biped_pkg/src/littlegreen_biped_node.cpp:2618-2623 | the first inference after an enable observes exactly the previous-action seed of the profile |
| PolicyGate.PreviousActionSince | src/littlegreen_biped_pkg/src/littlegreen_biped_node.cpp:2899-2903 | the remembered action is the seed or the bounded action of the last event that set it |
| PolicyGate.PreviousAtFirst | src/littlegreen_biped_pkg/src/littlegreen_biped_node.cpp:1716 | before any such event it is twelve zeros |
| PolicyGate.PublicationIsBounded | src/littlegreen_biped_pkg/src/littlegreen_biped_node.cpp:2879-2903 | only an authorised live tick publishes, within the joint limits, and what it remembers is within the action limits |
| PolicyGate.RecoveryCanShortenStartup | src/littlegreen_biped_pkg/src/littlegreen_biped_node.cpp:1931-1948 | for every configuration with a shorter recovery hold and a positive gap limit, a run that is ready before the startup hold has passed |
| PolicyVectors.Observation | src/littlegreen_biped_pkg/include/littlegreen_biped_pkg/policy_observation_contract.hpp:62-101 | 45 values, or 47 with a phase pair, with the previous action at 33 to 44 |
| PolicyVectors.ComputeTarget | src/littlegreen_biped_pkg/src/littlegreen_biped_node.cpp:2347-2395 | the loop bounds actions and targets and returns the unclipped targets; each saturation mask has a bit exactly for an action or target outside its limit |
| HandoffTool.HandoffController.CallWithRetry | src/littlegreen_biped_pkg/scripts/policy_handoff_control.py:143-165 | a retry loop ends with a granted call or at its deadline |
| HandoffTool.HandoffController.Run | src/littlegreen_biped_pkg/scripts/policy_handoff_control.py:168-233 | every run of main is a trace of the stage machine: each call follows from the replies before it, and so does the exit code |
| HandoffTool.ArmStageOnlyArms | src/littlegreen_biped_pkg/scripts/policy_handoff_control.py:205-208 | an arm stage calls nothing but arm, again after each refusal and never after a grant |
| HandoffTool.PoseStageOnlyMoves | src/littlegreen_biped_pkg/scripts/policy_handoff_control.py:192-203 | a pose stage configures, then moves, and stops at the first refusal |
| HandoffTool.DisableStageOnlyHolds | src/littlegreen_biped_pkg/scripts/policy_handoff_control.py:186-190 | a disable stage disables, then holds, and stops at the first refusal |
| HandoffTool.LiveStagesInOrder | src/littlegreen_biped_pkg/scripts/policy_handoff_control.py:192-225 | a live or release stage calls in order: arm and release repeated until granted, a refused enable followed by a hold and nothing else |
| HandoffTool.NoProfileNoCalls | src/littlegreen_biped_pkg/scripts/policy_handoff_control.py:168-184 | without an accepted profile nothing is called |
| Handoff.ProtocolHolds | src/littlegreen_biped_pkg/scripts/policy_handoff_control.py:127-134 | request, callback and reply never overlap, and belong to the service awaited |
| Handoff.NothingIsLost | src/littlegreen_biped_pkg/scripts/policy_handoff_control.py:127-134 | while the tool awaits a service its request is on the way, being served, or answered |
| Handoff.EachPartStepsAlone | src/littlegreen_biped_pkg/scripts/policy_handoff_control.py:98-134 | each step of the system is a step of one part by its own transition function, and the others stand still |
| Handoff.RunIsTrace | src/littlegreen_biped_pkg/scripts/policy_handoff_control.py:168-233 | in every run of the whole system the calls of the tool, with the replies they got, are a trace of main, so that the laws of the stages hold of the system |
| Handoff.FailureKeepsOverride | src/littlegreen_biped_pkg/scripts/policy_handoff_control.py:192-230 | once the move was accepted, with hold-after-move, every non-zero exit leaves the driver override on |
| Handoff.FailureAfterRelease | src/littlegreen_biped_pkg/scripts/policy_handoff_control.py:214-230 | after a granted release a failure brings the override back if and only if the driver may write |
| Handoff.WithoutHoldTheOverrideIsLost | src/lgh_st3215_driver/src/servo_driver_node.cpp:905-908 | without hold-after-move an exit short of the hold leaves the override off once the ramp has ended |
| Handoff.AuthorityFollowsRelease | src/littlegreen_biped_pkg/scripts/policy_handoff_control.py:210-216 | authority is enabled only after a successful arm and then a granted release, with the override off from then on |
| Handoff.PreparationKeepsOverride | src/littlegreen_biped_pkg/scripts/policy_handoff_control.py:192-208 | an arm or pose stage never enables authority and never asks for a release, and with hold-after-move the override stays on through every step |
| Handoff.SuccessMeansEnabled | src/littlegreen_biped_pkg/scripts/policy_handoff_control.py:210-225 | a live or release stage that exits with zero did enable authority |
| Handoff.DisableLatches | src/littlegreen_biped_pkg/scripts/policy_handoff_control.py:186-190 | a disable stage that exits with zero leaves no authority, no arming, the override on and no ramp thread alive |
| Handoff.MoveAimsAtProfile | src/littlegreen_biped_pkg/scripts/policy_handoff_control.py:192-198 | the ramp of an accepted move heads for the pose of the profile |
| OuterController.OuterLoopPositionController.constructor | src/pd_controller_pkg/pd_controller_pkg/core.py:71-74 | zero state, not initialised |
| OuterController.OuterLoopPositionController.ResetTo | src/pd_controller_pkg/pd_controller_pkg/core.py:86-100 | what a reset changes, including the part it keeps when the velocity has the wrong length |
| OuterController.OuterLoopPositionController.ComputeNext | src/pd_controller_pkg/pd_controller_pkg/core.py:102-190 | the whole new state of a compute, and when it raises instead |
| OuterController.ComputesObey | src/pd_controller_pkg/pd_controller_pkg/core.py:125-180 | in any run a compute with valid arguments obeys the control law: integral the clipped sum, wanted velocity the weighted errors, commanded velocity the nearest allowed one; any other changes nothing |
| OuterController.UnlimitedLaw | src/pd_controller_pkg/pd_controller_pkg/core.py:125-162 | while no limit binds the joint moves with exactly kp * error + kd * rate error + ki * integral |
| OuterController.HeadsForReference | src/pd_controller_pkg/pd_controller_pkg/core.py:125-162 | a joint at rest with a proportional gain moves towards its reference under any limits, and does move where there is room |
| OuterController.ResetsStand | src/pd_controller_pkg/pd_controller_pkg/core.py:86-100 | a reset puts every joint where it is told, within the limits, with no integral |
| OuterController.AlwaysSafe | src/pd_controller_pkg/pd_controller_pkg/core.py:86-190 | after any calls with any arguments an initialised controller is inside joint limits, velocity and integral bounds |
| OuterController.ComputesAreBounded | src/pd_controller_pkg/pd_controller_pkg/core.py:145-181 | a compute moves a joint at most maxVelocity*dt and changes its velocity at most maxAcceleration*dt, except where the position limit cuts it towards rest |
| OuterController.ComputeIsSafe | src/pd_controller_pkg/pd_controller_pkg/core.py:125-180 | the same for one joint from any safe state |
| OuterController.NoWindup | src/pd_controller_pkg/pd_controller_pkg/core.py:164-175 | while the command overshoots a limit the integral moves no further that way |
| ReferenceShaper.ShapeIsBounded | src/pd_controller_pkg/pd_controller_pkg/pd_controller_node.py:732-762 | the reference stays in the limits and moves at most maxSpeed*dt under the rate limit |
| ReferenceShaper.UnlimitedMove | src/pd_controller_pkg/pd_controller_pkg/pd_controller_node.py:732-762 | while no limit binds the reference makes exactly the move of the filter, alpha * (command - reference) |
| ReferenceShaper.HeadsForCommand | src/pd_controller_pkg/pd_controller_pkg/pd_controller_node.py:732-762 | from rest the reference moves towards the command under any limits, and does move where there is room |
| ReferenceShaper.ShapeLaw | src/pd_controller_pkg/pd_controller_pkg/pd_controller_node.py:732-762 | one tick as a law: the move, what the acceleration and rate limits leave of its velocity, and the position that leads to within the limits |
| ReferenceShaper.CoastSlows | src/pd_controller_pkg/pd_controller_pkg/pd_controller_node.py:732-762 | one tick asking for the reference itself: the speed falls by at least a*dt, not past zero, also at a joint limit |
| ReferenceShaper.CoastingStops | src/pd_controller_pkg/pd_controller_pkg/pd_controller_node.py:732-762 | after n such ticks the speed is at most v0 - n*a*dt or zero, and 2*a*way + v^2 never exceeds v0^2 |
| ReferenceShaper.StopsWithinDistance | src/pd_controller_pkg/pd_controller_pkg/pd_controller_node.py:732-762 | the total further travel is at most v0^2/(2a) |
| ReferenceShaper.CoastingLaw | src/pd_controller_pkg/pd_controller_pkg/pd_controller_node.py:732-762 | the two bounds on speed and way, written out |
| ReferenceShaper.CoastingStays | src/pd_controller_pkg/pd_controller_pkg/pd_controller_node.py:732-762 | a stopped reference stays, and without the acceleration limit it stops at once |
| ReferenceShaper.OvershootsExactly | src/pd_controller_pkg/pd_controller_pkg/pd_controller_node.py:732-762 | a tick passes the command if and only if the acceleration limit is on, one tick of braking leaves more velocity than the way to go, and there is room beyond |
| ReferenceShaper.OvershootHappens | src/pd_controller_pkg/pd_controller_pkg/pd_controller_node.py:732-762 | a command of three units approached from rest is overshot by one |
| ReferenceShaper.ShapeMirrors | src/pd_controller_pkg/pd_controller_pkg/pd_controller_node.py:732-762 | shaping commutes with negation, so approaching from above is the same |
| PdNode.PdControllerNode.DesiredPosition | src/pd_controller_pkg/pd_controller_pkg/pd_controller_node.py:470-483 | a command is clipped, stored and timed; a short message is ignored |
| PdNode.PdControllerNode.AlignToFeedback | src/pd_controller_pkg/pd_controller_pkg/pd_controller_node.py:573-583 | reference, target and outer controller all stand at the clipped feedback |
| PdNode.PdControllerNode.ResetToFeedback | src/pd_controller_pkg/pd_controller_pkg/pd_controller_node.py:544-556 | the reset service aligns exactly when feedback is ready |
| PdNode.PdControllerNode.TimeoutSafeDesired | src/pd_controller_pkg/pd_controller_pkg/pd_controller_node.py:695-710 | command, reference or default, by age |
| PdNode.PdControllerNode.ShapeReference | src/pd_controller_pkg/pd_controller_pkg/pd_controller_node.py:732-762 | the array operations shape every joint alike |
| PdNode.PdControllerNode.ControlLoop | src/pd_controller_pkg/pd_controller_pkg/pd_controller_node.py:588-645 | a tick of the node is the tick of every joint |
| PdNode.TickDoes | src/pd_controller_pkg/pd_controller_pkg/pd_controller_node.py:588-645 | in every run a tick shapes the reference towards the command in force, and the target is the reference, the last target, or the output of the outer controller, which obeys its law |
| PdNode.OtherEventsDo | src/pd_controller_pkg/pd_controller_pkg/pd_controller_node.py:470-556 | what a command and a reset change |
| PdNode.RemembersCommand | src/pd_controller_pkg/pd_controller_pkg/pd_controller_node.py:470-483 | the command kept is the last one received, clipped, with its time |
| PdNode.RemembersAlignment | src/pd_controller_pkg/pd_controller_pkg/pd_controller_node.py:544-616 | the node counts as aligned exactly since a reset or, where configured, a tick with feedback |
| PdNode.TargetsAreBounded | src/pd_controller_pkg/pd_controller_pkg/pd_controller_node.py:588-645 | every published target lies in the joint limits and keeps the speed bound of the mode between alignments; the first one too if the default pose is inside the limits |
| PdNode.TimeoutStops | src/pd_controller_pkg/pd_controller_pkg/pd_controller_node.py:695-762 | while no command is in time and nothing aligns the node, the reference coasts to rest within v0^2/(2a), whether or not it was ever aligned |
| Protobuf.ReadVarint | src/littlegreen_biped_pkg/scripts/policy_bundle_audit.py:299-310 | the loop reads what the recursive definition reads, or fails with it |
| Protobuf.VarintRoundTrip | src/littlegreen_biped_pkg/scripts/policy_bundle_audit.py:299-310 | a varint is read back, consuming exactly its bytes, if and only if it fits eleven bytes |
| Protobuf.SixtyFourBitsFit | src/littlegreen_biped_pkg/scripts/policy_bundle_audit.py:299-310 | every 64-bit value does |
| Protobuf.ProtobufFields | src/littlegreen_biped_pkg/scripts/policy_bundle_audit.py:313-329 | the generator, run to its end on any buffer, yields the recursive parse; it always terminates |
| Protobuf.FieldsRoundTrip | src/littlegreen_biped_pkg/scripts/policy_bundle_audit.py:313-329 | every list of fields of wire types 0, 1, 2 and 5 parses back to itself |
| Protobuf.TruncationGoesUnnoticed | src/littlegreen_biped_pkg/scripts/policy_bundle_audit.py:313-329 | a field of wire type 1, 2 or 5 cut short is accepted; its value is the announced one if and only if the buffer reaches that far |
| OnnxContract.ReadValueInfo | src/littlegreen_biped_pkg/scripts/policy_bundle_audit.py:340-352 | the field loop keeps the last name and type |
| OnnxContract.ReadTensor | src/littlegreen_biped_pkg/scripts/policy_bundle_audit.py:353-370 | element type and shape |
| OnnxContract.ReadDim | src/littlegreen_biped_pkg/scripts/policy_bundle_audit.py:363-369 | the last size or name of a dimension |
| OnnxContract.ValueInfoRecovered | src/littlegreen_biped_pkg/scripts/policy_bundle_audit.py:340-370 | name, type and shape are recovered from their encoding |
| OnnxContract.ContractRecovered | src/littlegreen_biped_pkg/scripts/policy_bundle_audit.py:373-388 | a model with one graph input and one output, among any other fields, is read as exactly these |
| HandoffProfile.ClampPose | src/littlegreen_biped_pkg/scripts/install_exported_policy_bundle.py:143-166 | the effective pose and the clamp records, or an error where a limit is exceeded by more than 0.002 rad |
| HandoffProfile.NormalizeHandoffProfile | src/littlegreen_biped_pkg/scripts/install_exported_policy_bundle.py:71-210 | exactly which sources install, and the profile they give |
| HandoffProfile.InstallsExactly | src/littlegreen_biped_pkg/scripts/install_exported_policy_bundle.py:71-166 | every condition on the source under which the installer accepts it |
| HandoffProfile.InstalledProfile | src/littlegreen_biped_pkg/scripts/install_exported_policy_bundle.py:143-210 | every field of the profile it installs, the pose being source plus trim within the joint limits |
| HandoffProfile.ClampByIndex | src/littlegreen_biped_pkg/scripts/policy_bundle_audit.py:585-602 | the dictionary of clamp records, and when an index is bad |
| HandoffProfile.LoadProfile | src/littlegreen_biped_pkg/scripts/policy_handoff_control.py:33-82 | the loader of the tool accepts exactly the profiles that decompose |
| HandoffProfile.ToolAcceptsExactly | src/littlegreen_biped_pkg/scripts/policy_handoff_control.py:33-82 | every condition of the handoff tool on a profile |
| HandoffProfile.ValidatePolicyHandoff | src/littlegreen_biped_pkg/scripts/policy_bundle_audit.py:540-669 | the list of errors is empty exactly for the profiles the audit accepts |
| HandoffProfile.AuditAcceptsExactly | src/littlegreen_biped_pkg/scripts/policy_bundle_audit.py:540-669 | every condition the audit adds to those of the tool |
| HandoffProfile.ConfigureHandoff | src/littlegreen_biped_pkg/src/littlegreen_biped_node.cpp:1145-1239 | the node accepts exactly the profiles whose pose it recomputes |
| HandoffProfile.NodeAcceptsExactly | src/littlegreen_biped_pkg/src/littlegreen_biped_node.cpp:1145-1239 | every condition of the node, which recomputes the pose and reads no clamp records |
| HandoffProfile.RecordsByIndex | src/littlegreen_biped_pkg/scripts/install_exported_policy_bundle.py:159-166 | the records name exactly the joints clamped, once each |
| HandoffProfile.InstalledIsAccepted | src/littlegreen_biped_pkg/scripts/install_exported_policy_bundle.py:143-210 | every installed profile with a checksum is accepted by tool, audit and node |
| HandoffProfile.ReinstallKeepsTrim | src/littlegreen_biped_pkg/scripts/install_exported_policy_bundle.py:110-141 | installing over its own result changes nothing |
| HandoffProfile.SwitchingForgetsTrim | src/littlegreen_biped_pkg/scripts/install_exported_policy_bundle.py:110-141 | a policy installed again after another one was starts with zero trim |
| HandoffProfile.AuditCoversTool | src/littlegreen_biped_pkg/scripts/policy_bundle_audit.py:585-645 | what the audit accepts the tool accepts |
| HandoffProfile.AuditedProfileOnNode | src/littlegreen_biped_pkg/src/littlegreen_biped_node.cpp:1193-1215 | the node accepts an audited profile if and only if its phase has two values and every declared clamp is where the node clamps |
| HandoffProfile.DeclaredClampFoolsAudit | src/littlegreen_biped_pkg/scripts/policy_bundle_audit.py:622-645 | a declared clamp of half a radian passes audit and tool and fails on the node |

## Left out

- UART system calls, `poll`, descriptor flushing, locks, thread priorities and CPU affinity: replaced by
  the outcomes they can have.
- ROS publishers, QoS, parameters, diagnostics text, telemetry and launch files: no logic of their own here.
- ONNX inference: any twelve finite values, or a failure.
- Floating-point rounding, non-finite values and the 2^53 limits of doubles: everything is real arithmetic on
  finite values; the non-finite branches of the nodes are not modelled.
- Quaternion and gravity computations, and the gait phase clock: their results are inputs of the policy gate.
- YAML, JSON and UTF-8 decoding, the error texts, and the metadata checks of the bundle audit other than the
  handoff profile.
- Velocity filtering of servo samples, statistics windows and the deadline counters of the bus worker.
- Report writers, CSV, argument parsing, key handling, teleop, IMU recorders and the description package.
- SerialFrames.SerialPort.ReadFrame: the port is open, and the deadline passes when the arrivals are used
  up; the time each pass takes is not modelled.
- Sha256Stream.HashFile: the digest bytes; their hexadecimal text and the error for an unreadable file are not
  part of this model.
- TimedTransition.RunTransition: after a shutdown nothing is published, because the publisher is gone; the guard
  and the operator keys are one flag per pass.
- PdNode.TargetsAreBounded: the first target of a node whose default pose is outside the joint limits is inside
  them, but nothing bounds how far it is from that pose.
- PdNode.PdControllerNode.ControlLoop: whether feedback is ready is an input, and debug topics are not part of
  this model.
- BusWorker.ServoBus.WorkerCycle: deadline counters, telemetry and statistics are not modelled, and the outcome
  of the torque request is an input; `TorqueFailuresAreBroadcasts` says which one.
- BusWorker.PerformSyncWrite: builds the packet; the UART write and its counters are the worker cycle's.
- SerialFrames.SerialPort.FlushInput: empties the receive buffer; the flush of the descriptor is not modelled.
- FeedbackSweep.Reader.PerformFeedbackSweep: the outcome of each transaction is an input, and the flush after a
  failed one is left to the serial port.
- FeedbackSweep.Reader.RecordTransaction: sets position, status and counts; the velocity and its filter are not
  modelled.
- PolicyGate.InferenceIsAuthorised: for a live node with the handoff gate, latching discontinuities and no IMU
  override; otherwise the node promises less.
- PolicyGate.PolicyNode.ArmHandoff: the restart of the gait phase on an arm is not modelled.
- PolicyGate.PolicyNode.RunPolicyAndPublish: the shadow and debug topics are not part of this model; a refused
  observation and a failed inference are one outcome.
- Handoff.FailureKeepsOverride: every service reply is delivered and no other client calls the services; lost
  replies, timeouts of a single call and keyboard interrupts are not modelled.
- Handoff.AuthorityFollowsRelease: alignment of the PD node before the release is left to the operator, as in
  the code.
- TorqueHandshake.TorqueControl.ProcessTorqueRequest: run with no post in between; the interleavings are in the
  lemmas.
