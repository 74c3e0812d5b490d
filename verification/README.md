# Verified model of the AutoRacer vehicle boundary, planners and race runtime

A Dafny model of the parts of AutoRacer that decide whether the vehicle may move, how fast,
and on what data. Every callback and algorithm is modelled with the branches, constants and
error cases of the code; the theorems are about all inputs and all runs.

- **RC chassis node** (`ChassisMachine`, `ChassisSafety`, `ChassisTheorems`, `ChassisReach`,
  `ChassisWire`, `ChassisFlags`, `ChassisResponses`, `ChassisStream`, `VehicleInterface`). One
  function per callback over an adversarial serial link: each write attempt meets arbitrary
  answers of the operating system, and a failed write closes the port from inside its caller. The
  class `RcVehicleInterface` holds the same callbacks on the node's own fields and is proved to
  make exactly these steps, so the run theorems are about it. What was received and what was put
  on the wire is kept as a history (`ChassisJournal`), and the theorems read it. They speak of
  bytes and status words where they can: which frames those entries put on the wire
  (`ChassisWire`), what each stimulus adds to the history, on the bits of the received word
  (`ChassisResponses`), what the node's flags mean over a run (`ChassisFlags`), and which frames
  the received bytes make (`ChassisStream`).
- **Vehicle state** (`VehicleState`, `HallHistory`, `ChassisHall`): status bits, gears, command
  limits, the emergency and the Hall monitor, the latter against a specification over its whole
  history, and that history derived from every run of the chassis node.
- **Serial protocol** (`SerialProtocol`, `FeedbackDecoder`): command encoding, telemetry
  decoding and the resynchronising stream decoder with its counters.
- **Fixed course** (`SpeedSweep`, `PlaneGeometry`, `Bisect`, `CourseGeometry`,
  `CourseSmoothing`, `CourseProfile`, `CourseLaws`, `CourseBend`): resampling, bounded smoothing,
  the velocity profile and the checks a built course is validated against, each quantity also
  told by the law it obeys.
- **Local planner** (`LocalEnvelope`, `LocalPlanner`, `PlannerNode`): cleaning the course,
  progress along it, the published window and its speed envelope.
- **Race runtime** (`TimedInput`, `RaceRuntime`, `RaceRuntimeTicks`, `RaceRuntimeRuns`,
  `RaceRuntimeTheorems`, `RaceRuntimeReach`, `RaceRuntimeManager`): phases over timed inputs, with
  ticks, service calls, their answers and messages interleaving freely; what a tick does in each
  phase, to the last condition, and what requests mean over a run.
- **Sensor boundary** (`CloudRepack`, `GnssGate`, `G90Adapter`): the C32 cloud conversion in
  wrapping arithmetic, and the G90 fix gate with the watchdog above it.

Numbers: distances, speeds, times in seconds and accelerations are exact reals. The square
root is a parameter `sqrt` constrained only by its law, so nothing depends on how it is
computed. Speeds are compared through their squares. Bytes are 8-bit vectors; the 64-bit size
arithmetic of the cloud conversion is explicit.

Where the model contradicts what one would expect of the code, the exact condition is proved:

- Resampling keeps the start of a path exactly when the path is longer than 1e-6, at least one
  interval long, or closed (`CourseGeometry.ResampleEndpoints`).
- The lateral check holds of every built course under `max_speed^2 * 1e-9 <= lateral + 1e-5`.
  Where that is violated it fails on some course that is built, if the acceleration limits let
  the vehicle move at all; if not, it holds exactly down to a lateral limit of -1e-5
  (`CourseProfile.LateralCheckPasses`, `CourseBend.LateralCheckFails`,
  `CourseProfile.LateralCheckAtStandstill`).
- A positive backward distance alone does not give the published window two points: at the
  start of the course the horizon must be positive too (`LocalPlanner.WindowHasTwoPoints`).
- A tracked source stamp may creep back by 1e-9 per accepted message. The staleness bound holds
  without that slack if no message older than the stored one was taken since the last tick, and
  fails in an ACTIVE run otherwise (`RaceRuntimeTheorems.BoundedStaleness`,
  `RaceRuntimeReach.SlackIsNeeded`).
- The first-feedback flag of the chassis node is not per connection: it is set exactly if
  telemetry was worked off after the latest close, so the next connection is accepted without
  feedback of its own exactly if a frame was still worked off after that close
  (`ChassisTheorems.FeedbackFlagExactly`, `ChassisTheorems.FreshConnectionAcceptsExactly`,
  `ChassisReach.FeedbackOutlivesClose`).

`dafny verify dfyconfig.toml` checks the whole project.

## Model

| member | source | states |
|---|---|---|
| ChassisTheorems.LosingAuthorizationStops | src/platform/rc/autoracer_rc_adapter/src/rc_vehicle_interface_node.cpp:319-480 | In every state of every run without authorization, each enabled frame ever written was followed by the port closing or by a frame whose bytes are 7B 01 80, six zeros, FA, 7D, however the writes went |
| ChassisTheorems.FramesOnWire | src/platform/rc/autoracer_rc_adapter/src/rc_vehicle_interface_node.cpp:346-428 | On the bytes of every frame of every run: a stop entry is flag 0x80 with zero fields, a clear-fault entry flag 0x04 with zero fields, an enabled entry flag 0x01 with fields that decode to the command it stands for; no other entry is a frame |
| ChassisWire.EntriesOnWire | src/platform/rc/autoracer_rc_adapter/src/rc_serial_protocol.cpp:98-142 | An entry is a stop frame or a clear-fault frame byte for byte exactly if it is a stop or a clear-fault entry |
| ChassisTheorems.FlagsAgree | src/platform/rc/autoracer_rc_adapter/src/rc_vehicle_interface_node.cpp:461-480 | In every reachable state: authorized implies port open, not latched, no stop already sent, no live fault, and a pending handshake if the fault latch shows; an unstopped command implies authorized |
| ChassisTheorems.MotionStandsOn | src/platform/rc/autoracer_rc_adapter/src/rc_vehicle_interface_node.cpp:571-767 | Every enabled frame stands on an acceptance that nothing revoked since, and that acceptance on a clear emergency message no older than the timeout |
| ChassisTheorems.EmergencyDiscipline | src/platform/rc/autoracer_rc_adapter/src/rc_vehicle_interface_node.cpp:562-569 | After an active emergency message no enabled frame until a later clear message and, after that, an accepted AUTONOMOUS request |
| ChassisTheorems.LatchDiscipline | src/platform/rc/autoracer_rc_adapter/src/rc_vehicle_interface_node.cpp:461-480 | After a latched stop, a release, a close or an active emergency, no enabled frame until a new acceptance |
| ChassisTheorems.EnabledFrames | src/platform/rc/autoracer_rc_adapter/src/rc_vehicle_interface_node.cpp:678-773 | Every enabled frame: encodable, speed 0 or inside the configured band and of the sign of the latest gear command, covered by a clear and fresh emergency status; in the latest received status word bit 0x400 is clear, and while its bit 0x1 is set speed and steering are 0 |
| ChassisTheorems.ControlForwardsExactly | src/platform/rc/autoracer_rc_adapter/src/rc_vehicle_interface_node.cpp:678-773 | A Control message puts an enabled frame on the wire exactly if the node is authorized with an open port, a fresh clear emergency status, a stamp in both windows and not before the newest, an encodable setpoint and a delivering write; the frame is then the setpoint, or zero where the gear or a pending handshake demands it, all spelled out |
| ChassisTheorems.DeliversExactly | src/platform/rc/autoracer_rc_adapter/src/rc_vehicle_interface_node.cpp:359-403 | A frame is delivered exactly if the answers of the operating system, interruptions and waits aside, take its bytes one part after the other to the end |
| ChassisTheorems.StampsNeverGoBack | src/platform/rc/autoracer_rc_adapter/src/rc_vehicle_interface_node.cpp:482-515 | Control stamps of enabled frames never decrease over a run, across reconnects |
| ChassisTheorems.ClearFaultFrames | src/platform/rc/autoracer_rc_adapter/src/rc_vehicle_interface_node.cpp:853-885 | Each clear-fault frame lies in a handshake opened by an acceptance under a latched fault and still open, after an enabled zero frame of that same handshake, and is its first; from the opening on nothing revoked authorization and no telemetry confirmed the latch clear |
| ChassisTheorems.OneClearPerHandshake | src/platform/rc/autoracer_rc_adapter/src/rc_vehicle_interface_node.cpp:853-885 | Between two clear-fault frames a new handshake begins |
| ChassisTheorems.TimerDropsStaleAuthorization | src/platform/rc/autoracer_rc_adapter/src/rc_vehicle_interface_node.cpp:1054-1061 | After a timer tick, whatever it read, the node is authorized only if it was before and the emergency status is fresh and clear at that tick |
| ChassisTheorems.FeedbackFlagExactly | src/platform/rc/autoracer_rc_adapter/src/rc_vehicle_interface_node.cpp:319-344 | In every reachable state the first-feedback flag is set exactly if some telemetry was worked off that no close followed |
| ChassisTheorems.AcceptanceHeard | src/platform/rc/autoracer_rc_adapter/src/rc_vehicle_interface_node.cpp:571-617 | Every accepted AUTONOMOUS request has telemetry since the latest close, and of its own connection unless telemetry was worked off between that close and the reopening |
| ChassisTheorems.FreshConnectionAcceptsExactly | src/platform/rc/autoracer_rc_adapter/src/rc_vehicle_interface_node.cpp:571-617 | A connection just opened, with no feedback of its own, is accepted for AUTONOMOUS exactly if telemetry was worked off after the latest close, the emergency status is fresh and clear, and there is no live fault |
| ChassisReach.FeedbackOutlivesClose | src/platform/rc/autoracer_rc_adapter/src/rc_vehicle_interface_node.cpp:954-997 | The flag is not per connection: some run ends in a close, telemetry of the chunk being worked off, a reopening and an accepted AUTONOMOUS request |
| ChassisReach.AuthorisationIsReachable | src/platform/rc/autoracer_rc_adapter/src/rc_vehicle_interface_node.cpp:571-643 | Some run reaches an authorized state, in any gear |
| ChassisTheorems.TelemetryOnlyIsSilent | src/platform/rc/autoracer_rc_adapter/src/rc_vehicle_interface_node.cpp:346-354 | A telemetry-only node never puts a frame on the wire |
| ChassisReach.MotionIsReachable | src/platform/rc/autoracer_rc_adapter/src/rc_vehicle_interface_node.cpp:562-767 | Any speed and steering angle within the limits that the wire can carry is the last frame of some run: open, clear status, healthy telemetry, the gear of its direction, authorization, one Control message |
| ChassisSafety.RunsAreSafe | src/platform/rc/autoracer_rc_adapter/src/rc_vehicle_interface_node.cpp:319-1080 | The invariant behind the theorems holds in every reachable state, for every sequence of callbacks, clocks and link answers |
| ChassisSafety.StepKeeps | src/platform/rc/autoracer_rc_adapter/src/rc_vehicle_interface_node.cpp:319-1080 | Every callback keeps the invariant |
| ChassisSafety.StopKeeps | src/platform/rc/autoracer_rc_adapter/src/rc_vehicle_interface_node.cpp:405-428 | A stop leaves nothing unstopped, whether the frame went out or its failure closed the port from inside the caller |
| ChassisSafety.LatchKeeps | src/platform/rc/autoracer_rc_adapter/src/rc_vehicle_interface_node.cpp:461-480 | Latching from any state, even one in which authorization is already revoked, restores the core of the invariant unauthorized |
| ChassisSafety.MotionKeeps | src/platform/rc/autoracer_rc_adapter/src/rc_vehicle_interface_node.cpp:726-766 | Sending a motion command, including a failed write, keeps the invariant |
| ChassisSafety.HandshakeStepKeeps | src/platform/rc/autoracer_rc_adapter/src/rc_vehicle_interface_node.cpp:862-885 | The fault-clear step restores the link between flags and history that a telemetry frame broke |
| ChassisJournal.SafeAt | src/platform/rc/autoracer_rc_adapter/src/rc_vehicle_interface_node.cpp:678-773 | A safe history is safe at every prefix, so each frame was justified when it was written |
| ChassisJournal.AuthorisedExactly | src/platform/rc/autoracer_rc_adapter/src/rc_vehicle_interface_node.cpp:619-643 | Authorized is exactly: some accepted request that no release, latch, close or active emergency followed |
| ChassisJournal.HeardExactly | src/platform/rc/autoracer_rc_adapter/src/rc_vehicle_interface_node.cpp:319-344 | Feedback heard is exactly: some telemetry that no close followed |
| ChassisFlags.FlagsExactly | src/platform/rc/autoracer_rc_adapter/src/rc_vehicle_interface_node.cpp:319-480 | In every reachable state: a stop counts as sent exactly if a stop frame stands that no acceptance and no close followed, the latch is a latched stop that no acceptance followed, and the override flag is the bit of the latest telemetry of the connection |
| ChassisFlags.TelemetryOnlyOpensOnce | src/platform/rc/autoracer_rc_adapter/src/rc_vehicle_interface_node.cpp:272-317 | A telemetry-only node opens the port at most once in a run |
| ChassisResponses.EmergencyExactly | src/platform/rc/autoracer_rc_adapter/src/rc_vehicle_interface_node.cpp:562-569 | An active emergency message latches and stops whether or not the node is authorized; a clear one is only noted |
| ChassisResponses.ControlExactly | src/platform/rc/autoracer_rc_adapter/src/rc_vehicle_interface_node.cpp:678-773 | A Control message does nothing without authorization, stops under an emergency status that is not fresh and clear, and where it is put on the wire goes out or closes the port; otherwise it does nothing |
| ChassisResponses.ModeRequestExactly | src/platform/rc/autoracer_rc_adapter/src/rc_vehicle_interface_node.cpp:571-676 | AUTONOMOUS is granted exactly under the listed conditions and otherwise changes nothing; MANUAL and NO_COMMAND revoke and answer whether the stop they needed went out; anything else is refused |
| ChassisResponses.ShutdownExactly | src/platform/rc/autoracer_rc_adapter/src/rc_vehicle_interface_node.cpp:173-183 | A shutdown adds a stop attempt exactly if a command is outstanding, and then the close |
| ChassisResponses.TimerExactly | src/platform/rc/autoracer_rc_adapter/src/rc_vehicle_interface_node.cpp:1054-1080 | A tick reopens a closed port, then latches an authorized node whose emergency status is not fresh and clear, and closes on a poll error or hangup |
| ChassisResponses.LatchAdds | src/platform/rc/autoracer_rc_adapter/src/rc_vehicle_interface_node.cpp:461-480 | A latch leaves the node unauthorized and latched, and the port closed or with a stop frame that no acceptance followed |
| ChassisResponses.FeedbackExactly | src/platform/rc/autoracer_rc_adapter/src/rc_vehicle_interface_node.cpp:775-885 | At every decoded frame of every run, on the bits of the received word: an authorized node stops for contradictory speed feedback and for bit 0x400; in a handshake it sends one clear-fault frame when the word permits; outside one it stops for bit 0x1 |
| ChassisResponses.HallStopsExactly | src/platform/rc/autoracer_rc_adapter/src/rc_vehicle_interface_node.cpp:887-903 | At every decoded frame of every run, on the bits of the received word: the Hall reading stops the node exactly if nothing blocks the monitor, no valid motion was measured, and the history of the run is overdue |
| ChassisStream.BytesAccounted | src/platform/rc/autoracer_rc_adapter/src/rc_vehicle_interface_node.cpp:954-997 | However a read ends, every byte it took is in a decoded frame, counted as discarded or still undecided; only a read that closes the port leaves answers unread |
| ChassisStream.ReadDecodesStream | src/platform/rc/autoracer_rc_adapter/src/rc_vehicle_interface_node.cpp:954-997 | Reads that leave the port open log the status words of exactly the frames one scan of all bytes would emit, whatever the chunks, and keep its undecided rest |
| VehicleInterface.RcVehicleInterface.constructor | src/platform/rc/autoracer_rc_adapter/src/rc_vehicle_interface_node.cpp:1094-1110 | The constructed node is the start state of the machine and satisfies the invariant |
| VehicleInterface.RcVehicleInterface.OnControlCommand | src/platform/rc/autoracer_rc_adapter/src/rc_vehicle_interface_node.cpp:678-773 | Makes exactly the Control step of the machine and keeps the invariant |
| VehicleInterface.RcVehicleInterface.OnControlModeRequest | src/platform/rc/autoracer_rc_adapter/src/rc_vehicle_interface_node.cpp:571-676 | Makes exactly the mode-request step, with the same answer, and keeps the invariant |
| VehicleInterface.RcVehicleInterface.OnEmergencyStatus | src/platform/rc/autoracer_rc_adapter/src/rc_vehicle_interface_node.cpp:562-569 | Makes exactly the emergency step and keeps the invariant |
| VehicleInterface.RcVehicleInterface.OnGearCommand | src/platform/rc/autoracer_rc_adapter/src/rc_vehicle_interface_node.cpp:517-560 | Makes exactly the gear step and keeps the invariant |
| VehicleInterface.RcVehicleInterface.OnSerialTimer | src/platform/rc/autoracer_rc_adapter/src/rc_vehicle_interface_node.cpp:1054-1080 | Makes exactly the timer step (reopen, stale-emergency latch, poll, read) and keeps the invariant |
| VehicleInterface.RcVehicleInterface.OrderlyShutdown | src/platform/rc/autoracer_rc_adapter/src/rc_vehicle_interface_node.cpp:173-183 | Makes exactly the shutdown step: a last stop frame if one is outstanding, then the close |
| VehicleInterface.RcVehicleInterface.PublishFeedback | src/platform/rc/autoracer_rc_adapter/src/rc_vehicle_interface_node.cpp:775-903 | A decoded frame steps the machine: contract violation, live fault, handshake, new latch and Hall loss in that order |
| VehicleInterface.RcVehicleInterface.ReadSerial | src/platform/rc/autoracer_rc_adapter/src/rc_vehicle_interface_node.cpp:954-997 | The read loop steps the machine through every chunk, and finishes a decoded batch even if one of its frames closed the port |
| VehicleInterface.RcVehicleInterface.WriteFrame | src/platform/rc/autoracer_rc_adapter/src/rc_vehicle_interface_node.cpp:346-403 | The bytes are those that encode the logged command; they are logged exactly if the link delivers them, and otherwise the port is closed before the caller learns of it |
| VehicleInterface.RcVehicleInterface.PushBytes | src/platform/rc/autoracer_rc_adapter/src/rc_vehicle_interface_node.cpp:359-403 | The partial-write loop puts a prefix of the frame on the wire, in order, and succeeds exactly if the answers of the operating system deliver the whole frame |
| VehicleInterface.RcVehicleInterface.CloseSerial | src/platform/rc/autoracer_rc_adapter/src/rc_vehicle_interface_node.cpp:319-344 | Closing clears every per-connection flag, the handshake, the Hall monitor and the decoder buffer, in the machine's terms |
| VehicleInterface.RcVehicleInterface.TryOpenSerial | src/platform/rc/autoracer_rc_adapter/src/rc_vehicle_interface_node.cpp:272-317 | Opening steps the machine; a telemetry-only node tries once |
| VehicleInterface.RcVehicleInterface.TransmitSoftwareStop | src/platform/rc/autoracer_rc_adapter/src/rc_vehicle_interface_node.cpp:405-428 | Sends the encoding of the software stop; the outstanding-command flag falls only if it went out |
| VehicleInterface.RcVehicleInterface.LatchSafetyStop | src/platform/rc/autoracer_rc_adapter/src/rc_vehicle_interface_node.cpp:461-480 | The latch, and one stop frame if none was sent |
| VehicleInterface.RcVehicleInterface.CommandStampIsFresh | src/platform/rc/autoracer_rc_adapter/src/rc_vehicle_interface_node.cpp:482-515 | Accepts a stamp exactly inside the future tolerance, the maximum age, and not before the newest one sent |
| VehicleState.ControlToMotion | src/platform/rc/autoracer_rc_adapter/src/rc_vehicle_kinematics.cpp:10-54 | Fails exactly on non-finite input or invalid limits; a speed beyond the band becomes its end, one below the minimum 0, any other is kept; a steering angle is kept or becomes the end of its range |
| VehicleState.StatusReadsBack | src/platform/rc/autoracer_rc_adapter/src/rc_vehicle_state.cpp:8-77 | Any set of the ten flags, laid out as the sum of their bits with arbitrary other bits set, reads back flag by flag |
| VehicleState.WordMeans | src/platform/rc/autoracer_rc_adapter/src/rc_vehicle_state.cpp:14-50 | The reported control mode and the permission to clear faults, as conditions on the bits of the received word |
| VehicleState.EmergencyStatusMonitor.FreshAndClear | src/platform/rc/autoracer_rc_adapter/src/rc_vehicle_state.cpp:139-146 | Fresh and clear as the value model defines it, with early returns |
| VehicleState.HallFeedbackMonitor.NoteEffectiveCommand | src/platform/rc/autoracer_rc_adapter/src/rc_vehicle_state.cpp:165-180 | Restarts the acquisition only on a change of direction or a new motion |
| VehicleState.HallFeedbackMonitor.Observe | src/platform/rc/autoracer_rc_adapter/src/rc_vehicle_state.cpp:182-211 | The monitor object steps the value model, with the same decision |
| HallHistory.FaultExactlyWhenOverdue | src/platform/rc/autoracer_rc_adapter/src/rc_vehicle_state.cpp:182-211 | For any clock: a fault is reported exactly when motion is expected, the sample is invalid, and either nothing valid was seen since the motion began and the acquisition timeout elapsed, or the loss timeout elapsed since the first invalid sample after the last valid one, or the clock is behind the start of the motion or of the loss |
| HallHistory.SameDirectionPostponesNothing | src/platform/rc/autoracer_rc_adapter/src/rc_vehicle_state.cpp:165-180 | No sequence of commands in the direction already commanded moves a deadline |
| HallHistory.StateRecordsHistory | src/platform/rc/autoracer_rc_adapter/src/rc_vehicle_state.cpp:153-221 | The monitor's fields record where in the history the motion began, whether it was acquired, and where the loss began |
| ChassisHall.HallFollows | src/platform/rc/autoracer_rc_adapter/src/rc_vehicle_interface_node.cpp:319-997 | After every run the node's Hall monitor is where the history of commands, samples and resets of that run leads; a reset comes exactly with a close, a latch, a release, a grant, a blocked frame or motion under handshake or remote control |
| ChassisHall.HallFaultsExactly | src/platform/rc/autoracer_rc_adapter/src/rc_vehicle_interface_node.cpp:887-903 | At any decoded frame of any run, the node latches for its Hall reading exactly if nothing blocks the monitor, the frame carries no measured motion, and the history of the run says overdue |
| SerialProtocol.CalculateBcc | src/platform/rc/autoracer_rc_adapter/src/rc_serial_protocol.cpp:87-96 | The loop computes the XOR of the bytes |
| SerialProtocol.BccDetectsByteError | src/platform/rc/autoracer_rc_adapter/src/rc_serial_protocol.cpp:87-96 | Changing any one covered byte changes the checksum |
| SerialProtocol.BccJoins | src/platform/rc/autoracer_rc_adapter/src/rc_serial_protocol.cpp:87-96 | The checksum of a concatenation is the XOR of the checksums |
| SerialProtocol.QuantizeMilli | src/platform/rc/autoracer_rc_adapter/src/rc_serial_protocol.cpp:14-35 | Fails exactly on a value that is not finite or beyond the signed 16-bit range by more than the tolerance; otherwise the wire field is the nearest milli-unit, halves away from zero |
| SerialProtocol.Int16RoundTrip | src/platform/rc/autoracer_rc_adapter/src/rc_serial_protocol.cpp:37-56 | Big-endian signed 16-bit encoding followed by decoding is the identity |
| SerialProtocol.EncodeCommandFrame | src/platform/rc/autoracer_rc_adapter/src/rc_serial_protocol.cpp:98-142 | Filling the frame byte by byte gives the layout of the specification function, or fails where it fails |
| SerialProtocol.EncodeFailsExactly | src/platform/rc/autoracer_rc_adapter/src/rc_serial_protocol.cpp:98-142 | Encoding fails exactly for a conflicting clear-fault request or a motion field that is not finite or not representable |
| SerialProtocol.EncodeReadsBack | src/platform/rc/autoracer_rc_adapter/src/rc_serial_protocol.cpp:98-142 | A command frame byte by byte: head, id, flags 0x01, 0x04 and 0x80 for the three requests, the two fields decoding to the nearest milli-unit or zero when disabled or stopping, reserved zeros, checksum, tail |
| SerialProtocol.DecodeFeedback | src/platform/rc/autoracer_rc_adapter/src/rc_serial_protocol.cpp:144-169 | Decoding succeeds exactly on 24 bytes from 0x7B to 0x7D with the protocol id and the checksum of the first 22 |
| SerialProtocol.TelemetryRoundTrip | src/platform/rc/autoracer_rc_adapter/src/rc_serial_protocol.cpp:144-169 | Every representable telemetry record laid out on the wire decodes to itself, field by field |
| FeedbackDecoder.Confluence | src/platform/rc/autoracer_rc_adapter/src/rc_serial_protocol.cpp:171-236 | However a stream is cut into chunks, successive appends give the frames, the buffer and the five counters of one append of the whole |
| FeedbackDecoder.ScanSplits | src/platform/rc/autoracer_rc_adapter/src/rc_serial_protocol.cpp:171-236 | Scanning a concatenation is scanning its parts, with the undecided rest carried over |
| FeedbackDecoder.Conservation | src/platform/rc/autoracer_rc_adapter/src/rc_serial_protocol.cpp:171-247 | Bytes received = 24 per valid frame + discarded + buffered; between calls the buffer is empty or starts with 0x7B and is shorter than a frame |
| FeedbackDecoder.EmitsGreedyWindows | src/platform/rc/autoracer_rc_adapter/src/rc_serial_protocol.cpp:181-236 | The emitted frames are the leftmost disjoint framed windows, whatever greedy choice one makes |
| FeedbackDecoder.GreedyExists | src/platform/rc/autoracer_rc_adapter/src/rc_serial_protocol.cpp:181-236 | Every stream has such a choice |
| FeedbackDecoder.JunkThenFrames | src/platform/rc/autoracer_rc_adapter/src/rc_serial_protocol.cpp:181-236 | Noise without a frame head followed by n well-formed frames yields exactly those n frames and counts the noise as discarded |
| FeedbackDecoder.DecideWindow | src/platform/rc/autoracer_rc_adapter/src/rc_serial_protocol.cpp:193-232 | One decision about a full window: consumed size, frames, and which of the error counters counts it; a window that passes the checks decodes |
| FeedbackDecoder.FeedbackStreamDecoder.Append | src/platform/rc/autoracer_rc_adapter/src/rc_serial_protocol.cpp:171-236 | The mutable decoder appends exactly as the scan of its buffer and the new bytes says |
| FeedbackDecoder.FeedbackStreamDecoder.DiscardBuffer | src/platform/rc/autoracer_rc_adapter/src/rc_serial_protocol.cpp:243-247 | The buffer is counted as discarded and emptied |
| SpeedSweep.SweepClosedForm | src/core/autoracer_planning/autoracer_planning/local_trajectory_planner.py:585-598 | After any positive number of iterations, every squared speed is the minimum over all points of what that point's cap allows at constant acceleration or deceleration, and some point attains it |
| SpeedSweep.SweepGreatest | src/core/autoracer_planning/autoracer_planning/fixed_course.py:850-860 | No profile under the caps and both acceleration limits exceeds the sweep at any point |
| SpeedSweep.SweepFeasible | src/core/autoracer_planning/autoracer_planning/fixed_course.py:850-860 | The sweep itself respects the caps and both limits |
| SpeedSweep.OneIterationSuffices | src/core/autoracer_planning/autoracer_planning/fixed_course.py:850-860 | One iteration reaches the optimum; the later ones and the repeated endpoint resets change nothing |
| SpeedSweep.SweepInPlace | src/core/autoracer_planning/autoracer_planning/local_trajectory_planner.py:586-598 | The nested loops over an array of speeds compute, in squares, the iterated sweep |
| SpeedSweep.ForwardInPlace | src/core/autoracer_planning/autoracer_planning/fixed_course.py:851-854 | The forward loop computes, in squares, the forward pass |
| SpeedSweep.BackwardInPlace | src/core/autoracer_planning/autoracer_planning/fixed_course.py:856-859 | The backward loop computes, in squares, the backward pass |
| SpeedSweep.LimitSpeed | src/core/autoracer_planning/autoracer_planning/fixed_course.py:853-854 | Limiting a speed by a square root is limiting its square |
| SpeedSweep.AccelerationBounded | src/core/autoracer_planning/autoracer_planning/fixed_course.py:864-871 | Accelerations between the points of a feasible profile respect both limits, whatever the distance floor does |
| Bisect.FindRight | src/core/autoracer_planning/autoracer_planning/fixed_course.py:215 | Binary search finds the number of entries at most the target |
| Bisect.FindLeft | src/core/autoracer_planning/autoracer_planning/local_trajectory_planner.py:199-202 | Binary search finds the number of entries below the target |
| PlaneGeometry.Triangle | src/core/autoracer_planning/autoracer_planning/fixed_course.py:915-916 | Triangle inequality for the plane distance, from the square-root law alone |
| CourseGeometry.CumulativeDistances | src/core/autoracer_planning/autoracer_planning/fixed_course.py:203-207 | The loop computes the arc lengths of all prefixes |
| CourseGeometry.ArcBoundsDistance | src/core/autoracer_planning/autoracer_planning/fixed_course.py:210-220 | Interpolated points are never farther apart than the arc between them |
| CourseGeometry.TargetsSpread | src/core/autoracer_planning/autoracer_planning/fixed_course.py:228-234 | Sample positions run from 0 to the total and are never more than an interval and the end adjustment apart |
| CourseLaws.TargetsAreMultiples | src/core/autoracer_planning/autoracer_planning/fixed_course.py:228-234 | They are the multiples of the interval, then the total, which replaces the last multiple exactly if that is at most 1e-6 before it |
| CourseLaws.InterpolationIsProportional | src/core/autoracer_planning/autoracer_planning/fixed_course.py:210-220 | Between two points the path is cut in the proportion of the arc lengths, in all three coordinates |
| CourseGeometry.ResamplePath | src/core/autoracer_planning/autoracer_planning/fixed_course.py:223-235 | The loops build the resampled path; a non-positive interval is refused |
| CourseGeometry.ResampleSpacing | src/core/autoracer_planning/autoracer_planning/fixed_course.py:223-235 | Consecutive samples are at most interval + 1e-6 apart |
| CourseGeometry.ResampleEndpoints | src/core/autoracer_planning/autoracer_planning/fixed_course.py:223-235 | The last sample is the last point; the first is the first point exactly when the path is longer than 1e-6, or at least an interval long, or closed; otherwise only the last point remains |
| CourseSmoothing.BoundedSmooth | src/core/autoracer_planning/autoracer_planning/fixed_course.py:238-251 | The loop averages over the unsmoothed points and keeps the unsmoothed ends |
| CourseLaws.SmoothExactly | src/core/autoracer_planning/autoracer_planning/fixed_course.py:238-251 | A sample with a whole window moves towards the mean of the unsmoothed window, all the way if within the offset and else exactly by the offset; any other stays |
| CourseSmoothing.SmoothMovesLittle | src/core/autoracer_planning/autoracer_planning/fixed_course.py:238-251 | Each sample moves by at most the maximum offset, and the ends not at all |
| CourseSmoothing.StraightStretchIsFixed | src/core/autoracer_planning/autoracer_planning/fixed_course.py:238-251 | Evenly spaced samples on a straight stretch do not move |
| CourseSmoothing.CourseSpacing | src/core/autoracer_planning/autoracer_planning/fixed_course.py:254-261 | Consecutive course points are at most interval + 2 max_offset + 1e-6 apart |
| CourseSmoothing.SpacingCheckPasses | src/core/autoracer_planning/autoracer_planning/fixed_course.py:352 | `spacing_bounded` holds whenever 2 max_offset + 1e-6 is at most a quarter of the interval |
| CourseSmoothing.CourseEndpoints | src/core/autoracer_planning/autoracer_planning/fixed_course.py:254-261 | Resampling and smoothing keep both ends, under the exact condition of the resampling |
| CourseProfile.VelocityProfile | src/core/autoracer_planning/autoracer_planning/fixed_course.py:836-861 | The loops compute the capped, end-stopped and three times swept profile; it fails exactly where a lateral cap has no square root |
| CourseLaws.CurvatureOfCircle | src/core/autoracer_planning/autoracer_planning/fixed_course.py:889-904 | On a circle the curvature through three of its points, none closer than 1e-9, is one over the radius, positive exactly if they turn left |
| CourseLaws.CapExactly | src/core/autoracer_planning/autoracer_planning/fixed_course.py:842-847 | A speed is within the cap exactly if it is within the limit and, where the road bends, its lateral acceleration is within the lateral limit |
| CourseLaws.BuiltProfileIsFastest | src/core/autoracer_planning/autoracer_planning/fixed_course.py:836-861 | The built profile stands at both ends, is below its caps and within both accelerations, and no such profile is faster anywhere |
| CourseLaws.AccelerationsExplain | src/core/autoracer_planning/autoracer_planning/fixed_course.py:864-871 | Accelerations are those between the speeds over gaps of at least 1e-6 |
| CourseProfile.ComputeAccelerations | src/core/autoracer_planning/autoracer_planning/fixed_course.py:864-871 | The loop computes the accelerations over floored distances |
| CourseProfile.SpeedChecksPass | src/core/autoracer_planning/autoracer_planning/fixed_course.py:357-361 | `terminal_stop` holds of every built profile, and `speed_bounded` exactly if the speed limit is at least -1e-6 |
| CourseProfile.LongitudinalCheckPasses | src/core/autoracer_planning/autoracer_planning/fixed_course.py:365-368 | `longitudinal_accel_bounded` holds of every built profile, the 1e-6 distance floor included, unless an acceleration limit has the wrong sign by more than 1e-5 or a deceleration limit by more than 5e-6 |
| CourseProfile.LongitudinalCheckNeedsSigns | src/core/autoracer_planning/autoracer_planning/fixed_course.py:365-368 | With a limit wrong in sign by more than 1e-5 that check fails on every course |
| CourseProfile.LateralCheckPasses | src/core/autoracer_planning/autoracer_planning/fixed_course.py:362-364 | `lateral_accel_bounded` holds of every built profile if the square of the speed limit, taken as 0 when negative, times 1e-9 is at most the lateral limit + 1e-5 |
| CourseBend.LateralCheckFails | src/core/autoracer_planning/autoracer_planning/fixed_course.py:836-861 | Where that condition fails and the limits let the vehicle move, some path is built into a course, unchanged by resampling and smoothing, that fails the check on its own curvatures |
| CourseProfile.LateralCheckAtStandstill | src/core/autoracer_planning/autoracer_planning/fixed_course.py:850-860 | With limits that let nothing move, it holds exactly if the lateral limit is at least -1e-5 |
| CourseProfile.ProfileBelowCaps | src/core/autoracer_planning/autoracer_planning/fixed_course.py:850-860 | Whatever the signs of the limits, the profile is below its caps and zero at both ends |
| CourseProfile.BuildCourse | src/core/autoracer_planning/autoracer_planning/fixed_course.py:254-286 | Fails exactly on a non-positive interval or an undefined cap; otherwise the course is the smoothed one with its own arc lengths, curvatures, swept profile and accelerations |
| CourseProfile.BuiltCoursePasses | src/core/autoracer_planning/autoracer_planning/fixed_course.py:348-368 | Such a course stops at its end and passes its spacing, speed, longitudinal and lateral checks under the conditions above |
| LocalEnvelope.ApplyEnvelope | src/core/autoracer_planning/autoracer_planning/local_trajectory_planner.py:560-608 | Overwrites the points in place with the envelope's speeds and the accelerations between them, positions unchanged |
| LocalEnvelope.EnvelopeClosedForm | src/core/autoracer_planning/autoracer_planning/local_trajectory_planner.py:560-598 | Every published squared speed is the least that any cap allows there, and some cap attains it |
| LocalEnvelope.EnvelopeFeasible | src/core/autoracer_planning/autoracer_planning/local_trajectory_planner.py:560-598 | The envelope is the unreset sweep of its caps: under them, within both acceleration limits, stopped at the goal |
| LocalEnvelope.EnvelopeWithinLimits | src/core/autoracer_planning/autoracer_planning/local_trajectory_planner.py:567-608 | Published speeds are at most the configured maximum and the received limit, past the first point at most the course speed, 0 at the goal; accelerations are those between the speeds over gaps of at least 0.001, and within their limits |
| LocalEnvelope.StartedCapsExactly | src/core/autoracer_planning/autoracer_planning/local_trajectory_planner.py:567-583 | The caps the sweep starts from: between start and goal the least of course speed, configured maximum and received limit; at the start the own speed or, from a standstill with road ahead, the departure speed under the first cap that lets the vehicle move; 0 at the goal |
| LocalEnvelope.DepartureNeverDeadlocks | src/core/autoracer_planning/autoracer_planning/local_trajectory_planner.py:574-598 | On separated points and with brakes the first published speed is positive exactly when the vehicle moves where course, maximum and received limit let it, or a later point may be driven faster than 0.001 and the vehicle moves or has a departure speed |
| LocalPlanner.SanitizePoints | src/core/autoracer_planning/autoracer_planning/local_trajectory_planner.py:62-70 | The loop keeps exactly the points the recursive definition keeps |
| LocalPlanner.SanitizedSpaced | src/core/autoracer_planning/autoracer_planning/local_trajectory_planner.py:62-70 | Consecutive kept points are at least the minimum distance apart |
| LocalPlanner.SanitizedFrom | src/core/autoracer_planning/autoracer_planning/local_trajectory_planner.py:62-70 | Every kept point is a finite received point |
| LocalPlanner.SanitizedCovers | src/core/autoracer_planning/autoracer_planning/local_trajectory_planner.py:62-70 | Every finite received point is kept or closer than the minimum distance to a kept one |
| LocalPlanner.PrepareGlobalTrajectory | src/core/autoracer_planning/autoracer_planning/local_trajectory_planner.py:73-84 | Refused exactly with fewer than two kept points; otherwise the kept points and their arc lengths |
| LocalPlanner.SelectProgressIndex | src/core/autoracer_planning/autoracer_planning/local_trajectory_planner.py:87-130 | The nearest eligible point, the earliest of equals, and nothing exactly when there is none; eligible is spelled out on arc lengths, plane distance, height and heading |
| LocalPlanner.ForwardExactly | src/core/autoracer_planning/autoracer_planning/local_trajectory_planner.py:133-137 | The search distance is the greater of the configured one and what the vehicle drives in the configured time |
| LocalPlanner.WindowBehind | src/core/autoracer_planning/autoracer_planning/local_trajectory_planner.py:193-198 | The window starts at the last point far enough behind, at or before the vehicle |
| LocalPlanner.WindowAhead | src/core/autoracer_planning/autoracer_planning/local_trajectory_planner.py:194-202 | The window ends at the first point a horizon ahead, or at the goal, never before the vehicle |
| LocalPlanner.HorizonExactly | src/core/autoracer_planning/autoracer_planning/local_trajectory_planner.py:140-148 | The horizon is the greater of the lookahead and the stopping distance with latency and margin |
| LocalPlanner.WindowCovers | src/core/autoracer_planning/autoracer_planning/local_trajectory_planner.py:192-209 | The window contains the vehicle and reaches the goal or its stopping distance, latency and margin |
| LocalPlanner.WindowHasTwoPoints | src/core/autoracer_planning/autoracer_planning/local_trajectory_planner.py:204-209 | The window has at least two points exactly when the horizon is positive before the goal, or the backward distance is positive past the start |
| LocalPlanner.BuildLocal | src/core/autoracer_planning/autoracer_planning/local_trajectory_planner.py:172-219 | One cycle: the selected index, whether the goal is included, and the window with its envelope, or nothing |
| LocalPlanner.PublishedIsSafe | src/core/autoracer_planning/autoracer_planning/local_trajectory_planner.py:172-219 | What a cycle publishes: prepared points in place, around the selected one, to the goal or a stopping distance ahead; within maximum, received limit, course speeds and both accelerations; stopped at the goal; starting at a positive speed exactly when there is reason to drive |
| PlannerNode.ProgressOverRun | src/core/autoracer_planning/autoracer_planning/local_trajectory_planner.py:338-417 | Between course loads progress stays in range, never decreases, and advances by at most the per-cycle search distance times the number of cycles |
| PlannerNode.LocalTrajectoryPlanner.OnGlobalTrajectory | src/core/autoracer_planning/autoracer_planning/local_trajectory_planner.py:338-359 | A refused course changes nothing; an accepted one restarts the progress |
| PlannerNode.LocalTrajectoryPlanner.OnOdometry | src/core/autoracer_planning/autoracer_planning/local_trajectory_planner.py:361-375 | Odometry is kept exactly if well formed, not older than the newest kept and not from the future |
| PlannerNode.LocalTrajectoryPlanner.OnTimer | src/core/autoracer_planning/autoracer_planning/local_trajectory_planner.py:382-417 | A cycle that is not ready changes nothing; a ready one selects, advances and publishes as specified, and the run stays monotone |
| TimedInput.TimedInput.Update | src/core/autoracer_safety/autoracer_safety/race_contract.py:41-55 | Makes the update of the value model, rejecting stamps that are not finite |
| TimedInput.UpdateExactly | src/core/autoracer_safety/autoracer_safety/race_contract.py:41-55 | A message is taken exactly if its stamp is not negative, at most 1e-9 older than the stored one and at most 0.05 in the future; otherwise only the counter of its fault changes |
| TimedInput.TimedInput.Clear | src/core/autoracer_safety/autoracer_safety/race_contract.py:66-70 | Forgets the message and both times, keeps the rejection counters |
| TimedInput.StalenessGrows | src/core/autoracer_safety/autoracer_safety/race_contract.py:41-64 | A fresh input is, a period later, at most a period staler, up to 1e-9 of source time per message taken |
| TimedInput.SourceFallsExactly | src/core/autoracer_safety/autoracer_safety/race_contract.py:45-47 | The stored source stamp falls exactly when a message with an older stamp is taken |
| TimedInput.SlackIsReal | src/core/autoracer_safety/autoracer_safety/race_contract.py:45-47 | Without that allowance the bound is false: a concrete input exceeds timeout and period |
| RaceRuntimeTheorems.PhaseForward | src/core/autoracer_safety/autoracer_safety/race_runtime_manager.py:402-492 | Without a granted reset or a clock rollback the phase never decreases, FINISHED and FAULT never change, and only ticks change it |
| RaceRuntimeTheorems.PhaseMonotone | src/core/autoracer_safety/autoracer_safety/race_runtime_manager.py:402-492 | The same over any stretch of a run |
| RaceRuntimeTheorems.TerminalPhasesLatch | src/core/autoracer_safety/autoracer_safety/race_runtime_manager.py:271-305 | FINISHED and FAULT are left only by a granted reset or a clock rollback, disarmed and with all calls dropped |
| RaceRuntimeTheorems.ArmingAfterAcceptance | src/core/autoracer_safety/autoracer_safety/race_runtime_manager.py:421-433 | ARMING is entered only if a healthy READY tick of this epoch called for AUTONOMOUS, that call was pending until a later reply of success, and the acceptance stands |
| RaceRuntimeTheorems.ArmedSince | src/core/autoracer_safety/autoracer_safety/race_runtime_manager.py:434-453 | Being armed goes back to one tick of this epoch that saw no base failure, fresh raw control, AUTONOMOUS, DRIVE and a fresh stop command |
| RaceRuntimeTheorems.EntersActiveExactly | src/core/autoracer_safety/autoracer_safety/race_runtime_manager.py:434-444 | ACTIVE is entered exactly by an armed ARMING tick that finds the engagement confirmed, no base failure and fresh raw control; STOPPING only from ACTIVE |
| RaceRuntimeTheorems.EnabledOnlyAfterArming | src/core/autoracer_safety/autoracer_safety/race_runtime_manager.py:525-540 | Control is enabled only with such an arming tick in this epoch, and in ACTIVE or STOPPING only with a strictly later tick that confirmed the engagement |
| RaceRuntimeTheorems.EngageAfterNewControl | src/core/autoracer_safety/autoracer_safety/race_runtime_manager.py:445-455 | Engaging is requested only with raw control received after the arming tick, while the vehicle stands ready |
| RaceRuntimeTheorems.ActiveFaultsExactly | src/core/autoracer_safety/autoracer_safety/race_runtime_manager.py:458-466 | A tick in ACTIVE faults exactly when a required input is not fresh, the trajectory has fewer than two points, localization is not initialized, or the mode is not AUTONOMOUS |
| RaceRuntimeTicks.IdleExactly | src/core/autoracer_safety/autoracer_safety/race_runtime_manager.py:409-420 | IDLE goes to READY exactly if started and healthy, to FAULT exactly if started, unhealthy and past the startup timeout |
| RaceRuntimeTicks.ReadyExactly | src/core/autoracer_safety/autoracer_safety/race_runtime_manager.py:421-433 | READY faults exactly if unhealthy, and goes to ARMING exactly if healthy with an accepted mode call |
| RaceRuntimeTicks.ArmingExactly | src/core/autoracer_safety/autoracer_safety/race_runtime_manager.py:434-457 | ARMING: fault, activation, arming and the engage call, each exactly under its conditions on the inputs |
| RaceRuntimeTicks.ActiveExactly | src/core/autoracer_safety/autoracer_safety/race_runtime_manager.py:458-466 | ACTIVE faults exactly if the drive is not healthy; otherwise goes to STOPPING exactly if a stop is requested or the route has arrived, and else stays |
| RaceRuntimeTicks.StoppingExactly | src/core/autoracer_safety/autoracer_safety/race_runtime_manager.py:467-486 | STOPPING goes to FINISHED exactly at rest, released, in park or neutral and disengaged; faults exactly while still moving with an unhealthy drive; at rest it calls for disengagement |
| RaceRuntimeTicks.TerminalExactly | src/core/autoracer_safety/autoracer_safety/race_runtime_manager.py:487-492 | FINISHED does nothing; FAULT calls for disengagement exactly at rest |
| RaceRuntimeTicks.ReasonExactly | src/core/autoracer_safety/autoracer_safety/race_runtime_manager.py:402-492 | The reason reported after a tick: on a fault, and in IDLE while unhealthy, the first check that fails in the order of the code; else what the phase waits for or has just reached; else the reason before |
| RaceRuntimeTicks.CallsExactly | src/core/autoracer_safety/autoracer_safety/race_runtime_manager.py:391-400 | A service is called exactly if no call is unanswered, the retry period has passed and the service is ready |
| RaceRuntimeTicks.ResetExactly | src/core/autoracer_safety/autoracer_safety/race_runtime_manager.py:271-305 | A reset is granted exactly at rest, released and not engaged; it keeps the inputs and starts over |
| RaceRuntimeTicks.RollbackExactly | src/core/autoracer_safety/autoracer_safety/race_runtime_manager.py:402-408 | A clock more than 0.05 behind the last tick starts over with every input forgotten |
| RaceRuntimeRuns.StopRequestedExactly | src/core/autoracer_safety/autoracer_safety/race_runtime_manager.py:264-305 | In every reachable state a stop is requested exactly if the stop service was called since the last restart |
| RaceRuntimeRuns.StartRequestedExactly | src/core/autoracer_safety/autoracer_safety/race_runtime_manager.py:253-305 | A start is requested exactly if the service was granted since the last restart, or by configuration |
| RaceRuntimeRuns.StopIsHonoured | src/core/autoracer_safety/autoracer_safety/race_runtime_manager.py:264-466 | After a stop service call of this epoch no tick leaves the phase ACTIVE |
| RaceRuntimeRuns.StartedBefore | src/core/autoracer_safety/autoracer_safety/race_runtime_manager.py:253-420 | Outside IDLE a start was granted in this epoch, unless starting is automatic |
| RaceRuntimeRuns.LastNowExactly | src/core/autoracer_safety/autoracer_safety/race_runtime_manager.py:402-408 | The time kept for the rollback check is that of the latest tick |
| RaceRuntimeRuns.CallsAreSpaced | src/core/autoracer_safety/autoracer_safety/race_runtime_manager.py:391-400 | Two calls of one service in a run are at least the retry period apart |
| RaceRuntimeRuns.EnabledExactly | src/core/autoracer_safety/autoracer_safety/race_runtime_manager.py:525-530 | Control is enabled exactly in ACTIVE, in STOPPING, and in ARMING after an arming tick of this epoch |
| RaceRuntimeTheorems.BoundedStaleness | src/core/autoracer_safety/autoracer_safety/race_runtime_manager.py:327-363 | Once a tick has run in ACTIVE, for as long as the phase stays ACTIVE with ticks at most a period apart, every required input's age is at most its timeout plus the period: for source stamps up to the slack per message, and without it if no stamp older than the stored one was taken since the last tick |
| RaceRuntimeReach.SlackIsNeeded | src/core/autoracer_safety/autoracer_safety/race_runtime_manager.py:327-363 | Otherwise the bound can fail: in some run that satisfies all else and stays ACTIVE, a required input is older than its timeout and the period |
| RaceRuntimeReach.ActiveIsReachable | src/core/autoracer_safety/autoracer_safety/race_runtime_manager.py:402-444 | Some run reaches ACTIVE: reports, start, a granted mode call, arming, engagement |
| RaceRuntimeTheorems.RunsKeep | src/core/autoracer_safety/autoracer_safety/race_runtime_manager.py:379-400 | In every reachable state calls left over from another purpose are never taken for an answer to this one |
| RaceRuntimeManager.RaceRuntimeManager.OnTimer | src/core/autoracer_safety/autoracer_safety/race_runtime_manager.py:402-494 | Makes exactly the tick of the machine and publishes its control permission |
| RaceRuntimeManager.RaceRuntimeManager.OnReset | src/core/autoracer_safety/autoracer_safety/race_runtime_manager.py:271-305 | Granted exactly at a standstill, released and disengaged; then exactly the reset of the machine |
| RaceRuntimeManager.RaceRuntimeManager.OnStart | src/core/autoracer_safety/autoracer_safety/race_runtime_manager.py:253-262 | Granted exactly in IDLE and READY |
| RaceRuntimeManager.RaceRuntimeManager.OnStop | src/core/autoracer_safety/autoracer_safety/race_runtime_manager.py:264-269 | Requests the stop, from any phase |
| RaceRuntimeManager.RaceRuntimeManager.Receive | src/core/autoracer_safety/autoracer_safety/race_runtime_manager.py:111-190 | A message reaches exactly its own tracker |
| RaceRuntimeManager.RaceRuntimeManager.CallService | src/core/autoracer_safety/autoracer_safety/race_runtime_manager.py:391-400 | Calls exactly as the machine does: not over an unanswered call, not before the retry period, not to a service that is not ready |
| RaceRuntimeManager.RaceRuntimeManager.BaseFailure | src/core/autoracer_safety/autoracer_safety/race_runtime_manager.py:327-348 | The same first failure as the specification, in the same order |
| RaceRuntimeManager.RaceRuntimeManager.ActiveFailure | src/core/autoracer_safety/autoracer_safety/race_runtime_manager.py:350-363 | The same first failure as the specification, with the expected handover excepted |
| RaceRuntimeManager.RaceRuntimeManager.ClearTrackers | src/core/autoracer_safety/autoracer_safety/race_runtime_manager.py:303-305 | Clears every tracker and nothing else |
| CloudRepack.Convert | src/platform/rc/autoracer_rc_adapter/src/c32_pointcloud_adapter.cpp:67-147 | Refused exactly if the unbounded conditions fail, naming the first thing that is wrong; otherwise the repacked cloud, with every output byte written exactly once and in order |
| CloudRepack.RefusedExactly | src/platform/rc/autoracer_rc_adapter/src/c32_pointcloud_adapter.cpp:26-103 | A refusal names the first thing that is wrong: byte order, point step, the first field missing, mistyped or outside a point, row size, data size, output size |
| CloudRepack.AcceptedExactly | src/platform/rc/autoracer_rc_adapter/src/c32_pointcloud_adapter.cpp:67-103 | The checks in wrapping 64-bit arithmetic accept exactly the clouds that the unbounded conditions accept |
| CloudRepack.SizesExact | src/platform/rc/autoracer_rc_adapter/src/c32_pointcloud_adapter.cpp:84-103 | No size computation of a representable input wraps, nor the output size where the row size passes its check |
| CloudRepack.ReadsInBounds | src/platform/rc/autoracer_rc_adapter/src/c32_pointcloud_adapter.cpp:123-139 | Every byte read for a point of an accepted cloud is inside the data |
| CloudRepack.RepackedPoint | src/platform/rc/autoracer_rc_adapter/src/c32_pointcloud_adapter.cpp:123-143 | In output point (r, c), under each name the output announces, stand the bytes that input point (r, c) holds under the first field of the matching name, the intensity normalised, with return type 1 |
| CloudRepack.FieldChecked | src/platform/rc/autoracer_rc_adapter/src/c32_pointcloud_adapter.cpp:26-43 | The wrapping check of a field accepts exactly if the first of its name has the type, the count 1 and lies inside a point |
| CloudRepack.FitsExactly | src/platform/rc/autoracer_rc_adapter/src/c32_pointcloud_adapter.cpp:26-43 | Which field that is: the one of its name that no other of the name precedes |
| CloudRepack.NormalizeIntensity | src/platform/rc/autoracer_rc_adapter/src/c32_pointcloud_adapter.cpp:56-63 | 0 for an intensity that is not finite or not positive, 255 from 255 on, and in between the nearest integer, halves upwards |
| GnssGate.AcceptedExactly | src/platform/rc/autoracer_rc_adapter/autoracer_rc_adapter/nmea_gnss.py:211-253 | A GGA is accepted exactly if its quality is 4 or 5, its position complete, and the latest heading event and the latest GST event were acceptances inside their windows; it then carries that heading, and the squared longitude, latitude and altitude deviations as east, north and up variances |
| GnssGate.RejectedExactly | src/platform/rc/autoracer_rc_adapter/autoracer_rc_adapter/nmea_gnss.py:211-253 | A rejected GGA names the first thing that is missing or stale in the history |
| GnssGate.QualityTextReads | src/platform/rc/autoracer_rc_adapter/autoracer_rc_adapter/nmea_gnss.py:211-220 | The reason text of an unusable quality denotes that quality |
| GnssGate.ExpiresExactly | src/platform/rc/autoracer_rc_adapter/autoracer_rc_adapter/nmea_gnss.py:277-288 | A check takes a fix back exactly when an accepted fix stands and its age is outside the window, as a clock reset if it is from the future and else as a timeout |
| GnssGate.ExpiresOncePerStreak | src/platform/rc/autoracer_rc_adapter/autoracer_rc_adapter/nmea_gnss.py:277-288 | Between two expiries there is a newly accepted fix |
| GnssGate.NmeaGnssGate.AcceptGga | src/platform/rc/autoracer_rc_adapter/autoracer_rc_adapter/nmea_gnss.py:211-253 | Steps the gate and decides as the value model does, with the same reason |
| GnssGate.NmeaGnssGate.RejectGga | src/platform/rc/autoracer_rc_adapter/autoracer_rc_adapter/nmea_gnss.py:255-275 | Records the stamp and rejects |
| GnssGate.NmeaGnssGate.ExpireFix | src/platform/rc/autoracer_rc_adapter/autoracer_rc_adapter/nmea_gnss.py:277-288 | Steps the gate and decides as the value model does |
| GnssGate.NmeaGnssGate.AcceptHeading | src/platform/rc/autoracer_rc_adapter/autoracer_rc_adapter/nmea_gnss.py:163-176 | Replaces the orientation |
| GnssGate.NmeaGnssGate.RejectHeading | src/platform/rc/autoracer_rc_adapter/autoracer_rc_adapter/nmea_gnss.py:178-182 | Revokes the orientation and keeps the reason for the next GGA |
| GnssGate.NmeaGnssGate.AcceptGst | src/platform/rc/autoracer_rc_adapter/autoracer_rc_adapter/nmea_gnss.py:184-186 | Replaces the covariance and its stamp |
| GnssGate.NmeaGnssGate.RejectGst | src/platform/rc/autoracer_rc_adapter/autoracer_rc_adapter/nmea_gnss.py:188-191 | Revokes the covariance |
| G90Adapter.SentenceAcceptedExactly | src/platform/rc/autoracer_rc_adapter/autoracer_rc_adapter/g90_adapter_node.py:225-284 | A GGA sentence publishes an accepted fix exactly if quality and position are usable, the latest HDT (where allowed) or THS in mode A and the latest GST are inside their windows, and output, yaw deviation, projector and transform are in order; it carries just that heading and those deviations squared |
| G90Adapter.SentenceRefusedExactly | src/platform/rc/autoracer_rc_adapter/autoracer_rc_adapter/g90_adapter_node.py:225-284 | Any other GGA sentence publishes the first thing the sentences before it leave missing, stale or withheld |
| G90Adapter.OtherSentencesExactly | src/platform/rc/autoracer_rc_adapter/autoracer_rc_adapter/g90_adapter_node.py:242-286 | A malformed GGA publishes one revocation, empty and with its stamp; any other sentence that is no GGA publishes nothing |
| G90Adapter.WatchdogExactly | src/platform/rc/autoracer_rc_adapter/autoracer_rc_adapter/g90_adapter_node.py:288-304 | After a watchdog tick a fix is still accepted exactly if it was before, is inside the timeout, and every prerequisite holds; any other is taken back on the wire, at the time of the tick and with its reason |
| G90Adapter.EveryAcceptedFix | src/platform/rc/autoracer_rc_adapter/autoracer_rc_adapter/g90_adapter_node.py:225-304 | Every accepted fix ever published was such a GGA sentence, and carries what the sentences before it said |
| G90Adapter.GateFollows | src/platform/rc/autoracer_rc_adapter/autoracer_rc_adapter/g90_adapter_node.py:242-304 | The gate inside the adapter runs on exactly the trace that the sentences and watchdog ticks make |
| G90Adapter.RunsKeep | src/platform/rc/autoracer_rc_adapter/autoracer_rc_adapter/g90_adapter_node.py:225-304 | In every reachable state the effective decision is the last one published, and an accepted one is the one the gate stands by, with orientation and variances |
| G90Adapter.DiagnosticsKept | src/platform/rc/autoracer_rc_adapter/autoracer_rc_adapter/g90_adapter_node.py:242-286 | In every reachable state the stamps reported are those of the latest heading, GGA and GST sentences, and the counters count the malformed and the ignored ones |
| G90Adapter.G90NmeaAdapter.OnNmeaSentence | src/platform/rc/autoracer_rc_adapter/autoracer_rc_adapter/g90_adapter_node.py:242-286 | Makes exactly the sentence step |
| G90Adapter.G90NmeaAdapter.OnWatchdogTimer | src/platform/rc/autoracer_rc_adapter/autoracer_rc_adapter/g90_adapter_node.py:288-304 | Makes exactly the watchdog step |
| G90Adapter.G90NmeaAdapter.PublishReceiverDecision | src/platform/rc/autoracer_rc_adapter/autoracer_rc_adapter/g90_adapter_node.py:225-240 | Publishes the effective decision and remembers both |

## Left out

- ROS plumbing: parameters, publishers, QoS, logging, diagnostics text, launch files; messages keep only the fields the code decides on.
- The operating system: real serial, poll and errno behaviour, except as the answers a write or a read can meet; the reconnect back-off is the caller's choice of when opening succeeds.
- Several clock readings inside one callback are one reading in the race runtime and the planner node; the Control callback of the chassis node keeps its three readings apart, and every decoded frame of one read shares a reading.
- Floating-point rounding, NaN propagation and overflow: reals are exact, and finiteness is modelled only where the code tests it.
- Trigonometry: heading errors and the yaw of a heading are opaque functions; the quaternions built from them do not appear.
- Counters that are 64-bit in the code are unbounded.
- Constructor and parameter exceptions are preconditions of the constructors, as are the ValueErrors of the gate for an empty reason; the stamps of its messages are always finite.
- VehicleState: the publication of velocity, steering, gear and mode reports and the counters used only for logging are not modelled.
- CourseBend.LateralCheckFails: builds its path for sampling intervals from 1e-8 to 1e9.
- VehicleInterface.RcVehicleInterface.TryOpenSerial: the reconnect back-off is not modelled; when an attempt is made and succeeds is an input of the tick.
- LocalPlanner.PrepareGlobalTrajectory: the orientations that replace those of the course do not appear; a heading enters only as its error at each point.
- LocalPlanner.BuildLocal: the time from start of the published points is not modelled.
- CourseProfile.BuildCourse: needs a path of at least two points with positive segments, which the extraction of the path provides; the extraction, the forward yaws, the road extents and the hold-out checks are not modelled.
- LocalEnvelope.ApplyEnvelope: needs a maximum speed that is not negative, because speeds are followed through their squares.
- PlannerNode.LocalTrajectoryPlanner.constructor: needs a positive minimum point distance; with none, equal points would be kept and the window could miss the vehicle.
- The time from start of published points, the arrival dwell and the route state of the planner node: they would add easy members.
- RaceRuntime: messages other than the control permission of a tick (gear, hazard, emergency control) are functions of the phase and speed and are not modelled; a service answer is success or not, and a raising future is not modelled.
- Liveness of service calls: an answered call may be overwritten after the retry period, so only safety is claimed.
- CloudRepack: the reading of four bytes as a float is an opaque function; the copy of a float through the host is taken to keep its bytes.
- GnssGate: NMEA checksum and field parsing; the gate starts from parsed sentences, a malformed one being told apart only by whether it reads as a GGA.
- G90Adapter: the transform lookup is an input of each callback, and the supported projector names are configuration because the map message package is not part of this model; heading source and mode texts are not modelled.
- CSV, JSON and hash handling of course assets, map contracts and the command-line tools: I/O.
- The Hooke2 stack, the NTRIP relay, the localization bridge and the recording preflight script: unpacking, sockets and process control around opaque services.
