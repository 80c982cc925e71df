# A verified model of SimFerret

SimFerret runs a workload inside a virtual machine, records the events it reports, judges the recording, and
replays it. This project models the parts that must agree with each other and proves that they do. It is plain
Dafny 4.11; `dafny verify dfyconfig.toml` checks all of it.

**One protocol, written in four places.** The guest's process runtime (`machine.dfy`, `environment.dfy`,
`runtime.dfy`), the guest agent (`agent.dfy`), the host driver (`regimes.dfy`, `controller.dfy`, `driver.dfy`,
`driving.dfy`) and the checker (`streams.dfy`, `traces.dfy`, `checker.dfy`) were written apart from each other. The
composition theorems are:

- what the runtime emits, the checker accepts (`Refinement.RuntimeRunsAreAccepted`), and the runtime object only ever
  makes steps of that machine, because its ghost journal is such a run;
- what the driver sends, whatever the guest answers, the agent never refuses for a reason of regime, and whatever the
  workload and the kernel do, the agent's own events fold into a trace with no fault but over-long lines
  (`Driving.Drive` with `GuestAgent.Serve`, joined in `Session.ServeDrive`);
- what each report means, as an if and only if over the recorded events alone and assertion by assertion: for
  workload runs `Meaning.ReportMeans`, with `Faultless.CleanExactly` for the structural faults, and
  `NetworkMeaning.ReportMeans` for network runs; what follows from a passing one is drawn together in
  `Soundness.PassingReportMeans`;
- that an honest run passes, exactly when no response is corrupted and the two bounds leave room for its answers, and
  that a corrupted one is still recorded to the end, stops at its first request and fails (`EndToEnd.HonestRunsPass`).
  The honest guest (`guest.dfy`) is the fixture under a run of that same machine (`HonestGuest.GuestIsAMachineRun`)
  with its own counters; that its events are the ones the checker expects goes through the refinement (`mirror.dfy`);
- that a recording replays exactly when the guest's stream has the recorded version, number, command and event in
  every frame and nothing more (`Replay.RecordThenReplay`, and `NetworkReplay.RecordThenReplay` for network runs).

**The layer algebra** (`trees.dfy`, `layers.dfy`, `layer_laws.dfy`, `assembly.dfy`, `paths.dfy`, `symlinks.dfy`,
`encoding.dfy`): folding an OCI layer is a closed formula over the lower tree, the markers and the additions; every
order of members that succeeds gives the same tree; every accepted stack is well formed; links resolve inside the
root; the canonical encoding decodes.

**Incremental readers** (`lines.dfy`, `streams.dfy`, `serial.dfy`) equal one-shot splitting, and **the network
scenario** (`assertions.dfy`, `network.dfy`, `network_drive.dfy`, `network_meaning.dfy`, `network_replay.dfy`) has
bounds that are always enough. **The generator** (`generator.dfy`) draws exactly the plans of `plans.dfy` and
`network.dfy`.

Conventions. A byte is a character below 256. SHA-256 is a parameter `sha` about which nothing is assumed beyond its
length where the encoding needs it. Plans are specified over any sequence of draws, so what holds of a plan holds of
every seed. Nondeterminism is an unconstrained assignment: pipes move any number of bytes, processes end at any time,
files may refuse to be removed; a ghost count of the system's failures says of each operation that nothing else made
it fail. `hide` at the head of a proof only keeps definitions out of the solver's way.

Where code and documentation disagree, the code is followed. Preparation accepts an outage bound of one event and a
liveness bound of two for workload scenarios (scenario.rs lines 150-154), but an honest run needs two and three; and it
accepts scenarios that corrupt the first response, which an honest run answers by exiting:
`EndToEnd.HonestRunsPass` is the exact condition and `EndToEnd.TightBoundsFail` the accepted scenario without
corruption that no honest run can pass. The Rust layer code is followed where it differs from the prototype: the root
has no ancestors, and the marker check covers an opaque target itself.

## Model

| member | source | states |
|---|---|---|
| `Protocol.UnhexExact` | crates/simferret/src/protocol.rs:590-628 | a text decodes to given bytes exactly when it is their encoding and they are within the limit |
| `Protocol.EncodeBytes` | crates/simferret/src/protocol.rs:590-601 | the encoding loop produces two lowercase hexadecimal digits a byte, in order |
| `Protocol.DecodeBytes` | crates/simferret/src/protocol.rs:603-617 | the decoding loop agrees with the specification on every text, refusing odd, oversized and foreign ones |
| `Lines.SplitIsWhole` | crates/simferret/src/checker.rs:130-213 | the lines of a stream with their newlines, then the rest, are the stream |
| `Lines.SplitConcat` | crates/simferret/src/checker.rs:130-213 | splitting a stream in two parts: the second part starts with what the first left over |
| `Streams.PushFrame` | crates/simferret/src/checker.rs:130-213 | the incremental fold of one output frame equals splitting pending text and frame in one go, violations and bound flags included |
| `Streams.FramingDoesNotMatter` | crates/simferret/src/checker.rs:130-213 | for every cut of a stream into frames: lines, first and last events and pending text are those of splitting the whole stream once, and the over-bound verdicts hold exactly when some complete or pending line exceeds the bound |
| `Traces.WorkloadTrace.Push` | crates/simferret/src/checker.rs:344-623 | the in-place fold of any frame is the trace specification's step |
| `Traces.WorkloadTrace.PushOutput` | crates/simferret/src/checker.rs:546-581 | an output frame before the start, after the exit or undecodable is a fault; any other updates exactly one invocation's streams |
| `Traces.WorkloadTrace.PushInput` | crates/simferret/src/checker.rs:582-620 | an acknowledgement updates one invocation's input record, or is a fault before start, after exit or after termination |
| `Checker.Evaluate` | crates/simferret/src/checker.rs:742-764 | the report loop equals the report on the fold of all events |
| `Faultless.CleanExactly` | crates/simferret/src/checker.rs:117-623 | the fold of events numbered from one finds no structural fault exactly when every event is in its order (start, input, output, kill, exit, cleanup, network switches), every frame continues sequence, offset and input offset, and no line is over-long; the records are then exactly the events |
| `Meaning.ReportMeans` | crates/simferret/src/checker.rs:742-1272 | for events numbered from one each of the five assertions holds exactly when the events say so; response integrity includes that every exit record has the true byte totals, the frame count and both digests; the report passes exactly when all five hold |
| `Meaning.ResponseMeans` | crates/simferret/src/checker.rs:967-1117 | response integrity holds exactly when both invocations printed the expected lines after their acknowledgements, stderr is empty, and every exit event carries the totals, the number of output frames and the digests of the recorded bytes |
| `Meaning.HealthyMeans` | crates/simferret/src/run.rs:1801-1806 | in every stream the driver takes an invocation for healthy exactly when no exit and no launch failure of it is recorded, it printed nothing on stderr and no line on stdout, finished or not, ever exceeded the bound |
| `Soundness.StreamsFaithful` | crates/simferret/src/checker.rs:344-623 | a trace without faults holds, for every invocation, the split of exactly its recorded bytes and exactly its acknowledgements |
| `Soundness.RecordsFaithful` | crates/simferret/src/checker.rs:344-545 | every record of a trace is an event of the stream, at the recorded number |
| `Soundness.NothingDropped` | crates/simferret/src/checker.rs:344-545 | in a trace without faults no start and no kill of the stream is missing |
| `Soundness.RecordsAreOrdered` | crates/simferret/src/checker.rs:344-545 | in every trace kills and exits follow a start of their invocation, no invocation exits twice, and a cleanup follows the exit and counts a process |
| `Soundness.AnsweredOnceInOrder` | crates/simferret/src/checker.rs:967-1040 | across the two invocations the expected responses are every planned request once, in plan order |
| `Soundness.PassingReportMeans` | crates/simferret/src/checker.rs:767-1272 | a passing report on events numbered from one: stdout is byte for byte the expected lines, stderr is empty, answer k begins after acknowledgement k, input ended once, in the second invocation only, every request is answered once in order, first start < kill < exit < cleanup of two processes < second start < exit 0 < cleanup, nothing else starts or is killed, the descendant escaped no later than the kill, the restarted echo is within the liveness bound, and both fault answers lie inside their windows |
| `Plans.CandidatesExact` | crates/simferret/src/scenario.rs:171-182 | the process-fault candidates are exactly the indices strictly inside the sequence and on neither transition, and there is always one |
| `Plans.PlanIsValid` | crates/simferret/src/scenario.rs:119-200 | for every accepted scenario and every draw the plan is well formed: ordered inner transitions, a distinct process fault, distinct printable request identifiers within the fixture's bounds |
| `Generator.SplitMix64.Next` | crates/simferret/src/scenario.rs:300-309 | each call gives the next draw of the seed, with additions and products that wrap around |
| `Generator.SplitMix64.HexBytes` | crates/simferret/src/scenario.rs:311-324 | the loop takes a draw for every eighth byte, low byte first, and writes two digits a byte |
| `Generator.Choices` | crates/simferret/src/scenario.rs:171-200 | the plan drawn for a seed is the specified one: transitions, process fault and requests from successive draws |
| `Generator.NetworkChoices` | crates/simferret/src/scenario.rs:275-297 | the same for network plans |
| `Generator.Validate` | crates/simferret/src/scenario.rs:119-165 | a scenario is accepted exactly when it meets every bound, and the reason of a refusal is a bound it misses |
| `Generator.ValidateNetwork` | crates/simferret/src/scenario.rs:226-272 | the same for network scenarios |
| `Machine.RunsAreOrderly` | crates/simferret/src/runtime.rs:309-712 | in every run counters agree with bytes, limits hold, an exit was reaped, and the only roots on disk are the active one and one blocking leftover |
| `Machine.StartsOnAnEmptyDisk` | crates/simferret/src/runtime.rs:389-497 | a start succeeds only with no earlier root on disk, failed removals included, and above every earlier identifier |
| `Machine.CleanupFollowsExit` | crates/simferret/src/runtime.rs:1668-1726 | in every run each reported cleanup comes right after its invocation's exit record and counts at least one process |
| `Machine.InputIsConserved` | crates/simferret/src/runtime.rs:263-299 | in every run the delivered bytes are a prefix of the accepted ones, delivered and queued make up accepted until termination, and the total is within the limit |
| `Machine.EofClosesBehindTheLastByte` | crates/simferret/src/runtime.rs:263-299 | end of input closes the pipe only once every accepted byte was delivered |
| `Refinement.StepSimulates` | crates/simferret/src/runtime.rs:378-692 | each move of the runtime, folded under any growing command number, is one move of the checker's trace |
| `Refinement.RebuiltIsRead` | crates/simferret/src/runtime.rs:1567-1612 | in every run, for every invocation and both pipes, the stream the checker rebuilds is exactly the bytes read |
| `Refinement.RuntimeRunsAreAccepted` | crates/simferret/src/runtime.rs:378-1726 | for every run with one start per invocation, at most one terminate and growing commands: the checker finds a fault exactly when some line is too long; for every invocation, over or not, the rebuilt streams are the bytes read; every exit record states their totals and digests and the number of recorded frames |
| `GuestRuntime.GuestInvocation.WriteQueued` | crates/simferret/src/runtime.rs:267-293 | the write loop hands over a prefix of the queue and keeps the rest, through interruptions and partial writes |
| `GuestRuntime.GuestInvocation.FlushInput` | crates/simferret/src/runtime.rs:263-299 | fails exactly when the system does; otherwise the queue is empty or the pipe was full, and the pipe closes exactly when everything accepted was delivered and the end was requested |
| `GuestRuntime.GuestInvocation.AcceptFrame` | crates/simferret/src/runtime.rs:556-576 | an accepted frame is counted and queued whole, then written as far as the pipe takes it |
| `GuestRuntime.GuestInvocation.ReadChunk` | crates/simferret/src/runtime.rs:1567-1612 | one read: a chunk is counted, hashed, numbered and reported, the output limit is never passed, end of file is remembered |
| `GuestRuntime.GuestInvocation.DrainStream` | crates/simferret/src/runtime.rs:1535-1614 | within its share; a stream with bytes waiting gives at least one frame; it stops early only when the pipe is empty or ended |
| `GuestRuntime.GuestInvocation.DrainBatch` | crates/simferret/src/runtime.rs:1453-1488 | at most 64 frames and 65536 bytes, each stream with bytes waiting gets a frame, and on success the budget is spent or both pipes are empty or ended |
| `GuestRuntime.GuestInvocation.RecordReaped` | crates/simferret/src/runtime.rs:1618-1633 | the primary's first real status is kept and never replaced |
| `GuestRuntime.GuestInvocation.ReapChildren` | crates/simferret/src/runtime.rs:1640-1660 | reaping terminates, only adds, and an exit appears only with a newly reaped process |
| `GuestRuntime.GuestInvocation.Service` | crates/simferret/src/runtime.rs:648-668 | reap, flush, one bounded batch, reap, each a step of the machine: unless the wait is interrupted the pipes are left empty or the batch is spent, no ended child is left unreaped, and only the system or the output limit makes it fail |
| `GuestRuntime.GuestInvocation.DrainReady` | crates/simferret/src/runtime.rs:1434-1447 | a batch is drained when a pipe is ready, and otherwise both pipes are empty or ended |
| `GuestRuntime.GuestInvocation.Cleanup` | crates/simferret/src/runtime.rs:1668-1726 | success means both pipes ended with every byte read, hashed and reported, and the last two events are the exit record and the cleanup; it fails only by the system, the deadline or the output limit |
| `GuestRuntime.ProcessRuntime.DiscardFailedRoot` | crates/simferret/src/runtime.rs:698-712 | a failed start's root is gone, or remembered so that it blocks every later start |
| `GuestRuntime.ProcessRuntime.Launch` | crates/simferret/src/runtime.rs:420-497 | after the identifier is taken every stage may fail; success leaves a fresh active invocation |
| `GuestRuntime.ProcessRuntime.Start` | crates/simferret/src/runtime.rs:378-497 | judged exactly: blocked only by a leftover root that cannot be removed, busy exactly when something is active, repeated exactly when the identifier is not above the last; otherwise the identifier is taken and only a failure of the system prevents a fresh invocation, whose root is then the only one on disk |
| `GuestRuntime.ProcessRuntime.StdinWrite` | crates/simferret/src/runtime.rs:506-576 | which check refuses a frame, in order; a refused frame changes nothing, an accepted one is appended whole and acknowledged unless the system fails |
| `GuestRuntime.ProcessRuntime.StdinEof` | crates/simferret/src/runtime.rs:581-613 | acknowledged, at the current offset, exactly when the end of input may still be requested and the system does not fail: afterwards, after a termination or for another invocation, it is refused and changes nothing |
| `GuestRuntime.ProcessRuntime.Terminate` | crates/simferret/src/runtime.rs:618-643 | acknowledged exactly when the invocation is the active one, its exit is not known and the system does not fail |
| `GuestRuntime.ProcessRuntime.Poll` | crates/simferret/src/runtime.rs:648-677 | the slot is freed only after the barrier was reported and the root is gone; a live invocation is left with its pipes empty or a batch spent and every ended child reaped; nothing is reported that a command must ask for; it fails only by the system or the output limit |
| `GuestRuntime.ProcessRuntime.Shutdown` | crates/simferret/src/runtime.rs:680-692 | success leaves nothing active, with the barrier reported and the root gone; nothing is reported that a command must ask for |
| `GuestAgent.Agent.Switch` | crates/simferret/src/agent.rs:241-289 | configure, activate and restore are refused exactly when profile or peer is wrong or the switch is out of turn, with the refusal of the first check that fails, and otherwise set the flags unless the system fails |
| `GuestAgent.Agent.Fetch` | crates/simferret/src/agent.rs:290-331 | a request is refused exactly without a network or outside the bounds of the fixture; otherwise it is attempted, and its failure is reported as prohibited exactly for the error number of a prohibited route |
| `GuestAgent.Agent.WriteInput` | crates/simferret/src/agent.rs:354-365 | input is refused as unreadable, empty or out of place only when the command stream is at fault |
| `GuestAgent.Agent.Emit` | crates/simferret/src/agent.rs:398-421 | events are numbered without a gap and exactly the assertion events are kept |
| `GuestAgent.Agent.Dispatch` | crates/simferret/src/agent.rs:235-388 | a command is carried out only if the agent and the runtime admit it; an admitted one is refused, and any one breaks off, only by a failure of the system or the output limit; it leaves the agent where the regime goes and emits exactly its events, numbered on; a permitted one is never refused for a reason of regime |
| `GuestAgent.Serve` | crates/simferret/src/agent.rs:116-186 | over any well-driven command stream, with the runtime serviced any number of times in between, every command is carried out in order, or the loop ends at a shutdown, at a command that is not admitted, or by a failure of the system or the output limit; no refusal that guards the regime is reached, and the emitted events fold into a trace with no fault but over-long lines |
| `GuestAgent.Agent.EmitsCleanly` | crates/simferret/src/agent.rs:116-421 | after any well-driven commands the trace of everything emitted has no fault but over-long lines |
| `Courtesy.StepIsCarried` | crates/simferret/src/runtime.rs:378-692 | a step of the runtime whose frames keep the promises of the host keeps the trace standing for the runtime, network confirmations in between |
| `Manners.AnswerIsMannerly` | crates/simferret/src/agent.rs:235-388 | the answer to any permitted command starts and terminates nothing twice, acknowledges input under a growing command and switches the network in order |
| `Session.ServeDrive` | crates/simferret/src/run.rs:1867-2086 | the commands of any drive, on whatever path it ended, served by any agent: no refusal of regime, no break but by the system or the output limit, and no fault in the emitted events but over-long lines |
| `Controller.WorkloadController.Absorb` | crates/simferret/src/run.rs:1589-1610 | a frame is taken exactly when it continues the stream and names an issued command; the trace stays the fold of what was received |
| `Controller.WorkloadController.Expect` | crates/simferret/src/run.rs:1638-1672 | on a reliable channel the awaited event is found exactly when it comes next but for output and, where allowed, the course of a workload, under fitting numbers; exactly the frames up to it are taken in |
| `Controller.WorkloadController.AwaitInputAccepted` | crates/simferret/src/run.rs:1678-1726 | on a reliable channel the wait ends exactly with the acknowledgement under the command or with the end of that invocation, whichever comes first after output alone |
| `Controller.WorkloadController.AwaitExit` | crates/simferret/src/run.rs:1734-1768 | the wait ends with the exit under the right command, gives up on a failure already visible in the trace, checked before anything is received, or is lost; on a reliable channel which of them is a function of what was and will be received |
| `Controller.WorkloadController.WriteStdin` | crates/simferret/src/run.rs:1817-1833 | at most one input command is sent, only to a healthy invocation, at the given offset; success means its exact acknowledgement arrived last |
| `Controller.WorkloadController.WaitForLine` | crates/simferret/src/run.rs:1842-1864 | the wait is over exactly when the invocation failed or has a further line, and that next line decides; on a reliable channel exactly the frames up to that moment are taken in |
| `Controller.NormalizedExact` | crates/simferret/src/protocol.rs:444-451 | normalizing gives exactly the events with the version, number, command and event of their frames |
| `Driver.BuildSteps` | crates/simferret/src/run.rs:1382-1408 | the schedule loop builds the specified schedule |
| `Driver.TakeStep` | crates/simferret/src/run.rs:1898-2031 | each step sends its one command at most once, exactly once when the drive goes on, goes on only once the switch, the expected line or the cleanup has been received, takes in the whole reply when it is the one hoped for, and stops right behind the frame in which the invocation fails |
| `Driving.ScheduleIsInOrder` | crates/simferret/src/run.rs:1382-1408 | the schedule activates the outage once and restores it once after that |
| `Driving.ScheduleHasNoRepeats` | crates/simferret/src/run.rs:1382-1408 | the schedule starts and terminates nothing twice |
| `Driving.StepIsPermitted` | crates/simferret/src/run.rs:1898-2031 | every step's command is permitted in its turn, its input offset included |
| `Driving.RunSteps` | crates/simferret/src/run.rs:1895-2031 | whatever the guest does, only permitted commands are sent, and the driver's outage flag is the guest's; a guest that answers as hoped up to a failing step is left right there |
| `Driving.RestoreAfterStop` | crates/simferret/src/run.rs:2038-2051 | an early stop under outage restores the network before anything else |
| `Driving.Drive` | crates/simferret/src/run.rs:1867-2086 | on every path, failures included, the commands sent are well driven; a finished run is numbered from one, ends with agent-stopped, leaves nothing on the channel and carries the report on its events; a guest that answers as hoped, to the end or up to a failing step, gets it finished with exactly those commands and events |
| `Fixture.RespondsAsPlanned` | poc/rfd3-workload/main.c:130-276 | each planned input draws exactly the planned response when the network is in the planned phase and the fixture serves the planned payload |
| `Fixture.RespondExact` | poc/rfd3-workload/main.c:224-276 | for any line: which command draws an echo of which token, the state, the descendant or the end, and that these are the only ones |
| `Fixture.SpoiledFileKills` | poc/rfd3-workload/main.c:206-215 | a served file that is not the commanded payload draws the mismatch message on standard error and exit status 1 |
| `Fixture.EchoesTellApart` | crates/simferret/src/checker.rs:46-51 | an echo line determines the seed and the invocation it answers |
| `HonestGuest.GuestIsAMachineRun` | crates/simferret/src/runtime.rs:309-712 | whatever commands the honest guest is sent, its runtime makes a run of the machine, and the runtime's events among its frames are what that run reports |
| `Mirror.PerformSimulates` | crates/simferret/src/checker.rs:344-623 | any steps the guest makes for a command keep its own counters and the trace of its events in agreement |
| `Mirror.InputReports` | crates/simferret/src/runtime.rs:506-576 | a line written and flushed to the fixture and its answer read back are the acknowledgement and the output frame the trace expects next |
| `Mirror.DyingReports` | crates/simferret/src/runtime.rs:1668-1726 | a line that kills the fixture gives the acknowledgement, the error line, the exit record with the true totals and digests, and the cleanup |
| `Honesty.EveryStepCarries` | crates/simferret/src/run.rs:1898-2031 | the honest reply to any step is the one the driver hopes for, changes the trace by an explicit update, and leaves guest and trace in agreement |
| `Completeness.RequestsRun` | crates/simferret/src/run.rs:1382-1408 | without corruption, after any number of requests: who printed what, which faults happened, and their answers two events later |
| `Verdict.FinalVerdict` | crates/simferret/src/checker.rs:742-1272 | the report on the uncorrupted honest final trace passes exactly when the outage bound is at least 2 and the liveness bound at least 3 |
| `Corruption.SpoiledReply` | crates/simferret/src/run.rs:2388-2404 | with corruption the honest guest answers the first request with the acknowledgement, the mismatch line, exit status 1 and the cleanup |
| `Corruption.SpoiledVerdict` | crates/simferret/src/checker.rs:742-1272 | the trace of a run that ended so fails every assertion, process safety and response integrity among them |
| `EndToEnd.HonestRunsPass` | crates/simferret/src/run.rs:1867-2086 | for every accepted scenario and valid plan the honest guest is driven to the end, or to the first request when it is corrupted; the report passes exactly when nothing is corrupted, the outage bound is at least 2 and the liveness bound at least 3; a corrupted run has 6 commands and 12 events and fails every assertion |
| `EndToEnd.HonestRunPasses` | crates/simferret/src/run.rs:1867-2086 | the driver itself, for every seed and every draw, over a reliable channel with any arrival timing, finishes the recording with that verdict, corrupted or not |
| `EndToEnd.TightBoundsFail` | crates/simferret/src/scenario.rs:150-154 | the tightest accepted bounds fail on every honest run, without any corruption |
| `Replay.SameFold` | crates/simferret/src/protocol.rs:444-451 | the fields normalization removes play no part in the trace |
| `Replay.CheckEnvelopes` | crates/simferret/src/run.rs:1023-1037 | recorded envelopes are accepted exactly when they count from one under the known version |
| `Replay.ReplayEvents` | crates/simferret/src/run.rs:1506-1543 | on a reliable channel replay succeeds exactly when the recording ends with agent-stopped and the stream has the recorded version, number, command and event frame by frame, with no surplus |
| `Replay.ReplayRecording` | crates/simferret/src/run.rs:970-993 | the whole replay: envelopes, the four recorded fields of every frame and the recomputed report, as an if and only if |
| `Replay.RecordThenReplay` | crates/simferret/src/run.rs:1506-1543 | what a run recorded replays exactly when version, number, command and event of every frame are equal, and the recomputed report is then the recorded one |
| `Trees.AncestorsAreProperPrefixes` | crates/simferret/src/workload/tree.rs:311-319 | the ancestor chain is exactly the proper prefixes |
| `LayerFolding.SortMembers` | crates/simferret/src/workload/oci.rs:799-812 | members are sorted exactly when paths are distinct and every marker is well formed |
| `Layers.SplitExact` | crates/simferret/src/workload/oci.rs:756-797 | a member is an addition, an opaque marker of a directory or a whiteout of a name exactly when its path has that form, with the marker in the last component only and an empty regular file behind it |
| `LayerFolding.CheckMarkers` | crates/simferret/src/workload/oci.rs:818-844 | the nested loops refuse exactly when a marker goes through a symbolic link the layer does not replace |
| `LayerFolding.CanonicalTree.AddMember` | crates/simferret/src/workload/oci.rs:855-880 | adding one path in place equals the specification, refusal included |
| `LayerFolding.CanonicalTree.ApplyLayer` | crates/simferret/src/workload/oci.rs:799-894 | the in-place fold of a layer equals the specification on every tree and member list |
| `LayerLaws.MarkersActAtOnce` | crates/simferret/src/workload/oci.rs:848-853 | markers applied one by one remove exactly what any of them covers in the lower tree |
| `LayerLaws.AdditionsAreLaid` | crates/simferret/src/workload/oci.rs:855-880 | additions succeed exactly when each finds its ancestors open in its turn, and amount to a closed formula |
| `LayerLaws.LayerIsDeclarative` | crates/simferret/src/workload/oci.rs:799-894 | a layer is accepted exactly under a stated condition, and every path of the result is given by the closed formula |
| `LayerLaws.MarkersMayMove` | crates/simferret/src/workload/oci.rs:799-894 | any member reordering that keeps the order of additions has the same outcome, refusal included |
| `LayerLaws.EveryOrderAgrees` | crates/simferret/src/workload/oci.rs:799-894 | any two member orders that succeed give the same tree, with no condition on the additions |
| `Assembly.LayerKeepsWellFormed` | crates/simferret/src/workload/oci.rs:756-894 | an accepted layer keeps every ancestor a present directory and every component free of marker names |
| `Assembly.ImagesAreWellFormed` | crates/simferret/src/workload/oci.rs:195-235 | every accepted stack of layers gives a well-formed tree whose root is a directory |
| `Assembly.Assemble` | crates/simferret/src/workload/oci.rs:195-235 | the layer loop with its bounds and root check equals the stack specification |
| `Assembly.OpaqueIsExplicit` | crates/simferret/src/workload/oci.rs:827-892 | a layer with an opaque marker equals the layer with a whiteout of each lower child, except that it also refuses an unreplaced link or a surviving non-directory at its own target |
| `Assembly.SpelledOut` | crates/simferret/src/workload/oci.rs:827-853 | every opaque marker can be spelled out that way |
| `Paths.NormalizedIsNormal` | crates/simferret/src/workload/tree.rs:333-362 | a normalized layer path has only proper components |
| `Paths.PiecesJoin` | crates/simferret/src/workload/tree.rs:341-349 | splitting a path at a slash: the pieces of both sides one after the other; with `Paths.OnePiece` for a side without a slash this determines the pieces of every path |
| `Paths.NormalizeExact` | crates/simferret/src/workload/tree.rs:333-362 | for any pieces joined by slashes, and every path is of that form: refused exactly when the path is empty, absolute, holds a NUL or an upward piece or is too long, and otherwise its pieces without the empty ones and the dots |
| `Paths.PiecesOfRendered` | crates/simferret/src/workload/tree.rs:321-362 | splitting the byte form of a normal path gives its components back |
| `Paths.DescendantBytes` | crates/simferret/src/workload/tree.rs:148-164 | the byte test for a descendant is the component test |
| `Symlinks.ResolveSymlink` | crates/simferret/src/workload/tree.rs:398-453 | the loop over a growing component list ends on every tree, cyclic links included, with the specified result |
| `Symlinks.WalkExact` | crates/simferret/src/workload/tree.rs:398-453 | the bounded loop finds a path exactly when recursive link-by-link resolution leads there within forty links |
| `Symlinks.WalkStaysInside` | poc/rfd3-phase0/oci_prototype.py:298-339 | a resolved path stays in the root, has no dot components, and none of its prefixes is a link |
| `Symlinks.ValidateSymlinks` | crates/simferret/src/workload/tree.rs:387-396 | the validation loop succeeds exactly when every link of the tree resolves |
| `Symlinks.ValidatedLinks` | crates/simferret/src/workload/tree.rs:387-453 | in a validated well-formed tree each link leads, from its own directory and within forty links, to a link-free place inside the root |
| `Encoding.Encode` | crates/simferret/src/workload/tree.rs:183-209 | the encoder writes the records of the tree's one byte-ordered listing, whichever way that listing is obtained |
| `Encoding.DecodeEncode` | crates/simferret/src/workload/tree.rs:183-209 | the encoding of any fitting records decodes to exactly them |
| `Encoding.DecodesTo` | crates/simferret/src/workload/tree.rs:183-209 | what the encoding of a tree decodes to, field by field: path, mode, owner, group, time, kind, length and digest, or target of every entry in byte order |
| `Encoding.OneListing` | poc/rfd3-phase0/oci_prototype.py:544-564 | a tree has one byte-ordered listing, so its encoding depends on the tree alone |
| `Encoding.BeforeExact` | crates/simferret/src/workload/tree.rs:174-209 | the order of the listing is that of bytes: a proper beginning first, and otherwise the first differing byte decides |
| `Encoding.EveryTreeIsListed` | crates/simferret/src/workload/tree.rs:174-209 | every tree of normal paths has a byte-ordered listing |
| `Encoding.EncodingDetermines` | poc/rfd3-phase0/oci_prototype.py:544-564 | one encoding means the same paths with the same kind, mode, owner, group, time, link target, file length and digest |
| `Encoding.EncodingIsInjective` | crates/simferret/src/workload/tree.rs:174-209 | when the digest separates the contents, different trees never share an encoding |
| `Serial.SerialBuffer.NextLine` | crates/simferret/src/agent.rs:484-497 | the search resumes where it stopped and inspects no byte twice |
| `Serial.SerialBuffer.Feed` | crates/simferret/src/agent.rs:449-519 | one chunk: every byte acknowledged and inspected once, the completed non-empty lines delivered, failure exactly when some line is too long |
| `Serial.ReadAll` | crates/simferret/src/agent.rs:449-519 | for every chunking the bodies are the non-empty lines of the whole stream, refused exactly when one is too long, clean at the end exactly without an unfinished line |
| `Serial.ReadAcknowledgedLine` | crates/simferret/src/protocol.rs:538-575 | the byte-wise reader: which of line, clean end, truncation and oversize, and how many bytes are acknowledged |
| `Assertions.OneReport` | crates/simferret/src/assertions.rs:59-235 | for any events, the prefix, the history the guest keeps of it, and the full recording have one report |
| `NetworkMeaning.ReportMeans` | crates/simferret/src/assertions.rs:59-235 | for any events each of the four assertions holds exactly when the events say so: no mismatch and an early success, a prohibited request inside the outage and the bound, a restoration after the activation, and a recovery after it within the bound |
| `NetworkMeaning.ReportIsSemantic` | crates/simferret/src/assertions.rs:59-235 | the report depends on nothing but number, command and event of the frames |
| `Network.PlanIsValid` | crates/simferret/src/scenario.rs:226-297 | for every accepted scenario and every draw the network plan is well formed |
| `Network.HonestNumbers` | crates/simferret/src/run.rs:1098-1140 | an honest run is numbered from one, two events a request and one a switch |
| `Network.HonestVerdict` | crates/simferret/src/assertions.rs:59-268 | with any accepted bounds an honest run passes all four assertions, and a corrupted one fails safety and nothing else |
| `Scenarios.FixtureServes` | crates/simferret/src/run.rs:2388-2404 | the fixture serves each request its own payload, the first one spoiled when corrupting |
| `NetworkDrive.NetworkController.Issue` | crates/simferret/src/run.rs:1207-1272 | success means the whole valid answer was taken in, in order, under the command; a replay sends nothing and on a reliable channel succeeds exactly when the answer stands next in the stream and is the recorded one |
| `NetworkDrive.HostAcceptsReports` | crates/simferret/src/run.rs:1275-1363 | the host accepts exactly the answers an agent may give to a network command |
| `NetworkDrive.ValidateProfile` | crates/simferret/src/run.rs:1346-1363 | the loop over a received report accepts exactly the four assertions, each once, with a summary that agrees with them |
| `Session.AgentIsAccepted` | crates/simferret/src/agent.rs:241-342 | whatever the agent reports of a network command is a valid answer to the host |
| `NetworkDrive.Conclude` | crates/simferret/src/run.rs:1141-1165 | success means the guest's report is the host's, and the last event is the stop |
| `NetworkDrive.DriveNetwork` | crates/simferret/src/run.rs:1098-1175 | a finished run has exactly 2n+5 events numbered from one and its report is that of the full recording; a replay sends nothing and on a reliable channel finishes exactly when every command is answered in its turn by the recorded events and nothing follows; against the honest guest a run finishes and passes unless corrupted |
| `NetworkReplay.RecordThenReplay` | crates/simferret/src/run.rs:1098-1175 | what one network run recorded a replay accepts exactly when version, number, command and event of every frame are equal, and the report comes out the same |

## Left out

- GuestRuntime.ProcessRuntime.Terminate: when the signal itself fails the source keeps the invocation marked as terminating; the model leaves it unmarked, because that error ends the agent.
- GuestRuntime.ProcessRuntime.StdinEof: refuses once the barrier completed while the root is still being removed; the source would acknowledge, but that state only arises after an error that ends the agent.
- GuestRuntime.ProcessRuntime.Launch: which launch failure is reported by the preparation and spawn stages is left open.
- GuestRuntime.GuestInvocation.ReadChunk: the file descriptor that may be missing is not modelled; a pipe is always there.
- Traces.WorkloadTrace.Push: works on bytes; invalid UTF-8 is not replaced, which only matters for lines that are no expected response.
- Fixture.RespondsAsPlanned: system calls of the fixture that fail (its state file, fork, socket and timeout) are not modelled.
- EndToEnd.HonestRunsPass: the honest guest reports each line in one frame and ends a reply before the next command; other framings and timings are the subject of `Streams.FramingDoesNotMatter`, `Refinement.RuntimeRunsAreAccepted` and `GuestAgent.Serve`.
- Assertions.OneReport: the report carries pass or fail for each assertion, not the wording of its detail.
- Assembly.ImagesAreWellFormed: the entry and byte bounds of a tree are one predicate parameter, since no result depends on their values.
- Encoding.DecodeEncode: times are unsigned 32-bit as in the Rust encoder; the prototype's signed times are not modelled.
- GuestAgent.Agent.Fetch: the TFTP exchange is an open outcome; only the checks before it are modelled.
- SHA-256, JSON, TOML, tar and gzip: values start parsed, and hashing is a parameter.
- Forking, executing, mounting, signals and the process table: environment steps that may happen at any time.
- QEMU, QMP, publication of run directories, caches, failure bundles and log sanitizing: input and output around the modelled core.
- CPIO templates, ELF checks and launch normalization: stand-alone checks that nothing here depends on.
- The preflight of control frame sizes (run.rs 1416-1487): easy bounds; input frames are proved within their limit where they are sent.
